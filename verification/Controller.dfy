/** The controller as a transition system: every transaction of the state database and
    every step of the cron scheduler (controller/state/taskscheduler.go) is one atomic
    operation, and a run is any sequence of them, crashes and recoveries included. */
module Controller {
  import opened Wrappers
  import opened Tasks
  import opened Store
  import opened TaskStore
  import RecordChain

  /** The hash and signature, and the libraries that judge cron specifications and durations. */
  datatype Env = Env(codec: Codec, cronOk: string -> bool, duration: string -> Option<int>)

  /** How far the current run of a job has come: nothing under way; the task was read; the
      check for an unfinished child found none. */
  datatype Phase = Idle | Loaded(task: Task, tag: string) | Clear(task: Task, tag: string)

  datatype Job = Job(
    taskID: string,
    schedule: string,
    limit: string,
    expireAt: Option<int>,
    runCount: nat,
    phase: Phase)

  type Jobs = map<nat, Job>

  /** `db` is durable. The rest lives in the process: the cron entries, the tasks about to
      be scheduled by some goroutine, the tasks whose expired job is about to delete its
      row, and those where that deletion failed, and the retrievals that a successful
      storage deal asked for and that are still to be saved. `used` records every task id
      ever generated. */
  datatype Process = Up | Down

  datatype World = World(
    db: Tables,
    jobs: Jobs,
    nextJob: nat,
    pending: map<string, Task>,
    expiring: set<string>,
    stuck: set<string>,
    owed: multiset<RetrievalTask>,
    process: Process,
    used: set<string>)

  datatype Deal = StorageDeal(storage: StorageTask) | RetrievalDeal(retrieval: RetrievalTask)

  datatype Op =
    | NewTask(uuid: string, deal: Deal)
    | Pop(id: string, worker: string, status: int, tags: seq<string>)
    | UpdateOp(id: string, req: UpdateTask)
    | SaveFollowUp(uuid: string, retrieval: RetrievalTask)
    | FollowUpFails(retrieval: RetrievalTask)
    | Publish(worker: string)
    | ResetWorker(worker: string, ids: seq<string>)
    | Delete(id: string)
    | Drain(worker: string)
    | Undrain(worker: string)
    | ArchiveStages(stages: seq<StageDetails>)
    | StartJob(id: string)
    | Load(j: nat)
    | Count(j: nat)
    | CountFails(j: nat)
    | Create(j: nat, uuid: string)
    | Abort(j: nat)
    | Expire(id: string)
    | ExpireFails(id: string)
    | Crash
    | Recover
    | Tick(d: nat)

  function TaskOf(uuid: string, deal: Deal): Task {
    match deal
    case StorageDeal(s) => New(uuid, None, Some(s))
    case RetrievalDeal(r) => New(uuid, Some(r), None)
  }

  function TagOf(deal: Deal): string {
    match deal
    case StorageDeal(s) => s.tag.GetOr("")
    case RetrievalDeal(r) => r.tag.GetOr("")
  }

  // ---------- Scheduling ----------

  /** What scheduleTask accepts: a limit that parses, if any, and a cron specification. */
  predicate ValidSpec(env: Env, spec: (string, string)) {
    spec.0 != "" && (spec.1 == "" || env.duration(spec.1).Some?) && env.cronOk(spec.0)
  }

  function NewJob(env: Env, id: string, spec: (string, string), now: int): Job {
    Job(id, spec.0, spec.1,
        if spec.1 != "" && env.duration(spec.1).Some? then Some(now + env.duration(spec.1).value) else None,
        0, Idle)
  }

  function NewTaskStep(w: World, t: Task, tag: string): World {
    var saved := SaveTx(w.db, t, tag, "");
    if saved.Err? then w
    else w.(db := saved.value, used := w.used + {t.uuid},
            pending := if HasSchedule(t) then w.pending[t.uuid := t] else w.pending)
  }

  function PopStep(w: World, id: string, worker: string, status: int): World
    requires id in w.db.tasks
  {
    var r := PopTx(w.db, id, worker, status);
    w.(db := r.db, pending := if r.scheduled then w.pending[id := r.task.value] else w.pending)
  }

  function UpdateStep(c: Codec, w: World, id: string, req: UpdateTask): World {
    var r := UpdateTx(c, w.db, id, req);
    if r.Err? then w
    else
      var f := r.value.followUp;
      w.(db := r.value.db, owed := w.owed + if f.Some? then multiset{f.value} else multiset{})
  }

  /** The retrieval is saved like any client's, in a transaction of its own. */
  function FollowUpStep(w: World, uuid: string, rt: RetrievalTask): World {
    NewTaskStep(w.(owed := w.owed - multiset{rt}), TaskOf(uuid, RetrievalDeal(rt)), TagOf(RetrievalDeal(rt)))
  }

  function PublishStep(c: Codec, w: World, worker: string): World {
    var r := RecordChain.PublishTx(c, w.db, worker);
    if r.Err? then w else w.(db := r.value.0)
  }

  /** scheduleTask: an unscheduled task is handed back, an invalid specification is dropped,
      anything else becomes a cron entry. */
  function ScheduleStep(env: Env, w: World, t: Task): World {
    var spec := Schedule(t);
    if spec.0 == "" then w.(db := w.db.(tasks := SetOwner(w.db.tasks, t.uuid, None)))
    else if !ValidSpec(env, spec) then w
    else w.(jobs := w.jobs[w.nextJob := NewJob(env, t.uuid, spec, w.db.clock)], nextJob := w.nextJob + 1)
  }

  function StartJobStep(env: Env, w: World, id: string): World
    requires id in w.pending
  {
    ScheduleStep(env, w.(pending := w.pending - {id}), w.pending[id])
  }

  function ExpireStep(w: World, id: string): World { w.(db := DeleteTx(w.db, id), expiring := w.expiring - {id}) }

  /** The job is gone already, and the error of the deletion is only logged. */
  function ExpireFailsStep(w: World, id: string): World {
    w.(expiring := w.expiring - {id}, stuck := w.stuck + {id})
  }

  function CrashStep(w: World): World {
    w.(jobs := map[], pending := map[], expiring := {}, stuck := {}, owed := multiset{}, process := Down)
  }

  function RecoverStep(w: World): World { w.(pending := SchedulerRows(w.db), process := Up) }

  function ArchiveStep(c: Codec, w: World, stages: seq<StageDetails>): World {
    w.(db := w.db.(blocks := Archive(c, w.db.blocks, Events(stages))))
  }

  function Finish(job: Job): Job { job.(phase := Idle, runCount := job.runCount + 1) }

  /** The first part of runTask: the row may be gone, rescheduled or expired. */
  function LoadStep(w: World, j: nat): World
    requires j in w.jobs
  {
    var job := w.jobs[j];
    if job.taskID !in w.db.tasks then w.(jobs := w.jobs - {j})
    else
      var row := w.db.tasks[job.taskID];
      if Schedule(row.data) != (job.schedule, job.limit) then
        w.(jobs := w.jobs - {j}, pending := w.pending[job.taskID := row.data])
      else if job.expireAt.Some? && w.db.clock > job.expireAt.value then
        w.(jobs := w.jobs - {j}, expiring := w.expiring + {job.taskID})
      else w.(jobs := w.jobs[j := job.(phase := Loaded(row.data, row.tag.GetOr("")))])
  }

  /** The check for a previous child that is not yet finished. */
  function CountStep(w: World, j: nat): World
    requires j in w.jobs && w.jobs[j].phase.Loaded?
  {
    var job := w.jobs[j];
    if Children(w.db, job.taskID, SUCCESSFUL) != {} then w.(jobs := w.jobs[j := Finish(job)])
    else w.(jobs := w.jobs[j := job.(phase := Clear(job.phase.task, job.phase.tag))])
  }

  /** The error of the check is only logged: the count keeps its zero value. */
  function CountFailsStep(w: World, j: nat): World
    requires j in w.jobs && w.jobs[j].phase.Loaded?
  {
    var job := w.jobs[j];
    w.(jobs := w.jobs[j := job.(phase := Clear(job.phase.task, job.phase.tag))])
  }

  function ChildOf(job: Job, uuid: string): Task
    requires job.phase.Clear?
  {
    MakeRunable(job.phase.task, uuid, job.runCount)
  }

  function CreateStep(w: World, j: nat, uuid: string): World
    requires j in w.jobs && w.jobs[j].phase.Clear?
  {
    var job := w.jobs[j];
    var saved := SaveTx(w.db, ChildOf(job, uuid), job.phase.tag, job.taskID);
    if saved.Err? then w
    else w.(db := saved.value, jobs := w.jobs[j := Finish(job)], used := w.used + {uuid})
  }

  function SchedulerRows(db: Tables): map<string, Task> {
    map id | id in db.tasks && db.tasks[id].owner == Some(SCHEDULER) :: db.tasks[id].data
  }

  // ---------- The operations ----------

  predicate Enabled(w: World, op: Op) {
    match op
    case NewTask(uuid, _) => w.process.Up? && uuid !in w.used
    case SaveFollowUp(uuid, rt) => w.process.Up? && uuid !in w.used && rt in w.owed
    case FollowUpFails(rt) => w.process.Up? && rt in w.owed
    case Pop(id, worker, status, tags) =>
      w.process.Up? && worker != "" && status != AVAILABLE && OldestAvailable(w.db.tasks, tags, id)
    case ResetWorker(worker, ids) =>
      w.process.Up? && Distinct(ids) && Members(ids) == WorkerTasks(w.db, worker, IN_PROGRESS)
    case StartJob(id) => w.process.Up? && id in w.pending
    case Load(j) => w.process.Up? && j in w.jobs && w.jobs[j].phase.Idle?
    case Count(j) => w.process.Up? && j in w.jobs && w.jobs[j].phase.Loaded?
    case CountFails(j) => w.process.Up? && j in w.jobs && w.jobs[j].phase.Loaded?
    case Create(j, uuid) => w.process.Up? && j in w.jobs && w.jobs[j].phase.Clear? && uuid !in w.used
    case Abort(j) => w.process.Up? && j in w.jobs
    case Expire(id) => w.process.Up? && id in w.expiring
    case ExpireFails(id) => w.process.Up? && id in w.expiring
    case Recover => w.process.Down?
    case Tick(_) => true
    case _ => w.process.Up?
  }

  predicate JobOp(op: Op) {
    || op.StartJob? || op.Load? || op.Count? || op.CountFails? || op.Create? || op.Abort?
    || op.Expire? || op.ExpireFails? || op.Crash? || op.Recover?
  }

  /** A step of the cron jobs, of their scheduling, or of the process as a whole. */
  function JobStep(env: Env, w: World, op: Op): World
    requires Enabled(w, op) && JobOp(op)
  {
    match op
    case StartJob(id) => StartJobStep(env, w, id)
    case Load(j) => LoadStep(w, j)
    case Count(j) => CountStep(w, j)
    case CountFails(j) => CountFailsStep(w, j)
    case Create(j, uuid) => CreateStep(w, j, uuid)
    case Abort(j) => w.(jobs := w.jobs[j := Finish(w.jobs[j])])
    case Expire(id) => ExpireStep(w, id)
    case ExpireFails(id) => ExpireFailsStep(w, id)
    case Crash => CrashStep(w)
    case Recover => RecoverStep(w)
  }

  /** A transaction of a client or a worker, or the passing of time. */
  function ClientStep(env: Env, w: World, op: Op): World
    requires Enabled(w, op) && !JobOp(op)
  {
    match op
    case NewTask(uuid, deal) => NewTaskStep(w, TaskOf(uuid, deal), TagOf(deal))
    case Pop(id, worker, status, _) => PopStep(w, id, worker, status)
    case UpdateOp(id, req) => UpdateStep(env.codec, w, id, req)
    case SaveFollowUp(uuid, rt) => FollowUpStep(w, uuid, rt)
    case FollowUpFails(rt) => w.(owed := w.owed - multiset{rt})
    case Publish(worker) => PublishStep(env.codec, w, worker)
    case ResetWorker(_, ids) => w.(db := ResetAll(w.db, ids))
    case Delete(id) => w.(db := DeleteTx(w.db, id))
    case Drain(worker) => w.(db := w.db.(drained := w.db.drained + {worker}))
    case Undrain(worker) => w.(db := w.db.(drained := w.db.drained - {worker}))
    case ArchiveStages(stages) => ArchiveStep(env.codec, w, stages)
    case Tick(d) => w.(db := w.db.(clock := w.db.clock + d))
  }

  /** An operation that is not enabled, and a transaction that fails, change nothing. */
  function Apply(env: Env, w: World, op: Op): World {
    if !Enabled(w, op) then w else if JobOp(op) then JobStep(env, w, op) else ClientStep(env, w, op)
  }

  function Run(env: Env, w: World, ops: seq<Op>): World {
    if ops == [] then w else Apply(env, Run(env, w, ops[..|ops| - 1]), ops[|ops| - 1])
  }

  const START: World := World(EMPTY, map[], 0, map[], {}, {}, multiset{}, Up, {})

  /** No worker goes by the scheduler's name. */
  predicate Admissible(op: Op) { op.Pop? ==> op.worker != SCHEDULER }

  // ---------- Invariant ----------

  predicate Scheduled(ts: TaskTable, id: string) { id in ts && ts[id].owner == Some(SCHEDULER) }

  /** At most one live job, pending scheduling, expiry or failed expiry per task. */
  predicate OneEach(w: World) {
    && (forall i, j | i in w.jobs && j in w.jobs && i != j :: w.jobs[i].taskID != w.jobs[j].taskID)
    && (forall i | i in w.jobs ::
         && i < w.nextJob
         && w.jobs[i].taskID !in w.pending && w.jobs[i].taskID !in w.expiring && w.jobs[i].taskID !in w.stuck)
    && w.pending.Keys !! w.expiring && w.pending.Keys !! w.stuck && w.expiring !! w.stuck
  }

  predicate IdsUsed(w: World) {
    && w.db.tasks.Keys <= w.used
    && w.pending.Keys <= w.used
    && w.expiring <= w.used && w.stuck <= w.used
    && (forall i | i in w.jobs :: w.jobs[i].taskID in w.used)
  }

  /** A job, or a scheduling under way, speaks for a scheduler-owned row with that very schedule. */
  predicate JobMatches(env: Env, ts: TaskTable, job: Job) {
    && ValidSpec(env, (job.schedule, job.limit))
    && (job.taskID in ts ==> Scheduled(ts, job.taskID) && Schedule(ts[job.taskID].data) == (job.schedule, job.limit))
  }

  predicate PendingMatches(ts: TaskTable, id: string, t: Task) {
    && t.uuid == id && HasSchedule(t)
    && (id in ts ==> Scheduled(ts, id) && Schedule(ts[id].data) == Schedule(t))
  }

  predicate AllMatch(env: Env, w: World) {
    && (forall i | i in w.jobs :: JobMatches(env, w.db.tasks, w.jobs[i]))
    && (forall id | id in w.pending :: PendingMatches(w.db.tasks, id, w.pending[id]))
    && (forall id | id in w.expiring && id in w.db.tasks :: Scheduled(w.db.tasks, id))
  }

  predicate HasJob(jobs: Jobs, id: string) { exists i | i in jobs :: jobs[i].taskID == id }

  predicate Covered(w: World, id: string) {
    id in w.pending || id in w.expiring || id in w.stuck || HasJob(w.jobs, id)
  }

  /** No schedulable row is forgotten, except where the deletion of an expired one failed. */
  ghost predicate Live(env: Env, w: World) {
    forall id | Scheduled(w.db.tasks, id) && ValidSpec(env, Schedule(w.db.tasks[id].data)) :: Covered(w, id)
  }

  /** While the process is up, jobs and rows agree and no row is forgotten; while it is down,
      nothing is left of the jobs. */
  ghost predicate JobInv(env: Env, w: World) {
    match w.process
    case Up => OneEach(w) && IdsUsed(w) && AllMatch(env, w) && Live(env, w)
    case Down => w.jobs == map[] && w.pending == map[] && w.expiring == {} && w.stuck == {} && IdsUsed(w)
  }

  predicate DbInv(env: Env, db: Tables) {
    TaskInv(db.tasks, db.ledger, db.clock) && RecordChain.RecordInv(env.codec, db.blocks, db.records, db.clock)
  }

  ghost predicate Inv(env: Env, w: World) {
    DbInv(env, w.db) && JobInv(env, w)
  }

  // ---------- Frames ----------

  /** Rows may go or change, but none appears, and none gains, loses or changes a schedule. */
  predicate SameSchedules(ts: TaskTable, ts': TaskTable) {
    forall id | id in ts' ::
      && id in ts
      && (Scheduled(ts, id) <==> Scheduled(ts', id))
      && Schedule(ts'[id].data) == Schedule(ts[id].data)
  }

  lemma JobsSurvive(env: Env, w: World, db: Tables)
    requires JobInv(env, w) && SameSchedules(w.db.tasks, db.tasks)
    ensures JobInv(env, w.(db := db))
  {
    forall i | i in w.jobs
      ensures JobMatches(env, db.tasks, w.jobs[i])
    {
      assert JobMatches(env, w.db.tasks, w.jobs[i]);
    }
    forall id | id in w.pending
      ensures PendingMatches(db.tasks, id, w.pending[id])
    {
      assert PendingMatches(w.db.tasks, id, w.pending[id]);
    }
    if w.process.Up? {
      forall id | Scheduled(db.tasks, id) && ValidSpec(env, Schedule(db.tasks[id].data))
        ensures Covered(w, id)
      {
        assert Scheduled(w.db.tasks, id);
      }
    }
  }

  lemma RecordInvLater(c: Codec, db: Tables, later: int)
    requires RecordChain.RecordInv(c, db.blocks, db.records, db.clock) && db.clock <= later
    ensures RecordChain.RecordInv(c, db.blocks, db.records, later)
  {
  }

  /** A transaction on the task tables alone. */
  lemma TaskOpKeepsInv(env: Env, w: World, db: Tables)
    requires Inv(env, w)
    requires TaskInv(db.tasks, db.ledger, db.clock) && db.records == w.db.records && db.blocks == w.db.blocks
    requires w.db.clock <= db.clock && SameSchedules(w.db.tasks, db.tasks)
    ensures Inv(env, w.(db := db))
  {
    RecordInvLater(env.codec, w.db, db.clock);
    JobsSurvive(env, w, db);
  }

  /** A transaction on records and blocks alone. */
  lemma RecordOpKeepsInv(env: Env, w: World, db: Tables)
    requires Inv(env, w)
    requires RecordChain.RecordInv(env.codec, db.blocks, db.records, db.clock)
    requires db.tasks == w.db.tasks && db.ledger == w.db.ledger && w.db.clock <= db.clock
    ensures Inv(env, w.(db := db))
  {
  }

  // ---------- One lemma per operation ----------

  lemma NewTaskKeepsInv(env: Env, w: World, t: Task, tag: string)
    requires Inv(env, w) && w.process.Up? && t.uuid !in w.used && Fresh(t)
    ensures Inv(env, NewTaskStep(w, t, tag))
  {
    var db := SaveTx(w.db, t, tag, "").value;
    SavedDbInv(env, w.db, t, tag, "");
    AddedRow(env, w, db, t, if HasSchedule(t) then w.pending[t.uuid := t] else w.pending);
  }

  lemma FollowUpKeepsInv(env: Env, w: World, uuid: string, rt: RetrievalTask)
    requires Inv(env, w) && w.process.Up? && uuid !in w.used
    ensures Inv(env, FollowUpStep(w, uuid, rt))
  {
    hide Inv, NewTaskStep;
    OwedKeepsInv(env, w, w.owed - multiset{rt});
    NewTaskKeepsInv(env, w.(owed := w.owed - multiset{rt}), TaskOf(uuid, RetrievalDeal(rt)), TagOf(RetrievalDeal(rt)));
  }

  lemma SavedDbInv(env: Env, db: Tables, t: Task, tag: string, parent: string)
    requires DbInv(env, db) && t.uuid !in db.tasks && Fresh(t)
    ensures DbInv(env, SaveTx(db, t, tag, parent).value)
  {
    SaveKeepsInv(db, t, tag, parent);
    SaveAdds(db, t, tag, parent);
    RecordInvLater(env.codec, db, db.clock + 1);
  }

  /** A new row, scheduled or not, with its scheduling pending when it needs one. */
  lemma AddedRow(env: Env, w: World, db: Tables, t: Task, pending: map<string, Task>)
    requires JobInv(env, w) && w.process.Up? && t.uuid !in w.used
    requires t.uuid in db.tasks && db.tasks == w.db.tasks[t.uuid := db.tasks[t.uuid]]
    requires db.tasks[t.uuid].data == t && (Scheduled(db.tasks, t.uuid) <==> HasSchedule(t))
    requires pending == if HasSchedule(t) then w.pending[t.uuid := t] else w.pending
    ensures JobInv(env, w.(db := db, used := w.used + {t.uuid}, pending := pending))
  {
    var w' := w.(db := db, used := w.used + {t.uuid}, pending := pending);
    AddedRowMatches(env, w, db, t, pending);
    forall id | Scheduled(db.tasks, id) && ValidSpec(env, Schedule(db.tasks[id].data))
      ensures Covered(w', id)
    {
      if id != t.uuid { assert Scheduled(w.db.tasks, id) && Covered(w, id); }
    }
  }

  lemma AddedRowMatches(env: Env, w: World, db: Tables, t: Task, pending: map<string, Task>)
    requires AllMatch(env, w) && IdsUsed(w) && t.uuid !in w.used
    requires t.uuid in db.tasks && db.tasks == w.db.tasks[t.uuid := db.tasks[t.uuid]]
    requires db.tasks[t.uuid].data == t && (Scheduled(db.tasks, t.uuid) <==> HasSchedule(t))
    requires pending == if HasSchedule(t) then w.pending[t.uuid := t] else w.pending
    ensures AllMatch(env, w.(db := db, used := w.used + {t.uuid}, pending := pending))
  {
  }

  lemma PoppedSchedules(ts: TaskTable, id: string, worker: string, status: int, now: int)
    requires id in ts && ts[id].owner.None? && worker != SCHEDULER
    ensures SameSchedules(ts, ts[id := PoppedRow(ts[id], worker, status, now)])
  {
  }

  lemma PoppedDb(env: Env, db: Tables, id: string, worker: string, status: int)
    requires DbInv(env, db) && id in db.tasks && db.tasks[id].owner.None? && worker != "" && worker != SCHEDULER
    ensures DbInv(env, PopTx(db, id, worker, status).db)
    ensures !PopTx(db, id, worker, status).scheduled
    ensures SameSchedules(db.tasks, PopTx(db, id, worker, status).db.tasks)
  {
    PoppedSchedules(db.tasks, id, worker, status, db.clock + 1);
    PopAssigns(db, id, worker, status);
    PopKeepsInv(db, id, worker, status);
    RecordInvLater(env.codec, db, db.clock + 2);
  }

  lemma PopKeepsAll(env: Env, w: World, id: string, worker: string, status: int)
    requires Inv(env, w) && id in w.db.tasks && w.db.tasks[id].owner.None? && worker != "" && worker != SCHEDULER
    ensures Inv(env, PopStep(w, id, worker, status))
  {
    var db := PopTx(w.db, id, worker, status).db;
    PoppedDb(env, w.db, id, worker, status);
    JobsSurvive(env, w, db);
    assert PopStep(w, id, worker, status) == w.(db := db);
  }

  lemma OneRowSchedules(ts: TaskTable, id: string, row: TaskRow)
    requires id in ts && Schedule(row.data) == Schedule(ts[id].data)
    requires ts[id].owner == Some(SCHEDULER) <==> row.owner == Some(SCHEDULER)
    ensures SameSchedules(ts, ts[id := row])
  {
  }

  lemma UpdatedDbInv(env: Env, db: Tables, id: string, req: UpdateTask)
    requires CollisionFree(env.codec) && DbInv(env, db) && UpdateTx(env.codec, db, id, req).Ok?
    ensures DbInv(env, UpdateTx(env.codec, db, id, req).value.db)
  {
    UpdateParts(env.codec, db, id, req);
    UpdateKeepsInv(env.codec, db, id, req);
    var u := UpdateTx(env.codec, db, id, req).value.task;
    LogRecords(env.codec, StoreUpdate(db, id, u, Reported(db.tasks[id].data, req)), u, req.workedBy);
  }

  lemma UpdatedSchedules(c: Codec, db: Tables, id: string, req: UpdateTask)
    requires UpdateTx(c, db, id, req).Ok?
    ensures SameSchedules(db.tasks, UpdateTx(c, db, id, req).value.db.tasks)
  {
    UpdateParts(c, db, id, req);
    OneRowSchedules(db.tasks, id, db.tasks[id].(data := Updated(db.tasks[id].data, req)));
  }

  /** What is owed concerns neither the tables nor the jobs. */
  lemma OwedKeepsInv(env: Env, w: World, owed: multiset<RetrievalTask>)
    requires Inv(env, w)
    ensures Inv(env, w.(owed := owed))
  {
    hide DbInv, JobMatches, PendingMatches, Covered;
    assert JobInv(env, w) ==> JobInv(env, w.(owed := owed)) by { CoveredAlike(w, owed); }
  }

  lemma CoveredAlike(w: World, owed: multiset<RetrievalTask>)
    ensures forall id :: Covered(w.(owed := owed), id) == Covered(w, id)
  {
  }

  lemma UpdateKeepsAll(env: Env, w: World, id: string, req: UpdateTask)
    requires CollisionFree(env.codec) && Inv(env, w)
    ensures Inv(env, UpdateStep(env.codec, w, id, req))
  {
    if UpdateTx(env.codec, w.db, id, req).Ok? {
      var db := UpdateTx(env.codec, w.db, id, req).value.db;
      UpdatedDbInv(env, w.db, id, req);
      UpdatedSchedules(env.codec, w.db, id, req);
      JobsSurvive(env, w, db);
      OwedKeepsInv(env, w.(db := db), UpdateStep(env.codec, w, id, req).owed);
    }
  }

  lemma PublishKeepsAll(env: Env, w: World, worker: string)
    requires CollisionFree(env.codec) && Inv(env, w)
    ensures Inv(env, PublishStep(env.codec, w, worker))
  {
    RecordChain.PublishKeepsInv(env.codec, w.db, worker);
    var db := RecordChain.PublishTx(env.codec, w.db, worker).value.0;
    assert db == w.db.(records := db.records, blocks := db.blocks, clock := db.clock);
    RecordOpKeepsInv(env, w, db);
    assert PublishStep(env.codec, w, worker) == w.(db := db);
  }

  /** A worker's tasks in progress are never scheduled tasks. */
  lemma WorkerTasksUnscheduled(db: Tables, worker: string, id: string)
    requires TaskInv(db.tasks, db.ledger, db.clock) && id in WorkerTasks(db, worker, IN_PROGRESS)
    ensures id in db.tasks && !HasSchedule(db.tasks[id].data) && db.tasks[id].owner != Some(SCHEDULER)
    ensures db.tasks[id].data.status == IN_PROGRESS
  {
  }

  lemma ResetRows(w: World, worker: string, ids: seq<string>)
    requires TaskInv(w.db.tasks, w.db.ledger, w.db.clock) && Enabled(w, ResetWorker(worker, ids))
    ensures forall id | id in ids :: id in w.db.tasks && !HasSchedule(w.db.tasks[id].data)
    ensures forall id | id in ids :: w.db.tasks[id].owner == Some(worker) && w.db.tasks[id].data.status == IN_PROGRESS
    ensures !exists id :: id in ids && Scheduled(w.db.tasks, id)
  {
    forall id | id in ids
      ensures id in w.db.tasks && !HasSchedule(w.db.tasks[id].data) && w.db.tasks[id].owner != Some(SCHEDULER)
      ensures w.db.tasks[id].owner == Some(worker) && w.db.tasks[id].data.status == IN_PROGRESS
    {
      assert id in Members(ids);
      WorkerTasksUnscheduled(w.db, worker, id);
    }
  }

  lemma ResetKeepsAll(env: Env, w: World, worker: string, ids: seq<string>)
    requires Inv(env, w) && Enabled(w, ResetWorker(worker, ids))
    ensures Inv(env, w.(db := ResetAll(w.db, ids)))
  {
    ResetRows(w, worker, ids);
    ResetAllRows(w.db, ids);
    ResetAllKeepsInv(w.db, ids);
    ResetSchedules(w.db, ids);
    TaskOpKeepsInv(env, w, ResetAll(w.db, ids));
  }

  lemma ResetSchedules(db: Tables, ids: seq<string>)
    requires forall id | id in ids :: id in db.tasks && !Scheduled(db.tasks, id)
    requires Distinct(ids)
    ensures SameSchedules(db.tasks, ResetAll(db, ids).tasks)
  {
    ResetAllRows(db, ids);
    forall id | id in db.tasks
      ensures Schedule(Reset(db.tasks[id].data)) == Schedule(db.tasks[id].data)
    {
      ScheduleAgrees(db.tasks[id].data, "", 0);
    }
  }

  lemma DeleteKeepsAll(env: Env, w: World, id: string)
    requires Inv(env, w)
    ensures Inv(env, w.(db := DeleteTx(w.db, id)))
  {
    DeleteKeepsInv(w.db, id);
    TaskOpKeepsInv(env, w, DeleteTx(w.db, id));
  }

  lemma ArchiveKeepsAll(env: Env, w: World, stages: seq<StageDetails>)
    requires CollisionFree(env.codec) && Inv(env, w)
    ensures Inv(env, ArchiveStep(env.codec, w, stages))
  {
    RecordChain.ArchiveEventsKeepsInv(env.codec, w.db.blocks, Events(stages), w.db.records, w.db.clock);
    RecordOpKeepsInv(env, w, w.db.(blocks := Archive(env.codec, w.db.blocks, Events(stages))));
  }

  /** Turning a pending scheduling into a job, or dropping it for good when its specification
      is invalid. The branch that hands the task back is not taken in a reachable state. */
  lemma ScheduleKeepsAll(env: Env, w: World, id: string)
    requires Inv(env, w) && w.process.Up? && id in w.pending
    ensures Inv(env, StartJobStep(env, w, id))
    ensures StartJobStep(env, w, id).db == w.db
  {
    var t := w.pending[id];
    assert PendingMatches(w.db.tasks, id, t);
    ScheduleAgrees(t, "", 0);
    if ValidSpec(env, Schedule(t)) {
      NewJobKeepsInv(env, w, id, NewJob(env, id, Schedule(t), w.db.clock));
    } else {
      PendingDropped(env, w, id);
    }
  }

  lemma NewJobKeepsInv(env: Env, w: World, id: string, job: Job)
    requires JobInv(env, w) && w.process.Up? && id in w.pending
    requires job.taskID == id && JobMatches(env, w.db.tasks, job)
    ensures JobInv(env, w.(pending := w.pending - {id}, jobs := w.jobs[w.nextJob := job], nextJob := w.nextJob + 1))
  {
    hide ValidSpec, Schedule, HasSchedule;
    var w' := w.(pending := w.pending - {id}, jobs := w.jobs[w.nextJob := job], nextJob := w.nextJob + 1);
    forall other | Scheduled(w.db.tasks, other) && ValidSpec(env, Schedule(w.db.tasks[other].data))
      ensures Covered(w', other)
    {
      assert Covered(w, other);
      if other == id {
        assert w'.jobs[w.nextJob].taskID == id;
      } else if HasJob(w.jobs, other) {
        var i :| i in w.jobs && w.jobs[i].taskID == other;
        assert i in w'.jobs && w'.jobs[i].taskID == other;
      }
    }
  }

  lemma PendingDropped(env: Env, w: World, id: string)
    requires JobInv(env, w) && w.process.Up? && id in w.pending && !ValidSpec(env, Schedule(w.pending[id]))
    ensures JobInv(env, w.(pending := w.pending - {id}))
  {
  }

  /** A job that leaves the cron table hands its task to `pending` or `expiring`, or its row is gone. */
  lemma JobLeaves(env: Env, w: World, w': World, j: nat)
    requires Inv(env, w) && w.process.Up? && j in w.jobs
    requires var id := w.jobs[j].taskID;
      || (w' == w.(jobs := w.jobs - {j}) && id !in w.db.tasks)
      || (w' == w.(jobs := w.jobs - {j}, expiring := w.expiring + {id}))
    ensures Inv(env, w')
  {
    hide DbInv, ValidSpec, Schedule, HasSchedule;
    forall other | Scheduled(w.db.tasks, other) && ValidSpec(env, Schedule(w.db.tasks[other].data))
      ensures Covered(w', other)
    {
      assert Covered(w, other);
      if HasJob(w.jobs, other) && other != w.jobs[j].taskID {
        var i :| i in w.jobs && w.jobs[i].taskID == other;
        assert i in w'.jobs && w'.jobs[i].taskID == other;
      }
    }
  }

  /** A job that stays in the table under the same task and schedule. */
  lemma JobMoves(env: Env, w: World, j: nat, job: Job)
    requires Inv(env, w) && w.process.Up? && j in w.jobs
    requires job == w.jobs[j].(phase := job.phase, runCount := job.runCount)
    ensures Inv(env, w.(jobs := w.jobs[j := job]))
  {
    hide DbInv, ValidSpec, Schedule;
    var w' := w.(jobs := w.jobs[j := job]);
    assert JobMatches(env, w.db.tasks, w.jobs[j]);
    forall other | Scheduled(w.db.tasks, other) && ValidSpec(env, Schedule(w.db.tasks[other].data))
      ensures Covered(w', other)
    {
      assert Covered(w, other);
      if HasJob(w.jobs, other) {
        var i :| i in w.jobs && w.jobs[i].taskID == other;
        assert i in w'.jobs && w'.jobs[i].taskID == other;
      }
    }
  }

  lemma LoadKeepsAll(env: Env, w: World, j: nat)
    requires Inv(env, w) && w.process.Up? && j in w.jobs
    ensures Inv(env, LoadStep(w, j))
    ensures LoadStep(w, j).db == w.db && LoadStep(w, j).pending == w.pending
  {
    var job := w.jobs[j];
    assert JobMatches(env, w.db.tasks, job);
    if job.taskID !in w.db.tasks || (job.expireAt.Some? && w.db.clock > job.expireAt.value) {
      JobLeaves(env, w, LoadStep(w, j), j);
    } else {
      var row := w.db.tasks[job.taskID];
      JobMoves(env, w, j, job.(phase := Loaded(row.data, row.tag.GetOr(""))));
    }
  }

  lemma CreateKeepsAll(env: Env, w: World, j: nat, uuid: string)
    requires Inv(env, w) && w.process.Up? && j in w.jobs && w.jobs[j].phase.Clear? && uuid !in w.used
    ensures Inv(env, CreateStep(w, j, uuid))
  {
    var job := w.jobs[j];
    var child := ChildOf(job, uuid);
    var db := SaveTx(w.db, child, job.phase.tag, job.taskID).value;
    ScheduleAgrees(job.phase.task, uuid, job.runCount);
    SavedDbInv(env, w.db, child, job.phase.tag, job.taskID);
    SaveAdds(w.db, child, job.phase.tag, job.taskID);
    AddedRow(env, w, db, child, w.pending);
    JobMoves(env, w.(db := db, used := w.used + {uuid}), j, Finish(job));
  }

  lemma CountKeepsAll(env: Env, w: World, j: nat)
    requires Inv(env, w) && w.process.Up? && j in w.jobs && w.jobs[j].phase.Loaded?
    ensures Inv(env, CountStep(w, j))
  {
    hide Inv, Children;
    JobMoves(env, w, j, CountStep(w, j).jobs[j]);
  }

  lemma AbortKeepsAll(env: Env, w: World, j: nat)
    requires Inv(env, w) && w.process.Up? && j in w.jobs
    ensures Inv(env, w.(jobs := w.jobs[j := Finish(w.jobs[j])]))
  {
    hide Inv;
    JobMoves(env, w, j, Finish(w.jobs[j]));
  }

  lemma CrashKeepsAll(env: Env, w: World)
    requires Inv(env, w)
    ensures Inv(env, CrashStep(w))
  {
  }

  lemma RecoverKeepsAll(env: Env, w: World)
    requires Inv(env, w) && w.process.Down?
    ensures Inv(env, RecoverStep(w))
  {
    var rows := SchedulerRows(w.db);
    forall id | id in rows
      ensures PendingMatches(w.db.tasks, id, rows[id])
    {
      assert RowOk(w.db.tasks, w.db.ledger, w.db.clock, id);
    }
  }

  lemma DrainTickKeepsAll(env: Env, w: World, drained: set<string>, clock: int)
    requires Inv(env, w) && w.db.clock <= clock
    ensures Inv(env, w.(db := w.db.(drained := drained, clock := clock)))
  {
    RecordInvLater(env.codec, w.db, clock);
    RecordOpKeepsInv(env, w, w.db.(drained := drained, clock := clock));
  }

  lemma StartInv(env: Env)
    ensures Inv(env, START)
  {
  }

  /** The operations of clients and workers on tasks. */
  predicate TaskOp(op: Op) {
    op.NewTask? || op.Pop? || op.UpdateOp? || op.SaveFollowUp? || op.FollowUpFails? || op.ResetWorker? || op.Delete?
  }

  lemma ClientOpKeepsInv(env: Env, w: World, op: Op)
    requires CollisionFree(env.codec) && Inv(env, w) && Admissible(op) && TaskOp(op) && Enabled(w, op)
    ensures Inv(env, ClientStep(env, w, op))
  {
    hide Inv, NewTaskStep, FollowUpStep, PopStep, UpdateStep, ResetAll, DeleteTx;
    match op
    case NewTask(uuid, deal) => NewTaskKeepsInv(env, w, TaskOf(uuid, deal), TagOf(deal));
    case Pop(id, worker, status, _) => PopKeepsAll(env, w, id, worker, status);
    case UpdateOp(id, req) => UpdateKeepsAll(env, w, id, req);
    case SaveFollowUp(uuid, rt) => FollowUpKeepsInv(env, w, uuid, rt);
    case FollowUpFails(rt) => OwedKeepsInv(env, w, w.owed - multiset{rt});
    case ResetWorker(worker, ids) => ResetKeepsAll(env, w, worker, ids);
    case Delete(id) => DeleteKeepsAll(env, w, id);
  }

  lemma OtherOpKeepsInv(env: Env, w: World, op: Op)
    requires CollisionFree(env.codec) && Inv(env, w) && !TaskOp(op) && !JobOp(op) && Enabled(w, op)
    ensures Inv(env, ClientStep(env, w, op))
  {
    hide Inv, PublishStep, ArchiveStep;
    match op
    case Publish(worker) => PublishKeepsAll(env, w, worker);
    case Drain(worker) => DrainTickKeepsAll(env, w, w.db.drained + {worker}, w.db.clock);
    case Undrain(worker) => DrainTickKeepsAll(env, w, w.db.drained - {worker}, w.db.clock);
    case ArchiveStages(stages) => ArchiveKeepsAll(env, w, stages);
    case Tick(d) => DrainTickKeepsAll(env, w, w.db.drained, w.db.clock + d);
  }

  lemma JobOpKeepsInv(env: Env, w: World, op: Op)
    requires Inv(env, w) && JobOp(op) && Enabled(w, op)
    ensures Inv(env, JobStep(env, w, op))
  {
    hide Inv, StartJobStep, LoadStep, CreateStep, ExpireStep, ExpireFailsStep, RecoverStep, CountStep, Finish,
      CrashStep;
    match op
    case StartJob(id) => ScheduleKeepsAll(env, w, id);
    case Load(j) => LoadKeepsAll(env, w, j);
    case Create(j, uuid) => CreateKeepsAll(env, w, j, uuid);
    case Expire(id) => ExpireKeepsAll(env, w, id);
    case ExpireFails(id) => ExpireFailsKeepsAll(env, w, id);
    case Recover => RecoverKeepsAll(env, w);
    case Count(j) => CountKeepsAll(env, w, j);
    case CountFails(j) => JobMoves(env, w, j, w.jobs[j].(phase := Clear(w.jobs[j].phase.task, w.jobs[j].phase.tag)));
    case Abort(j) => AbortKeepsAll(env, w, j);
    case Crash => CrashKeepsAll(env, w);
  }

  lemma ApplyKeepsInv(env: Env, w: World, op: Op)
    requires CollisionFree(env.codec) && Inv(env, w) && Admissible(op)
    ensures Inv(env, Apply(env, w, op))
  {
    hide Inv, Enabled, JobOp, JobStep, ClientStep;
    if Enabled(w, op) {
      if JobOp(op) {
        JobOpKeepsInv(env, w, op);
      } else if TaskOp(op) {
        ClientOpKeepsInv(env, w, op);
      } else {
        OtherOpKeepsInv(env, w, op);
      }
    }
  }

  lemma ExpireFailsKeepsAll(env: Env, w: World, id: string)
    requires Inv(env, w) && w.process.Up? && id in w.expiring
    ensures Inv(env, ExpireFailsStep(w, id))
  {
    hide DbInv, ValidSpec, Schedule, HasSchedule;
    var w' := ExpireFailsStep(w, id);
    forall other | Scheduled(w.db.tasks, other) && ValidSpec(env, Schedule(w.db.tasks[other].data))
      ensures Covered(w', other)
    {
      assert Covered(w, other);
    }
  }

  lemma ExpireKeepsAll(env: Env, w: World, id: string)
    requires Inv(env, w) && w.process.Up? && id in w.expiring
    ensures Inv(env, ExpireStep(w, id))
  {
    DeleteKeepsAll(env, w, id);
    var w1 := w.(db := DeleteTx(w.db, id));
    var w' := ExpireStep(w, id);
    forall other | Scheduled(w'.db.tasks, other) && ValidSpec(env, Schedule(w'.db.tasks[other].data))
      ensures Covered(w', other)
    {
      assert Covered(w1, other);
    }
  }

  lemma {:induction false} RunKeepsInv(env: Env, w: World, ops: seq<Op>)
    requires CollisionFree(env.codec) && Inv(env, w) && forall op | op in ops :: Admissible(op)
    ensures Inv(env, Run(env, w, ops))
  {
    hide Apply, Inv, Admissible;
    if ops != [] {
      RunKeepsInv(env, w, ops[..|ops| - 1]);
      ApplyKeepsInv(env, Run(env, w, ops[..|ops| - 1]), ops[|ops| - 1]);
    }
  }

  /** Every reachable state, after any interleaving of clients, workers, cron jobs, crashes
      and recoveries, satisfies the whole invariant. */
  lemma ReachableInv(env: Env, ops: seq<Op>)
    requires CollisionFree(env.codec) && forall op | op in ops :: Admissible(op)
    ensures Inv(env, Run(env, START, ops))
  {
    hide Run, Inv, Admissible;
    StartInv(env);
    RunKeepsInv(env, START, ops);
  }

  // ---------- Single operations ----------

  lemma NewTaskApplied(env: Env, w: World, uuid: string, deal: Deal)
    requires w.process.Up? && uuid !in w.used
    ensures Apply(env, w, NewTask(uuid, deal)) == NewTaskStep(w, TaskOf(uuid, deal), TagOf(deal))
  {
    hide NewTaskStep, JobStep;
  }

  lemma PopApplied(env: Env, w: World, op: Op)
    requires op.Pop? && Enabled(w, op)
    ensures Apply(env, w, op) == PopStep(w, op.id, op.worker, op.status)
  {
    hide PopStep, JobStep;
  }

  lemma UpdateApplied(env: Env, w: World, id: string, req: UpdateTask)
    requires w.process.Up?
    ensures Apply(env, w, UpdateOp(id, req)) == UpdateStep(env.codec, w, id, req)
  {
    hide UpdateStep, JobStep;
  }

  lemma StartJobApplied(env: Env, w: World, id: string)
    requires w.process.Up? && id in w.pending
    ensures Apply(env, w, StartJob(id)) == StartJobStep(env, w, id)
  {
    hide StartJobStep, ClientStep;
  }

  // ---------- Runs in pieces ----------

  lemma RunOne(env: Env, w: World, op: Op)
    ensures Run(env, w, [op]) == Apply(env, w, op)
  {
  }

  lemma RunTwo(env: Env, w: World, a: Op, b: Op)
    ensures Run(env, w, [a, b]) == Apply(env, Apply(env, w, a), b)
  {
    hide Apply;
    assert [a, b][..1] == [a] && [a][..0] == [];
    assert Run(env, w, []) == w && Run(env, w, [a]) == Apply(env, w, a);
  }

  lemma RunSnoc(env: Env, w: World, ops: seq<Op>, op: Op)
    ensures Run(env, w, ops + [op]) == Apply(env, Run(env, w, ops), op)
  {
  }

  lemma {:induction false} RunConcat(env: Env, w: World, a: seq<Op>, b: seq<Op>)
    ensures Run(env, w, a + b) == Run(env, Run(env, w, a), b)
  {
    hide Apply;
    if b == [] {
      assert a + b == a;
    } else {
      assert (a + b)[..|a + b| - 1] == a + b[..|b| - 1];
      RunConcat(env, w, a, b[..|b| - 1]);
    }
  }
}
