/** What the operations on tasks write, field by field and in the terms of their arguments and
    of the rows before: new tasks, assignments, updates, resets and copies, and the history
    that the ledger keeps of them. */
module Writes {
  import opened Wrappers
  import opened Tasks
  import opened Store
  import opened TaskStore
  import opened Controller
  import opened Runs
  import FinalLogs
  import RecordChain
  import RecordRuns
  import Text

  // ---------- New tasks ----------

  /** What a client asks for is what is stored. */
  ghost predicate StoresDeal(deal: Deal, t: Task) {
    match deal
    case StorageDeal(s) => t.storage == Some(s) && t.retrieval.None?
    case RetrievalDeal(r) => t.retrieval == Some(r) && t.storage.None?
  }

  function DealTag(deal: Deal): Option<string> {
    match deal
    case StorageDeal(s) => s.tag
    case RetrievalDeal(r) => r.tag
  }

  function DealSchedule(deal: Deal): Option<string> {
    match deal
    case StorageDeal(s) => s.schedule
    case RetrievalDeal(r) => r.schedule
  }

  /** A column that holds the value, or nothing for an absent or empty one. */
  predicate Column(c: Option<string>, v: Option<string>) {
    if v.None? || v.value == "" then c.None? else c == v
  }

  /** The row of a task that has just come in, and its first entry in the ledger. */
  ghost predicate CameIn(db: Tables, db': Tables, id: string, deal: Deal) {
    && id !in db.tasks && id in db'.tasks && db'.tasks == db.tasks[id := db'.tasks[id]]
    && var row := db'.tasks[id];
       && row.data.uuid == id && StoresDeal(deal, row.data) && Fresh(row.data) && row.data.runCount == 0
       && db.clock < row.created <= db'.clock
       && Column(row.tag, DealTag(deal)) && row.parent.None?
       && row.owner == (if DealSchedule(deal).GetOr("") != "" then Some("dealbot_scheduler") else None)
       && db'.ledger == db.ledger[(id, row.created) := LedgerRow(1, "", 0)]
  }

  lemma SavedCameIn(db: Tables, id: string, deal: Deal)
    requires id !in db.tasks
    ensures SaveTx(db, TaskOf(id, deal), TagOf(deal), "").Ok?
    ensures CameIn(db, SaveTx(db, TaskOf(id, deal), TagOf(deal), "").value, id, deal)
  {
    hide SaveTx;
    SaveAdds(db, TaskOf(id, deal), TagOf(deal), "");
  }

  lemma NewTaskWrites(env: Env, w: World, op: Op)
    requires Inv(env, w) && op.NewTask? && Enabled(w, op)
    ensures CameIn(w.db, Apply(env, w, op).db, op.uuid, op.deal)
  {
    hide Apply, DbInv, OneEach, AllMatch, Live, SaveTx, CameIn, TaskOf;
    NewTaskApplied(env, w, op.uuid, op.deal);
    SavedCameIn(w.db, op.uuid, op.deal);
  }

  // ---------- Assignments ----------

  /** The task as it was, now started by the worker. */
  predicate StartedBy(t: Task, t': Task, worker: string, status: int, after: int, upto: int) {
    && t'.uuid == t.uuid && t'.retrieval == t.retrieval && t'.storage == t.storage
    && t'.stage == t.stage && t'.current == t.current && t'.past == t.past && t'.runCount == t.runCount
    && t'.status == status && t'.workedBy == Some(worker) && t'.errorMessage.None?
    && t'.startedAt.Some? && after < t'.startedAt.value <= upto
  }

  lemma AssignMeaning(t: Task, worker: string, status: int, now: int, after: int, upto: int)
    requires after < now <= upto
    ensures StartedBy(t, Assign(t, worker, status, now), worker, status, after, upto)
  {
  }

  lemma PopWrites(env: Env, w: World, op: Op)
    requires Inv(env, w) && op.Pop? && Enabled(w, op)
    ensures var db, db' := w.db, Apply(env, w, op).db;
      && op.id in db.tasks && op.id in db'.tasks
      && db'.tasks == db.tasks[op.id := db.tasks[op.id].(data := db'.tasks[op.id].data, owner := Some(op.worker))]
      && StartedBy(db.tasks[op.id].data, db'.tasks[op.id].data, op.worker, op.status, db.clock, db'.clock)
      && db'.ledger == db.ledger[(op.id, db'.clock) := LedgerRow(op.status, "", 0)]
  {
    hide Apply, JobInv, PopTx, Assign;
    PopApplied(env, w, op);
    PopAssigns(w.db, op.id, op.worker, op.status);
    AssignMeaning(w.db.tasks[op.id].data, op.worker, op.status, w.db.clock + 1, w.db.clock, w.db.clock + 2);
  }

  /** In every reachable state a task has a start time exactly when somebody works on it, and
      it lies after the task came in. */
  lemma StartTimes(env: Env, w: World, t: string)
    requires Inv(env, w) && t in w.db.tasks
    ensures var row := w.db.tasks[t];
      && (row.data.startedAt.Some? <==> row.data.workedBy.Some? && row.data.workedBy.value != "")
      && (row.data.startedAt.Some? ==> row.created < row.data.startedAt.value <= w.db.clock)
  {
    hide JobInv, NewestIs;
    assert RowOk(w.db.tasks, w.db.ledger, w.db.clock, t);
  }

  // ---------- Updates ----------

  /** The update names another stage or another status. */
  predicate Moves(t: Task, req: UpdateTask) {
    (req.stage.Some? && req.stage.value != t.stage) || req.status != t.status
  }

  /** The update reports the success of a storage deal that has a retrieval schedule. */
  predicate WantsRetrieval(t: Task, req: UpdateTask) {
    req.status == 3 && t.storage.Some? && t.storage.value.retrievalSchedule.Some?
  }

  /** What such a retrieval needs: its limit, and a payload in the archived log. */
  predicate CanWant(t: Task, u: Task) {
    && t.storage.Some? && t.storage.value.retrievalScheduleLimit.Some?
    && !FinalLogs.NoLine(FinalLogs.LogOf(u), "PayloadCID:")
  }

  lemma PayloadKnown(u: Task)
    requires u.startedAt.Some? && u.storage.Some?
    ensures FinalLogs.Extract(u).payloadCID.Some? <==> !FinalLogs.NoLine(FinalLogs.LogOf(u), "PayloadCID:")
  {
    hide FinalLogs.Extract, Text.Contains;
    FinalLogs.PayloadField(u);
  }

  /** An update is accepted exactly from the worker the task is assigned to, with a run count
      of at least one if it moves the task, and with all that the retrieval it asks for needs;
      the first of these that fails names the error. */
  lemma WhichUpdatesCommit(c: Codec, db: Tables, id: string, req: UpdateTask)
    requires id in db.tasks && db.tasks[id].data.workedBy.GetOr("") != "" ==> db.tasks[id].data.startedAt.Some?
    ensures var r := UpdateTx(c, db, id, req);
      if id !in db.tasks then r == Err(NoRow)
      else
        var t := db.tasks[id].data;
        if t.workedBy.GetOr("") == "" then r == Err(NotAssigned)
        else if req.workedBy != t.workedBy.value then r == Err(WrongWorker)
        else if Moves(t, req) && req.runCount < 1 then r == Err(BadRunCount)
        else if WantsRetrieval(t, req) && !CanWant(t, Updated(t, req)) then r == Err(MissingField)
        else r.Ok?
  {
    hide FinalLogs.Extract, FinalLogs.NoLine, FinalLogs.LogOf, Log, StoreUpdate;
    if id in db.tasks && Updated(db.tasks[id].data, req).storage.Some? && db.tasks[id].data.startedAt.Some? {
      PayloadKnown(Updated(db.tasks[id].data, req));
    }
  }

  /** What a committed update writes to the row and to the ledger. */
  lemma UpdateWrites(c: Codec, db: Tables, id: string, req: UpdateTask)
    requires UpdateTx(c, db, id, req).Ok?
    ensures id in db.tasks
    ensures var t, db' := db.tasks[id].data, UpdateTx(c, db, id, req).value.db;
      && db'.tasks == db.tasks[id := db.tasks[id].(data := Updated(t, req))]
      && db.clock < db'.clock
      && (if Moves(t, req)
          then exists at | db.clock < at <= db'.clock ::
                 db'.ledger == db.ledger[(id, at) := LedgerRow(req.status, req.stage.GetOr(""), req.runCount)]
          else db'.ledger == db.ledger)
  {
    hide UpdateTx, Log;
    UpdateParts(c, db, id, req);
    var at := db.clock + 1;
    assert Moves(db.tasks[id].data, req) ==>
      UpdateTx(c, db, id, req).value.db.ledger ==
      db.ledger[(id, at) := LedgerRow(req.status, req.stage.GetOr(""), req.runCount)];
  }

  /** The record says what the task said at its end, in the words of its own log, and links
      the archived stages. */
  ghost predicate Tells(c: Codec, blocks: Blocks, f: FinishedTask, t: Task) {
    && f.status == t.status && f.errorMessage == t.errorMessage
    && f.retrieval == t.retrieval && f.storage == t.storage
    && Some(f.startedAt) == t.startedAt
    && f.logs == FinalLogs.Extract(t)
    && (if f.logs.dealID == 0 then f.dealIDString.None? else f.dealIDString == Some(Text.Itoa(f.logs.dealID)))
    && f.events in blocks && blocks[f.events] == Events(t.past.GetOr([]))
  }

  lemma EventsResolve(c: Codec, blocks: Blocks, f: FinishedTask, events: Block)
    requires CollisionFree(c) && Closed(c, blocks) && f.events == c.cid(events)
    requires c.cid(Finished(f)) in blocks && blocks[c.cid(Finished(f))] == Finished(f)
    ensures f.events in blocks && blocks[f.events] == events
  {
    assert Links(blocks, Finished(f));
    assert c.cid(blocks[f.events]) == f.events;
  }

  lemma FinalizedTells(c: Codec, blocks: Blocks, t: Task)
    requires CollisionFree(c) && Closed(c, blocks) && t.startedAt.Some?
    requires var f := Finished(Finalized(c, t)); c.cid(f) in blocks && blocks[c.cid(f)] == f
    ensures Tells(c, blocks, Finalized(c, t), t)
  {
    hide FinalLogs.Extract, Closed;
    EventsResolve(c, blocks, Finalized(c, t), EventsOf(t));
  }

  lemma AfterUpdate(env: Env, w: World, id: string, req: UpdateTask)
    requires CollisionFree(env.codec) && Inv(env, w) && w.process.Up? && UpdateTx(env.codec, w.db, id, req).Ok?
    ensures var w' := Apply(env, w, UpdateOp(id, req));
      && Closed(env.codec, w'.db.blocks) && id in w'.db.tasks && w'.db.clock == w.db.clock + 2
      && w'.db.tasks[id].data == UpdateTx(env.codec, w.db, id, req).value.task
      && w'.db.tasks[id].data.status == req.status
      && w'.db.tasks[id].data.startedAt.Some?
  {
    hide Apply, Inv, UpdateTx, RecordChain.IsChain, RecordChain.NothingLost, Closed;
    ApplyKeepsInv(env, w, UpdateOp(id, req));
    UpdateApplied(env, w, id, req);
    UpdateParts(env.codec, w.db, id, req);
    RecordRuns.InvParts(env, Apply(env, w, UpdateOp(id, req)));
    StartTimes(env, w, id);
  }

  /** After any update that commits the stages archived in the task are a stored block, and no
      block that was there before changes. */
  lemma UpdateArchives(env: Env, w: World, id: string, req: UpdateTask)
    requires CollisionFree(env.codec) && Inv(env, w) && w.process.Up? && UpdateTx(env.codec, w.db, id, req).Ok?
    ensures var db := Apply(env, w, UpdateOp(id, req)).db;
      && id in db.tasks && Extends(w.db.blocks, db.blocks)
      && var events := Events(db.tasks[id].data.past.GetOr([]));
         env.codec.cid(events) in db.blocks && db.blocks[env.codec.cid(events)] == events
  {
    hide Apply, Inv, UpdateTx, Log, RecordChain.RecordInv, Updated;
    UpdateApplied(env, w, id, req);
    UpdateParts(env.codec, w.db, id, req);
    RecordRuns.InvParts(env, w);
    var u := UpdateTx(env.codec, w.db, id, req).value.task;
    LogRecords(env.codec, StoreUpdate(w.db, id, u, Reported(w.db.tasks[id].data, req)), u, req.workedBy);
  }

  /** An update that finishes a task leaves one new record row for its worker, and under its
      name a block that tells the task. */
  lemma FinishWrites(env: Env, w: World, id: string, req: UpdateTask)
    requires CollisionFree(env.codec) && Inv(env, w) && w.process.Up?
    requires UpdateTx(env.codec, w.db, id, req).Ok? && req.status in {3, 4}
    ensures var db := Apply(env, w, UpdateOp(id, req)).db;
      && id in db.tasks && |db.records| == |w.db.records| + 1 && db.records[..|w.db.records|] == w.db.records
      && var row := db.records[|w.db.records|];
         && row.workedBy == req.workedBy && row.status == Unattached && w.db.clock < row.created <= db.clock
         && row.cid in db.blocks && db.blocks[row.cid].Finished?
         && Tells(env.codec, db.blocks, db.blocks[row.cid].task, db.tasks[id].data)
  {
    hide Apply, Inv, UpdateTx, Finalized, Tells, Closed;
    AfterUpdate(env, w, id, req);
    RecordRuns.FinishAddsRecord(env, w, id, req);
    var blocks := Apply(env, w, UpdateOp(id, req)).db.blocks;
    FinalizedTells(env.codec, blocks, UpdateTx(env.codec, w.db, id, req).value.task);
  }

  // ---------- Copies ----------

  /** A child is a fresh task for the parent's deal without its schedules, under the parent's
      tag, and its run count is the number of runs the job had finished. */
  ghost predicate CopiedFrom(db: Tables, db': Tables, id: string, t: Task, tag: string, parent: string, runs: int) {
    && id !in db.tasks && id in db'.tasks && db'.tasks == db.tasks[id := db'.tasks[id]]
    && var row := db'.tasks[id];
       && row.data.uuid == id && SameDealUnscheduled(t, row.data) && Fresh(row.data) && row.data.runCount == runs
       && db.clock < row.created <= db'.clock && row.owner.None?
       && Column(row.tag, Some(tag)) && Column(row.parent, Some(parent))
       && db'.ledger == db.ledger[(id, row.created) := LedgerRow(1, "", 0)]
  }

  lemma CopyIsSaved(db: Tables, id: string, t: Task, tag: string, parent: string, runs: int)
    requires id !in db.tasks
    ensures SaveTx(db, MakeRunable(t, id, runs), tag, parent).Ok?
    ensures CopiedFrom(db, SaveTx(db, MakeRunable(t, id, runs), tag, parent).value, id, t, tag, parent, runs)
  {
    hide SaveTx, MakeRunable, Schedule, HasSchedule;
    CopyHasTheDeal(t, id, runs);
    FreshTasks(t, id, None, None, runs);
    ScheduleAgrees(t, id, runs);
    SaveAdds(db, MakeRunable(t, id, runs), tag, parent);
  }

  lemma CreateWrites(env: Env, w: World, op: Op)
    requires Inv(env, w) && op.Create? && Enabled(w, op)
    ensures var job := w.jobs[op.j];
      CopiedFrom(w.db, Apply(env, w, op).db, op.uuid, job.phase.task, job.phase.tag, job.taskID, job.runCount)
  {
    hide ClientStep, DbInv, OneEach, AllMatch, Live, SaveTx, MakeRunable, CopiedFrom;
    var job := w.jobs[op.j];
    CopyIsSaved(w.db, op.uuid, job.phase.task, job.phase.tag, job.taskID, job.runCount);
  }

  // ---------- Jobs ----------

  /** When a job for a limit expires: never without one, and not before it has passed. */
  ghost predicate ExpiresAfter(env: Env, limit: string, start: int, expireAt: Option<int>) {
    if limit == "" then expireAt.None?
    else env.duration(limit).Some? && expireAt == Some(start + env.duration(limit).value)
  }

  /** A new job is for the pending task, on the schedule and limit of its deal, and has not run. */
  lemma StartJobWrites(env: Env, w: World, id: string)
    requires Inv(env, w) && Enabled(w, StartJob(id))
    ensures var t, w' := w.pending[id], Apply(env, w, StartJob(id));
      && w'.db == w.db
      && (if !ValidSpec(env, Schedule(t)) then w'.jobs == w.jobs
          else w.nextJob !in w.jobs && w.nextJob in w'.jobs && w'.jobs == w.jobs[w.nextJob := w'.jobs[w.nextJob]] &&
               var job := w'.jobs[w.nextJob];
               && job.taskID == id && (job.schedule, job.limit) == Schedule(t)
               && ExpiresAfter(env, job.limit, w.db.clock, job.expireAt)
               && job.runCount == 0 && job.phase.Idle?)
  {
    hide Apply, DbInv, IdsUsed, Live, HasSchedule, Schedule;
    StartJobApplied(env, w, id);
    ScheduleKeepsAll(env, w, id);
    assert PendingMatches(w.db.tasks, id, w.pending[id]);
  }

  /** The schedule that counts: the retrieval's if there is one, otherwise the storage deal's,
      and a limit only beside a schedule. */
  lemma ScheduleOfDeal(t: Task)
    ensures t.retrieval.Some? ==>
      var r := t.retrieval.value;
      Schedule(t) == (r.schedule.GetOr(""), if r.schedule.Some? then r.scheduleLimit.GetOr("") else "")
    ensures t.retrieval.None? && t.storage.Some? ==>
      var s := t.storage.value;
      Schedule(t) == (s.schedule.GetOr(""), if s.schedule.Some? then s.scheduleLimit.GetOr("") else "")
    ensures t.retrieval.None? && t.storage.None? ==> Schedule(t) == ("", "")
  {
  }

  /** What reading the row of a job decides, in a reachable state: its row is gone, or its time
      is up, or it goes on with the row as it is. */
  lemma LoadDecides(env: Env, w: World, j: nat)
    requires Inv(env, w) && Enabled(w, Load(j))
    ensures var job, w' := w.jobs[j], Apply(env, w, Load(j));
      && w'.db == w.db
      && (if job.taskID !in w.db.tasks then w' == w.(jobs := w.jobs - {j})
          else if job.expireAt.Some? && w.db.clock > job.expireAt.value
          then w' == w.(jobs := w.jobs - {j}, expiring := w.expiring + {job.taskID})
          else
            var row := w.db.tasks[job.taskID];
            w' == w.(jobs := w.jobs[j := job.(phase := Loaded(row.data, row.tag.GetOr("")))]))
  {
    hide ClientStep, DbInv, IdsUsed, OneEach, Live, ValidSpec, Schedule;
    assert JobMatches(env, w.db.tasks, w.jobs[j]);
  }

  /** The operation ends a run of the job. */
  predicate EndsRunOf(w: World, op: Op, j: nat) {
    && Enabled(w, op)
    && (|| (op.Create? && op.j == j)
        || (op.Abort? && op.j == j)
        || (op.Count? && op.j == j && Children(w.db, w.jobs[j].taskID, SUCCESSFUL) != {}))
  }

  /** A job that stays keeps its task and its terms, and counts the runs it ends. */
  predicate KeepsTerms(job: Job, job': Job, ended: nat) {
    job' == job.(phase := job'.phase, runCount := job.runCount + ended)
  }

  lemma CreateKeepsTerms(env: Env, w: World, op: Op, j: nat)
    requires Inv(env, w) && op.Create? && Enabled(w, op) && j in w.jobs
    ensures var jobs := CreateStep(w, op.j, op.uuid).jobs;
      j in jobs && KeepsTerms(w.jobs[j], jobs[j], if op.j == j then 1 else 0)
    ensures forall k | k in CreateStep(w, op.j, op.uuid).jobs :: k in w.jobs
  {
    hide SaveTx, DbInv, AllMatch, Live, OneEach, Schedule, HasSchedule, MakeRunable;
    var t := w.jobs[op.j].phase.task;
    FreshTasks(t, op.uuid, None, None, w.jobs[op.j].runCount);
    SaveAdds(w.db, ChildOf(w.jobs[op.j], op.uuid), w.jobs[op.j].phase.tag, w.jobs[op.j].taskID);
  }

  lemma JobStepKeepsTerms(env: Env, w: World, op: Op, j: nat)
    requires Inv(env, w) && JobOp(op) && Enabled(w, op) && j < w.nextJob
    ensures w.nextJob <= JobStep(env, w, op).nextJob
    ensures j in JobStep(env, w, op).jobs ==>
      j in w.jobs && KeepsTerms(w.jobs[j], JobStep(env, w, op).jobs[j], if EndsRunOf(w, op, j) then 1 else 0)
  {
    hide CreateStep, Inv, Children, Schedule, ValidSpec, HasSchedule, SchedulerRows, NewJob;
    if op.Create? {
      CreateAddsNoJob(w, op);
      if j in w.jobs { CreateKeepsTerms(env, w, op, j); }
    }
  }

  lemma CreateAddsNoJob(w: World, op: Op)
    requires op.Create? && Enabled(w, op)
    ensures CreateStep(w, op.j, op.uuid).jobs.Keys == w.jobs.Keys
    ensures CreateStep(w, op.j, op.uuid).nextJob == w.nextJob
  {
    hide SaveTx;
  }

  lemma TermsStep(env: Env, w: World, op: Op, j: nat)
    requires Inv(env, w) && j < w.nextJob
    ensures w.nextJob <= Apply(env, w, op).nextJob
    ensures j in Apply(env, w, op).jobs ==>
      j in w.jobs && KeepsTerms(w.jobs[j], Apply(env, w, op).jobs[j], if EndsRunOf(w, op, j) then 1 else 0)
  {
    hide Inv, Enabled, JobStep, ClientStep;
    if Enabled(w, op) {
      if JobOp(op) {
        JobStepKeepsTerms(env, w, op, j);
      } else {
        ClientKeepsJobs(env, w, op);
      }
    }
  }

  /** How many runs of the job end along a run of the controller. */
  function RunsEnded(env: Env, w: World, ops: seq<Op>, j: nat): nat {
    if ops == [] then 0
    else
      RunsEnded(env, w, ops[..|ops| - 1], j) +
      if EndsRunOf(Run(env, w, ops[..|ops| - 1]), ops[|ops| - 1], j) then 1 else 0
  }

  /** For as long as a job lives it is for the same task on the same terms, and its run count
      is the number of its runs that have ended. */
  lemma {:induction false} JobsKeepTerms(env: Env, w: World, ops: seq<Op>, j: nat)
    requires CollisionFree(env.codec) && Inv(env, w) && j < w.nextJob && forall op | op in ops :: Admissible(op)
    ensures Inv(env, Run(env, w, ops)) && j < Run(env, w, ops).nextJob
    ensures j in Run(env, w, ops).jobs ==>
      j in w.jobs && KeepsTerms(w.jobs[j], Run(env, w, ops).jobs[j], RunsEnded(env, w, ops, j))
  {
    hide Inv, Apply, Admissible, EndsRunOf;
    if ops != [] {
      var n := |ops| - 1;
      JobsKeepTerms(env, w, ops[..n], j);
      ApplyKeepsInv(env, Run(env, w, ops[..n]), ops[n]);
      TermsStep(env, Run(env, w, ops[..n]), ops[n], j);
    }
  }

  /** Whatever happens in between, the job of a task that is still there is given up at its
      next run exactly when the task has a limit and more than that limit has passed since the
      job was made. */
  lemma NeverBeforeItsLimit(env: Env, w: World, id: string, ops: seq<Op>)
    requires CollisionFree(env.codec) && Inv(env, w) && Enabled(w, StartJob(id))
    requires forall op | op in ops :: Admissible(op)
    requires ValidSpec(env, Schedule(w.pending[id]))
    requires var w' := Run(env, Apply(env, w, StartJob(id)), ops);
      Enabled(w', Load(w.nextJob)) && id in w'.db.tasks
    ensures var w' := Run(env, Apply(env, w, StartJob(id)), ops);
      var limit := Schedule(w.pending[id]).1;
      w.nextJob !in Apply(env, w', Load(w.nextJob)).jobs <==>
        limit != "" && env.duration(limit).Some? && w'.db.clock > w.db.clock + env.duration(limit).value
  {
    hide Inv, Apply, Run, Schedule, ValidSpec, RunsEnded;
    var j, w1 := w.nextJob, Apply(env, w, StartJob(id));
    var w' := Run(env, w1, ops);
    ApplyKeepsInv(env, w, StartJob(id));
    StartJobWrites(env, w, id);
    JobsAreOld(env, w1, j);
    JobsKeepTerms(env, w1, ops, j);
    LoadDecides(env, w', j);
  }

  lemma JobsAreOld(env: Env, w: World, j: nat)
    requires Inv(env, w) && j in w.jobs
    ensures j < w.nextJob
  {
    hide DbInv, AllMatch, Live, IdsUsed;
  }
}
