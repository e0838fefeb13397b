/** The state database as the controller uses it (controller/state/statedb.go and
    taskscheduler.go): an object whose methods run one transaction after another on a copy
    of the tables and commit it, or leave the tables as they were. Each method is proved to
    do what the transaction functions say and to be a run of controller operations. */
module StateDatabase {
  import opened Wrappers
  import opened Tasks
  import opened Store
  import opened TaskStore
  import opened Controller
  import opened Recovery
  import opened Runs
  import opened Writes
  import FinalLogs
  import RecordChain
  import Text

  // ---------- What AssignTask promises ----------

  /** A row that a pop would hand to a worker. */
  predicate Runnable(ts: TaskTable, tags: seq<string>, id: string) {
    Available(ts, tags, id) && !HasSchedule(ts[id].data)
  }

  /** A scheduled row that nobody owns. */
  predicate Stray(ts: TaskTable, tags: seq<string>, id: string) { Available(ts, tags, id) && HasSchedule(ts[id].data) }

  /** Some stray rows went to the scheduler, each older than every row still available;
      nothing else changed. */
  ghost predicate StraysTaken(before: TaskTable, after: TaskTable, tags: seq<string>) {
    && after.Keys == before.Keys
    && (forall id | id in before :: after[id] == before[id] || Taken(before, after, tags, id))
    && (forall a, b | Taken(before, after, tags, a) && Available(after, tags, b) ::
         before[a].created <= before[b].created)
  }

  ghost predicate Taken(before: TaskTable, after: TaskTable, tags: seq<string>, id: string) {
    Stray(before, tags, id) && id in after && after[id] == before[id].(owner := Some(SCHEDULER))
  }

  /** Row id is the oldest runnable one and is now the worker's; exactly the strays before it
      in the queue went to the scheduler, up to equal times of creation. */
  ghost predicate AssignedTo(before: Tables, after: Tables, tags: seq<string>, worker: string, status: int,
                             id: string) {
    && Runnable(before.tasks, tags, id)
    && (forall other | Runnable(before.tasks, tags, other) :: before.tasks[id].created <= before.tasks[other].created)
    && after.tasks.Keys == before.tasks.Keys
    && after.tasks[id] == PoppedRow(before.tasks[id], worker, status, before.clock + 1)
    && (forall other | other in before.tasks && other != id ::
         && (after.tasks[other] == before.tasks[other]
             || (Taken(before.tasks, after.tasks, tags, other)
                 && before.tasks[other].created <= before.tasks[id].created))
         && (Stray(before.tasks, tags, other) && before.tasks[other].created < before.tasks[id].created ==>
              Taken(before.tasks, after.tasks, tags, other)))
    && after == before.(tasks := after.tasks,
                        ledger := before.ledger[(id, before.clock + 2) := LedgerRow(status, "", 0)],
                        clock := before.clock + 2)
  }

  /** There was no runnable row; every stray row went to the scheduler. */
  ghost predicate NothingRunnable(before: Tables, after: Tables, tags: seq<string>) {
    && (forall id | id in before.tasks :: !Runnable(before.tasks, tags, id))
    && after.tasks.Keys == before.tasks.Keys
    && (forall id | id in before.tasks ::
         if Stray(before.tasks, tags, id) then Taken(before.tasks, after.tasks, tags, id)
         else after.tasks[id] == before.tasks[id])
    && after == before.(tasks := after.tasks)
  }

  /** ORDER BY created LIMIT 1 finds a row when there is one. */
  lemma OldestExists(ts: TaskTable, tags: seq<string>, candidates: set<string>) returns (oldest: string)
    requires candidates != {} && candidates <= ts.Keys
    ensures oldest in candidates && forall id | id in candidates :: ts[oldest].created <= ts[id].created
    decreases candidates
  {
    var one :| one in candidates;
    var others := candidates - {one};
    if others == {} {
      assert candidates == {one};
      oldest := one;
    } else {
      var o := OldestExists(ts, tags, others);
      oldest := if ts[one].created <= ts[o].created then one else o;
    }
  }

  function AvailableRows(ts: TaskTable, tags: seq<string>): set<string> { set id | id in ts && Available(ts, tags, id) }

  lemma TakeOneMore(before: TaskTable, now: TaskTable, tags: seq<string>, id: string)
    requires StraysTaken(before, now, tags) && OldestAvailable(now, tags, id) && HasSchedule(now[id].data)
    ensures StraysTaken(before, SetOwner(now, id, Some(SCHEDULER)), tags)
    ensures AvailableRows(SetOwner(now, id, Some(SCHEDULER)), tags) < AvailableRows(now, tags)
  {
    var next := SetOwner(now, id, Some(SCHEDULER));
    assert now[id] == before[id];
    assert Taken(before, next, tags, id);
    forall other | other in before
      ensures next[other] == before[other] || Taken(before, next, tags, other)
    {
    }
    forall a, b | Taken(before, next, tags, a) && Available(next, tags, b)
      ensures before[a].created <= before[b].created
    {
      assert Available(now, tags, b) && before[b] == now[b];
      if a != id { assert Taken(before, now, tags, a); }
    }
    assert id in AvailableRows(now, tags) && id !in AvailableRows(next, tags);
  }

  lemma NoStraysYet(ts: TaskTable, tags: seq<string>)
    ensures StraysTaken(ts, ts, tags)
  {
  }

  lemma NoneAvailable(before: Tables, now: Tables, tags: seq<string>)
    requires StraysTaken(before.tasks, now.tasks, tags) && now == before.(tasks := now.tasks)
    requires forall i | i in now.tasks :: !Available(now.tasks, tags, i)
    ensures NothingRunnable(before, now, tags)
  {
  }

  lemma PopFinishes(before: Tables, now: Tables, after: Tables, tags: seq<string>, worker: string, status: int,
                    id: string)
    requires StraysTaken(before.tasks, now.tasks, tags) && now == before.(tasks := now.tasks)
    requires OldestAvailable(now.tasks, tags, id) && !HasSchedule(now.tasks[id].data)
    requires after == PopTx(now, id, worker, status).db
    ensures AssignedTo(before, after, tags, worker, status, id)
  {
    assert now.tasks[id] == before.tasks[id];
    forall other | other in before.tasks && other != id && now.tasks[other] != before.tasks[other]
      ensures Taken(before.tasks, after.tasks, tags, other) && before.tasks[other].created <= before.tasks[id].created
    {
      assert Taken(before.tasks, now.tasks, tags, other);
    }
    forall other | Available(before.tasks, tags, other) && before.tasks[other].created < before.tasks[id].created
      ensures Taken(before.tasks, now.tasks, tags, other)
    {
      assert !Available(now.tasks, tags, other);
    }
  }

  /** Tags with surrounding space removed; blank ones do not count. */
  function Trimmed(trim: string -> string, tags: seq<string>): seq<string> {
    if tags == [] then []
    else
      var t := trim(tags[|tags| - 1]);
      Trimmed(trim, tags[..|tags| - 1]) + if t == "" then [] else [t]
  }

  lemma {:induction false} TrimmedTags(trim: string -> string, tags: seq<string>, tag: string)
    ensures tag in Trimmed(trim, tags) <==> tag != "" && exists t | t in tags :: trim(t) == tag
    ensures Trimmed(trim, tags) == [] <==> forall t | t in tags :: trim(t) == ""
  {
    if tags != [] {
      var n := |tags| - 1;
      TrimmedTags(trim, tags[..n], tag);
      assert tags == tags[..n] + [tags[n]];
    }
  }

  /** A worker that asks for no tags, or only for blank ones, takes any task; otherwise it
      takes those without a tag and those with one that it names. */
  predicate Wanted(trim: string -> string, tags: seq<string>, tag: Option<string>) {
    || (forall t | t in tags :: trim(t) == "")
    || tag.None?
    || (tag.value != "" && exists t | t in tags :: trim(t) == tag.value)
  }

  /** A task that the worker may be given. */
  predicate MayGoTo(trim: string -> string, ts: TaskTable, tags: seq<string>, id: string) {
    id in ts && ts[id].owner.None? && !HasSchedule(ts[id].data) && Wanted(trim, tags, ts[id].tag)
  }

  lemma RunnableIsWanted(trim: string -> string, ts: TaskTable, tags: seq<string>, id: string)
    ensures Runnable(ts, Trimmed(trim, tags), id) <==> MayGoTo(trim, ts, tags, id)
  {
    hide HasSchedule, Trimmed;
    if id in ts { TrimmedTags(trim, tags, ts[id].tag.GetOr("")); }
  }

  /** The worker is given the oldest of these tasks, and starts it now. */
  ghost predicate Given(trim: string -> string, before: Tables, after: Tables, tags: seq<string>, worker: string,
                        status: int, id: string) {
    && MayGoTo(trim, before.tasks, tags, id) && id in after.tasks
    && (forall other | MayGoTo(trim, before.tasks, tags, other) ::
         before.tasks[id].created <= before.tasks[other].created)
    && after.tasks[id] == before.tasks[id].(data := after.tasks[id].data, owner := Some(worker))
    && StartedBy(before.tasks[id].data, after.tasks[id].data, worker, status, before.clock, after.clock)
    && after.ledger == before.ledger[(id, after.clock) := LedgerRow(status, "", 0)]
  }

  lemma AssignedIsGiven(trim: string -> string, before: Tables, after: Tables, tags: seq<string>, worker: string,
                        status: int, id: string)
    requires AssignedTo(before, after, Trimmed(trim, tags), worker, status, id)
    ensures Given(trim, before, after, tags, worker, status, id)
  {
    hide Wanted, HasSchedule, Stray, Taken, Assign, StartedBy, Trimmed;
    RunnableIsWanted(trim, before.tasks, tags, id);
    AssignMeaning(before.tasks[id].data, worker, status, before.clock + 1, before.clock, before.clock + 2);
    forall other | MayGoTo(trim, before.tasks, tags, other)
      ensures before.tasks[id].created <= before.tasks[other].created
    {
      RunnableIsWanted(trim, before.tasks, tags, other);
    }
  }

  lemma NothingIsWanted(trim: string -> string, before: Tables, after: Tables, tags: seq<string>)
    requires NothingRunnable(before, after, Trimmed(trim, tags))
    ensures forall id :: !MayGoTo(trim, before.tasks, tags, id)
  {
    hide MayGoTo, Taken, Trimmed;
    forall id
      ensures !MayGoTo(trim, before.tasks, tags, id)
    {
      RunnableIsWanted(trim, before.tasks, tags, id);
    }
  }

  // ---------- The methods as runs of controller operations ----------

  /** A pop that finds a stray row, and its scheduling. */
  lemma StrayRound(env: Env, w: World, ops: seq<Op>, start: World, id: string, worker: string, status: int,
                   tags: seq<string>)
    requires w == Run(env, start, ops) && w.process.Up? && worker != "" && status != AVAILABLE
    requires OldestAvailable(w.db.tasks, tags, id) && HasSchedule(w.db.tasks[id].data)
    ensures Run(env, start, ops + [Pop(id, worker, status, tags), StartJob(id)]) ==
      ScheduleStep(env, w.(db := PopTx(w.db, id, worker, status).db, pending := w.pending - {id}), w.db.tasks[id].data)
  {
    hide Run, ScheduleStep, HasSchedule;
    RunConcat(env, start, ops, [Pop(id, worker, status, tags), StartJob(id)]);
    RunTwo(env, w, Pop(id, worker, status, tags), StartJob(id));
    var t := w.db.tasks[id].data;
    assert w.pending[id := t] - {id} == w.pending - {id};
  }

  lemma LastPop(env: Env, w: World, ops: seq<Op>, start: World, id: string, worker: string, status: int,
                tags: seq<string>)
    requires w == Run(env, start, ops) && w.process.Up? && worker != "" && status != AVAILABLE
    requires OldestAvailable(w.db.tasks, tags, id) && !HasSchedule(w.db.tasks[id].data)
    ensures Run(env, start, ops + [Pop(id, worker, status, tags)]) == w.(db := PopTx(w.db, id, worker, status).db)
  {
  }

  lemma RunNothing(env: Env, w: World)
    ensures Run(env, w, []) == w
  {
  }

  /** Scheduling a task that has a schedule touches the cron table only. */
  lemma ScheduleKeepsTables(env: Env, w: World, t: Task)
    requires HasSchedule(t)
    ensures var w' := ScheduleStep(env, w, t);
      w'.db == w.db && w' == w.(jobs := w'.jobs, nextJob := w'.nextJob)
  {
  }

  /** What saving a task leaves: its row, and its job when it has a valid schedule. */
  ghost function Saved(env: Env, w: World, db: Tables, t: Task): World {
    var w1 := w.(db := db, used := w.used + {t.uuid});
    if HasSchedule(t) then ScheduleStep(env, w1.(pending := w1.pending - {t.uuid}), t) else w1
  }

  function NewOps(uuid: string, deal: Deal): seq<Op> {
    if HasSchedule(TaskOf(uuid, deal)) then [NewTask(uuid, deal), StartJob(uuid)] else [NewTask(uuid, deal)]
  }

  lemma SavedIsRun(env: Env, w: World, uuid: string, deal: Deal)
    requires w.process.Up? && uuid !in w.used && uuid !in w.db.tasks
    ensures var t := TaskOf(uuid, deal);
      Saved(env, w, SaveTx(w.db, t, TagOf(deal), "").value, t) == Run(env, w, NewOps(uuid, deal))
  {
    hide Run, Apply, ScheduleStep, HasSchedule, SaveTx;
    var t := TaskOf(uuid, deal);
    SaveAdds(w.db, t, TagOf(deal), "");
    NewTaskApplied(env, w, uuid, deal);
    if HasSchedule(t) { StartJobApplied(env, NewTaskStep(w, t, TagOf(deal)), uuid); }
    RunOne(env, w, NewTask(uuid, deal));
    RunTwo(env, w, NewTask(uuid, deal), StartJob(uuid));
    assert w.pending[uuid := t] - {uuid} == w.pending - {uuid};
  }

  /** Reading the rows of a query, each once, in some order. */
  method Rows(answer: set<string>) returns (ids: seq<string>)
    ensures Distinct(ids) && Members(ids) == answer
  {
    ids := [];
    var left := answer;
    while left != {}
      invariant left <= answer && Members(ids) == answer - left && Distinct(ids)
      decreases left
    {
      var id :| id in left;
      assert id !in Members(ids) && Members(ids + [id]) == Members(ids) + {id};
      left := left - {id};
      ids := ids + [id];
    }
  }

  function FollowUpOps(uuid: string, rt: RetrievalTask, saveOk: bool): seq<Op> {
    if !saveOk then [FollowUpFails(rt)]
    else if HasSchedule(TaskOf(uuid, RetrievalDeal(rt))) then [SaveFollowUp(uuid, rt), StartJob(uuid)]
    else [SaveFollowUp(uuid, rt)]
  }

  /** Saving a follow-up is saving a client's retrieval, with one less owed. */
  lemma FollowUpIsRun(env: Env, w: World, uuid: string, rt: RetrievalTask)
    requires w.process.Up? && uuid !in w.used && rt in w.owed
    ensures Run(env, w, FollowUpOps(uuid, rt, true)) ==
      Run(env, w.(owed := w.owed - multiset{rt}), NewOps(uuid, RetrievalDeal(rt)))
  {
    hide Run, Apply, HasSchedule;
    var w' := w.(owed := w.owed - multiset{rt});
    var deal := RetrievalDeal(rt);
    FollowUpIsNewTask(env, w, uuid, rt);
    RunOne(env, w, SaveFollowUp(uuid, rt));
    RunTwo(env, w, SaveFollowUp(uuid, rt), StartJob(uuid));
    RunOne(env, w', NewTask(uuid, deal));
    RunTwo(env, w', NewTask(uuid, deal), StartJob(uuid));
  }

  // ---------- The statements of a reset ----------

  /** One listed task: its row under the id inside it, and a ledger entry, which needs that row. */
  function ResetTo(db: Tables, t: Task): Option<Tables> {
    if t.uuid !in db.tasks then None
    else
      var now := db.clock + 1;
      Some(db.(tasks := db.tasks[t.uuid := db.tasks[t.uuid].(data := Reset(t), owner := None)],
               ledger := db.ledger[(t.uuid, now) := LedgerRow(AVAILABLE, "", 0)],
               clock := now))
  }

  function ResetEach(db: Tables, ts: seq<Task>): Option<Tables> {
    if ts == [] then Some(db)
    else
      var before := ResetEach(db, ts[..|ts| - 1]);
      if before.None? then None else ResetTo(before.value, ts[|ts| - 1])
  }

  lemma {:induction false} ResetEachStops(db: Tables, ts: seq<Task>, k: nat)
    requires k <= |ts| && ResetEach(db, ts[..k]).None?
    ensures ResetEach(db, ts).None?
    decreases |ts|
  {
    if k < |ts| {
      assert ts[..|ts| - 1][..k] == ts[..k];
      ResetEachStops(db, ts[..|ts| - 1], k);
    } else {
      assert ts[..k] == ts;
    }
  }

  function Snapshot(ts: TaskTable, ids: seq<string>): seq<Task>
    requires Members(ids) <= ts.Keys
  {
    seq(|ids|, i requires 0 <= i < |ids| => assert ids[i] in Members(ids); ts[ids[i]].data)
  }

  lemma {:induction false} ResetEachIsResetAll(db: Tables, ids: seq<string>)
    requires forall id | id in db.tasks :: db.tasks[id].data.uuid == id
    requires Distinct(ids) && Members(ids) <= db.tasks.Keys
    ensures ResetEach(db, Snapshot(db.tasks, ids)) == Some(ResetAll(db, ids))
  {
    if ids != [] {
      var n := |ids| - 1;
      assert forall id | id in ids[..n] :: id in Members(ids);
      ResetEachIsResetAll(db, ids[..n]);
      assert Snapshot(db.tasks, ids)[..n] == Snapshot(db.tasks, ids[..n]);
      assert ids[n] in Members(ids) && ids[n] !in ids[..n];
      ResetAllRows(db, ids[..n]);
      assert ResetAll(db, ids[..n]).tasks[ids[n]] == db.tasks[ids[n]];
    }
  }

  lemma FollowUpLost(env: Env, w: World, rt: RetrievalTask)
    requires w.process.Up? && rt in w.owed
    ensures Run(env, w, [FollowUpFails(rt)]) == w.(owed := w.owed - multiset{rt})
  {
    hide Run, JobStep;
    RunOne(env, w, FollowUpFails(rt));
  }

  lemma FollowUpIsNewTask(env: Env, w: World, uuid: string, rt: RetrievalTask)
    requires w.process.Up? && uuid !in w.used && rt in w.owed
    ensures Apply(env, w, SaveFollowUp(uuid, rt)) ==
      Apply(env, w.(owed := w.owed - multiset{rt}), NewTask(uuid, RetrievalDeal(rt)))
  {
    hide NewTaskStep;
  }

  lemma UpdateLandsOneRow(c: Codec, db: Tables, id: string, req: UpdateTask, uuid: string)
    requires uuid !in db.tasks
    ensures UpdateTx(c, db, id, req).Ok? ==> uuid !in UpdateTx(c, db, id, req).value.db.tasks
  {
  }

  /** How many links a walkback follows: a negative one, none. */
  function Steps(walkback: int): nat { if walkback < 0 then 0 else walkback }

  lemma HeadOfLog(c: Codec, db: Tables)
    requires CollisionFree(c) && RecordChain.RecordInv(c, db.blocks, db.records, db.clock)
    ensures var log, head := RecordChain.UpdateLog(db.records), RecordChain.Head(db.records);
      && (head == "" <==> log == [])
      && (log != [] ==> head == log[|log| - 1] && RecordChain.IsUpdateCid(db.blocks, head))
  {
    hide RecordChain.UpdateLog, RecordChain.Head;
    RecordChain.HeadIsLast(c, db.blocks, db.records, db.clock);
    var log := RecordChain.UpdateLog(db.records);
    if log != [] { assert RecordChain.LinkedAt(c, db.blocks, log, |log| - 1); }
  }

  lemma ChainNeighbour(c: Codec, db: Tables, i: nat)
    requires RecordChain.RecordInv(c, db.blocks, db.records, db.clock) && i < |RecordChain.UpdateLog(db.records)|
    ensures var log := RecordChain.UpdateLog(db.records);
      && RecordChain.IsUpdateCid(db.blocks, log[i])
      && db.blocks[log[i]].update.previous == (if i == 0 then None else Some(log[i - 1]))
      && (i > 0 ==> RecordChain.IsUpdateCid(db.blocks, log[i - 1]))
  {
    hide RecordChain.UpdateLog;
    var log := RecordChain.UpdateLog(db.records);
    assert RecordChain.LinkedAt(c, db.blocks, log, i);
    if i > 0 { assert RecordChain.LinkedAt(c, db.blocks, log, i - 1); }
  }

  // ---------- One run of a job ----------

  predicate Rescheduled(db: Tables, job: Job) {
    job.taskID in db.tasks && Schedule(db.tasks[job.taskID].data) != (job.schedule, job.limit)
  }

  predicate Expired(db: Tables, job: Job) {
    && job.taskID in db.tasks && Schedule(db.tasks[job.taskID].data) == (job.schedule, job.limit)
    && job.expireAt.Some? && db.clock > job.expireAt.value
  }

  /** The row is there, unchanged and unexpired: the run gets as far as the check for a child. */
  predicate Checks(db: Tables, job: Job) { job.taskID in db.tasks && !Rescheduled(db, job) && !Expired(db, job) }

  /** Which of the transactions of a run succeed: reading the row, deleting an expired one,
      counting the unfinished children, saving the child. */
  datatype Calls = Calls(loadOk: bool, deleteOk: bool, countOk: bool, saveOk: bool)

  /** Nothing stands in the way of a child, as far as the check can tell. */
  predicate Due(db: Tables, job: Job, countOk: bool) {
    Checks(db, job) && (countOk ==> Children(db, job.taskID, SUCCESSFUL) == {})
  }

  function JobOps(db: Tables, job: Job, j: nat, calls: Calls, uuid: string): seq<Op> {
    if !calls.loadOk then [Abort(j)]
    else if job.taskID !in db.tasks then [Load(j)]
    else if Rescheduled(db, job) then [Load(j), StartJob(job.taskID)]
    else if Expired(db, job) then [Load(j), if calls.deleteOk then Expire(job.taskID) else ExpireFails(job.taskID)]
    else if !Due(db, job, calls.countOk) then [Load(j), Count(j)]
    else
      [Load(j), if calls.countOk then Count(j) else CountFails(j),
       if calls.saveOk then Create(j, uuid) else Abort(j)]
  }

  /** The job is between runs and the process is up. */
  predicate CanRun(w: World, j: nat) { w.process.Up? && j in w.jobs && w.jobs[j].phase.Idle? }

  lemma AbortedRun(env: Env, w: World, j: nat)
    requires w.process.Up? && j in w.jobs
    ensures Run(env, w, [Abort(j)]) == w.(jobs := w.jobs[j := Finish(w.jobs[j])])
  {
    hide Run, ClientStep;
    RunOne(env, w, Abort(j));
  }

  lemma GoneRun(env: Env, w: World, j: nat)
    requires CanRun(w, j) && w.jobs[j].taskID !in w.db.tasks
    ensures Run(env, w, [Load(j)]) == w.(jobs := w.jobs - {j})
  {
  }

  lemma RescheduledRun(env: Env, w: World, j: nat)
    requires CanRun(w, j) && Rescheduled(w.db, w.jobs[j])
    ensures var id := w.jobs[j].taskID;
      Run(env, w, [Load(j), StartJob(id)]) ==
      ScheduleStep(env, w.(jobs := w.jobs - {j}, pending := w.pending - {id}), w.db.tasks[id].data)
  {
    hide Run, ScheduleStep, Schedule;
    var id := w.jobs[j].taskID;
    RunTwo(env, w, Load(j), StartJob(id));
    assert w.pending[id := w.db.tasks[id].data] - {id} == w.pending - {id};
  }

  lemma ExpiredRun(env: Env, w: World, j: nat)
    requires CanRun(w, j) && Expired(w.db, w.jobs[j])
    ensures var id := w.jobs[j].taskID;
      && Run(env, w, [Load(j), Expire(id)]) ==
         w.(jobs := w.jobs - {j}, expiring := w.expiring - {id}, db := DeleteTx(w.db, id))
      && Run(env, w, [Load(j), ExpireFails(id)]) ==
         w.(jobs := w.jobs - {j}, expiring := w.expiring - {id}, stuck := w.stuck + {id})
  {
    hide Run, DeleteTx, Schedule;
    var id := w.jobs[j].taskID;
    RunTwo(env, w, Load(j), Expire(id));
    RunTwo(env, w, Load(j), ExpireFails(id));
    assert w.expiring + {id} - {id} == w.expiring - {id};
  }

  lemma LoadedRun(env: Env, w: World, j: nat)
    requires CanRun(w, j) && Checks(w.db, w.jobs[j])
    ensures var row := w.db.tasks[w.jobs[j].taskID];
      Apply(env, w, Load(j)) == w.(jobs := w.jobs[j := w.jobs[j].(phase := Loaded(row.data, row.tag.GetOr("")))])
  {
  }

  lemma SkippedRun(env: Env, w: World, j: nat)
    requires CanRun(w, j) && Checks(w.db, w.jobs[j]) && Children(w.db, w.jobs[j].taskID, SUCCESSFUL) != {}
    ensures Run(env, w, [Load(j), Count(j)]) == w.(jobs := w.jobs[j := Finish(w.jobs[j])])
  {
    hide Run, Checks, Children;
    RunTwo(env, w, Load(j), Count(j));
    LoadedRun(env, w, j);
  }

  lemma ClearedRun(env: Env, w: World, j: nat, countOk: bool)
    requires CanRun(w, j) && Due(w.db, w.jobs[j], countOk)
    ensures var row := w.db.tasks[w.jobs[j].taskID];
      Run(env, w, [Load(j), if countOk then Count(j) else CountFails(j)]) ==
      w.(jobs := w.jobs[j := w.jobs[j].(phase := Clear(row.data, row.tag.GetOr("")))])
  {
    hide Run, Checks, Children;
    RunTwo(env, w, Load(j), if countOk then Count(j) else CountFails(j));
    LoadedRun(env, w, j);
  }

  lemma CreatedRun(env: Env, w: World, j: nat, countOk: bool, uuid: string)
    requires CanRun(w, j) && Due(w.db, w.jobs[j], countOk) && uuid !in w.used && uuid !in w.db.tasks
    ensures var job, row := w.jobs[j], w.db.tasks[w.jobs[j].taskID];
      Run(env, w, [Load(j), if countOk then Count(j) else CountFails(j), Create(j, uuid)]) ==
      w.(db := SaveTx(w.db, MakeRunable(row.data, uuid, job.runCount), row.tag.GetOr(""), job.taskID).value,
         jobs := w.jobs[j := Finish(job)], used := w.used + {uuid})
  {
    hide Run, Children, Schedule, SaveTx, MakeRunable;
    var row := w.db.tasks[w.jobs[j].taskID];
    var ops := [Load(j), if countOk then Count(j) else CountFails(j)];
    RunSnoc(env, w, ops, Create(j, uuid));
    ClearedRun(env, w, j, countOk);
    MakeRunableUuid(row.data, uuid, w.jobs[j].runCount);
    SaveAdds(w.db, MakeRunable(row.data, uuid, w.jobs[j].runCount), row.tag.GetOr(""), w.jobs[j].taskID);
    assert ops + [Create(j, uuid)] == [Load(j), if countOk then Count(j) else CountFails(j), Create(j, uuid)];
  }

  lemma UnsavedRun(env: Env, w: World, j: nat, countOk: bool)
    requires CanRun(w, j) && Due(w.db, w.jobs[j], countOk)
    ensures Run(env, w, [Load(j), if countOk then Count(j) else CountFails(j), Abort(j)]) ==
      w.(jobs := w.jobs[j := Finish(w.jobs[j])])
  {
    hide Run, Children, Schedule;
    var ops := [Load(j), if countOk then Count(j) else CountFails(j)];
    RunSnoc(env, w, ops, Abort(j));
    ClearedRun(env, w, j, countOk);
    assert ops + [Abort(j)] == [Load(j), if countOk then Count(j) else CountFails(j), Abort(j)];
  }

  lemma MakeRunableUuid(t: Task, uuid: string, runCount: int)
    ensures MakeRunable(t, uuid, runCount).uuid == uuid
  {
  }

  /** Between two processes: the tables and nothing else. */
  function Stopped(tables: Tables, ids: set<string>): World {
    World(tables, map[], 0, map[], {}, {}, multiset{}, Down, ids)
  }

  /** One more of the pending tasks. */
  lemma StartNext(env: Env, start: World, order: seq<string>, i: nat)
    requires i < |order| && Distinct(order)
    requires var w := Run(env, start, StartAll(order[..i]));
      w.process.Up? && order[i] in start.pending && w.pending == start.pending - Members(order[..i])
    ensures var id, w := order[i], Run(env, start, StartAll(order[..i]));
      Run(env, start, StartAll(order[..i + 1])) == ScheduleStep(env, w.(pending := w.pending - {id}), start.pending[id])
    ensures start.pending - Members(order[..i + 1]) == (start.pending - Members(order[..i])) - {order[i]}
  {
    hide Run, ScheduleStep;
    var id := order[i];
    assert id !in Members(order[..i]);
    assert StartAll(order[..i + 1]) == StartAll(order[..i]) + [StartJob(id)];
    assert Members(order[..i + 1]) == Members(order[..i]) + {id};
    RunSnoc(env, start, StartAll(order[..i]), StartJob(id));
  }

  /** scheduleTask accepts the task. */
  predicate Schedules(env: Env, rows: map<string, Task>, id: string) {
    id in rows && (Schedule(rows[id]).0 == "" || ValidSpec(env, Schedule(rows[id])))
  }

  lemma CountNext(env: Env, rows: map<string, Task>, order: seq<string>, i: nat)
    requires i < |order| && Distinct(order)
    ensures |set id | id in order[..i + 1] && Schedules(env, rows, id)| ==
      |set id | id in order[..i] && Schedules(env, rows, id)| + if Schedules(env, rows, order[i]) then 1 else 0
  {
    hide Schedules;
    var before := set id | id in order[..i] && Schedules(env, rows, id);
    var after := set id | id in order[..i + 1] && Schedules(env, rows, id);
    assert order[..i + 1] == order[..i] + [order[i]] && order[i] !in order[..i];
    assert after == before + if Schedules(env, rows, order[i]) then {order[i]} else {};
  }

  ghost predicate Recovers(env: Env, w: World, order: seq<string>, w': World) {
    && Distinct(order) && Members(order) == SchedulerRows(w.db).Keys
    && w' == Run(env, Apply(env, w, Recover), StartAll(order))
  }

  lemma RecoveredInv(env: Env, tables: Tables, ids: set<string>, order: seq<string>, w': World)
    requires Distinct(order) && Members(order) == SchedulerRows(tables).Keys
    requires w' ==
      Run(env, World(tables, map[], 0, SchedulerRows(tables), {}, {}, multiset{}, Up, ids), StartAll(order))
    ensures Recovers(env, Stopped(tables, ids), order, w')
    ensures CollisionFree(env.codec) && Inv(env, Stopped(tables, ids)) ==>
      w'.db == tables && Inv(env, w') && JobsAreRows(env, w')
  {
    hide Run, Inv, JobsAreRows;
    var w := Stopped(tables, ids);
    assert CrashAndRecover(env, w) == Apply(env, w, Recover);
    if CollisionFree(env.codec) && Inv(env, w) {
      RecoveryRestoresJobs(env, w, order);
      Recovered(env, w);
      StartAllDrains(env, CrashAndRecover(env, w), order);
    }
  }

  /** The records before link i, and link i. */
  lemma AttachNext(c: Codec, db: Tables, lnks: seq<Cid>, i: nat)
    requires i < |lnks|
    ensures Restatus(Restatus(db.records, Members(lnks[..i]), Attached), {lnks[i]}, Attached) ==
      Restatus(db.records, Members(lnks[..i + 1]), Attached)
    ensures RecordChain.Authenticated(c, db.blocks, lnks[..i + 1]) ==
      RecordChain.Authenticated(c, db.blocks, lnks[..i]) +
      if RecordChain.SkippedCid(db.blocks, lnks[i]) then [] else [AuthRecord(lnks[i], c.sign(lnks[i]))]
    ensures lnks[..i + 1] == lnks[..i] + [lnks[i]]
  {
    hide RecordChain.SkippedCid;
    assert lnks[..i + 1] == lnks[..i] + [lnks[i]] && lnks[..i + 1][..i] == lnks[..i];
    RestatusTwice(db.records, Members(lnks[..i]), {lnks[i]}, Attached);
    assert Members(lnks[..i + 1]) == Members(lnks[..i]) + {lnks[i]};
  }

  lemma AttachNone(c: Codec, db: Tables, lnks: seq<Cid>)
    ensures Restatus(db.records, Members(lnks[..0]), Attached) == db.records
    ensures RecordChain.Authenticated(c, db.blocks, lnks[..0]) == []
  {
  }

  class StateDB {
    const env: Env
    const trim: string -> string  // strings.TrimSpace
    var db: Tables
    var jobs: Jobs
    var nextJob: nat
    // What other goroutines are in the middle of, and the ids generated so far.
    ghost var pending: map<string, Task>
    ghost var expiring: set<string>
    ghost var stuck: set<string>
    ghost var owed: multiset<RetrievalTask>
    ghost var used: set<string>

    ghost function View(): World
      reads this
    {
      World(db, jobs, nextJob, pending, expiring, stuck, owed, Up, used)
    }

    /** Every row is stored under the id inside its task. */
    predicate Keyed()
      reads this`db
    {
      forall id | id in db.tasks :: db.tasks[id].data.uuid == id
    }

    /** NewStateDB: a new process over the tables that the last one left. Its jobs are those
        of a recovery, so one for each schedulable row, and no other. */
    constructor (env: Env, trim: string -> string, tables: Tables, ghost ids: set<string>)
      ensures this.env == env && this.trim == trim
      ensures exists order :: Recovers(env, Stopped(tables, ids), order, View())
      ensures CollisionFree(env.codec) && Inv(env, Stopped(tables, ids)) ==>
        db == tables && Inv(env, View()) && JobsAreRows(env, View())
    {
      this.env, this.trim := env, trim;
      db, jobs, nextJob := tables, map[], 0;
      pending, expiring, stuck, owed, used := map[], {}, {}, multiset{}, ids;
      new;
      var recovered, order := RecoverScheduledTasks();
      RecoveredInv(env, tables, ids, order, View());
    }

    /** recoverScheduledTasks: read the rows of the scheduler, then schedule each. */
    method RecoverScheduledTasks() returns (recovered: nat, ghost order: seq<string>)
      modifies this
      ensures View() == Run(env, old(View()).(pending := SchedulerRows(old(db))), StartAll(order))
      ensures Distinct(order) && Members(order) == SchedulerRows(old(db)).Keys
      ensures recovered == |set id | id in order && Schedules(env, SchedulerRows(old(db)), id)|
    {
      hide Run, ScheduleStep, Schedule, HasSchedule, ValidSpec, NewJob;
      var rows := SchedulerRows(db);
      var tasklist := Rows(rows.Keys);
      order := tasklist;
      pending := rows;
      ghost var start := View();
      recovered := 0;
      RunNothing(env, start);
      assert StartAll(order[..0]) == [];
      for i := 0 to |tasklist|
        invariant View() == Run(env, start, StartAll(order[..i]))
        invariant pending == rows - Members(order[..i])
        invariant recovered == |set id | id in order[..i] && Schedules(env, rows, id)|
      {
        var id := tasklist[i];
        StartNext(env, start, order, i);
        CountNext(env, rows, order, i);
        pending := pending - {id};
        var ok := ScheduleTask(rows[id]);
        if ok { recovered := recovered + 1; }
      }
      assert order[..|tasklist|] == order;
    }

    /** unassignScheduledTask */
    method UnassignScheduledTask(id: string)
      modifies this`db
      ensures db == old(db).(tasks := SetOwner(old(db).tasks, id, None))
    {
      var tx := db;
      tx := tx.(tasks := SetOwner(tx.tasks, id, None));
      db := tx;
    }

    method ScheduleTask(t: Task) returns (ok: bool)
      modifies this`db, this`jobs, this`nextJob
      ensures View() == ScheduleStep(env, old(View()), t)
      ensures ok <==> Schedule(t).0 == "" || ValidSpec(env, Schedule(t))
    {
      var (schedule, limit) := Schedule(t);
      if schedule == "" {
        UnassignScheduledTask(t.uuid);
        return true;
      }
      var job := Job(t.uuid, schedule, "", None, 0, Idle);
      if limit != "" {
        var duration := env.duration(limit);
        if duration.None? {
          return false;
        }
        job := job.(limit := limit, expireAt := Some(db.clock + duration.value));
      }
      if !env.cronOk(schedule) {
        return false;
      }
      jobs := jobs[nextJob := job];
      nextJob := nextJob + 1;
      return true;
    }

    /** popTask: one transaction. */
    method PopTask(worker: string, status: int, tags: seq<string>)
      returns (task: Option<Task>, scheduled: bool, ghost id: string)
      modifies this`db
      ensures task.None? ==> db == old(db) && forall i | i in old(db).tasks :: !Available(old(db).tasks, tags, i)
      ensures task.Some? ==>
        && OldestAvailable(old(db).tasks, tags, id)
        && PopTx(old(db), id, worker, status) == PopResult(db, task, scheduled)
    {
      var tx := db;
      id := "";
      var rows := AvailableRows(tx.tasks, tags);
      assert forall i | i in tx.tasks && Available(tx.tasks, tags, i) :: i in rows;
      if rows == {} {
        return None, false, id;
      }
      ghost var oldest := OldestExists(tx.tasks, tags, rows);
      assert OldestAvailable(tx.tasks, tags, oldest);
      var found :| found in tx.tasks && OldestAvailable(tx.tasks, tags, found);
      id := found;
      var t := tx.tasks[found].data;
      if HasSchedule(t) {
        tx := tx.(tasks := SetOwner(tx.tasks, found, Some(SCHEDULER)));
        db := tx;
        return Some(t), true, id;
      }
      var popped := Assign(t, worker, status, tx.clock + 1);
      tx := tx.(tasks := SetOwner(SetData(tx.tasks, found, popped), found, Some(worker)));
      tx := tx.(ledger := tx.ledger[(found, tx.clock + 2) := LedgerRow(status, "", 0)], clock := tx.clock + 2);
      assert tx.tasks == db.tasks[found := PoppedRow(db.tasks[found], worker, status, db.clock + 1)];
      db := tx;
      return Some(popped), false, id;
    }

    method DrainingWorker(worker: string) returns (draining: bool)
      ensures draining <==> worker in db.drained
    {
      draining := worker in db.drained;
    }

    method TrimTags(tags: seq<string>) returns (trimmed: seq<string>)
      ensures trimmed == Trimmed(trim, tags)
    {
      trimmed := [];
      for i := 0 to |tags|
        invariant trimmed == Trimmed(trim, tags[..i])
      {
        assert tags[..i + 1][..i] == tags[..i];
        var t := trim(tags[i]);
        if t != "" { trimmed := trimmed + [t]; }
      }
      assert tags[..|tags|] == tags;
    }

    /** From any database: the oldest runnable row goes to the worker, and nothing else
        changes but the stray scheduled rows before it, which go to the scheduler. */
    method AssignTask(worker: string, status: int, tags: seq<string>)
      returns (r: Result<Option<Task>, Error>, ghost id: string, ghost ops: seq<Op>)
      modifies this`db, this`jobs, this`nextJob, this`pending
      ensures worker == "" ==> r == Err(MissingWorker)
      ensures worker != "" && status == AVAILABLE ==> r == Err(BadStatus)
      ensures worker != "" && status != AVAILABLE && worker in old(db).drained ==> r == Ok(None)
      ensures worker == "" || status == AVAILABLE || worker in old(db).drained ==> View() == old(View())
      ensures worker != "" && status != AVAILABLE && worker !in old(db).drained ==>
        && r.Ok?
        && (if r.value.None? then NothingRunnable(old(db), db, Trimmed(trim, tags))
            else AssignedTo(old(db), db, Trimmed(trim, tags), worker, status, id) && r.value.value == db.tasks[id].data)
        && (if r.value.None? then forall other :: !MayGoTo(trim, old(db).tasks, tags, other)
            else Given(trim, old(db), db, tags, worker, status, id))
      ensures View() == Run(env, old(View()), ops)
      ensures forall op | op in ops :: op.StartJob? || (op.Pop? && op.worker == worker)
    {
      hide Run, AssignedTo, NothingRunnable, MayGoTo, Given;
      id, ops := "", [];
      ghost var before := db;
      RunNothing(env, View());
      if worker == "" {
        return Err(MissingWorker), id, ops;
      }
      if status == AVAILABLE {
        return Err(BadStatus), id, ops;
      }
      var draining := DrainingWorker(worker);
      if draining {
        return Ok(None), id, ops;
      }
      var wanted := TrimTags(tags);
      var task;
      task, id, ops := PopUntilRunnable(worker, status, wanted);
      if task.None? {
        NothingIsWanted(trim, before, db, tags);
      } else {
        AssignedIsGiven(trim, before, db, tags, worker, status, id);
      }
      return Ok(task), id, ops;
    }

    /** The loop of AssignTask. */
    method PopUntilRunnable(worker: string, status: int, tags: seq<string>)
      returns (task: Option<Task>, ghost id: string, ghost ops: seq<Op>)
      requires worker != "" && status != AVAILABLE
      modifies this`db, this`jobs, this`nextJob, this`pending
      ensures task.None? ==> NothingRunnable(old(db), db, tags)
      ensures task.Some? ==> AssignedTo(old(db), db, tags, worker, status, id) && task.value == db.tasks[id].data
      ensures View() == Run(env, old(View()), ops)
      ensures forall op | op in ops :: op.StartJob? || (op.Pop? && op.worker == worker)
    {
      hide Run, HasSchedule, StraysTaken, AssignedTo, NothingRunnable, OldestAvailable, AvailableRows, ValidSpec,
        NewJob, Available;
      ghost var before, start := db, View();
      ops := [];
      RunNothing(env, start);
      NoStraysYet(before.tasks, tags);
      while true
        invariant StraysTaken(before.tasks, db.tasks, tags) && db == before.(tasks := db.tasks)
        invariant View() == Run(env, start, ops)
        invariant forall op | op in ops :: op.StartJob? || (op.Pop? && op.worker == worker)
        decreases AvailableRows(db.tasks, tags)
      {
        ghost var now, w := db, View();
        var scheduled;
        task, scheduled, id := PopTask(worker, status, tags);
        if task.None? {
          NoneAvailable(before, now, tags);
          return;
        }
        if !scheduled {
          PopFinishes(before, now, db, tags, worker, status, id);
          LastPop(env, w, ops, start, id, worker, status, tags);
          ops := ops + [Pop(id, worker, status, tags)];
          return;
        }
        TakeOneMore(before.tasks, now.tasks, tags, id);
        StrayRound(env, w, ops, start, id, worker, status, tags);
        pending := pending - {id};
        ScheduleKeepsTables(env, View(), task.value);
        var ok := ScheduleTask(task.value);
        ops := ops + [Pop(id, worker, status, tags), StartJob(id)];
      }
    }

    /** saveTask: one transaction, then the scheduling of a scheduled task. An invalid
        schedule is reported, but its row stays. */
    method SaveTask(t: Task, tag: string, parent: string) returns (error: Option<Error>)
      modifies this
      ensures var saved := SaveTx(old(db), t, tag, parent);
        if saved.Err? then error == Some(saved.error) && View() == old(View())
        else
          && View() == Saved(env, old(View()), saved.value, t)
          && error == if HasSchedule(t) && !ValidSpec(env, Schedule(t)) then Some(InvalidSchedule) else None
    {
      var tagCol, parentCol := None, None;
      if tag != "" { tagCol := Some(tag); }
      if parent != "" { parentCol := Some(parent); }
      var scheduledTask := HasSchedule(t);
      var tx := db;
      if t.uuid in tx.tasks {
        return Some(Duplicate);
      }
      var now := tx.clock + 1;
      tx := tx.(tasks := tx.tasks[t.uuid := TaskRow(t, None, now, tagCol, parentCol)], clock := now);
      tx := tx.(ledger := tx.ledger[(t.uuid, now) := LedgerRow(AVAILABLE, "", 0)]);
      if scheduledTask { tx := tx.(tasks := SetOwner(tx.tasks, t.uuid, Some(SCHEDULER))); }
      assert tx == SaveTx(db, t, tag, parent).value;
      db := tx;
      used := used + {t.uuid};
      if scheduledTask {
        ScheduleAgrees(t, "", 0);
        pending := pending - {t.uuid};
        var ok := ScheduleTask(t);
        if !ok {
          return Some(InvalidSchedule);
        }
      }
      return None;
    }

    /** NewStorageTask and NewRetrievalTask, under a fresh random id. */
    method NewDealTask(uuid: string, deal: Deal) returns (r: Result<Task, Error>)
      requires uuid !in used && uuid !in db.tasks
      modifies this
      ensures View() == Run(env, old(View()), NewOps(uuid, deal))
      ensures var t := TaskOf(uuid, deal);
        r == if HasSchedule(t) && !ValidSpec(env, Schedule(t)) then Err(InvalidSchedule) else Ok(t)
    {
      var t := TaskOf(uuid, deal);
      SavedIsRun(env, View(), uuid, deal);
      var error := SaveTask(t, TagOf(deal), "");
      if error.Some? {
        return Err(error.value);
      }
      return Ok(t);
    }

    method DrainWorker(worker: string) returns (error: Option<Error>)
      modifies this`db
      ensures View() == Apply(env, old(View()), Drain(worker))
      ensures forall other :: other in db.drained <==> other == worker || other in old(db).drained
      ensures error == if worker in old(db).drained then Some(AlreadyDrained) else None
    {
      if worker in db.drained {
        assert db.drained + {worker} == db.drained;
        return Some(AlreadyDrained);
      }
      db := db.(drained := db.drained + {worker});
      return None;
    }

    method UndrainWorker(worker: string)
      modifies this`db
      ensures View() == Apply(env, old(View()), Undrain(worker))
      ensures forall other :: other in db.drained <==> other != worker && other in old(db).drained
    {
      db := db.(drained := db.drained - {worker});
    }

    /** The first transaction of Delete. */
    method CheckDelete(id: string) returns (error: Option<Error>)
      ensures error.None? <==> id in db.tasks && Deletable(db.tasks, id)
      ensures error.Some? ==> error.value == if id in db.tasks then InProgressTask else NotFound
    {
      if id !in db.tasks {
        return Some(NotFound);
      }
      var t := db.tasks[id].data;
      if !(HasSchedule(t) || t.status == AVAILABLE) {
        return Some(InProgressTask);
      }
      return None;
    }

    /** The second one, whatever happened since the first. */
    method DeleteRow(id: string)
      modifies this`db
      ensures View() == Apply(env, old(View()), Op.Delete(id))
    {
      var tx := db;
      tx := tx.(tasks := tx.tasks - {id}, ledger := Cascade(tx.ledger, id));
      db := tx;
    }

    /** Delete, when nothing comes between its two transactions. */
    method Delete(id: string) returns (error: Option<Error>)
      modifies this`db
      ensures error.None? <==> id in old(db).tasks && Deletable(old(db).tasks, id)
      ensures error.Some? ==> error.value == if id in old(db).tasks then InProgressTask else NotFound
      ensures View() == if error.Some? then old(View()) else Apply(env, old(View()), Op.Delete(id))
    {
      error := CheckDelete(id);
      if error.None? { DeleteRow(id); }
    }

    /** ResetWorkerTasks: one transaction over the tasks that the query lists, each read
        before any is written. A listed task that is no row's key breaks the foreign key of
        the ledger and undoes everything; when rows are stored under their own ids there is
        none. */
    method ResetWorkerTasks(worker: string) returns (error: Option<Error>, ghost ids: seq<string>)
      modifies this`db
      ensures Enabled(old(View()), ResetWorker(worker, ids))
      ensures match ResetEach(old(db), Snapshot(old(db).tasks, ids))
        case None => error == Some(NoRow) && View() == old(View())
        case Some(tables) => error.None? && View() == old(View()).(db := tables)
      ensures old(Keyed()) ==> error.None? && View() == Apply(env, old(View()), ResetWorker(worker, ids))
    {
      hide NewestIs, JobStep, ResetAll, ResetTo, Snapshot, PublishStep, SaveTx;
      var listed := Rows(WorkerTasks(db, worker, IN_PROGRESS));
      ids := listed;
      assert Members(ids) <= db.tasks.Keys;
      assert Enabled(View(), ResetWorker(worker, ids));
      if Keyed() { ResetEachIsResetAll(db, ids); }
      var queriedTasks := Snapshot(db.tasks, listed);
      var tx := db;
      for k := 0 to |queriedTasks|
        invariant db == old(db) && ResetEach(db, queriedTasks[..k]) == Some(tx)
      {
        assert queriedTasks[..k + 1][..k] == queriedTasks[..k];
        var next := ResetTask(tx, queriedTasks[k]);
        if next.None? {
          ResetEachStops(db, queriedTasks, k + 1);
          return Some(NoRow), ids;
        }
        tx := next.value;
      }
      assert queriedTasks[..|queriedTasks|] == queriedTasks;
      db := tx;
      return None, ids;
    }

    /** The two statements for one task. */
    method ResetTask(tx0: Tables, t: Task) returns (r: Option<Tables>)
      ensures r == ResetTo(tx0, t)
    {
      var tx := tx0;
      var updatedTask := Reset(t);
      var uuid := updatedTask.uuid;
      tx := tx.(tasks := SetOwner(SetData(tx.tasks, uuid, updatedTask), uuid, None));
      if uuid !in tx.tasks {
        return None;
      }
      assert tx.tasks == tx0.tasks[t.uuid := tx0.tasks[t.uuid].(data := Reset(t), owner := None)];
      tx := tx.(ledger := tx.ledger[(uuid, tx.clock + 1) := LedgerRow(updatedTask.status, updatedTask.stage, 0)],
                clock := tx.clock + 1);
      return Some(tx);
    }

    /** Task.Finalize: the record of a task and the blocks it needs. */
    method Finalize(t: Task, tx0: Tables) returns (f: FinishedTask, tx: Tables)
      ensures f == Finalized(env.codec, t)
      ensures tx == tx0.(blocks := Archive(env.codec, tx0.blocks, EventsOf(t)))
    {
      var logs := FinalLogs.ParseFinalLogs(t);
      var events := Events(t.past.GetOr([]));
      tx := tx0.(blocks := Archive(env.codec, tx0.blocks, events));
      f := FinishedTask(t.status, t.startedAt.GetOr(0), t.errorMessage, t.retrieval, t.storage, logs,
                        FinalLogs.DealIDString(logs), env.codec.cid(events));
    }

    /** The end of a finished task, inside the transaction of its last update. */
    method RecordFinished(u: Task, worker: string, tx0: Tables)
      returns (r: Result<Option<RetrievalTask>, Error>, tx: Tables)
      requires IsFinished(u)
      ensures r == FollowUp(u, Finalized(env.codec, u))
      ensures tx == AddRecord(env.codec, tx0, u, worker)
    {
      var finalized;
      finalized, tx := Finalize(u, tx0);
      var f := Finished(finalized);
      tx := tx.(blocks := Archive(env.codec, tx.blocks, f));
      tx := tx.(records := tx.records + [RecordRow(env.codec.cid(f), tx.clock + 2, worker, Unattached)]);
      if u.status != SUCCESSFUL || finalized.storage.None? || finalized.storage.value.retrievalSchedule.None? {
        return Ok(None), tx;
      }
      var st := finalized.storage.value;
      var tag, maxPrice := "", 0;
      if st.tag.Some? { tag := st.tag.value; }
      if st.retrievalMaxPrice.Some? { maxPrice := st.retrievalMaxPrice.value; }
      if finalized.logs.payloadCID.None? || st.retrievalScheduleLimit.None? {
        return Err(MissingField), tx;
      }
      return Ok(Some(RetrievalTask(st.miner, finalized.logs.payloadCID.value, false, st.retrievalSchedule,
                                   st.retrievalScheduleLimit, Some(tag), Some(maxPrice)))), tx;
    }

    /** The transaction of Update. */
    method UpdateTransaction(id: string, req: UpdateTask) returns (r: Result<(Task, Option<RetrievalTask>), Error>)
      modifies this`db
      ensures match UpdateTx(env.codec, old(db), id, req)
        case Err(e) => r == Err(e) && db == old(db)
        case Ok(u) => r == Ok((u.task, u.followUp)) && db == u.db
    {
      hide Finalized, FollowUp;
      var tx := db;
      if id !in tx.tasks {
        return Err(NoRow);
      }
      var t := tx.tasks[id].data;
      if t.workedBy.None? || t.workedBy.value == "" {
        return Err(NotAssigned);
      } else if req.workedBy != t.workedBy.value {
        return Err(WrongWorker);
      }
      var u := Updated(t, req);
      tx := tx.(tasks := SetData(tx.tasks, id, u));
      if (req.stage.Some? && req.stage.value != t.stage) || req.status != t.status {
        if u.runCount < 1 {
          return Err(BadRunCount);
        }
        tx := tx.(ledger := tx.ledger[(id, tx.clock + 1) := LedgerRow(u.status, u.stage, u.runCount)]);
      }
      assert tx == StoreUpdate(db, id, u, Reported(t, req));
      var followUp := None;
      if u.status == SUCCESSFUL || u.status == FAILED {
        var f;
        f, tx := RecordFinished(u, req.workedBy, tx);
        if f.Err? {
          return Err(f.error);
        }
        followUp := f.value;
      }
      var finalized;
      finalized, tx := Finalize(u, tx);
      tx := tx.(clock := tx.clock + 2);
      assert tx == Log(env.codec, StoreUpdate(db, id, u, Reported(t, req)), u, req.workedBy);
      db := tx;
      return Ok((u, followUp));
    }

    /** Update: the transaction, then the retrieval that a successful storage deal asked for,
        under a fresh random id and in a transaction of its own. If that one fails, or cannot
        be scheduled, the update still stands. */
    method Update(id: string, req: UpdateTask, uuid: string, saveOk: bool) returns (r: Result<Task, Error>)
      requires uuid !in used && uuid !in db.tasks
      modifies this
      ensures match UpdateTx(env.codec, old(db), id, req)
        case Err(e) => r == Err(e) && View() == old(View())
        case Ok(u) =>
          match u.followUp
          case None => r == Ok(u.task) && View() == Run(env, old(View()), [UpdateOp(id, req)])
          case Some(rt) =>
            && View() == Run(env, old(View()), [UpdateOp(id, req)] + FollowUpOps(uuid, rt, saveOk))
            && var t := TaskOf(uuid, RetrievalDeal(rt));
               r == if !saveOk then Err(NotSaved)
                    else if HasSchedule(t) && !ValidSpec(env, Schedule(t)) then Err(InvalidSchedule)
                    else Ok(u.task)
    {
      hide Run, Apply, UpdateTx, HasSchedule, ValidSpec, NewOps;
      ghost var start := View();
      UpdateLandsOneRow(env.codec, db, id, req, uuid);
      var updated := UpdateTransaction(id, req);
      if updated.Err? {
        return Err(updated.error);
      }
      ghost var reported := Apply(env, start, UpdateOp(id, req));
      RunOne(env, start, UpdateOp(id, req));
      UpdateApplied(env, start, id, req);
      if updated.value.1.Some? {
        var rt := updated.value.1.value;
        assert reported.owed - multiset{rt} == start.owed;
        RunConcat(env, start, [UpdateOp(id, req)], FollowUpOps(uuid, rt, saveOk));
        if !saveOk {
          FollowUpLost(env, reported, rt);
          return Err(NotSaved);
        }
        FollowUpIsRun(env, reported, uuid, rt);
        var saved := NewDealTask(uuid, RetrievalDeal(rt));
        if saved.Err? {
          return Err(saved.error);
        }
      }
      return Ok(updated.value.0);
    }

    /** strings.Contains over the five messages whose records are kept out. */
    method Filtered(t: FinishedTask) returns (skip: bool)
      ensures skip <==> RecordChain.Skipped(t)
    {
      hide Text.Contains;
      if t.errorMessage.None? {
        return false;
      }
      var em := t.errorMessage.value;
      var filtered := RecordChain.FILTERED;
      assert RecordChain.Noise(em) <==>
        Text.Contains(em, filtered[0]) || Text.Contains(em, filtered[1]) || Text.Contains(em, filtered[2]) ||
        Text.Contains(em, filtered[3]) || Text.Contains(em, filtered[4]);
      skip := Text.Contains(em, "there is an active retrieval deal with") ||
        Text.Contains(em, "blockstore: block not found") ||
        Text.Contains(em, "missing permission to invoke") ||
        Text.Contains(em, "/efs/dealbot") ||
        Text.Contains(em, "handler: websocket connection closed");
    }

    /** PublishRecordsFrom: collect the worker's unattached records into a new update and make
        it the head. A record whose block is missing aborts the transaction. */
    method PublishRecordsFrom(worker: string) returns (r: Result<Cid, RecordChain.Error>)
      modifies this`db
      ensures View() == Apply(env, old(View()), Publish(worker))
      ensures match RecordChain.PublishTx(env.codec, old(db), worker)
        case Ok(done) => r == Ok(done.1)
        case Err(e) => r == Err(e)
    {
      hide RecordChain.Noise, RecordChain.Head, CidsWhere, Restatus, RecordChain.Authenticated, Members,
        RecordChain.Skipped;
      var tx := db;
      var head := RecordChain.Head(tx.records);
      var headSig := env.codec.sign(head);
      var lnks := CidsWhere(tx.records, Unattached, worker);
      var rcrds := [];
      AttachNone(env.codec, db, lnks);
      for i := 0 to |lnks|
        invariant db == old(db) && tx == db.(records := Restatus(db.records, Members(lnks[..i]), Attached))
        invariant rcrds == RecordChain.Authenticated(env.codec, db.blocks, lnks[..i])
        invariant forall l | l in lnks[..i] :: RecordChain.IsRecordCid(db.blocks, l)
      {
        var lnk := lnks[i];
        AttachNext(env.codec, db, lnks, i);
        tx := tx.(records := Restatus(tx.records, {lnk}, Attached));
        if lnk !in tx.blocks || !tx.blocks[lnk].Finished? {
          assert lnk in lnks && !RecordChain.IsRecordCid(db.blocks, lnk);
          return Err(RecordChain.MissingBlock);
        }
        var skip := Filtered(tx.blocks[lnk].task);
        if !skip { rcrds := rcrds + [AuthRecord(lnk, env.codec.sign(lnk))]; }
      }
      assert lnks[..|lnks|] == lnks;
      var update := RecordUpdate(rcrds, headSig, NullIfEmpty(head));
      var updCid := env.codec.cid(Block.Update(update));
      tx := tx.(blocks := Archive(env.codec, tx.blocks, Block.Update(update)));
      tx := tx.(records := tx.records + [RecordRow(updCid, tx.clock + 1, "", Latest)], clock := tx.clock + 1);
      if head != "" { tx := tx.(records := Restatus(tx.records, {head}, Previous)); }
      db := tx;
      return Ok(updCid);
    }

    /** GetHead: the update `walkback` links behind the head; an error if a link is missing. In
        a reachable state that is the walkback-th newest update ever published, and the only
        error is that there are fewer. */
    method GetHead(walkback: int) returns (r: Result<RecordUpdate, Error>)
      ensures var target := RecordChain.Walk(db.blocks, NullIfEmpty(RecordChain.Head(db.records)), Steps(walkback));
        && (r.Ok? <==> target.Some?)
        && (r.Ok? ==> target.value in db.blocks && db.blocks[target.value] == Block.Update(r.value))
      ensures RecordsOk() ==>
        var log, k := RecordChain.UpdateLog(db.records), Steps(walkback);
        if k < |log|
        then r.Ok? && log[|log| - 1 - k] in db.blocks && db.blocks[log[|log| - 1 - k]] == Block.Update(r.value)
        else r == Err(if log == [] then NoRow else NoPrevious)
    {
      hide RecordChain.Head, RecordChain.UpdateLog, RecordChain.RecordInv, RecordChain.LinkedAt;
      var blocks := db.blocks;
      var head := RecordChain.Head(db.records);
      ghost var log, valid := RecordChain.UpdateLog(db.records), RecordsOk();
      if valid { HeadOfLog(env.codec, db); }
      if head == "" {
        return Err(NoRow);
      }
      if head !in blocks || !blocks[head].Update? {
        return Err(BrokenLink);
      }
      var recordUpdate := blocks[head].update;
      var left := walkback;
      ghost var at, back := head, 0;
      while left > 0
        invariant RecordChain.IsUpdateCid(blocks, at) && blocks[at].update == recordUpdate
        invariant back + Steps(left) == Steps(walkback)
        invariant RecordChain.Walk(blocks, Some(head), Steps(walkback)) ==
          RecordChain.Walk(blocks, Some(at), Steps(left))
        invariant valid ==> 0 <= back < |log| && at == log[|log| - 1 - back]
      {
        if valid { ChainNeighbour(env.codec, db, |log| - 1 - back); }
        if recordUpdate.previous.None? {
          return Err(NoPrevious);
        }
        var previous := recordUpdate.previous.value;
        if previous !in blocks || !blocks[previous].Update? {
          return Err(BrokenLink);
        }
        recordUpdate := blocks[previous].update;
        left := left - 1;
        at, back := previous, back + 1;
      }
      return Ok(recordUpdate);
    }

    /** The record side of a reachable state. */
    ghost predicate RecordsOk()
      reads this`db
    {
      CollisionFree(env.codec) && RecordChain.RecordInv(env.codec, db.blocks, db.records, db.clock)
    }

    /** createRunableTask: a one-off copy of the scheduled task, as its child. */
    method CreateRunableTask(t: Task, tag: string, parent: string, runCount: int, uuid: string)
      returns (error: Option<Error>)
      requires uuid !in db.tasks
      modifies this
      ensures error.None?
      ensures View() == old(View()).(db := SaveTx(old(db), MakeRunable(t, uuid, runCount), tag, parent).value,
                                     used := old(used) + {uuid})
    {
      var runable := MakeRunable(t, uuid, runCount);
      ScheduleAgrees(t, uuid, runCount);
      error := SaveTask(runable, tag, parent);
    }

    /** job.Run and runTask: drop the job of a deleted row, reschedule a changed one, delete
        an expired one, skip while a child is unfinished, and otherwise create a child. Every
        error is only logged: a failed deletion leaves the row without its job, and a failed
        check counts as no unfinished child. */
    method RunTask(j: nat, calls: Calls, uuid: string) returns (created: bool)
      requires CanRun(View(), j) && uuid !in used && uuid !in db.tasks
      modifies this
      ensures created <==> calls.loadOk && calls.saveOk && Due(old(db), old(jobs)[j], calls.countOk)
      ensures View() == Run(env, old(View()), JobOps(old(db), old(jobs)[j], j, calls, uuid))
      ensures created ==>
        var job := old(jobs)[j];
        && job.taskID in old(db).tasks
        && var row := old(db).tasks[job.taskID];
           CopiedFrom(old(db), db, uuid, row.data, row.tag.GetOr(""), job.taskID, job.runCount)
    {
      hide Run, Apply, Schedule, Children, ScheduleStep, SaveTx, MakeRunable, DeleteTx, ValidSpec, CopiedFrom;
      var job := jobs[j];
      ghost var start := View();
      if !calls.loadOk {
        AbortedRun(env, start, j);
        jobs := jobs[j := Finish(job)];
        return false;
      }
      if job.taskID !in db.tasks {
        GoneRun(env, start, j);
        jobs := jobs - {j};
        return false;
      }
      var row := db.tasks[job.taskID];
      if Schedule(row.data) != (job.schedule, job.limit) {
        RescheduledRun(env, start, j);
        jobs := jobs - {j};
        pending := pending - {job.taskID};
        var ok := ScheduleTask(row.data);
        return false;
      }
      if job.expireAt.Some? && db.clock > job.expireAt.value {
        ExpiredRun(env, start, j);
        jobs := jobs - {j};
        expiring := expiring - {job.taskID};
        if calls.deleteOk { db := DeleteTx(db, job.taskID); } else { stuck := stuck + {job.taskID}; }
        return false;
      }
      var count := 0;
      if calls.countOk { count := |Children(db, job.taskID, SUCCESSFUL)|; }
      if count != 0 {
        SkippedRun(env, start, j);
        jobs := jobs[j := Finish(job)];
        return false;
      }
      if !calls.saveOk {
        UnsavedRun(env, start, j, calls.countOk);
        jobs := jobs[j := Finish(job)];
        return false;
      }
      CreatedRun(env, start, j, calls.countOk, uuid);
      CopyIsSaved(db, uuid, row.data, row.tag.GetOr(""), job.taskID, job.runCount);
      var error := CreateRunableTask(row.data, row.tag.GetOr(""), job.taskID, job.runCount, uuid);
      jobs := jobs[j := Finish(job)];
      return true;
    }
  }
}
