/** Runs from the initial state in which the code does not keep what its comments or its
    design promise: one for each condition under which a guarantee is proved elsewhere. */
module Witnesses {
  import opened Wrappers
  import opened Tasks
  import opened Store
  import opened TaskStore
  import opened Controller
  import opened Runs
  import opened Recovery
  import opened StateDatabase
  import ChildRuns = Children
  import EngineLoop
  import Pando
  import RecordChain
  import RecordRuns

  // ---------- A scheduled task and its job ----------

  const DAILY := "@daily"

  function Retrieval(schedule: Option<string>, limit: Option<string>): Deal {
    RetrievalDeal(RetrievalTask("miner", "cid", false, schedule, limit, None, None))
  }

  /** Task p is scheduled, and its job 0 is idle and has run `runs` times. */
  predicate Ready(w: World, p: string, runs: nat) {
    && w.process.Up? && w.db.tasks.Keys <= w.used
    && w.jobs.Keys == {0} && w.jobs[0].phase.Idle? && w.jobs[0].taskID == p && w.jobs[0].runCount == runs
    && w.pending == map[] && w.expiring == {}
    && p in w.db.tasks && w.db.tasks[p].owner == Some(SCHEDULER) && Fresh(w.db.tasks[p].data)
    && Schedule(w.db.tasks[p].data) == (w.jobs[0].schedule, w.jobs[0].limit)
  }

  lemma StartReady(env: Env, p: string, deal: Deal)
    requires HasSchedule(TaskOf(p, deal)) && ValidSpec(env, Schedule(TaskOf(p, deal)))
    ensures var w := Run(env, START, NewOps(p, deal));
      && Ready(w, p, 0) && w.used == {p} && w.db.tasks.Keys == {p}
      && w.jobs[0] == NewJob(env, p, Schedule(TaskOf(p, deal)), w.db.clock)
      && !ChildRuns.HasOpenChild(w.db.tasks, p) && w.db.tasks[p].parent.None?
  {
    hide Run, HasSchedule, ValidSpec, Schedule, SaveTx;
    var t := TaskOf(p, deal);
    SavedIsRun(env, START, p, deal);
    SaveAdds(EMPTY, t, TagOf(deal), "");
    ScheduleAgrees(t, "", 0);
  }

  /** One run of the job, with the check for an unfinished child answered or failing. */
  function Round(uuid: string, countOk: bool): seq<Op> {
    [Load(0), if countOk then Count(0) else CountFails(0), Create(0, uuid)]
  }

  /** A run that passes the check adds a fresh child; the check passes when it fails. */
  lemma RoundAddsChild(env: Env, w: World, p: string, uuid: string, runs: nat, countOk: bool)
    requires Ready(w, p, runs) && w.jobs[0].expireAt.None? && p != "" && uuid !in w.used
    requires countOk ==> Children(w.db, p, SUCCESSFUL) == {}
    ensures var w' := Run(env, w, Round(uuid, countOk));
      && Ready(w', p, runs + 1) && w'.used == w.used + {uuid} && w'.jobs[0].expireAt.None?
      && uuid in w'.db.tasks && w'.db.tasks == w.db.tasks[uuid := w'.db.tasks[uuid]]
      && w'.db.tasks[uuid].owner.None? && w'.db.tasks[uuid].parent == Some(p)
      && w'.db.tasks[uuid].data == MakeRunable(w.db.tasks[p].data, uuid, runs)
      && w'.db == w.db.(tasks := w'.db.tasks, ledger := w'.db.ledger, clock := w'.db.clock)
  {
    hide Run, SaveTx, MakeRunable, Children, Schedule;
    var row := w.db.tasks[p];
    CreatedRun(env, w, 0, countOk, uuid);
    MakeRunableUuid(row.data, uuid, runs);
    ScheduleAgrees(row.data, uuid, runs);
    SaveAdds(w.db, MakeRunable(row.data, uuid, runs), row.tag.GetOr(""), p);
  }

  lemma ChildIsOpen(t: Task, uuid: string, runs: nat)
    ensures ChildRuns.Open(MakeRunable(t, uuid, runs)) && Fresh(MakeRunable(t, uuid, runs))
    ensures MakeRunable(t, uuid, runs).runCount == runs
  {
    FreshTasks(t, uuid, None, None, runs);
  }

  /** In a reachable state the check passes when there is no unfinished child. */
  lemma NothingCounted(env: Env, w: World, p: string)
    requires Inv(env, w) && !ChildRuns.HasOpenChild(w.db.tasks, p)
    ensures Children(w.db, p, SUCCESSFUL) == {}
  {
    hide JobInv, NewestBelow;
    LedgerQueriesAreExact(w.db, p, SUCCESSFUL);
    assert forall id :: id in Children(w.db, p, SUCCESSFUL) ==> ChildRuns.OpenChild(w.db.tasks, p, id);
  }

  /** The first run of the job of an only task. */
  lemma FirstRound(env: Env, p: string, deal: Deal, uuid: string)
    requires CollisionFree(env.codec) && HasSchedule(TaskOf(p, deal)) && ValidSpec(env, Schedule(TaskOf(p, deal)))
    requires Schedule(TaskOf(p, deal)).1 == "" && p != "" && uuid != p
    ensures var w := Run(env, START, NewOps(p, deal) + Round(uuid, true));
      && Inv(env, w) && Ready(w, p, 1) && w.jobs[0].expireAt.None?
      && w.used == {p, uuid} && w.db.tasks.Keys == {p, uuid}
      && w.db.tasks[uuid].owner.None? && w.db.tasks[uuid].parent == Some(p)
      && ChildRuns.Open(w.db.tasks[uuid].data) && w.db.tasks[p].parent.None?
  {
    hide Run, Ready, Inv, HasSchedule, ValidSpec, Schedule, MakeRunable, Children, ChildRuns.Open;
    var w := Run(env, START, NewOps(p, deal));
    StartReady(env, p, deal);
    ReachableInv(env, NewOps(p, deal));
    NothingCounted(env, w, p);
    RoundAddsChild(env, w, p, uuid, 0, true);
    ChildIsOpen(w.db.tasks[p].data, uuid, 0);
    RunConcat(env, START, NewOps(p, deal), Round(uuid, true));
    ReachableInv(env, NewOps(p, deal) + Round(uuid, true));
  }

  // ---------- Two unfinished children ----------

  /** The check fails: two runs of the job, and no update at all. */
  lemma TwoOpenChildren(env: Env) returns (ops: seq<Op>)
    requires CollisionFree(env.codec) && env.cronOk(DAILY)
    ensures forall op | op in ops :: Admissible(op) && !op.UpdateOp?
    ensures !ChildRuns.OneOpenChild(Run(env, START, ops).db.tasks)
  {
    hide Run, Ready, Inv, Children, MakeRunable, ChildRuns.Open;
    var p, a, b := "p", "a", "b";
    var deal := Retrieval(Some(DAILY), None);
    var first := NewOps(p, deal) + Round(a, true);
    FirstRound(env, p, deal, a);
    var w := Run(env, START, first);
    RoundAddsChild(env, w, p, b, 1, false);
    ChildIsOpen(w.db.tasks[p].data, b, 1);
    RunConcat(env, START, first, Round(b, false));
    ops := first + Round(b, false);
    var ts := Run(env, START, ops).db.tasks;
    assert ChildRuns.OpenChild(ts, p, a) && ChildRuns.OpenChild(ts, p, b);
  }

  function Report(worker: string, status: int): UpdateTask { UpdateTask(status, None, None, None, worker, 1) }

  /** A worker may report any status for its own task at any time, success of a deal with a
      follow-up aside. */
  lemma ReportLands(env: Env, w: World, id: string, worker: string, status: int)
    requires w.process.Up? && id in w.db.tasks && w.db.tasks[id].data.workedBy == Some(worker) && worker != ""
    requires status != SUCCESSFUL
    ensures var op := UpdateOp(id, Report(worker, status));
      && Commits(env, w, op, id)
      && Apply(env, w, op).db.tasks == w.db.tasks[id := w.db.tasks[id].(data := Updated(w.db.tasks[id].data, op.req))]
      && Apply(env, w, op) == w.(db := Apply(env, w, op).db)
  {
    hide Log, StoreUpdate, Finalized;
    UpdateParts(env.codec, w.db, id, Report(worker, status));
  }

  /** Popping the only available row. */
  lemma PopOnly(env: Env, w: World, id: string, worker: string, status: int)
    requires w.process.Up? && id in w.db.tasks && w.db.tasks[id].owner.None? && !HasSchedule(w.db.tasks[id].data)
    requires forall other | other in w.db.tasks && other != id :: w.db.tasks[other].owner.Some?
    requires worker != "" && status != AVAILABLE
    ensures var w' := Apply(env, w, Pop(id, worker, status, []));
      && w'.db.tasks == w.db.tasks[id := PoppedRow(w.db.tasks[id], worker, status, w.db.clock + 1)]
      && w' == w.(db := w'.db)
  {
    hide HasSchedule;
    assert OldestAvailable(w.db.tasks, [], id);
  }

  function PopAndFail(a: string, worker: string): seq<Op> {
    [Pop(a, worker, IN_PROGRESS, []), UpdateOp(a, Report(worker, FAILED))]
  }

  /** The only child is worked on and fails. */
  lemma ChildFails(env: Env, w: World, p: string, a: string, worker: string)
    requires CollisionFree(env.codec) && Inv(env, w) && Ready(w, p, 1) && w.jobs[0].expireAt.None?
    requires w.db.tasks.Keys == {p, a} && a != p && w.db.tasks[a].owner.None? && w.db.tasks[a].parent == Some(p)
    requires worker != "" && worker != SCHEDULER
    requires w.db.tasks[p].parent.None?
    ensures var w' := Run(env, w, PopAndFail(a, worker));
      && Inv(env, w') && Ready(w', p, 1) && w'.jobs[0].expireAt.None? && w'.used == w.used
      && w'.db.tasks.Keys == {p, a} && w'.db.tasks[a].parent == Some(p)
      && w'.db.tasks[a].data.workedBy == Some(worker)
      && !ChildRuns.HasOpenChild(w'.db.tasks, p)
  {
    hide Run, Apply, Inv, HasSchedule, Schedule;
    var pop, report := Pop(a, worker, IN_PROGRESS, []), UpdateOp(a, Report(worker, FAILED));
    ChildHasNoSchedule(env, w, a);
    PopOnly(env, w, a, worker, IN_PROGRESS);
    ReportLands(env, Apply(env, w, pop), a, worker, FAILED);
    ApplyKeepsInv(env, w, pop);
    ApplyKeepsInv(env, Apply(env, w, pop), report);
    RunTwo(env, w, pop, report);
  }

  /** The job makes the next child, and then the failed one is reported in progress. */
  lemma NextChildThenReopen(env: Env, w: World, p: string, a: string, b: string, worker: string)
    requires Inv(env, w) && Ready(w, p, 1) && w.jobs[0].expireAt.None? && !ChildRuns.HasOpenChild(w.db.tasks, p)
    requires p != "" && a in w.db.tasks && b !in w.used && a != b && w.db.tasks[a].parent == Some(p)
    requires w.db.tasks[a].data.workedBy == Some(worker) && worker != ""
    ensures !ChildRuns.OneOpenChild(
      Apply(env, Run(env, w, Round(b, true)), UpdateOp(a, Report(worker, IN_PROGRESS))).db.tasks)
  {
    hide Run, Apply, Inv, Children, MakeRunable, Schedule, Ready, ChildRuns.Open, ChildRuns.HasOpenChild,
      ChildRuns.OneOpenChild, Updated;
    ReadyIsUp(w, p, 1);
    NothingCounted(env, w, p);
    RoundAddsChild(env, w, p, b, 1, true);
    ChildIsOpen(w.db.tasks[p].data, b, 1);
    var w' := Run(env, w, Round(b, true));
    ReadyIsUp(w', p, 2);
    ReportLands(env, w', a, worker, IN_PROGRESS);
    OpensBeside(w'.db.tasks, p, a, b, Report(worker, IN_PROGRESS));
  }

  /** An update reopens a finished child: every check answers, and the job did as it should. */
  lemma ReopenedBeside(env: Env) returns (ops: seq<Op>)
    requires CollisionFree(env.codec) && env.cronOk(DAILY)
    ensures forall op | op in ops :: Admissible(op) && !op.CountFails?
    ensures !ChildRuns.OneOpenChild(Run(env, START, ops).db.tasks)
  {
    hide Run, Apply, Inv, HasSchedule, Schedule, ValidSpec, Ready, ChildRuns.Open, ChildRuns.HasOpenChild,
      ChildRuns.OneOpenChild;
    var p, a, b, worker := "p", "a", "b", "w";
    var deal := Retrieval(Some(DAILY), None);
    DailyIsSchedule(env, p);
    var first := NewOps(p, deal) + Round(a, true);
    FirstRound(env, p, deal, a);
    var w := Run(env, START, first);
    ChildFails(env, w, p, a, worker);
    NextChildThenReopen(env, Run(env, w, PopAndFail(a, worker)), p, a, b, worker);
    var reopen := UpdateOp(a, Report(worker, IN_PROGRESS));
    RunInThree(env, first, PopAndFail(a, worker), Round(b, true), reopen);
    ops := first + PopAndFail(a, worker) + Round(b, true) + [reopen];
  }

  lemma ReadyIsUp(w: World, p: string, runs: nat)
    requires Ready(w, p, runs)
    ensures w.process.Up? && p in w.db.tasks && w.db.tasks[p].owner == Some(SCHEDULER)
  {
  }

  lemma RunInThree(env: Env, a: seq<Op>, b: seq<Op>, c: seq<Op>, op: Op)
    ensures Run(env, START, a + b + c + [op]) == Apply(env, Run(env, Run(env, Run(env, START, a), b), c), op)
  {
    hide Run, Apply;
    RunConcat(env, START, a, b);
    RunConcat(env, START, a + b, c);
    RunSnoc(env, START, a + b + c, op);
  }

  lemma OpensBeside(ts: TaskTable, p: string, a: string, b: string, req: UpdateTask)
    requires a in ts && b in ts && a != b && ts[a].parent == Some(p) && ts[b].parent == Some(p)
    requires ChildRuns.Open(ts[b].data) && req.status < SUCCESSFUL
    ensures !ChildRuns.OneOpenChild(ts[a := ts[a].(data := Updated(ts[a].data, req))])
  {
    var ts' := ts[a := ts[a].(data := Updated(ts[a].data, req))];
    assert ChildRuns.OpenChild(ts', p, a) && ChildRuns.OpenChild(ts', p, b);
  }

  lemma DailyIsSchedule(env: Env, p: string)
    requires env.cronOk(DAILY)
    ensures var t := TaskOf(p, Retrieval(Some(DAILY), None));
      HasSchedule(t) && Schedule(t) == (DAILY, "") && ValidSpec(env, Schedule(t))
  {
  }

  lemma ChildHasNoSchedule(env: Env, w: World, id: string)
    requires Inv(env, w) && id in w.db.tasks && w.db.tasks[id].owner.None?
    ensures !HasSchedule(w.db.tasks[id].data)
  {
    hide JobInv;
    assert RowOk(w.db.tasks, w.db.ledger, w.db.clock, id);
  }

  // ---------- Scheduled tasks deleted or expired ----------

  /** A client deletes the task while its job runs: the child is created all the same, with
      a parent that no longer exists. */
  lemma ChildOfDeletedTask(env: Env) returns (ops: seq<Op>, p: string, uuid: string)
    requires CollisionFree(env.codec) && env.cronOk(DAILY)
    ensures forall op | op in ops :: Admissible(op) && !op.CountFails?
    ensures Delete(p) in ops
    ensures var ts := Run(env, START, ops).db.tasks;
      p !in ts && uuid in ts && ts[uuid].parent == Some(p)
  {
    hide Run, Inv, Children, Ready, HasSchedule, Schedule, ValidSpec, ChildRuns.HasOpenChild, SaveTx;
    p, uuid := "p", "a";
    var deal := Retrieval(Some(DAILY), None);
    DailyIsSchedule(env, p);
    StartReady(env, p, deal);
    ReachableInv(env, NewOps(p, deal));
    var w := Run(env, START, NewOps(p, deal));
    NothingCounted(env, w, p);
    DeletedWhileClear(env, w, p, uuid, 0);
    var passed := [Load(0), Count(0)];
    RunConcat(env, START, NewOps(p, deal), passed);
    RunSnoc(env, START, NewOps(p, deal) + passed, Delete(p));
    RunSnoc(env, START, NewOps(p, deal) + passed + [Delete(p)], Create(0, uuid));
    ops := NewOps(p, deal) + passed + [Delete(p)] + [Create(0, uuid)];
    assert ops[|ops| - 2] == Delete(p);
  }

  lemma DeletedWhileClear(env: Env, w: World, p: string, uuid: string, runs: nat)
    requires Ready(w, p, runs) && w.jobs[0].expireAt.None? && Children(w.db, p, SUCCESSFUL) == {}
    requires p != "" && uuid !in w.used && uuid != p
    ensures var w' := Apply(env, Apply(env, Run(env, w, [Load(0), Count(0)]), Op.Delete(p)), Create(0, uuid));
      p !in w'.db.tasks && uuid in w'.db.tasks && w'.db.tasks[uuid].parent == Some(p)
  {
    hide Run, Children, Schedule, SaveTx, MakeRunable;
    ClearedRun(env, w, 0, true);
    var w1 := Apply(env, Run(env, w, [Load(0), Count(0)]), Op.Delete(p));
    var job := w1.jobs[0];
    MakeRunableUuid(job.phase.task, uuid, runs);
    ScheduleAgrees(job.phase.task, uuid, runs);
    SaveAdds(w1.db, MakeRunable(job.phase.task, uuid, runs), job.phase.tag, p);
  }

  /** The deletion of an expired task fails: nothing is under way any more, the row is as
      schedulable as ever, and it has no job. */
  lemma ExpiredRowWithoutJob(env: Env, duration: int) returns (ops: seq<Op>, p: string)
    requires CollisionFree(env.codec) && env.cronOk(DAILY) && env.duration("1h") == Some(duration)
    ensures forall op | op in ops :: Admissible(op)
    ensures var w := Run(env, START, ops);
      && w.process.Up? && w.pending == map[] && w.expiring == {}
      && Schedulable(env, w.db.tasks, p) && !HasJob(w.jobs, p)
  {
    hide Run, Inv, HasSchedule, Schedule, ValidSpec, ChildRuns.HasOpenChild;
    p := "p";
    var deal := Retrieval(Some(DAILY), Some("1h"));
    HourIsSchedule(env, p);
    StartReady(env, p, deal);
    var w := Run(env, START, NewOps(p, deal));
    var later: nat := if duration < 0 then 1 else duration + 1;
    var w1 := Apply(env, w, Tick(later));
    RunSnoc(env, START, NewOps(p, deal), Tick(later));
    var fail := [Load(0), ExpireFails(p)];
    RunConcat(env, START, NewOps(p, deal) + [Tick(later)], fail);
    ExpiredRun(env, w1, 0);
    ops := NewOps(p, deal) + [Tick(later)] + fail;
    ReachableInv(env, NewOps(p, deal));
    ReadyIsScheduled(env, w, p, 0);
  }

  lemma HourIsSchedule(env: Env, p: string)
    requires env.cronOk(DAILY) && env.duration("1h").Some?
    ensures var t := TaskOf(p, Retrieval(Some(DAILY), Some("1h")));
      HasSchedule(t) && Schedule(t) == (DAILY, "1h") && ValidSpec(env, Schedule(t))
  {
  }

  lemma ReadyIsScheduled(env: Env, w: World, p: string, runs: nat)
    requires Inv(env, w) && Ready(w, p, runs)
    ensures Schedulable(env, w.db.tasks, p)
  {
    hide DbInv, ValidSpec, Schedule, HasSchedule, Live, OneEach, IdsUsed;
    assert JobMatches(env, w.db.tasks, w.jobs[0]);
  }

  // ---------- Reset, delete, and a worker with the wrong name ----------

  /** The second copy of a scheduled task is popped and reset: its run count is gone. */
  lemma ResetLosesRunCount(env: Env) returns (before: seq<Op>, after: seq<Op>, t: string)
    requires CollisionFree(env.codec) && env.cronOk(DAILY)
    ensures forall op | op in before + after :: Admissible(op)
    ensures forall op | op in after :: op.Pop? || op.ResetWorker?
    ensures var w, w' := Run(env, START, before), Run(env, START, before + after);
      && t in w.db.tasks && Fresh(w.db.tasks[t].data) && w.db.tasks[t].owner.None?
      && t in w'.db.tasks && w'.db.tasks[t].owner.None? && w'.db.tasks[t] != w.db.tasks[t]
  {
    hide Run, Apply, Inv, Children, HasSchedule, Schedule, ValidSpec, Ready, ChildRuns.HasOpenChild,
      MakeRunable, Fresh, Enabled;
    var p, worker := "p", "w";
    t := "a";
    var deal := Retrieval(Some(DAILY), None);
    DailyIsSchedule(env, p);
    StartReady(env, p, deal);
    var start := NewOps(p, deal);
    var w0 := Run(env, START, start);
    ReachableInv(env, start);
    NothingCounted(env, w0, p);
    var skipped := [Load(0), Count(0), Abort(0)];
    AbortedRound(env, w0, p, 0);
    var w1 := Run(env, w0, skipped);
    RoundAddsChild(env, w1, p, t, 1, true);
    ChildIsOpen(w1.db.tasks[p].data, t, 1);
    RunConcat(env, START, start, skipped);
    RunConcat(env, START, start + skipped, Round(t, true));
    before := start + skipped + Round(t, true);
    var w := Run(env, START, before);
    ReachableInv(env, before);
    ReadyIsUp(w, p, 2);
    ChildHasNoSchedule(env, w, t);
    PopOnly(env, w, t, worker, IN_PROGRESS);
    var pop, reset := Pop(t, worker, IN_PROGRESS, []), ResetWorker(worker, [t]);
    ApplyKeepsInv(env, w, pop);
    ResetOnly(env, Apply(env, w, pop), t, worker);
    RunOne(env, w, pop);
    ResetAsNeverRun(env, w, [pop], worker, [t], t);
    ResetUnassigns(env, Apply(env, w, pop), worker, [t], t);
    RunTwo(env, w, pop, reset);
    after := [pop, reset];
    RunConcat(env, START, before, after);
  }

  lemma AbortedRound(env: Env, w: World, p: string, runs: nat)
    requires Ready(w, p, runs) && w.jobs[0].expireAt.None? && Children(w.db, p, SUCCESSFUL) == {}
    ensures var w' := Run(env, w, [Load(0), Count(0), Abort(0)]);
      Ready(w', p, runs + 1) && w'.db == w.db && w'.used == w.used && w'.jobs[0].expireAt.None?
  {
    hide Run, Children, Schedule;
    UnsavedRun(env, w, 0, true);
  }

  /** The only task of a worker can be reset. */
  lemma ResetOnly(env: Env, w: World, t: string, worker: string)
    requires Inv(env, w) && w.process.Up? && Holds(w, t, worker) && w.db.tasks[t].data.status == IN_PROGRESS
    requires forall other | other in w.db.tasks && other != t :: w.db.tasks[other].owner != Some(worker)
    ensures Enabled(w, ResetWorker(worker, [t]))
  {
    hide JobInv, NewestIs;
    LedgerQueriesAreExact(w.db, worker, IN_PROGRESS);
    assert Members([t]) == WorkerTasks(w.db, worker, IN_PROGRESS);
  }

  function NewPlain(t: string): seq<Op> { [NewTask(t, Retrieval(None, None))] }

  lemma StartPlain(env: Env, t: string)
    requires CollisionFree(env.codec)
    ensures var w := Run(env, START, NewPlain(t));
      && Inv(env, w) && w.process.Up? && w.db.tasks.Keys == {t}
      && w.db.tasks[t].owner.None? && w.db.tasks[t].data == TaskOf(t, Retrieval(None, None))
      && !HasSchedule(w.db.tasks[t].data)
  {
    hide Run, SaveTx, Inv;
    var deal := Retrieval(None, None);
    ReachableInv(env, NewPlain(t));
    RunOne(env, START, NewTask(t, deal));
    SaveAdds(EMPTY, TaskOf(t, deal), TagOf(deal), "");
  }

  /** A pop between the check of Delete and its deletion: the worker loses its task. */
  lemma DeletedWhileWorkedOn(env: Env) returns (t: string, pop: Op, worker: string)
    requires CollisionFree(env.codec)
    ensures Admissible(pop) && pop.Pop?
    ensures var checked := Run(env, START, NewPlain(t));
      var popped := Apply(env, checked, pop);
      var deleted := Apply(env, popped, Op.Delete(t));
      && t in checked.db.tasks && Deletable(checked.db.tasks, t)
      && Holds(popped, t, worker) && !Deletable(popped.db.tasks, t)
      && forall req :: UpdateTx(env.codec, deleted.db, t, req) == Err(NoRow)
  {
    hide Run, Inv;
    t, worker := "t", "w";
    pop := Pop(t, worker, IN_PROGRESS, []);
    StartPlain(env, t);
    PopOnly(env, Run(env, START, NewPlain(t)), t, worker, IN_PROGRESS);
  }

  /** A worker that goes by the scheduler's name: the first pop already breaks the agreement
      of the owner column with the task. */
  lemma WorkerNamedScheduler(env: Env) returns (ops: seq<Op>)
    requires CollisionFree(env.codec)
    ensures var db := Run(env, START, ops).db; !TaskInv(db.tasks, db.ledger, db.clock)
  {
    hide Run, Inv, HasSchedule, TaskInv;
    var t := "t";
    var pop := Pop(t, SCHEDULER, IN_PROGRESS, []);
    StartPlain(env, t);
    var w := Run(env, START, NewPlain(t));
    TablesAgree(env, w);
    assert OldestAvailable(w.db.tasks, [], t);
    PopKeepsInv(w.db, t, SCHEDULER, IN_PROGRESS);
    RunSnoc(env, START, NewPlain(t), pop);
    ops := NewPlain(t) + [pop];
  }

  lemma TablesAgree(env: Env, w: World)
    requires Inv(env, w)
    ensures TaskInv(w.db.tasks, w.db.ledger, w.db.clock)
  {
    hide JobInv;
  }

  // ---------- The engine ----------

  /** n tasks were admitted and cancelled, one after the other. */
  function Cancelled(workers: nat, n: nat): EngineLoop.State {
    EngineLoop.State(workers, if n < workers then 1 else 0, 0, n, EngineLoop.Stopped,
                     seq(n, _ => EngineLoop.TaskRun(false, EngineLoop.Abandoned)), false, EngineLoop.Head)
  }

  function AdmitAndCancel(n: nat): seq<EngineLoop.Event> {
    [EngineLoop.Poll, EngineLoop.TakeReady, EngineLoop.Popped(true), EngineLoop.Abandon(n)]
  }

  lemma EngineSnoc(s: EngineLoop.State, es: seq<EngineLoop.Event>, e: EngineLoop.Event)
    ensures EngineLoop.Run(s, es + [e]) == EngineLoop.Step(EngineLoop.Run(s, es), e)
  {
    hide EngineLoop.Step;
    assert (es + [e])[..|es|] == es;
  }

  lemma OneMoreCancelled(workers: nat, es: seq<EngineLoop.Event>, n: nat)
    requires n < workers && EngineLoop.Run(EngineLoop.Init(workers), es) == Cancelled(workers, n)
    ensures EngineLoop.Run(EngineLoop.Init(workers), es + AdmitAndCancel(n)) == Cancelled(workers, n + 1)
  {
    hide EngineLoop.Run;
    var s, round := EngineLoop.Init(workers), AdmitAndCancel(n);
    EngineSnoc(s, es, round[0]);
    EngineSnoc(s, es + [round[0]], round[1]);
    EngineSnoc(s, es + [round[0]] + [round[1]], round[2]);
    EngineSnoc(s, es + [round[0]] + [round[1]] + [round[2]], round[3]);
    assert es + round == es + [round[0]] + [round[1]] + [round[2]] + [round[3]];
    var running := Cancelled(workers, n).runs + [EngineLoop.TaskRun(false, EngineLoop.Running)];
    assert running[n := EngineLoop.TaskRun(false, EngineLoop.Abandoned)] == Cancelled(workers, n + 1).runs;
  }

  lemma {:induction false} CancelMany(workers: nat, n: nat) returns (es: seq<EngineLoop.Event>)
    requires n <= workers && workers >= 1
    ensures EngineLoop.Run(EngineLoop.Init(workers), es) == Cancelled(workers, n)
  {
    if n == 0 {
      es := [];
    } else {
      var before := CancelMany(workers, n - 1);
      OneMoreCancelled(workers, before, n - 1);
      es := before + AdmitAndCancel(n - 1);
    }
  }

  /** However many slots there are: as many tasks are admitted and cancelled, and the loop
      waits for ever. */
  lemma WedgedEngine(workers: nat) returns (es: seq<EngineLoop.Event>)
    requires workers >= 1
    ensures var s := EngineLoop.Run(EngineLoop.Init(workers), es); EngineLoop.Wedged(s) && !s.closing
  {
    hide EngineLoop.Run;
    var before := CancelMany(workers, workers);
    EngineSnoc(EngineLoop.Init(workers), before, EngineLoop.Poll);
    es := before + [EngineLoop.Poll];
  }

  // ---------- Pando ----------

  /** Two batches complete and only the older one is published: the newer one cannot be
      reached from Pando. */
  lemma UnreachableFromPando(env: Env, hash: Pando.Hash) returns (events: seq<Pando.Event>)
    requires CollisionFree(env.codec) && Pando.Injective(hash)
    ensures forall e | e in events :: Pando.Allowed(e)
    ensures var s := Pando.History(env, hash, Pando.BEGIN, events);
      var log := RecordChain.UpdateLog(s.world.db.records);
      |log| == 2 && s.passed == [log[0]] && !Pando.Reachable(s.pando, s.world.db.blocks, log[1])
  {
    hide Apply, Inv, RecordChain.UpdateLog, Pando.Reachable, RecordChain.RecordInv, Pando.History;
    var publish := Pando.Controller(Publish("w"));
    var w1 := Apply(env, START, Publish("w"));
    var w2 := Apply(env, w1, Publish("w"));
    StartInv(env);
    OneMoreUpdate(env, START, "w");
    OneMoreUpdate(env, w1, "w");
    NoUpdateYet();
    var log := RecordChain.UpdateLog(w2.db.records);
    RecordRuns.InvParts(env, w2);
    FirstTwoDiffer(env.codec, w2.db);
    var start, pass := Pando.StartPublisher(Pando.NoFailure), Pando.PublishUpdate(log[0], Pando.NoFailure);
    PandoRun(env, hash, [], publish);
    PandoRun(env, hash, [publish], publish);
    PandoRun(env, hash, [publish, publish], start);
    PandoRun(env, hash, [publish, publish, start], pass);
    assert [] + [publish] == [publish] && [publish] + [publish] == [publish, publish];
    assert [publish, publish] + [start] == [publish, publish, start];
    events := [publish, publish, start] + [pass];
    Pando.PandoReachesExactly(env, hash, events, 1);
  }

  lemma PandoRun(env: Env, hash: Pando.Hash, events: seq<Pando.Event>, e: Pando.Event)
    ensures Pando.History(env, hash, Pando.BEGIN, events + [e]) ==
      Pando.Next(env, hash, Pando.History(env, hash, Pando.BEGIN, events), e)
    ensures Pando.History(env, hash, Pando.BEGIN, []) == Pando.BEGIN
  {
    hide Pando.Next;
    assert (events + [e])[..|events|] == events;
  }

  lemma NoUpdateYet()
    ensures RecordChain.UpdateLog(START.db.records) == []
  {
  }

  lemma FirstTwoDiffer(c: Codec, db: Tables)
    requires RecordChain.RecordInv(c, db.blocks, db.records, db.clock) && |RecordChain.UpdateLog(db.records)| == 2
    ensures var log := RecordChain.UpdateLog(db.records); log[0] != log[1]
  {
    hide RecordChain.UpdateLog;
    RecordChain.ChainDistinct(c, db.blocks, RecordChain.UpdateLog(db.records), 0, 1);
  }

  lemma OneMoreUpdate(env: Env, w: World, worker: string)
    requires CollisionFree(env.codec) && Inv(env, w) && w.process.Up?
    ensures var w' := Apply(env, w, Publish(worker));
      && Inv(env, w') && w'.process.Up?
      && |RecordChain.UpdateLog(w'.db.records)| == |RecordChain.UpdateLog(w.db.records)| + 1
  {
    hide Inv, RecordChain.PublishTx, RecordChain.UpdateLog, RecordChain.RecordInv;
    RecordRuns.InvParts(env, w);
    RecordChain.PublishKeepsInv(env.codec, w.db, worker);
    ApplyKeepsInv(env, w, Publish(worker));
  }
}
