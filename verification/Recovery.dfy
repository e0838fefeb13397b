/** Crash recovery of the cron jobs, and the end of jobs whose row was deleted. */
module Recovery {
  import opened Wrappers
  import opened Tasks
  import opened Store
  import opened TaskStore
  import opened Controller
  import opened Runs
  import ChildRuns = Children

  /** The row of a schedulable task: the scheduler owns it and its specification is valid. */
  predicate Schedulable(env: Env, ts: TaskTable, id: string) {
    Scheduled(ts, id) && ValidSpec(env, Schedule(ts[id].data))
  }

  /** The live jobs are exactly one per schedulable row, less those rows whose expiry could
      not delete them; a job of a deleted row aside. */
  ghost predicate JobsAreRows(env: Env, w: World) {
    && (forall i, j | i in w.jobs && j in w.jobs && i != j :: w.jobs[i].taskID != w.jobs[j].taskID)
    && (forall id | id in w.db.tasks :: HasJob(w.jobs, id) <==> Schedulable(env, w.db.tasks, id) && id !in w.stuck)
  }

  /** In every reachable state with nothing about to be scheduled or expired. */
  lemma QuietJobsAreRows(env: Env, w: World)
    requires Inv(env, w) && w.process.Up? && w.pending == map[] && w.expiring == {}
    ensures JobsAreRows(env, w)
  {
    hide DbInv, ValidSpec, Schedule, IdsUsed;
    forall id | id in w.db.tasks
      ensures HasJob(w.jobs, id) <==> Schedulable(env, w.db.tasks, id) && id !in w.stuck
    {
      if HasJob(w.jobs, id) {
        var i :| i in w.jobs && w.jobs[i].taskID == id;
        assert JobMatches(env, w.db.tasks, w.jobs[i]);
      }
      if Schedulable(env, w.db.tasks, id) { assert Covered(w, id); }
    }
  }

  // ---------- Crash, recover, reschedule ----------

  function StartAll(ids: seq<string>): seq<Op> {
    seq(|ids|, i requires 0 <= i < |ids| => StartJob(ids[i]))
  }

  /** Jobs are only added, for the given tasks. */
  predicate JobsFrom(jobs: Jobs, jobs': Jobs, ids: set<string>) {
    forall i | i in jobs' :: (i in jobs && jobs[i] == jobs'[i]) || jobs'[i].taskID in ids
  }

  /** Scheduling one pending task takes it off the list and leaves the tables alone. */
  lemma StartOne(env: Env, w: World, id: string)
    requires Inv(env, w) && w.process.Up? && id in w.pending
    ensures var w' := Apply(env, w, StartJob(id));
      && w'.db == w.db && w'.pending == w.pending - {id} && w'.process.Up?
      && w'.expiring == w.expiring && w'.stuck == w.stuck
      && JobsFrom(w.jobs, w'.jobs, {id})
  {
    hide Apply, DbInv, OneEach, IdsUsed, Live, ValidSpec, Schedule;
    StartJobApplied(env, w, id);
    ScheduleKeepsAll(env, w, id);
    assert PendingMatches(w.db.tasks, id, w.pending[id]);
  }

  lemma {:induction false} StartAllDrains(env: Env, w: World, ids: seq<string>)
    requires CollisionFree(env.codec) && Inv(env, w) && w.process.Up?
    requires Distinct(ids) && Members(ids) <= w.pending.Keys
    ensures var w' := Run(env, w, StartAll(ids));
      && Inv(env, w') && w'.db == w.db && w'.process.Up? && w'.expiring == w.expiring && w'.stuck == w.stuck
      && w'.pending == w.pending - Members(ids)
      && JobsFrom(w.jobs, w'.jobs, Members(ids))
  {
    hide Inv, Apply, Admissible;
    if ids != [] {
      var n := |ids| - 1;
      assert StartAll(ids)[..n] == StartAll(ids[..n]) && StartAll(ids)[n] == StartJob(ids[n]);
      StartAllDrains(env, w, ids[..n]);
      var before := Run(env, w, StartAll(ids[..n]));
      assert Members(ids) == Members(ids[..n]) + {ids[n]};
      assert ids[n] in Members(ids) && ids[n] !in ids[..n];
      StartOne(env, before, ids[n]);
      StartKeepsInv(env, before, ids[n]);
      assert w.pending - Members(ids[..n]) - {ids[n]} == w.pending - Members(ids);
    } else {
      assert w.pending - Members(ids) == w.pending;
    }
  }

  lemma StartKeepsInv(env: Env, w: World, id: string)
    requires CollisionFree(env.codec) && Inv(env, w)
    ensures Inv(env, Apply(env, w, StartJob(id)))
  {
    hide Inv, Apply;
    ApplyKeepsInv(env, w, StartJob(id));
  }

  function CrashAndRecover(env: Env, w: World): World { Apply(env, Apply(env, w, Crash), Recover) }

  /** A crash and a recovery leave the tables alone and put every row of the scheduler up
      for scheduling, whatever the process was doing. */
  lemma Recovered(env: Env, w: World)
    requires CollisionFree(env.codec) && Inv(env, w)
    ensures var w' := CrashAndRecover(env, w);
      && Inv(env, w') && w'.db == w.db && w'.process.Up?
      && w'.jobs == map[] && w'.expiring == {} && w'.stuck == {} && w'.pending == SchedulerRows(w.db)
  {
    hide DbInv, IdsUsed, AllMatch, Live, OneEach;
    ApplyKeepsInv(env, w, Crash);
    ApplyKeepsInv(env, Apply(env, w, Crash), Recover);
  }

  /** After a crash at any moment of any run, recovery brings back exactly one job per
      schedulable row and no other: those lost with the process, those whose row was
      committed but not yet scheduled, those whose expiry failed, and none of the deleted. */
  lemma RecoveryRestoresJobs(env: Env, w: World, ids: seq<string>)
    requires CollisionFree(env.codec) && Inv(env, w)
    requires Distinct(ids) && Members(ids) == SchedulerRows(w.db).Keys
    ensures var w' := Run(env, CrashAndRecover(env, w), StartAll(ids));
      && w'.db == w.db && w'.stuck == {} && JobsAreRows(env, w')
      && (forall id :: HasJob(w'.jobs, id) <==> Schedulable(env, w.db.tasks, id))
  {
    hide Inv, Run, Apply, CrashAndRecover, ValidSpec, Schedule, Scheduled;
    var w1 := CrashAndRecover(env, w);
    Recovered(env, w);
    StartAllDrains(env, w1, ids);
    var w' := Run(env, w1, StartAll(ids));
    assert w'.pending == map[];
    QuietJobsAreRows(env, w');
    forall id
      ensures HasJob(w'.jobs, id) ==> id in w.db.tasks
      ensures Schedulable(env, w.db.tasks, id) ==> id in w.db.tasks
    {
      if HasJob(w'.jobs, id) {
        var i :| i in w'.jobs && w'.jobs[i].taskID == id;
        assert id in Members(ids);
      }
      if Schedulable(env, w.db.tasks, id) { SchedulableIsRow(env, w.db.tasks, id); }
    }
  }

  lemma SchedulableIsRow(env: Env, ts: TaskTable, id: string)
    requires Schedulable(env, ts, id)
    ensures id in ts
  {
  }

  /** In particular a scheduled task whose row was committed just before a crash, with no
      job yet, gets its job. */
  lemma CommittedRowIsRecovered(env: Env, w: World, uuid: string, deal: Deal, ids: seq<string>)
    requires CollisionFree(env.codec) && Inv(env, w) && Enabled(w, NewTask(uuid, deal))
    requires HasSchedule(TaskOf(uuid, deal)) && ValidSpec(env, Schedule(TaskOf(uuid, deal)))
    requires var w1 := Apply(env, w, NewTask(uuid, deal));
      Distinct(ids) && Members(ids) == SchedulerRows(w1.db).Keys
    ensures var w1 := Apply(env, w, NewTask(uuid, deal));
      HasJob(Run(env, CrashAndRecover(env, w1), StartAll(ids)).jobs, uuid)
  {
    hide Inv, Run, CrashAndRecover, ValidSpec, Schedule, Members, Distinct, HasJob, SaveTx, HasSchedule;
    var w1 := Apply(env, w, NewTask(uuid, deal));
    ApplyKeepsInv(env, w, NewTask(uuid, deal));
    RecoveryRestoresJobs(env, w1, ids);
    NewRowIsScheduled(env, w, uuid, deal);
  }

  lemma NewRowIsScheduled(env: Env, w: World, uuid: string, deal: Deal)
    requires Inv(env, w) && Enabled(w, NewTask(uuid, deal))
    requires HasSchedule(TaskOf(uuid, deal)) && ValidSpec(env, Schedule(TaskOf(uuid, deal)))
    ensures Schedulable(env, Apply(env, w, NewTask(uuid, deal)).db.tasks, uuid)
  {
    hide DbInv, OneEach, AllMatch, Live, SaveTx, ValidSpec, Schedule;
    SaveAdds(w.db, TaskOf(uuid, deal), TagOf(deal), "");
  }

  // ---------- Rows left without a job ----------

  /** The deletion of the expired task failed, and the process has not crashed since. */
  ghost predicate ExpiryFailed(env: Env, w: World, ops: seq<Op>, id: string) {
    exists i: nat | i < |ops| :: FailedAt(env, w, ops, id, i) && forall k | i < k < |ops| :: !ops[k].Crash?
  }

  predicate FailedAt(env: Env, w: World, ops: seq<Op>, id: string, i: nat)
    requires i < |ops|
  {
    ops[i] == ExpireFails(id) && Enabled(Run(env, w, ops[..i]), ops[i])
  }

  lemma StuckStep(env: Env, w: World, op: Op, id: string)
    requires Inv(env, w)
    ensures id in Apply(env, w, op).stuck <==>
      (op == ExpireFails(id) && Enabled(w, op)) || (id in w.stuck && !op.Crash?)
  {
    hide Inv, Enabled, JobStep, ClientStep;
    if Enabled(w, op) {
      if JobOp(op) { StuckByJobs(env, w, op, id); } else { ClientKeepsJobs(env, w, op); }
    } else if op.Crash? {
      DownIsBare(env, w);
    }
  }

  lemma StuckByJobs(env: Env, w: World, op: Op, id: string)
    requires JobOp(op) && Enabled(w, op)
    ensures id in JobStep(env, w, op).stuck <==> op == ExpireFails(id) || (id in w.stuck && !op.Crash?)
  {
    hide SaveTx, Children, SchedulerRows, Schedule, HasSchedule, ValidSpec, NewJob;
  }

  lemma DownIsBare(env: Env, w: World)
    requires Inv(env, w) && !Enabled(w, Crash)
    ensures w.stuck == {}
  {
    hide DbInv;
  }

  lemma {:induction false} StuckIffExpiryFailed(env: Env, w: World, ops: seq<Op>, id: string)
    requires CollisionFree(env.codec) && Inv(env, w) && w.stuck == {} && forall op | op in ops :: Admissible(op)
    ensures Inv(env, Run(env, w, ops))
    ensures id in Run(env, w, ops).stuck <==> ExpiryFailed(env, w, ops, id)
  {
    hide Inv, Apply, Admissible, Enabled;
    if ops != [] {
      var n := |ops| - 1;
      var before := Run(env, w, ops[..n]);
      StuckIffExpiryFailed(env, w, ops[..n], id);
      ApplyKeepsInv(env, before, ops[n]);
      StuckStep(env, before, ops[n], id);
      if ExpiryFailed(env, w, ops[..n], id) && !ops[n].Crash? {
        var i: nat :| i < n && FailedAt(env, w, ops[..n], id, i) && forall k | i < k < n :: !ops[..n][k].Crash?;
        assert ops[..n][..i] == ops[..i] && ops[..n][i] == ops[i];
        assert FailedAt(env, w, ops, id, i);
        assert forall k | i < k < n :: ops[..n][k] == ops[k];
      }
      if ops[n] == ExpireFails(id) && Enabled(before, ops[n]) { assert FailedAt(env, w, ops, id, n); }
      if ExpiryFailed(env, w, ops, id) {
        var i: nat :| i < |ops| && FailedAt(env, w, ops, id, i) && forall k | i < k < |ops| :: !ops[k].Crash?;
        if i < n {
          assert ops[..n][..i] == ops[..i] && ops[..n][i] == ops[i];
          assert FailedAt(env, w, ops[..n], id, i);
          assert forall k | i < k < n :: ops[..n][k] == ops[k];
        }
      }
    }
  }

  /** Which rows have a job: after any run from the empty store, with nothing about to be
      scheduled or expired, exactly the schedulable ones whose expiry has not failed since the
      last crash. */
  lemma WhichRowsHaveJobs(env: Env, ops: seq<Op>, id: string)
    requires CollisionFree(env.codec) && forall op | op in ops :: Admissible(op)
    requires var w := Run(env, START, ops);
      w.process.Up? && w.pending == map[] && w.expiring == {} && id in w.db.tasks
    ensures var w := Run(env, START, ops);
      HasJob(w.jobs, id) <==> Schedulable(env, w.db.tasks, id) && !ExpiryFailed(env, START, ops, id)
  {
    hide Inv, Run, HasJob, Schedulable, ExpiryFailed, Admissible;
    StartInv(env);
    StuckIffExpiryFailed(env, START, ops, id);
    QuietJobsAreRows(env, Run(env, START, ops));
  }

  // ---------- Jobs whose row was deleted ----------

  /** The row of a known task is gone. */
  predicate Deleted(w: World, id: string) { id in w.used && id !in w.db.tasks }

  /** A job of the task has read the row and is not yet done. */
  predicate UnderWay(w: World, id: string) {
    exists i | i in w.jobs :: w.jobs[i].taskID == id && !w.jobs[i].phase.Idle?
  }

  /** The next run of a job whose row is gone removes the job and does nothing else. */
  lemma GoneJobRemovesItself(env: Env, w: World, j: nat)
    requires Inv(env, w) && w.process.Up? && j in w.jobs && w.jobs[j].phase.Idle?
    requires Deleted(w, w.jobs[j].taskID)
    ensures var w' := Apply(env, w, Load(j));
      w' == w.(jobs := w.jobs - {j}) && !HasJob(w'.jobs, w.jobs[j].taskID)
  {
    hide DbInv, AllMatch, Live, IdsUsed;
  }

  /** A job is under way only if it was, or if its row was there to be read. */
  lemma WhoIsUnderWay(env: Env, w: World, op: Op, i: nat)
    requires i in Apply(env, w, op).jobs && !Apply(env, w, op).jobs[i].phase.Idle?
    ensures i in w.jobs && w.jobs[i].taskID == Apply(env, w, op).jobs[i].taskID
    ensures !w.jobs[i].phase.Idle? || w.jobs[i].taskID in w.db.tasks
  {
    hide Enabled, JobStep, ClientStep;
    if Enabled(w, op) {
      if JobOp(op) { WhichJobRuns(env, w, op, i); } else { ClientKeepsJobs(env, w, op); }
    }
  }

  lemma WhichJobRuns(env: Env, w: World, op: Op, i: nat)
    requires JobOp(op) && Enabled(w, op)
    requires i in JobStep(env, w, op).jobs && !JobStep(env, w, op).jobs[i].phase.Idle?
    ensures i in w.jobs && w.jobs[i].taskID == JobStep(env, w, op).jobs[i].taskID
    ensures !w.jobs[i].phase.Idle? || w.jobs[i].taskID in w.db.tasks
  {
    hide SaveTx, Children, SchedulerRows, Schedule, HasSchedule, ValidSpec;
  }

  /** The operation adds a child of the task. */
  predicate Spawns(env: Env, w: World, op: Op, id: string) {
    var ts := Apply(env, w, op).db.tasks;
    exists t | t in ts :: t !in w.db.tasks && ts[t].parent == Some(id)
  }

  /** The job that adds a child is the one that was under way, and is then done. */
  lemma SpawnEndsTheRun(env: Env, w: World, op: Op, id: string)
    requires Inv(env, w) && Spawns(env, w, op, id)
    ensures op.Create? && op.j in w.jobs && w.jobs[op.j].phase.Clear? && w.jobs[op.j].taskID == id && w.process.Up?
    ensures op.j in Apply(env, w, op).jobs ==> Apply(env, w, op).jobs[op.j].phase.Idle?
  {
    hide Inv, Apply;
    var ts := Apply(env, w, op).db.tasks;
    var t :| t in ts && t !in w.db.tasks && ts[t].parent == Some(id);
    NewRows(env, w, op, t);
    CreateFinishes(env, w, op, t);
  }

  lemma CreateFinishes(env: Env, w: World, op: Op, t: string)
    requires op.Create? && t in Apply(env, w, op).db.tasks && t !in w.db.tasks
    ensures w.process.Up?
    ensures op.j in Apply(env, w, op).jobs ==> Apply(env, w, op).jobs[op.j].phase.Idle?
  {
    hide SaveTx;
  }

  lemma DeletedStep(env: Env, w: World, op: Op, id: string)
    requires Inv(env, w) && Deleted(w, id)
    ensures Deleted(Apply(env, w, op), id)
    ensures UnderWay(Apply(env, w, op), id) ==> UnderWay(w, id)
    ensures Spawns(env, w, op, id) ==> UnderWay(w, id) && !UnderWay(Apply(env, w, op), id)
  {
    hide Inv, Apply, Spawns;
    var w' := Apply(env, w, op);
    UsedGrows(env, w, op);
    if id in w'.db.tasks { NewRows(env, w, op, id); }
    if Spawns(env, w, op, id) { SpawnEndsTheRun(env, w, op, id); }
    forall i | i in w'.jobs && w'.jobs[i].taskID == id && !w'.jobs[i].phase.Idle?
      ensures i in w.jobs && w.jobs[i].taskID == id && !w.jobs[i].phase.Idle? && !Spawns(env, w, op, id)
    {
      WhoIsUnderWay(env, w, op, i);
      if Spawns(env, w, op, id) && i != op.j { ChildRuns.JobsAreDistinct(env, w, i, op.j); }
    }
  }

  /** How many children of the task appear along a run. */
  function Births(env: Env, w: World, ops: seq<Op>, id: string): nat {
    if ops == [] then 0
    else
      var before, op := ops[..|ops| - 1], ops[|ops| - 1];
      Births(env, w, before, id) + if Spawns(env, Run(env, w, before), op, id) then 1 else 0
  }

  /** A deleted scheduled task never comes back. At most one more child of it ever appears,
      in any run, and none if no job of it was under way. */
  lemma {:induction false} GoneForGood(env: Env, w: World, ops: seq<Op>, id: string)
    requires CollisionFree(env.codec) && Inv(env, w) && Deleted(w, id)
    requires forall op | op in ops :: Admissible(op)
    ensures Inv(env, Run(env, w, ops)) && Deleted(Run(env, w, ops), id)
    ensures Births(env, w, ops, id) + (if UnderWay(Run(env, w, ops), id) then 1 else 0) <=
      if UnderWay(w, id) then 1 else 0
  {
    hide Inv, Apply, Deleted, UnderWay, Spawns, Admissible;
    if ops != [] {
      var n := |ops| - 1;
      var before := Run(env, w, ops[..n]);
      GoneForGood(env, w, ops[..n], id);
      ApplyKeepsInv(env, before, ops[n]);
      DeletedStep(env, before, ops[n], id);
    }
  }

  // ---------- ... and that one more child can appear ----------

  lemma {:induction false} Longest(ids: set<string>) returns (n: nat)
    ensures forall id | id in ids :: |id| <= n
    decreases ids
  {
    if ids == {} {
      n := 0;
    } else {
      var one :| one in ids;
      var m := Longest(ids - {one});
      n := if |one| <= m then m else |one|;
    }
  }

  lemma FreshId(ids: set<string>) returns (id: string)
    ensures id !in ids
  {
    var n := Longest(ids);
    id := seq(n + 1, _ => 'x');
  }

  /** From Clear on, the next step of the job adds the child, row or no row. */
  lemma ClearSpawns(env: Env, w: World, j: nat, uuid: string)
    requires Inv(env, w) && w.process.Up? && j in w.jobs && w.jobs[j].phase.Clear?
    requires uuid !in w.used && w.jobs[j].taskID != ""
    ensures Spawns(env, w, Create(j, uuid), w.jobs[j].taskID)
  {
    hide Inv, Apply;
    ChildRuns.CreateOpensChild(env, w, Create(j, uuid));
  }

  lemma BirthsOfTwo(env: Env, w: World, a: Op, b: Op, id: string)
    requires Spawns(env, Apply(env, w, a), b, id)
    ensures Births(env, w, [a, b], id) >= 1
  {
    hide Apply, Spawns;
    assert [a, b][..1] == [a];
    RunOne(env, w, a);
  }

  /** A further child can appear exactly when a job of the deleted task is under way. */
  lemma OneMoreChildIffUnderWay(env: Env, w: World, id: string)
    requires CollisionFree(env.codec) && Inv(env, w) && Deleted(w, id) && id != ""
    ensures UnderWay(w, id) <==>
      exists ops :: (forall op | op in ops :: Admissible(op)) && Births(env, w, ops, id) == 1
  {
    hide Inv, Apply, Enabled, Births, Spawns, Run, Deleted;
    if UnderWay(w, id) {
      var j :| j in w.jobs && w.jobs[j].taskID == id && !w.jobs[j].phase.Idle?;
      var ops := LateChild(env, w, id, j);
      GoneForGood(env, w, ops, id);
    }
    if ops :| (forall op | op in ops :: Admissible(op)) && Births(env, w, ops, id) == 1 {
      GoneForGood(env, w, ops, id);
    }
  }

  lemma LateChild(env: Env, w: World, id: string, j: nat) returns (ops: seq<Op>)
    requires CollisionFree(env.codec) && Inv(env, w) && id != ""
    requires j in w.jobs && w.jobs[j].taskID == id && !w.jobs[j].phase.Idle?
    ensures (forall op | op in ops :: Admissible(op)) && Births(env, w, ops, id) >= 1
  {
    hide Inv, Apply, Births, Spawns, Run;
    JobsMeanUp(env, w, j);
    var uuid := FreshId(w.used);
    if w.jobs[j].phase.Loaded? {
      ChildRuns.CountFailsClears(env, w, j);
      ApplyKeepsInv(env, w, CountFails(j));
      ClearSpawns(env, Apply(env, w, CountFails(j)), j, uuid);
      BirthsOfTwo(env, w, CountFails(j), Create(j, uuid), id);
      ops := [CountFails(j), Create(j, uuid)];
    } else {
      TickZero(env, w);
      ClearSpawns(env, w, j, uuid);
      BirthsOfTwo(env, w, Tick(0), Create(j, uuid), id);
      ops := [Tick(0), Create(j, uuid)];
    }
  }

  lemma JobsMeanUp(env: Env, w: World, j: nat)
    requires Inv(env, w) && j in w.jobs
    ensures w.process.Up?
  {
    hide DbInv;
  }

  lemma TickZero(env: Env, w: World)
    ensures Apply(env, w, Tick(0)) == w
  {
  }
}
