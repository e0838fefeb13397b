/** The retrieval that a successful storage deal asks for is saved in a transaction of its
    own, after the update that asked for it. What becomes of each one over whole runs. */
module FollowUps {
  import opened Wrappers
  import opened Tasks
  import opened Store
  import opened TaskStore
  import opened Controller
  import opened Runs
  import opened Writes
  import FinalLogs
  import RecordChain
  import Text

  type Retrievals = multiset<RetrievalTask>

  // ---------- One operation ----------

  function Asked(env: Env, w: World, op: Op): Retrievals {
    if op.UpdateOp? && Commits(env, w, op, op.id) then
      var f := UpdateTx(env.codec, w.db, op.id, op.req).value.followUp;
      if f.Some? then multiset{f.value} else multiset{}
    else multiset{}
  }

  function Saved(w: World, op: Op): Retrievals {
    if op.SaveFollowUp? && Enabled(w, op) then multiset{op.retrieval} else multiset{}
  }

  /** Given up because a call before or in its transaction failed, or forgotten in a crash. */
  function Lost(w: World, op: Op): Retrievals {
    if op.FollowUpFails? && Enabled(w, op) then multiset{op.retrieval}
    else if op.Crash? && Enabled(w, op) then w.owed
    else multiset{}
  }

  /** An update that commits asks for a retrieval exactly when it reports the success of a
      storage deal that has a retrieval schedule. */
  lemma WhoAsks(env: Env, w: World, op: Op)
    requires op.UpdateOp? && Commits(env, w, op, op.id)
    ensures op.id in w.db.tasks
    ensures var st := w.db.tasks[op.id].data.storage;
      Asked(env, w, op) != multiset{} <==>
      op.req.status == SUCCESSFUL && st.Some? && st.value.retrievalSchedule.Some?
  {
    hide Enabled, FinalLogs.Extract;
  }

  /** The retrieval is of the deal's miner, for the payload that the archived log names first,
      on the deal's retrieval schedule, with its tag and price if it has them. */
  ghost predicate FollowsDeal(st: StorageTask, log: seq<FinalLogs.Entry>, rt: RetrievalTask) {
    && rt.miner == st.miner
    && (exists i: nat :: FinalLogs.FirstLine(log, "PayloadCID:", i)
          && rt.payloadCID == Text.TrimPrefix(log[i].text, "PayloadCID: "))
    && !rt.carExport
    && rt.schedule == st.retrievalSchedule && rt.scheduleLimit == st.retrievalScheduleLimit
    && rt.tag == Some(if st.tag.Some? then st.tag.value else "")
    && rt.maxPrice == Some(if st.retrievalMaxPrice.Some? then st.retrievalMaxPrice.value else 0)
  }

  lemma FollowUpFollows(c: Codec, u: Task)
    requires FollowUp(u, Finalized(c, u)).Ok? && FollowUp(u, Finalized(c, u)).value.Some?
    ensures u.storage.Some?
    ensures FollowsDeal(u.storage.value, FinalLogs.LogOf(u), FollowUp(u, Finalized(c, u)).value.value)
  {
    hide FinalLogs.Extract, FinalLogs.FirstLine, Text.TrimPrefix, FinalLogs.NoLine, FinalLogs.LogOf;
    FinalLogs.PayloadField(u);
  }

  /** Every retrieval asked for follows the deal of the task that was reported, and the log
      that its report left behind. */
  lemma WhatIsAsked(env: Env, w: World, op: Op, rt: RetrievalTask)
    requires op.UpdateOp? && Commits(env, w, op, op.id) && rt in Asked(env, w, op)
    ensures Asked(env, w, op) == multiset{rt}
    ensures op.id in w.db.tasks && w.db.tasks[op.id].data.storage.Some?
    ensures op.id in Apply(env, w, op).db.tasks
    ensures FollowsDeal(w.db.tasks[op.id].data.storage.value,
                        FinalLogs.LogOf(Apply(env, w, op).db.tasks[op.id].data), rt)
  {
    hide Apply, UpdateTx, FollowsDeal, Finalized, FinalLogs.LogOf;
    CommitsUp(env, w, op);
    UpdateApplied(env, w, op.id, op.req);
    UpdateParts(env.codec, w.db, op.id, op.req);
    AskedIsFollowUp(env.codec, w.db, op.id, op.req);
    FollowUpFollows(env.codec, UpdateTx(env.codec, w.db, op.id, op.req).value.task);
  }

  lemma AskedIsFollowUp(c: Codec, db: Tables, id: string, req: UpdateTask)
    requires UpdateTx(c, db, id, req).Ok? && UpdateTx(c, db, id, req).value.followUp.Some?
    ensures var r := UpdateTx(c, db, id, req).value;
      FollowUp(r.task, Finalized(c, r.task)) == Ok(r.followUp)
    ensures id in db.tasks && UpdateTx(c, db, id, req).value.task.storage == db.tasks[id].data.storage
  {
    hide Finalized, FollowUp, Log, StoreUpdate;
  }

  /** What is saved is a new task for exactly that retrieval, a client's like any other. */
  lemma SavedIsTask(env: Env, w: World, op: Op)
    requires Inv(env, w) && op.SaveFollowUp? && Enabled(w, op)
    ensures var w' := Apply(env, w, op);
      CameIn(w.db, w'.db, op.uuid, RetrievalDeal(op.retrieval)) && w'.owed == w.owed - multiset{op.retrieval}
  {
    hide JobStep, DbInv, OneEach, AllMatch, Live, SaveTx, HasSchedule, CameIn, TaskOf;
    SavedCameIn(w.db, op.uuid, RetrievalDeal(op.retrieval));
  }

  // ---------- Conservation ----------

  lemma OwedByJobs(env: Env, w: World, op: Op)
    requires JobOp(op) && Enabled(w, op)
    ensures JobStep(env, w, op).owed == if op.Crash? then multiset{} else w.owed
  {
    hide SaveTx, Children, SchedulerRows, Schedule, HasSchedule, ValidSpec, NewJob;
  }

  lemma NotAsked(env: Env, w: World, op: Op)
    ensures !op.UpdateOp? ==> Asked(env, w, op) == multiset{}
  {
  }

  lemma OwedByUpdate(env: Env, w: World, id: string, req: UpdateTask)
    requires Enabled(w, UpdateOp(id, req))
    ensures ClientStep(env, w, UpdateOp(id, req)).owed == w.owed + Asked(env, w, UpdateOp(id, req))
  {
    hide UpdateTx;
  }

  predicate AboutFollowUps(op: Op) { op.UpdateOp? || op.SaveFollowUp? || op.FollowUpFails? }

  lemma OthersOweTheSame(env: Env, w: World, op: Op)
    requires !JobOp(op) && !AboutFollowUps(op) && Enabled(w, op)
    ensures ClientStep(env, w, op).owed == w.owed
  {
    hide NewTaskStep, PopTx, ResetAll, RecordChain.PublishTx, OldestAvailable, WorkerTasks;
    if op.NewTask? { SaveKeepsRest(w, TaskOf(op.uuid, op.deal), TagOf(op.deal)); }
  }

  lemma OneLess(owed: Retrievals, rt: RetrievalTask)
    requires rt in owed
    ensures owed - multiset{rt} + multiset{rt} == owed
  {
  }

  lemma SavingOwesLess(env: Env, w: World, uuid: string, rt: RetrievalTask)
    requires Enabled(w, SaveFollowUp(uuid, rt))
    ensures ClientStep(env, w, SaveFollowUp(uuid, rt)).owed + Saved(w, SaveFollowUp(uuid, rt)) == w.owed
  {
    hide FollowUpStep;
    FollowUpKeepsRest(w, uuid, rt);
    OneLess(w.owed, rt);
  }

  lemma FailingOwesLess(env: Env, w: World, rt: RetrievalTask)
    requires Enabled(w, FollowUpFails(rt))
    ensures ClientStep(env, w, FollowUpFails(rt)).owed + Lost(w, FollowUpFails(rt)) == w.owed
  {
    OneLess(w.owed, rt);
  }

  lemma FollowUpsOwe(env: Env, w: World, op: Op)
    requires AboutFollowUps(op) && Enabled(w, op)
    ensures ClientStep(env, w, op).owed + Saved(w, op) + Lost(w, op) == w.owed + Asked(env, w, op)
  {
    hide Enabled, ClientStep, Asked;
    NotAsked(env, w, op);
    match op
    case UpdateOp(id, req) => OwedByUpdate(env, w, id, req);
    case SaveFollowUp(uuid, rt) => SavingOwesLess(env, w, uuid, rt);
    case FollowUpFails(rt) => FailingOwesLess(env, w, rt);
  }

  lemma NeitherSavedNorLost(w: World, op: Op)
    requires !AboutFollowUps(op)
    ensures Saved(w, op) == multiset{} && Lost(w, op) == if op.Crash? && Enabled(w, op) then w.owed else multiset{}
  {
  }

  lemma OwedStep(env: Env, w: World, op: Op)
    ensures Apply(env, w, op).owed + Saved(w, op) + Lost(w, op) == w.owed + Asked(env, w, op)
  {
    hide JobStep, ClientStep, UpdateTx, Enabled, Asked, AboutFollowUps, Saved, Lost;
    if !Enabled(w, op) {
      NothingWhenDisabled(env, w, op);
    } else if AboutFollowUps(op) {
      AboutClients(op);
      FollowUpsOwe(env, w, op);
    } else {
      AboutClients(op);
      NeitherSavedNorLost(w, op);
      NotAsked(env, w, op);
      if JobOp(op) { OwedByJobs(env, w, op); } else { OthersOweTheSame(env, w, op); }
    }
  }

  lemma AboutClients(op: Op)
    ensures AboutFollowUps(op) ==> !JobOp(op)
    ensures op.UpdateOp? ==> AboutFollowUps(op)
    ensures op.Crash? ==> JobOp(op)
  {
  }

  lemma NothingWhenDisabled(env: Env, w: World, op: Op)
    requires !Enabled(w, op)
    ensures Saved(w, op) == Lost(w, op) == Asked(env, w, op) == multiset{}
  {
  }

  function AllAsked(env: Env, w: World, ops: seq<Op>): Retrievals {
    if ops == [] then multiset{}
    else AllAsked(env, w, ops[..|ops| - 1]) + Asked(env, Run(env, w, ops[..|ops| - 1]), ops[|ops| - 1])
  }

  function AllSaved(env: Env, w: World, ops: seq<Op>): Retrievals {
    if ops == [] then multiset{}
    else AllSaved(env, w, ops[..|ops| - 1]) + Saved(Run(env, w, ops[..|ops| - 1]), ops[|ops| - 1])
  }

  function AllLost(env: Env, w: World, ops: seq<Op>): Retrievals {
    if ops == [] then multiset{}
    else AllLost(env, w, ops[..|ops| - 1]) + Lost(Run(env, w, ops[..|ops| - 1]), ops[|ops| - 1])
  }

  lemma Regroup(owed: Retrievals, asked: Retrievals, saved: Retrievals, lost: Retrievals, before: Retrievals,
                a: Retrievals, s: Retrievals, l: Retrievals, after: Retrievals)
    requires owed + asked == saved + lost + before && after + s + l == before + a
    ensures owed + (asked + a) == (saved + s) + (lost + l) + after
  {
    forall rt
      ensures (owed + (asked + a))[rt] == ((saved + s) + (lost + l) + after)[rt]
    {
      assert (owed + asked)[rt] == (saved + lost + before)[rt] && (after + s + l)[rt] == (before + a)[rt];
    }
  }

  /** Over any run, each retrieval asked for is saved once, lost once, or still owed: none is
      saved without being asked for, none twice, and none disappears otherwise. */
  lemma {:induction false} EveryFollowUp(env: Env, w: World, ops: seq<Op>)
    ensures w.owed + AllAsked(env, w, ops) == AllSaved(env, w, ops) + AllLost(env, w, ops) + Run(env, w, ops).owed
  {
    hide Apply, Asked, Saved, Lost;
    if ops != [] {
      var n := |ops| - 1;
      var before, after := Run(env, w, ops[..n]), Run(env, w, ops);
      EveryFollowUp(env, w, ops[..n]);
      OwedStep(env, before, ops[n]);
      Regroup(w.owed, AllAsked(env, w, ops[..n]), AllSaved(env, w, ops[..n]), AllLost(env, w, ops[..n]), before.owed,
              Asked(env, before, ops[n]), Saved(before, ops[n]), Lost(before, ops[n]), after.owed);
    }
  }

  // ---------- What is asked for twice ----------

  /** A report repeated changes nothing about a task. */
  lemma UpdatedTwice(t: Task, req: UpdateTask)
    ensures Updated(Updated(t, req), req) == Updated(t, req)
  {
  }

  lemma RepeatedUpdate(c: Codec, db: Tables, id: string, req: UpdateTask)
    requires UpdateTx(c, db, id, req).Ok?
    ensures var again := UpdateTx(c, UpdateTx(c, db, id, req).value.db, id, req);
      again.Ok? && again.value.followUp == UpdateTx(c, db, id, req).value.followUp
  {
    hide Finalized, FollowUp, Log, StoreUpdate;
    UpdateParts(c, db, id, req);
    UpdatedTwice(db.tasks[id].data, req);
  }

  /** Nothing stops a worker from reporting the same success again, and then the same
      retrieval is asked for again. */
  lemma RepeatedSuccessAsksAgain(env: Env, w: World, op: Op)
    requires op.UpdateOp? && Commits(env, w, op, op.id)
    ensures var w' := Apply(env, w, op);
      Commits(env, w', op, op.id) && Asked(env, w', op) == Asked(env, w, op)
  {
    hide Apply, UpdateTx;
    CommitsUp(env, w, op);
    UpdateApplied(env, w, op.id, op.req);
    RepeatedUpdate(env.codec, w.db, op.id, op.req);
  }
}
