/** No record is lost over whole runs: what becomes of a finished task's row, its block and
    the chain of updates, whatever else the controller does, crashes included. */
module RecordRuns {
  import opened Wrappers
  import opened Tasks
  import opened Store
  import opened TaskStore
  import opened Controller
  import opened RecordChain
  import Runs

  // ---------- One step ----------

  /** A record row keeps its cid, its worker and its place; its status only moves forward. */
  predicate RowAdvances(r: RecordRow, r': RecordRow) {
    && r' == r.(status := r'.status)
    && (|| r'.status == r.status
        || (r.status == Unattached && r'.status == Attached)
        || (r.status == Latest && r'.status == Previous))
  }

  predicate RecordsAdvance(records: seq<RecordRow>, records': seq<RecordRow>) {
    |records| <= |records'| && forall i | 0 <= i < |records| :: RowAdvances(records[i], records'[i])
  }

  /** Blocks are only added, rows only advance, and the chain of updates only grows at its head. */
  predicate RecordStep(db: Tables, db': Tables) {
    && Extends(db.blocks, db'.blocks)
    && RecordsAdvance(db.records, db'.records)
    && UpdateLog(db.records) <= UpdateLog(db'.records)
  }

  predicate SameRecords(db: Tables, db': Tables) { db'.records == db.records && db'.blocks == db.blocks }

  lemma SameIsStep(db: Tables, db': Tables)
    requires SameRecords(db, db')
    ensures RecordStep(db, db')
  {
  }

  lemma NoStep(db: Tables)
    ensures RecordStep(db, db)
  {
  }

  lemma PublishIsStep(c: Codec, w: World, worker: string)
    requires CollisionFree(c) && RecordInv(c, w.db.blocks, w.db.records, w.db.clock)
    ensures RecordStep(w.db, PublishStep(c, w, worker).db)
  {
    hide RecordInv, UpdateLog, PublishTx, CidsWhere;
    PublishKeepsInv(c, w.db, worker);
    PublishRows(c, w.db, worker);
    var lnks := Members(CidsWhere(w.db.records, Unattached, worker));
    forall i | 0 <= i < |w.db.records|
      ensures RowAdvances(w.db.records[i], Relabelled(w.db.records[i], lnks))
    {
      RelabelledRows(c, w.db, worker, w.db.records[i]);
    }
  }

  lemma UpdateIsStep(c: Codec, w: World, id: string, req: UpdateTask)
    requires CollisionFree(c) && RecordInv(c, w.db.blocks, w.db.records, w.db.clock)
    ensures RecordStep(w.db, UpdateStep(c, w, id, req).db)
  {
    hide RecordInv, UpdateLog, UpdateTx, Log;
    if UpdateTx(c, w.db, id, req).Ok? {
      UpdateParts(c, w.db, id, req);
      var u := UpdateTx(c, w.db, id, req).value.task;
      LogRecords(c, StoreUpdate(w.db, id, u, Reported(w.db.tasks[id].data, req)), u, req.workedBy);
    }
  }

  lemma ArchiveIsStep(c: Codec, w: World, stages: seq<StageDetails>)
    requires CollisionFree(c) && RecordInv(c, w.db.blocks, w.db.records, w.db.clock)
    ensures RecordStep(w.db, ArchiveStep(c, w, stages).db)
  {
  }

  lemma {:induction false} ResetSameRecords(db: Tables, ids: seq<string>)
    ensures SameRecords(db, ResetAll(db, ids))
  {
    if ids != [] { ResetSameRecords(db, ids[..|ids| - 1]); }
  }

  predicate TouchesRecords(op: Op) { op.Publish? || op.UpdateOp? || op.ArchiveStages? }

  lemma JobsSameRecords(env: Env, w: World, op: Op)
    requires JobOp(op) && Enabled(w, op)
    ensures SameRecords(w.db, JobStep(env, w, op).db)
  {
    hide Children, Schedule, HasSchedule, ValidSpec, NewJob, SchedulerRows;
  }

  lemma ClientsSameRecords(env: Env, w: World, op: Op)
    requires !TouchesRecords(op) && !JobOp(op) && Enabled(w, op)
    ensures SameRecords(w.db, ClientStep(env, w, op).db)
  {
    hide NewTaskStep, FollowUpStep, ResetAll, HasSchedule, OldestAvailable, WorkerTasks;
    match op
    case NewTask(uuid, deal) => Runs.SaveKeepsRest(w, TaskOf(uuid, deal), TagOf(deal));
    case SaveFollowUp(uuid, rt) => Runs.FollowUpKeepsRest(w, uuid, rt);
    case ResetWorker(_, ids) => ResetSameRecords(w.db, ids);
    case _ =>
  }

  lemma ClientIsRecordStep(env: Env, w: World, op: Op)
    requires CollisionFree(env.codec) && RecordInv(env.codec, w.db.blocks, w.db.records, w.db.clock)
    requires TouchesRecords(op) && Enabled(w, op)
    ensures RecordStep(w.db, ClientStep(env, w, op).db)
  {
    hide RecordInv, PublishStep, UpdateStep, ArchiveStep, RecordStep;
    match op
    case Publish(worker) => PublishIsStep(env.codec, w, worker);
    case UpdateOp(id, req) => UpdateIsStep(env.codec, w, id, req);
    case ArchiveStages(stages) => ArchiveIsStep(env.codec, w, stages);
  }

  lemma ApplyIsRecordStep(env: Env, w: World, op: Op)
    requires CollisionFree(env.codec) && RecordInv(env.codec, w.db.blocks, w.db.records, w.db.clock)
    ensures RecordStep(w.db, Apply(env, w, op).db)
  {
    hide RecordInv, Enabled, JobStep, ClientStep, SameRecords, RecordStep;
    if !Enabled(w, op) {
      NoStep(w.db);
    } else if JobOp(op) {
      JobsSameRecords(env, w, op);
      SameIsStep(w.db, JobStep(env, w, op).db);
    } else if TouchesRecords(op) {
      ClientIsRecordStep(env, w, op);
    } else {
      ClientsSameRecords(env, w, op);
      SameIsStep(w.db, ClientStep(env, w, op).db);
    }
  }

  // ---------- Whole runs ----------

  lemma StepsCompose(a: Tables, b: Tables, c: Tables)
    requires RecordStep(a, b) && RecordStep(b, c)
    ensures RecordStep(a, c)
  {
  }

  lemma InvParts(env: Env, w: World)
    requires Inv(env, w)
    ensures RecordInv(env.codec, w.db.blocks, w.db.records, w.db.clock)
  {
  }

  /** Over any run: no block changes or disappears, every record row stays and only moves
      forward, and the chain published earlier is the tail of the chain published later. */
  lemma {:induction false} RecordsOverRuns(env: Env, w: World, ops: seq<Op>)
    requires CollisionFree(env.codec) && Inv(env, w)
    requires forall op | op in ops :: Admissible(op)
    ensures Inv(env, Run(env, w, ops))
    ensures RecordStep(w.db, Run(env, w, ops).db)
  {
    hide Inv, Apply, RecordStep, Admissible;
    NoStep(w.db);
    if ops != [] {
      var n := |ops| - 1;
      var before := Run(env, w, ops[..n]);
      RecordsOverRuns(env, w, ops[..n]);
      ApplyKeepsInv(env, before, ops[n]);
      InvParts(env, before);
      ApplyIsRecordStep(env, before, ops[n]);
      StepsCompose(w.db, before.db, Run(env, w, ops).db);
    }
  }

  /** Some update on the chain that starts at the current head holds the record. */
  ghost predicate OnHeadChain(blocks: Blocks, records: seq<RecordRow>, record: Cid) {
    exists k: nat, u: Cid :: Walk(blocks, NullIfEmpty(Head(records)), k) == Some(u) && InUpdate(blocks, u, record)
  }

  /** A published record is found by walking back from the head, unless it was filtered. */
  lemma AttachedIsReachable(c: Codec, db: Tables, r: RecordRow)
    requires CollisionFree(c) && RecordInv(c, db.blocks, db.records, db.clock)
    requires r in db.records && r.status == Attached
    ensures SkippedCid(db.blocks, r.cid) || OnHeadChain(db.blocks, db.records, r.cid)
  {
    hide Head, Walk, InUpdate, SkippedCid, UpdateLog, IsChain, Closed, CreatedInOrder, LatestIsLast, RowsResolve;
    var log := UpdateLog(db.records);
    assert Published(db.blocks, log, r.cid);
    if u :| u in log && InUpdate(db.blocks, u, r.cid) {
      var i: nat :| i < |log| && log[i] == u;
      HeadWalkReaches(c, db, i);
      assert Walk(db.blocks, NullIfEmpty(Head(db.records)), |log| - 1 - i) == Some(u);
    }
  }

  lemma HeadWalkReaches(c: Codec, db: Tables, i: nat)
    requires CollisionFree(c) && RecordInv(c, db.blocks, db.records, db.clock) && i < |UpdateLog(db.records)|
    ensures var log := UpdateLog(db.records);
      Walk(db.blocks, NullIfEmpty(Head(db.records)), |log| - 1 - i) == Some(log[i])
  {
    HeadWalk(c, db.blocks, db.records, db.clock, |UpdateLog(db.records)| - 1 - i);
  }

  /** Row n is the record of f: named after its block, which is stored, and either still to
      be published, or reachable from the head, or one of the filtered ones. */
  ghost predicate Kept(c: Codec, db: Tables, n: nat, f: FinishedTask, worker: string) {
    && n < |db.records|
    && db.records[n].cid == c.cid(Finished(f)) && db.records[n].workedBy == worker
    && db.records[n].cid in db.blocks && db.blocks[db.records[n].cid] == Finished(f)
    && (|| db.records[n].status == Unattached
        || (db.records[n].status == Attached && (Skipped(f) || OnHeadChain(db.blocks, db.records, db.records[n].cid))))
  }

  lemma RowIsKept(c: Codec, db: Tables, n: nat, f: FinishedTask, worker: string)
    requires CollisionFree(c) && RecordInv(c, db.blocks, db.records, db.clock)
    requires n < |db.records| && db.records[n].status in {Unattached, Attached}
    requires db.records[n].cid == c.cid(Finished(f)) && db.records[n].workedBy == worker
    requires db.records[n].cid in db.blocks && db.blocks[db.records[n].cid] == Finished(f)
    ensures Kept(c, db, n, f, worker)
  {
    hide OnHeadChain, RecordInv, Skipped;
    if db.records[n].status == Attached {
      AttachedIsReachable(c, db, db.records[n]);
    }
  }

  /** The update that finishes a task adds its record. */
  lemma FinishAddsRecord(env: Env, w: World, id: string, req: UpdateTask)
    requires CollisionFree(env.codec) && Inv(env, w) && w.process.Up?
    requires UpdateTx(env.codec, w.db, id, req).Ok? && IsFinished(UpdateTx(env.codec, w.db, id, req).value.task)
    ensures var u, db := UpdateTx(env.codec, w.db, id, req).value.task, Apply(env, w, UpdateOp(id, req)).db;
      var f := Finished(Finalized(env.codec, u));
      && db.records == w.db.records + [RecordRow(env.codec.cid(f), db.clock, req.workedBy, Unattached)]
      && env.codec.cid(f) in db.blocks && db.blocks[env.codec.cid(f)] == f
  {
    hide JobStep, UpdateTx, Log, Inv, RecordInv, Finalized;
    UpdateParts(env.codec, w.db, id, req);
    InvParts(env, w);
    var u := UpdateTx(env.codec, w.db, id, req).value.task;
    LogRecords(env.codec, StoreUpdate(w.db, id, u, Reported(w.db.tasks[id].data, req)), u, req.workedBy);
  }

  lemma StepKeepsRow(db: Tables, db': Tables, n: nat, cid: Cid, b: Block)
    requires RecordStep(db, db') && n < |db.records| && cid in db.blocks && db.blocks[cid] == b
    ensures n < |db'.records| && RowAdvances(db.records[n], db'.records[n])
    ensures cid in db'.blocks && db'.blocks[cid] == b
  {
  }

  /** No finished record is lost: after the update that finishes a task, whatever happens
      next, its record is waiting to be published or is reachable from the published head,
      unless its error message is one of the filtered ones. */
  lemma FinishedIsNeverLost(env: Env, w: World, id: string, req: UpdateTask, ops: seq<Op>)
    requires CollisionFree(env.codec) && Inv(env, w) && w.process.Up?
    requires UpdateTx(env.codec, w.db, id, req).Ok? && IsFinished(UpdateTx(env.codec, w.db, id, req).value.task)
    requires forall op | op in ops :: Admissible(op)
    ensures var f := Finalized(env.codec, UpdateTx(env.codec, w.db, id, req).value.task);
      Kept(env.codec, Run(env, Apply(env, w, UpdateOp(id, req)), ops).db, |w.db.records|, f, req.workedBy)
  {
    hide Inv, Apply, RecordStep, RecordInv, UpdateTx, Kept, Finalized;
    var f := Finalized(env.codec, UpdateTx(env.codec, w.db, id, req).value.task);
    var w1 := Apply(env, w, UpdateOp(id, req));
    var w2 := Run(env, w1, ops);
    FinishAddsRecord(env, w, id, req);
    ApplyKeepsInv(env, w, UpdateOp(id, req));
    RecordsOverRuns(env, w1, ops);
    StepKeepsRow(w1.db, w2.db, |w.db.records|, env.codec.cid(Finished(f)), Finished(f));
    InvParts(env, w2);
    RowIsKept(env.codec, w2.db, |w.db.records|, f, req.workedBy);
  }

  /** Publishing for a worker settles every record of that worker for good: from then on it
      is attached, and found from the head unless it was filtered. */
  lemma PublishedForGood(env: Env, w: World, worker: string, n: nat, f: FinishedTask, ops: seq<Op>)
    requires CollisionFree(env.codec) && Inv(env, w) && w.process.Up?
    requires Kept(env.codec, w.db, n, f, worker)
    requires forall op | op in ops :: Admissible(op)
    ensures var db := Run(env, Apply(env, w, Publish(worker)), ops).db;
      Kept(env.codec, db, n, f, worker) && db.records[n].status == Attached
  {
    hide Inv, Apply, RecordStep, RecordInv, OnHeadChain, Skipped;
    var w1 := Apply(env, w, Publish(worker));
    var w2 := Run(env, w1, ops);
    ApplyKeepsInv(env, w, Publish(worker));
    InvParts(env, w);
    PublishAttaches(env, w, worker, n);
    PublishApplied(env, w, worker);
    ApplyIsRecordStep(env, w, Publish(worker));
    StepKeepsRow(w.db, w1.db, n, w.db.records[n].cid, Finished(f));
    RecordsOverRuns(env, w1, ops);
    StepKeepsRow(w1.db, w2.db, n, w.db.records[n].cid, Finished(f));
    InvParts(env, w2);
    RowIsKept(env.codec, w2.db, n, f, worker);
  }

  lemma PublishAttaches(env: Env, w: World, worker: string, n: nat)
    requires CollisionFree(env.codec) && Inv(env, w)
    requires n < |w.db.records| && w.db.records[n].workedBy == worker
    requires w.db.records[n].status in {Unattached, Attached}
    ensures var records := PublishStep(env.codec, w, worker).db.records;
      n < |records| && records[n].status == Attached
  {
    hide Inv, PublishTx, RecordInv;
    InvParts(env, w);
    PublishRows(env.codec, w.db, worker);
    CidsWhereMember(w.db.records, Unattached, worker);
    var r := w.db.records[n];
    if r.status == Unattached { assert r == RecordRow(r.cid, r.created, worker, Unattached); }
  }

  lemma PublishApplied(env: Env, w: World, worker: string)
    requires w.process.Up?
    ensures Apply(env, w, Publish(worker)) == PublishStep(env.codec, w, worker)
  {
    hide PublishStep, JobStep;
  }

  // ---------- One chain ----------

  /** The cids of the update rows form one chain, and walking back from the head visits each
      exactly once, newest first, to the first update, which has no previous one. */
  ghost predicate OneChain(c: Codec, db: Tables, log: seq<Cid>) {
    && (forall u :: u in log <==> exists r | r in db.records :: IsUpdate(r) && r.cid == u)
    && (forall i, j | 0 <= i < j < |log| :: log[i] != log[j])
    && (forall k: nat ::
         Walk(db.blocks, NullIfEmpty(Head(db.records)), k) == if k < |log| then Some(log[|log| - 1 - k]) else None)
    && (forall i: nat | i < |log| :: LinkedAt(c, db.blocks, log, i))
    && (forall r | r in db.records :: r.status == Latest <==> log != [] && IsUpdate(r) && r.cid == log[|log| - 1])
  }

  lemma OneChainAlways(env: Env, ops: seq<Op>)
    requires CollisionFree(env.codec) && forall op | op in ops :: Admissible(op)
    ensures var db := Run(env, START, ops).db; OneChain(env.codec, db, UpdateLog(db.records))
  {
    hide Run, Inv, Walk, Head, LinkedAt, UpdateLog, RecordInv, OneChain;
    ReachableInv(env, ops);
    InvParts(env, Run(env, START, ops));
    InvIsOneChain(env.codec, Run(env, START, ops).db);
  }

  lemma InvIsOneChain(c: Codec, db: Tables)
    requires CollisionFree(c) && RecordInv(c, db.blocks, db.records, db.clock)
    ensures OneChain(c, db, UpdateLog(db.records))
  {
    hide Walk, Head, LinkedAt, UpdateLog, Published, Closed, RowsResolve, CreatedInOrder;
    var log := UpdateLog(db.records);
    LogMembers(db.records);
    forall i, j | 0 <= i < j < |log|
      ensures log[i] != log[j]
    {
      ChainDistinct(c, db.blocks, log, i, j);
    }
    forall k: nat
      ensures Walk(db.blocks, NullIfEmpty(Head(db.records)), k) == if k < |log| then Some(log[|log| - 1 - k]) else None
    {
      HeadWalk(c, db.blocks, db.records, db.clock, k);
    }
  }
}
