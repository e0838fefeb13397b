/** The history of each task in the ledger: it is only added to, in every run. */
module LedgerHistory {
  import opened Wrappers
  import opened Tasks
  import opened Store
  import opened TaskStore
  import opened Controller
  import opened Runs
  import opened Writes
  import RecordChain

  /** Every entry of a task that is still there stays as it is, and new ones are later. */
  predicate HistoryGrows(db: Tables, db': Tables) {
    && db.clock <= db'.clock
    && (forall k | k in db.ledger && k.0 in db'.tasks :: k in db'.ledger && db'.ledger[k] == db.ledger[k])
    && (forall k | k in db'.ledger :: k in db.ledger || db.clock < k.1)
  }

  predicate PastOnly(db: Tables) { forall k | k in db.ledger :: k.1 <= db.clock && k.0 in db.tasks }

  lemma PastLedger(env: Env, w: World)
    requires Inv(env, w)
    ensures PastOnly(w.db)
  {
    hide JobInv, RowsOk;
  }

  /** A deletion takes the entries of its task along and leaves those of the others. */
  lemma DeleteGrows(db: Tables, id: string)
    ensures HistoryGrows(db, DeleteTx(db, id))
  {
  }

  lemma OneEntry(db: Tables, db': Tables, k: (string, int), row: LedgerRow)
    requires PastOnly(db) && db.clock < k.1 <= db'.clock && db'.ledger == db.ledger[k := row]
    ensures HistoryGrows(db, db')
  {
  }

  // ---------- Resets ----------

  /** The entries of a reset: one for each listed task, as available, one after the other. */
  function Entered(ids: seq<string>, clock: int): Ledger {
    if ids == [] then map[]
    else Entered(ids[..|ids| - 1], clock)[(ids[|ids| - 1], clock + |ids|) := LedgerRow(1, "", 0)]
  }

  lemma PlusOne(a: Ledger, b: Ledger, k: (string, int), row: LedgerRow)
    ensures (a + b)[k := row] == a + b[k := row]
  {
  }

  lemma ResetOneEnters(db: Tables, id: string)
    requires id in db.tasks
    ensures var db' := ResetOne(db, id);
      && db'.tasks.Keys == db.tasks.Keys && db'.clock == db.clock + 1
      && db'.ledger == db.ledger[(id, db.clock + 1) := LedgerRow(1, "", 0)]
  {
  }

  lemma {:induction false} ResetEnters(db: Tables, ids: seq<string>)
    requires forall id | id in ids :: id in db.tasks
    ensures var db' := ResetAll(db, ids);
      && db'.tasks.Keys == db.tasks.Keys && db'.clock == db.clock + |ids|
      && db'.ledger == db.ledger + Entered(ids, db.clock)
  {
    hide ResetOne;
    if ids != [] {
      var n := |ids| - 1;
      assert forall id | id in ids[..n] :: id in ids;
      ResetEnters(db, ids[..n]);
      ResetOneEnters(ResetAll(db, ids[..n]), ids[n]);
      PlusOne(db.ledger, Entered(ids[..n], db.clock), (ids[n], db.clock + |ids|), LedgerRow(1, "", 0));
    }
  }

  lemma {:induction false} EnteredKeys(ids: seq<string>, clock: int)
    ensures forall k | k in Entered(ids, clock) :: k.1 > clock && k.0 in ids
  {
    if ids != [] {
      EnteredKeys(ids[..|ids| - 1], clock);
      assert ids == ids[..|ids| - 1] + [ids[|ids| - 1]];
    }
  }

  lemma ResetHistory(env: Env, w: World, op: Op)
    requires Inv(env, w) && op.ResetWorker? && Enabled(w, op)
    ensures var db' := Apply(env, w, op).db;
      db'.ledger == w.db.ledger + Entered(op.ids, w.db.clock) && HistoryGrows(w.db, db')
  {
    hide JobStep, JobInv, RowOk, ResetAll, WorkerTasks, Entered;
    ResetRows(w, op.worker, op.ids);
    ResetEnters(w.db, op.ids);
    EnteredKeys(op.ids, w.db.clock);
    PastLedger(env, w);
  }

  // ---------- The other operations ----------

  lemma UpdateHistory(env: Env, w: World, op: Op)
    requires Inv(env, w) && op.UpdateOp? && Enabled(w, op)
    ensures HistoryGrows(w.db, UpdateStep(env.codec, w, op.id, op.req).db)
  {
    hide Inv, UpdateTx, Moves;
    PastLedger(env, w);
    if UpdateTx(env.codec, w.db, op.id, op.req).Ok? { UpdateWrites(env.codec, w.db, op.id, op.req); }
  }

  lemma FollowUpHistory(env: Env, w: World, uuid: string, rt: RetrievalTask)
    requires Inv(env, w) && w.process.Up? && uuid !in w.used
    ensures HistoryGrows(w.db, FollowUpStep(w, uuid, rt).db)
  {
    hide SaveTx, DbInv, AllMatch, Live, OneEach;
    PastLedger(env, w);
    SaveAdds(w.db, TaskOf(uuid, RetrievalDeal(rt)), TagOf(RetrievalDeal(rt)), "");
  }

  lemma NewTaskHistory(env: Env, w: World, uuid: string, deal: Deal)
    requires Inv(env, w) && w.process.Up? && uuid !in w.used
    ensures HistoryGrows(w.db, NewTaskStep(w, TaskOf(uuid, deal), TagOf(deal)).db)
  {
    hide SaveTx, DbInv, AllMatch, Live, OneEach;
    PastLedger(env, w);
    SaveAdds(w.db, TaskOf(uuid, deal), TagOf(deal), "");
  }

  lemma PublishHistory(c: Codec, w: World, worker: string)
    ensures HistoryGrows(w.db, PublishStep(c, w, worker).db)
  {
    hide Archive, CidsWhere, Restatus, RecordChain.Authenticated, RecordChain.Head;
  }

  lemma ClientHistory(env: Env, w: World, op: Op)
    requires Inv(env, w) && !JobOp(op) && Enabled(w, op)
    ensures HistoryGrows(w.db, Apply(env, w, op).db)
  {
    hide Apply, Inv, NewTaskStep, FollowUpStep, PopStep, UpdateStep, PublishStep, ResetAll, DeleteTx, ArchiveStep;
    PastLedger(env, w);
    if op.ResetWorker? {
      ResetHistory(env, w, op);
    } else if op.Pop? {
      PopWrites(env, w, op);
      var db' := Apply(env, w, op).db;
      OneEntry(w.db, db', (op.id, db'.clock), LedgerRow(op.status, "", 0));
    } else {
      ClientApplied(env, w, op);
      match op
      case NewTask(uuid, deal) => NewTaskHistory(env, w, uuid, deal);
      case SaveFollowUp(uuid, rt) => FollowUpHistory(env, w, uuid, rt);
      case UpdateOp(_, _) => UpdateHistory(env, w, op);
      case Publish(worker) => PublishHistory(env.codec, w, worker);
      case Delete(id) => DeleteGrows(w.db, id);
      case ArchiveStages(stages) => ArchiveHistory(env.codec, w, stages);
      case _ =>
    }
  }

  lemma ClientApplied(env: Env, w: World, op: Op)
    requires !JobOp(op) && Enabled(w, op)
    ensures Apply(env, w, op) == ClientStep(env, w, op)
  {
    hide ClientStep, JobStep;
  }

  lemma ArchiveHistory(c: Codec, w: World, stages: seq<StageDetails>)
    ensures HistoryGrows(w.db, ArchiveStep(c, w, stages).db)
  {
  }

  lemma ExpireHistory(env: Env, w: World, id: string)
    ensures HistoryGrows(w.db, ExpireStep(w, id).db)
  {
    hide DeleteTx;
    DeleteGrows(w.db, id);
  }

  lemma JobHistory(env: Env, w: World, op: Op)
    requires Inv(env, w) && JobOp(op) && Enabled(w, op)
    ensures HistoryGrows(w.db, Apply(env, w, op).db)
  {
    hide Inv, Apply, SameDealUnscheduled, Column, ExpireStep, Enabled;
    PastLedger(env, w);
    if op.Create? {
      CreateWrites(env, w, op);
      var db' := Apply(env, w, op).db;
      OneEntry(w.db, db', (op.uuid, db'.tasks[op.uuid].created), LedgerRow(1, "", 0));
    } else if op.Expire? {
      JobApplied(env, w, op);
      ExpireHistory(env, w, op.id);
    } else {
      JobApplied(env, w, op);
      JobKeepsTables(env, w, op);
    }
  }

  lemma JobApplied(env: Env, w: World, op: Op)
    requires JobOp(op) && Enabled(w, op)
    ensures Apply(env, w, op) == JobStep(env, w, op)
  {
    hide ClientStep, JobStep;
  }

  lemma HistoryStep(env: Env, w: World, op: Op)
    requires Inv(env, w)
    ensures HistoryGrows(w.db, Apply(env, w, op).db)
  {
    hide Inv, Enabled, Apply;
    if !Enabled(w, op) {
      DisabledChangesNothing(env, w, op);
    } else if JobOp(op) {
      JobHistory(env, w, op);
    } else {
      ClientHistory(env, w, op);
    }
  }

  /** A task that is there after a run was there all along. */
  lemma ThereBefore(env: Env, w: World, ops: seq<Op>, op: Op, t: string)
    requires CollisionFree(env.codec) && Inv(env, w) && t in w.db.tasks && forall o | o in ops :: Admissible(o)
    requires t in Apply(env, Run(env, w, ops), op).db.tasks
    ensures t in Run(env, w, ops).db.tasks
  {
    hide Inv, Apply, Run, Admissible;
    QueuePosition(env, w, ops, t);
    if t !in Run(env, w, ops).db.tasks { NewRows(env, Run(env, w, ops), op, t); }
  }

  /** The ledger is append-only but for deletions: the entries that a task has at some point
      are still its entries, unchanged and before all later ones, for as long as the task is
      there. */
  lemma {:induction false} HistoryIsKept(env: Env, w: World, ops: seq<Op>)
    requires CollisionFree(env.codec) && Inv(env, w) && forall op | op in ops :: Admissible(op)
    ensures HistoryGrows(w.db, Run(env, w, ops).db) && Inv(env, Run(env, w, ops))
  {
    hide Inv, Apply, Admissible;
    PastLedger(env, w);
    if ops != [] {
      var n := |ops| - 1;
      var before, after := Run(env, w, ops[..n]), Run(env, w, ops);
      HistoryIsKept(env, w, ops[..n]);
      ApplyKeepsInv(env, before, ops[n]);
      HistoryStep(env, before, ops[n]);
      forall k | k in w.db.ledger && k.0 in after.db.tasks
        ensures k in after.db.ledger && after.db.ledger[k] == w.db.ledger[k]
      {
        ThereBefore(env, w, ops[..n], ops[n], k.0);
      }
    }
  }
}
