/** What one operation of the controller can do to a task row, and what follows over whole
    runs: exclusive assignment, no update of an unassigned task, a stable queue. */
module Runs {
  import opened Wrappers
  import opened Tasks
  import opened Store
  import opened TaskStore
  import opened Controller
  import RecordChain

  // ---------- What one operation can do to a row ----------

  predicate AssignedBy(op: Op, row: TaskRow, row': TaskRow, t: string) {
    && op.Pop? && op.id == t && row.owner.None? && row'.data.startedAt.Some?
    && row' == PoppedRow(row, op.worker, op.status, row'.data.startedAt.GetOr(0))
  }

  predicate UpdatedBy(op: Op, row: TaskRow, row': TaskRow, t: string) {
    op.UpdateOp? && op.id == t && row.owner == Some(op.req.workedBy) && row' == row.(data := Updated(row.data, op.req))
  }

  predicate ResetBy(op: Op, row: TaskRow, row': TaskRow, t: string) {
    op.ResetWorker? && row.owner == Some(op.worker) && row.data.status == IN_PROGRESS && row' == ResetRow(row)
  }

  /** A row either stays as it is, or is assigned by a pop, updated by its worker, or reset
      for its worker; its place in the queue, its parent and its tag never change. */
  predicate RowStep(op: Op, row: TaskRow, row': TaskRow, t: string) {
    && row'.created == row.created && row'.parent == row.parent && row'.tag == row.tag
    && (row' == row || AssignedBy(op, row, row', t) || UpdatedBy(op, row, row', t) || ResetBy(op, row, row', t))
  }

  predicate Deletes(op: Op, t: string) { op == Delete(t) || op == Expire(t) }

  lemma PopRow(env: Env, w: World, op: Op, t: string)
    requires Inv(env, w) && op.Pop? && Enabled(w, op)
    ensures var ts := PopStep(w, op.id, op.worker, op.status).db.tasks;
      (t in ts <==> t in w.db.tasks) && (t in ts ==> RowStep(op, w.db.tasks[t], ts[t], t))
  {
    hide PopTx, RowOk;
    PopAssigns(w.db, op.id, op.worker, op.status);
  }

  lemma OwnerIsWorker(env: Env, w: World, t: string)
    requires Inv(env, w) && t in w.db.tasks && !Unworked(w.db.tasks[t].data)
    ensures w.db.tasks[t].owner == w.db.tasks[t].data.workedBy
  {
    hide JobInv, HasSchedule;
    assert RowOk(w.db.tasks, w.db.ledger, w.db.clock, t);
  }

  lemma UpdateRow(env: Env, w: World, op: Op, t: string)
    requires Inv(env, w) && op.UpdateOp?
    ensures var ts := UpdateStep(env.codec, w, op.id, op.req).db.tasks;
      (t in ts <==> t in w.db.tasks) && (t in ts ==> RowStep(op, w.db.tasks[t], ts[t], t))
  {
    hide UpdateTx, Inv, Updated, Unworked;
    if UpdateTx(env.codec, w.db, op.id, op.req).Ok? {
      UpdateParts(env.codec, w.db, op.id, op.req);
      OwnerIsWorker(env, w, op.id);
    }
  }

  lemma ResetRowStep(env: Env, w: World, op: Op, t: string)
    requires Inv(env, w) && op.ResetWorker? && Enabled(w, op)
    ensures var ts := ResetAll(w.db, op.ids).tasks;
      (t in ts <==> t in w.db.tasks) && (t in ts ==> RowStep(op, w.db.tasks[t], ts[t], t))
  {
    hide ResetAll, JobInv, OwnersAgree, NewestIs;
    ResetRows(w, op.worker, op.ids);
    ResetAllRows(w.db, op.ids);
  }

  // ---------- What the other operations do to the task table ----------

  predicate Changes(op: Op) { op.Pop? || op.UpdateOp? || op.ResetWorker? }

  /** A new row is a client's task or a follow-up, without a parent, or the child a job just
      created. */
  predicate NewRow(w: World, op: Op, row: TaskRow, t: string) {
    && t !in w.used && t !in w.db.tasks
    && row.data.status == AVAILABLE && row.owner != Some("")
    && (|| ((op.NewTask? || op.SaveFollowUp?) && op.uuid == t && row.parent.None?)
        || (op.Create? && op.uuid == t && op.j in w.jobs && w.jobs[op.j].phase.Clear?
            && row.parent == NullIfEmpty(w.jobs[op.j].taskID)))
  }

  /** One row is added, or one row is deleted, or the task table stays. */
  ghost predicate TableStep(w: World, op: Op, ts: TaskTable) {
    || ts == w.db.tasks
    || (exists t | t in ts :: ts == w.db.tasks[t := ts[t]] && NewRow(w, op, ts[t], t))
    || (exists t :: Deletes(op, t) && ts == w.db.tasks - {t})
  }

  lemma NewTaskTable(env: Env, w: World, uuid: string, deal: Deal)
    requires Inv(env, w) && uuid !in w.used && w.process.Up?
    ensures TableStep(w, NewTask(uuid, deal), NewTaskStep(w, TaskOf(uuid, deal), TagOf(deal)).db.tasks)
  {
    hide SaveTx, DbInv, AllMatch, Live, OneEach;
    var t := TaskOf(uuid, deal);
    SaveAdds(w.db, t, TagOf(deal), "");
    assert NewRow(w, NewTask(uuid, deal), SaveTx(w.db, t, TagOf(deal), "").value.tasks[uuid], uuid);
  }

  lemma FollowUpTable(env: Env, w: World, uuid: string, rt: RetrievalTask)
    requires Inv(env, w) && uuid !in w.used && w.process.Up?
    ensures TableStep(w, SaveFollowUp(uuid, rt), FollowUpStep(w, uuid, rt).db.tasks)
  {
    hide SaveTx, DbInv, AllMatch, Live, OneEach;
    var t, tag := TaskOf(uuid, RetrievalDeal(rt)), TagOf(RetrievalDeal(rt));
    SaveAdds(w.db, t, tag, "");
    assert NewRow(w, SaveFollowUp(uuid, rt), SaveTx(w.db, t, tag, "").value.tasks[uuid], uuid);
  }

  lemma CreateTable(env: Env, w: World, j: nat, uuid: string)
    requires Inv(env, w) && uuid !in w.used && w.process.Up? && j in w.jobs && w.jobs[j].phase.Clear?
    ensures TableStep(w, Create(j, uuid), CreateStep(w, j, uuid).db.tasks)
  {
    hide SaveTx, DbInv, AllMatch, Live, OneEach;
    var t, tag, parent := ChildOf(w.jobs[j], uuid), w.jobs[j].phase.tag, w.jobs[j].taskID;
    SaveAdds(w.db, t, tag, parent);
    ScheduleAgrees(w.jobs[j].phase.task, uuid, w.jobs[j].runCount);
    assert NewRow(w, Create(j, uuid), SaveTx(w.db, t, tag, parent).value.tasks[uuid], uuid);
  }

  lemma CountTable(w: World, j: nat)
    requires j in w.jobs && w.jobs[j].phase.Loaded?
    ensures CountStep(w, j).db == w.db
  {
  }

  lemma ExpireTable(w: World, id: string)
    ensures TableStep(w, Expire(id), ExpireStep(w, id).db.tasks)
  {
  }

  lemma RecoverTable(w: World)
    ensures RecoverStep(w).db == w.db
  {
  }

  lemma PublishTable(c: Codec, w: World, worker: string)
    ensures PublishStep(c, w, worker).db.tasks == w.db.tasks
  {
  }

  lemma ArchiveTable(c: Codec, w: World, stages: seq<StageDetails>)
    ensures var w' := ArchiveStep(c, w, stages);
      w'.db.tasks == w.db.tasks && w'.jobs == w.jobs && w'.nextJob == w.nextJob && w'.stuck == w.stuck
  {
  }

  /** Of the steps of a job only the creation of a child and the deletion of an expired row
      write to the database. */
  lemma JobKeepsTables(env: Env, w: World, op: Op)
    requires Inv(env, w) && JobOp(op) && !op.Create? && !op.Expire? && Enabled(w, op)
    ensures JobStep(env, w, op).db == w.db
  {
    hide Inv, StartJobStep, RecoverStep, LoadStep, CountStep, Finish;
    match op
    case StartJob(id) => ScheduleKeepsAll(env, w, id);
    case Load(j) => LoadKeepsAll(env, w, j);
    case Count(j) => CountTable(w, j);
    case Recover => RecoverTable(w);
    case _ =>
  }

  lemma JobTable(env: Env, w: World, op: Op)
    requires Inv(env, w) && JobOp(op) && Enabled(w, op)
    ensures TableStep(w, op, JobStep(env, w, op).db.tasks)
  {
    hide Inv, CreateStep, ExpireStep;
    match op
    case Create(j, uuid) => CreateTable(env, w, j, uuid);
    case Expire(id) => ExpireTable(w, id);
    case _ => JobKeepsTables(env, w, op);
  }

  lemma ClientTable(env: Env, w: World, op: Op)
    requires Inv(env, w) && !JobOp(op) && !Changes(op) && Enabled(w, op)
    ensures TableStep(w, op, ClientStep(env, w, op).db.tasks)
  {
    hide Inv, NewTaskStep, FollowUpStep, PublishStep, ArchiveStep;
    match op
    case NewTask(uuid, deal) => NewTaskTable(env, w, uuid, deal);
    case SaveFollowUp(uuid, rt) => FollowUpTable(env, w, uuid, rt);
    case Publish(worker) => PublishTable(env.codec, w, worker);
    case ArchiveStages(stages) => ArchiveTable(env.codec, w, stages);
    case Delete(id) => assert Deletes(op, id);
    case _ =>
  }

  lemma OtherTable(env: Env, w: World, op: Op)
    requires Inv(env, w) && !Changes(op)
    ensures TableStep(w, op, Apply(env, w, op).db.tasks)
  {
    hide Inv, Enabled, JobOp, JobStep, ClientStep;
    if Enabled(w, op) {
      if JobOp(op) { JobTable(env, w, op); } else { ClientTable(env, w, op); }
    }
  }

  /** The three operations that rewrite rows: they delete none and add none. */
  lemma ChangedRow(env: Env, w: World, op: Op, t: string)
    requires Inv(env, w) && Changes(op)
    ensures t in Apply(env, w, op).db.tasks <==> t in w.db.tasks
    ensures t in w.db.tasks ==> RowStep(op, w.db.tasks[t], Apply(env, w, op).db.tasks[t], t)
  {
    hide JobStep, Inv, PopStep, UpdateStep, ResetAll, OldestAvailable, WorkerTasks;
    if Enabled(w, op) {
      match op
      case Pop(_, _, _, _) => PopRow(env, w, op, t);
      case UpdateOp(_, _) => UpdateRow(env, w, op, t);
      case ResetWorker(_, _) => ResetRowStep(env, w, op, t);
    }
  }

  /** The only ways an existing row changes or disappears. */
  lemma RowSteps(env: Env, w: World, op: Op, t: string)
    requires Inv(env, w) && t in w.db.tasks
    ensures var ts := Apply(env, w, op).db.tasks;
      (t in ts && RowStep(op, w.db.tasks[t], ts[t], t)) || (t !in ts && Deletes(op, t))
  {
    hide Apply, Inv;
    if Changes(op) {
      ChangedRow(env, w, op, t);
    } else {
      OtherTable(env, w, op);
    }
  }

  /** Nothing but a client's new task, a follow-up and a job's child ever adds a row. */
  lemma NewRows(env: Env, w: World, op: Op, t: string)
    requires Inv(env, w) && t !in w.db.tasks && t in Apply(env, w, op).db.tasks
    ensures NewRow(w, op, Apply(env, w, op).db.tasks[t], t)
  {
    hide Apply, Inv;
    if Changes(op) {
      ChangedRow(env, w, op, t);
    } else {
      OtherTable(env, w, op);
      var ts := Apply(env, w, op).db.tasks;
      var n :| n in ts && ts == w.db.tasks[n := ts[n]] && NewRow(w, op, ts[n], n);
      assert n == t;
    }
  }

  /** Ids are never forgotten, so a deleted task never comes back. */
  lemma UsedGrows(env: Env, w: World, op: Op)
    ensures w.used <= Apply(env, w, op).used
  {
    hide SaveTx, PopTx, UpdateTx, ResetAll;
  }

  lemma TaskUsed(env: Env, w: World, t: string)
    requires Inv(env, w) && t in w.db.tasks
    ensures t in w.used
  {
  }

  /** What is not about a job leaves the jobs alone. */
  lemma ClientKeepsJobs(env: Env, w: World, op: Op)
    requires !JobOp(op) && Enabled(w, op)
    ensures var w' := ClientStep(env, w, op);
      w'.jobs == w.jobs && w'.nextJob == w.nextJob && w'.stuck == w.stuck
  {
    hide NewTaskStep, FollowUpStep, PopTx, UpdateTx, ResetAll, RecordChain.PublishTx, OldestAvailable, WorkerTasks,
      HasSchedule, ArchiveStep;
    match op
    case ArchiveStages(stages) => ArchiveTable(env.codec, w, stages);
    case NewTask(uuid, deal) => SaveKeepsRest(w, TaskOf(uuid, deal), TagOf(deal));
    case SaveFollowUp(uuid, rt) => FollowUpKeepsRest(w, uuid, rt);
    case _ =>
  }

  /** Saving a task touches neither jobs nor records. */
  lemma SaveKeepsRest(w: World, t: Task, tag: string)
    ensures var w' := NewTaskStep(w, t, tag);
      && w'.jobs == w.jobs && w'.nextJob == w.nextJob && w'.stuck == w.stuck && w'.owed == w.owed
      && w'.db.records == w.db.records && w'.db.blocks == w.db.blocks
  {
    hide HasSchedule;
  }

  lemma FollowUpKeepsRest(w: World, uuid: string, rt: RetrievalTask)
    ensures var w' := FollowUpStep(w, uuid, rt);
      && w'.jobs == w.jobs && w'.nextJob == w.nextJob && w'.stuck == w.stuck && w'.owed == w.owed - multiset{rt}
      && w'.db.records == w.db.records && w'.db.blocks == w.db.blocks
  {
    hide NewTaskStep;
    SaveKeepsRest(w.(owed := w.owed - multiset{rt}), TaskOf(uuid, RetrievalDeal(rt)), TagOf(RetrievalDeal(rt)));
  }

  // ---------- Exclusive assignment ----------

  predicate Holds(w: World, t: string, worker: string) { t in w.db.tasks && w.db.tasks[t].owner == Some(worker) }

  /** The operations that may end a worker's hold on a task. */
  predicate Releases(op: Op, t: string, worker: string) {
    Deletes(op, t) || (op.ResetWorker? && op.worker == worker)
  }

  /** The update transaction that an operation stands for commits in this state. */
  predicate Commits(env: Env, w: World, op: Op, t: string) {
    op.UpdateOp? && op.id == t && Enabled(w, op) && UpdateTx(env.codec, w.db, t, op.req).Ok?
  }

  /** Only the worker that owns the row can update it. */
  lemma CommitsByOwner(env: Env, w: World, op: Op, t: string)
    requires Inv(env, w) && Commits(env, w, op, t)
    ensures t in w.db.tasks && w.db.tasks[t].owner == Some(op.req.workedBy)
  {
    hide UpdateTx, Enabled, JobInv;
    UpdateParts(env.codec, w.db, t, op.req);
    assert RowOk(w.db.tasks, w.db.ledger, w.db.clock, t);
  }

  lemma HoldStep(env: Env, w: World, op: Op, t: string, worker: string)
    requires Inv(env, w) && Holds(w, t, worker) && !Releases(op, t, worker)
    ensures Holds(Apply(env, w, op), t, worker)
    ensures Commits(env, w, op, t) ==> op.req.workedBy == worker
  {
    hide Apply, Inv, Enabled;
    RowSteps(env, w, op, t);
    if Commits(env, w, op, t) { CommitsByOwner(env, w, op, t); }
  }

  /** Between the assignment of a task and a reset of its worker or a deletion of the task,
      no one else holds it, and every update of it that commits is its worker's. */
  lemma {:induction false} ExclusiveAssignment(env: Env, w: World, ops: seq<Op>, t: string, worker: string)
    requires CollisionFree(env.codec) && Inv(env, w) && Holds(w, t, worker)
    requires forall op | op in ops :: Admissible(op) && !Releases(op, t, worker)
    ensures Inv(env, Run(env, w, ops)) && Holds(Run(env, w, ops), t, worker)
    ensures forall i | 0 <= i < |ops| && Commits(env, Run(env, w, ops[..i]), ops[i], t) ::
      ops[i].req.workedBy == worker
  {
    hide Apply, Inv, Admissible, Releases, Enabled, UpdateTx, Holds;
    if ops != [] {
      var n := |ops| - 1;
      ExclusiveAssignment(env, w, ops[..n], t, worker);
      ApplyKeepsInv(env, Run(env, w, ops[..n]), ops[n]);
      HoldStep(env, Run(env, w, ops[..n]), ops[n], t, worker);
      forall i | 0 <= i < |ops| && Commits(env, Run(env, w, ops[..i]), ops[i], t)
        ensures ops[i].req.workedBy == worker
      {
        if i < n { assert ops[..n][..i] == ops[..i] && ops[..n][i] == ops[i]; }
      }
    }
  }

  predicate Unassigned(w: World, t: string) { t in w.used && (t in w.db.tasks ==> w.db.tasks[t].owner.None?) }

  lemma UnassignedStep(env: Env, w: World, op: Op, t: string)
    requires Inv(env, w) && Unassigned(w, t) && !(op.Pop? && op.id == t)
    ensures Unassigned(Apply(env, w, op), t) && !Commits(env, w, op, t)
  {
    hide Apply, Inv, Enabled;
    UsedGrows(env, w, op);
    if t in w.db.tasks {
      RowSteps(env, w, op, t);
    } else if t in Apply(env, w, op).db.tasks {
      NewRows(env, w, op, t);
    }
    if Commits(env, w, op, t) { CommitsByOwner(env, w, op, t); }
  }

  /** A task that was reset (or never assigned) accepts no update from anyone until a pop
      assigns it again. */
  lemma {:induction false} NoUpdateUntilAssigned(env: Env, w: World, ops: seq<Op>, t: string)
    requires CollisionFree(env.codec) && Inv(env, w) && Unassigned(w, t)
    requires forall op | op in ops :: Admissible(op) && !(op.Pop? && op.id == t)
    ensures Inv(env, Run(env, w, ops)) && Unassigned(Run(env, w, ops), t)
    ensures forall i | 0 <= i < |ops| :: !Commits(env, Run(env, w, ops[..i]), ops[i], t)
  {
    hide Apply, Inv, Admissible, Commits, Unassigned;
    if ops != [] {
      var n := |ops| - 1;
      NoUpdateUntilAssigned(env, w, ops[..n], t);
      ApplyKeepsInv(env, Run(env, w, ops[..n]), ops[n]);
      UnassignedStep(env, Run(env, w, ops[..n]), ops[n], t);
      forall i | 0 <= i < |ops|
        ensures !Commits(env, Run(env, w, ops[..i]), ops[i], t)
      {
        if i < n { assert ops[..n][..i] == ops[..i] && ops[..n][i] == ops[i]; }
      }
    }
  }

  /** A reset leaves a task of the worker in progress unassigned, in its old place in the queue. */
  lemma ResetUnassigns(env: Env, w: World, worker: string, ids: seq<string>, t: string)
    requires Inv(env, w) && Enabled(w, ResetWorker(worker, ids))
    requires Holds(w, t, worker) && w.db.tasks[t].data.status == IN_PROGRESS
    ensures var w' := Apply(env, w, ResetWorker(worker, ids));
      && t in w'.db.tasks && w'.db.tasks[t] == ResetRow(w.db.tasks[t])
      && Unassigned(w', t)
  {
    LedgerQueriesAreExact(w.db, worker, IN_PROGRESS);
    assert t in WorkerTasks(w.db, worker, IN_PROGRESS);
    ResetRows(w, worker, ids);
    ResetAllRows(w.db, ids);
  }

  /** A surviving task keeps its place in the queue, its parent and its tag for ever. */
  lemma {:induction false} QueuePosition(env: Env, w: World, ops: seq<Op>, t: string)
    requires CollisionFree(env.codec) && Inv(env, w) && t in w.db.tasks
    requires forall op | op in ops :: Admissible(op)
    ensures Inv(env, Run(env, w, ops)) && t in Run(env, w, ops).used
    ensures var ts := Run(env, w, ops).db.tasks;
      t in ts ==>
        && ts[t].created == w.db.tasks[t].created
        && ts[t].parent == w.db.tasks[t].parent && ts[t].tag == w.db.tasks[t].tag
  {
    hide Apply, Inv;
    TaskUsed(env, w, t);
    if ops != [] {
      var n := |ops| - 1;
      var before := Run(env, w, ops[..n]);
      QueuePosition(env, w, ops[..n], t);
      ApplyKeepsInv(env, before, ops[n]);
      UsedGrows(env, before, ops[n]);
      if t in before.db.tasks {
        RowSteps(env, before, ops[n], t);
      } else if t in Run(env, w, ops).db.tasks {
        NewRows(env, before, ops[n], t);
      }
    }
  }

  // ---------- Reset and delete across runs ----------

  predicate SameDeal(a: Task, b: Task) { a.uuid == b.uuid && a.retrieval == b.retrieval && a.storage == b.storage }

  lemma DealStep(op: Op, row: TaskRow, row': TaskRow, t: string)
    requires RowStep(op, row, row', t)
    ensures SameDeal(row'.data, row.data)
  {
  }

  /** Nothing ever changes what a task is to do. */
  lemma {:induction false} DealStays(env: Env, w: World, ops: seq<Op>, t: string)
    requires CollisionFree(env.codec) && Inv(env, w) && t in w.db.tasks
    requires forall op | op in ops :: Admissible(op)
    ensures var ts := Run(env, w, ops).db.tasks; t in ts ==> SameDeal(ts[t].data, w.db.tasks[t].data)
  {
    hide Apply, Inv, RowStep, Admissible;
    if ops != [] {
      var n := |ops| - 1;
      var before := Run(env, w, ops[..n]);
      DealStays(env, w, ops[..n], t);
      QueuePosition(env, w, ops[..n], t);
      if t in before.db.tasks {
        RowSteps(env, before, ops[n], t);
        if t in Run(env, w, ops).db.tasks {
          DealStep(ops[n], before.db.tasks[t], Run(env, w, ops).db.tasks[t], t);
        }
      } else if t in Run(env, w, ops).db.tasks {
        NewRows(env, before, ops[n], t);
      }
    }
  }

  /** A reset puts the row of a task back to what it was before anyone worked on it, through
      any run in between, exactly when the task came with a run count of zero. */
  lemma ResetAsNeverRun(env: Env, w: World, ops: seq<Op>, worker: string, ids: seq<string>, t: string)
    requires CollisionFree(env.codec) && Inv(env, w) && forall op | op in ops :: Admissible(op)
    requires t in w.db.tasks && w.db.tasks[t].owner.None? && Fresh(w.db.tasks[t].data)
    requires var w1 := Run(env, w, ops);
      && Enabled(w1, ResetWorker(worker, ids))
      && Holds(w1, t, worker) && w1.db.tasks[t].data.status == IN_PROGRESS
    ensures var ts := Apply(env, Run(env, w, ops), ResetWorker(worker, ids)).db.tasks;
      t in ts && (ts[t] == w.db.tasks[t] <==> w.db.tasks[t].data.runCount == 0)
  {
    hide Run, Apply, Inv, Admissible, Enabled;
    var w1 := Run(env, w, ops);
    QueuePosition(env, w, ops, t);
    DealStays(env, w, ops, t);
    ResetUnassigns(env, w1, worker, ids, t);
  }

  lemma UnownedIsAvailable(env: Env, w: World, t: string)
    requires Inv(env, w) && t in w.db.tasks
    ensures w.db.tasks[t].owner.None? ==> w.db.tasks[t].data.status == AVAILABLE
  {
  }

  /** What Delete checks. */
  predicate Deletable(ts: TaskTable, id: string) {
    id in ts ==> HasSchedule(ts[id].data) || ts[id].data.status == AVAILABLE
  }

  /** The operation takes a task that could be deleted into a worker's hands. */
  predicate Takes(env: Env, w: World, op: Op, id: string) {
    (op.Pop? && op.id == id && Enabled(w, op)) || (Commits(env, w, op, id) && op.req.status != AVAILABLE)
  }

  /** The operation puts the task back, or removes it. */
  predicate Frees(env: Env, w: World, op: Op, id: string) {
    || (Commits(env, w, op, id) && op.req.status == AVAILABLE)
    || (op.ResetWorker? && Enabled(w, op) && id in op.ids)
    || (Deletes(op, id) && Enabled(w, op))
  }

  lemma RejectedUpdate(env: Env, w: World, id: string, req: UpdateTask)
    requires !Commits(env, w, UpdateOp(id, req), id)
    ensures Apply(env, w, UpdateOp(id, req)) == w
  {
  }

  lemma DisabledChangesNothing(env: Env, w: World, op: Op)
    requires !Enabled(w, op)
    ensures Apply(env, w, op) == w
  {
  }

  lemma PopTakes(env: Env, w: World, op: Op)
    requires Inv(env, w) && op.Pop? && Enabled(w, op)
    ensures !Deletable(Apply(env, w, op).db.tasks, op.id)
  {
    hide Apply, JobInv, PopTx, NewestIs;
    PopApplied(env, w, op);
    PopAssigns(w.db, op.id, op.worker, op.status);
  }

  lemma CommitsUp(env: Env, w: World, op: Op)
    requires op.UpdateOp? && Commits(env, w, op, op.id)
    ensures w.process.Up?
  {
    hide UpdateTx;
  }

  lemma UpdatedStatus(t: Task, req: UpdateTask)
    ensures Updated(t, req).status == req.status && HasSchedule(Updated(t, req)) == HasSchedule(t)
  {
  }

  /** An update that commits decides alone: the task of a worker has no schedule. */
  lemma CommitDecides(env: Env, w: World, op: Op)
    requires Inv(env, w) && op.UpdateOp? && Commits(env, w, op, op.id)
    ensures Deletable(Apply(env, w, op).db.tasks, op.id) <==> op.req.status == AVAILABLE
  {
    hide Apply, JobInv, UpdateTx, Enabled, Updated, NewestIs;
    CommitsUp(env, w, op);
    UpdateApplied(env, w, op.id, op.req);
    UpdateParts(env.codec, w.db, op.id, op.req);
    assert RowOk(w.db.tasks, w.db.ledger, w.db.clock, op.id);
    UpdatedRowOk(w.db.tasks[op.id], op.req, w.db.clock);
    UpdatedStatus(w.db.tasks[op.id].data, op.req);
  }

  lemma ResetPutsBack(env: Env, w: World, op: Op, id: string)
    requires Inv(env, w) && op.ResetWorker? && Enabled(w, op) && id in w.db.tasks
    ensures var ts := Apply(env, w, op).db.tasks;
      id in ts && ts[id] == if id in op.ids then ResetRow(w.db.tasks[id]) else w.db.tasks[id]
    ensures id in op.ids ==> Deletable(Apply(env, w, op).db.tasks, id)
  {
    hide JobStep, JobInv, ResetAll, NewestIs;
    ResetRows(w, op.worker, op.ids);
    ResetAllRows(w.db, op.ids);
  }

  lemma TaskAbsent(env: Env, w: World, op: Op, id: string)
    requires Inv(env, w) && id in w.used && id !in w.db.tasks
    ensures id !in Apply(env, w, op).db.tasks && !Takes(env, w, op, id)
  {
    hide Apply, Inv, UpdateTx;
    if id in Apply(env, w, op).db.tasks { NewRows(env, w, op, id); }
    if Commits(env, w, op, id) { CommitsByOwner(env, w, op, id); }
  }

  /** In any reachable state: after the next operation a known task may be deleted exactly
      when it was not just popped or updated to another status, and either it could be before
      or the operation put it back. */
  lemma WhatDeleteWouldFind(env: Env, w: World, op: Op, id: string)
    requires Inv(env, w) && id in w.used
    ensures Deletable(Apply(env, w, op).db.tasks, id) <==>
      !Takes(env, w, op, id) && (Deletable(w.db.tasks, id) || Frees(env, w, op, id))
  {
    hide Apply, Inv, Enabled, UpdateTx, HasSchedule;
    if !Enabled(w, op) {
      DisabledChangesNothing(env, w, op);
    } else if id !in w.db.tasks {
      TaskAbsent(env, w, op, id);
    } else if op.Pop? && op.id == id {
      PopTakes(env, w, op);
    } else if Commits(env, w, op, id) {
      CommitDecides(env, w, op);
    } else if op.UpdateOp? && op.id == id {
      RejectedUpdate(env, w, id, op.req);
    } else if op.ResetWorker? {
      ResetPutsBack(env, w, op, id);
    } else {
      RowSteps(env, w, op, id);
      if Deletes(op, id) { DeletesRow(env, w, op, id); }
    }
  }

  lemma DeletesRow(env: Env, w: World, op: Op, id: string)
    requires Deletes(op, id) && Enabled(w, op)
    ensures id !in Apply(env, w, op).db.tasks
  {
  }

  predicate TakenAt(env: Env, w: World, ops: seq<Op>, id: string, i: nat)
    requires i < |ops|
  {
    Takes(env, Run(env, w, ops[..i]), ops[i], id)
  }

  predicate FreedAt(env: Env, w: World, ops: seq<Op>, id: string, i: nat)
    requires i < |ops|
  {
    Frees(env, Run(env, w, ops[..i]), ops[i], id)
  }

  /** Every time the task was taken it was put back later. */
  predicate AlwaysFreed(env: Env, w: World, ops: seq<Op>, id: string) {
    forall i: nat | i < |ops| && TakenAt(env, w, ops, id, i) ::
      exists k: nat | k < |ops| :: i < k && FreedAt(env, w, ops, id, k)
  }

  lemma AlwaysFreedSnoc(env: Env, w: World, ops: seq<Op>, op: Op, id: string)
    ensures AlwaysFreed(env, w, ops + [op], id) <==>
      !Takes(env, Run(env, w, ops), op, id) && (AlwaysFreed(env, w, ops, id) || Frees(env, Run(env, w, ops), op, id))
  {
    hide Run, Takes, Frees;
    var n, all := |ops|, ops + [op];
    assert all[..n] == ops && all[n] == op;
    assert TakenAt(env, w, all, id, n) == Takes(env, Run(env, w, ops), op, id);
    assert FreedAt(env, w, all, id, n) == Frees(env, Run(env, w, ops), op, id);
    forall i: nat | i < n
      ensures TakenAt(env, w, all, id, i) == TakenAt(env, w, ops, id, i)
      ensures FreedAt(env, w, all, id, i) == FreedAt(env, w, ops, id, i)
    {
      assert all[..i] == ops[..i] && all[i] == ops[i];
    }
    if AlwaysFreed(env, w, ops, id) && !TakenAt(env, w, all, id, n) {
      forall i: nat | i < |all| && TakenAt(env, w, all, id, i)
        ensures exists k: nat | k < |all| :: i < k && FreedAt(env, w, all, id, k)
      {
        var k: nat :| k < n && i < k && FreedAt(env, w, ops, id, k);
        assert FreedAt(env, w, all, id, k);
      }
    }
    if AlwaysFreed(env, w, all, id) && !FreedAt(env, w, all, id, n) {
      forall i: nat | i < n && TakenAt(env, w, ops, id, i)
        ensures exists k: nat | k < n :: i < k && FreedAt(env, w, ops, id, k)
      {
        assert TakenAt(env, w, all, id, i);
        var k: nat :| k < |all| && i < k && FreedAt(env, w, all, id, k);
        assert FreedAt(env, w, ops, id, k);
      }
    }
  }

  /** The check of Delete and its deletion are two transactions. What the check found holds
      at the deletion exactly when every pop of the task, and every update of it to another
      status than available, was undone in between. */
  lemma {:induction false} CheckOutlivesRun(env: Env, w: World, ops: seq<Op>, id: string)
    requires CollisionFree(env.codec) && Inv(env, w) && id in w.used && Deletable(w.db.tasks, id)
    requires forall op | op in ops :: Admissible(op)
    ensures Inv(env, Run(env, w, ops)) && id in Run(env, w, ops).used
    ensures Deletable(Run(env, w, ops).db.tasks, id) <==> AlwaysFreed(env, w, ops, id)
  {
    hide Apply, Inv, Admissible, Deletable, Takes, Frees, AlwaysFreed;
    if ops == [] {
      NothingTaken(env, w, ops, id);
    } else {
      var n := |ops| - 1;
      var before := Run(env, w, ops[..n]);
      CheckOutlivesRun(env, w, ops[..n], id);
      ApplyKeepsInv(env, before, ops[n]);
      UsedGrows(env, before, ops[n]);
      WhatDeleteWouldFind(env, before, ops[n], id);
      AlwaysFreedSnoc(env, w, ops[..n], ops[n], id);
      assert ops == ops[..n] + [ops[n]];
    }
  }

  lemma NothingTaken(env: Env, w: World, ops: seq<Op>, id: string)
    requires ops == []
    ensures AlwaysFreed(env, w, ops, id)
  {
  }
}
