/** One unfinished child per scheduled task: the exact steps that keep it, the exact steps
    that break it, and the runs in which it always holds. */
module Children {
  import opened Wrappers
  import opened Tasks
  import opened Store
  import opened TaskStore
  import opened Controller
  import opened Runs

  predicate Open(t: Task) { t.status < SUCCESSFUL }

  /** An unfinished task generated from the scheduled task `parent`. */
  predicate OpenChild(ts: TaskTable, parent: string, id: string) {
    id in ts && ts[id].parent == Some(parent) && Open(ts[id].data)
  }

  predicate HasOpenChild(ts: TaskTable, parent: string) { exists id | id in ts :: OpenChild(ts, parent, id) }

  predicate OneOpenChild(ts: TaskTable) {
    forall a, b | a in ts && b in ts && a != b && ts[a].parent.Some? ::
      OpenChild(ts, ts[a].parent.value, a) ==> !OpenChild(ts, ts[a].parent.value, b)
  }

  /** A job past the check for an unfinished child has none. */
  predicate ClearMeansNone(w: World) {
    forall j | j in w.jobs && w.jobs[j].phase.Clear? :: !HasOpenChild(w.db.tasks, w.jobs[j].taskID)
  }

  /** An accepted update that makes an unfinished task of a finished one. */
  predicate Reopens(env: Env, w: World, op: Op) {
    && op.UpdateOp? && Commits(env, w, op, op.id)
    && op.id in w.db.tasks && !Open(w.db.tasks[op.id].data) && op.req.status < SUCCESSFUL
  }

  /** ... of a finished child with an unfinished sibling. */
  predicate ReopensBeside(env: Env, w: World, op: Op) {
    && Reopens(env, w, op)
    && w.db.tasks[op.id].parent.Some?
    && HasOpenChild(w.db.tasks, w.db.tasks[op.id].parent.value)
  }

  /** A job that creates a child beside an unfinished one. */
  predicate CreatesBeside(w: World, op: Op) {
    && op.Create? && Enabled(w, op) && w.jobs[op.j].taskID != ""
    && HasOpenChild(w.db.tasks, w.jobs[op.j].taskID)
  }

  // ---------- One step ----------

  /** Rows may go, close or move, but none opens and none changes its parent. */
  predicate NoneOpens(ts: TaskTable, ts': TaskTable) {
    forall id | id in ts' :: id in ts && ts'[id].parent == ts[id].parent && (Open(ts'[id].data) ==> Open(ts[id].data))
  }

  lemma NoneOpensKeeps(ts: TaskTable, ts': TaskTable)
    requires OneOpenChild(ts) && NoneOpens(ts, ts')
    ensures OneOpenChild(ts')
  {
  }

  /** One row opens, or one open row is added: that keeps at most one per parent exactly when
      its parent had none. */
  lemma OneOpens(ts: TaskTable, id: string, row: TaskRow)
    requires OneOpenChild(ts) && Open(row.data)
    requires id in ts ==> !Open(ts[id].data) && ts[id].parent == row.parent
    ensures OneOpenChild(ts[id := row]) <==> !(row.parent.Some? && HasOpenChild(ts, row.parent.value))
  {
    var ts' := ts[id := row];
    if row.parent.Some? && HasOpenChild(ts, row.parent.value) {
      var other :| other in ts && OpenChild(ts, row.parent.value, other);
      assert OpenChild(ts', row.parent.value, other) && OpenChild(ts', row.parent.value, id);
    } else {
      forall a, b | a in ts' && b in ts' && a != b && ts'[a].parent.Some?
        ensures OpenChild(ts', ts'[a].parent.value, a) ==> !OpenChild(ts', ts'[a].parent.value, b)
      {
        if a != id && b != id {
          assert OpenChild(ts, ts[a].parent.value, a) ==> !OpenChild(ts, ts[a].parent.value, b);
        } else if ts'[a].parent == row.parent {
          assert !OpenChild(ts, row.parent.value, if a == id then b else a);
        }
      }
    }
  }

  /** A pop or a reset opens nothing: a popped task was available, a reset one in progress. */
  lemma ChangeOpensNothing(env: Env, w: World, op: Op)
    requires Inv(env, w) && Changes(op) && !Reopens(env, w, op)
    ensures NoneOpens(w.db.tasks, Apply(env, w, op).db.tasks)
  {
    hide Inv, Apply;
    forall t | t in Apply(env, w, op).db.tasks
      ensures t in w.db.tasks && Apply(env, w, op).db.tasks[t].parent == w.db.tasks[t].parent
      ensures Open(Apply(env, w, op).db.tasks[t].data) ==> Open(w.db.tasks[t].data)
    {
      ChangedRow(env, w, op, t);
      UnownedIsAvailable(env, w, t);
      if op.UpdateOp? && !Commits(env, w, op, op.id) { RejectedUpdate(env, w, op.id, op.req); }
    }
  }

  /** A reopening update rewrites the one row. */
  lemma ReopenTable(env: Env, w: World, op: Op)
    requires Inv(env, w) && Reopens(env, w, op)
    ensures var ts, ts' := w.db.tasks, Apply(env, w, op).db.tasks;
      && op.id in ts' && ts' == ts[op.id := ts'[op.id]]
      && Open(ts'[op.id].data) && ts'[op.id].parent == ts[op.id].parent
  {
    hide JobStep, Inv, UpdateTx;
    UpdateParts(env.codec, w.db, op.id, op.req);
  }

  /** A job creates an open child of its task. */
  lemma CreateOpensChild(env: Env, w: World, op: Op)
    requires Inv(env, w) && op.Create? && Enabled(w, op)
    ensures var ts, ts' := w.db.tasks, Apply(env, w, op).db.tasks;
      && op.uuid !in ts && op.uuid in ts' && ts' == ts[op.uuid := ts'[op.uuid]]
      && Open(ts'[op.uuid].data) && ts'[op.uuid].parent == NullIfEmpty(w.jobs[op.j].taskID)
  {
    hide ClientStep, SaveTx, DbInv, AllMatch, Live, OneEach;
    SaveAdds(w.db, ChildOf(w.jobs[op.j], op.uuid), w.jobs[op.j].phase.tag, w.jobs[op.j].taskID);
  }

  /** The other operations add at most a row without a parent. */
  lemma OthersOpenNoChild(env: Env, w: World, op: Op)
    requires Inv(env, w) && !Changes(op) && !(op.Create? && Enabled(w, op)) && OneOpenChild(w.db.tasks)
    ensures OneOpenChild(Apply(env, w, op).db.tasks)
  {
    hide Inv, Apply, NoneOpens, Enabled, OneOpenChild;
    OtherTable(env, w, op);
    var ts, ts' := w.db.tasks, Apply(env, w, op).db.tasks;
    if n :| n in ts' && ts' == ts[n := ts'[n]] && NewRow(w, op, ts'[n], n) && !op.Create? {
      OneOpens(ts, n, ts'[n]);
    } else {
      if op.Create? { DisabledChangesNothing(env, w, op); }
      StaysOrGoes(ts, ts');
    }
  }

  lemma StaysOrGoes(ts: TaskTable, ts': TaskTable)
    requires OneOpenChild(ts) && forall id | id in ts' :: id in ts && ts'[id] == ts[id]
    ensures OneOpenChild(ts')
  {
  }

  /** In any reachable state with at most one unfinished child per parent, the next
      operation leaves at most one exactly when it neither reopens a finished child beside
      an unfinished one nor creates a child beside an unfinished one. */
  lemma ExactlyWhatBreaks(env: Env, w: World, op: Op)
    requires Inv(env, w) && OneOpenChild(w.db.tasks)
    ensures OneOpenChild(Apply(env, w, op).db.tasks) <==> !ReopensBeside(env, w, op) && !CreatesBeside(w, op)
  {
    hide Inv, Apply, Enabled, OneOpenChild, NoneOpens, HasOpenChild, Open, Commits;
    var ts, ts' := w.db.tasks, Apply(env, w, op).db.tasks;
    if Reopens(env, w, op) {
      ReopenTable(env, w, op);
      OneOpens(ts, op.id, ts'[op.id]);
    } else if Changes(op) {
      ChangeOpensNothing(env, w, op);
      NoneOpensKeeps(ts, ts');
    } else if op.Create? && Enabled(w, op) {
      CreateOpensChild(env, w, op);
      OneOpens(ts, op.uuid, ts'[op.uuid]);
    } else {
      OthersOpenNoChild(env, w, op);
    }
  }

  // ---------- Whole runs ----------

  /** The check for an unfinished child fails, and its answer would have been yes. */
  predicate CountMisses(w: World, op: Op) {
    op.CountFails? && Enabled(w, op) && HasOpenChild(w.db.tasks, w.jobs[op.j].taskID)
  }

  lemma NoneOpensNoChild(ts: TaskTable, ts': TaskTable, parent: string)
    requires NoneOpens(ts, ts') && HasOpenChild(ts', parent)
    ensures HasOpenChild(ts, parent)
  {
  }

  /** The jobs after an operation that is not about a job. */
  lemma TaskOpKeepsJobs(env: Env, w: World, op: Op)
    requires !JobOp(op)
    ensures Apply(env, w, op).jobs == w.jobs
  {
    hide Enabled, JobStep, ClientStep;
    if Enabled(w, op) { ClientKeepsJobs(env, w, op); }
  }

  /** No job step other than the check itself takes a job past the check, and one that
      creates its child is done. */
  lemma JobOpClear(env: Env, w: World, op: Op, j: nat)
    requires JobOp(op) && !op.Count? && !op.CountFails? && Enabled(w, op)
    requires var jobs := Apply(env, w, op).jobs; j in jobs && jobs[j].phase.Clear?
    ensures j in w.jobs && w.jobs[j] == Apply(env, w, op).jobs[j]
    ensures op.Create? && j == op.j ==> Apply(env, w, op).db == w.db
  {
    hide ClientStep, SaveTx, SchedulerRows, Schedule, HasSchedule, ValidSpec;
  }

  /** Without a reopening, a parent gains an open child only from its own job. */
  lemma WhereChildrenComeFrom(env: Env, w: World, op: Op, parent: string)
    requires Inv(env, w) && !Reopens(env, w, op) && HasOpenChild(Apply(env, w, op).db.tasks, parent)
    ensures HasOpenChild(w.db.tasks, parent) || (op.Create? && Enabled(w, op) && w.jobs[op.j].taskID == parent)
  {
    hide Inv, Apply, Enabled, NoneOpens, Commits, Open;
    var ts, ts' := w.db.tasks, Apply(env, w, op).db.tasks;
    if Changes(op) {
      ChangeOpensNothing(env, w, op);
      NoneOpensNoChild(ts, ts', parent);
    } else if !Enabled(w, op) {
      DisabledChangesNothing(env, w, op);
    } else {
      OtherTable(env, w, op);
      var id :| id in ts' && OpenChild(ts', parent, id);
      if id in ts && ts[id] == ts'[id] { assert OpenChild(ts, parent, id); }
    }
  }

  lemma CountIsExact(env: Env, w: World, j: nat)
    requires Inv(env, w) && Enabled(w, Count(j))
    ensures var w' := Apply(env, w, Count(j));
      && w'.db == w.db
      && w'.jobs == w.jobs[j := w'.jobs[j]] && w'.jobs[j].taskID == w.jobs[j].taskID
      && (w'.jobs[j].phase.Clear? <==> !HasOpenChild(w.db.tasks, w.jobs[j].taskID))
  {
    hide ClientStep, JobInv, NewestBelow;
    var id := w.jobs[j].taskID;
    LedgerQueriesAreExact(w.db, id, SUCCESSFUL);
    assert forall t :: t in Children(w.db, id, SUCCESSFUL) <==> OpenChild(w.db.tasks, id, t);
  }

  lemma CountFailsClears(env: Env, w: World, j: nat)
    requires Enabled(w, CountFails(j))
    ensures var w' := Apply(env, w, CountFails(j));
      && w' == w.(jobs := w.jobs[j := w'.jobs[j]])
      && w'.jobs[j] == w.jobs[j].(phase := w'.jobs[j].phase) && w'.jobs[j].phase.Clear?
  {
  }

  lemma JobsAreDistinct(env: Env, w: World, i: nat, j: nat)
    requires Inv(env, w) && w.process.Up? && i in w.jobs && j in w.jobs && i != j
    ensures w.jobs[i].taskID != w.jobs[j].taskID
  {
  }

  lemma ClearStep(env: Env, w: World, op: Op)
    requires Inv(env, w) && ClearMeansNone(w) && !Reopens(env, w, op) && !CountMisses(w, op)
    ensures ClearMeansNone(Apply(env, w, op))
  {
    hide Inv, Apply, Enabled, HasOpenChild, Commits;
    var w' := Apply(env, w, op);
    forall j | j in w'.jobs && w'.jobs[j].phase.Clear?
      ensures !HasOpenChild(w'.db.tasks, w'.jobs[j].taskID)
    {
      ClearJobStep(env, w, op, j);
    }
  }

  lemma ClearJobStep(env: Env, w: World, op: Op, j: nat)
    requires Inv(env, w) && ClearMeansNone(w) && !Reopens(env, w, op) && !CountMisses(w, op)
    requires var w' := Apply(env, w, op); j in w'.jobs && w'.jobs[j].phase.Clear?
    ensures !HasOpenChild(Apply(env, w, op).db.tasks, Apply(env, w, op).jobs[j].taskID)
  {
    hide Inv, Apply, Enabled, HasOpenChild, Commits;
    var w' := Apply(env, w, op);
    if !Enabled(w, op) {
      DisabledChangesNothing(env, w, op);
    } else if op.Count? {
      CountIsExact(env, w, op.j);
    } else if op.CountFails? {
      CountFailsClears(env, w, op.j);
    } else {
      if JobOp(op) { JobOpClear(env, w, op, j); } else { TaskOpKeepsJobs(env, w, op); }
      if HasOpenChild(w'.db.tasks, w.jobs[j].taskID) {
        WhereChildrenComeFrom(env, w, op, w.jobs[j].taskID);
        CreateIsUp(w, op);
        if j != op.j { JobsAreDistinct(env, w, op.j, j); }
      }
    }
  }

  lemma CreateIsUp(w: World, op: Op)
    requires op.Create? && Enabled(w, op)
    ensures w.process.Up? && op.j in w.jobs && w.jobs[op.j].phase.Clear?
  {
  }

  /** What is asked of a run: no update reopens a finished task, and the check for an
      unfinished child does not fail while there is one. */
  predicate Benign(env: Env, w: World, ops: seq<Op>) {
    forall i | 0 <= i < |ops| ::
      !Reopens(env, Run(env, w, ops[..i]), ops[i]) && !CountMisses(Run(env, w, ops[..i]), ops[i])
  }

  /** Over whole runs with crashes and recoveries, no scheduled task ever has two unfinished
      children. */
  lemma {:induction false} OneOpenChildInRuns(env: Env, w: World, ops: seq<Op>)
    requires CollisionFree(env.codec) && Inv(env, w) && OneOpenChild(w.db.tasks) && ClearMeansNone(w)
    requires (forall op | op in ops :: Admissible(op)) && Benign(env, w, ops)
    ensures Inv(env, Run(env, w, ops))
    ensures OneOpenChild(Run(env, w, ops).db.tasks) && ClearMeansNone(Run(env, w, ops))
  {
    hide Inv, Apply, OneOpenChild, Admissible, Reopens, CountMisses, HasOpenChild, Enabled, Commits;
    if ops != [] {
      var n := |ops| - 1;
      var before := Run(env, w, ops[..n]);
      forall i | 0 <= i < n
        ensures !Reopens(env, Run(env, w, ops[..n][..i]), ops[..n][i])
        ensures !CountMisses(Run(env, w, ops[..n][..i]), ops[..n][i])
      {
        assert ops[..n][..i] == ops[..i];
      }
      OneOpenChildInRuns(env, w, ops[..n]);
      ApplyKeepsInv(env, before, ops[n]);
      ClearStep(env, before, ops[n]);
      ExactlyWhatBreaks(env, before, ops[n]);
      if CreatesBeside(before, ops[n]) { CreateIsUp(before, ops[n]); }
    }
  }

  lemma OneOpenChildFromStart(env: Env, ops: seq<Op>)
    requires CollisionFree(env.codec)
    requires (forall op | op in ops :: Admissible(op)) && Benign(env, START, ops)
    ensures OneOpenChild(Run(env, START, ops).db.tasks)
  {
    hide Inv, Benign, Run;
    StartInv(env);
    OneOpenChildInRuns(env, START, ops);
  }

  /** What a failed check costs: the child that the job then creates is the only unfinished
      one exactly when there was none, since nothing else looks. */
  lemma FailedCheck(env: Env, w: World, j: nat, uuid: string)
    requires CollisionFree(env.codec) && Inv(env, w) && OneOpenChild(w.db.tasks)
    requires Enabled(w, CountFails(j)) && uuid !in w.used && w.jobs[j].taskID != ""
    ensures var w' := Apply(env, Apply(env, w, CountFails(j)), Create(j, uuid));
      OneOpenChild(w'.db.tasks) <==> !HasOpenChild(w.db.tasks, w.jobs[j].taskID)
  {
    hide Inv, OneOpenChild, HasOpenChild, Apply;
    var w1 := Apply(env, w, CountFails(j));
    CountFailsClears(env, w, j);
    ApplyKeepsInv(env, w, CountFails(j));
    ExactlyWhatBreaks(env, w1, Create(j, uuid));
    assert j in w1.jobs && w1.process == w.process && w1.used == w.used;
    assert Enabled(w1, Create(j, uuid));
    assert w1.db.tasks == w.db.tasks && w1.jobs[j].taskID == w.jobs[j].taskID;
    assert !ReopensBeside(env, w1, Create(j, uuid));
  }
}
