/** The transactions on the task tables (controller/state/statedb.go) as functions from
    tables to tables, and the agreement of the redundant copies that they keep: the owner
    column with the worker inside the task, and the ledger with the status inside it. */
module TaskStore {
  import opened Wrappers
  import opened Tasks
  import opened Store
  import RecordChain

  datatype Error =
    | Duplicate
    | NoRow
    | NotAssigned
    | WrongWorker
    | BadRunCount
    | MissingField       // a required optional field was absent: the transaction panics and rolls back
    | MissingWorker
    | BadStatus
    | InProgressTask
    | NotFound
    | InvalidSchedule     // the row is saved, but no job was made for it
    | AlreadyDrained
    | BrokenLink
    | NoPrevious
    | NotSaved            // the transaction that saves a row failed

  // ---------- Transactions ----------

  /** saveTask: insert the row and its first ledger entry; a scheduled task is owned by the
      scheduler from the start. */
  function SaveTx(db: Tables, t: Task, tag: string, parent: string): Result<Tables, Error> {
    if t.uuid in db.tasks then Err(Duplicate)
    else
      var now := db.clock + 1;
      var owner := if HasSchedule(t) then Some(SCHEDULER) else None;
      Ok(db.(tasks := db.tasks[t.uuid := TaskRow(t, owner, now, NullIfEmpty(tag), NullIfEmpty(parent))],
             ledger := db.ledger[(t.uuid, now) := LedgerRow(AVAILABLE, "", 0)],
             clock := now))
  }

  /** assignTaskSQL: the row that a pop by a worker leaves. */
  function PoppedRow(row: TaskRow, worker: string, status: int, now: int): TaskRow {
    row.(data := Assign(row.data, worker, status, now), owner := Some(worker))
  }

  datatype PopResult = PopResult(db: Tables, task: Option<Task>, scheduled: bool)

  /** popTask, for the row that the query returned: a scheduled row goes to the scheduler
      without changing its data, any other row is assigned to the worker. */
  function PopTx(db: Tables, id: string, worker: string, status: int): PopResult
    requires id in db.tasks
  {
    var t := db.tasks[id].data;
    if HasSchedule(t) then
      PopResult(db.(tasks := SetOwner(db.tasks, id, Some(SCHEDULER))), Some(t), true)
    else
      var row := PoppedRow(db.tasks[id], worker, status, db.clock + 1);
      PopResult(db.(tasks := db.tasks[id := row],
                    ledger := db.ledger[(id, db.clock + 2) := LedgerRow(status, "", 0)],
                    clock := db.clock + 2),
                Some(row.data), false)
  }

  predicate IsFinished(t: Task) { t.status == SUCCESSFUL || t.status == FAILED }

  /** The retrieval that a successful storage task asks for, when every field it needs is there. */
  function FollowUp(t: Task, f: FinishedTask): Result<Option<RetrievalTask>, Error> {
    if t.status != SUCCESSFUL || f.storage.None? || f.storage.value.retrievalSchedule.None? then Ok(None)
    else if f.logs.payloadCID.None? || f.storage.value.retrievalScheduleLimit.None? then Err(MissingField)
    else
      var st := f.storage.value;
      Ok(Some(RetrievalTask(st.miner, f.logs.payloadCID.value, false, st.retrievalSchedule, st.retrievalScheduleLimit,
                            Some(st.tag.GetOr("")), Some(st.retrievalMaxPrice.GetOr(0)))))
  }

  /** An update request is reported in the ledger when it changes the status or names another stage. */
  predicate Reported(t: Task, req: UpdateTask) {
    (req.stage.Some? && req.stage.value != t.stage) || req.status != t.status
  }

  datatype UpdateResult = UpdateResult(db: Tables, task: Task, followUp: Option<RetrievalTask>)

  /** The row and, when reported, the ledger entry of an update that turned t into u. */
  function StoreUpdate(db: Tables, id: string, u: Task, reported: bool): Tables {
    db.(tasks := SetData(db.tasks, id, u),
        ledger := if reported then db.ledger[(id, db.clock + 1) := LedgerRow(u.status, u.stage, u.runCount)]
                  else db.ledger)
  }

  /** The record of a finished task: its archived stages, its block, its unattached row. */
  function AddRecord(c: Codec, db: Tables, u: Task, worker: string): Tables {
    var f := Finished(Finalized(c, u));
    db.(blocks := Archive(c, Archive(c, db.blocks, EventsOf(u)), f),
        records := db.records + [RecordRow(c.cid(f), db.clock + 2, worker, Unattached)])
  }

  /** The rest of the update: a record if the task is finished, and in any case the stages
      that the output log archives. */
  function Log(c: Codec, db: Tables, u: Task, worker: string): Tables {
    var recorded := if IsFinished(u) then AddRecord(c, db, u, worker) else db;
    recorded.(blocks := Archive(c, recorded.blocks, EventsOf(u)), clock := db.clock + 2)
  }

  function UpdateTx(c: Codec, db: Tables, id: string, req: UpdateTask): Result<UpdateResult, Error> {
    if id !in db.tasks then Err(NoRow)
    else
      var t := db.tasks[id].data;
      if t.workedBy.None? || t.workedBy.value == "" then Err(NotAssigned)
      else if req.workedBy != t.workedBy.value then Err(WrongWorker)
      else if Reported(t, req) && req.runCount < 1 then Err(BadRunCount)
      else
        var u := Updated(t, req);
        var f := if IsFinished(u) then FollowUp(u, Finalized(c, u)) else Ok(None);
        if f.Err? then Err(f.error)
        else Ok(UpdateResult(Log(c, StoreUpdate(db, id, u, Reported(t, req)), u, req.workedBy), u, f.value))
  }

  /** unassignTaskSQL */
  function ResetRow(row: TaskRow): TaskRow { row.(data := Reset(row.data), owner := None) }

  /** One task of ResetWorkerTasks. */
  function ResetOne(db: Tables, id: string): Tables {
    if id !in db.tasks then db else
    var now := db.clock + 1;
    db.(tasks := db.tasks[id := ResetRow(db.tasks[id])],
        ledger := db.ledger[(id, now) := LedgerRow(AVAILABLE, "", 0)],
        clock := now)
  }

  function ResetAll(db: Tables, ids: seq<string>): Tables {
    if ids == [] then db else ResetOne(ResetAll(db, ids[..|ids| - 1]), ids[|ids| - 1])
  }

  function DeleteTx(db: Tables, id: string): Tables {
    db.(tasks := db.tasks - {id}, ledger := Cascade(db.ledger, id))
  }

  // ---------- What the copies agree on ----------

  predicate Unworked(t: Task) { t.workedBy.None? || t.workedBy.value == "" }

  /** The owner column and the worker inside the task say the same; the scheduler owns exactly
      the scheduled tasks; a task nobody works on is available. */
  predicate OwnersAgree(row: TaskRow) {
    && (row.owner.None? || row.owner == Some(SCHEDULER) <==> Unworked(row.data))
    && (!Unworked(row.data) ==> row.owner == row.data.workedBy)
    && (row.owner == Some(SCHEDULER) <==> HasSchedule(row.data))
    && (Unworked(row.data) ==> row.data.status == AVAILABLE)
  }

  /** A task that nobody works on is as it came; one that somebody works on was started after
      it was created. */
  predicate StartOk(row: TaskRow, clock: int) {
    if Unworked(row.data) then Fresh(row.data)
    else row.data.startedAt.Some? && row.created < row.data.startedAt.value <= clock
  }

  predicate RowOk(ts: TaskTable, ledger: Ledger, clock: int, id: string)
    requires id in ts
  {
    && ts[id].data.uuid == id
    && ts[id].created <= clock
    && OwnersAgree(ts[id])
    && StartOk(ts[id], clock)
    && NewestIs(ledger, id, ts[id].data.status)
  }

  predicate RowsOk(ts: TaskTable, ledger: Ledger, clock: int) {
    forall id | id in ts :: RowOk(ts, ledger, clock, id)
  }

  predicate CreatedDistinct(ts: TaskTable) {
    forall a, b | a in ts && b in ts && a != b :: ts[a].created != ts[b].created
  }

  /** Every ledger entry belongs to a task and lies in the past. */
  predicate LedgerOk(ts: TaskTable, ledger: Ledger, clock: int) {
    forall k | k in ledger :: k.0 in ts && k.1 <= clock
  }

  predicate TaskInv(ts: TaskTable, ledger: Ledger, clock: int) {
    RowsOk(ts, ledger, clock) && CreatedDistinct(ts) && LedgerOk(ts, ledger, clock)
  }

  // ---------- The ledger ----------

  lemma NewestIsUnique(ledger: Ledger, id: string, s: int, status: int)
    requires NewestIs(ledger, id, s)
    ensures NewestIs(ledger, id, status) <==> s == status
    ensures NewestBelow(ledger, id, status) <==> s < status
  {
  }

  /** A new entry is the newest of its task, and concerns no other task. */
  lemma LedgerInsert(ledger: Ledger, clock: int, id: string, now: int, row: LedgerRow, other: string, s: int)
    requires (forall k | k in ledger :: k.1 <= clock) && now > clock
    ensures NewestIs(ledger[(id, now) := row], id, row.status)
    ensures other != id && NewestIs(ledger, other, s) ==> NewestIs(ledger[(id, now) := row], other, s)
  {
  }

  /** The two ledger queries select exactly the rows that the status inside the task would. */
  lemma LedgerQueriesAreExact(db: Tables, who: string, status: int)
    requires TaskInv(db.tasks, db.ledger, db.clock)
    ensures WorkerTasks(db, who, status) ==
      set id | id in db.tasks && db.tasks[id].owner == Some(who) && db.tasks[id].data.status == status
    ensures Children(db, who, status) ==
      set id | id in db.tasks && db.tasks[id].parent == Some(who) && db.tasks[id].data.status < status
  {
    forall id | id in db.tasks
      ensures NewestIs(db.ledger, id, status) <==> db.tasks[id].data.status == status
      ensures NewestBelow(db.ledger, id, status) <==> db.tasks[id].data.status < status
    {
      assert RowOk(db.tasks, db.ledger, db.clock, id);
      NewestIsUnique(db.ledger, id, db.tasks[id].data.status, status);
    }
  }

  // ---------- Every transaction keeps the agreement ----------

  /** Writing one row and its ledger entry. */
  lemma WriteKeepsInv(ts: TaskTable, ledger: Ledger, clock: int, id: string, row: TaskRow, now: int, entry: LedgerRow,
                      later: int)
    requires TaskInv(ts, ledger, clock) && clock < now <= later
    requires row.data.uuid == id && row.data.status == entry.status && OwnersAgree(row) && StartOk(row, later)
    requires if id in ts then row.created == ts[id].created else row.created == now
    ensures TaskInv(ts[id := row], ledger[(id, now) := entry], later)
  {
    hide NewestIs, OwnersAgree;
    var ts', ledger' := ts[id := row], ledger[(id, now) := entry];
    forall other | other in ts'
      ensures RowOk(ts', ledger', later, other)
    {
      if other in ts { assert RowOk(ts, ledger, clock, other); }
      LedgerInsert(ledger, clock, id, now, entry, other, ts'[other].data.status);
    }
    forall a | a in ts
      ensures ts[a].created <= clock
    {
      assert RowOk(ts, ledger, clock, a);
    }
  }

  /** Writing one row whose status stays, without a ledger entry. */
  lemma RewriteKeepsInv(ts: TaskTable, ledger: Ledger, clock: int, id: string, row: TaskRow, later: int)
    requires TaskInv(ts, ledger, clock) && id in ts && clock <= later
    requires row.data.uuid == id && row.data.status == ts[id].data.status && OwnersAgree(row) && StartOk(row, later)
    requires row.created == ts[id].created
    ensures TaskInv(ts[id := row], ledger, later)
  {
  }

  lemma SaveKeepsInv(db: Tables, t: Task, tag: string, parent: string)
    requires TaskInv(db.tasks, db.ledger, db.clock)
    requires Fresh(t)
    ensures var r := SaveTx(db, t, tag, parent);
      r.Ok? ==> TaskInv(r.value.tasks, r.value.ledger, r.value.clock)
  {
    hide NewestIs;
    var r := SaveTx(db, t, tag, parent);
    if r.Ok? {
      WriteKeepsInv(db.tasks, db.ledger, db.clock, t.uuid, r.value.tasks[t.uuid], db.clock + 1,
                    LedgerRow(AVAILABLE, "", 0), db.clock + 1);
    }
  }

  /** In a reachable state a row without an owner has no schedule, so a pop always assigns
      the row to the worker, and changes nothing else in the tables. */
  lemma PopAssigns(db: Tables, id: string, worker: string, status: int)
    requires TaskInv(db.tasks, db.ledger, db.clock) && id in db.tasks && db.tasks[id].owner.None?
    ensures !HasSchedule(db.tasks[id].data)
    ensures var r := PopTx(db, id, worker, status);
      && !r.scheduled
      && r.db.tasks == db.tasks[id := PoppedRow(db.tasks[id], worker, status, db.clock + 1)]
      && r.db.ledger == db.ledger[(id, db.clock + 2) := LedgerRow(status, "", 0)]
      && r.db == db.(tasks := r.db.tasks, ledger := r.db.ledger, clock := db.clock + 2)
      && r.task == Some(r.db.tasks[id].data)
  {
  }

  /** A save of a fresh id adds one row and nothing else. */
  lemma SaveAdds(db: Tables, t: Task, tag: string, parent: string)
    requires t.uuid !in db.tasks
    ensures var r := SaveTx(db, t, tag, parent);
      && r.Ok?
      && r.value.tasks == db.tasks[t.uuid := r.value.tasks[t.uuid]]
      && r.value.tasks[t.uuid] ==
           TaskRow(t, if HasSchedule(t) then Some(SCHEDULER) else None, db.clock + 1, NullIfEmpty(tag),
                   NullIfEmpty(parent))
      && r.value.ledger == db.ledger[(t.uuid, db.clock + 1) := LedgerRow(AVAILABLE, "", 0)]
      && r.value == db.(tasks := r.value.tasks, ledger := r.value.ledger, clock := db.clock + 1)
  {
  }

  /** Without a schedule, the row a pop leaves agrees with itself exactly when the worker
      does not use the scheduler's name. */
  lemma PoppedOwnersAgree(row: TaskRow, worker: string, status: int, now: int)
    requires !HasSchedule(row.data) && worker != ""
    ensures OwnersAgree(PoppedRow(row, worker, status, now)) <==> worker != SCHEDULER
  {
  }

  /** A pop by a worker keeps the agreement exactly when the worker does not use the
      scheduler's name (or the empty one, which AssignTask refuses). */
  lemma PopKeepsInv(db: Tables, id: string, worker: string, status: int)
    requires TaskInv(db.tasks, db.ledger, db.clock) && id in db.tasks && db.tasks[id].owner.None?
    requires worker != ""
    ensures var db' := PopTx(db, id, worker, status).db;
      TaskInv(db'.tasks, db'.ledger, db'.clock) <==> worker != SCHEDULER
  {
    hide NewestIs, OwnersAgree;
    var row := PoppedRow(db.tasks[id], worker, status, db.clock + 1);
    PopAssigns(db, id, worker, status);
    PoppedOwnersAgree(db.tasks[id], worker, status, db.clock + 1);
    var db' := PopTx(db, id, worker, status).db;
    assert db'.ledger == db.ledger[(id, db.clock + 2) := LedgerRow(status, "", 0)];
    assert RowOk(db.tasks, db.ledger, db.clock, id);
    if worker != SCHEDULER {
      WriteKeepsInv(db.tasks, db.ledger, db.clock, id, row, db.clock + 2, LedgerRow(status, "", 0), db.clock + 2);
    } else {
      assert !RowOk(db'.tasks, db'.ledger, db'.clock, id);
    }
  }

  lemma UpdatedRowOk(row: TaskRow, req: UpdateTask, clock: int)
    requires OwnersAgree(row) && StartOk(row, clock)
    requires !Unworked(row.data) && row.data.workedBy == Some(req.workedBy)
    ensures var row' := row.(data := Updated(row.data, req));
      OwnersAgree(row') && StartOk(row', clock + 2) && row'.data.uuid == row.data.uuid
    ensures !Reported(row.data, req) ==> Updated(row.data, req).status == row.data.status
  {
  }

  lemma StoreUpdateKeepsInv(db: Tables, id: string, req: UpdateTask)
    requires TaskInv(db.tasks, db.ledger, db.clock) && id in db.tasks
    requires var t := db.tasks[id].data; !Unworked(t) && t.workedBy == Some(req.workedBy)
    ensures var t := db.tasks[id].data;
      var db' := StoreUpdate(db, id, Updated(t, req), Reported(t, req));
      TaskInv(db'.tasks, db'.ledger, db.clock + 2)
  {
    hide OwnersAgree, StartOk, Updated, NewestIs, Unworked, Reported;
    var t := db.tasks[id].data;
    var u := Updated(t, req);
    var row := db.tasks[id].(data := u);
    assert RowOk(db.tasks, db.ledger, db.clock, id);
    UpdatedRowOk(db.tasks[id], req, db.clock);
    var db' := StoreUpdate(db, id, u, Reported(t, req));
    assert db'.tasks == db.tasks[id := row];
    if Reported(t, req) {
      assert db'.ledger == db.ledger[(id, db.clock + 1) := LedgerRow(u.status, u.stage, u.runCount)];
      WriteKeepsInv(db.tasks, db.ledger, db.clock, id, row, db.clock + 1, LedgerRow(u.status, u.stage, u.runCount),
                    db.clock + 2);
    } else {
      RewriteKeepsInv(db.tasks, db.ledger, db.clock, id, row, db.clock + 2);
    }
  }

  /** An accepted update is by the worker the task is assigned to; it stores the updated
      task and then logs it. */
  lemma UpdateParts(c: Codec, db: Tables, id: string, req: UpdateTask)
    requires UpdateTx(c, db, id, req).Ok?
    ensures id in db.tasks
    ensures var t, r := db.tasks[id].data, UpdateTx(c, db, id, req).value;
      && !Unworked(t) && t.workedBy == Some(req.workedBy)
      && r.task == Updated(t, req)
      && r.db == Log(c, StoreUpdate(db, id, r.task, Reported(t, req)), r.task, req.workedBy)
      && r.db.tasks == db.tasks[id := db.tasks[id].(data := r.task)]
      && r.db.ledger == StoreUpdate(db, id, r.task, Reported(t, req)).ledger
      && r.db.clock == db.clock + 2 && r.db.drained == db.drained
  {
  }

  lemma UpdateKeepsInv(c: Codec, db: Tables, id: string, req: UpdateTask)
    requires TaskInv(db.tasks, db.ledger, db.clock) && UpdateTx(c, db, id, req).Ok?
    ensures var db' := UpdateTx(c, db, id, req).value.db;
      TaskInv(db'.tasks, db'.ledger, db'.clock)
  {
    UpdateParts(c, db, id, req);
    StoreUpdateKeepsInv(db, id, req);
  }

  lemma ResetOwnersAgree(row: TaskRow)
    requires !HasSchedule(row.data)
    ensures OwnersAgree(ResetRow(row))
  {
  }

  lemma ResetOneKeepsInv(db: Tables, id: string)
    requires TaskInv(db.tasks, db.ledger, db.clock) && id in db.tasks && !HasSchedule(db.tasks[id].data)
    ensures var db' := ResetOne(db, id); TaskInv(db'.tasks, db'.ledger, db'.clock)
  {
    assert RowOk(db.tasks, db.ledger, db.clock, id);
    ResetOwnersAgree(db.tasks[id]);
    var db' := ResetOne(db, id);
    var row := ResetRow(db.tasks[id]);
    assert db'.tasks == db.tasks[id := row];
    assert db'.ledger == db.ledger[(id, db.clock + 1) := LedgerRow(AVAILABLE, "", 0)];
    WriteKeepsInv(db.tasks, db.ledger, db.clock, id, row, db.clock + 1, LedgerRow(AVAILABLE, "", 0), db.clock + 1);
  }

  /** Resetting the listed tasks, each once, touches exactly them. */
  lemma {:induction false} ResetAllRows(db: Tables, ids: seq<string>)
    requires forall id | id in ids :: id in db.tasks
    requires Distinct(ids)
    ensures ResetAll(db, ids).tasks == map id | id in db.tasks ::
      if id in ids then ResetRow(db.tasks[id]) else db.tasks[id]
    ensures ResetAll(db, ids) == db.(tasks := ResetAll(db, ids).tasks, ledger := ResetAll(db, ids).ledger,
                                     clock := ResetAll(db, ids).clock)
    ensures ResetAll(db, ids).clock >= db.clock
  {
    if ids != [] {
      var n := |ids| - 1;
      ResetAllRows(db, ids[..n]);
      assert ids == ids[..n] + [ids[n]];
    }
  }

  lemma {:induction false} ResetAllKeepsInv(db: Tables, ids: seq<string>)
    requires TaskInv(db.tasks, db.ledger, db.clock)
    requires forall id | id in ids :: id in db.tasks && !HasSchedule(db.tasks[id].data)
    requires Distinct(ids)
    ensures var db' := ResetAll(db, ids); TaskInv(db'.tasks, db'.ledger, db'.clock)
  {
    if ids != [] {
      var n := |ids| - 1;
      ResetAllKeepsInv(db, ids[..n]);
      ResetAllRows(db, ids[..n]);
      assert ids[n] !in ids[..n];
      ResetOneKeepsInv(ResetAll(db, ids[..n]), ids[n]);
    }
  }

  lemma CascadeKeepsNewest(ledger: Ledger, id: string, other: string, s: int)
    requires other != id && NewestIs(ledger, other, s)
    ensures NewestIs(Cascade(ledger, id), other, s)
  {
  }

  lemma DeleteKeepsInv(db: Tables, id: string)
    requires TaskInv(db.tasks, db.ledger, db.clock)
    ensures var db' := DeleteTx(db, id); TaskInv(db'.tasks, db'.ledger, db'.clock)
  {
    hide NewestIs, OwnersAgree;
    var db' := DeleteTx(db, id);
    forall other | other in db'.tasks
      ensures RowOk(db'.tasks, db'.ledger, db'.clock, other)
    {
      assert RowOk(db.tasks, db.ledger, db.clock, other);
      CascadeKeepsNewest(db.ledger, id, other, db.tasks[other].data.status);
    }
  }

  /** What the tail of an update does to blocks and records: a finished task adds exactly one
      row, the worker's, unattached, naming the stored record of the task; an unfinished one
      adds none. */
  lemma LogRecords(c: Codec, db: Tables, u: Task, worker: string)
    requires CollisionFree(c) && RecordChain.RecordInv(c, db.blocks, db.records, db.clock)
    ensures var db' := Log(c, db, u, worker);
      && RecordChain.RecordInv(c, db'.blocks, db'.records, db'.clock)
      && Extends(db.blocks, db'.blocks)
      && c.cid(EventsOf(u)) in db'.blocks && db'.blocks[c.cid(EventsOf(u))] == EventsOf(u)
      && RecordChain.UpdateLog(db'.records) == RecordChain.UpdateLog(db.records)
      && (if IsFinished(u)
          then var f := Finished(Finalized(c, u));
            && db'.records == db.records + [RecordRow(c.cid(f), db'.clock, worker, Unattached)]
            && c.cid(f) in db'.blocks && db'.blocks[c.cid(f)] == f
          else db'.records == db.records)
  {
    hide RecordChain.RecordInv, RecordChain.UpdateLog, Archive, FinalLogs.Extract;
    if IsFinished(u) {
      FinishedBlocks(c, db.blocks, db.records, db.clock, EventsOf(u), Finalized(c, u), worker);
    } else {
      RecordChain.ArchiveEventsKeepsInv(c, db.blocks, EventsOf(u), db.records, db.clock);
    }
  }

  /** Archiving the stages, then the task that links them, then the stages again. */
  lemma FinishedBlocks(c: Codec, blocks: Blocks, records: seq<RecordRow>, clock: int, events: Block, f: FinishedTask,
                       worker: string)
    requires CollisionFree(c) && RecordChain.RecordInv(c, blocks, records, clock)
    requires events.Events? && f.events == c.cid(events)
    ensures var blocks' := Archive(c, Archive(c, blocks, events), Finished(f));
      var records' := records + [RecordRow(c.cid(Finished(f)), clock + 2, worker, Unattached)];
      && Archive(c, blocks', events) == blocks'
      && c.cid(events) in blocks' && blocks'[c.cid(events)] == events
      && RecordChain.RecordInv(c, blocks', records', clock + 2)
      && Extends(blocks, blocks')
      && RecordChain.UpdateLog(records') == RecordChain.UpdateLog(records)
      && RecordChain.IsRecordCid(blocks', c.cid(Finished(f))) && blocks'[c.cid(Finished(f))] == Finished(f)
  {
    ArchiveKeepsClosed(c, blocks, events);
    var blocks1 := Archive(c, blocks, events);
    ArchiveKeepsClosed(c, blocks1, Finished(f));
    var blocks2 := Archive(c, blocks1, Finished(f));
    RecordChain.AddRecordKeepsInv(c, blocks, blocks2, records, clock,
                                  RecordRow(c.cid(Finished(f)), clock + 2, worker, Unattached));
  }

  /** A copy made by the scheduler is a one-off: however it is run, it never has a schedule
      of its own and its success asks for no further retrieval. */
  lemma CopyAsksForNothing(c: Codec, t: Task, uuid: string, runCount: int, worker: string, status: int, now: int,
                           reqs: seq<UpdateTask>)
    ensures var u := ApplyAll(Assign(MakeRunable(t, uuid, runCount), worker, status, now), reqs);
      !HasSchedule(u) && FollowUp(u, Finalized(c, u)) == Ok(None)
  {
    LastUpdateWins(Assign(MakeRunable(t, uuid, runCount), worker, status, now), reqs);
  }
}
