/** The controller's database as a value: its tables, the SQL statements that read and
    change them (controller/state/statedb_dml.go), and the content-addressed blocks. */
module Store {
  import opened Wrappers
  import opened Tasks
  import FinalLogs

  // ---------- Blocks ----------

  /** The string form of a content identifier. */
  type Cid = string

  datatype FinishedTask = FinishedTask(
    status: int,
    startedAt: int,
    errorMessage: Option<string>,
    retrieval: Option<RetrievalTask>,
    storage: Option<StorageTask>,
    logs: FinalLogs.Extraction,
    dealIDString: Option<string>,
    events: Cid)

  datatype AuthRecord = AuthRecord(record: Cid, signature: string)

  datatype RecordUpdate = RecordUpdate(records: seq<AuthRecord>, sigPrev: string, previous: Option<Cid>)

  datatype Block =
    | Events(stages: seq<StageDetails>)
    | Finished(task: FinishedTask)
    | Update(update: RecordUpdate)

  /** The hash that names blocks and the identity's signature, both left open. */
  datatype Codec = Codec(cid: Block -> Cid, sign: string -> string)

  /** The only assumption on the hash: distinct blocks have distinct, nonempty names. */
  ghost predicate CollisionFree(c: Codec) {
    && (forall b :: c.cid(b) != "")
    && (forall a, b :: c.cid(a) == c.cid(b) ==> a == b)
  }

  type Blocks = map<Cid, Block>

  /** INSERT INTO finalizedData ... ON CONFLICT (cid) DO NOTHING */
  function Archive(c: Codec, blocks: Blocks, b: Block): Blocks {
    if c.cid(b) in blocks then blocks else blocks[c.cid(b) := b]
  }

  predicate Extends(blocks: Blocks, blocks': Blocks) {
    forall k | k in blocks :: k in blocks' && blocks'[k] == blocks[k]
  }

  predicate Links(blocks: Blocks, b: Block) {
    match b
    case Events(_) => true
    case Finished(t) => t.events in blocks && blocks[t.events].Events?
    case Update(u) =>
      && (u.previous.Some? ==> u.previous.value in blocks && blocks[u.previous.value].Update?)
      && (forall i | 0 <= i < |u.records| :: u.records[i].record in blocks && blocks[u.records[i].record].Finished?)
  }

  /** Every block is stored under its own name and every link in it resolves, to the right kind. */
  predicate Closed(c: Codec, blocks: Blocks) {
    forall k | k in blocks :: c.cid(blocks[k]) == k && Links(blocks, blocks[k])
  }

  lemma ArchiveKeepsClosed(c: Codec, blocks: Blocks, b: Block)
    requires CollisionFree(c) && Closed(c, blocks) && Links(blocks, b)
    ensures var blocks' := Archive(c, blocks, b);
      Closed(c, blocks') && Extends(blocks, blocks') && c.cid(b) in blocks' && blocks'[c.cid(b)] == b
  {
  }

  /** Task.Finalize: the record of a task, pointing at the block of its archived stages. */
  function EventsOf(t: Task): Block { Events(t.past.GetOr([])) }

  function Finalized(c: Codec, t: Task): FinishedTask {
    var logs := FinalLogs.Extract(t);
    FinishedTask(t.status, t.startedAt.GetOr(0), t.errorMessage, t.retrieval, t.storage, logs,
                 FinalLogs.DealIDString(logs), c.cid(EventsOf(t)))
  }

  // ---------- Tables ----------

  const SCHEDULER := "dealbot_scheduler"

  datatype TaskRow = TaskRow(
    data: Task,
    owner: Option<string>,
    created: int,
    tag: Option<string>,
    parent: Option<string>)

  datatype LedgerRow = LedgerRow(status: int, stage: string, run: int)

  datatype RecordStatus = Latest | Previous | Unattached | Attached

  datatype RecordRow = RecordRow(cid: Cid, created: int, workedBy: string, status: RecordStatus)

  type TaskTable = map<string, TaskRow>

  /** Keyed by its primary key, (uuid, ts). */
  type Ledger = map<(string, int), LedgerRow>

  datatype Tables = Tables(
    tasks: TaskTable,
    ledger: Ledger,
    records: seq<RecordRow>,
    blocks: Blocks,
    drained: set<string>,
    clock: int)

  const EMPTY: Tables := Tables(map[], map[], [], map[], {}, 0)

  // ---------- Task statements ----------

  function NullIfEmpty(s: string): Option<string> { if s == "" then None else Some(s) }

  function SetData(ts: TaskTable, uuid: string, data: Task): TaskTable {
    if uuid in ts then ts[uuid := ts[uuid].(data := data)] else ts
  }

  function SetOwner(ts: TaskTable, uuid: string, owner: Option<string>): TaskTable {
    if uuid in ts then ts[uuid := ts[uuid].(owner := owner)] else ts
  }

  /** worked_by IS NULL AND (tag IS NULL OR tag = ANY(tags)); no tags means no condition. */
  predicate Available(ts: TaskTable, tags: seq<string>, id: string) {
    && id in ts
    && ts[id].owner.None?
    && (tags == [] || ts[id].tag.None? || ts[id].tag.value in tags)
  }

  /** A row that ORDER BY created LIMIT 1 may return. */
  predicate OldestAvailable(ts: TaskTable, tags: seq<string>, id: string) {
    && Available(ts, tags, id)
    && (forall other | other in ts && Available(ts, tags, other) :: ts[id].created <= ts[other].created)
  }

  // ---------- Ledger statements ----------

  /** The ledger entry at ts is the newest one of the task. */
  predicate Newest(ledger: Ledger, uuid: string, ts: int) {
    && (uuid, ts) in ledger
    && (forall k | k in ledger && k.0 == uuid :: k.1 <= ts)
  }

  /** The newest ledger entry of the task has this status. */
  predicate NewestIs(ledger: Ledger, uuid: string, status: int) {
    exists k | k in ledger :: k.0 == uuid && Newest(ledger, uuid, k.1) && ledger[k].status == status
  }

  /** The newest ledger entry of the task has a status below this one. */
  predicate NewestBelow(ledger: Ledger, uuid: string, status: int) {
    exists k | k in ledger :: k.0 == uuid && Newest(ledger, uuid, k.1) && ledger[k].status < status
  }

  /** ON DELETE CASCADE */
  function Cascade(ledger: Ledger, uuid: string): Ledger {
    map k | k in ledger && k.0 != uuid :: ledger[k]
  }

  /** workerTasksByStatusSQL: the tasks of a worker whose newest ledger status is the given one. */
  function WorkerTasks(db: Tables, worker: string, status: int): set<string> {
    set id | id in db.tasks && db.tasks[id].owner == Some(worker) && NewestIs(db.ledger, id, status)
  }

  /** countChildTasksLTStatusSQL */
  function Children(db: Tables, parent: string, status: int): set<string> {
    set id | id in db.tasks && db.tasks[id].parent == Some(parent) && NewestBelow(db.ledger, id, status)
  }

  // ---------- Query results ----------

  function Members(ids: seq<string>): set<string> { set id | id in ids }

  predicate Distinct(ids: seq<string>) { forall i, j | 0 <= i < j < |ids| :: ids[i] != ids[j] }

  // ---------- Record statements ----------

  /** queryHeadSQL */
  function CidsWhere(records: seq<RecordRow>, status: RecordStatus, worker: string): seq<Cid> {
    if records == [] then []
    else
      var r := records[|records| - 1];
      CidsWhere(records[..|records| - 1], status, worker) +
      if r.status == status && r.workedBy == worker then [r.cid] else []
  }

  /** updateHeadSQL, for each of a set of cids: every row with such a cid changes. */
  function Restatus(records: seq<RecordRow>, cids: set<Cid>, status: RecordStatus): seq<RecordRow> {
    seq(|records|, i requires 0 <= i < |records| =>
      if records[i].cid in cids then records[i].(status := status) else records[i])
  }

  lemma RestatusTwice(records: seq<RecordRow>, a: set<Cid>, b: set<Cid>, status: RecordStatus)
    ensures Restatus(Restatus(records, a, status), b, status) == Restatus(records, a + b, status)
  {
  }

  lemma {:induction false} CidsWhereMember(records: seq<RecordRow>, status: RecordStatus, worker: string)
    ensures forall c :: c in CidsWhere(records, status, worker) <==>
      exists i | 0 <= i < |records| :: records[i] == RecordRow(c, records[i].created, worker, status)
  {
    if records != [] {
      var n := |records| - 1;
      CidsWhereMember(records[..n], status, worker);
      forall c
        ensures c in CidsWhere(records, status, worker) <==>
          exists i | 0 <= i < |records| :: records[i] == RecordRow(c, records[i].created, worker, status)
      {
        if c in CidsWhere(records[..n], status, worker) {
          var i :| 0 <= i < n && records[..n][i] == RecordRow(c, records[..n][i].created, worker, status);
          assert records[i] == records[..n][i];
        }
        if i :| 0 <= i < |records| && records[i] == RecordRow(c, records[i].created, worker, status) {
          if i < n { assert records[..n][i] == records[i]; }
        }
      }
    }
  }
}
