/** PublishRecordsFrom and GetHead (controller/state/statedb.go) on values, and what
    they make of record_updates: one chain of updates in which no record is lost. */
module RecordChain {
  import opened Wrappers
  import opened Store
  import Text

  // ---------- The published log ----------

  predicate IsUpdate(r: RecordRow) { r.status == Latest || r.status == Previous }

  /** The cids of the update rows, oldest first. */
  function UpdateLog(records: seq<RecordRow>): seq<Cid> {
    if records == [] then []
    else
      var r := records[|records| - 1];
      UpdateLog(records[..|records| - 1]) + if IsUpdate(r) then [r.cid] else []
  }

  predicate IsUpdateCid(blocks: Blocks, c: Cid) { c in blocks && blocks[c].Update? }

  /** log[i] names an update whose Previous is log[i-1], signed; the first has none. */
  predicate LinkedAt(c: Codec, blocks: Blocks, log: seq<Cid>, i: nat)
    requires i < |log|
  {
    && IsUpdateCid(blocks, log[i])
    && blocks[log[i]].update.previous == (if i == 0 then None else Some(log[i - 1]))
    && blocks[log[i]].update.sigPrev == c.sign(if i == 0 then "" else log[i - 1])
  }

  predicate IsChain(c: Codec, blocks: Blocks, log: seq<Cid>) {
    forall i: nat | i < |log| :: LinkedAt(c, blocks, log, i)
  }

  /** The cid a record points at resolves to the kind of block its row says. */
  predicate RowResolves(blocks: Blocks, r: RecordRow) {
    && r.cid in blocks
    && (if IsUpdate(r) then blocks[r.cid].Update? && r.workedBy == "" else blocks[r.cid].Finished?)
  }

  predicate RowsResolve(blocks: Blocks, records: seq<RecordRow>) { forall r | r in records :: RowResolves(blocks, r) }

  /** Exactly the newest update row is the latest one. */
  predicate LatestIsLast(records: seq<RecordRow>) {
    var log := UpdateLog(records);
    forall r | r in records && IsUpdate(r) :: log != [] && (r.status == Latest <==> r.cid == log[|log| - 1])
  }

  predicate CreatedInOrder(records: seq<RecordRow>, clock: int) {
    && (forall i | 0 <= i < |records| :: records[i].created <= clock)
    && (forall i, j | 0 <= i < j < |records| :: records[i].created < records[j].created)
  }

  // ---------- Records that are kept out of updates ----------

  /** The five error messages whose records are attached without being published. */
  const FILTERED: seq<string> := [
    "there is an active retrieval deal with",
    "blockstore: block not found",
    "missing permission to invoke",
    "/efs/dealbot",
    "handler: websocket connection closed"
  ]

  predicate Noise(message: string) { exists i | 0 <= i < |FILTERED| :: Text.Contains(message, FILTERED[i]) }

  predicate Skipped(t: FinishedTask) { t.errorMessage.Some? && Noise(t.errorMessage.value) }

  predicate SkippedCid(blocks: Blocks, c: Cid) { IsRecordCid(blocks, c) && Skipped(blocks[c].task) }

  predicate IsRecordCid(blocks: Blocks, c: Cid) { c in blocks && blocks[c].Finished? }

  predicate InUpdate(blocks: Blocks, update: Cid, record: Cid) {
    IsUpdateCid(blocks, update) && exists a | a in blocks[update].update.records :: a.record == record
  }

  /** An attached record is in some published update, or is one of the filtered ones. */
  predicate Published(blocks: Blocks, log: seq<Cid>, record: Cid) {
    || SkippedCid(blocks, record)
    || (exists u | u in log :: InUpdate(blocks, u, record))
  }

  predicate NothingLost(blocks: Blocks, records: seq<RecordRow>) {
    forall r | r in records && r.status == Attached :: Published(blocks, UpdateLog(records), r.cid)
  }

  /** What every reachable state keeps about blocks and record_updates. */
  predicate RecordInv(c: Codec, blocks: Blocks, records: seq<RecordRow>, clock: int) {
    && Closed(c, blocks)
    && RowsResolve(blocks, records)
    && IsChain(c, blocks, UpdateLog(records))
    && LatestIsLast(records)
    && CreatedInOrder(records, clock)
    && NothingLost(blocks, records)
  }

  // ---------- The transaction ----------

  datatype Error = MissingBlock

  /** The current head; the empty string when nothing was published. */
  function Head(records: seq<RecordRow>): Cid {
    var heads := CidsWhere(records, Latest, "");
    if heads == [] then "" else heads[0]
  }

  /** The authenticated records of an update: the listed links minus the filtered ones. */
  function Authenticated(c: Codec, blocks: Blocks, lnks: seq<Cid>): seq<AuthRecord>
  {
    if lnks == [] then []
    else
      var l := lnks[|lnks| - 1];
      Authenticated(c, blocks, lnks[..|lnks| - 1]) +
      if SkippedCid(blocks, l) then [] else [AuthRecord(l, c.sign(l))]
  }

  function NewUpdate(c: Codec, blocks: Blocks, head: Cid, lnks: seq<Cid>): RecordUpdate
  {
    RecordUpdate(Authenticated(c, blocks, lnks), c.sign(head), NullIfEmpty(head))
  }

  /** record_updates after the update `uc` replaced `head` and took in the records `lnks`. */
  function Advance(records: seq<RecordRow>, lnks: set<Cid>, uc: Cid, head: Cid, now: int): seq<RecordRow> {
    var added := Restatus(records, lnks, Attached) + [RecordRow(uc, now, "", Latest)];
    if head == "" then added else Restatus(added, {head}, Previous)
  }

  function PublishTx(c: Codec, db: Tables, worker: string): Result<(Tables, Cid), Error> {
    var head := Head(db.records);
    var lnks := CidsWhere(db.records, Unattached, worker);
    if exists l | l in lnks :: !IsRecordCid(db.blocks, l) then Err(MissingBlock)
    else
      var b := Update(NewUpdate(c, db.blocks, head, lnks));
      var uc := c.cid(b);
      Ok((db.(records := Advance(db.records, Members(lnks), uc, head, db.clock + 1),
              blocks := Archive(c, db.blocks, b),
              clock := db.clock + 1), uc))
  }

  // ---------- Lemmas about the log ----------

  lemma {:induction false} LogMembers(records: seq<RecordRow>)
    ensures forall r | r in records && IsUpdate(r) :: r.cid in UpdateLog(records)
    ensures forall u | u in UpdateLog(records) :: exists r | r in records :: IsUpdate(r) && r.cid == u
  {
    if records != [] {
      var n := |records| - 1;
      LogMembers(records[..n]);
      assert records == records[..n] + [records[n]];
    }
  }

  lemma LogAppend(records: seq<RecordRow>, r: RecordRow)
    ensures UpdateLog(records + [r]) == UpdateLog(records) + if IsUpdate(r) then [r.cid] else []
  {
  }

  /** Injectivity alone makes the chain acyclic: no update occurs in it twice. */
  lemma {:induction false} ChainDistinct(c: Codec, blocks: Blocks, log: seq<Cid>, i: nat, j: nat)
    requires IsChain(c, blocks, log) && i < j < |log|
    ensures log[i] != log[j]
  {
    assert LinkedAt(c, blocks, log, i) && LinkedAt(c, blocks, log, j);
    if log[i] == log[j] && i > 0 {
      ChainDistinct(c, blocks, log, i - 1, j - 1);
    }
  }

  /** A new update that points at the head is not one of those already in the chain. */
  lemma NewUpdateIsFresh(c: Codec, blocks: Blocks, log: seq<Cid>, u: RecordUpdate)
    requires CollisionFree(c) && Closed(c, blocks) && IsChain(c, blocks, log)
    requires u.previous == if log == [] then None else Some(log[|log| - 1])
    ensures c.cid(Update(u)) !in log
  {
    if c.cid(Update(u)) in log {
      var i: nat :| i < |log| && log[i] == c.cid(Update(u));
      assert LinkedAt(c, blocks, log, i);
      assert blocks[log[i]].update == u;
      if i > 0 {
        ChainDistinct(c, blocks, log, i - 1, |log| - 1);
      }
    }
  }

  lemma HeadIsLast(c: Codec, blocks: Blocks, records: seq<RecordRow>, clock: int)
    requires CollisionFree(c) && RecordInv(c, blocks, records, clock)
    ensures var log := UpdateLog(records);
      Head(records) == if log == [] then "" else log[|log| - 1]
    ensures Head(records) == "" <==> UpdateLog(records) == []
  {
    hide IsChain, NothingLost, CreatedInOrder, UpdateLog;
    var log := UpdateLog(records);
    CidsWhereMember(records, Latest, "");
    LogMembers(records);
    var heads := CidsWhere(records, Latest, "");
    if log != [] {
      assert log[|log| - 1] in log;
      var r :| r in records && IsUpdate(r) && r.cid == log[|log| - 1];
      assert RowResolves(blocks, r);
      var i :| 0 <= i < |records| && records[i] == r;
      assert records[i] == RecordRow(r.cid, records[i].created, "", Latest);
      assert r.cid in heads && r.cid != "";
    }
    if heads != [] {
      assert heads[0] in heads;
      var i :| 0 <= i < |records| && records[i] == RecordRow(heads[0], records[i].created, "", Latest);
      assert records[i] in records;
    }
  }

  lemma {:induction false} AuthenticatedLinks(c: Codec, blocks: Blocks, lnks: seq<Cid>)
    ensures forall a | a in Authenticated(c, blocks, lnks) ::
      a.record in lnks && a.signature == c.sign(a.record) && !SkippedCid(blocks, a.record)
    ensures forall l | l in lnks && !SkippedCid(blocks, l) :: AuthRecord(l, c.sign(l)) in Authenticated(c, blocks, lnks)
  {
    if lnks != [] {
      var n := |lnks| - 1;
      AuthenticatedLinks(c, blocks, lnks[..n]);
      assert lnks == lnks[..n] + [lnks[n]];
    }
  }

  // ---------- Publishing keeps everything ----------

  /** Under the invariant the rows a publish re-labels are exactly those it means to:
      the listed records of the worker and of whoever shares their cids, and the head. */
  lemma RelabelledRows(c: Codec, db: Tables, worker: string, r: RecordRow)
    requires CollisionFree(c) && RecordInv(c, db.blocks, db.records, db.clock) && r in db.records
    ensures r.cid in CidsWhere(db.records, Unattached, worker) ==> !IsUpdate(r)
    ensures r.status == Latest <==> Head(db.records) != "" && r.cid == Head(db.records)
    ensures r.cid == Head(db.records) ==> IsUpdate(r)
  {
    var records, log := db.records, UpdateLog(db.records);
    HeadIsLast(c, db.blocks, records, db.clock);
    LogMembers(records);
    assert RowResolves(db.blocks, r);
    if r.cid in CidsWhere(records, Unattached, worker) {
      CidsWhereMember(records, Unattached, worker);
      var i :| 0 <= i < |records| && records[i] == RecordRow(r.cid, records[i].created, worker, Unattached);
      assert RowResolves(db.blocks, records[i]);
    }
    if log != [] && r.cid == log[|log| - 1] {
      assert log[|log| - 1] in log;
      var q :| q in records && IsUpdate(q) && q.cid == r.cid;
      assert RowResolves(db.blocks, q);
    }
    assert c.cid(db.blocks[r.cid]) == r.cid;
  }

  function Relabelled(r: RecordRow, lnks: set<Cid>): RecordRow {
    r.(status := if r.cid in lnks then Attached else if r.status == Latest then Previous else r.status)
  }

  lemma AdvanceRows(c: Codec, db: Tables, worker: string, uc: Cid)
    requires CollisionFree(c) && RecordInv(c, db.blocks, db.records, db.clock)
    requires uc !in UpdateLog(db.records)
    ensures var lnks := Members(CidsWhere(db.records, Unattached, worker));
      var records' := Advance(db.records, lnks, uc, Head(db.records), db.clock + 1);
      && |records'| == |db.records| + 1
      && (forall i | 0 <= i < |db.records| :: records'[i] == Relabelled(db.records[i], lnks))
      && records'[|db.records|] == RecordRow(uc, db.clock + 1, "", Latest)
  {
    var records, head := db.records, Head(db.records);
    var lnks := Members(CidsWhere(records, Unattached, worker));
    HeadIsLast(c, db.blocks, records, db.clock);
    var records' := Advance(records, lnks, uc, head, db.clock + 1);
    forall i | 0 <= i < |records|
      ensures records'[i] == Relabelled(records[i], lnks)
    {
      RelabelledRows(c, db, worker, records[i]);
    }
    assert UpdateLog(records) != [] ==> head in UpdateLog(records);
  }

  lemma {:induction false} RelabelKeepsLog(records: seq<RecordRow>, records': seq<RecordRow>, lnks: set<Cid>)
    requires |records'| == |records|
    requires forall i | 0 <= i < |records| :: records'[i] == Relabelled(records[i], lnks)
    requires forall r | r in records && r.cid in lnks :: !IsUpdate(r)
    ensures UpdateLog(records') == UpdateLog(records)
  {
    if records != [] {
      var n := |records| - 1;
      RelabelKeepsLog(records[..n], records'[..n], lnks);
      assert records[n] in records;
    }
  }

  /** The log grows by the new update. */
  lemma AdvanceLog(c: Codec, db: Tables, worker: string, uc: Cid)
    requires CollisionFree(c) && RecordInv(c, db.blocks, db.records, db.clock)
    requires uc !in UpdateLog(db.records)
    ensures var lnks := Members(CidsWhere(db.records, Unattached, worker));
      UpdateLog(Advance(db.records, lnks, uc, Head(db.records), db.clock + 1)) == UpdateLog(db.records) + [uc]
  {
    var records := db.records;
    var lnks := Members(CidsWhere(records, Unattached, worker));
    var records' := Advance(records, lnks, uc, Head(records), db.clock + 1);
    AdvanceRows(c, db, worker, uc);
    forall r | r in records && r.cid in lnks
      ensures !IsUpdate(r)
    {
      RelabelledRows(c, db, worker, r);
    }
    var n := |records|;
    RelabelKeepsLog(records, records'[..n], lnks);
    assert records' == records'[..n] + [records'[n]];
    LogAppend(records'[..n], records'[n]);
  }

  lemma RelabelledKind(r: RecordRow, lnks: set<Cid>)
    ensures Relabelled(r, lnks).status != Latest && Relabelled(r, lnks).cid == r.cid
    ensures IsUpdate(Relabelled(r, lnks)) ==> IsUpdate(r)
  {
  }

  /** And the new update is the only latest row. */
  lemma AdvanceLatest(records: seq<RecordRow>, records': seq<RecordRow>, lnks: set<Cid>, uc: Cid, now: int)
    requires |records'| == |records| + 1 && records'[|records|] == RecordRow(uc, now, "", Latest)
    requires forall i | 0 <= i < |records| :: records'[i] == Relabelled(records[i], lnks)
    requires uc !in UpdateLog(records) && UpdateLog(records') == UpdateLog(records) + [uc]
    ensures LatestIsLast(records')
  {
    hide Relabelled, UpdateLog;
    LogMembers(records);
    forall r | r in records' && IsUpdate(r)
      ensures r.status == Latest <==> r.cid == uc
    {
      var i :| 0 <= i < |records'| && records'[i] == r;
      if i < |records| {
        RelabelledKind(records[i], lnks);
        assert records[i] in records;
        assert records[i].cid in UpdateLog(records);
      }
    }
    assert UpdateLog(records')[|UpdateLog(records')| - 1] == uc;
  }

  lemma PublishedMonotone(blocks: Blocks, blocks': Blocks, log: seq<Cid>, log': seq<Cid>, record: Cid)
    requires Extends(blocks, blocks') && Published(blocks, log, record) && (forall u | u in log :: u in log')
    ensures Published(blocks', log', record)
  {
  }

  /** The chain stays a chain when blocks are added, and grows by an update that points at its end. */
  lemma ChainGrows(c: Codec, blocks: Blocks, blocks': Blocks, log: seq<Cid>, u: RecordUpdate)
    requires IsChain(c, blocks, log) && Extends(blocks, blocks')
    requires u.previous == (if log == [] then None else Some(log[|log| - 1]))
    requires u.sigPrev == c.sign(if log == [] then "" else log[|log| - 1])
    ensures IsChain(c, blocks', log)
    ensures c.cid(Update(u)) in blocks' && blocks'[c.cid(Update(u))] == Update(u) ==>
      IsChain(c, blocks', log + [c.cid(Update(u))])
  {
    forall i: nat | i < |log|
      ensures LinkedAt(c, blocks', log, i)
    {
      assert LinkedAt(c, blocks, log, i);
    }
    var uc := c.cid(Update(u));
    if uc in blocks' && blocks'[uc] == Update(u) {
      forall i: nat | i < |log + [uc]|
        ensures LinkedAt(c, blocks', log + [uc], i)
      {
        if i < |log| { assert LinkedAt(c, blocks', log, i); }
      }
    }
  }

  lemma ListedAreStored(blocks: Blocks, records: seq<RecordRow>, worker: string)
    requires RowsResolve(blocks, records)
    ensures forall l | l in CidsWhere(records, Unattached, worker) :: IsRecordCid(blocks, l)
  {
    CidsWhereMember(records, Unattached, worker);
    forall l | l in CidsWhere(records, Unattached, worker)
      ensures IsRecordCid(blocks, l)
    {
      var i :| 0 <= i < |records| && records[i] == RecordRow(l, records[i].created, worker, Unattached);
      assert RowResolves(blocks, records[i]);
    }
  }

  lemma NewUpdateLinks(c: Codec, blocks: Blocks, log: seq<Cid>, lnks: seq<Cid>)
    requires forall l | l in lnks :: IsRecordCid(blocks, l)
    requires log != [] ==> IsUpdateCid(blocks, log[|log| - 1])
    ensures Links(blocks, Update(NewUpdate(c, blocks, if log == [] then "" else log[|log| - 1], lnks)))
  {
    AuthenticatedLinks(c, blocks, lnks);
    var records := Authenticated(c, blocks, lnks);
    forall i | 0 <= i < |records|
      ensures IsRecordCid(blocks, records[i].record)
    {
      assert records[i] in records;
    }
  }

  /** The update a publish builds: it points at the head and links only stored records. */
  lemma NewUpdateShape(c: Codec, db: Tables, worker: string)
    requires CollisionFree(c) && RecordInv(c, db.blocks, db.records, db.clock)
    ensures var lnks, log := CidsWhere(db.records, Unattached, worker), UpdateLog(db.records);
      var u := NewUpdate(c, db.blocks, Head(db.records), lnks);
      && (forall l | l in lnks :: IsRecordCid(db.blocks, l))
      && Links(db.blocks, Update(u))
      && u.previous == (if log == [] then None else Some(log[|log| - 1]))
      && u.sigPrev == c.sign(if log == [] then "" else log[|log| - 1])
      && c.cid(Update(u)) !in log
  {
    hide Authenticated, CidsWhere, Head, UpdateLog, NothingLost, CreatedInOrder, LatestIsLast, Links;
    var lnks, log := CidsWhere(db.records, Unattached, worker), UpdateLog(db.records);
    var u := NewUpdate(c, db.blocks, Head(db.records), lnks);
    ListedAreStored(db.blocks, db.records, worker);
    HeadIsLast(c, db.blocks, db.records, db.clock);
    if log != [] { assert LinkedAt(c, db.blocks, log, |log| - 1); }
    NewUpdateLinks(c, db.blocks, log, lnks);
    NewUpdateIsFresh(c, db.blocks, log, u);
  }

  /** One row across a publish: it still resolves, and if it is attached it is published. */
  lemma RowAfterPublish(c: Codec, db: Tables, worker: string, blocks': Blocks, uc: Cid, r: RecordRow)
    requires CollisionFree(c) && RecordInv(c, db.blocks, db.records, db.clock) && r in db.records
    requires Extends(db.blocks, blocks') && uc in blocks'
    requires blocks'[uc] == Update(NewUpdate(c, db.blocks, Head(db.records), CidsWhere(db.records, Unattached, worker)))
    ensures var r' := Relabelled(r, Members(CidsWhere(db.records, Unattached, worker)));
      && RowResolves(blocks', r')
      && (r'.status == Attached ==> Published(blocks', UpdateLog(db.records) + [uc], r.cid))
  {
    hide CidsWhere, Head, Authenticated, IsChain, CreatedInOrder, LatestIsLast, Closed;
    var links, log := CidsWhere(db.records, Unattached, worker), UpdateLog(db.records);
    var r' := Relabelled(r, Members(links));
    assert RowResolves(db.blocks, r);
    RelabelledRows(c, db, worker, r);
    if r.cid in links {
      AuthenticatedLinks(c, db.blocks, links);
      if !SkippedCid(db.blocks, r.cid) {
        assert AuthRecord(r.cid, c.sign(r.cid)) in blocks'[uc].update.records;
        assert InUpdate(blocks', uc, r.cid) && uc in log + [uc];
      }
    } else if r'.status == Attached {
      PublishedMonotone(db.blocks, blocks', log, log + [uc], r.cid);
    }
  }

  lemma RowsAfterPublish(c: Codec, db: Tables, worker: string, blocks': Blocks, uc: Cid)
    requires CollisionFree(c) && RecordInv(c, db.blocks, db.records, db.clock)
    requires uc !in UpdateLog(db.records) && Extends(db.blocks, blocks') && uc in blocks'
    requires blocks'[uc] == Update(NewUpdate(c, db.blocks, Head(db.records), CidsWhere(db.records, Unattached, worker)))
    ensures var lnks := Members(CidsWhere(db.records, Unattached, worker));
      var records' := Advance(db.records, lnks, uc, Head(db.records), db.clock + 1);
      && RowsResolve(blocks', records')
      && CreatedInOrder(records', db.clock + 1)
      && NothingLost(blocks', records')
  {
    var lnks := Members(CidsWhere(db.records, Unattached, worker));
    var records' := Advance(db.records, lnks, uc, Head(db.records), db.clock + 1);
    AdvanceRows(c, db, worker, uc);
    AdvanceLog(c, db, worker, uc);
    forall r | r in records'
      ensures RowResolves(blocks', r)
      ensures r.status == Attached ==> Published(blocks', UpdateLog(db.records) + [uc], r.cid)
    {
      var i :| 0 <= i < |records'| && records'[i] == r;
      if i < |db.records| {
        assert db.records[i] in db.records;
        RowAfterPublish(c, db, worker, blocks', uc, db.records[i]);
      }
    }
    CreatedAfterPublish(db.records, records', lnks, db.clock);
  }

  lemma CreatedAfterPublish(records: seq<RecordRow>, records': seq<RecordRow>, lnks: set<Cid>, clock: int)
    requires CreatedInOrder(records, clock)
    requires |records'| == |records| + 1 && records'[|records|].created == clock + 1
    requires forall i | 0 <= i < |records| :: records'[i] == Relabelled(records[i], lnks)
    ensures CreatedInOrder(records', clock + 1)
  {
  }

  /** Publishing for any worker succeeds in every reachable state and keeps the whole
      invariant: one chain, one latest row, every link resolved, no record lost. Its
      result names the new end of the chain. */
  lemma PublishKeepsInv(c: Codec, db: Tables, worker: string)
    requires CollisionFree(c) && RecordInv(c, db.blocks, db.records, db.clock)
    ensures PublishTx(c, db, worker).Ok?
    ensures var (db', uc) := PublishTx(c, db, worker).value;
      && RecordInv(c, db'.blocks, db'.records, db'.clock)
      && Extends(db.blocks, db'.blocks)
      && UpdateLog(db'.records) == UpdateLog(db.records) + [uc]
  {
    hide UpdateLog, Head, CidsWhere, Authenticated, Restatus, LinkedAt, Published;
    var lnks := CidsWhere(db.records, Unattached, worker);
    NewUpdateShape(c, db, worker);
    var u := NewUpdate(c, db.blocks, Head(db.records), lnks);
    var (db', uc) := PublishTx(c, db, worker).value;
    ArchiveKeepsClosed(c, db.blocks, Update(u));
    ChainGrows(c, db.blocks, db'.blocks, UpdateLog(db.records), u);
    AdvanceRows(c, db, worker, uc);
    AdvanceLog(c, db, worker, uc);
    AdvanceLatest(db.records, db'.records, Members(lnks), uc, db.clock + 1);
    RowsAfterPublish(c, db, worker, db'.blocks, uc);
  }

  /** What a publish does to each row: the worker's unattached records, and any record
      sharing a cid with one of them, become attached; the head becomes a previous
      update; nothing else moves. So none of the worker's records stays unattached. */
  lemma PublishRows(c: Codec, db: Tables, worker: string)
    requires CollisionFree(c) && RecordInv(c, db.blocks, db.records, db.clock)
    ensures PublishTx(c, db, worker).Ok?
    ensures var (db', uc) := PublishTx(c, db, worker).value;
      var lnks := Members(CidsWhere(db.records, Unattached, worker));
      && |db'.records| == |db.records| + 1
      && (forall i | 0 <= i < |db.records| :: db'.records[i] == Relabelled(db.records[i], lnks))
      && CidsWhere(db'.records, Unattached, worker) == []
  {
    NewUpdateShape(c, db, worker);
    var (db', uc) := PublishTx(c, db, worker).value;
    AdvanceRows(c, db, worker, uc);
    NoneLeft(db.records, db'.records, worker, uc, db.clock + 1);
  }

  lemma NoneLeft(records: seq<RecordRow>, records': seq<RecordRow>, worker: string, uc: Cid, now: int)
    requires |records'| == |records| + 1 && records'[|records|] == RecordRow(uc, now, "", Latest)
    requires var lnks := Members(CidsWhere(records, Unattached, worker));
      forall i | 0 <= i < |records| :: records'[i] == Relabelled(records[i], lnks)
    ensures CidsWhere(records', Unattached, worker) == []
  {
    hide CidsWhere, UpdateLog;
    CidsWhereMember(records, Unattached, worker);
    forall r | r in records'
      ensures r.status != Unattached || r.workedBy != worker
    {
      var i :| 0 <= i < |records'| && records'[i] == r;
      if i < |records| && records[i].status == Unattached && records[i].workedBy == worker {
        assert records[i] == RecordRow(records[i].cid, records[i].created, worker, Unattached);
      }
    }
    NoRowNoCid(records', Unattached, worker);
  }

  lemma {:induction false} NoRowNoCid(records: seq<RecordRow>, status: RecordStatus, worker: string)
    requires forall r | r in records :: r.status != status || r.workedBy != worker
    ensures CidsWhere(records, status, worker) == []
  {
    if records != [] {
      NoRowNoCid(records[..|records| - 1], status, worker);
      assert records[|records| - 1] in records;
    }
  }

  /** The row is the worker's, still unattached, and its record is not filtered. */
  predicate IsDue(blocks: Blocks, r: RecordRow, worker: string) {
    r.status == Unattached && r.workedBy == worker && !SkippedCid(blocks, r.cid)
  }

  function DueRows(blocks: Blocks, records: seq<RecordRow>, worker: string): set<int> {
    set n | 0 <= n < |records| && IsDue(blocks, records[n], worker)
  }

  lemma DueRowsSnoc(blocks: Blocks, records: seq<RecordRow>, r: RecordRow, worker: string)
    ensures |DueRows(blocks, records + [r], worker)| ==
      |DueRows(blocks, records, worker)| + if IsDue(blocks, r, worker) then 1 else 0
  {
    hide IsDue;
    var due, due', n := DueRows(blocks, records, worker), DueRows(blocks, records + [r], worker), |records|;
    assert n !in due && due' == if IsDue(blocks, r, worker) then due + {n} else due;
  }

  lemma {:induction false} PublishedCount(c: Codec, blocks: Blocks, records: seq<RecordRow>, worker: string)
    ensures |Authenticated(c, blocks, CidsWhere(records, Unattached, worker))| == |DueRows(blocks, records, worker)|
  {
    hide SkippedCid;
    if records == [] {
      assert DueRows(blocks, [], worker) == {};
    } else {
      var n := |records| - 1;
      var before, r := CidsWhere(records[..n], Unattached, worker), records[n];
      PublishedCount(c, blocks, records[..n], worker);
      DueRowsSnoc(blocks, records[..n], r, worker);
      assert records[..n] + [r] == records;
      assert (before + [r.cid])[..|before|] == before && before + [] == before;
      assert Authenticated(c, blocks, before + [r.cid]) ==
        Authenticated(c, blocks, before) + if SkippedCid(blocks, r.cid) then [] else [AuthRecord(r.cid, c.sign(r.cid))];
    }
  }

  /** The update published holds exactly the worker's unattached records that are not
      filtered, each signed. */
  lemma PublishedContents(c: Codec, db: Tables, worker: string, a: AuthRecord)
    requires CollisionFree(c) && RecordInv(c, db.blocks, db.records, db.clock)
    ensures PublishTx(c, db, worker).Ok?
    ensures var (db', uc) := PublishTx(c, db, worker).value;
      && IsUpdateCid(db'.blocks, uc)
      && (a in db'.blocks[uc].update.records <==>
          && a.record in CidsWhere(db.records, Unattached, worker)
          && !SkippedCid(db.blocks, a.record)
          && a.signature == c.sign(a.record))
      && |db'.blocks[uc].update.records| == |DueRows(db.blocks, db.records, worker)|
  {
    PublishedCount(c, db.blocks, db.records, worker);
    var lnks := CidsWhere(db.records, Unattached, worker);
    NewUpdateShape(c, db, worker);
    ArchiveKeepsClosed(c, db.blocks, Update(NewUpdate(c, db.blocks, Head(db.records), lnks)));
    AuthenticatedLinks(c, db.blocks, lnks);
  }

  /** Two update rows never carry the same cid, and at most one row is the latest. */
  lemma {:induction false} UpdateRowsDistinct(c: Codec, blocks: Blocks, records: seq<RecordRow>, i: nat, j: nat)
    requires IsChain(c, blocks, UpdateLog(records))
    requires i < j < |records| && IsUpdate(records[i]) && IsUpdate(records[j])
    ensures records[i].cid != records[j].cid
  {
    var n := |records| - 1;
    var before, log := UpdateLog(records[..n]), UpdateLog(records);
    assert forall k: nat | k < |before| :: LinkedAt(c, blocks, log, k) ==> LinkedAt(c, blocks, before, k);
    if j < n {
      UpdateRowsDistinct(c, blocks, records[..n], i, j);
    } else {
      LogMembers(records[..n]);
      assert records[..n][i] == records[i] && records[i] in records[..n];
      var k: nat :| k < |before| && before[k] == records[i].cid;
      ChainDistinct(c, blocks, log, k, |before|);
    }
  }

  lemma AtMostOneLatest(c: Codec, blocks: Blocks, records: seq<RecordRow>, clock: int, i: nat, j: nat)
    requires RecordInv(c, blocks, records, clock)
    requires i < j < |records| && records[i].status == Latest
    ensures records[j].status != Latest
  {
    assert records[i] in records && records[j] in records;
    if records[j].status == Latest {
      UpdateRowsDistinct(c, blocks, records, i, j);
    }
  }

  // ---------- Walking back ----------

  /** The update n links behind c, if every link on the way resolves to an update. */
  function Walk(blocks: Blocks, c: Option<Cid>, n: nat): Option<Cid>
    decreases n
  {
    if c.None? || !IsUpdateCid(blocks, c.value) then None
    else if n == 0 then c
    else Walk(blocks, blocks[c.value].update.previous, n - 1)
  }

  lemma {:induction false} WalkTheLog(c: Codec, blocks: Blocks, log: seq<Cid>, from: nat, k: nat)
    requires IsChain(c, blocks, log) && from < |log|
    ensures Walk(blocks, Some(log[from]), k) == if k <= from then Some(log[from - k]) else None
  {
    assert LinkedAt(c, blocks, log, from);
    if k > 0 && from > 0 { WalkTheLog(c, blocks, log, from - 1, k - 1); }
  }

  /** Walking k links back from the head reaches the k-th newest published update, and
      fails exactly when fewer than k+1 were ever published. */
  lemma HeadWalk(c: Codec, blocks: Blocks, records: seq<RecordRow>, clock: int, k: nat)
    requires CollisionFree(c) && RecordInv(c, blocks, records, clock)
    ensures var log := UpdateLog(records);
      Walk(blocks, NullIfEmpty(Head(records)), k) == if k < |log| then Some(log[|log| - 1 - k]) else None
  {
    var log := UpdateLog(records);
    HeadIsLast(c, blocks, records, clock);
    if log != [] { WalkTheLog(c, blocks, log, |log| - 1, k); }
  }

  /** A finishing update adds one unattached row and its blocks; the invariant stays. */
  lemma AddRecordKeepsInv(c: Codec, blocks: Blocks, blocks': Blocks, records: seq<RecordRow>, clock: int, r: RecordRow)
    requires RecordInv(c, blocks, records, clock) && Extends(blocks, blocks') && Closed(c, blocks')
    requires r.status == Unattached && r.created > clock && IsRecordCid(blocks', r.cid)
    ensures RecordInv(c, blocks', records + [r], r.created) && UpdateLog(records + [r]) == UpdateLog(records)
  {
    hide LinkedAt, Closed, Published;
    BlocksKeepInv(c, blocks, blocks', records, clock);
    assert RecordInv(c, blocks', records, clock);
    LogAppend(records, r);
    var records' := records + [r];
    assert UpdateLog(records') == UpdateLog(records);
    assert IsChain(c, blocks', UpdateLog(records'));
    forall q | q in records'
      ensures RowResolves(blocks', q)
      ensures IsUpdate(q) || q.status == Attached ==> q in records
    {
      if q in records { assert RowResolves(blocks', q); }
    }
  }

  /** More blocks and a later clock disturb nothing. */
  lemma BlocksKeepInv(c: Codec, blocks: Blocks, blocks': Blocks, records: seq<RecordRow>, clock: int)
    requires RecordInv(c, blocks, records, clock) && Extends(blocks, blocks') && Closed(c, blocks')
    ensures forall later | later >= clock :: RecordInv(c, blocks', records, later)
  {
    hide Published, Closed, UpdateLog;
    var log := UpdateLog(records);
    forall r | r in records
      ensures RowResolves(blocks', r)
    {
      assert RowResolves(blocks, r);
    }
    forall i: nat | i < |log|
      ensures LinkedAt(c, blocks', log, i)
    {
      assert LinkedAt(c, blocks, log, i);
    }
    forall r | r in records && r.status == Attached
      ensures Published(blocks', log, r.cid)
    {
      PublishedMonotone(blocks, blocks', log, log, r.cid);
    }
  }

  /** Archiving the stages of a task disturbs nothing. */
  lemma ArchiveEventsKeepsInv(c: Codec, blocks: Blocks, events: Block, records: seq<RecordRow>, clock: int)
    requires CollisionFree(c) && RecordInv(c, blocks, records, clock) && events.Events?
    ensures Extends(blocks, Archive(c, blocks, events))
    ensures c.cid(events) in Archive(c, blocks, events) && Archive(c, blocks, events)[c.cid(events)] == events
    ensures forall later | later >= clock :: RecordInv(c, Archive(c, blocks, events), records, later)
  {
    ArchiveKeepsClosed(c, blocks, events);
    BlocksKeepInv(c, blocks, Archive(c, blocks, events), records, clock);
  }
}
