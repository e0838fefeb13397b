/** The second chain (controller/publisher/pando_publisher.go): every completed batch of
    records is announced to Pando by a metadata block that links the record update and the
    metadata announced before it. */
module Pando {
  import opened Wrappers
  import opened Store
  import opened Controller
  import opened RecordChain
  import RecordRuns

  datatype Meta = Meta(payload: Cid, previous: Option<Cid>)

  /** The hash of metadata blocks, left open; the key of the latest link is none of its values. */
  type Hash = Meta -> Cid

  ghost predicate Injective(hash: Hash) { forall a, b :: hash(a) == hash(b) ==> a == b }

  /** Where a call to the outside fails, if it does. */
  datatype Failure = NoFailure | Listen | ReadLatest | StoreMeta | WriteLatest | Announce

  /** `metas` and `latest` are in the datastore and survive the process; the legs publisher
      and the root it serves do not. */
  datatype State = State(metas: map<Cid, Meta>, latest: Option<Cid>, started: bool, root: Option<Cid>)

  const NEW: State := State(map[], None, false, None)

  datatype Error = AlreadyStarted | NotStarted | Failed(at: Failure)

  // ---------- The two operations ----------

  function StartStep(s: State, fails: Failure): State {
    if s.started || fails == Listen then s
    else if fails == ReadLatest || fails == Announce || s.latest.None? then s.(started := true)
    else s.(started := true, root := s.latest)
  }

  function PublishMeta(s: State, hash: Hash, c: Cid, fails: Failure): State {
    if !s.started || fails == ReadLatest || fails == StoreMeta then s
    else
      var m := Meta(c, s.latest);
      var stored := s.(metas := s.metas[hash(m) := m]);
      if fails == WriteLatest then stored
      else if fails == Announce then stored.(latest := Some(hash(m)))
      else stored.(latest := Some(hash(m)), root := Some(hash(m)))
  }

  /** The publish of c reaches the persisted latest link. */
  predicate Passes(s: State, fails: Failure) { s.started && fails !in {ReadLatest, StoreMeta, WriteLatest} }

  class PandoPublisher {
    const hash: Hash
    var metas: map<Cid, Meta>
    var latest: Option<Cid>
    var started: bool
    var root: Option<Cid>

    function View(): State
      reads this
    {
      State(metas, latest, started, root)
    }

    /** A new process over a datastore. */
    constructor (hash: Hash, metas: map<Cid, Meta>, latest: Option<Cid>)
      ensures View() == State(metas, latest, false, None) && this.hash == hash
    {
      this.hash, this.metas, this.latest := hash, metas, latest;
      started, root := false, None;
    }

    /** Start. Once the legs publisher exists a later failure is returned, but the publisher
        counts as started. */
    method Start(fails: Failure) returns (error: Option<Error>)
      modifies this
      ensures View() == StartStep(old(View()), fails)
      ensures metas == old(metas) && latest == old(latest) && (started <==> old(started) || fails != Listen)
      ensures error.None? <==> !old(started) && fails !in {Listen, ReadLatest} && (fails == Announce ==> latest.None?)
      ensures error.Some? ==> error.value == if old(started) then AlreadyStarted else Failed(fails)
      ensures error.None? ==> started && (latest.Some? ==> root == latest)
    {
      if started {
        return Some(AlreadyStarted);
      }
      if fails == Listen {
        return Some(Failed(Listen));
      }
      started := true;
      if fails == ReadLatest {
        return Some(Failed(ReadLatest));
      }
      if latest.Some? {
        if fails == Announce {
          return Some(Failed(Announce));
        }
        root := latest;
      }
      return None;
    }

    method Publish(c: Cid, fails: Failure) returns (error: Option<Error>)
      modifies this
      ensures View() == PublishMeta(old(View()), hash, c, fails)
      ensures error.None? <==> old(started) && fails in {NoFailure, Listen}
      ensures error.Some? ==> error.value == if old(started) then Failed(fails) else NotStarted
      ensures error.None? ==> latest == Some(hash(Meta(c, old(latest)))) && root == latest
    {
      if !started {
        return Some(NotStarted);
      }
      if fails == ReadLatest {
        return Some(Failed(ReadLatest));
      }
      var previous := latest;
      var m := Meta(c, previous);
      if fails == StoreMeta {
        return Some(Failed(StoreMeta));
      }
      metas := metas[hash(m) := m];
      if fails == WriteLatest {
        return Some(Failed(WriteLatest));
      }
      latest := Some(hash(m));
      if fails == Announce {
        return Some(Failed(Announce));
      }
      root := latest;
      return None;
    }
  }

  // ---------- The chain of metadata ----------

  /** names[i] is the metadata that announced passed[i], linked to the one before. */
  predicate MetaAt(metas: map<Cid, Meta>, names: seq<Cid>, passed: seq<Cid>, i: nat)
    requires i < |names| == |passed|
  {
    names[i] in metas && metas[names[i]] == Meta(passed[i], if i == 0 then None else Some(names[i - 1]))
  }

  predicate MetaChain(metas: map<Cid, Meta>, names: seq<Cid>, passed: seq<Cid>) {
    |names| == |passed| && forall i: nat | i < |names| :: MetaAt(metas, names, passed, i)
  }

  /** The persisted chain announces exactly the updates whose publish passed, in order; every
      block is stored under its own name; the root served is some block of the chain. */
  ghost predicate PandoInv(s: State, hash: Hash, names: seq<Cid>, passed: seq<Cid>) {
    && MetaChain(s.metas, names, passed)
    && s.latest == (if names == [] then None else Some(names[|names| - 1]))
    && (forall k | k in s.metas :: hash(s.metas[k]) == k)
    && (s.root.Some? ==> s.root.value in names)
  }

  lemma PublishKeepsChain(s: State, hash: Hash, names: seq<Cid>, passed: seq<Cid>, c: Cid, fails: Failure)
    requires Injective(hash) && PandoInv(s, hash, names, passed)
    ensures var s' := PublishMeta(s, hash, c, fails);
      if Passes(s, fails) then PandoInv(s', hash, names + [hash(Meta(c, s.latest))], passed + [c])
      else PandoInv(s', hash, names, passed)
  {
    var s' := PublishMeta(s, hash, c, fails);
    var m := Meta(c, s.latest);
    forall i: nat | i < |names|
      ensures MetaAt(s'.metas, names, passed, i)
    {
      assert MetaAt(s.metas, names, passed, i) && hash(s.metas[names[i]]) == names[i];
    }
    if Passes(s, fails) {
      var names', passed' := names + [hash(m)], passed + [c];
      forall i: nat | i < |names'|
        ensures MetaAt(s'.metas, names', passed', i)
      {
        if i < |names| { assert MetaAt(s'.metas, names, passed, i); }
      }
    }
  }

  /** The metadata n links behind c. */
  function MetaWalk(metas: map<Cid, Meta>, c: Option<Cid>, n: nat): Option<Cid>
    decreases n
  {
    if c.None? || c.value !in metas then None
    else if n == 0 then c
    else MetaWalk(metas, metas[c.value].previous, n - 1)
  }

  lemma {:induction false} MetaWalkTheChain(metas: map<Cid, Meta>, names: seq<Cid>, passed: seq<Cid>, from: nat, n: nat)
    requires MetaChain(metas, names, passed) && from < |names|
    ensures MetaWalk(metas, Some(names[from]), n) == if n <= from then Some(names[from - n]) else None
  {
    assert MetaAt(metas, names, passed, from);
    if n > 0 && from > 0 { MetaWalkTheChain(metas, names, passed, from - 1, n - 1); }
  }

  // ---------- What a reader of the chain finds ----------

  /** From the latest metadata, n links back and then through its payload k links back, one
      comes to u. */
  ghost predicate Finds(s: State, blocks: Blocks, n: nat, k: nat, u: Cid) {
    var m := MetaWalk(s.metas, s.latest, n);
    m.Some? && m.value in s.metas && Walk(blocks, Some(s.metas[m.value].payload), k) == Some(u)
  }

  ghost predicate Reachable(s: State, blocks: Blocks, u: Cid) { exists n, k :: Finds(s, blocks, n, k, u) }

  /** What the reader meets first at depth n is exactly what passed n publishes ago. */
  lemma PayloadAt(s: State, hash: Hash, names: seq<Cid>, passed: seq<Cid>, n: nat)
    requires PandoInv(s, hash, names, passed)
    ensures var m := MetaWalk(s.metas, s.latest, n);
      && (m.Some? <==> n < |passed|)
      && (m.Some? ==> m.value in s.metas && s.metas[m.value].payload == passed[|passed| - 1 - n])
  {
    if names != [] {
      MetaWalkTheChain(s.metas, names, passed, |names| - 1, n);
      if n < |names| { assert MetaAt(s.metas, names, passed, |names| - 1 - n); }
    }
  }

  /** In terms of the store's own chain: an update can be reached from the persisted latest
      metadata exactly when it, or one that follows it in the chain, passed. */
  lemma ReachableIffPassed(c: Codec, hash: Hash, db: Tables, s: State, names: seq<Cid>, passed: seq<Cid>, i: nat)
    requires RecordInv(c, db.blocks, db.records, db.clock) && PandoInv(s, hash, names, passed)
    requires (forall p | p in passed :: p in UpdateLog(db.records)) && i < |UpdateLog(db.records)|
    ensures var log := UpdateLog(db.records);
      Reachable(s, db.blocks, log[i]) <==> exists j: nat | i <= j < |log| :: log[j] in passed
  {
    hide UpdateLog, PandoInv, Walk, MetaWalk, LinkedAt, NothingLost, RowsResolve, Closed;
    var log := UpdateLog(db.records);
    if Reachable(s, db.blocks, log[i]) {
      var n, k :| Finds(s, db.blocks, n, k, log[i]);
      PayloadAt(s, hash, names, passed, n);
      var p := passed[|passed| - 1 - n];
      assert p in passed;
      var j: nat :| j < |log| && log[j] == p;
      WalkTheLog(c, db.blocks, log, j, k);
      if j - k < i {
        ChainDistinct(c, db.blocks, log, j - k, i);
      } else if i < j - k {
        ChainDistinct(c, db.blocks, log, i, j - k);
      }
      assert i <= j && log[j] in passed;
    }
    if j: nat :| i <= j < |log| && log[j] in passed {
      var q: nat :| q < |passed| && passed[q] == log[j];
      PayloadAt(s, hash, names, passed, |passed| - 1 - q);
      WalkTheLog(c, db.blocks, log, j, j - i);
      assert Finds(s, db.blocks, |passed| - 1 - q, j - i, log[i]);
    }
  }

  // ---------- Store and publisher together ----------

  /** Publishing an update is asked only for one that a completed batch returned, but the
      requests of different workers come in any order, may be repeated, and may fail. A
      crash takes the publisher down with the rest of the process. */
  datatype Event = Controller(op: Op) | StartPublisher(fails: Failure) | PublishUpdate(update: Cid, fails: Failure)

  datatype System = System(world: World, pando: State, passed: seq<Cid>)

  const BEGIN: System := System(START, NEW, [])

  function Next(env: Env, hash: Hash, s: System, e: Event): System {
    match e
    case Controller(op) =>
      s.(world := Apply(env, s.world, op),
         pando := if op.Crash? then s.pando.(started := false, root := None) else s.pando)
    case StartPublisher(fails) => s.(pando := StartStep(s.pando, fails))
    case PublishUpdate(c, fails) =>
      if c !in UpdateLog(s.world.db.records) then s
      else
        s.(pando := PublishMeta(s.pando, hash, c, fails),
           passed := s.passed + if Passes(s.pando, fails) then [c] else [])
  }

  function History(env: Env, hash: Hash, s: System, events: seq<Event>): System {
    if events == [] then s else Next(env, hash, History(env, hash, s, events[..|events| - 1]), events[|events| - 1])
  }

  predicate Allowed(e: Event) { e.Controller? ==> Admissible(e.op) }

  ghost predicate SystemInv(env: Env, hash: Hash, s: System) {
    && Inv(env, s.world)
    && (exists names :: PandoInv(s.pando, hash, names, s.passed))
    && (forall c | c in s.passed :: c in UpdateLog(s.world.db.records))
  }

  /** What passed stays passed, and the store's chain only grows. */
  predicate Grows(s: System, s': System) {
    && (forall c | c in s.passed :: c in s'.passed)
    && UpdateLog(s.world.db.records) <= UpdateLog(s'.world.db.records)
  }

  lemma StartKeepsChain(s: State, hash: Hash, names: seq<Cid>, passed: seq<Cid>, fails: Failure)
    requires PandoInv(s, hash, names, passed)
    ensures PandoInv(StartStep(s, fails), hash, names, passed)
    ensures PandoInv(s.(started := false, root := None), hash, names, passed)
  {
  }

  lemma WorldGrows(env: Env, w: World, op: Op)
    requires CollisionFree(env.codec) && Inv(env, w) && Admissible(op)
    ensures Inv(env, Apply(env, w, op))
    ensures UpdateLog(w.db.records) <= UpdateLog(Apply(env, w, op).db.records)
  {
    hide Inv, Apply, UpdateLog, RecordRuns.RecordsAdvance, RecordInv;
    ApplyKeepsInv(env, w, op);
    RecordRuns.InvParts(env, w);
    RecordRuns.ApplyIsRecordStep(env, w, op);
  }

  lemma NextKeepsInv(env: Env, hash: Hash, s: System, e: Event)
    requires CollisionFree(env.codec) && Injective(hash) && SystemInv(env, hash, s) && Allowed(e)
    ensures SystemInv(env, hash, Next(env, hash, s, e)) && Grows(s, Next(env, hash, s, e))
  {
    hide Inv, Apply, UpdateLog, PandoInv, PublishMeta, StartStep, Admissible, Passes;
    var names :| PandoInv(s.pando, hash, names, s.passed);
    match e
    case Controller(op) =>
      WorldGrows(env, s.world, op);
      StartKeepsChain(s.pando, hash, names, s.passed, NoFailure);
    case StartPublisher(fails) => StartKeepsChain(s.pando, hash, names, s.passed, fails);
    case PublishUpdate(c, fails) =>
      PublishKeepsChain(s.pando, hash, names, s.passed, c, fails);
      assert s.passed + [] == s.passed;
  }

  lemma {:induction false} HistoryInv(env: Env, hash: Hash, s: System, events: seq<Event>)
    requires CollisionFree(env.codec) && Injective(hash) && SystemInv(env, hash, s)
    requires forall e | e in events :: Allowed(e)
    ensures SystemInv(env, hash, History(env, hash, s, events)) && Grows(s, History(env, hash, s, events))
  {
    hide SystemInv, Next, Allowed, UpdateLog;
    if events != [] {
      var before := events[..|events| - 1];
      HistoryInv(env, hash, s, before);
      NextKeepsInv(env, hash, History(env, hash, s, before), events[|events| - 1]);
    }
  }

  lemma BeginInv(env: Env, hash: Hash)
    ensures SystemInv(env, hash, BEGIN)
  {
    StartInv(env);
    assert PandoInv(NEW, hash, [], []);
  }

  /** From the very beginning, whatever completes, fails, crashes or restarts: an update of
      the store's chain is reachable from the persisted Pando latest exactly when it, or a
      later one, was ever published as far as that link. */
  lemma PandoReachesExactly(env: Env, hash: Hash, events: seq<Event>, i: nat)
    requires CollisionFree(env.codec) && Injective(hash) && forall e | e in events :: Allowed(e)
    requires i < |UpdateLog(History(env, hash, BEGIN, events).world.db.records)|
    ensures var s := History(env, hash, BEGIN, events);
      var log := UpdateLog(s.world.db.records);
      Reachable(s.pando, s.world.db.blocks, log[i]) <==> exists j: nat | i <= j < |log| :: log[j] in s.passed
  {
    hide History, UpdateLog, RecordInv, Inv, PandoInv, Allowed, Reachable;
    BeginInv(env, hash);
    HistoryInv(env, hash, BEGIN, events);
    var s := History(env, hash, BEGIN, events);
    var names :| PandoInv(s.pando, hash, names, s.passed);
    RecordRuns.InvParts(env, s.world);
    ReachableIffPassed(env.codec, hash, s.world.db, s.pando, names, s.passed, i);
  }

  /** So once the newest update is published every update is reachable, and what is
      reachable at some moment stays so. */
  lemma PandoLosesNothing(env: Env, hash: Hash, events: seq<Event>, more: seq<Event>, i: nat)
    requires CollisionFree(env.codec) && Injective(hash)
    requires (forall e | e in events :: Allowed(e)) && (forall e | e in more :: Allowed(e))
    requires i < |UpdateLog(History(env, hash, BEGIN, events).world.db.records)|
    ensures var s, s' := History(env, hash, BEGIN, events), History(env, hash, BEGIN, events + more);
      var log := UpdateLog(s.world.db.records);
      && (log[|log| - 1] in s.passed ==> Reachable(s.pando, s.world.db.blocks, log[i]))
      && (Reachable(s.pando, s.world.db.blocks, log[i]) ==> Reachable(s'.pando, s'.world.db.blocks, log[i]))
  {
    hide History, UpdateLog, Inv, Allowed, Reachable, SystemInv;
    BeginInv(env, hash);
    HistoryInv(env, hash, BEGIN, events);
    var s, s' := History(env, hash, BEGIN, events), History(env, hash, BEGIN, events + more);
    HistoryConcat(env, hash, BEGIN, events, more);
    HistoryInv(env, hash, s, more);
    PandoReachesExactly(env, hash, events, i);
    var log, log' := UpdateLog(s.world.db.records), UpdateLog(s'.world.db.records);
    assert log <= log' && log'[i] == log[i];
    PandoReachesExactly(env, hash, events + more, i);
    if j: nat :| i <= j < |log| && log[j] in s.passed {
      assert log'[j] == log[j] && log'[j] in s'.passed;
    }
  }

  lemma {:induction false} HistoryConcat(env: Env, hash: Hash, s: System, a: seq<Event>, b: seq<Event>)
    ensures History(env, hash, s, a + b) == History(env, hash, History(env, hash, s, a), b)
  {
    hide Next;
    if b == [] {
      assert a + b == a;
    } else {
      assert (a + b)[..|a + b| - 1] == a + b[..|b| - 1];
      HistoryConcat(env, hash, s, a, b[..|b| - 1]);
    }
  }
}
