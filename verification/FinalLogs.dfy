/** parseFinalLogs (tasks/model.go): what a finished task's archived stages tell
    about the deal. The loop is proved against "the first entry that says so". */
module FinalLogs {
  import opened Wrappers
  import opened Text
  import opened Tasks

  /** One thing the scan looks at: a stage's description or one of its log lines. */
  datatype Entry = Description(text: string, at: int) | Line(text: string, at: int)

  function LineEntries(logs: seq<LogLine>, n: nat): seq<Entry>
    requires n <= |logs|
  {
    if n == 0 then [] else LineEntries(logs, n - 1) + [Line(logs[n - 1].log, logs[n - 1].updatedAt)]
  }

  function StageHeader(s: StageDetails): seq<Entry> {
    if s.updatedAt.Some? && s.description.Some? then [Description(s.description.value, s.updatedAt.value)] else []
  }

  /** The archived stages flattened: each stage's description, if dated, then its log. */
  function Entries(stages: seq<StageDetails>, n: nat): seq<Entry>
    requires n <= |stages|
  {
    if n == 0 then []
    else Entries(stages, n - 1) + StageHeader(stages[n - 1]) + LineEntries(stages[n - 1].logs, |stages[n - 1].logs|)
  }

  // ---------- "The first entry that says so" ----------

  /** The value f gives at the first entry where it gives one. */
  function First<T>(es: seq<Entry>, f: Entry -> Option<T>): Option<T> {
    if es == [] then None
    else
      var before := First(es[..|es| - 1], f);
      if before.Some? then before else f(es[|es| - 1])
  }

  predicate IsFirst<T(==)>(es: seq<Entry>, f: Entry -> Option<T>, i: nat, v: T) {
    i < |es| && f(es[i]) == Some(v) && forall j: nat | j < i :: f(es[j]).None?
  }

  lemma {:induction false} FirstMeaning<T>(es: seq<Entry>, f: Entry -> Option<T>)
    ensures First(es, f).None? <==> forall j: nat | j < |es| :: f(es[j]).None?
    ensures First(es, f).Some? ==> exists i: nat :: IsFirst(es, f, i, First(es, f).value)
  {
    if es != [] {
      var n := |es| - 1;
      var before := First(es[..n], f);
      FirstMeaning(es[..n], f);
      if before.Some? {
        var i: nat :| IsFirst(es[..n], f, i, before.value);
        assert IsFirst(es, f, i, before.value);
        assert f(es[..n][i]).Some?;
      } else {
        assert forall j: nat | j < n :: f(es[j]) == f(es[..n][j]);
        if f(es[n]).Some? { assert IsFirst(es, f, n, f(es[n]).value); }
      }
    }
  }

  lemma FirstSnoc<T>(es: seq<Entry>, e: Entry, f: Entry -> Option<T>)
    ensures First(es + [e], f) == if First(es, f).Some? then First(es, f) else f(e)
  {
  }

  /** Position of the first entry that contains `sub`. */
  function FirstAt(es: seq<Entry>, sub: string): Option<nat> {
    if es == [] then None
    else
      var before := FirstAt(es[..|es| - 1], sub);
      if before.Some? then before else if Contains(es[|es| - 1].text, sub) then Some(|es| - 1) else None
  }

  /** Position of the first entry that contains `sub` and is not at `skip`. */
  function FirstAtExcept(es: seq<Entry>, sub: string, skip: Option<nat>): Option<nat> {
    if es == [] then None
    else
      var before := FirstAtExcept(es[..|es| - 1], sub, skip);
      if before.Some? then before
      else if Contains(es[|es| - 1].text, sub) && skip != Some(|es| - 1) then Some(|es| - 1) else None
  }

  lemma {:induction false} FirstAtMeaning(es: seq<Entry>, sub: string, skip: Option<nat>)
    ensures match FirstAt(es, sub)
      case None => forall j: nat | j < |es| :: !Contains(es[j].text, sub)
      case Some(i) => i < |es| && Contains(es[i].text, sub) && forall j: nat | j < i :: !Contains(es[j].text, sub)
    ensures match FirstAtExcept(es, sub, skip)
      case None => forall j: nat | j < |es| && skip != Some(j) :: !Contains(es[j].text, sub)
      case Some(i) =>
        && i < |es| && Contains(es[i].text, sub) && skip != Some(i)
        && forall j: nat | j < i && skip != Some(j) :: !Contains(es[j].text, sub)
  {
    if es != [] {
      var n := |es| - 1;
      FirstAtMeaning(es[..n], sub, skip);
      assert forall j: nat | j < n :: es[j] == es[..n][j];
    }
  }

  /** A position past the end excludes nothing. */
  lemma {:induction false} SkipBeyond(es: seq<Entry>, sub: string, skip: nat)
    requires skip >= |es|
    ensures FirstAtExcept(es, sub, Some(skip)) == FirstAtExcept(es, sub, None)
  {
    if es != [] { SkipBeyond(es[..|es| - 1], sub, skip); }
  }

  // ---------- The fields ----------

  datatype Extraction = Extraction(
    dealID: int,
    minerAddr: string,
    clientAddr: string,
    minerVersion: Option<string>,
    clientVersion: Option<string>,
    minerLatency: Option<int>,
    timeFirstByte: Option<int>,
    timeLastByte: Option<int>,
    size: Option<int>,
    payloadCID: Option<string>,
    proposalCID: Option<string>,
    minerPeerID: Option<string>)

  /** The line's remainder, when the line contains `key`; `prefix` is what is trimmed. */
  function Tagged(e: Entry, key: string, prefix: string): Option<string> {
    if e.Line? && Contains(e.text, key) then Some(TrimPrefix(e.text, prefix)) else None
  }

  function MinerVersionOf(e: Entry): Option<string> { Tagged(e, "NetAgentVersion: ", "NetAgentVersion: ") }

  function ClientVersionOf(e: Entry): Option<string> { Tagged(e, "ClientVersion: ", "ClientVersion: ") }

  function PayloadOf(e: Entry): Option<string> { Tagged(e, "PayloadCID:", "PayloadCID: ") }

  function ProposalOf(e: Entry): Option<string> { Tagged(e, "ProposalCID:", "ProposalCID: ") }

  function PeerOf(e: Entry): Option<string> { Tagged(e, "RemotePeerID:", "RemotePeerID: ") }

  /** An address counts only when something follows the prefix. */
  function AddrOf(e: Entry): Option<string> {
    var v := Tagged(e, "RemotePeerAddr: ", "RemotePeerAddr: ");
    if v == Some("") then None else v
  }

  /** A latency line that does not parse still decides the field, as zero. */
  function LatencyOf(e: Entry): Option<int> {
    var v := Tagged(e, "RemotePeerLatency: ", "RemotePeerLatency: ");
    if v.None? then None else Some(Atoi(v.value).GetOr(0))
  }

  // The byte count is parsed with bit size 10, so anything outside [-512, 511] reads as zero.
  const BIT_SIZE_10_LIMIT := 512

  function SizeOf(e: Entry): Option<int> {
    var v := Tagged(e, "bytes received:", "bytes received: ");
    if v.None? then None else Some(ParseInt(v.value, BIT_SIZE_10_LIMIT).GetOr(0))
  }

  /** A deal id line counts only when it parses to something other than zero. */
  function DealOf(e: Entry): Option<int> {
    var v := Tagged(e, "DealID:", "DealID: ");
    if v.None? then None
    else
      var n := Atoi(v.value);
      if n == Some(0) then None else n
  }

  function TruncDiv(a: int, b: int): int
    requires b > 0
  {
    if a >= 0 then a / b else -(-a / b)
  }

  /** time.Time.Sub saturates; Milliseconds truncates toward zero. */
  function MillisecondsSince(at: int, start: int): int {
    var d := at - start;
    var clipped := if d < -INT64_LIMIT then -INT64_LIMIT else if d >= INT64_LIMIT then INT64_LIMIT - 1 else d;
    TruncDiv(clipped, 1_000_000)
  }

  function FirstByteText(t: Task): string {
    if t.retrieval.Some? then "First byte of data received" else "opening data transfer"
  }

  function LastByteText(t: Task): string {
    if t.retrieval.Some? then "All bytes received" else "provider is verifying the data"
  }

  function TimeAt(es: seq<Entry>, i: Option<nat>, start: int): Option<int> {
    if i.Some? && i.value < |es| then Some(MillisecondsSince(es[i.value].at, start)) else None
  }

  /** What is known without any log. */
  function Blank(t: Task): Extraction {
    Extraction(0, "", "", None, None, None, None, None,
               if t.storage.Some? then Some(t.storage.value.size) else None,
               if t.storage.None? && t.retrieval.Some? then Some(t.retrieval.value.payloadCID) else None,
               None, None)
  }

  function OrElse<T>(a: Option<T>, b: Option<T>): Option<T> { if a.Some? then a else b }

  /** Field by field, the first entry that determines it; the last-byte entry is the first
      one other than the entry already taken for the first byte. */
  function Scanned(t: Task, es: seq<Entry>, start: int): Extraction {
    var first := FirstAt(es, FirstByteText(t));
    var last := FirstAtExcept(es, LastByteText(t), first);
    Extraction(
      First(es, DealOf).GetOr(0),
      First(es, AddrOf).GetOr(""),
      "",
      First(es, MinerVersionOf),
      First(es, ClientVersionOf),
      First(es, LatencyOf),
      TimeAt(es, first, start),
      TimeAt(es, last, start),
      OrElse(Blank(t).size, First(es, SizeOf)),
      OrElse(Blank(t).payloadCID, First(es, PayloadOf)),
      First(es, ProposalOf),
      First(es, PeerOf))
  }

  /** The specification of the whole scan. */
  function Extract(t: Task): Extraction {
    if t.startedAt.None? || t.past.None? then Blank(t)
    else
      var s := Scanned(t, Entries(t.past.value, |t.past.value|), t.startedAt.value);
      s.(timeLastByte := OrElse(s.timeLastByte, s.timeFirstByte))
  }

  function DealIDString(l: Extraction): Option<string> {
    if l.dealID == 0 then None else Some(Itoa(l.dealID))
  }

  // ---------- The loop ----------

  /** The byte times after one more entry. */
  function AfterTimes(l: Extraction, e: Entry, first: string, last: string, start: int): Extraction {
    var at := Some(MillisecondsSince(e.at, start));
    var opens := l.timeFirstByte.None? && Contains(e.text, first);
    l.(timeFirstByte := if opens then at else l.timeFirstByte,
       timeLastByte := if !opens && l.timeLastByte.None? && Contains(e.text, last) then at else l.timeLastByte)
  }

  /** The tagged fields after one more log line. */
  function AfterLine(l: Extraction, e: Entry): Extraction {
    l.(minerVersion := OrElse(l.minerVersion, MinerVersionOf(e)),
       clientVersion := OrElse(l.clientVersion, ClientVersionOf(e)),
       minerAddr := if l.minerAddr == "" then AddrOf(e).GetOr("") else l.minerAddr,
       minerLatency := OrElse(l.minerLatency, LatencyOf(e)),
       size := OrElse(l.size, SizeOf(e)),
       payloadCID := OrElse(l.payloadCID, PayloadOf(e)),
       proposalCID := OrElse(l.proposalCID, ProposalOf(e)),
       dealID := if l.dealID == 0 then DealOf(e).GetOr(0) else l.dealID,
       minerPeerID := OrElse(l.minerPeerID, PeerOf(e)))
  }

  method ScanTimes(l: Extraction, e: Entry, first: string, last: string, start: int) returns (l': Extraction)
    ensures l' == AfterTimes(l, e, first, last, start)
  {
    l' := l;
    if l'.timeFirstByte.None? && Contains(e.text, first) {
      l' := l'.(timeFirstByte := Some(MillisecondsSince(e.at, start)));
    } else if l'.timeLastByte.None? && Contains(e.text, last) {
      l' := l'.(timeLastByte := Some(MillisecondsSince(e.at, start)));
    }
  }

  method ScanPeer(l: Extraction, text: string, at: int) returns (l': Extraction)
    ensures var e := Line(text, at);
      l' == l.(minerVersion := OrElse(l.minerVersion, MinerVersionOf(e)),
               clientVersion := OrElse(l.clientVersion, ClientVersionOf(e)),
               minerAddr := if l.minerAddr == "" then AddrOf(e).GetOr("") else l.minerAddr)
  {
    l' := l;
    if l'.minerVersion.None? && Contains(text, "NetAgentVersion: ") {
      l' := l'.(minerVersion := Some(TrimPrefix(text, "NetAgentVersion: ")));
    }
    if l'.clientVersion.None? && Contains(text, "ClientVersion: ") {
      l' := l'.(clientVersion := Some(TrimPrefix(text, "ClientVersion: ")));
    }
    if l'.minerAddr == "" && Contains(text, "RemotePeerAddr: ") {
      l' := l'.(minerAddr := TrimPrefix(text, "RemotePeerAddr: "));
    }
  }

  method ScanNumbers(l: Extraction, text: string, at: int) returns (l': Extraction)
    ensures var e := Line(text, at);
      l' == l.(minerLatency := OrElse(l.minerLatency, LatencyOf(e)),
               size := OrElse(l.size, SizeOf(e)),
               dealID := if l.dealID == 0 then DealOf(e).GetOr(0) else l.dealID)
  {
    l' := l;
    if l'.minerLatency.None? && Contains(text, "RemotePeerLatency: ") {
      l' := l'.(minerLatency := Some(0));
      var val := Atoi(TrimPrefix(text, "RemotePeerLatency: "));
      if val.Some? { l' := l'.(minerLatency := val); }
    }
    if l'.size.None? && Contains(text, "bytes received:") {
      l' := l'.(size := Some(0));
      var b := ParseInt(TrimPrefix(text, "bytes received: "), BIT_SIZE_10_LIMIT);
      if b.Some? { l' := l'.(size := b); }
    }
    if l'.dealID == 0 && Contains(text, "DealID:") {
      var val := Atoi(TrimPrefix(text, "DealID: "));
      if val.Some? { l' := l'.(dealID := val.value); }
    }
  }

  method ScanLinks(l: Extraction, text: string, at: int) returns (l': Extraction)
    ensures var e := Line(text, at);
      l' == l.(payloadCID := OrElse(l.payloadCID, PayloadOf(e)),
               proposalCID := OrElse(l.proposalCID, ProposalOf(e)),
               minerPeerID := OrElse(l.minerPeerID, PeerOf(e)))
  {
    l' := l;
    if l'.payloadCID.None? && Contains(text, "PayloadCID:") {
      l' := l'.(payloadCID := Some(TrimPrefix(text, "PayloadCID: ")));
    }
    if l'.proposalCID.None? && Contains(text, "ProposalCID:") {
      l' := l'.(proposalCID := Some(TrimPrefix(text, "ProposalCID: ")));
    }
    if l'.minerPeerID.None? && Contains(text, "RemotePeerID:") {
      l' := l'.(minerPeerID := Some(TrimPrefix(text, "RemotePeerID: ")));
    }
  }

  /** One more entry moves the byte times exactly as the if/else-if of the scan does. */
  lemma TimesSnoc(t: Task, es: seq<Entry>, e: Entry, start: int)
    ensures var s, s' := Scanned(t, es, start), Scanned(t, es + [e], start);
      var moved := AfterTimes(s, e, FirstByteText(t), LastByteText(t), start);
      s'.timeFirstByte == moved.timeFirstByte && s'.timeLastByte == moved.timeLastByte
  {
    hide Text.Contains, First, Tagged;
    var es' := es + [e];
    assert es'[..|es|] == es;
    var first, first' := FirstAt(es, FirstByteText(t)), FirstAt(es', FirstByteText(t));
    FirstAtMeaning(es, FirstByteText(t), None);
    FirstAtMeaning(es, LastByteText(t), first);
    if first.None? && first'.Some? {
      SkipBeyond(es, LastByteText(t), |es|);
    }
    assert forall i: nat | i < |es| :: es'[i] == es[i];
  }

  lemma {:induction false} NonEmptyFirsts(es: seq<Entry>)
    ensures First(es, DealOf) != Some(0) && First(es, AddrOf) != Some("")
  {
    if es != [] { NonEmptyFirsts(es[..|es| - 1]); }
  }

  lemma FieldsSnoc(t: Task, es: seq<Entry>, e: Entry, start: int)
    ensures var s, s' := Scanned(t, es, start), Scanned(t, es + [e], start);
      AfterLine(s, e) == s'.(timeFirstByte := s.timeFirstByte, timeLastByte := s.timeLastByte)
  {
    NonEmptyFirsts(es);
    FirstSnoc(es, e, DealOf);
    FirstSnoc(es, e, AddrOf);
    FirstSnoc(es, e, MinerVersionOf);
    FirstSnoc(es, e, ClientVersionOf);
    FirstSnoc(es, e, LatencyOf);
    FirstSnoc(es, e, SizeOf);
    FirstSnoc(es, e, PayloadOf);
    FirstSnoc(es, e, ProposalOf);
    FirstSnoc(es, e, PeerOf);
  }

  lemma DescriptionTagsNothing(l: Extraction, e: Entry)
    requires e.Description?
    ensures AfterLine(l, e) == l
  {
  }

  /** One more entry moves the specification exactly as one pass of the scan moves its
      record: a description touches only the times, a line every field. */
  lemma ScannedSnoc(t: Task, es: seq<Entry>, e: Entry, start: int)
    ensures var timed := AfterTimes(Scanned(t, es, start), e, FirstByteText(t), LastByteText(t), start);
      Scanned(t, es + [e], start) == if e.Line? then AfterLine(timed, e) else timed
  {
    var s, s' := Scanned(t, es, start), Scanned(t, es + [e], start);
    TimesSnoc(t, es, e, start);
    FieldsSnoc(t, es, e, start);
    if e.Description? { DescriptionTagsNothing(s, e); }
  }

  /** The body of the scan for one log line. */
  method ScanLine(l: Extraction, e: Entry, first: string, last: string, start: int) returns (l': Extraction)
    requires e.Line?
    ensures l' == AfterLine(AfterTimes(l, e, first, last, start), e)
  {
    l' := ScanTimes(l, e, first, last, start);
    l' := ScanPeer(l', e.text, e.at);
    l' := ScanNumbers(l', e.text, e.at);
    l' := ScanLinks(l', e.text, e.at);
  }

  /** A finished record never has a first-byte time without a last-byte time, and
      carries a printed deal id exactly when it has one. */
  lemma ExtractionShape(t: Task)
    ensures var l := Extract(t);
      && (l.timeFirstByte.Some? ==> l.timeLastByte.Some?)
      && (DealIDString(l).Some? <==> l.dealID != 0)
      && l.clientAddr == ""
  {
  }

  method ParseFinalLogs(t: Task) returns (l: Extraction)
    ensures l == Extract(t)
    ensures l.timeFirstByte.Some? ==> l.timeLastByte.Some?
    ensures DealIDString(l).Some? <==> l.dealID != 0
  {
    ExtractionShape(t);
    l := Blank(t);
    if t.startedAt.None? || t.past.None? {
      return;
    }
    var first, last := FirstByteText(t), LastByteText(t);
    var start, stages := t.startedAt.value, t.past.value;
    ghost var seen: seq<Entry> := [];
    for i := 0 to |stages|
      invariant seen == Entries(stages, i) && l == Scanned(t, seen, start)
    {
      var stage := stages[i];
      if stage.updatedAt.Some? && stage.description.Some? {
        var e := Description(stage.description.value, stage.updatedAt.value);
        ScannedSnoc(t, seen, e, start);
        l := ScanTimes(l, e, first, last, start);
        seen := seen + [e];
      }
      assert seen == Entries(stages, i) + StageHeader(stage);
      l := ScanStage(t, stage, l, first, last, start, seen);
      seen := seen + LineEntries(stage.logs, |stage.logs|);
    }
    if l.timeFirstByte.Some? && l.timeLastByte.None? {
      l := l.(timeLastByte := l.timeFirstByte);
    }
  }

  /** The inner loop, over one stage's log. */
  method ScanStage(t: Task, stage: StageDetails, l: Extraction, first: string, last: string, start: int,
                   ghost seen: seq<Entry>) returns (l': Extraction)
    requires first == FirstByteText(t) && last == LastByteText(t) && l == Scanned(t, seen, start)
    ensures l' == Scanned(t, seen + LineEntries(stage.logs, |stage.logs|), start)
  {
    hide Scanned, AfterLine, AfterTimes, FirstByteText, LastByteText;
    l' := l;
    assert seen + LineEntries(stage.logs, 0) == seen;
    for k := 0 to |stage.logs|
      invariant l' == Scanned(t, seen + LineEntries(stage.logs, k), start)
    {
      var e := Line(stage.logs[k].log, stage.logs[k].updatedAt);
      ScannedSnoc(t, seen + LineEntries(stage.logs, k), e, start);
      assert seen + LineEntries(stage.logs, k + 1) == seen + LineEntries(stage.logs, k) + [e];
      l' := ScanLine(l', e, first, last, start);
    }
  }

  // ---------- What the extraction promises ----------

  /** A printed deal id survives the round trip through the log: when the first line
      that yields a deal id is the one the workers write for `id`, the record holds
      `id`, and its printed form reads back as `id`. */
  lemma DealIDRoundTrip(t: Task, i: nat, id: int)
    requires t.startedAt.Some? && t.past.Some?
    requires id != 0 && -INT64_LIMIT <= id < INT64_LIMIT
    requires var es := Entries(t.past.value, |t.past.value|);
      && i < |es|
      && es[i].Line? && es[i].text == "DealID: " + Itoa(id)
      && forall j: nat | j < i :: DealOf(es[j]).None?
    ensures var l := Extract(t);
      l.dealID == id && DealIDString(l).Some? && Atoi(DealIDString(l).value) == Some(id)
  {
    var es := Entries(t.past.value, |t.past.value|);
    AtoiItoa(id);
    TrimPrefixConcat("DealID: ", Itoa(id));
    ContainsPrefix("DealID: ", Itoa(id), "DealID:");
    assert DealOf(es[i]) == Some(id);
    FirstMeaning(es, DealOf);
    var k: nat :| IsFirst(es, DealOf, k, First(es, DealOf).value);
    assert k == i;
  }

  // ---------- What each field means ----------

  /** Where the log of stage i starts among the entries, after its description if it has one. */
  function LogStart(stages: seq<StageDetails>, i: nat): nat
    requires i < |stages|
  {
    |Entries(stages, i)| + if stages[i].updatedAt.Some? && stages[i].description.Some? then 1 else 0
  }

  lemma {:induction false} LinesInOrder(logs: seq<LogLine>, n: nat)
    requires n <= |logs|
    ensures |LineEntries(logs, n)| == n
    ensures forall k | 0 <= k < n :: LineEntries(logs, n)[k] == Line(logs[k].log, logs[k].updatedAt)
  {
    if n > 0 { LinesInOrder(logs, n - 1); }
  }

  lemma {:induction false} EntriesPrefix(stages: seq<StageDetails>, i: nat, n: nat)
    requires i <= n <= |stages|
    ensures Entries(stages, i) <= Entries(stages, n)
  {
    if i < n { EntriesPrefix(stages, i, n - 1); }
  }

  /** The entries are the stages one after the other: a dated description, then each line. */
  lemma EntriesInOrder(stages: seq<StageDetails>, i: nat)
    requires i < |stages|
    ensures var es, stage, start := Entries(stages, |stages|), stages[i], LogStart(stages, i);
      && start + |stage.logs| == (if i + 1 < |stages| then |Entries(stages, i + 1)| else |es|) <= |es|
      && (stage.updatedAt.Some? && stage.description.Some? ==>
           es[start - 1] == Description(stage.description.value, stage.updatedAt.value))
      && (forall k | 0 <= k < |stage.logs| :: es[start + k] == Line(stage.logs[k].log, stage.logs[k].updatedAt))
  {
    hide LineEntries;
    var before, upto, es := Entries(stages, i), Entries(stages, i + 1), Entries(stages, |stages|);
    EntriesPrefix(stages, i + 1, |stages|);
    LinesInOrder(stages[i].logs, |stages[i].logs|);
    assert upto == before + StageHeader(stages[i]) + LineEntries(stages[i].logs, |stages[i].logs|);
    assert forall p | 0 <= p < |upto| :: es[p] == upto[p];
  }

  /** Line i is the first log line that contains the key. */
  predicate FirstLine(es: seq<Entry>, key: string, i: nat) {
    && i < |es| && es[i].Line? && Contains(es[i].text, key)
    && (forall j: nat | j < i && es[j].Line? :: !Contains(es[j].text, key))
  }

  predicate NoLine(es: seq<Entry>, key: string) {
    forall j: nat | j < |es| && es[j].Line? :: !Contains(es[j].text, key)
  }

  /** v is what follows the prefix in the first log line that contains the key. */
  ghost predicate ReadsText(es: seq<Entry>, key: string, prefix: string, v: Option<string>) {
    match v
    case None => NoLine(es, key)
    case Some(text) => exists i: nat :: FirstLine(es, key, i) && text == TrimPrefix(es[i].text, prefix)
  }

  /** ... read as a number below the limit, and zero if it is none. */
  ghost predicate ReadsNumber(es: seq<Entry>, key: string, prefix: string, limit: int, v: Option<int>) {
    match v
    case None => NoLine(es, key)
    case Some(n) =>
      exists i: nat :: FirstLine(es, key, i) && n == ParseInt(TrimPrefix(es[i].text, prefix), limit).GetOr(0)
  }

  lemma TextMeaning(es: seq<Entry>, f: Entry -> Option<string>, key: string, prefix: string)
    requires forall e :: f(e) == Tagged(e, key, prefix)
    ensures ReadsText(es, key, prefix, First(es, f))
  {
    FirstMeaning(es, f);
    if First(es, f).Some? {
      var i: nat :| IsFirst(es, f, i, First(es, f).value);
      assert forall j: nat | j < i :: f(es[j]).None?;
      assert FirstLine(es, key, i);
    }
  }

  function NumberIn(e: Entry, key: string, prefix: string, limit: int): Option<int> {
    var text := Tagged(e, key, prefix);
    if text.None? then None else Some(ParseInt(text.value, limit).GetOr(0))
  }

  lemma NumberMeaning(es: seq<Entry>, f: Entry -> Option<int>, key: string, prefix: string, limit: int)
    requires forall e :: f(e) == NumberIn(e, key, prefix, limit)
    ensures ReadsNumber(es, key, prefix, limit, First(es, f))
  {
    FirstMeaning(es, f);
    if First(es, f).Some? {
      var i: nat :| IsFirst(es, f, i, First(es, f).value);
      assert forall j: nat | j < i :: f(es[j]).None?;
      assert FirstLine(es, key, i);
    }
  }

  /** The scan applies to a task that was started and has archived stages. */
  predicate Scans(t: Task) { t.startedAt.Some? && t.past.Some? }

  function LogOf(t: Task): seq<Entry> { Entries(t.past.GetOr([]), |t.past.GetOr([])|) }

  lemma TextFields(t: Task)
    requires Scans(t)
    ensures var l, es := Extract(t), LogOf(t);
      && ReadsText(es, "NetAgentVersion: ", "NetAgentVersion: ", l.minerVersion)
      && ReadsText(es, "ClientVersion: ", "ClientVersion: ", l.clientVersion)
      && ReadsText(es, "ProposalCID:", "ProposalCID: ", l.proposalCID)
      && ReadsText(es, "RemotePeerID:", "RemotePeerID: ", l.minerPeerID)
  {
    hide Contains, TrimPrefix, ReadsText;
    var es := LogOf(t);
    TextMeaning(es, MinerVersionOf, "NetAgentVersion: ", "NetAgentVersion: ");
    TextMeaning(es, ClientVersionOf, "ClientVersion: ", "ClientVersion: ");
    TextMeaning(es, ProposalOf, "ProposalCID:", "ProposalCID: ");
    TextMeaning(es, PeerOf, "RemotePeerID:", "RemotePeerID: ");
  }

  /** The payload is the one the retrieval names, or what a storage deal logged. */
  lemma PayloadField(t: Task)
    ensures t.storage.None? && t.retrieval.Some? ==> Extract(t).payloadCID == Some(t.retrieval.value.payloadCID)
    ensures Scans(t) && (t.storage.Some? || t.retrieval.None?) ==>
      ReadsText(LogOf(t), "PayloadCID:", "PayloadCID: ", Extract(t).payloadCID)
    ensures !Scans(t) && (t.storage.Some? || t.retrieval.None?) ==> Extract(t).payloadCID.None?
  {
    hide Contains, TrimPrefix, ReadsText;
    TextMeaning(LogOf(t), PayloadOf, "PayloadCID:", "PayloadCID: ");
  }

  /** The size is the one the storage deal names, or what a retrieval logged. */
  lemma NumberFields(t: Task)
    ensures t.storage.Some? ==> Extract(t).size == Some(t.storage.value.size)
    ensures Scans(t) && t.storage.None? ==>
      ReadsNumber(LogOf(t), "bytes received:", "bytes received: ", 512, Extract(t).size)
    ensures Scans(t) ==>
      ReadsNumber(LogOf(t), "RemotePeerLatency: ", "RemotePeerLatency: ", 0x8000_0000_0000_0000,
                  Extract(t).minerLatency)
  {
    hide Contains, TrimPrefix, ReadsNumber, ParseInt;
    NumberMeaning(LogOf(t), SizeOf, "bytes received:", "bytes received: ", 512);
    NumberMeaning(LogOf(t), LatencyOf, "RemotePeerLatency: ", "RemotePeerLatency: ", INT64_LIMIT);
  }

  /** The deal id of a log line: what follows the prefix, when that is a number other than zero. */
  ghost predicate GivesDeal(e: Entry, id: int) {
    e.Line? && Contains(e.text, "DealID:") && Atoi(TrimPrefix(e.text, "DealID: ")) == Some(id) && id != 0
  }

  ghost predicate GivesAddress(e: Entry, address: string) {
    && e.Line? && Contains(e.text, "RemotePeerAddr: ")
    && TrimPrefix(e.text, "RemotePeerAddr: ") == address && address != ""
  }

  /** id is that of the first line that gives one, or zero. */
  ghost predicate FirstDeal(es: seq<Entry>, id: int) {
    if id == 0 then forall j: nat, n | j < |es| :: !GivesDeal(es[j], n)
    else exists i: nat | i < |es| :: GivesDeal(es[i], id) && (forall j: nat, n | j < i :: !GivesDeal(es[j], n))
  }

  ghost predicate FirstAddress(es: seq<Entry>, addr: string) {
    if addr == "" then forall j: nat, a | j < |es| :: !GivesAddress(es[j], a)
    else exists i: nat | i < |es| :: GivesAddress(es[i], addr) && (forall j: nat, a | j < i :: !GivesAddress(es[j], a))
  }

  lemma DealMeaning(es: seq<Entry>)
    ensures FirstDeal(es, First(es, DealOf).GetOr(0))
  {
    hide Contains, TrimPrefix, Atoi;
    FirstMeaning(es, DealOf);
    assert forall e, n :: GivesDeal(e, n) <==> DealOf(e) == Some(n);
    if First(es, DealOf).Some? {
      var i: nat :| IsFirst(es, DealOf, i, First(es, DealOf).value);
      assert GivesDeal(es[i], First(es, DealOf).value);
    }
  }

  lemma AddressMeaning(es: seq<Entry>)
    ensures FirstAddress(es, First(es, AddrOf).GetOr(""))
  {
    hide Contains, TrimPrefix;
    FirstMeaning(es, AddrOf);
    assert forall e, a :: GivesAddress(e, a) <==> AddrOf(e) == Some(a);
    if First(es, AddrOf).Some? {
      var i: nat :| IsFirst(es, AddrOf, i, First(es, AddrOf).value);
      assert GivesAddress(es[i], First(es, AddrOf).value);
    }
  }

  /** The deal id and the miner's address; the client's address stays blank. */
  lemma DealAndAddress(t: Task)
    requires Scans(t)
    ensures FirstDeal(LogOf(t), Extract(t).dealID) && FirstAddress(LogOf(t), Extract(t).minerAddr)
    ensures Extract(t).clientAddr == ""
  {
    hide FirstDeal, FirstAddress, First;
    DealMeaning(LogOf(t));
    AddressMeaning(LogOf(t));
  }

  /** Entry i is the first that mentions the text, other than the one excluded. */
  predicate FirstMention(es: seq<Entry>, text: string, skip: Option<nat>, i: nat) {
    && i < |es| && Contains(es[i].text, text) && skip != Some(i)
    && (forall j: nat | j < i && skip != Some(j) :: !Contains(es[j].text, text))
  }

  predicate NoMention(es: seq<Entry>, text: string, skip: Option<nat>) {
    forall j: nat | j < |es| && skip != Some(j) :: !Contains(es[j].text, text)
  }

  /** The time to the first entry that mentions the opening text. */
  ghost predicate TimesFirst(es: seq<Entry>, opening: string, start: int, at: Option<nat>, ms: Option<int>) {
    match at
    case None => NoMention(es, opening, None) && ms.None?
    case Some(i) => FirstMention(es, opening, None, i) && ms == Some(MillisecondsSince(es[i].at, start))
  }

  /** The time to the first other entry that mentions the closing text, if there is one. */
  ghost predicate TimesLast(es: seq<Entry>, closing: string, start: int, skip: Option<nat>, ms: Option<int>) {
    match ms
    case None => NoMention(es, closing, skip)
    case Some(m) => exists k: nat :: FirstMention(es, closing, skip, k) && m == MillisecondsSince(es[k].at, start)
  }

  lemma TimesMeaning(es: seq<Entry>, opening: string, closing: string, start: int)
    ensures var first := FirstAt(es, opening);
      && TimesFirst(es, opening, start, first, TimeAt(es, first, start))
      && TimesLast(es, closing, start, first, TimeAt(es, FirstAtExcept(es, closing, first), start))
  {
    hide Contains, MillisecondsSince, FirstAt, FirstAtExcept;
    var first := FirstAt(es, opening);
    FirstAtMeaning(es, opening, None);
    FirstAtMeaning(es, closing, first);
    var last := FirstAtExcept(es, closing, first);
    if last.Some? { assert FirstMention(es, closing, first, last.value); }
  }

  /** The byte times: milliseconds from the start to the first entry that mentions the first
      byte, and to the first other entry that mentions the last one; without that one, the
      same again. A retrieval is known by other words than a storage deal. */
  lemma TimeFields(t: Task) returns (first: Option<nat>, last: Option<int>)
    requires Scans(t)
    ensures var l, es, start := Extract(t), LogOf(t), t.startedAt.value;
      var opening := if t.retrieval.Some? then "First byte of data received" else "opening data transfer";
      var closing := if t.retrieval.Some? then "All bytes received" else "provider is verifying the data";
      && TimesFirst(es, opening, start, first, l.timeFirstByte)
      && TimesLast(es, closing, start, first, last)
      && l.timeLastByte == if last.Some? then last else l.timeFirstByte
  {
    hide TimesFirst, TimesLast, TimeAt, FirstAt, FirstAtExcept, First;
    var es := LogOf(t);
    TimesMeaning(es, FirstByteText(t), LastByteText(t), t.startedAt.value);
    first := FirstAt(es, FirstByteText(t));
    last := TimeAt(es, FirstAtExcept(es, LastByteText(t), first), t.startedAt.value);
  }

  /** Without archived stages, or without a start, only what the deal itself says is known. */
  lemma NothingLogged(t: Task)
    requires !Scans(t)
    ensures var l := Extract(t);
      && l.dealID == 0 && l.minerAddr == "" && l.clientAddr == "" && l.minerVersion.None? && l.clientVersion.None?
      && l.minerLatency.None? && l.timeFirstByte.None? && l.timeLastByte.None?
      && l.proposalCID.None? && l.minerPeerID.None? && (t.storage.None? ==> l.size.None?)
  {
  }

  /** Whole milliseconds, rounded toward zero, and at most as many as a duration can hold. */
  lemma MillisecondsMeaning(at: int, start: int)
    ensures var ms := MillisecondsSince(at, start);
      && (0 <= at - start < INT64_LIMIT ==> 1_000_000 * ms <= at - start < 1_000_000 * (ms + 1))
      && (-INT64_LIMIT <= at - start <= 0 ==> 1_000_000 * (ms - 1) < at - start <= 1_000_000 * ms)
      && (at - start >= INT64_LIMIT ==> ms == 9_223_372_036_854)
      && (at - start < -INT64_LIMIT ==> ms == -9_223_372_036_854)
  {
  }
}
