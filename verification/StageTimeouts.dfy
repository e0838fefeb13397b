/** ParseStageTimeouts (tasks/stage_timeouts.go). The text functions it calls and the
    storage-deal state names come from libraries, so they are parameters; nothing is
    assumed about them. */
module StageTimeouts {
  import opened Wrappers

  /** strings.TrimSpace, strings.ToLower, time.ParseDuration (nanoseconds), and the names of
      CommonStages, RetrievalStages and storagemarket.DealStates. */
  datatype Library = Library(
    trim: string -> string,
    lower: string -> string,
    duration: string -> Option<int>,
    common: set<string>,
    retrieval: set<string>,
    dealStates: seq<string>)

  const SECOND := 1_000_000_000
  const DEFAULT_TIMEOUT := 3 * 3600 * SECOND
  const DEFAULT_RETRIEVAL := "defaultretrieval"
  const DEFAULT_STORAGE := "defaultstorage"

  type Timeouts = map<string, int>

  datatype Error =
    | InvalidSpec(spec: string)
    | InvalidValue(stage: string)
    | Repeated(stage: string)
    | Unusable(stage: string)

  /** Position of the first '=' (strings.SplitN with limit 2). */
  function Equals(s: string): Option<nat> {
    if s == "" then None
    else if s[0] == '=' then Some(0)
    else var i := Equals(s[1..]); if i.Some? then Some(i.value + 1) else None
  }

  lemma {:induction false} EqualsMeaning(s: string)
    ensures match Equals(s)
      case None => '=' !in s
      case Some(i) => i < |s| && s[i] == '=' && '=' !in s[..i]
  {
    if s != "" && s[0] != '=' {
      EqualsMeaning(s[1..]);
      if Equals(s).Some? {
        assert s[..Equals(s).value] == [s[0]] + s[1..][..Equals(s[1..]).value];
      }
    }
  }

  /** The name and timeout that one specification gives. */
  function Parse(lib: Library, spec: string): (r: Result<(string, int), Error>)
    ensures r.Ok? ==> r.value.1 >= SECOND
  {
    EqualsMeaning(spec);
    var i := Equals(spec);
    if i.None? then Err(InvalidSpec(spec))
    else
      var stage := lib.trim(spec[..i.value]);
      var d := lib.duration(lib.trim(spec[i.value + 1..]));
      if d.None? || d.value < SECOND then Err(InvalidValue(stage)) else Ok((lib.lower(stage), d.value))
  }

  predicate AllParse(lib: Library, specs: seq<string>) {
    forall i | 0 <= i < |specs| :: Parse(lib, specs[i]).Ok?
  }

  function Name(lib: Library, spec: string): string
    requires Parse(lib, spec).Ok?
  {
    Parse(lib, spec).value.0
  }

  /** No two specifications name the same stage. */
  predicate DistinctNames(lib: Library, specs: seq<string>)
    requires AllParse(lib, specs)
  {
    forall i, j | 0 <= i < j < |specs| :: Name(lib, specs[i]) != Name(lib, specs[j])
  }

  /** m holds exactly what the specifications give. */
  predicate Gives(lib: Library, specs: seq<string>, m: Timeouts)
    requires AllParse(lib, specs)
  {
    && (forall i | 0 <= i < |specs| ::
         Name(lib, specs[i]) in m && m[Name(lib, specs[i])] == Parse(lib, specs[i]).value.1)
    && (forall n | n in m :: exists i | 0 <= i < |specs| :: Name(lib, specs[i]) == n)
  }

  function Lowered(lib: Library, names: set<string>): set<string> { set n | n in names :: lib.lower(n) }

  function Known(lib: Library): set<string> {
    Lowered(lib, lib.common) + Lowered(lib, lib.retrieval) + Lowered(lib, (set n | n in lib.dealStates))
  }

  /** The table of the two default entries, under their names. */
  function DefaultTable(retrieval: string, storage: string): Timeouts {
    map[retrieval := DEFAULT_TIMEOUT, storage := DEFAULT_TIMEOUT]
  }

  const DEFAULTS: Timeouts := DefaultTable(DEFAULT_RETRIEVAL, DEFAULT_STORAGE)

  /** First loop: read every specification. */
  method ReadSpecs(lib: Library, specs: seq<string>) returns (r: Result<Timeouts, Error>)
    ensures r.Ok? <==> AllParse(lib, specs) && DistinctNames(lib, specs)
    ensures r.Ok? ==> Gives(lib, specs, r.value)
  {
    var timeouts: Timeouts := map[];
    for k := 0 to |specs|
      invariant AllParse(lib, specs[..k]) && DistinctNames(lib, specs[..k]) && Gives(lib, specs[..k], timeouts)
    {
      var parsed := Parse(lib, specs[k]);
      if parsed.Err? {
        return Err(parsed.error);
      }
      assert specs[..k + 1] == specs[..k] + [specs[k]];
      var (stage, d) := parsed.value;
      if stage in timeouts {
        var i :| 0 <= i < k && Name(lib, specs[..k][i]) == stage;
        assert AllParse(lib, specs) ==> Name(lib, specs[i]) == Name(lib, specs[k]);
        return Err(Repeated(stage));
      }
      ExtendGives(lib, specs[..k], specs[k], timeouts);
      timeouts := timeouts[stage := d];
    }
    assert specs[..|specs|] == specs;
    return Ok(timeouts);
  }

  lemma ExtendGives(lib: Library, specs: seq<string>, spec: string, m: Timeouts)
    requires AllParse(lib, specs) && DistinctNames(lib, specs) && Gives(lib, specs, m)
    requires Parse(lib, spec).Ok? && Name(lib, spec) !in m
    ensures AllParse(lib, specs + [spec]) && DistinctNames(lib, specs + [spec])
    ensures Gives(lib, specs + [spec], m[Name(lib, spec) := Parse(lib, spec).value.1])
  {
    var all, m' := specs + [spec], m[Name(lib, spec) := Parse(lib, spec).value.1];
    assert all[|specs|] == spec;
    forall n | n in m'
      ensures exists i | 0 <= i < |all| :: Name(lib, all[i]) == n
    {
      if n in m {
        var i :| 0 <= i < |specs| && Name(lib, specs[i]) == n;
        assert Name(lib, all[i]) == n;
      } else {
        assert Name(lib, all[|specs|]) == n;
      }
    }
  }

  /** Copies the given timeouts of one list of stage names (three such loops in the source). */
  method CopyKnown(lib: Library, names: set<string>, timeouts: Timeouts, start: Timeouts) returns (m: Timeouts)
    requires forall n | n in start && n in timeouts :: start[n] == timeouts[n]
    ensures m.Keys == start.Keys + Lowered(lib, names) * timeouts.Keys
    ensures forall n | n in m && n in timeouts :: m[n] == timeouts[n]
    ensures forall n | n in start && n !in timeouts :: m[n] == start[n]
  {
    m := start;
    var left := names;
    while left != {}
      invariant left <= names
      invariant m.Keys == start.Keys + Lowered(lib, names - left) * timeouts.Keys
      invariant forall n | n in m && n in timeouts :: m[n] == timeouts[n]
      invariant forall n | n in start && n !in timeouts :: m[n] == start[n]
      decreases left
    {
      var n :| n in left;
      assert names - (left - {n}) == (names - left) + {n};
      assert Lowered(lib, (names - left) + {n}) == Lowered(lib, names - left) + {lib.lower(n)};
      left := left - {n};
      if lib.lower(n) in timeouts { m := m[lib.lower(n) := timeouts[lib.lower(n)]]; }
    }
    assert names - left == names;
  }

  lemma SubsetSize(a: set<string>, b: set<string>)
    requires a <= b
    ensures |a| <= |b| && (|a| == |b| ==> a == b)
  {
    assert b == a + (b - a);
  }

  /** The count comparison is exact: with the default entries counted in when they were not
      given, the copied table is short exactly when some given name is neither a known
      stage nor a default, and such a name is then missing from it. */
  lemma CountTestIsExact(known: set<string>, defaults: set<string>, timeouts: Timeouts, copied: Timeouts)
    requires copied.Keys == defaults + known * timeouts.Keys
    ensures |copied| < |timeouts| + |defaults - timeouts.Keys| <==>
      exists n :: n in timeouts && n !in known && n !in defaults
    ensures forall n | n in timeouts :: n !in copied <==> n !in known && n !in defaults
  {
    var all := timeouts.Keys + (defaults - timeouts.Keys);
    assert |all| == |timeouts| + |defaults - timeouts.Keys|;
    SubsetSize(copied.Keys, all);
    if n :| n in timeouts && n !in known && n !in defaults {
      assert n in all && n !in copied.Keys;
    } else {
      assert copied.Keys == all;
    }
  }

  lemma MissingOfTwo(a: string, b: string, given: set<string>)
    requires a != b
    ensures |{a, b} - given| == (if a in given then 0 else 1) + if b in given then 0 else 1
  {
  }

  /** The two defaults, given or not, and how many entries the final table should have. */
  method StartTable(retrieval: string, storage: string, timeouts: Timeouts) returns (start: Timeouts, timeoutCount: nat)
    requires retrieval != storage
    ensures start.Keys == {retrieval, storage}
    ensures forall n | n in start :: start[n] == if n in timeouts then timeouts[n] else DEFAULT_TIMEOUT
    ensures timeoutCount == |timeouts| + |{retrieval, storage} - timeouts.Keys|
  {
    timeoutCount := |timeouts|;
    var retrievalTimeout, storageTimeout := DEFAULT_TIMEOUT, DEFAULT_TIMEOUT;
    if retrieval in timeouts {
      retrievalTimeout := timeouts[retrieval];
    } else {
      timeoutCount := timeoutCount + 1;
    }
    if storage in timeouts {
      storageTimeout := timeouts[storage];
    } else {
      timeoutCount := timeoutCount + 1;
    }
    MissingOfTwo(retrieval, storage, timeouts.Keys);
    start := map[retrieval := retrievalTimeout, storage := storageTimeout];
  }

  /** The three copying loops. */
  method CopyAll(lib: Library, timeouts: Timeouts, start: Timeouts) returns (m: Timeouts)
    requires forall n | n in start && n in timeouts :: start[n] == timeouts[n]
    ensures m.Keys == start.Keys + Known(lib) * timeouts.Keys
    ensures forall n | n in m && n in timeouts :: m[n] == timeouts[n]
    ensures forall n | n in start && n !in timeouts :: m[n] == start[n]
  {
    m := CopyKnown(lib, lib.common, timeouts, start);
    m := CopyKnown(lib, lib.retrieval, timeouts, m);
    m := CopyKnown(lib, (set n | n in lib.dealStates), timeouts, m);
  }

  lemma FinalTable(known: set<string>, retrieval: string, storage: string, timeouts: Timeouts, m: Timeouts)
    requires timeouts.Keys <= known + {retrieval, storage}
    requires m.Keys == {retrieval, storage} + known * timeouts.Keys
    requires forall n | n in m && n in timeouts :: m[n] == timeouts[n]
    requires forall n | n in {retrieval, storage} && n !in timeouts :: m[n] == DEFAULT_TIMEOUT
    ensures m == DefaultTable(retrieval, storage) + timeouts
  {
  }

  /** The copying loops and the check for unused names. */
  method Select(lib: Library, retrieval: string, storage: string, timeouts: Timeouts)
    returns (r: Result<Timeouts, Error>)
    requires retrieval != storage
    ensures r.Ok? <==> timeouts.Keys <= Known(lib) + {retrieval, storage}
    ensures r.Err? ==> r.error.Unusable? && r.error.stage in timeouts
    ensures r.Ok? ==> r.value == DefaultTable(retrieval, storage) + timeouts
  {
    var stageTimeouts, timeoutCount := StartTable(retrieval, storage, timeouts);
    stageTimeouts := CopyAll(lib, timeouts, stageTimeouts);
    ghost var known := Known(lib);
    CountTestIsExact(known, {retrieval, storage}, timeouts, stageTimeouts);
    if |stageTimeouts| < timeoutCount {
      var n :| n in timeouts && n !in stageTimeouts;
      return Err(Unusable(n));
    }
    assert forall n | n in timeouts :: n in known || n in {retrieval, storage};
    FinalTable(known, retrieval, storage, timeouts, stageTimeouts);
    return Ok(stageTimeouts);
  }

  // ---------- What the caller gets ----------

  /** The first '=' of s is at i. */
  predicate Splits(s: string, i: nat) { i < |s| && s[i] == '=' && '=' !in s[..i] }

  function GivenName(lib: Library, s: string, i: nat): string
    requires i < |s|
  {
    lib.lower(lib.trim(s[..i]))
  }

  function GivenTime(lib: Library, s: string, i: nat): Option<int>
    requires i < |s|
  {
    lib.duration(lib.trim(s[i + 1..]))
  }

  /** The specification has an '=' and a duration of at least a second after it. */
  ghost predicate WellFormed(lib: Library, s: string) {
    exists i: nat :: Splits(s, i) && GivenTime(lib, s, i).Some? && GivenTime(lib, s, i).value >= 1_000_000_000
  }

  ghost predicate NamesDiffer(lib: Library, specs: seq<string>) {
    forall k, l, i: nat, j: nat | 0 <= k < l < |specs| && Splits(specs[k], i) && Splits(specs[l], j) ::
      GivenName(lib, specs[k], i) != GivenName(lib, specs[l], j)
  }

  /** A stage of one of the three lists, in lower case, or one of the two defaults. */
  predicate Usable(lib: Library, name: string) {
    || (exists n | n in lib.common :: lib.lower(n) == name)
    || (exists n | n in lib.retrieval :: lib.lower(n) == name)
    || (exists n | n in lib.dealStates :: lib.lower(n) == name)
    || name in ["defaultretrieval", "defaultstorage"]
  }

  ghost predicate NamesUsable(lib: Library, specs: seq<string>) {
    forall k, i: nat | 0 <= k < |specs| && Splits(specs[k], i) :: Usable(lib, GivenName(lib, specs[k], i))
  }

  /** m has every given name with its duration, the absent defaults with three hours, and no
      other key. */
  ghost predicate Answers(lib: Library, specs: seq<string>, m: Timeouts) {
    && (forall k, i: nat | 0 <= k < |specs| && Splits(specs[k], i) ::
         GivenName(lib, specs[k], i) in m && Some(m[GivenName(lib, specs[k], i)]) == GivenTime(lib, specs[k], i))
    && (forall n | n in ["defaultretrieval", "defaultstorage"] ::
         n in m && (!IsGiven(lib, specs, n) ==> m[n] == 10_800_000_000_000))
    && (forall n | n in m :: n in ["defaultretrieval", "defaultstorage"] || IsGiven(lib, specs, n))
  }

  ghost predicate IsGiven(lib: Library, specs: seq<string>, name: string) {
    exists k, i: nat | 0 <= k < |specs| && Splits(specs[k], i) :: GivenName(lib, specs[k], i) == name
  }

  lemma FirstEquals(s: string, i: nat, j: nat)
    requires Splits(s, i) && Splits(s, j)
    ensures i == j
  {
    assert forall k | 0 <= k < i :: s[..i][k] == s[k] && s[..i][k] in s[..i];
    assert forall k | 0 <= k < j :: s[..j][k] == s[k] && s[..j][k] in s[..j];
  }

  lemma ParseMeaning(lib: Library, s: string)
    ensures WellFormed(lib, s) <==> Parse(lib, s).Ok?
    ensures forall i: nat | Splits(s, i) && Parse(lib, s).Ok? ::
      Name(lib, s) == GivenName(lib, s, i) && Some(Parse(lib, s).value.1) == GivenTime(lib, s, i)
    ensures Parse(lib, s).Ok? ==> exists i: nat :: Splits(s, i)
  {
    EqualsMeaning(s);
    forall i: nat | Splits(s, i)
      ensures Equals(s) == Some(i)
    {
      assert s[i] in s;
      FirstEquals(s, i, Equals(s).value);
    }
    if Equals(s).Some? { assert Splits(s, Equals(s).value); }
  }

  lemma AllMeanings(lib: Library, specs: seq<string>)
    ensures AllParse(lib, specs) <==> forall k | 0 <= k < |specs| :: WellFormed(lib, specs[k])
    ensures forall k, i: nat | 0 <= k < |specs| && Splits(specs[k], i) && Parse(lib, specs[k]).Ok? ::
      && Name(lib, specs[k]) == GivenName(lib, specs[k], i)
      && Some(Parse(lib, specs[k]).value.1) == GivenTime(lib, specs[k], i)
    ensures forall k | 0 <= k < |specs| && Parse(lib, specs[k]).Ok? :: exists i: nat :: Splits(specs[k], i)
  {
    hide Parse, WellFormed, GivenTime, GivenName, Name;
    forall k | 0 <= k < |specs| {
      ParseMeaning(lib, specs[k]);
    }
  }

  lemma NamesMeaning(lib: Library, specs: seq<string>)
    requires AllParse(lib, specs)
    ensures DistinctNames(lib, specs) <==> NamesDiffer(lib, specs)
    ensures forall n :: IsGiven(lib, specs, n) <==> exists k | 0 <= k < |specs| :: Name(lib, specs[k]) == n
  {
    hide Parse, WellFormed, GivenTime, GivenName, Name;
    AllMeanings(lib, specs);
    if NamesDiffer(lib, specs) {
      forall k, l | 0 <= k < l < |specs|
        ensures Name(lib, specs[k]) != Name(lib, specs[l])
      {
        var i: nat :| Splits(specs[k], i);
        var j: nat :| Splits(specs[l], j);
      }
    }
    forall n
      ensures IsGiven(lib, specs, n) <==> exists k | 0 <= k < |specs| :: Name(lib, specs[k]) == n
    {
      if k :| 0 <= k < |specs| && Name(lib, specs[k]) == n {
        var i: nat :| Splits(specs[k], i);
        assert GivenName(lib, specs[k], i) == n;
      }
    }
  }

  lemma UsableMeaning(lib: Library, name: string)
    ensures Usable(lib, name) <==> name in Known(lib) + DEFAULTS.Keys
  {
  }

  lemma UsableNames(lib: Library, specs: seq<string>)
    requires AllParse(lib, specs)
    ensures NamesUsable(lib, specs) <==>
      forall i | 0 <= i < |specs| :: Name(lib, specs[i]) in Known(lib) + DEFAULTS.Keys
  {
    hide Parse, WellFormed, GivenTime, GivenName, Name, Known, Usable;
    AllMeanings(lib, specs);
    forall n {
      UsableMeaning(lib, n);
    }
    if NamesUsable(lib, specs) {
      forall k | 0 <= k < |specs|
        ensures Usable(lib, Name(lib, specs[k]))
      {
        var i: nat :| Splits(specs[k], i);
        assert Usable(lib, GivenName(lib, specs[k], i));
      }
    }
  }

  lemma GivenTable(lib: Library, specs: seq<string>, given: Timeouts)
    requires AllParse(lib, specs) && Gives(lib, specs, given)
    ensures forall n :: n in given <==> IsGiven(lib, specs, n)
    ensures forall k, i: nat | 0 <= k < |specs| && Splits(specs[k], i) ::
      GivenName(lib, specs[k], i) in given && Some(given[GivenName(lib, specs[k], i)]) == GivenTime(lib, specs[k], i)
  {
    hide Parse, WellFormed, GivenTime, GivenName, Name;
    AllMeanings(lib, specs);
    NamesMeaning(lib, specs);
  }

  lemma AnswersMeaning(lib: Library, specs: seq<string>, given: Timeouts)
    requires AllParse(lib, specs) && Gives(lib, specs, given)
    ensures Answers(lib, specs, DEFAULTS + given)
  {
    hide Parse, Gives, AllParse, GivenTime, GivenName, IsGiven, Splits;
    GivenTable(lib, specs, given);
    DefaultsMeaning();
  }

  lemma DefaultsMeaning()
    ensures forall n :: n in DEFAULTS <==> n in ["defaultretrieval", "defaultstorage"]
    ensures forall n | n in DEFAULTS :: DEFAULTS[n] == 10_800_000_000_000
  {
  }

  /** The call succeeds exactly on well-formed specifications of different, usable stages, and
      then answers with what they say. */
  method ParseStageTimeouts(lib: Library, specs: seq<string>) returns (r: Result<Timeouts, Error>)
    ensures r.Ok? <==>
      && AllParse(lib, specs) && DistinctNames(lib, specs)
      && forall i | 0 <= i < |specs| :: Name(lib, specs[i]) in Known(lib) + DEFAULTS.Keys
    ensures r.Ok? ==> exists given :: Gives(lib, specs, given) && r.value == DEFAULTS + given
    ensures r.Ok? <==>
      (forall k | 0 <= k < |specs| :: WellFormed(lib, specs[k])) && NamesDiffer(lib, specs) && NamesUsable(lib, specs)
    ensures r.Ok? ==> Answers(lib, specs, r.value)
  {
    hide Parse, Known, WellFormed, NamesDiffer, NamesUsable, Answers, Name;
    AllMeanings(lib, specs);
    if AllParse(lib, specs) {
      NamesMeaning(lib, specs);
      UsableNames(lib, specs);
    }
    var read := ReadSpecs(lib, specs);
    if read.Err? {
      return Err(read.error);
    }
    assert DEFAULT_RETRIEVAL[7] != DEFAULT_STORAGE[7];
    r := Select(lib, DEFAULT_RETRIEVAL, DEFAULT_STORAGE, read.value);
    if r.Err? {
      var n :| n in read.value && n !in Known(lib) + DEFAULTS.Keys;
      var i :| 0 <= i < |specs| && Name(lib, specs[i]) == n;
    } else {
      AnswersMeaning(lib, specs, read.value);
    }
  }

  lemma {:induction false} TwiceMeansTwoPlaces(s: seq<string>, a: string)
    ensures multiset(s)[a] >= 2 <==> exists i, j :: 0 <= i < j < |s| && s[i] == a && s[j] == a
  {
    if s != [] {
      var n := |s| - 1;
      var before := s[..n];
      assert s == before + [s[n]];
      TwiceMeansTwoPlaces(before, a);
      if s[n] == a && multiset(s)[a] >= 2 {
        assert a in multiset(before);
        var i :| 0 <= i < n && before[i] == a;
        assert s[i] == a && s[n] == a;
      }
      if i, j :| 0 <= i < j < |s| && s[i] == a && s[j] == a {
        assert before[i] == a;
        if j < n { assert before[j] == a; }
      }
    }
  }

  lemma SameMembers(a: seq<string>, b: seq<string>)
    requires multiset(a) == multiset(b)
    ensures forall s :: s in a <==> s in b
  {
    assert forall s :: s in a <==> s in multiset(a);
    assert forall s :: s in b <==> s in multiset(b);
  }

  lemma DistinctInAnyOrder(lib: Library, a: seq<string>, b: seq<string>, i: nat, j: nat)
    requires multiset(a) == multiset(b) && i < j < |b|
    requires AllParse(lib, a) && DistinctNames(lib, a) && AllParse(lib, b)
    ensures Name(lib, b[i]) != Name(lib, b[j])
  {
    SameMembers(a, b);
    if b[i] == b[j] {
      TwiceMeansTwoPlaces(b, b[i]);
      TwiceMeansTwoPlaces(a, b[i]);
      assert false;
    }
    assert b[i] in a && b[j] in a;
    var k :| 0 <= k < |a| && a[k] == b[i];
    var l :| 0 <= l < |a| && a[l] == b[j];
  }

  lemma GivesIsUnique(lib: Library, specs: seq<string>, m: Timeouts, m': Timeouts)
    requires AllParse(lib, specs) && Gives(lib, specs, m) && Gives(lib, specs, m')
    ensures m == m'
  {
  }

  /** Whether the specifications are accepted, and what they give, does not depend on their order. */
  lemma OrderDoesNotMatter(lib: Library, a: seq<string>, b: seq<string>, given: Timeouts)
    requires multiset(a) == multiset(b)
    requires AllParse(lib, a) && DistinctNames(lib, a) && Gives(lib, a, given)
    ensures AllParse(lib, b) && DistinctNames(lib, b) && Gives(lib, b, given)
    ensures forall other :: Gives(lib, b, other) ==> other == given
  {
    SameMembers(a, b);
    assert forall i | 0 <= i < |b| :: b[i] in a;
    forall i, j | 0 <= i < j < |b|
      ensures Name(lib, b[i]) != Name(lib, b[j])
    {
      DistinctInAnyOrder(lib, a, b, i, j);
    }
    forall n | n in given
      ensures exists i | 0 <= i < |b| :: Name(lib, b[i]) == n
    {
      var k :| 0 <= k < |a| && Name(lib, a[k]) == n;
      assert a[k] in b;
    }
    forall other | Gives(lib, b, other)
      ensures other == given
    {
      GivesIsUnique(lib, b, other, given);
    }
  }
}
