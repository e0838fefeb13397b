/** The string primitives that the log scanner relies on, as Go's strings and
    strconv packages define them on the inputs the scanner gives them. */
module Text {
  import opened Wrappers

  predicate OccursAt(s: string, sub: string, i: nat) {
    i + |sub| <= |s| && s[i..i + |sub|] == sub
  }

  /** strings.Contains */
  predicate Contains(s: string, sub: string) {
    exists i | 0 <= i <= |s| :: OccursAt(s, sub, i)
  }

  /** strings.TrimPrefix */
  function TrimPrefix(s: string, prefix: string): string {
    if prefix <= s then s[|prefix|..] else s
  }

  predicate IsDigit(c: char) { '0' <= c <= '9' }

  predicate AllDigits(s: string) { forall i | 0 <= i < |s| :: IsDigit(s[i]) }

  function DigitsValue(s: string): (n: int)
    requires AllDigits(s)
    ensures n >= 0
  {
    if s == "" then 0
    else 10 * DigitsValue(s[..|s| - 1]) + (s[|s| - 1] as int - '0' as int)
  }

  const INT64_LIMIT: int := 0x8000_0000_0000_0000

  /** strconv.ParseInt in base 10; `limit` is 2^(bitSize-1). */
  function ParseInt(s: string, limit: int): Option<int> {
    var signed := s != "" && (s[0] == '-' || s[0] == '+');
    var body := if signed then s[1..] else s;
    if body == "" || !AllDigits(body) then None
    else
      var n := if signed && s[0] == '-' then -DigitsValue(body) else DigitsValue(body);
      if -limit <= n < limit then Some(n) else None
  }

  /** strconv.Atoi on a 64-bit platform. */
  function Atoi(s: string): Option<int> { ParseInt(s, INT64_LIMIT) }

  function NatDigits(n: nat): (s: string)
    ensures s != "" && AllDigits(s)
  {
    var last := [('0' as int + n % 10) as char];
    if n < 10 then last else NatDigits(n / 10) + last
  }

  /** strconv.Itoa and the %d verb. */
  function Itoa(n: int): string {
    if n < 0 then "-" + NatDigits(-n) else NatDigits(n)
  }

  lemma {:induction false} NatDigitsValue(n: nat)
    ensures DigitsValue(NatDigits(n)) == n
  {
    var s := NatDigits(n);
    if n >= 10 {
      NatDigitsValue(n / 10);
      assert s[..|s| - 1] == NatDigits(n / 10);
    }
  }

  /** A printed integer reads back as itself: the decimal format and the parser agree. */
  lemma AtoiItoa(n: int)
    requires -INT64_LIMIT <= n < INT64_LIMIT
    ensures Atoi(Itoa(n)) == Some(n)
  {
    hide NatDigits, DigitsValue;
    if n < 0 {
      NatDigitsValue(-n);
      assert Itoa(n)[1..] == NatDigits(-n);
    } else {
      NatDigitsValue(n);
      assert IsDigit(NatDigits(n)[0]);
    }
  }

  lemma TrimPrefixConcat(prefix: string, rest: string)
    ensures TrimPrefix(prefix + rest, prefix) == rest
  {
  }

  lemma ContainsPrefix(prefix: string, rest: string, sub: string)
    requires sub <= prefix
    ensures Contains(prefix + rest, sub)
  {
    assert OccursAt(prefix + rest, sub, 0);
  }
}
