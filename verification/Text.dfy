/** Text operations the source takes from Rust's standard library. */
module Text {

  const U32_MAX: nat := 0xFFFF_FFFF

  /** Rust's `char::is_whitespace`: the Unicode White_Space property. */
  predicate IsWhitespace(c: char) {
    var n := c as int;
    || 0x9 <= n <= 0xD
    || n in {0x20, 0x85, 0xA0, 0x1680, 0x2028, 0x2029, 0x202F, 0x205F, 0x3000}
    || 0x2000 <= n <= 0x200A
  }

  /** `s.trim().is_empty()` */
  predicate IsBlank(s: string) {
    forall i :: 0 <= i < |s| ==> IsWhitespace(s[i])
  }

  predicate StartsWith(s: string, prefix: string) {
    prefix <= s
  }

  predicate OccursAt(s: string, t: string, i: int) {
    0 <= i <= |s| - |t| && s[i..i + |t|] == t
  }

  /** `s.contains(t)` */
  predicate Contains(s: string, t: string) {
    exists i :: 0 <= i <= |s| && OccursAt(s, t, i)
  }

  lemma ContainsItsParts(before: string, t: string, after: string)
    ensures Contains(before + t + after, t)
  {
    var s := before + t + after;
    assert s[|before|..|before| + |t|] == t;
    assert OccursAt(s, t, |before|);
  }

  lemma ContainedPart(s: string, t: string) returns (before: string, after: string)
    requires Contains(s, t)
    ensures s == before + t + after
  {
    var i :| 0 <= i <= |s| && OccursAt(s, t, i);
    before, after := s[..i], s[i + |t|..];
  }

  function Digit(d: nat): char
    requires d < 10
  {
    ('0' as int + d) as char
  }

  /** A natural number in decimal, as `format!("{n}")` prints it. */
  function Decimal(n: nat): (r: string)
    ensures |r| > 0
    ensures forall i :: 0 <= i < |r| ==> '0' <= r[i] <= '9'
  {
    if n < 10 then [Digit(n)] else Decimal(n / 10) + [Digit(n % 10)]
  }

  function DigitValue(c: char): nat
    requires '0' <= c <= '9'
  {
    c as int - '0' as int
  }

  /** Reads a decimal numeral back. */
  function ReadDecimal(s: string): nat
    requires forall i :: 0 <= i < |s| ==> '0' <= s[i] <= '9'
  {
    if s == [] then 0 else ReadDecimal(s[..|s| - 1]) * 10 + DigitValue(s[|s| - 1])
  }

  lemma {:induction false} ReadDecimalOfDecimal(n: nat)
    ensures ReadDecimal(Decimal(n)) == n
  {
    if n >= 10 {
      var d := Decimal(n);
      assert d[..|d| - 1] == Decimal(n / 10);
      ReadDecimalOfDecimal(n / 10);
    } else {
      assert Decimal(n)[..0] == [];
    }
  }
}
