/**
 * The "n" rendering of a GUID, as used for a new item's id: 32 lower-case
 * hexadecimal digits with no hyphens. A GUID is taken here as the 128-bit
 * number those digits spell, most significant digit first.
 */
module Guids {

  /** Number of digits in the "n" format. */
  const GuidDigits: nat := 32

  function Pow16(n: nat): (r: nat)
    ensures r > 0
  {
    if n == 0 then 1 else 16 * Pow16(n - 1)
  }

  /** A GUID: any 128-bit value. */
  type Guid = g: nat | g < Pow16(GuidDigits) witness 0

  predicate IsLowerHexDigit(c: char) {
    '0' <= c <= '9' || 'a' <= c <= 'f'
  }

  predicate IsLowerHex(s: string) {
    forall i :: 0 <= i < |s| ==> IsLowerHexDigit(s[i])
  }

  /** The shape of every id that a new item receives. */
  predicate IsGuidN(s: string) {
    |s| == GuidDigits && IsLowerHex(s)
  }

  function DigitValue(c: char): (d: nat)
    requires IsLowerHexDigit(c)
    ensures d < 16
  {
    if c <= '9' then c as int - '0' as int else c as int - 'a' as int + 10
  }

  function HexDigit(d: nat): (c: char)
    requires d < 16
    ensures IsLowerHexDigit(c) && DigitValue(c) == d
  {
    if d < 10 then ('0' as int + d) as char else ('a' as int + d - 10) as char
  }

  /** The n-digit lower-case hex rendering of v, most significant digit first. */
  function FormatHex(v: nat, n: nat): (s: string)
    requires v < Pow16(n)
    ensures |s| == n && IsLowerHex(s)
  {
    if n == 0 then "" else FormatHex(v / 16, n - 1) + [HexDigit(v % 16)]
  }

  /** The value a lower-case hex string spells. */
  function ParseHex(s: string): (v: nat)
    requires IsLowerHex(s)
    ensures v < Pow16(|s|)
  {
    if s == [] then 0
    else
      assert IsLowerHex(s[..|s| - 1]);
      16 * ParseHex(s[..|s| - 1]) + DigitValue(s[|s| - 1])
  }

  lemma {:induction false} ParseFormatHex(v: nat, n: nat)
    requires v < Pow16(n)
    ensures ParseHex(FormatHex(v, n)) == v
  {
    if n > 0 {
      var s := FormatHex(v, n);
      assert s[..n - 1] == FormatHex(v / 16, n - 1);
      ParseFormatHex(v / 16, n - 1);
    }
  }

  lemma {:induction false} FormatParseHex(s: string)
    requires IsLowerHex(s)
    ensures FormatHex(ParseHex(s), |s|) == s
  {
    if s != [] {
      var n := |s|;
      var init, last := s[..n - 1], s[n - 1];
      assert IsLowerHex(init);
      var a, d := ParseHex(init), DigitValue(last);
      var v := ParseHex(s);
      assert v == 16 * a + d;
      SplitLastDigit(a, d, v);
      assert FormatHex(v, n) == FormatHex(a, n - 1) + [HexDigit(d)];
      FormatParseHex(init);
      assert s == init + [last];
    }
  }

  /** Dividing 16a + d by 16 recovers a and d. */
  lemma SplitLastDigit(a: nat, d: nat, v: nat)
    requires d < 16 && v == 16 * a + d
    ensures v / 16 == a && v % 16 == d
  {
  }

  /** Guid.ToString("n"). */
  function FormatN(g: Guid): (id: string)
    ensures IsGuidN(id)
  {
    FormatHex(g, GuidDigits)
  }

  /** Different GUIDs give different ids. */
  lemma FormatNInjective(a: Guid, b: Guid)
    requires FormatN(a) == FormatN(b)
    ensures a == b
  {
    ParseFormatHex(a, GuidDigits);
    ParseFormatHex(b, GuidDigits);
  }

  /** Every 32-digit lower-case hex string is the id of exactly one GUID. */
  lemma FormatNOnto(s: string)
    requires IsGuidN(s)
    ensures ParseHex(s) < Pow16(GuidDigits) && FormatN(ParseHex(s)) == s
  {
    FormatParseHex(s);
  }
}
