/** Decimal numbers and dotted quads, as is_uint and is_valid_ipv4 read them. */
module Ipv4 {
  import opened Numerals
  import opened Words

  /** The digits that is_uint reads: one zero, or all digits, in a 32-bit word. */
  function UintDigits(s: string): (n: nat)
    ensures n <= |s|
  {
    if s == "" || !IsNumber(s[0]) then 0 else if s[0] == '0' then 1 else 1 + MoreDigits(s[1..])
  }

  function MoreDigits(s: string): (n: nat)
    ensures n <= |s|
  {
    if s == "" || !IsNumber(s[0]) then 0 else 1 + MoreDigits(s[1..])
  }

  function UintValue(d: string): nat {
    if d == "" || HexDigit(d[|d| - 1]) < 0 then 0
    else Wrap32(UintValue(d[..|d| - 1]) * 10 + HexDigit(d[|d| - 1]))
  }

  /** is_uint: the length of the number at the start of `s`, or 0. */
  function ReadUint(s: string, max: nat): (n: nat)
    ensures n <= |s|
  {
    var n := UintDigits(s);
    if UintValue(s[..n]) > max then 0 else n
  }

  predicate IsQuad(s: string, dots: nat)
    decreases dots
  {
    var n := ReadUint(s, 255);
    n > 0 && (if dots == 0 then n == |s| else n < |s| && s[n] == '.' && IsQuad(s[n + 1..], dots - 1))
  }

  predicate IsValidIpv4(s: string) { IsQuad(s, 3) }

  // ---------- the text of a quad ----------

  predicate QuadChar(c: char) { c == '.' || IsNumber(c) }

  predicate QuadText(s: string) { forall k :: 0 <= k < |s| ==> QuadChar(s[k]) }

  lemma {:induction false} MoreDigitsAre(s: string)
    ensures forall k :: 0 <= k < MoreDigits(s) ==> IsNumber(s[k])
  {
    if s != "" && IsNumber(s[0]) { MoreDigitsAre(s[1..]); }
  }

  lemma {:induction false} UintDigitsAre(s: string)
    ensures forall k :: 0 <= k < UintDigits(s) ==> IsNumber(s[k])
  {
    if s != "" && IsNumber(s[0]) && s[0] != '0' {
      MoreDigitsAre(s[1..]);
      assert forall k :: 0 < k < UintDigits(s) ==> s[k] == s[1..][k - 1];
    }
  }

  /** A quad holds digits and its dots, and ends with a digit. */
  lemma {:induction false} QuadShape(s: string, dots: nat)
    requires IsQuad(s, dots)
    ensures |s| >= 2 * dots + 1 && QuadText(s) && IsNumber(s[|s| - 1]) && IsNumber(s[0])
    ensures dots > 0 ==> UintDigits(s) < |s| && s[UintDigits(s)] == '.'
    decreases dots
  {
    var n := ReadUint(s, 255);
    UintDigitsAre(s);
    if dots > 0 {
      var t := s[n + 1..];
      QuadShape(t, dots - 1);
      assert forall k :: n < k < |s| ==> s[k] == t[k - n - 1];
    }
  }
}
