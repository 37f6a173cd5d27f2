/** Numbers in text: decimal and hexadecimal digits, and the values of runs of them. */
module Numerals {
  predicate IsNumber(c: char) { '0' <= c <= '9' }

  function Digit(c: char): nat
    requires IsNumber(c)
  {
    c as int - '0' as int
  }

  /** How many decimal digits `t` starts with. */
  function LeadingDigits(t: string): (n: nat)
    ensures n <= |t| && (forall k :: 0 <= k < n ==> IsNumber(t[k])) && (n < |t| ==> !IsNumber(t[n]))
  {
    if t != "" && IsNumber(t[0]) then 1 + LeadingDigits(t[1..]) else 0
  }

  predicate AllDigits(d: string) { forall k :: 0 <= k < |d| ==> IsNumber(d[k]) }

  function Decimal(d: string): nat
    requires AllDigits(d)
  {
    if d == "" then 0 else Decimal(d[..|d| - 1]) * 10 + Digit(d[|d| - 1])
  }

  /** The value of a hexadecimal digit in either case, or -1. */
  function HexDigit(c: char): int {
    if IsNumber(c) then c as int - '0' as int
    else if 'A' <= c <= 'F' then c as int - 'A' as int + 10
    else if 'a' <= c <= 'f' then c as int - 'a' as int + 10
    else -1
  }

  predicate IsHexDigit(c: char) { HexDigit(c) >= 0 }

  predicate AllHex(t: string) { forall k :: 0 <= k < |t| ==> IsHexDigit(t[k]) }

  function HexValue(t: string): nat
    requires AllHex(t)
  {
    if t == "" then 0 else HexValue(t[..|t| - 1]) * 16 + HexDigit(t[|t| - 1])
  }
}
