/** Percent coding of the parts of a URL. */
module UrlCoding {
  import opened Numerals

  datatype Maybe<T> = None | Some(value: T)

  /** A mask of the character table.  Every mask in use has bit 0x01, the characters that are never escaped. */
  datatype Mask = Mask(at: bool, colon: bool, slash: bool, question: bool, percent: bool)

  const USER: Mask := Mask(false, true, false, false, false)        // 0x05
  const PATH: Mask := Mask(true, true, true, false, false)          // 0x0F
  const TEXT: Mask := Mask(true, true, true, true, false)           // 0x1F
  const CODED_PATH: Mask := PATH.(percent := true)                  // 0x2F
  const CODED_TEXT: Mask := TEXT.(percent := true)                  // 0x3F

  predicate IsAlpha(c: char) { 'A' <= c <= 'Z' || 'a' <= c <= 'z' }

  /** Bit 0x01 of the table. */
  predicate IsPlain(c: char) {
    || IsAlpha(c) || IsNumber(c) || c == '!' || c == '$' || '&' <= c <= '.' || c == ';' || c == '=' || c == '_' ||
       c == '~'
  }

  predicate IsChar(c: char, m: Mask) {
    || IsPlain(c) || (m.at && c == '@') || (m.colon && c == ':') || (m.slash && c == '/') || (m.question && c == '?')
    || (m.percent && c == '%')
  }

  predicate IsChars(s: string, m: Mask) { forall k :: 0 <= k < |s| ==> IsChar(s[k], m) }

  predicate IsAscii(s: string) { forall k :: 0 <= k < |s| ==> s[k] < '\U{80}' }

  function HexChar(n: nat): char
    requires n < 16
  {
    if n < 10 then ('0' as int + n) as char else ('A' as int + n - 10) as char
  }

  /** The escape of an ASCII character. */
  function Escape(c: char): string
    requires c < '\U{80}'
  {
    ['%', HexChar(c as int / 16), HexChar(c as int % 16)]
  }

  // ---------- decoding ----------

  /** decode, and decode_plus when `plus` is set. */
  function Decode(s: string, plus: bool): Maybe<string> {
    if s == "" then Some("")
    else if s[0] == '%' then
      if |s| < 3 || HexDigit(s[1]) < 0 || HexDigit(s[2]) < 0 then None
      else Push((HexDigit(s[1]) * 16 + HexDigit(s[2])) as char, Decode(s[3..], plus))
    else Push(if plus && s[0] == '+' then ' ' else s[0], Decode(s[1..], plus))
  }

  function Push(c: char, r: Maybe<string>): Maybe<string> { if r.None? then None else Some([c] + r.value) }

  // ---------- encoding ----------

  datatype Style = Normal | QueryKey | QueryValue

  /** encode, encode_query_key and encode_query_val on one character. */
  function EncodeChar(c: char, m: Mask, style: Style): (s: string)
    requires c < '\U{80}'
    ensures s != ""
  {
    if !style.Normal? && c == ' ' then "+"
    else if !style.Normal? && (c == '+' || c == '&' || c == ';') then Escape(c)
    else if style.QueryKey? && c == '=' then Escape(c)
    else if IsChar(c, m) then [c]
    else Escape(c)
  }

  function Encode(s: string, m: Mask, style: Style): string
    requires IsAscii(s)
  {
    if s == "" then "" else EncodeChar(s[0], m, style) + Encode(s[1..], m, style)
  }

  lemma {:induction false} EscapeDecodes(c: char, t: string, plus: bool)
    requires c < '\U{80}'
    ensures Decode(Escape(c) + t, plus) == Push(c, Decode(t, plus))
  {
    var s := Escape(c) + t;
    assert s[0] == '%' && s[1] == HexChar(c as int / 16) && s[2] == HexChar(c as int % 16) && s[3..] == t;
  }

  lemma {:induction false} CharDecodes(c: char, t: string, m: Mask, style: Style)
    requires c < '\U{80}' && !m.percent
    ensures Decode(EncodeChar(c, m, style) + t, !style.Normal?) == Push(c, Decode(t, !style.Normal?))
  {
    var e := EncodeChar(c, m, style);
    if |e| == 1 {
      assert (e + t)[0] == e[0] && (e + t)[1..] == t;
    } else {
      EscapeDecodes(c, t, !style.Normal?);
    }
  }

  /** Decoding inverts encoding: `decode` the plain encoder, `decode_plus` both query encoders. */
  lemma {:induction false} DecodeEncode(s: string, m: Mask, style: Style)
    requires IsAscii(s) && !m.percent
    ensures Decode(Encode(s, m, style), !style.Normal?) == Some(s)
  {
    if s != "" {
      DecodeEncode(s[1..], m, style);
      CharDecodes(s[0], Encode(s[1..], m, style), m, style);
      assert s == [s[0]] + s[1..];
    }
  }

  /** The characters an encoder may produce: what its mask allows, and escapes; a query encoder none of the
      delimiters of the query. */
  predicate EncodedChar(c: char, m: Mask, style: Style) {
    && IsChar(c, m.(percent := true))
    && (!style.Normal? ==> c != '&' && c != ';') && (style.QueryKey? ==> c != '=')
  }

  lemma {:induction false} EncodedChars(s: string, m: Mask, style: Style)
    requires IsAscii(s)
    ensures forall k :: 0 <= k < |Encode(s, m, style)| ==> EncodedChar(Encode(s, m, style)[k], m, style)
    ensures Encode(s, m, style) == "" <==> s == ""
  {
    if s != "" {
      EncodedChars(s[1..], m, style);
      var e := EncodeChar(s[0], m, style);
      assert forall k :: 0 <= k < |e| ==> EncodedChar(e[k], m, style);
    }
  }

  /** What the mask allows is left as it is. */
  lemma {:induction false} EncodeIdentity(s: string, m: Mask)
    requires IsAscii(s) && IsChars(s, m)
    ensures Encode(s, m, Normal) == s
  {
    if s != "" {
      EncodeIdentity(s[1..], m);
      assert s == [s[0]] + s[1..];
    }
  }

  // ---------- the loops ----------

  function Prepend(o: string, r: Maybe<string>): Maybe<string> { if r.None? then None else Some(o + r.value) }

  lemma {:induction false} PrependPush(o: string, c: char, r: Maybe<string>)
    ensures Prepend(o, Push(c, r)) == Prepend(o + [c], r) && Prepend("", r) == r
  {
    if r.Some? { assert o + ([c] + r.value) == o + [c] + r.value && "" + r.value == r.value; }
  }

  method DecodeLoop(s: string, plus: bool) returns (r: Maybe<string>)
    ensures r == Decode(s, plus)
  {
    var o, i := "", 0;
    assert s[0..] == s;
    PrependPush("", 'x', Decode(s, plus));
    while i < |s|
      invariant 0 <= i <= |s|
      invariant Decode(s, plus) == Prepend(o, Decode(s[i..], plus))
    {
      var c := s[i];
      var n := 1;
      if c == '%' {
        if |s| - i < 3 || HexDigit(s[i + 1]) < 0 || HexDigit(s[i + 2]) < 0 {
          return None;
        }
        c := (HexDigit(s[i + 1]) * 16 + HexDigit(s[i + 2])) as char;
        n := 3;
      } else if plus && c == '+' {
        c := ' ';
      }
      assert s[i..][n..] == s[i + n..];
      PrependPush(o, c, Decode(s[i + n..], plus));
      o := o + [c];
      i := i + n;
    }
    assert s[i..] == "" && o + "" == o;
    return Some(o);
  }

  /** One character more of the text. */
  lemma {:induction false} EncodeOnwards(s: string, i: nat, m: Mask, style: Style, o: string)
    requires IsAscii(s) && i < |s|
    ensures o + Encode(s[i..], m, style) == o + EncodeChar(s[i], m, style) + Encode(s[i + 1..], m, style)
  {
    var t := s[i..];
    assert t[0] == s[i] && t[1..] == s[i + 1..];
    var a, b := EncodeChar(s[i], m, style), Encode(s[i + 1..], m, style);
    assert o + (a + b) == o + a + b;
  }

  method EncodeLoop(s: string, m: Mask, style: Style) returns (o: string)
    requires IsAscii(s)
    ensures o == Encode(s, m, style)
  {
    o := "";
    assert s[0..] == s;
    for i := 0 to |s|
      invariant Encode(s, m, style) == o + Encode(s[i..], m, style)
    {
      EncodeOnwards(s, i, m, style, o);
      o := o + EncodeChar(s[i], m, style);
    }
  }
}
