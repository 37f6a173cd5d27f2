/** The normal form of IPv6 addresses, with and without a dotted-quad tail. */
module Ipv6 {
  import opened Numerals
  import opened Sequences
  import opened Words
  import opened Ipv4
  import opened TextSplit

  // ---------- tokens ----------

  /** A group of one to four hexadecimal digits. */
  predicate IsGroup(t: string) { 1 <= |t| <= 4 && AllHex(t) }

  predicate IsToken(t: string) { |t| <= 4 && AllHex(t) }

  predicate AllTokens(ts: seq<string>) { forall k :: 0 <= k < |ts| ==> IsToken(ts[k]) }

  function Empties(ts: seq<string>): nat {
    if ts == [] then 0 else Empties(ts[..|ts| - 1]) + if ts[|ts| - 1] == "" then 1 else 0
  }

  /** The text between colons, one colon at either end not counted. */
  function Inner(s: string): string
    requires |s| >= 2
  {
    var a := if s[0] == ':' then s[1..] else s;
    if s[|s| - 1] == ':' then a[..|a| - 1] else a
  }

  function Tokens(s: string): seq<string>
    requires |s| >= 2
  {
    Split(':', Inner(s))
  }

  /** A dotted quad at the end, which is kept as it is written.  Its first number has no more digits than a
      group. */
  predicate IsTail(q: string) { IsValidIpv4(q) && UintDigits(q) <= 4 }

  predicate GoodTail(tail: seq<string>) { tail == [] || (|tail| == 1 && IsTail(tail[0])) }

  predicate HasTail(ts: seq<string>) { ts != [] && |ts[|ts| - 1]| > 5 }

  /** A last token that is too long for a group is the tail. */
  function TailOf(ts: seq<string>): seq<string> { if HasTail(ts) then [ts[|ts| - 1]] else [] }

  function HeadOf(ts: seq<string>): seq<string> { if HasTail(ts) then ts[..|ts| - 1] else ts }

  /** A tail stands for two of the eight groups. */
  function Width(tail: seq<string>): nat { if tail == [] then 8 else 6 }

  /** All groups, or fewer with one empty token for the groups left out. */
  predicate ValidParts(gs: seq<string>, tail: seq<string>) {
    && GoodTail(tail) && AllTokens(gs)
    && ((Empties(gs) == 0 && |gs| == Width(tail)) || (Empties(gs) == 1 && 2 <= |gs| + |tail| <= 8))
  }

  predicate ValidTokens(ts: seq<string>) { ValidParts(HeadOf(ts), TailOf(ts)) }

  lemma {:induction false} TailShape(q: string)
    requires IsTail(q)
    ensures |q| >= 7 && ':' !in q && q[|q| - 1] != ':' && QuadText(q)
  {
    QuadShape(q, 3);
    assert !QuadChar(':');
  }

  lemma {:induction false} PartsOf(gs: seq<string>, tail: seq<string>, ts: seq<string>)
    requires GoodTail(tail) && AllTokens(gs) && ts == gs + tail
    ensures HeadOf(ts) == gs && TailOf(ts) == tail
  {
    if tail == [] {
      assert ts == gs;
      if gs != [] { assert IsToken(gs[|gs| - 1]); }
    } else {
      TailShape(tail[0]);
      assert ts[..|ts| - 1] == gs;
    }
  }

  lemma {:induction false} PartsJoin(ts: seq<string>)
    ensures HeadOf(ts) + TailOf(ts) == ts
  {}

  // ---------- fields ----------

  function Values(ts: seq<string>): (f: seq<nat>)
    requires AllTokens(ts)
    ensures |f| == |ts| && forall k :: 0 <= k < |f| ==> f[k] == HexValue(ts[k])
  {
    seq(|ts|, k requires 0 <= k < |ts| => HexValue(ts[k]))
  }

  function Zeros(n: nat): (f: seq<nat>)
    ensures |f| == n && forall k :: 0 <= k < n ==> f[k] == 0
  {
    seq(n, _ => 0)
  }

  /** Position of the empty token, or the number of tokens. */
  function NullAt(ts: seq<string>): (k: nat)
    ensures k <= |ts| && (k < |ts| ==> ts[k] == "") && forall i :: 0 <= i < k ==> ts[i] != ""
  {
    if ts == [] then 0 else if ts[0] == "" then 0 else NullAt(ts[1..]) + 1
  }

  /** The fields that the groups denote. */
  function Expand(gs: seq<string>, tail: seq<string>): (f: seq<nat>)
    requires ValidParts(gs, tail)
    ensures |f| == Width(tail)
  {
    var k := NullAt(gs);
    NullCounts(gs);
    if k == |gs| then Values(gs) else Values(gs[..k]) + Zeros(Width(tail) + 1 - |gs|) + Values(gs[k + 1..])
  }

  /** An address: its fields, and its tail as written. */
  datatype Address = Address(fields: seq<nat>, tail: seq<string>)

  function AddressOf(ts: seq<string>): Address
    requires ValidTokens(ts)
  {
    Address(Expand(HeadOf(ts), TailOf(ts)), TailOf(ts))
  }

  lemma {:induction false} EmptiesConcat(a: seq<string>, b: seq<string>)
    ensures Empties(a + b) == Empties(a) + Empties(b)
  {
    if b == [] {
      assert a + b == a;
    } else {
      EmptiesConcat(a, b[..|b| - 1]);
      assert (a + b)[..|a + b| - 1] == a + b[..|b| - 1];
    }
  }

  lemma {:induction false} NoEmpties(ts: seq<string>)
    ensures Empties(ts) == 0 <==> forall k :: 0 <= k < |ts| ==> ts[k] != ""
  {
    if ts != [] { NoEmpties(ts[..|ts| - 1]); }
  }

  lemma {:induction false} NullCounts(ts: seq<string>)
    ensures NullAt(ts) == |ts| <==> Empties(ts) == 0
  {
    NoEmpties(ts);
    if NullAt(ts) < |ts| { assert ts[NullAt(ts)] == ""; }
  }

  // ---------- the longest run of zeros ----------

  datatype Run = Run(pos: nat, len: nat)

  /** Zeros from `i` on. */
  function ZerosFrom(f: seq<nat>, i: nat): (n: nat)
    requires i <= |f|
    ensures i + n <= |f| && (forall k :: i <= k < i + n ==> f[k] == 0) && (i + n < |f| ==> f[i + n] != 0)
    decreases |f| - i
  {
    if i == |f| || f[i] != 0 then 0 else ZerosFrom(f, i + 1) + 1
  }

  /** The first of the longest runs of zeros that start at `i` or later. */
  function BestFrom(f: seq<nat>, i: nat): (r: Run)
    requires i <= |f|
    ensures r.pos <= |f| && r.pos + r.len <= |f|
    ensures r.len > 0 ==> i <= r.pos && r.len == ZerosFrom(f, r.pos)
    ensures r.len == 0 ==> r.pos == |f|
    decreases |f| - i
  {
    if i == |f| then Run(|f|, 0)
    else
      var n, b := ZerosFrom(f, i), BestFrom(f, i + 1);
      if n > 0 && n >= b.len then Run(i, n) else b
  }

  predicate ZeroRange(f: seq<nat>, a: nat, b: nat) { a < b <= |f| && forall k :: a <= k < b ==> f[k] == 0 }

  /** No run of zeros is longer, and none as long starts earlier. */
  ghost predicate IsBest(f: seq<nat>, r: Run) {
    && (r.len > 0 ==> ZeroRange(f, r.pos, r.pos + r.len)) && (r.len == 0 ==> r.pos == |f|)
    && forall a: nat, b: nat {:trigger ZeroRange(f, a, b)} ::
       ZeroRange(f, a, b) ==> b - a < r.len || (b - a == r.len && r.pos <= a)
  }

  lemma {:induction false} BestFromIsBest(f: seq<nat>, i: nat)
    requires i <= |f|
    ensures var r := BestFrom(f, i);
      && (r.len > 0 ==> ZeroRange(f, r.pos, r.pos + r.len))
      && forall a: nat, b: nat {:trigger ZeroRange(f, a, b)} ::
         i <= a && ZeroRange(f, a, b) ==> b - a < r.len || (b - a == r.len && r.pos <= a)
    decreases |f| - i
  {
    if i < |f| {
      BestFromIsBest(f, i + 1);
      var n, r := ZerosFrom(f, i), BestFrom(f, i);
      forall a: nat, b: nat | i <= a && ZeroRange(f, a, b) ensures b - a < r.len || (b - a == r.len && r.pos <= a) {
        if a == i {
          RangeWithin(f, i, b);
        }
      }
    }
  }

  lemma {:induction false} RangeWithin(f: seq<nat>, i: nat, b: nat)
    requires ZeroRange(f, i, b)
    ensures b - i <= ZerosFrom(f, i)
  {
    var n := ZerosFrom(f, i);
    assert i + n < |f| ==> f[i + n] != 0;
  }

  lemma {:induction false} BestIsUnique(f: seq<nat>, r: Run)
    requires IsBest(f, r)
    ensures r == BestFrom(f, 0)
  {
    var s := BestFrom(f, 0);
    BestFromIsBest(f, 0);
    if r.len > 0 { assert ZeroRange(f, r.pos, r.pos + r.len); }
    if s.len > 0 { assert ZeroRange(f, s.pos, s.pos + s.len); }
  }

  // ---------- printing ----------

  function HexLower(n: nat): (c: char)
    requires n < 16
    ensures HexDigit(c) == n
  {
    if n < 10 then ('0' as int + n) as char else ('a' as int + n - 10) as char
  }

  /** A field as std::hex prints it. */
  function HexText(v: nat): (t: string)
    ensures t != "" && AllHex(t) && HexValue(t) == v
  {
    if v < 16 then
      var t := [HexLower(v)];
      assert t[..0] == "";
      t
    else
      var r := HexText(v / 16);
      var t := r + [HexLower(v % 16)];
      assert t[..|r|] == r;
      t
  }

  lemma {:induction false} HexTextShort(v: nat)
    requires v < 0x1_0000
    ensures IsGroup(HexText(v)) && ':' !in HexText(v)
  {
    assert v / 16 / 16 / 16 < 16;
    assert |HexText(v)| <= 4 by {
      assert |HexText(v / 16 / 16 / 16)| == 1 && |HexText(v / 16 / 16)| <= 2 && |HexText(v / 16)| <= 3;
    }
    assert !IsHexDigit(':');
  }

  predicate AllFields(f: seq<nat>) { forall k :: 0 <= k < |f| ==> f[k] < 0x1_0000 }

  function Texts(f: seq<nat>): (ts: seq<string>)
    ensures |ts| == |f| && forall k :: 0 <= k < |f| ==> ts[k] == HexText(f[k])
  {
    seq(|f|, k requires 0 <= k < |f| => HexText(f[k]))
  }

  /** The text of an address.  A run of two zeros or more is left out; eight zeros give a single colon. */
  function TextOf(a: Address): string { TextWithout(a, BestFrom(a.fields, 0)) }

  function TextWithout(a: Address, r: Run): string
    requires r.pos + r.len <= |a.fields|
  {
    if r.len < 2 then Join(':', Texts(a.fields) + a.tail)
    else if r.len == |a.fields| && a.tail == [] then ":"
    else Join(':', Texts(a.fields[..r.pos])) + "::" + Join(':', Texts(a.fields[r.pos + r.len..]) + a.tail)
  }

  /** The text of an address in which a run of zeros is left out. */
  lemma {:induction false} RunText(a: Address, r: Run, x: string, z: string)
    requires r == BestFrom(a.fields, 0) && r.len >= 2 && (r.len < |a.fields| || a.tail != [])
    requires x == Join(':', Texts(a.fields[..r.pos])) && z == Join(':', Texts(a.fields[r.pos + r.len..]) + a.tail)
    ensures TextOf(a) == x + "::" + z
  {}

  /** normalize_IPv6 */
  function NormalizeIpv6(s: string): string
    requires |s| >= 2 && (s == "::" || ValidTokens(Tokens(s)))
  {
    if s == "::" then s else TextOf(AddressOf(Tokens(s)))
  }

  // ---------- reading back ----------

  lemma {:induction false} JoinEnds(sep: char, es: seq<string>)
    requires es != [] && es[|es| - 1] != ""
    ensures Join(sep, es) != "" && Join(sep, es)[|Join(sep, es)| - 1] == es[|es| - 1][|es[|es| - 1]| - 1]
  {}

  /** Groups, and perhaps a tail, as they are printed. */
  predicate AllWords(es: seq<string>) { forall k :: 0 <= k < |es| ==> es[k] != "" && IsSegment(':', es[k]) }

  /** Joined words: cut back into themselves, with no colon at either end. */
  lemma {:induction false} WordsJoin(es: seq<string>)
    requires AllWords(es) && es != []
    ensures var j := Join(':', es); j != "" && j[0] != ':' && j[|j| - 1] != ':' && Split(':', j) == es
  {
    var a, b := es[0], es[|es| - 1];
    assert a[0] in a && b[|b| - 1] in b;
    JoinStarts(':', es);
    JoinEnds(':', es);
    SplitJoin(':', es);
  }

  lemma {:induction false} TextsAreWords(f: seq<nat>, tail: seq<string>)
    requires AllFields(f) && GoodTail(tail)
    ensures AllWords(Texts(f)) && AllWords(tail) && AllWords(Texts(f) + tail)
  {
    forall k | 0 <= k < |f| ensures Texts(f)[k] != "" && IsSegment(':', Texts(f)[k]) { HexTextShort(f[k]); }
    if tail != [] { TailShape(tail[0]); }
  }

  lemma {:induction false} ValuesOfTexts(f: seq<nat>)
    requires AllTokens(Texts(f))
    ensures Values(Texts(f)) == f
  {}

  lemma {:induction false} FrontTokens(y: string, t: string)
    requires y != "" && y[|y| - 1] != ':' && t == "::" + y
    ensures Tokens(t) == [""] + Split(':', y)
  {
    var i := [':'] + y;
    assert t[0] == ':' && t[1..] == i && t[|t| - 1] == y[|y| - 1];
    assert Inner(t) == i;
    SplitInFront(':', y);
  }

  lemma {:induction false} BackTokens(x: string, t: string)
    requires x != "" && x[0] != ':' && t == x + "::"
    ensures Tokens(t) == Split(':', x) + [""]
  {
    assert t[0] == x[0] && t[|t| - 1] == ':' && t[..|t| - 1] == x + [':'];
    SplitSeparator(':', x);
  }

  lemma {:induction false} MiddleTokens(x: string, y: string, t: string)
    requires x != "" && x[0] != ':' && y != "" && y[|y| - 1] != ':' && t == x + "::" + y
    ensures Tokens(t) == Split(':', x) + ([""] + Split(':', y))
  {
    assert t[0] == x[0] && t[|t| - 1] == y[|y| - 1] && t == x + [':'] + ([':'] + y);
    SplitConcat(':', x, [':'] + y);
    SplitInFront(':', y);
  }

  /** The tokens of a compressed address: the words before the run, an empty token, the words after it. */
  function CompressedTokens(a: seq<string>, b: seq<string>): seq<string> { a + ([""] + b) }

  lemma {:induction false} FrontCompressed(b: seq<string>, y: string, t: string)
    requires AllWords(b) && b != [] && y == Join(':', b) && t == "::" + y
    ensures |t| >= 3 && Tokens(t) == CompressedTokens([], b)
  {
    WordsJoin(b);
    FrontTokens(y, t);
    assert [] + ([""] + b) == [""] + b;
  }

  lemma {:induction false} BackCompressed(a: seq<string>, x: string, t: string)
    requires AllWords(a) && a != [] && x == Join(':', a) && t == x + "::"
    ensures |t| >= 3 && Tokens(t) == CompressedTokens(a, [])
  {
    WordsJoin(a);
    BackTokens(x, t);
    assert [""] + [] == [""];
  }

  lemma {:induction false} MiddleCompressed(a: seq<string>, b: seq<string>, x: string, y: string, t: string)
    requires AllWords(a) && AllWords(b) && a != [] && b != [] && x == Join(':', a) && y == Join(':', b)
    requires t == x + "::" + y
    ensures |t| >= 3 && Tokens(t) == CompressedTokens(a, b)
  {
    WordsJoin(a);
    WordsJoin(b);
    MiddleTokens(x, y, t);
  }

  lemma {:induction false} CompressedReads(a: seq<string>, b: seq<string>, x: string, y: string, t: string)
    requires AllWords(a) && AllWords(b) && (a != [] || b != []) && x == Join(':', a) && y == Join(':', b)
    requires t == x + "::" + y
    ensures |t| >= 3 && Tokens(t) == CompressedTokens(a, b)
  {
    if a == [] {
      assert x == "" && t == "::" + y;
      FrontCompressed(b, y, t);
    } else if b == [] {
      assert y == "" && t == x + "::";
      BackCompressed(a, x, t);
    } else {
      MiddleCompressed(a, b, x, y, t);
    }
  }

  lemma {:induction false} TextsAreGroups(f: seq<nat>)
    requires AllFields(f)
    ensures AllTokens(Texts(f)) && Empties(Texts(f)) == 0 && Values(Texts(f)) == f
  {
    forall k | 0 <= k < |f| ensures IsGroup(Texts(f)[k]) { HexTextShort(f[k]); }
    NoEmpties(Texts(f));
    ValuesOfTexts(f);
  }

  lemma {:induction false} NullBetween(x: seq<string>, y: seq<string>, ts: seq<string>)
    requires Empties(x) == 0 && Empties(y) == 0 && ts == x + ([""] + y)
    ensures Empties(ts) == 1 && NullAt(ts) == |x| && ts[..|x|] == x && ts[|x| + 1..] == y
  {
    EmptiesConcat(x, [""] + y);
    EmptiesConcat([""], y);
    assert Empties([""]) == Empties([""][..0]) + 1 == 1;
    NoEmpties(x);
    assert ts[|x|] == "" && forall k :: 0 <= k < |x| ==> ts[k] == x[k];
    assert ts[|x| + 1..] == y;
  }

  lemma {:induction false} TokensAround(x: seq<string>, y: seq<string>, ts: seq<string>)
    requires AllTokens(x) && AllTokens(y) && ts == x + ([""] + y)
    ensures AllTokens(ts)
  {
    forall k | 0 <= k < |ts| ensures IsToken(ts[k]) {
      if k > |x| { assert ts[k] == y[k - |x| - 1]; }
    }
  }

  /** An empty token between groups stands for zeros. */
  lemma {:induction false} ExpandAround(x: seq<string>, y: seq<string>, tail: seq<string>, gs: seq<string>, n: nat)
    requires AllTokens(x) && AllTokens(y) && Empties(x) == 0 && Empties(y) == 0 && gs == CompressedTokens(x, y)
    requires GoodTail(tail) && |x| + n + |y| == Width(tail) && 2 <= n < 8
    ensures ValidParts(gs, tail) && Expand(gs, tail) == Values(x) + Zeros(n) + Values(y)
  {
    TokensAround(x, y, gs);
    NullBetween(x, y, gs);
  }

  lemma {:induction false} ExpandCompressed(a: seq<nat>, n: nat, b: seq<nat>, tail: seq<string>, ts: seq<string>)
    requires AllFields(a) && AllFields(b) && GoodTail(tail) && |a| + n + |b| == Width(tail) && 2 <= n < 8
    requires ts == CompressedTokens(Texts(a), Texts(b) + tail)
    ensures ValidTokens(ts) && AddressOf(ts) == Address(a + Zeros(n) + b, tail)
  {
    var gs := CompressedTokens(Texts(a), Texts(b));
    TextsAreGroups(a);
    TextsAreGroups(b);
    ExpandAround(Texts(a), Texts(b), tail, gs, n);
    Assoc([""], Texts(b), tail);
    Assoc(Texts(a), [""] + Texts(b), tail);
    PartsOf(gs, tail, ts);
  }

  predicate AllZero(f: seq<nat>) { forall k :: 0 <= k < |f| ==> f[k] == 0 }

  lemma {:induction false} AllZeroRun(f: seq<nat>)
    requires |f| > 0
    ensures BestFrom(f, 0).len == |f| <==> AllZero(f)
  {
    BestFromIsBest(f, 0);
    if AllZero(f) { assert ZeroRange(f, 0, |f|); }
  }

  lemma {:induction false} RunSplits(f: seq<nat>, r: Run, a: seq<nat>, b: seq<nat>)
    requires r == BestFrom(f, 0) && r.len > 0 && a == f[..r.pos] && b == f[r.pos + r.len..]
    ensures f == a + Zeros(r.len) + b
  {}

  predicate WellFormed(a: Address) { |a.fields| == Width(a.tail) && AllFields(a.fields) && GoodTail(a.tail) }

  /** Eight zeros, and no tail. */
  predicate Nothing(a: Address) { a.tail == [] && AllZero(a.fields) }

  /** What is printed denotes the same address, unless it is eight zeros. */
  lemma {:induction false} TextReads(a: Address)
    requires WellFormed(a) && !Nothing(a)
    ensures var t := TextOf(a); |t| >= 3 && ValidTokens(Tokens(t)) && AddressOf(Tokens(t)) == a
  {
    var r := BestFrom(a.fields, 0);
    AllZeroRun(a.fields);
    if r.len < 2 {
      PlainReads(a, TextOf(a));
    } else {
      RunReads(a, r, a.fields[..r.pos], a.fields[r.pos + r.len..], TextOf(a));
    }
  }

  lemma {:induction false} RunReads(a: Address, r: Run, x: seq<nat>, y: seq<nat>, t: string)
    requires WellFormed(a) && r == BestFrom(a.fields, 0) && 2 <= r.len < 8
    requires x == a.fields[..r.pos] && y == a.fields[r.pos + r.len..]
    requires t == Join(':', Texts(x)) + "::" + Join(':', Texts(y) + a.tail)
    ensures |t| >= 3 && ValidTokens(Tokens(t)) && AddressOf(Tokens(t)) == a
  {
    TextsAreWords(x, []);
    TextsAreWords(y, a.tail);
    RunSplits(a.fields, r, x, y);
    CompressedReads(Texts(x), Texts(y) + a.tail, Join(':', Texts(x)), Join(':', Texts(y) + a.tail), t);
    ExpandCompressed(x, r.len, y, a.tail, Tokens(t));
  }

  lemma {:induction false} PlainReads(a: Address, t: string)
    requires WellFormed(a) && t == Join(':', Texts(a.fields) + a.tail)
    ensures |t| >= 3 && ValidTokens(Tokens(t)) && AddressOf(Tokens(t)) == a
  {
    var gs := Texts(a.fields);
    TextsAreWords(a.fields, a.tail);
    WordsJoin(gs + a.tail);
    JoinLong(gs + a.tail);
    TextsAreGroups(a.fields);
    NullCounts(gs);
    PartsOf(gs, a.tail, gs + a.tail);
  }

  lemma {:induction false} JoinLong(es: seq<string>)
    requires es != []
    ensures |Join(':', es)| >= |es| - 1
  {
    if |es| > 1 { JoinLong(es[..|es| - 1]); }
  }

  // ---------- the normal form ----------

  lemma {:induction false} HexValueBound(t: string)
    requires IsToken(t)
    ensures HexValue(t) < 0x1_0000
  {
    if t != "" { HexValueShort(t[..|t| - 1], 3); }
  }

  lemma {:induction false} HexValueShort(t: string, n: nat)
    requires AllHex(t) && |t| <= n <= 3
    ensures HexValue(t) < (if n == 0 then 1 else if n == 1 then 16 else if n == 2 then 256 else 4096)
  {
    if t != "" { HexValueShort(t[..|t| - 1], n - 1); }
  }

  /** A field fits sixteen bits. */
  lemma {:induction false} ValuesFit(ts: seq<string>)
    requires AllTokens(ts)
    ensures AllFields(Values(ts))
  {
    forall i | 0 <= i < |ts| ensures HexValue(ts[i]) < 0x1_0000 { HexValueBound(ts[i]); }
  }

  lemma {:induction false} FieldsFit(ts: seq<string>)
    requires ValidTokens(ts)
    ensures WellFormed(AddressOf(ts))
  {
    var gs := HeadOf(ts);
    var k := NullAt(gs);
    NullCounts(gs);
    if k < |gs| {
      ValuesFit(gs[..k]);
      ValuesFit(gs[k + 1..]);
    } else {
      ValuesFit(gs);
    }
  }

  /** An address of zeros, without a tail, that is spelled in another way than "::". */
  predicate SpellsZeros(s: string) {
    |s| >= 2 && s != "::" && ValidTokens(Tokens(s)) && Nothing(AddressOf(Tokens(s)))
  }

  lemma {:induction false} NormalReads(s: string, a: Address)
    requires |s| >= 2 && ValidTokens(Tokens(s)) && a == AddressOf(Tokens(s)) && !Nothing(a)
    ensures var t := TextOf(a); |t| >= 3 && ValidTokens(Tokens(t)) && AddressOf(Tokens(t)) == a
  {
    FieldsFit(Tokens(s));
    TextReads(a);
  }

  lemma {:induction false} NormalTwice(t: string, a: Address)
    requires |t| >= 3 && ValidTokens(Tokens(t)) && AddressOf(Tokens(t)) == a && t == TextOf(a)
    ensures NormalizeIpv6(t) == t
  {}

  lemma {:induction false} BestIs(f: seq<nat>)
    ensures IsBest(f, BestFrom(f, 0))
  {
    BestFromIsBest(f, 0);
  }

  /** For every valid address that is not all zero: the normal form denotes the same fields and has the same tail,
      is its own normal form, and leaves out the first of the longest runs of two zeros or more. */
  lemma {:induction false} NormalForm(s: string)
    requires |s| >= 2 && s != "::" && ValidTokens(Tokens(s)) && !SpellsZeros(s)
    ensures var t, f := NormalizeIpv6(s), AddressOf(Tokens(s)).fields;
      && |t| >= 3 && ValidTokens(Tokens(t)) && AddressOf(Tokens(t)) == AddressOf(Tokens(s))
      && NormalizeIpv6(t) == t && IsBest(f, BestFrom(f, 0))
  {
    var a := AddressOf(Tokens(s));
    NormalReads(s, a);
    NormalTwice(TextOf(a), a);
    BestIs(a.fields);
  }

  /** Eight zeros written out are printed as a single colon, which is no address; only "::" itself is kept. */
  lemma {:induction false} AllZeroBreaks(s: string)
    requires |s| >= 2 && s != "::" && ValidTokens(Tokens(s))
    ensures NormalizeIpv6(s) == ":" <==> SpellsZeros(s)
  {
    var a := AddressOf(Tokens(s));
    AllZeroRun(a.fields);
    FieldsFit(Tokens(s));
    if !Nothing(a) { TextReads(a); }
  }

  /** The addresses that are modelled. */
  predicate IsAddress(s: string) { |s| >= 2 && (s == "::" || ValidTokens(Tokens(s))) }

  /** What an address denotes. */
  function Denoted(s: string): Address
    requires IsAddress(s)
  {
    if s == "::" then Address(Zeros(8), []) else AddressOf(Tokens(s))
  }

  /** What the normal form shows of an address. */
  lemma {:induction false} NormalShows(s: string)
    requires IsAddress(s)
    ensures var t, a := NormalizeIpv6(s), Denoted(s);
      if Nothing(a) then t == (if s == "::" then "::" else ":")
      else |t| >= 3 && ValidTokens(Tokens(t)) && AddressOf(Tokens(t)) == a
  {
    if s != "::" {
      AllZeroBreaks(s);
      if !SpellsZeros(s) { NormalForm(s); }
    }
  }

  /** One of two spellings of the address of zeros is the short one. */
  predicate ZerosDiffer(s: string, t: string)
    requires IsAddress(s) && IsAddress(t)
  {
    Nothing(Denoted(s)) && Nothing(Denoted(t)) && (s == "::") != (t == "::")
  }

  lemma {:induction false} NothingIsOne(s: string, t: string)
    requires IsAddress(s) && IsAddress(t) && Nothing(Denoted(s)) && Nothing(Denoted(t))
    ensures Denoted(s) == Denoted(t)
  {
    assert |Denoted(s).fields| == 8 && |Denoted(t).fields| == 8;
    assert Denoted(s).fields == Denoted(t).fields;
  }

  /** Two spellings have the same fields and the same tail exactly when they have one normal form, or when both are
      eight zeros and just one of them is "::". */
  lemma {:induction false} EqualAddresses(s: string, t: string)
    requires IsAddress(s) && IsAddress(t)
    ensures Denoted(s) == Denoted(t) <==> NormalizeIpv6(s) == NormalizeIpv6(t) || ZerosDiffer(s, t)
    ensures ZerosDiffer(s, t) ==> NormalizeIpv6(s) != NormalizeIpv6(t)
  {
    NormalShows(s);
    NormalShows(t);
    if Nothing(Denoted(s)) && Nothing(Denoted(t)) { NothingIsOne(s, t); }
    if s != "::" { SameAddress(s, t); }
  }

  /** Away from "::" one address gives one text. */
  lemma {:induction false} SameAddress(s: string, t: string)
    requires IsAddress(s) && IsAddress(t) && s != "::"
    ensures t != "::" && Denoted(s) == Denoted(t) ==> NormalizeIpv6(s) == NormalizeIpv6(t)
  {}

  /** Such a spelling denotes the same address as "::", and has another normal form. */
  lemma {:induction false} ZerosHaveTwoForms(s: string)
    requires SpellsZeros(s)
    ensures Denoted(s) == Denoted("::") && NormalizeIpv6(s) == ":" && NormalizeIpv6("::") == "::"
  {
    AllZeroBreaks(s);
    NothingIsOne(s, "::");
  }

  lemma {:induction false} GapText(a: Address, q: string)
    requires a == Address(Zeros(6), [q])
    ensures TextOf(a) == "::" + q
  {
    var r := BestFrom(a.fields, 0);
    AllZeroRun(a.fields);
    assert r.pos == 0 && r.len == 6;
    assert Texts(a.fields[..0]) == [] && Texts(a.fields[6..]) + [q] == [q];
    assert Join(':', [q]) == q && "" + "::" + q == "::" + q;
  }

  /** Before a tail, zeros left out stay left out: no lone colon is printed. */
  lemma {:induction false} TailAfterGap(q: string, s: string)
    requires IsTail(q) && s == "::" + q
    ensures IsAddress(s) && Denoted(s) == Address(Zeros(6), [q]) && NormalizeIpv6(s) == s
  {
    var a := Address(Zeros(6), [q]);
    GapText(a, q);
    TextReads(a);
  }

  lemma {:induction false} ZeroNumber(s: string)
    requires s != "" && s[0] == '0'
    ensures ReadUint(s, 255) == 1 && UintDigits(s) == 1
  {
    assert s[..1] == "0" && "0"[..0] == "";
    assert UintValue("0") == Wrap32(UintValue("") * 10 + 0);
  }

  lemma {:induction false} ZeroQuad()
    ensures IsTail("0.0.0.0")
  {
    var a, b, c, d := "0.0.0.0", "0.0.0", "0.0", "0";
    ZeroNumber(a);
    ZeroNumber(b);
    ZeroNumber(c);
    ZeroNumber(d);
    assert a[2..] == b && b[2..] == c && c[2..] == d;
    assert IsQuad(d, 0) && IsQuad(c, 1) && IsQuad(b, 2);
  }

  lemma {:induction false} OneZero()
    ensures HexText(0) == "0" && Texts([0]) == ["0"] && Join(':', Texts([0])) == "0"
  {
    assert HexText(0) == [HexLower(0)];
  }

  lemma {:induction false} GapOfZeros(s: string, x: string)
    requires x == Join(':', Texts([0])) && s == x + "::" + x
    ensures SpellsZeros(s)
  {
    TextsAreWords([0], []);
    MiddleCompressed(Texts([0]), Texts([0]), x, x, s);
    assert Texts([0]) + [] == Texts([0]);
    ExpandCompressed([0], 6, [0], [], Tokens(s));
  }

  /** "0::0" is such a spelling. */
  lemma {:induction false} GapSpellsZeros()
    ensures SpellsZeros("0::0")
  {
    OneZero();
    assert "0::0" == "0" + "::" + "0";
    GapOfZeros("0::0", "0");
  }

  /** So is every field written out. */
  lemma {:induction false} EightZeros(s: string)
    requires s == Join(':', Texts(Zeros(8)))
    ensures SpellsZeros(s) && s == ZeroText(8)
  {
    assert Texts(Zeros(8)) + [] == Texts(Zeros(8));
    PlainReads(Address(Zeros(8), []), s);
    ZeroGroups(8);
    JoinLong(Texts(Zeros(8)));
  }

  lemma {:induction false} EightZerosText()
    ensures SpellsZeros("0:0:0:0:0:0:0:0")
  {
    EightZeros(Join(':', Texts(Zeros(8))));
    ZeroTextEight();
  }

  lemma {:induction false} ZeroTextEight()
    ensures ZeroText(8) == "0:0:0:0:0:0:0:0"
  {
    assert ZeroText(1) == "0" && ZeroText(2) == "0:0" && ZeroText(3) == "0:0:0" && ZeroText(4) == "0:0:0:0";
    assert ZeroText(5) == "0:0:0:0:0" && ZeroText(6) == "0:0:0:0:0:0" && ZeroText(7) == "0:0:0:0:0:0:0";
  }

  lemma {:induction false} ZeroGroups(n: nat)
    requires n > 0
    ensures Join(':', Texts(Zeros(n))) == ZeroText(n)
  {
    var ts := Texts(Zeros(n));
    assert HexText(0) == "0" && forall k :: 0 <= k < n ==> ts[k] == "0";
    if n > 1 {
      ZeroGroups(n - 1);
      assert ts[..n - 1] == Texts(Zeros(n - 1));
    }
  }

  function ZeroText(n: nat): string
    requires n > 0
  {
    if n == 1 then "0" else ZeroText(n - 1) + [':'] + "0"
  }
}
