/** The query of a URL: a list of keys and values, printed and read back. */
module UrlQuery {
  import opened UrlCoding

  datatype Pair = Pair(key: string, val: string)

  /** find_first_of: the offset of the first character that is one of `stops`, or |s|. */
  function FirstOf(s: string, stops: string): (n: nat)
    ensures n <= |s| && (n < |s| ==> s[n] in stops) && forall k :: 0 <= k < n ==> s[k] !in stops
  {
    if s == "" || s[0] in stops then 0 else FirstOf(s[1..], stops) + 1
  }

  predicate Free(s: string, stops: string) { forall k :: 0 <= k < |s| ==> s[k] !in stops }

  lemma {:induction false} FirstOfFree(a: string, b: string, stops: string)
    requires Free(a, stops) && (b == "" || b[0] in stops)
    ensures FirstOf(a + b, stops) == |a| && (a + b)[..|a|] == a && (a + b)[|a|..] == b
  {
    var s := a + b;
    assert forall k :: 0 <= k < |a| ==> s[k] == a[k];
    assert b != "" ==> s[|a|] == b[0];
  }

  // ---------- reading ----------

  /** A key or a value: its characters are checked, then it is decoded. */
  function ReadText(s: string): Maybe<string> { if IsChars(s, CODED_TEXT) then Decode(s, true) else None }

  function ReadPair(key: string, val: string): Maybe<Pair> {
    var k, v := ReadText(key), ReadText(val);
    if k.None? || v.None? then None else Some(Pair(k.value, v.value))
  }

  function Cons(p: Maybe<Pair>, ps: Maybe<seq<Pair>>): Maybe<seq<Pair>> {
    if p.None? || ps.None? then None else Some([p.value] + ps.value)
  }

  /** Where the key ends, where the value ends, and the value's text. */
  function KeyEnd(s: string): nat { FirstOf(s, "=;&") }

  function PairEnd(s: string): (n: nat)
    ensures KeyEnd(s) <= n <= |s|
  {
    var p := KeyEnd(s);
    if p < |s| && s[p] == '=' then p + 1 + FirstOf(s[p + 1..], ";&") else p
  }

  function ValueOf(s: string): string { if PairEnd(s) > KeyEnd(s) then s[KeyEnd(s) + 1..PairEnd(s)] else "" }

  /** The pair that `s` starts with. */
  function FirstPair(s: string): Maybe<Pair> { ReadPair(s[..KeyEnd(s)], ValueOf(s)) }

  /** One turn of the query loop, and those after it. */
  function ReadPairs(s: string): Maybe<seq<Pair>>
    decreases |s|, 1
  {
    Cons(FirstPair(s), ReadBehind(s, PairEnd(s)))
  }

  /** The pairs behind the delimiter at `e`, if there is one. */
  function ReadBehind(s: string, e: nat): Maybe<seq<Pair>>
    decreases |s|, 0
  {
    if e < |s| then ReadPairs(s[e + 1..]) else Some([])
  }

  function ParseQuery(s: string): Maybe<seq<Pair>> { if s == "" then Some([]) else ReadPairs(s) }

  // ---------- printing ----------

  predicate PairFits(p: Pair) { p.key != "" && IsAscii(p.key) && IsAscii(p.val) }

  predicate AllFit(ps: seq<Pair>) { forall k :: 0 <= k < |ps| ==> PairFits(ps[k]) }

  function ValueText(val: string): string
    requires IsAscii(val)
  {
    if val == "" then "" else "=" + Encode(val, TEXT, QueryValue)
  }

  function PairText(p: Pair): string
    requires PairFits(p)
  {
    Encode(p.key, TEXT, QueryKey) + ValueText(p.val)
  }

  /** build_url's query, without the question mark. */
  function QueryText(ps: seq<Pair>): string
    requires AllFit(ps)
  {
    if ps == [] then ""
    else if |ps| == 1 then PairText(ps[0])
    else PairText(ps[0]) + ("&" + QueryText(ps[1..]))
  }

  // ---------- the round trip ----------

  /** The characters of an encoded key or value: none of the delimiters in the way. */
  lemma {:induction false} CodedChars(s: string, style: Style)
    requires !style.Normal? && forall k :: 0 <= k < |s| ==> EncodedChar(s[k], TEXT, style)
    ensures IsChars(s, CODED_TEXT) && Free(s, ";&") && '#' !in s && (style.QueryKey? ==> Free(s, "=;&"))
  {
    assert !EncodedChar('#', TEXT, style) && !EncodedChar('&', TEXT, style) && !EncodedChar(';', TEXT, style);
  }

  lemma {:induction false} KeyReads(key: string)
    requires IsAscii(key)
    ensures var s := Encode(key, TEXT, QueryKey); ReadText(s) == Some(key) && Free(s, "=;&") && '#' !in s
  {
    EncodedChars(key, TEXT, QueryKey);
    CodedChars(Encode(key, TEXT, QueryKey), QueryKey);
    DecodeEncode(key, TEXT, QueryKey);
  }

  lemma {:induction false} ValueReads(val: string)
    requires IsAscii(val)
    ensures var s := Encode(val, TEXT, QueryValue); ReadText(s) == Some(val) && Free(s, ";&") && '#' !in s
  {
    EncodedChars(val, TEXT, QueryValue);
    CodedChars(Encode(val, TEXT, QueryValue), QueryValue);
    DecodeEncode(val, TEXT, QueryValue);
  }

  /** The end of the query, or an ampersand and what follows. */
  function Rest(more: bool, tail: string): string { if more then "&" + tail else "" }

  function ReadRest(more: bool, tail: string): Maybe<seq<Pair>> { if more then ReadPairs(tail) else Some([]) }

  /** The turn of the loop, with its parts named. */
  lemma {:induction false} TurnReads(s: string, p: Maybe<Pair>, e: nat, r: Maybe<seq<Pair>>)
    requires FirstPair(s) == p && PairEnd(s) == e && r == ReadBehind(s, e)
    ensures ReadPairs(s) == Cons(p, r)
  {}

  lemma {:induction false} FirstPairIs(s: string, k: string, v: string)
    requires KeyEnd(s) == |k| && s[..|k|] == k && ValueOf(s) == v
    ensures FirstPair(s) == ReadPair(k, v)
  {}

  /** A key without a value. */
  lemma {:induction false} KeyAloneReads(k: string, more: bool, tail: string, s: string)
    requires Free(k, "=;&") && s == k + Rest(more, tail)
    ensures ReadPairs(s) == Cons(ReadPair(k, ""), ReadRest(more, tail))
  {
    FirstOfFree(k, Rest(more, tail), "=;&");
    if more { assert s[|k|] == '&' && s[|k| + 1..] == tail; }
    FirstPairIs(s, k, "");
    TurnReads(s, ReadPair(k, ""), |k|, ReadRest(more, tail));
  }

  lemma {:induction false} KeyValueEnds(k: string, v: string, r: string, s: string, e: nat)
    requires Free(k, "=;&") && Free(v, ";&") && (r == "" || r[0] == '&') && s == k + ("=" + (v + r)) &&
      e == |k| + 1 + |v|
    ensures KeyEnd(s) == |k| && s[..|k|] == k && PairEnd(s) == e && ValueOf(s) == v && s[e..] == r
  {
    FirstOfFree(k, "=" + (v + r), "=;&");
    assert s[|k|] == '=' && s[|k| + 1..] == v + r;
    FirstOfFree(v, r, ";&");
    assert s[|k| + 1..e] == s[|k| + 1..][..|v|] && s[e..] == s[|k| + 1..][|v|..];
  }

  lemma {:induction false} KeyValueReads(k: string, v: string, more: bool, tail: string, s: string)
    requires Free(k, "=;&") && Free(v, ";&") && s == k + ("=" + (v + Rest(more, tail)))
    ensures ReadPairs(s) == Cons(ReadPair(k, v), ReadRest(more, tail))
  {
    var r, e := Rest(more, tail), |k| + 1 + |v|;
    KeyValueEnds(k, v, r, s, e);
    if more { assert s[e + 1..] == r[1..] == tail; }
    FirstPairIs(s, k, v);
    TurnReads(s, ReadPair(k, v), e, ReadRest(more, tail));
  }

  lemma {:induction false} PairReads(p: Pair, more: bool, tail: string, s: string)
    requires PairFits(p) && s == PairText(p) + Rest(more, tail)
    ensures ReadPairs(s) == Cons(Some(p), ReadRest(more, tail))
  {
    var k, r := Encode(p.key, TEXT, QueryKey), Rest(more, tail);
    KeyReads(p.key);
    if p.val == "" {
      assert s == k + r;
      assert ReadText("") == Some("");
      KeyAloneReads(k, more, tail, s);
    } else {
      var v := Encode(p.val, TEXT, QueryValue);
      ValueReads(p.val);
      assert s == k + ("=" + (v + r));
      KeyValueReads(k, v, more, tail, s);
    }
  }

  /** The first pair, and what follows it. */
  lemma {:induction false} QueryTextIs(ps: seq<Pair>, more: bool, tail: string)
    requires AllFit(ps) && ps != [] && more == (|ps| > 1) && tail == (if more then QueryText(ps[1..]) else "")
    ensures QueryText(ps) == PairText(ps[0]) + Rest(more, tail)
  {
    var t := PairText(ps[0]);
    assert t + "" == t;
  }

  lemma {:induction false} QueryReads(ps: seq<Pair>)
    requires AllFit(ps) && ps != []
    ensures ReadPairs(QueryText(ps)) == Some(ps)
    decreases |ps|
  {
    var more := |ps| > 1;
    var tail := if more then QueryText(ps[1..]) else "";
    QueryTextIs(ps, more, tail);
    PairReads(ps[0], more, tail, QueryText(ps));
    if more { QueryReads(ps[1..]); }
    assert ps == [ps[0]] + ps[1..];
  }

  /** What is printed for a list of pairs is read as that list, contains no '#', and is empty for the empty
      list only. */
  lemma {:induction false} QueryRoundTrip(ps: seq<Pair>)
    requires AllFit(ps)
    ensures ParseQuery(QueryText(ps)) == Some(ps) && '#' !in QueryText(ps) && (QueryText(ps) == "" <==> ps == [])
  {
    NoHash(ps);
    if ps != [] { QueryReads(ps); }
  }

  lemma {:induction false} NoHash(ps: seq<Pair>)
    requires AllFit(ps)
    ensures '#' !in QueryText(ps) && (QueryText(ps) == "" <==> ps == [])
    decreases |ps|
  {
    if ps != [] {
      KeyReads(ps[0].key);
      ValueReads(ps[0].val);
      EncodedChars(ps[0].key, TEXT, QueryKey);
      NoHash(ps[1..]);
    }
  }

  // ---------- the loop ----------

  method QueryLoop(s: string) returns (r: Maybe<seq<Pair>>)
    ensures r == ParseQuery(s)
  {
    if s == "" {
      return Some([]);
    }
    r := QueryTurns(s, ReadPairs(s));
  }

  method QueryTurns(s: string, ghost all: Maybe<seq<Pair>>) returns (r: Maybe<seq<Pair>>)
    requires all == ReadPairs(s)
    ensures r == all
  {
    var ps: seq<Pair> := [];
    var t := s;
    var more := true;
    Glue(all);
    while more
      invariant all == Glued(ps, ReadRest(more, t))
      decreases more, |t|
    {
      var e := PairEnd(t);
      var pair := FirstPair(t);
      LoopTurn(all, ps, t, pair, e);
      if pair.None? {
        return None;
      }
      ps := ps + [pair.value];
      more := e < |t|;
      t := if more then t[e + 1..] else t;
    }
    assert ps + [] == ps;
    return Some(ps);
  }

  lemma {:induction false} LoopTurn(all: Maybe<seq<Pair>>, ps: seq<Pair>, t: string, pair: Maybe<Pair>, e: nat)
    requires all == Glued(ps, ReadRest(true, t)) && pair == FirstPair(t) && e == PairEnd(t)
    ensures if pair.None? then all == None
            else all == Glued(ps + [pair.value], ReadRest(e < |t|, if e < |t| then t[e + 1..] else t))
  {
    TurnReads(t, pair, e, ReadBehind(t, e));
    if pair.Some? { GluePair(ps, pair.value, ReadBehind(t, e)); }
  }

  function Glued(ps: seq<Pair>, r: Maybe<seq<Pair>>): Maybe<seq<Pair>> { if r.None? then None else Some(ps + r.value) }

  lemma {:induction false} Glue(r: Maybe<seq<Pair>>)
    ensures Glued([], r) == r
  {
    if r.Some? { assert [] + r.value == r.value; }
  }

  lemma {:induction false} GluePair(ps: seq<Pair>, p: Pair, r: Maybe<seq<Pair>>)
    ensures Glued(ps, Cons(Some(p), r)) == Glued(ps + [p], r)
  {
    if r.Some? { assert ps + ([p] + r.value) == ps + [p] + r.value; }
  }
}
