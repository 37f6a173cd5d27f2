/** is_valid_ipv6: what it accepts are the addresses with valid tokens. */
module Ipv6Valid {
  import opened Numerals
  import opened Sequences
  import opened TextSplit
  import opened Ipv4
  import opened Ipv6

  // ---------- is_valid_ipv6 ----------

  /** The tokens read so far, the last of them still growing, as the counters describe them. */
  ghost predicate Scanned(ts: seq<string>, gap: bool, nfields: nat, ndigits: nat) {
    && ts != [] && AllTokens(ts) && |ts[|ts| - 1]| == ndigits
    && Empties(ts[..|ts| - 1]) == (if gap then 1 else 0) && nfields + Empties(ts[..|ts| - 1]) == |ts| - 1
  }

  lemma {:induction false} ScanColon(ts: seq<string>, gap: bool, nfields: nat, ndigits: nat)
    requires Scanned(ts, gap, nfields, ndigits) && (ndigits == 0 ==> !gap)
    ensures Scanned(ts + [""], gap || ndigits == 0, if ndigits == 0 then nfields else nfields + 1, 0)
  {
    var n := |ts| - 1;
    assert (ts + [""])[..n + 1] == ts && ts == ts[..n] + [ts[n]];
  }

  lemma {:induction false} ScanDigit(ts: seq<string>, gap: bool, nfields: nat, ndigits: nat, c: char)
    requires Scanned(ts, gap, nfields, ndigits) && ndigits < 4 && IsHexDigit(c)
    ensures var n := |ts| - 1; Scanned(ts[..n] + [ts[n] + [c]], gap, nfields, ndigits + 1)
  {
    var n := |ts| - 1;
    assert (ts[..n] + [ts[n] + [c]])[..n] == ts[..n];
    assert IsToken(ts[n]);
  }

  /** Tokens without a tail. */
  lemma {:induction false} PlainTokens(ts: seq<string>)
    requires AllTokens(ts)
    ensures ValidTokens(ts) <==> (Empties(ts) == 0 && |ts| == 8) || (Empties(ts) == 1 && 2 <= |ts| <= 8)
  {
    assert ts + [] == ts;
    PartsOf(ts, [], ts);
  }

  /** Every token is finished. */
  lemma {:induction false} ScanEnd(ts: seq<string>, gap: bool, nfields: nat, ndigits: nat)
    requires Scanned(ts, gap, nfields, ndigits) && ndigits > 0
    ensures ValidTokens(ts) <==> (!gap && nfields + 1 == 8) || (gap && nfields + 1 < 8)
  {
    var n := |ts| - 1;
    assert ts == ts[..n] + [ts[n]] && ts[n] != "";
    PlainTokens(ts);
  }

  lemma {:induction false} GapCounted(ts: seq<string>, u: seq<string>, gap: bool, nfields: nat)
    requires u != [] && ts == u + [""] + [""] && Scanned(ts, gap, nfields, 0)
    ensures ValidTokens(u + [""]) <==> nfields < 8
  {
    var w := u + [""];
    assert ts[..|w|] == w && w[..|u|] == u;
    assert forall k :: 0 <= k < |w| ==> w[k] == ts[k];
    PlainTokens(w);
  }

  lemma {:induction false} LastPiece(x: string)
    requires x != ""
    ensures var r := Split(':', x); r[|r| - 1] == "" <==> x[|x| - 1] == ':'
  {}

  /** The address ends with two colons: the token after the last is dropped. */
  lemma {:induction false} ValidAtGap(s: string, start: nat, gap: bool, nfields: nat, y: string)
    requires |s| >= 3 && start == (if s[0] == ':' then 1 else 0) && s[start..] == y + [':'] + [':']
    requires Scanned(Split(':', s[start..]), gap, nfields, 0)
    ensures ValidTokens(Tokens(s)) <==> nfields < 8
  {
    assert Inner(s) == y + [':'];
    SplitSeparator(':', y);
    SplitSeparator(':', y + [':']);
    GapCounted(Split(':', s[start..]), Split(':', y), gap, nfields);
  }

  lemma {:induction false} FirstGap()
    ensures Scanned(Split(':', [':']), true, 0, 0)
  {
    SplitSegment(':', "");
    SplitSeparator(':', "");
    assert "" + [':'] == [':'] && ["", ""][..1] == [""] && [""][..0] == [];
  }

  lemma {:induction false} ScanNext(s: string, start: nat, p: nat, gap: bool, nfields: nat, ndigits: nat)
    requires start <= p < |s| && Scanned(Split(':', s[start..p]), gap, nfields, ndigits)
    ensures var ts := Split(':', s[start..p + 1]);
      if s[p] == ':' then (ndigits == 0 ==> !gap) ==>
        Scanned(ts, gap || ndigits == 0, if ndigits == 0 then nfields else nfields + 1, 0)
      else ndigits < 4 && IsHexDigit(s[p]) ==> Scanned(ts, gap, nfields, ndigits + 1)
  {
    var ts := Split(':', s[start..p]);
    assert s[start..p + 1] == s[start..p] + [s[p]];
    SplitSnoc(':', s[start..p], s[p], s[start..p + 1]);
    if s[p] == ':' {
      if ndigits == 0 ==> !gap { ScanColon(ts, gap, nfields, ndigits); }
    } else if ndigits < 4 && IsHexDigit(s[p]) {
      ScanDigit(ts, gap, nfields, ndigits, s[p]);
    }
  }

  /** What is_valid_ipv6 accepts. */
  predicate IsAccepted(s: string) {
    2 <= |s| <= 39 && (s == "::" || (StartsWell(s) && EndsWell(s) && ValidTokens(Tokens(s))))
  }

  method IsValidIpv6(s: string) returns (ok: bool)
    ensures ok <==> IsAccepted(s)
  {
    if |s| > 39 || |s| < 2 {
      return false;
    }
    if s[0] == ':' {
      if s[1] != ':' {
        return false;
      }
      if |s| == 2 {
        assert s == "::";
        return true;
      }
      assert s[1..2] == [':'] && s[2..2] == "";
      FirstGap();
      ok := ScanGroups(s, 1, 2, true);
    } else {
      assert s[0..0] == "";
      SplitSegment(':', "");
      ok := ScanGroups(s, 0, 0, false);
    }
  }

  /** The variables of the loop, or the decision to refuse. */
  datatype Scan = Refused | Scan(gap: bool, nfields: nat, ndigits: nat)

  /** One character that is not a dot. */
  function ScanChar(v: Scan, c: char): Scan
    requires v.Scan?
  {
    if c == ':' then
      if v.ndigits > 0 then Scan(v.gap, v.nfields + 1, 0) else if v.gap then Refused else Scan(true, v.nfields, 0)
    else if v.ndigits + 1 > 4 || !IsHexDigit(c) then Refused
    else Scan(v.gap, v.nfields, v.ndigits + 1)
  }

  ghost predicate ScannedBy(s: string, start: nat, p: nat, v: Scan)
    requires start <= p <= |s|
  {
    v.Scan? && Scanned(Split(':', s[start..p]), v.gap, v.nfields, v.ndigits)
  }

  /** The last token starts at `b`. */
  ghost predicate LastStarts(s: string, start: nat, p: nat, b: nat)
    requires start <= p <= |s|
  {
    var us := Split(':', s[start..p]);
    start <= b <= p && s[b..p] == us[|us| - 1]
  }

  lemma {:induction false} LastStartsNext(s: string, start: nat, p: nat, b: nat)
    requires start <= p < |s| && LastStarts(s, start, p, b)
    ensures LastStarts(s, start, p + 1, if s[p] == ':' then p + 1 else b)
  {
    assert s[start..p + 1] == s[start..p] + [s[p]];
    SplitSnoc(':', s[start..p], s[p], s[start..p + 1]);
    assert s[p + 1..p + 1] == "" && s[b..p + 1] == s[b..p] + [s[p]];
  }

  lemma {:induction false} ScanStep(s: string, start: nat, p: nat, v: Scan)
    requires |s| >= 2 && s != "::" && start == (if s[0] == ':' then 1 else 0) && start <= p < |s| && s[p] != '.'
    requires ScannedBy(s, start, p, v)
    ensures if ScanChar(v, s[p]).Refused? then !ValidTokens(Tokens(s))
      else ScannedBy(s, start, p + 1, ScanChar(v, s[p]))
  {
    ScanNext(s, start, p, v.gap, v.nfields, v.ndigits);
    if ScanChar(v, s[p]).Refused? {
      if s[p] == ':' { TwoGaps(s, start, p, v.nfields); } else { BadDigit(s, start, p, v.gap, v.nfields, v.ndigits); }
    }
  }

  /** The loop of is_valid_ipv6, from `from` on. */
  method ScanGroups(s: string, ghost start: nat, from: nat, hasGap: bool) returns (ok: bool)
    requires |s| >= 2 && s != "::" && start == (if s[0] == ':' then 1 else 0) && start <= from <= |s|
    requires ScannedBy(s, start, from, Scan(hasGap, 0, 0)) && LastStarts(s, start, from, from)
    ensures ok <==> EndsWell(s) && ValidTokens(Tokens(s))
  {
    var v, b, p := Scan(hasGap, 0, 0), from, from;
    while p < |s|
      invariant start <= p <= |s| && ScannedBy(s, start, p, v) && LastStarts(s, start, p, b)
    {
      if s[p] == '.' {
        DotDecides(s, start, p, b, v);
        ok := ((!v.gap && v.nfields == 6) || (v.gap && v.nfields < 7)) && IsValidIpv4(s[b..]);
        return;
      }
      ScanStep(s, start, p, v);
      LastStartsNext(s, start, p, b);
      v := ScanChar(v, s[p]);
      if v.Refused? {
        return false;
      }
      b := if s[p] == ':' then p + 1 else b;
      p := p + 1;
    }
    assert s[start..p] == s[start..];
    ok := JudgeEnd(s, start, v.gap, v.nfields, v.ndigits);
  }

  lemma {:induction false} TwoAtEnd(s: string, start: nat)
    requires |s| >= 2 && s != "::" && start <= 1 && s[|s| - 1] == ':' && s[|s| - 2] == ':'
    ensures |s| >= 3 && s[start..] == s[start..|s| - 2] + [':'] + [':']
  {
    assert |s| == 2 ==> s == [':', ':'];
  }

  /** What is_valid_ipv6 does after its loop. */
  method JudgeEnd(s: string, ghost start: nat, gap: bool, fields: nat, ndigits: nat) returns (ok: bool)
    requires |s| >= 2 && s != "::" && start == (if s[0] == ':' then 1 else 0) &&
      Scanned(Split(':', s[start..]), gap, fields, ndigits)
    ensures ok <==> EndsWell(s) && ValidTokens(Tokens(s))
  {
    var nfields := fields;
    LastPiece(s[start..]);
    assert s[start..][|s[start..]| - 1] == s[|s| - 1];
    if ndigits > 0 {
      nfields := nfields + 1;
    } else {
      ok := s[|s| - 2] == ':' && nfields < 8;
      if s[|s| - 2] == ':' {
        TwoAtEnd(s, start);
        ValidAtGap(s, start, gap, nfields, s[start..|s| - 2]);
      }
      return;
    }
    ok := (!gap && nfields == 8) || (gap && nfields < 8);
    ScanEnd(Split(':', s[start..]), gap, fields, ndigits);
    assert Inner(s) == s[start..];
  }

  // ---------- what is refused on the way ----------

  /** A colon at either end is one of two. */
  predicate StartsWell(s: string)
    requires |s| >= 2
  {
    s[0] == ':' ==> s[1] == ':'
  }

  predicate EndsWell(s: string)
    requires |s| >= 2
  {
    s[|s| - 1] == ':' ==> s[|s| - 2] == ':'
  }

  /** More text changes no piece but the last, which grows. */
  lemma {:induction false} SplitPrefix(x: string, y: string)
    ensures var r, w := Split(':', x), Split(':', x + y);
      |r| <= |w| && w[..|r| - 1] == r[..|r| - 1] && IsPrefix(r[|r| - 1], w[|r| - 1])
  {
    if y == "" {
      assert x + y == x;
    } else {
      var n := |y| - 1;
      SplitPrefix(x, y[..n]);
      assert x + y == x + y[..n] + [y[n]];
      SplitSnoc(':', x + y[..n], y[n], x + y);
      PrefixGrows(Split(':', x), Split(':', x + y[..n]), y[n]);
    }
  }

  lemma {:induction false} PrefixGrows(r: seq<string>, v: seq<string>, c: char)
    requires 0 < |r| <= |v| && v[..|r| - 1] == r[..|r| - 1] && IsPrefix(r[|r| - 1], v[|r| - 1])
    ensures var w := AddChar(v, c, ':');
      |r| <= |w| && w[..|r| - 1] == r[..|r| - 1] && IsPrefix(r[|r| - 1], w[|r| - 1])
  {
    var w := AddChar(v, c, ':');
    assert forall k :: 0 <= k < |v| - 1 ==> w[k] == v[k];
    assert forall k :: 0 <= k < |r| - 1 ==> v[k] == v[..|r| - 1][k] && r[k] == r[..|r| - 1][k];
  }

  /** The tokens are the pieces of the text without a first colon, the last dropped if it is empty. */
  lemma {:induction false} TokensArePieces(s: string, start: nat)
    requires |s| >= 2 && s != "::" && start == (if s[0] == ':' then 1 else 0)
    ensures var w := Split(':', s[start..]);
      Tokens(s) == if s[|s| - 1] == ':' then w[..|w| - 1] else w
  {
    if s[|s| - 1] == ':' {
      var x := Inner(s);
      assert s[start..] == x + [':'];
      SplitSeparator(':', x);
      assert (Split(':', x) + [""])[..|Split(':', x)|] == Split(':', x);
    } else {
      assert Inner(s) == s[start..];
    }
  }

  /** `us` are the pieces of a prefix, as the pieces `ts` of the whole show them. */
  predicate FrontOf(us: seq<string>, ts: seq<string>) {
    && 0 < |us| <= |ts| + 1 && ts[..|us| - 1] == us[..|us| - 1]
    && (us[|us| - 1] != "" ==> |us| <= |ts| && IsPrefix(us[|us| - 1], ts[|us| - 1]))
  }

  lemma {:induction false} FrontWithoutLast(us: seq<string>, w: seq<string>, ts: seq<string>)
    requires FrontOf(us, w) && |us| <= |w| && w != [] && w[|w| - 1] == "" && ts == w[..|w| - 1]
    ensures FrontOf(us, ts)
  {
    assert ts[..|us| - 1] == w[..|us| - 1];
    if us[|us| - 1] != "" { assert |us| < |w|; }
  }

  /** What the pieces of a prefix say of the tokens of the whole. */
  lemma {:induction false} PrefixTokens(s: string, start: nat, p: nat, us: seq<string>)
    requires |s| >= 2 && s != "::" && start == (if s[0] == ':' then 1 else 0) && start <= p <= |s| &&
      us == Split(':', s[start..p])
    ensures FrontOf(us, Tokens(s))
  {
    var w := Split(':', s[start..]);
    assert s[start..] == s[start..p] + s[p..];
    SplitPrefix(s[start..p], s[p..]);
    TokensArePieces(s, start);
    if s[|s| - 1] == ':' {
      EndsEmpty(s, start);
      FrontWithoutLast(us, w, Tokens(s));
    }
  }

  lemma {:induction false} EndsEmpty(s: string, start: nat)
    requires |s| >= 2 && start <= 1 && s[|s| - 1] == ':'
    ensures var w := Split(':', s[start..]); w[|w| - 1] == ""
  {
    LastPiece(s[start..]);
    assert s[start..][|s[start..]| - 1] == s[|s| - 1];
  }

  lemma {:induction false} EmptiesInFront(ts: seq<string>, n: nat)
    requires n <= |ts|
    ensures Empties(ts[..n]) <= Empties(ts)
  {
    assert ts == ts[..n] + ts[n..];
    EmptiesConcat(ts[..n], ts[n..]);
  }

  lemma {:induction false} EmptiesOfHead(ts: seq<string>)
    ensures Empties(HeadOf(ts)) == Empties(ts)
  {}

  /** Two empty tokens in front are two too many. */
  lemma {:induction false} TwoEmpties(ts: seq<string>, us: seq<string>)
    requires Empties(us) == 2 && |us| <= |ts| && ts[..|us|] == us
    ensures !ValidTokens(ts)
  {
    EmptiesInFront(ts, |us|);
    EmptiesOfHead(ts);
  }

  lemma {:induction false} SecondGap(ts: seq<string>, nfields: nat)
    requires Scanned(ts, true, nfields, 0)
    ensures Empties(ts) == 2
  {
    assert ts == ts[..|ts| - 1] + [""];
  }

  /** A second gap is never right. */
  lemma {:induction false} TwoGaps(s: string, start: nat, p: nat, nfields: nat)
    requires |s| >= 2 && s != "::" && start == (if s[0] == ':' then 1 else 0) && start <= p < |s| && s[p] == ':'
    requires Scanned(Split(':', s[start..p]), true, nfields, 0)
    ensures !ValidTokens(Tokens(s))
  {
    var ts := Split(':', s[start..p]);
    assert s[start..p + 1] == s[start..p] + [':'];
    SplitSeparator(':', s[start..p]);
    PrefixTokens(s, start, p + 1, ts + [""]);
    assert (ts + [""])[..|ts|] == ts;
    SecondGap(ts, nfields);
    TwoEmpties(Tokens(s), ts);
  }

  /** Neither is a fifth digit, or something else than a digit. */
  lemma {:induction false} BadDigit(s: string, start: nat, p: nat, gap: bool, nfields: nat, ndigits: nat)
    requires |s| >= 2 && s != "::" && start == (if s[0] == ':' then 1 else 0) && start <= p < |s|
    requires s[p] != ':' && s[p] != '.'
    requires Scanned(Split(':', s[start..p]), gap, nfields, ndigits) && (ndigits == 4 || !IsHexDigit(s[p]))
    ensures !ValidTokens(Tokens(s))
  {
    var us := Split(':', s[start..p]);
    var k := |us| - 1;
    GrownPieces(s, start, p, us);
    PrefixTokens(s, start, p + 1, Grown(us, s[p]));
    GrownFront(Tokens(s), us, s[p]);
    NotAToken(Tokens(s)[k], us[k], s[p]);
    NotInTokens(Tokens(s), k);
  }

  /** The pieces after one more character that is no colon. */
  function Grown(us: seq<string>, c: char): seq<string>
    requires us != []
  {
    us[..|us| - 1] + [us[|us| - 1] + [c]]
  }

  lemma {:induction false} GrownPieces(s: string, start: nat, p: nat, us: seq<string>)
    requires start <= p < |s| && s[p] != ':' && us == Split(':', s[start..p])
    ensures Grown(us, s[p]) == Split(':', s[start..p + 1])
  {
    assert s[start..p + 1] == s[start..p] + [s[p]];
    SplitSnoc(':', s[start..p], s[p], s[start..p + 1]);
  }

  lemma {:induction false} GrownFront(ts: seq<string>, us: seq<string>, c: char)
    requires us != [] && FrontOf(Grown(us, c), ts)
    ensures |us| <= |ts| && IsPrefix(us[|us| - 1] + [c], ts[|us| - 1])
  {
    assert Grown(us, c)[|us| - 1] == us[|us| - 1] + [c];
  }

  lemma {:induction false} NotAToken(t: string, l: string, c: char)
    requires IsPrefix(l + [c], t) && IsToken(l) && (|l| == 4 || !IsHexDigit(c)) && c != '.'
    ensures !IsToken(t) && !IsTail(t)
  {
    assert t[|l|] == (l + [c])[|l|] == c;
    NotATail(t, l, c);
  }

  lemma {:induction false} NoDotYet(t: string, l: string, c: char, n: nat)
    requires IsPrefix(l + [c], t) && AllHex(l) && c != '.' && n <= |l|
    ensures t[n] != '.'
  {
    assert t[n] == (l + [c])[n] && !IsHexDigit('.');
  }

  lemma {:induction false} NotATail(t: string, l: string, c: char)
    requires IsPrefix(l + [c], t) && AllHex(l) && (|l| == 4 || !IsHexDigit(c)) && c != '.' && t[|l|] == c
    ensures !IsTail(t)
  {
    if IsTail(t) {
      QuadShape(t, 3);
      assert QuadChar(t[|l|]);
      NoDotYet(t, l, c, UintDigits(t));
    }
  }

  /** Every token is a group or the tail. */
  lemma {:induction false} NotInTokens(ts: seq<string>, k: nat)
    requires k < |ts| && !IsToken(ts[k])
    ensures ValidTokens(ts) ==> HasTail(ts) && k == |ts| - 1 && IsTail(ts[k])
  {
    assert k < |HeadOf(ts)| ==> HeadOf(ts)[k] == ts[k];
  }

  // ---------- a dotted tail ----------

  lemma {:induction false} Halves(s: string, start: nat, p: nat, b: nat)
    requires start <= b <= p <= |s|
    ensures s[start..] == s[start..p] + s[p..] && s[b..] == s[b..p] + s[p..]
  {}

  lemma {:induction false} EndsAsTail(s: string, p: nat)
    requires p < |s| && ':' !in s[p..]
    ensures s[|s| - 1] != ':'
  {
    assert s[p..][|s| - 1 - p] == s[|s| - 1];
  }

  /** The text behind the last colon is the last token. */
  lemma {:induction false} DotTokens(s: string, start: nat, p: nat, b: nat, us: seq<string>)
    requires |s| >= 2 && s != "::" && start == (if s[0] == ':' then 1 else 0) && start <= p < |s| && ':' !in s[p..]
    requires us == Split(':', s[start..p]) && start <= b <= p && s[b..p] == us[|us| - 1]
    ensures Tokens(s) == us[..|us| - 1] + [s[b..]] && EndsWell(s)
  {
    EndsAsTail(s, p);
    Halves(s, start, p, b);
    SplitAppend(':', s[start..p], s[p..]);
    TokensArePieces(s, start);
  }

  lemma {:induction false} DottedIsNoToken(t: string, l: string)
    requires IsPrefix(l + ['.'], t)
    ensures !IsToken(t)
  {
    assert t[|l|] == (l + ['.'])[|l|] == '.' && !IsHexDigit('.');
  }

  /** A token that goes on with a dot is the tail, so it is the last. */
  lemma {:induction false} DotIsLast(s: string, start: nat, p: nat, us: seq<string>)
    requires |s| >= 2 && s != "::" && start == (if s[0] == ':' then 1 else 0) && start <= p < |s| && s[p] == '.'
    requires us == Split(':', s[start..p]) && ValidTokens(Tokens(s))
    ensures |Tokens(s)| == |us| && HasTail(Tokens(s))
  {
    GrownPieces(s, start, p, us);
    PrefixTokens(s, start, p + 1, Grown(us, '.'));
    GrownFront(Tokens(s), us, '.');
    DottedIsNoToken(Tokens(s)[|us| - 1], us[|us| - 1]);
    NotInTokens(Tokens(s), |us| - 1);
  }

  /** A dot in an address with valid tokens is in the last of them. */
  lemma {:induction false} DotAlone(s: string, start: nat, p: nat, us: seq<string>)
    requires |s| >= 2 && s != "::" && start == (if s[0] == ':' then 1 else 0) && start <= p < |s| && s[p] == '.'
    requires us == Split(':', s[start..p]) && EndsWell(s) && ValidTokens(Tokens(s))
    ensures ':' !in s[p..]
  {
    DotIsLast(s, start, p, us);
    NoColonBehind(s, start, p, us);
  }

  lemma {:induction false} NoColonBehind(s: string, start: nat, p: nat, us: seq<string>)
    requires |s| >= 2 && s != "::" && start == (if s[0] == ':' then 1 else 0) && start <= p < |s|
    requires us == Split(':', s[start..p]) && EndsWell(s) && |Tokens(s)| == |us| && HasTail(Tokens(s))
    ensures ':' !in s[p..]
  {
    if s[|s| - 1] == ':' { LastIsEmpty(s, start); }
    TokensArePieces(s, start);
    Halves(s, start, p, p);
    SplitSame(':', s[start..p], s[p..]);
  }

  /** Two colons at the end make the last token empty. */
  lemma {:induction false} LastIsEmpty(s: string, start: nat)
    requires |s| >= 2 && s != "::" && start == (if s[0] == ':' then 1 else 0) && s[|s| - 1] == ':' && EndsWell(s)
    ensures Tokens(s)[|Tokens(s)| - 1] == ""
  {
    TwoAtEnd(s, start);
    var y := s[start..|s| - 2];
    assert Inner(s) == y + [':'];
    SplitSeparator(':', y);
  }

  /** The counters, when the last token is the text `q`. */
  lemma {:induction false} DotCounts(us: seq<string>, gap: bool, nfields: nat, ndigits: nat, q: string, ts: seq<string>)
    requires Scanned(us, gap, nfields, ndigits) && ts == us[..|us| - 1] + [q] && '.' in q
    ensures ValidTokens(ts) <==> IsTail(q) && ((!gap && nfields == 6) || (gap && nfields < 7))
  {
    var gs := us[..|us| - 1];
    assert ts[|ts| - 1] == q && !IsHexDigit('.');
    if IsTail(q) {
      PartsOf(gs, [q], ts);
    } else {
      assert !IsToken(q);
      NotInTokens(ts, |ts| - 1);
    }
  }

  /** The first number of a quad ends at the first dot. */
  lemma {:induction false} FirstNumber(q: string, n: nat)
    requires IsValidIpv4(q) && n < |q| && q[n] == '.'
    ensures UintDigits(q) <= n
  {
    UintDigitsAre(q);
  }

  /** If the text from the last colon on is a quad, there is no colon in it. */
  lemma {:induction false} QuadIsLast(s: string, b: nat, p: nat)
    requires b <= p < |s| && s[p] == '.' && IsValidIpv4(s[b..])
    ensures ':' !in s[p..] && UintDigits(s[b..]) <= p - b
  {
    var q, y := s[b..], s[p..];
    QuadShape(q, 3);
    FirstNumber(q, p - b);
    forall k | 0 <= k < |y| ensures y[k] != ':' {
      assert y[k] == q[p - b + k] && QuadChar(q[p - b + k]);
    }
  }

  lemma {:induction false} DotDecides(s: string, start: nat, p: nat, b: nat, v: Scan)
    requires |s| >= 2 && s != "::" && start == (if s[0] == ':' then 1 else 0) && start <= p < |s| && s[p] == '.'
    requires ScannedBy(s, start, p, v) && LastStarts(s, start, p, b)
    ensures ((!v.gap && v.nfields == 6) || (v.gap && v.nfields < 7)) && IsValidIpv4(s[b..]) <==>
      EndsWell(s) && ValidTokens(Tokens(s))
  {
    var us := Split(':', s[start..p]);
    if IsValidIpv4(s[b..]) { QuadIsLast(s, b, p); }
    if EndsWell(s) && ValidTokens(Tokens(s)) { DotAlone(s, start, p, us); }
    if ':' !in s[p..] {
      DotTokens(s, start, p, b, us);
      assert s[b..][p - b] == '.';
      DotCounts(us, v.gap, v.nfields, v.ndigits, s[b..], Tokens(s));
      assert |us[|us| - 1]| == p - b;
    }
  }
}
