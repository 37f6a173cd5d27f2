/** normalize_IPv6 with its array of ten token pointers and its array of eight fields: every access is in
    bounds, and the result is the normal form. */
module Ipv6Normalize {
  import opened Numerals
  import opened Sequences
  import opened TextSplit
  import opened Ipv6

  // ---------- splitting at colons ----------

  /** Token `k` is the text at `off`, followed by a colon, and the next token starts behind that. */
  predicate Piece(s: string, off: nat, t: string, next: nat) {
    off + |t| < |s| && s[off..off + |t|] == t && s[off + |t|] == ':' && next == off + |t| + 1
  }

  predicate PieceAt(s: string, off: seq<nat>, ts: seq<string>, b: nat, k: nat)
    requires k + 1 < |ts| <= |off| + 1
  {
    Piece(s, off[k], ts[k], if k + 2 < |ts| then off[k + 1] else b)
  }

  /** All tokens but the last. */
  ghost predicate Pieces(s: string, off: seq<nat>, ts: seq<string>, b: nat) {
    0 < |ts| <= |off| + 1 && forall k: nat :: k + 1 < |ts| ==> PieceAt(s, off, ts, b, k)
  }

  /** The offsets of all tokens, with the end behind them. */
  ghost predicate Located(s: string, off: seq<nat>, ts: seq<string>, end: nat) {
    && 0 < |ts| < |off| && end <= |s| && off[|ts|] == end && Pieces(s, off, ts, off[|ts| - 1])
    && off[|ts| - 1] + |ts[|ts| - 1]| == end && s[off[|ts| - 1]..end] == ts[|ts| - 1]
  }

  lemma {:induction false} PiecesColon(s: string, off: seq<nat>, ts: seq<string>, b: nat, p: nat)
    requires Pieces(s, off, ts, b) && b <= p < |s| && s[b..p] == ts[|ts| - 1] && s[p] == ':' && |ts| <= |off|
    ensures Pieces(s, off[|ts| - 1 := b], ts + [""], p + 1)
  {
    var n := |ts| - 1;
    var o, us, q := off[n := b], ts + [""], p + 1;
    forall k: nat | k + 1 < |us| ensures PieceAt(s, o, us, q, k) {
      if k < n { assert PieceAt(s, off, ts, b, k); }
    }
  }

  lemma {:induction false} PiecesLetter(s: string, off: seq<nat>, ts: seq<string>, b: nat, c: char)
    requires Pieces(s, off, ts, b)
    ensures Pieces(s, off, ts[..|ts| - 1] + [ts[|ts| - 1] + [c]], b)
  {
    var us := ts[..|ts| - 1] + [ts[|ts| - 1] + [c]];
    forall k: nat | k + 1 < |us| ensures PieceAt(s, off, us, b, k) { assert PieceAt(s, off, ts, b, k); }
  }

  /** No prefix has more tokens than the whole. */
  lemma {:induction false} FewTokens(s: string, start: nat, p: nat, end: nat)
    requires start <= p <= end <= |s|
    ensures |Split(':', s[start..p])| <= |Split(':', s[start..end])|
  {
    assert s[start..end] == s[start..p] + s[p..end];
    SplitGrows(':', s[start..p], s[p..end]);
  }

  /** One character more. */
  lemma {:induction false} TokenStep(s: string, start: nat, p: nat, b: nat, off: seq<nat>, ts: seq<string>,
                                     us: seq<string>)
    requires start <= b <= p < |s| && |ts| <= |off|
    requires ts == Split(':', s[start..p]) && us == Split(':', s[start..p + 1]) && Pieces(s, off, ts, b) &&
      s[b..p] == ts[|ts| - 1]
    ensures if s[p] == ':' then us == ts + [""] && Pieces(s, off[|ts| - 1 := b], us, p + 1)
            else |us| == |ts| && Pieces(s, off, us, b) && s[b..p + 1] == us[|us| - 1]
  {
    assert s[start..p + 1] == s[start..p] + [s[p]];
    SplitSnoc(':', s[start..p], s[p], s[start..p + 1]);
    if s[p] == ':' {
      PiecesColon(s, off, ts, b, p);
    } else {
      PiecesLetter(s, off, ts, b, s[p]);
      assert s[b..p + 1] == s[b..p] + [s[p]];
    }
  }

  /** Whether a loop is where it should be.  A value and not a predicate, so that the verifier takes it as a whole. */
  datatype Progress = OnTrack | OffTrack

  /** The scan is at `p`: the last token starts at `b`, and `i` tokens before it are located in `off`. */
  ghost function ScanAt(s: string, start: nat, p: nat, b: nat, i: nat, off: seq<nat>): Progress
    requires start <= p <= |s|
  {
    var ts := Split(':', s[start..p]);
    if start <= b <= p && i == |ts| - 1 && Pieces(s, off, ts, b) && s[b..p] == ts[i] then OnTrack else OffTrack
  }

  lemma {:induction false} ScanStarts(s: string, start: nat, off: seq<nat>)
    requires start <= |s| && |off| == 10
    ensures ScanAt(s, start, start, start, 0, off).OnTrack?
  {
    assert s[start..start] == "";
  }

  lemma {:induction false} TokenTurn(s: string, start: nat, p: nat, end: nat, b: nat, i: nat, off: seq<nat>)
    requires start <= p < end <= |s| && |Split(':', s[start..end])| <= 8 && |off| == 10
    requires ScanAt(s, start, p, b, i, off).OnTrack?
    ensures i <= 7
    ensures if s[p] == ':' then ScanAt(s, start, p + 1, p + 1, i + 1, off[i := b]).OnTrack?
            else ScanAt(s, start, p + 1, b, i, off).OnTrack?
  {
    var ts, us := Split(':', s[start..p]), Split(':', s[start..p + 1]);
    FewTokens(s, start, p, end);
    FewTokens(s, start, p + 1, end);
    TokenStep(s, start, p, b, off, ts, us);
    assert s[p + 1..p + 1] == "";
  }

  lemma {:induction false} LastToken(s: string, off: seq<nat>, ts: seq<string>, b: nat, end: nat)
    requires Pieces(s, off, ts, b) && |ts| + 1 < |off| && b <= end <= |s| && s[b..end] == ts[|ts| - 1]
    ensures Located(s, off[|ts| - 1 := b][|ts| := end], ts, end)
  {
    var n := |ts| - 1;
    var o := off[n := b][n + 1 := end];
    forall k: nat | k + 1 < |ts| ensures PieceAt(s, o, ts, b, k) { assert PieceAt(s, off, ts, b, k); }
  }

  /** The loop over the characters; the last token starts at `b`. */
  method ScanTokens(s: string, start: nat, end: nat, tokens: array<nat>) returns (b: nat, i: nat)
    requires start <= end <= |s| && |Split(':', s[start..end])| <= 8 && tokens.Length == 10
    modifies tokens
    ensures ScanAt(s, start, end, b, i, tokens[..]).OnTrack?
  {
    var p := start;
    b, i := start, 0;
    ScanStarts(s, start, tokens[..]);
    while p < end
      invariant start <= p <= end && ScanAt(s, start, p, b, i, tokens[..]).OnTrack?
    {
      ghost var off: seq<nat> := tokens[..];
      TokenTurn(s, start, p, end, b, i, off);
      if s[p] == ':' {
        tokens[i] := b;
        assert tokens[..] == off[i := b];
        i := i + 1;
        b := p + 1;
      }
      p := p + 1;
    }
  }

  method FindTokens(s: string, start: nat, end: nat) returns (tokens: array<nat>, n: nat)
    requires start <= end <= |s| && |Split(':', s[start..end])| <= 8
    ensures fresh(tokens) && tokens.Length == 10 && n == |Split(':', s[start..end])|
    ensures Located(s, tokens[..], Split(':', s[start..end]), end)
  {
    tokens := new nat[10];
    var b, i := ScanTokens(s, start, end, tokens);
    ghost var off: seq<nat> := tokens[..];
    LastToken(s, off, Split(':', s[start..end]), b, end);
    if i < 8 {
      tokens[i] := b;
      i := i + 1;
    }
    tokens[i] := end;
    assert tokens[..] == off[i - 1 := b][i := end];
    n := i;
  }

  // ---------- fields ----------

  /** The tokens without the empty one. */
  function Groups(ts: seq<string>): seq<string> {
    var k := NullAt(ts);
    if k == |ts| then ts else ts[..k] + ts[k + 1..]
  }

  /** What lies behind the empty token holds no other. */
  lemma {:induction false} NoneBehind(ts: seq<string>, k: nat, after: seq<string>)
    requires Empties(ts) <= 1 && k < |ts| && ts[k] == "" && after == ts[k + 1..]
    ensures Empties(after) == 0 && Empties(ts) == 1
  {
    var front := ts[..k + 1];
    assert ts == front + after;
    EmptiesConcat(front, after);
    assert front[..|front| - 1] == ts[..k] && front[|front| - 1] == "";
  }

  lemma {:induction false} OneEmpty(ts: seq<string>, i: nat)
    requires Empties(ts) <= 1 && i < |ts| && ts[i] == ""
    ensures i == NullAt(ts) && Empties(ts) == 1
  {
    var k := NullAt(ts);
    var after := ts[k + 1..];
    NoneBehind(ts, k, after);
    NoEmpties(after);
    assert forall j :: k < j < |ts| ==> after[j - k - 1] == ts[j];
  }

  /** The digits of one field, up to the next colon or the end of the tokens. */
  method ReadField(s: string, from: nat, stop: nat, ghost t: string) returns (field: nat)
    requires IsGroup(t) && from + |t| <= stop <= |s| && s[from..from + |t|] == t &&
      (from + |t| < stop ==> s[from + |t|] == ':')
    ensures field == HexValue(t) < 0x1_0000
  {
    HexValueBound(t);
    var p := from + 1;
    assert s[from] == t[0];
    field := HexDigit(s[from]);
    assert t[..1] == [t[0]] && [t[0]][..0] == "";
    assert !IsHexDigit(':');
    while p < stop && s[p] != ':'
      invariant from < p <= from + |t| && field == HexValue(t[..p - from])
    {
      assert s[p] == t[p - from];
      assert t[..p + 1 - from][..p - from] == t[..p - from];
      field := field * 16 + HexDigit(s[p]);
      p := p + 1;
    }
    assert t[..|t|] == t;
  }

  /** What the arrays say of token `k`. */
  lemma {:induction false} TokenAt(s: string, off: seq<nat>, ts: seq<string>, end: nat, k: nat)
    requires Located(s, off, ts, end) && k < |ts| && IsToken(ts[k])
    ensures off[k] + |ts[k]| <= off[k + 1] <= |s| && s[off[k]..off[k] + |ts[k]|] == ts[k]
    ensures off[k] + |ts[k]| < off[k + 1] ==> s[off[k] + |ts[k]|] == ':'
    ensures ts[k] == "" <==> off[k] == off[k + 1] || s[off[k]] == ':'
  {
    if k + 1 < |ts| { assert PieceAt(s, off, ts, off[|ts| - 1], k); }
    assert !IsHexDigit(':');
    if ts[k] != "" { assert s[off[k]] == ts[k][0]; }
  }

  /** Group `j`, counted without the empty token. */
  lemma {:induction false} GroupAt(ts: seq<string>, i: nat)
    requires Empties(ts) <= 1 && i < |ts| && ts[i] != ""
    ensures var k, gs := NullAt(ts), Groups(ts);
      i != k && |gs| == (if k == |ts| then |ts| else |ts| - 1) && gs[if i < k then i else i - 1] == ts[i]
  {}

  /** Decoding is before token `i`: it has set the first `count` of `fields`, and seen the empty token or not. */
  ghost function DecodeAt(ts: seq<string>, i: nat, count: nat, nullPos: nat, fields: seq<nat>): Progress {
    var k, gs := NullAt(ts), Groups(ts);
    if count == (if i <= k then i else i - 1) <= |gs| && count <= |fields| && nullPos == (if i <= k then 8 else k) &&
       AllTokens(gs) && fields[..count] == Values(gs[..count])
    then OnTrack else OffTrack
  }

  /** Groups that the field array has room for. */
  predicate Decodable(gs: seq<string>) { AllTokens(gs) && Empties(gs) <= 1 && |gs| <= 8 }

  lemma {:induction false} DecodeNext(ts: seq<string>, i: nat, count: nat, nullPos: nat, fields: seq<nat>)
    requires Decodable(ts) && i < |ts| && |fields| == 8 && DecodeAt(ts, i, count, nullPos, fields).OnTrack?
    ensures if ts[i] == "" then DecodeAt(ts, i + 1, count, i, fields).OnTrack?
            else count < 8 && DecodeAt(ts, i + 1, count + 1, nullPos, fields[count := HexValue(ts[i])]).OnTrack?
  {
    if ts[i] == "" {
      OneEmpty(ts, i);
    } else {
      GroupAt(ts, i);
      ValuesGrow(Groups(ts), count, fields);
    }
  }

  lemma {:induction false} ValuesGrow(gs: seq<string>, count: nat, fields: seq<nat>)
    requires AllTokens(gs) && count < |gs| && count < |fields| && fields[..count] == Values(gs[..count])
    ensures fields[count := HexValue(gs[count])][..count + 1] == Values(gs[..count + 1])
  {
    var g := fields[count := HexValue(gs[count])];
    forall j | 0 <= j < count ensures g[j] == HexValue(gs[j]) {
      assert g[j] == fields[..count][j] == HexValue(gs[..count][j]);
    }
  }

  lemma {:induction false} DecodeEnds(ts: seq<string>, count: nat, nullPos: nat, fields: seq<nat>)
    requires Decodable(ts) && DecodeAt(ts, |ts|, count, nullPos, fields).OnTrack?
    ensures count == |Groups(ts)| <= 8 && AllTokens(Groups(ts)) && count <= |fields| &&
      fields[..count] == Values(Groups(ts))
    ensures nullPos == if NullAt(ts) == |ts| then 8 else NullAt(ts)
  {
    NullCounts(ts);
    var gs := Groups(ts);
    assert gs[..|gs|] == gs;
  }

  /** Group `t` stands at `off`, and behind it a colon or the place where the next token starts. */
  predicate StandsAt(s: string, off: nat, t: string, next: nat) {
    && off + |t| <= next <= |s| && s[off..off + |t|] == t && (off + |t| < next ==> s[off + |t|] == ':')
    && (t == "" <==> off == next || s[off] == ':')
  }

  /** The groups stand where the array says. */
  ghost predicate GroupsStand(s: string, off: seq<nat>, gs: seq<string>) {
    |gs| < |off| && forall k: nat {:trigger gs[k]} :: k < |gs| ==> StandsAt(s, off[k], gs[k], off[k + 1])
  }

  lemma {:induction false} GroupsFound(s: string, off: seq<nat>, ts: seq<string>, end: nat, gs: seq<string>)
    requires Located(s, off, ts, end) && IsPrefix(gs, ts) && AllTokens(gs)
    ensures GroupsStand(s, off, gs)
  {
    forall k: nat | k < |gs| ensures StandsAt(s, off[k], gs[k], off[k + 1]) {
      assert ts[k] == ts[..|gs|][k] == gs[k];
      TokenAt(s, off, ts, end, k);
    }
  }

  /** The loop that decodes the tokens `gs`, which a tail may follow. */
  method DecodeFields(s: string, tokens: array<nat>, n: nat, ghost gs: seq<string>, fields: array<nat>)
    returns (nfields: nat, nullPos: nat)
    requires tokens.Length == 10 && GroupsStand(s, tokens[..], gs) && n == |gs| && Decodable(gs)
    requires fields.Length == 8 && fields != tokens
    modifies fields
    ensures nfields == |Groups(gs)| <= 8 && AllTokens(Groups(gs)) && fields[..nfields] == Values(Groups(gs))
    ensures nullPos == if NullAt(gs) == |gs| then 8 else NullAt(gs)
  {
    ghost var off: seq<nat> := tokens[..];
    nfields, nullPos := 0, 8;
    GroupsAreTokens(gs);
    for i := 0 to n
      invariant DecodeAt(gs, i, nfields, nullPos, fields[..]).OnTrack? && tokens[..] == off
    {
      DecodeNext(gs, i, nfields, nullPos, fields[..]);
      var p, e := tokens[i], tokens[i + 1];
      assert p == off[i] && e == off[i + 1] && StandsAt(s, p, gs[i], e);
      if p == e || s[p] == ':' {
        nullPos := i;
      } else {
        var field := ReadField(s, p, e, gs[i]);
        ghost var before := fields[..];
        fields[nfields] := field;
        assert fields[..] == before[nfields := field];
        nfields := nfields + 1;
      }
    }
    DecodeEnds(gs, nfields, nullPos, fields[..]);
    assert fields[..][..nfields] == fields[..nfields];
  }

  lemma {:induction false} GroupsAreTokens(gs: seq<string>)
    requires AllTokens(gs)
    ensures AllTokens(Groups(gs)) && |Groups(gs)| <= |gs|
  {}

  /** The fields behind the empty token move to the end of the `width` fields, and zeros fill the gap. */
  method Spread(fields: array<nat>, count: nat, nullPos: nat, width: nat)
    requires fields.Length == 8 && nullPos <= count < width <= 8
    modifies fields
    ensures fields[..width] == old(fields[..nullPos]) + Zeros(width - count) + old(fields[nullPos..count])
  {
    var i, last := count, width;
    ghost var was := fields[..];
    while i != nullPos
      invariant nullPos <= i <= count && last == width - (count - i)
      invariant forall j :: 0 <= j < i ==> fields[j] == old(fields[j])
      invariant forall j :: last <= j < width ==> fields[j] == old(fields[j - (width - count)])
    {
      i, last := i - 1, last - 1;
      fields[last] := fields[i];
    }
    ghost var moved := last;
    while last != nullPos
      invariant nullPos <= last <= moved == width - (count - nullPos)
      invariant forall j :: 0 <= j < nullPos ==> fields[j] == old(fields[j])
      invariant forall j :: last <= j < moved ==> fields[j] == 0
      invariant forall j :: moved <= j < width ==> fields[j] == old(fields[j - (width - count)])
    {
      last := last - 1;
      fields[last] := 0;
    }
    SpreadOut(was, fields[..], count, nullPos, width);
    assert fields[..][..width] == fields[..width];
    assert was[..nullPos] == old(fields[..nullPos]) && was[nullPos..count] == old(fields[nullPos..count]);
  }

  lemma {:induction false} SpreadOut(was: seq<nat>, now: seq<nat>, count: nat, nullPos: nat, width: nat)
    requires |was| == |now| == 8 && nullPos <= count < width <= 8
    requires forall j :: 0 <= j < nullPos ==> now[j] == was[j]
    requires forall j :: nullPos <= j < width - (count - nullPos) ==> now[j] == 0
    requires forall j :: width - (count - nullPos) <= j < width ==> now[j] == was[j - (width - count)]
    ensures now[..width] == was[..nullPos] + Zeros(width - count) + was[nullPos..count]
  {}

  /** The search for the first of the longest runs of zeros. */
  method FindRun(f: seq<nat>) returns (r: Run)
    ensures r == BestFrom(f, 0)
  {
    var i: nat, nullPos: nat, nullLen: nat := 0, |f|, 0;
    while i < |f|
      invariant 0 <= i <= |f| && Best(f, Run(nullPos, nullLen), i) && (0 < i < |f| ==> f[i - 1] != 0 || f[i] != 0)
      decreases |f| - i
    {
      while i < |f| && f[i] != 0
        invariant 0 <= i <= |f| && Best(f, Run(nullPos, nullLen), i) && (0 < i < |f| ==> f[i - 1] != 0 || f[i] != 0)
      {
        BestSkips(f, Run(nullPos, nullLen), i);
        i := i + 1;
      }
      if i == |f| {
        break;
      }
      var first: nat := i;
      while i < |f| && f[i] == 0
        invariant first <= i <= |f| && forall k :: first <= k < i ==> f[k] == 0
      {
        i := i + 1;
      }
      BestGrows(f, Run(nullPos, nullLen), first, i);
      if i - first > nullLen {
        nullPos, nullLen := first, i - first;
      }
    }
    BestIsUnique(f, Run(nullPos, nullLen));
    r := Run(nullPos, nullLen);
  }

  /** The best run among those that lie before `i`. */
  ghost predicate Best(f: seq<nat>, r: Run, i: nat) {
    && (r.len > 0 ==> ZeroRange(f, r.pos, r.pos + r.len) && r.pos + r.len <= i) && (r.len == 0 ==> r.pos == |f|)
    && forall a: nat, b: nat {:trigger ZeroRange(f, a, b)} ::
       ZeroRange(f, a, b) && b <= i ==> b - a < r.len || (b - a == r.len && r.pos <= a)
  }

  lemma {:induction false} BestSkips(f: seq<nat>, r: Run, i: nat)
    requires i < |f| && f[i] != 0 && Best(f, r, i)
    ensures Best(f, r, i + 1)
  {
    assert forall a: nat, b: nat {:trigger ZeroRange(f, a, b)} :: ZeroRange(f, a, b) && b <= i + 1 ==> b <= i;
  }

  lemma {:induction false} BestGrows(f: seq<nat>, r: Run, first: nat, i: nat)
    requires Best(f, r, first) && ZeroRange(f, first, i) && (first > 0 ==> f[first - 1] != 0)
    ensures Best(f, if i - first > r.len then Run(first, i - first) else r, i)
  {
    assert forall a: nat, b: nat {:trigger ZeroRange(f, a, b)} :: ZeroRange(f, a, b) && first < b <= i ==> first <= a;
  }

  // ---------- printing ----------

  /** Fields from `from` up to `upto`, each after a colon. */
  function Tail(f: seq<nat>, from: nat, upto: nat): string
    requires from <= upto <= |f|
    decreases upto
  {
    if from == upto then "" else Tail(f, from, upto - 1) + [':'] + HexText(f[upto - 1])
  }

  lemma {:induction false} TextsSnoc(f: seq<nat>, from: nat, upto: nat, ts: seq<string>)
    requires from < upto <= |f| && ts == Texts(f[from..upto])
    ensures ts == Texts(f[from..upto - 1]) + [HexText(f[upto - 1])]
  {}

  lemma {:induction false} JoinSnoc(ts: seq<string>, us: seq<string>, t: string)
    requires us != [] && ts == us + [t]
    ensures [':'] + Join(':', ts) == [':'] + Join(':', us) + [':'] + t
  {
    assert ts[..|ts| - 1] == us;
    var j := Join(':', us);
    assert [':'] + (j + [':'] + t) == [':'] + j + [':'] + t;
  }

  lemma {:induction false} TailJoins(f: seq<nat>, from: nat, upto: nat)
    requires from < upto <= |f|
    ensures Tail(f, from, upto) == [':'] + Join(':', Texts(f[from..upto]))
    decreases upto
  {
    var ts, t := Texts(f[from..upto]), HexText(f[upto - 1]);
    TextsSnoc(f, from, upto, ts);
    if from == upto - 1 {
      assert Texts(f[from..from]) == [] && ts == [t];
      OneJoins(t);
    } else {
      TailJoins(f, from, upto - 1);
      JoinSnoc(ts, Texts(f[from..upto - 1]), t);
    }
  }

  lemma {:induction false} OneJoins(t: string)
    ensures "" + [':'] + t == [':'] + Join(':', [t])
  {}

  method PrintTail(f: seq<nat>, from: nat, upto: nat) returns (t: string)
    requires from <= upto <= |f|
    ensures t == Tail(f, from, upto)
  {
    t := "";
    for i := from to upto
      invariant t == Tail(f, from, i)
    {
      t := t + [':'] + HexText(f[i]);
    }
  }

  /** Head and tail: the first field, and the others each after a colon. */
  lemma {:induction false} HeadJoins(f: seq<nat>, upto: nat)
    requires 0 < upto <= |f|
    ensures HexText(f[0]) + Tail(f, 1, upto) == Join(':', Texts(f[..upto]))
  {
    TailJoins(f, 0, upto);
    HeadTail(f, upto);
    assert f[0..upto] == f[..upto];
    var x, y := HexText(f[0]) + Tail(f, 1, upto), Join(':', Texts(f[..upto]));
    assert [':'] + x == [':'] + y;
    assert ([':'] + x)[1..] == x && ([':'] + y)[1..] == y;
  }

  lemma {:induction false} HeadTail(f: seq<nat>, upto: nat)
    requires 0 < upto <= |f|
    ensures Tail(f, 0, upto) == [':'] + (HexText(f[0]) + Tail(f, 1, upto))
    decreases upto
  {
    if upto > 1 {
      HeadTail(f, upto - 1);
    } else {
      assert Tail(f, 0, 0) == "";
    }
  }

  /** What the printing code writes for a run of zeros, before a tail. */
  function Written(f: seq<nat>, r: Run): string
    requires (|f| == 8 || |f| == 6) && r.pos + r.len <= |f| && (r.pos < |f| || r.len == 0)
  {
    var n, e := |f|, r.pos + r.len;
    if r.len == 1 || r.len == 0 then HexText(f[0]) + Tail(f, 1, n)
    else if r.pos == 0 then ":" + Tail(f, r.len, n)
    else HexText(f[0]) + Tail(f, 1, r.pos) + ":" + (if e == 8 then ":" else Tail(f, e, n))
  }

  /** The end of the text: behind the first of the two colons. */
  lemma {:induction false} TailAfter(f: seq<nat>, e: nat, y: string)
    requires e <= |f| && y == Join(':', Texts(f[e..]))
    ensures e < |f| ==> Tail(f, e, |f|) == ":" + y
    ensures e == |f| ==> Tail(f, e, |f|) == "" && y == ""
  {
    if e < |f| {
      TailJoins(f, e, |f|);
      assert f[e..|f|] == f[e..];
    } else {
      assert Texts(f[e..]) == [];
    }
  }

  lemma {:induction false} TwoColons(x: string, y: string)
    ensures x + ":" + (":" + y) == x + "::" + y && x + ":" + ":" == x + "::" + "" && "" + "::" + y == ":" + (":" + y)
  {}

  /** No run of zeros is left out. */
  lemma {:induction false} PlainWritten(f: seq<nat>, r: Run)
    requires (|f| == 8 || |f| == 6) && r == BestFrom(f, 0) && r.len < 2
    ensures Written(f, r) == Join(':', Texts(f))
  {
    HeadJoins(f, |f|);
    assert f[..|f|] == f;
  }

  /** What is written up to the first of the two colons, and behind it. */
  lemma {:induction false} NothingBefore(f: seq<nat>)
    ensures Join(':', Texts(f[..0])) == ""
  {
    assert Texts(f[..0]) == [];
  }

  lemma {:induction false} FrontWritten(f: seq<nat>, r: Run, t: string)
    requires (|f| == 8 || |f| == 6) && r.len >= 2 && r.pos == 0 && r.len <= |f| && t == Tail(f, r.len, |f|)
    ensures Written(f, r) == "" + ":" + t
  {}

  lemma {:induction false} InnerWritten(f: seq<nat>, r: Run, x: string)
    requires (|f| == 8 || |f| == 6) && r == BestFrom(f, 0) && r.len >= 2 && r.pos > 0
    requires x == HexText(f[0]) + Tail(f, 1, r.pos)
    ensures Written(f, r) == x + ":" + (if r.pos + r.len == 8 then ":" else Tail(f, r.pos + r.len, |f|))
  {}

  lemma {:induction false} RunWritten(f: seq<nat>, r: Run, x: string)
    requires (|f| == 8 || |f| == 6) && r == BestFrom(f, 0) && r.len >= 2 && x == Join(':', Texts(f[..r.pos]))
    ensures Written(f, r) == x + ":" + (if r.pos > 0 && r.pos + r.len == 8 then ":" else Tail(f, r.pos + r.len, |f|))
  {
    if r.pos == 0 {
      NothingBefore(f);
      FrontWritten(f, r, Tail(f, r.len, |f|));
    } else {
      HeadJoins(f, r.pos);
      InnerWritten(f, r, x);
    }
  }

  lemma {:induction false} NoTail(ts: seq<string>)
    ensures ts + [] == ts
  {}

  lemma {:induction false} BehindRun(f: seq<nat>, e: nat, x: string, y: string)
    requires |f| == 8 && 2 <= e <= 8 && y == Join(':', Texts(f[e..]))
    ensures x + ":" + (if e == 8 then ":" else Tail(f, e, 8)) == x + "::" + y
  {
    TailAfter(f, e, y);
    TwoColons(x, y);
  }

  lemma {:induction false} WrittenIsText(f: seq<nat>, r: Run)
    requires |f| == 8 && r == BestFrom(f, 0)
    ensures Written(f, r) == TextOf(Address(f, []))
  {
    if r.len < 2 {
      PlainWritten(f, r);
      assert Texts(f) + [] == Texts(f);
    } else if r.len == 8 {
      assert Tail(f, 8, 8) == "";
    } else {
      RunWrittenIsText(f, r, Join(':', Texts(f[..r.pos])), Join(':', Texts(f[r.pos + r.len..])));
    }
  }

  lemma {:induction false} RunWrittenIsText(f: seq<nat>, r: Run, x: string, y: string)
    requires |f| == 8 && r == BestFrom(f, 0) && 2 <= r.len < 8
    requires x == Join(':', Texts(f[..r.pos])) && y == Join(':', Texts(f[r.pos + r.len..]))
    ensures Written(f, r) == TextOf(Address(f, []))
  {
    RunWritten(f, r, x);
    BehindRun(f, r.pos + r.len, x, y);
    NoTail(Texts(f[r.pos + r.len..]));
    RunText(Address(f, []), r, x, y);
  }

  // ---------- printing before a tail ----------

  /** From the run of zeros on: the second colon is printed with the next field, or with the tail. */
  lemma {:induction false} RestWithTail(f: seq<nat>, e: nat, q: string)
    requires e <= |f|
    ensures Tail(f, e, |f|) + [':'] + q == [':'] + Join(':', Texts(f[e..]) + [q])
  {
    var y := Join(':', Texts(f[e..]));
    TailAfter(f, e, y);
    JoinLast(':', Texts(f[e..]), q);
    if e < |f| {
      assert ":" + y + [':'] + q == [':'] + (y + [':'] + q);
    } else {
      assert "" + [':'] + q == [':'] + q && Texts(f[e..]) == [];
    }
  }

  lemma {:induction false} ColonsBetween(x: string, t: string, q: string, z: string)
    requires t + [':'] + q == [':'] + z
    ensures x + ":" + t + [':'] + q == x + "::" + z
  {
    assert x + ":" + t + [':'] + q == x + ":" + (t + [':'] + q);
    assert x + ":" + ([':'] + z) == x + "::" + z;
  }

  lemma {:induction false} WrittenWithTail(f: seq<nat>, r: Run, q: string)
    requires |f| == 6 && r == BestFrom(f, 0)
    ensures Written(f, r) + [':'] + q == TextOf(Address(f, [q]))
  {
    if r.len < 2 {
      PlainWritten(f, r);
      JoinLast(':', Texts(f), q);
    } else {
      RunWithTail(f, r, q, Join(':', Texts(f[..r.pos])), Join(':', Texts(f[r.pos + r.len..]) + [q]));
    }
  }

  lemma {:induction false} RunWithTail(f: seq<nat>, r: Run, q: string, x: string, z: string)
    requires |f| == 6 && r == BestFrom(f, 0) && r.len >= 2
    requires x == Join(':', Texts(f[..r.pos])) && z == Join(':', Texts(f[r.pos + r.len..]) + [q])
    ensures Written(f, r) + [':'] + q == TextOf(Address(f, [q]))
  {
    RunWritten(f, r, x);
    RestWithTail(f, r.pos + r.len, q);
    ColonsBetween(x, Tail(f, r.pos + r.len, 6), q, z);
    RunText(Address(f, [q]), r, x, z);
  }

  method PrintFields(f: seq<nat>, run: Run) returns (t: string)
    requires (|f| == 8 || |f| == 6) && run == BestFrom(f, 0)
    ensures t == Written(f, run)
  {
    var nfields, nullPos, nullLen := |f|, run.pos, run.len;
    if nullLen == 1 {
      nullPos := nfields;
    }
    var i;
    if nullPos == 0 {
      t := ":";
      i := nullLen;
    } else {
      t := PrintTail(f, 1, nullPos);
      t := HexText(f[0]) + t;
      i := nullPos;
      if i < nfields {
        t := t + ":";
      }
      i := i + nullLen;
      if i == 8 && nullLen != 0 {
        t := t + ":";
      }
    }
    if i < nfields {
      var rest := PrintTail(f, i, nfields);
      t := t + rest;
    }
  }

  method Print(a: Address, run: Run) returns (t: string)
    requires |a.fields| == Width(a.tail) && |a.tail| <= 1 && run == BestFrom(a.fields, 0)
    ensures t == TextOf(a)
  {
    t := PrintFields(a.fields, run);
    if a.tail == [] {
      WrittenIsText(a.fields, run);
    } else {
      WrittenWithTail(a.fields, run, a.tail[0]);
      t := t + [':'] + a.tail[0];
      assert a.tail == [a.tail[0]];
    }
  }

  // ---------- the whole function ----------

  /** What is left in the fields once the gap is filled. */
  ghost predicate Filled(before: seq<nat>, after: seq<nat>, count: nat, k: nat, width: nat) {
    && count <= |before| && count <= width
    && (count == width ==> after == before[..count])
    && (count < width ==> k <= count && after == before[..k] + Zeros(width - count) + before[k..count])
  }

  lemma {:induction false} SpreadIsExpand(gs: seq<string>, tail: seq<string>, before: seq<nat>, after: seq<nat>,
                                          count: nat, k: nat)
    requires ValidParts(gs, tail) && k == NullAt(gs) && count == |Groups(gs)| <= |before| && AllTokens(Groups(gs))
    requires before[..count] == Values(Groups(gs)) && Filled(before, after, count, k, Width(tail))
    ensures after == Expand(gs, tail)
  {
    if k == |gs| { NoGap(gs, tail, before, after, count); } else { WithGap(gs, tail, before, after, count, k); }
  }

  lemma {:induction false} WithGap(gs: seq<string>, tail: seq<string>, before: seq<nat>, after: seq<nat>, count: nat,
                                   k: nat)
    requires ValidParts(gs, tail) && k == NullAt(gs) < |gs| && count == |gs| - 1 && AllTokens(Groups(gs))
    requires Filled(before, after, count, k, Width(tail)) && before[..count] == Values(Groups(gs))
    ensures after == Expand(gs, tail)
  {
    GapSpread(gs, before, count, k, Groups(gs));
    FillsGap(before, after, count, k, Width(tail));
    GapIsExpand(gs, tail, before, after, count, k);
  }

  lemma {:induction false} NoGap(gs: seq<string>, tail: seq<string>, before: seq<nat>, after: seq<nat>, count: nat)
    requires ValidParts(gs, tail) && NullAt(gs) == |gs| && count == |gs| <= |before|
    requires before[..count] == Values(gs) && Filled(before, after, count, |gs|, Width(tail))
    ensures after == Expand(gs, tail)
  {
    NullCounts(gs);
  }

  lemma {:induction false} GapIsExpand(gs: seq<string>, tail: seq<string>, before: seq<nat>, after: seq<nat>,
                                       count: nat, k: nat)
    requires ValidParts(gs, tail) && k == NullAt(gs) < |gs| && count == |gs| - 1 && k <= count <= |before|
    requires count <= Width(tail) && after == before[..k] + Zeros(Width(tail) - count) + before[k..count]
    requires before[..k] == Values(gs[..k]) && before[k..count] == Values(gs[k + 1..])
    ensures after == Expand(gs, tail)
  {
    ExpandWithGap(gs, tail, k);
  }

  /** A gap may stand for no field at all. */
  lemma {:induction false} FillsGap(before: seq<nat>, after: seq<nat>, count: nat, k: nat, width: nat)
    requires Filled(before, after, count, k, width) && k <= count
    ensures after == before[..k] + Zeros(width - count) + before[k..count]
  {}

  lemma {:induction false} ExpandWithGap(gs: seq<string>, tail: seq<string>, k: nat)
    requires ValidParts(gs, tail) && k == NullAt(gs) < |gs|
    ensures Expand(gs, tail) == Values(gs[..k]) + Zeros(Width(tail) + 1 - |gs|) + Values(gs[k + 1..])
    ensures |Groups(gs)| == |gs| - 1
  {}

  lemma {:induction false} GapSpread(ts: seq<string>, before: seq<nat>, count: nat, k: nat, gs: seq<string>)
    requires AllTokens(ts) && k < |ts| && gs == ts[..k] + ts[k + 1..] && count == |gs| <= |before| && AllTokens(gs) &&
      before[..count] == Values(gs)
    ensures k <= count && before[..k] == Values(ts[..k]) && before[k..count] == Values(ts[k + 1..])
  {
    assert forall j :: 0 <= j < count ==> before[j] == before[..count][j] == HexValue(gs[j]);
  }

  /** The last token is the tail exactly when it is longer than five characters. */
  lemma {:induction false} TailLocated(s: string, off: seq<nat>, ts: seq<string>, end: nat)
    requires Located(s, off, ts, end)
    ensures off[|ts|] - off[|ts| - 1] > 5 <==> HasTail(ts)
    ensures HasTail(ts) ==> off[|ts| - 1] <= off[|ts|] <= |s| && [s[off[|ts| - 1]..off[|ts|]]] == TailOf(ts)
  {}

  /** The part of normalize_IPv6 that looks for a dotted quad. */
  method FindTail(s: string, tokens: array<nat>, n: nat, ghost ts: seq<string>, ghost end: nat)
    returns (tail: seq<string>, rest: nat)
    requires tokens.Length == 10 && Located(s, tokens[..], ts, end) && n == |ts|
    ensures tail == TailOf(ts) && rest == |HeadOf(ts)|
  {
    ghost var off: seq<nat> := tokens[..];
    TailLocated(s, off, ts, end);
    var b, e := tokens[n - 1], tokens[n];
    assert b == off[n - 1] && e == off[n];
    if e - b > 5 {
      return [s[b..e]], n - 1;
    }
    return [], n;
  }

  /** The fields and the tail of an address, through the token array and the field array. */
  method ReadAddress(s: string) returns (a: Address)
    requires |s| >= 2 && s != "::" && ValidTokens(Tokens(s))
    ensures a == AddressOf(Tokens(s))
  {
    var start := if s[0] == ':' then 1 else 0;
    var end := if s[|s| - 1] == ':' then |s| - 1 else |s|;
    ghost var ts := Tokens(s);
    assert Inner(s) == s[start..end];
    TokenCount(ts);
    var tokens, n := FindTokens(s, start, end);
    var tail, rest := FindTail(s, tokens, n, ts, end);
    var f := ReadGroups(s, tokens, rest, end, ts, HeadOf(ts), tail);
    a := Address(f, tail);
  }

  lemma {:induction false} TokenCount(ts: seq<string>)
    requires ValidTokens(ts)
    ensures |ts| <= 8 && Decodable(HeadOf(ts)) && IsPrefix(HeadOf(ts), ts)
  {}

  method ReadGroups(s: string, tokens: array<nat>, n: nat, ghost end: nat, ghost ts: seq<string>, ghost gs: seq<string>,
                    tail: seq<string>)
    returns (f: seq<nat>)
    requires tokens.Length == 10 && Located(s, tokens[..], ts, end) && IsPrefix(gs, ts) && n == |gs|
    requires ValidParts(gs, tail) && Decodable(gs)
    ensures f == Expand(gs, tail)
  {
    var fields := new nat[8];
    GroupsFound(s, tokens[..], ts, end, gs);
    var count, nullPos := DecodeFields(s, tokens, n, gs, fields);
    var width := if tail == [] then 8 else 6;
    ghost var before: seq<nat> := fields[..];
    CountFits(gs, tail);
    if count < width {
      Spread(fields, count, nullPos, width);
    }
    f := fields[..width];
    SpreadIsExpand(gs, tail, before, f, count, NullAt(gs));
  }

  /** There are no more groups than fields, and if there are fewer, there is an empty token. */
  lemma {:induction false} CountFits(gs: seq<string>, tail: seq<string>)
    requires ValidParts(gs, tail)
    ensures var count, k := |Groups(gs)|, NullAt(gs);
      count <= Width(tail) && (count < Width(tail) ==> k < |gs| && k <= count)
  {
    NullCounts(gs);
  }

  method NormalizeAddress(s: string) returns (t: string)
    requires IsAddress(s)
    ensures t == NormalizeIpv6(s)
  {
    if s == "::" {
      return s;
    }
    var a := ReadAddress(s);
    AddressFits(Tokens(s));
    var run := FindRun(a.fields);
    t := Print(a, run);
  }

  lemma {:induction false} AddressFits(ts: seq<string>)
    requires ValidTokens(ts)
    ensures var a := AddressOf(ts); |a.fields| == Width(a.tail) && |a.tail| <= 1
  {}
}
