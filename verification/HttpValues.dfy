/** Header values: the way to a value and out of it, and Transfer-Encoding, which is recognised as chunked
    exactly as the whole value says. */
module HttpValues {
  import opened Sequences
  import opened HttpChars
  import opened HttpParser
  import opened HttpInvariant
  import opened HttpRun
  import opened HttpScan
  import opened HttpExecute
  import opened HttpSegments
  import opened HttpHeaders

  // ---------- the way to a value, and out of it ----------

  predicate AllBlank(b: string) { forall k :: 0 <= k < |b| ==> Blank(b[k]) }

  predicate OneLine(v: string) { forall k :: 0 <= k < |v| ==> ValueChar(v[k]) }

  lemma {:induction false} TrimSplits(v: string) returns (b: string)
    ensures v == b + TrimLeft(v) && AllBlank(b) && (TrimLeft(v) != "" ==> !Blank(TrimLeft(v)[0]))
  {
    if v != "" && Blank(v[0]) {
      var c := TrimSplits(v[1..]);
      b := [v[0]] + c;
      assert v == [v[0]] + v[1..];
    } else {
      b := "";
    }
  }

  lemma {:induction false} TrimKeeps(v: string, lenient: bool)
    ensures OneLine(v) ==> OneLine(TrimLeft(v))
    ensures AllowedText(v, lenient) ==> AllowedText(TrimLeft(v), lenient)
  {
    if v != "" && Blank(v[0]) { TrimKeeps(v[1..], lenient); }
  }

  predicate AllowedText(t: string, lenient: bool) {
    forall k :: 0 <= k < |t| ==> ValueChar(t[k]) && (lenient || IsHeaderChar(t[k]))
  }

  /** Lines end with CR LF, or with a lone LF. */
  predicate LineEnd(end: string) { end == [CR, LF] || end == [LF] }

  /** The parser at the start of a line that is not folded: the header before it has taken effect. */
  function NextLine(p: Parser, m: nat): Parser {
    p.(nread := m, flags := HeaderFlag(p.flags, p.hstate), state := HeaderFieldStart)
  }

  /** Before a value blanks are skipped, and its first character starts the matcher. */
  ghost predicate BlankLaw(sw: Switch, max: nat) {
    forall p: Parser, ch: char {:trigger sw(p, ch), Tick(p)} ::
      p.state.HeaderValueDiscardWs? && p.nread + 1 <= max && Blank(ch) ==>
      sw(p, ch) == Next(Tick(p))
  }

  ghost predicate FirstLaw(sw: Switch, max: nat) {
    forall p: Parser, ch: char {:trigger sw(p, ch), Tick(p)} ::
      p.state.HeaderValueDiscardWs? && p.nread + 1 <= max && !Blank(ch) && ValueChar(ch) ==>
        sw(p, ch) == StepHeaderValueStart(Tick(p), ch)
  }

  /** In a value, or before it. */
  predicate OnLine(p: Parser) { InValue(p) || (AfterColon(p) && p.state.HeaderValueDiscardWs?) }

  /** The states of a line after CR, and after LF. */
  function AfterCr(s: State): State { if s.HeaderValue? then HeaderAlmostDone else HeaderValueDiscardWsAlmostDone }

  function AfterLf(s: State): State {
    if s.HeaderValue? || s.HeaderAlmostDone? then HeaderValueLws else HeaderValueDiscardLws
  }

  predicate Moves(e: Eff, p: Parser, s: State) { e.out.Go? && e.p == p.(state := s) }

  ghost predicate EndLaw(sw: Switch, max: nat) {
    && (forall p: Parser {:trigger sw(p, CR), Tick(p)} :: OnLine(p) && p.nread + 1 <= max ==>
          Moves(sw(p, CR), Tick(p), AfterCr(p.state)))
    && (forall p: Parser {:trigger sw(p, LF), Tick(p)} ::
          (OnLine(p) || p.state.HeaderAlmostDone? || p.state.HeaderValueDiscardWsAlmostDone?) && p.nread + 1 <= max ==>
          Moves(sw(p, LF), Tick(p), AfterLf(p.state)))
  }

  /** A line begins, which is an error for a Content-Length without a value. */
  predicate GoesToNext(e: Eff, p: Parser, f: Eff) {
    if p.state.HeaderValueDiscardLws? && p.hstate.ContentLength? then e.out.Fail? else e.out == f.out && e.p == f.p
  }

  /** The first byte of a line that is not folded; `start` is what the switch does with it. */
  ghost predicate NextLaw(sw: Switch, start: Switch, max: nat) {
    forall p: Parser, ch: char {:trigger sw(p, ch), Tick(p)} ::
      (p.state.HeaderValueLws? || p.state.HeaderValueDiscardLws?) && p.nread + 1 <= max && !Blank(ch) ==>
        GoesToNext(sw(p, ch), p, start(NextLine(p, p.nread + 1), ch))
  }

  ghost predicate TextLaw(sw: Switch, max: nat) { Scans(sw, max, FieldValue, InValue, ValueByte, ValueChar) }

  function LineStart(cfg: Config): Switch { (p, ch) => StepHeaderFieldStart(p, ch, cfg) }

  lemma {:induction false} DiscardStep(p: Parser, ch: char, cfg: Config)
    requires p.state.HeaderValueDiscardWs? && p.nread + 1 <= cfg.maxHeader
    ensures Step(p, ch, cfg) == StepDiscardWs(Tick(p), ch)
  {}

  lemma {:induction false} LineEndSteps(p: Parser, cfg: Config)
    requires p.nread + 1 <= cfg.maxHeader
    ensures p.state.HeaderAlmostDone? ==> Step(p, LF, cfg) == Next(Tick(p).(state := HeaderValueLws))
    ensures p.state.HeaderValueDiscardWsAlmostDone? ==>
      Step(p, LF, cfg) == Next(Tick(p).(state := HeaderValueDiscardLws))
  {}

  lemma {:induction false} LwsStep(p: Parser, x: char, cfg: Config)
    requires p.nread + 1 <= cfg.maxHeader && p.state.HeaderValueLws?
    ensures Step(p, x, cfg) == StepHeaderValueLws(Tick(p), x, cfg)
  {}

  lemma {:induction false} DiscardLwsStep(p: Parser, x: char, cfg: Config)
    requires p.nread + 1 <= cfg.maxHeader && p.state.HeaderValueDiscardLws?
    ensures Step(p, x, cfg) == StepDiscardLws(Tick(p), x, cfg)
  {}

  lemma {:induction false} LawsBefore(cfg: Config)
    ensures BlankLaw(ByteSwitch(cfg), cfg.maxHeader) && FirstLaw(ByteSwitch(cfg), cfg.maxHeader)
  {
    var sw := ByteSwitch(cfg);
    forall p: Parser, ch: char | p.state.HeaderValueDiscardWs? && p.nread + 1 <= cfg.maxHeader
      ensures Blank(ch) ==> sw(p, ch) == Next(Tick(p))
      ensures !Blank(ch) && ValueChar(ch) ==> sw(p, ch) == StepHeaderValueStart(Tick(p), ch)
    {
      DiscardStep(p, ch, cfg);
    }
  }

  lemma {:induction false} CrMoves(p: Parser, cfg: Config)
    requires OnLine(p) && p.nread + 1 <= cfg.maxHeader
    ensures Moves(Step(p, CR, cfg), Tick(p), AfterCr(p.state))
  {
    if InValue(p) {
      ValueStep(p, CR, cfg);
      ValueStepScans(p, CR);
    } else {
      DiscardStep(p, CR, cfg);
    }
  }

  lemma {:induction false} LfMoves(p: Parser, cfg: Config)
    requires (OnLine(p) || p.state.HeaderAlmostDone? || p.state.HeaderValueDiscardWsAlmostDone?) &&
      p.nread + 1 <= cfg.maxHeader
    ensures Moves(Step(p, LF, cfg), Tick(p), AfterLf(p.state))
  {
    if InValue(p) {
      ValueStep(p, LF, cfg);
      ValueStepScans(p, LF);
    } else if p.state.HeaderValueDiscardWs? {
      DiscardStep(p, LF, cfg);
    } else {
      LineEndSteps(p, cfg);
    }
  }

  lemma {:induction false} LawsBehind(cfg: Config)
    ensures EndLaw(ByteSwitch(cfg), cfg.maxHeader)
  {
    var sw, max := ByteSwitch(cfg), cfg.maxHeader;
    forall p: Parser | OnLine(p) && p.nread + 1 <= max ensures Moves(sw(p, CR), Tick(p), AfterCr(p.state)) {
      CrMoves(p, cfg);
    }
    forall p: Parser
      | (OnLine(p) || p.state.HeaderAlmostDone? || p.state.HeaderValueDiscardWsAlmostDone?) && p.nread + 1 <= max
      ensures Moves(sw(p, LF), Tick(p), AfterLf(p.state))
    {
      LfMoves(p, cfg);
    }
  }

  lemma {:induction false} LwsNext(p: Parser, ch: char, cfg: Config)
    requires p.state.HeaderValueLws? && p.nread + 1 <= cfg.maxHeader && !Blank(ch)
    ensures GoesToNext(Step(p, ch, cfg), p, StepHeaderFieldStart(NextLine(p, p.nread + 1), ch, cfg))
  {
    LwsStep(p, ch, cfg);
    assert Tick(p).(flags := HeaderFlag(p.flags, p.hstate), state := HeaderFieldStart) == NextLine(p, p.nread + 1);
  }

  lemma {:induction false} DiscardLwsNext(p: Parser, ch: char, cfg: Config)
    requires p.state.HeaderValueDiscardLws? && p.nread + 1 <= cfg.maxHeader && !Blank(ch)
    ensures GoesToNext(Step(p, ch, cfg), p, StepHeaderFieldStart(NextLine(p, p.nread + 1), ch, cfg))
  {
    DiscardLwsStep(p, ch, cfg);
    assert Tick(p).(flags := HeaderFlag(p.flags, p.hstate), state := HeaderFieldStart) == NextLine(p, p.nread + 1);
  }

  lemma {:induction false} LawsNext(cfg: Config)
    ensures NextLaw(ByteSwitch(cfg), LineStart(cfg), cfg.maxHeader)
  {
    var sw, start := ByteSwitch(cfg), LineStart(cfg);
    forall p: Parser, ch: char
      | (p.state.HeaderValueLws? || p.state.HeaderValueDiscardLws?) && p.nread + 1 <= cfg.maxHeader && !Blank(ch)
      ensures GoesToNext(sw(p, ch), p, start(NextLine(p, p.nread + 1), ch))
    {
      if p.state.HeaderValueLws? { LwsNext(p, ch, cfg); } else { DiscardLwsNext(p, ch, cfg); }
    }
  }

  /** Leading blanks are only counted. */
  lemma {:induction false} RunsBlanks(p: Parser, b: string, sw: Switch, max: nat, m: nat)
    requires BlankLaw(sw, max) && p.state.HeaderValueDiscardWs? && m == p.nread + |b| <= max && AllBlank(b)
    ensures var r := Reach(p, b, sw); r.out.Go? && r.p == Count(p, m)
  {
    forall n: nat, k: nat {:trigger sw(Count(p, n), b[k])} | p.nread <= n < m && k < |b|
      ensures sw(Count(p, n), b[k]) == Next(Count(p, n + 1))
    {
      assert Tick(Count(p, n)) == Count(p, n + 1);
    }
    ReachCounts(p, b, sw, m);
  }

  /** What the value matcher makes of the text `t`, `p` having counted its first character. */
  function Matched(p: Parser, t: string): Eff
    requires t != ""
  {
    var s := StepHeaderValueStart(p, t[0]);
    if s.out.Go? then ScanFold(ValueByte, s.p, t[1..]) else s
  }

  /** The run over a value that does not start with a blank: its first character, and the value
      matcher over the rest. */
  lemma {:induction false} RunsText(p: Parser, t: string, sw: Switch, max: nat)
    requires FirstLaw(sw, max) && TextLaw(sw, max) && AfterColon(p) && p.state.HeaderValueDiscardWs? &&
      p.nread + |t| <= max
    requires t != "" && !Blank(t[0]) && OneLine(t)
    ensures var r, e := Reach(p, t, sw), Matched(Tick(p), t);
      if e.out.Go? then r.out.Go? && InValue(r.p) && r.p == Count(e.p, p.nread + |t|) else r.out.Fail?
  {
    var s := StepHeaderValueStart(Tick(p), t[0]);
    ValueStartKept(Tick(p), t[0]);
    ReachFirst(p, t, sw);
    if s.out.Go? { RunsRest(s.p, t[1..], sw, max); }
  }

  lemma {:induction false} RunsRest(p: Parser, t: string, sw: Switch, max: nat)
    requires TextLaw(sw, max) && InValue(p) && p.nread + |t| <= max && OneLine(t)
    ensures var r, e := Reach(p, t, sw), ScanFold(ValueByte, p, t);
      if e.out.Go? then r.out.Go? && InValue(r.p) && r.p == Count(e.p, p.nread + |t|) else r.out.Fail?
  {
    ReachScan(p, t, sw, max, FieldValue, InValue, ValueByte, ValueChar, p.nread + |t|);
  }

  /** The same with leading blanks: `q` is the parser after them. */
  lemma {:induction false} RunsValue(p: Parser, v: string, sw: Switch, max: nat) returns (q: Parser)
    requires BlankLaw(sw, max) && p.state.HeaderValueDiscardWs? && p.nread + |v| <= max
    ensures |TrimLeft(v)| <= |v| && q == Count(p, p.nread + (|v| - |TrimLeft(v)|)) &&
      (TrimLeft(v) != "" ==> !Blank(TrimLeft(v)[0]))
    ensures Reach(p, v, sw).out == Reach(q, TrimLeft(v), sw).out && Reach(p, v, sw).p == Reach(q, TrimLeft(v), sw).p
  {
    var b := TrimSplits(v);
    q := Count(p, p.nread + |b|);
    RunsBlanks(p, b, sw, max, p.nread + |b|);
    ReachSplit(p, b, TrimLeft(v), sw);
  }

  /** The parser behind the end of a line, before it knows whether the line is folded. */
  function BehindLine(p: Parser, m: nat): Parser { Count(p, m).(state := AfterLf(p.state)) }

  lemma {:induction false} RunsLf(p: Parser, sw: Switch, max: nat)
    requires EndLaw(sw, max) && OnLine(p) && p.nread + 1 <= max
    ensures var r := Reach(p, [LF], sw); r.out.Go? && r.p == BehindLine(p, p.nread + 1)
  {
    ReachOne(p, LF, sw);
    assert Tick(p) == Count(p, p.nread + 1);
  }

  lemma {:induction false} RunsCrLf(p: Parser, sw: Switch, max: nat)
    requires EndLaw(sw, max) && OnLine(p) && p.nread + 2 <= max
    ensures var r := Reach(p, [CR, LF], sw); r.out.Go? && r.p == BehindLine(p, p.nread + 2)
  {
    var q := Tick(p).(state := AfterCr(p.state));
    ReachOne(p, CR, sw);
    ReachSnoc(p, [CR], LF, sw);
    assert Tick(q) == Count(p, p.nread + 2).(state := q.state);
    assert [CR] + [LF] == [CR, LF];
  }

  lemma {:induction false} RunsEnd(p: Parser, end: string, sw: Switch, max: nat)
    requires EndLaw(sw, max) && OnLine(p) && LineEnd(end) && p.nread + |end| <= max
    ensures var r := Reach(p, end, sw); r.out.Go? && r.p == BehindLine(p, p.nread + |end|)
  {
    if |end| == 1 { RunsLf(p, sw, max); } else { RunsCrLf(p, sw, max); }
  }

  /** Whether a run ends as the first byte `x` of a line does in parser `q`. */
  predicate Continues(r: Place, q: Parser, x: char, start: Switch) { r.out == start(q, x).out && r.p == start(q, x).p }

  lemma {:induction false} RunsNext(p: Parser, end: string, x: char, sw: Switch, start: Switch, max: nat, q: Parser)
    requires NextLaw(sw, start, max) && (p.state.HeaderValue? || p.state.HeaderValueDiscardWs?)
    requires p.nread + |end| + 1 <= max && !Blank(x)
    requires q == BehindLine(p, p.nread + |end|) && Reach(p, end, sw).out.Go? && Reach(p, end, sw).p == q
    ensures var r := Reach(p, end + [x], sw);
      if p.state.HeaderValueDiscardWs? && p.hstate.ContentLength? then r.out.Fail?
      else Continues(r, NextLine(p, p.nread + |end| + 1), x, start)
  {
    assert Tick(q).nread == q.nread + 1;
    assert NextLine(q, q.nread + 1) == NextLine(p, p.nread + |end| + 1);
    ReachSnoc(p, end, x, sw);
  }

  /** The end of a line, and the first byte of the next, unless that folds the line: the header takes effect, but a
      Content-Length without a value is an error. */
  lemma {:induction false} RunsLineEnd(p: Parser, end: string, x: char, sw: Switch, start: Switch, max: nat)
    requires EndLaw(sw, max) && NextLaw(sw, start, max)
    requires OnLine(p) && LineEnd(end) && p.nread + |end| + 1 <= max && !Blank(x)
    ensures var r := Reach(p, end + [x], sw);
      if p.state.HeaderValueDiscardWs? && p.hstate.ContentLength? then r.out.Fail?
      else Continues(r, NextLine(p, p.nread + |end| + 1), x, start)
  {
    RunsEnd(p, end, sw, max);
    RunsNext(p, end, x, sw, start, max, BehindLine(p, p.nread + |end|));
  }

  /** A further header, or the CR before the end of all headers, changes none of the parser's findings. */
  lemma {:induction false} LineGoesOn(q: Parser, x: char, cfg: Config)
    requires IsToken(x) || x == CR
    ensures var e := LineStart(cfg)(q, x);
      e.out.Go? && e.p.flags == q.flags && e.p.contentLength == q.contentLength
  {}

  // ---------- Transfer-Encoding ----------

  /** The value matcher has read `t` of a Transfer-Encoding header and is in parser `q`. */
  predicate ChunkedSoFar(e: Eff, p: Parser, t: string) {
    && e.out.Go? && e.p == p.(hstate := ChunkProgress(t), index := e.p.index)
    && (e.p.hstate.MatchChunked? ==> e.p.index == |t| - 1)
  }

  lemma {:induction false} ChunkedGoesOn(q: Eff, p: Parser, t: string, ch: char)
    requires t != "" && ChunkedSoFar(q, p, t) && ValueChar(ch) && (p.lenient || IsHeaderChar(ch))
    ensures ChunkedSoFar(ValueByte(q.p, ch), p, t + [ch])
  {
    ChunkStep(t, ch, q.p.index);
  }

  /** The value matcher over the text of a Transfer-Encoding header. */
  lemma {:induction false} ChunkedFolds(p: Parser, ch: char, rest: string)
    requires AllowedText(rest, p.lenient) && p.hstate == ChunkProgress([ch]) && p.index == 0
    ensures ChunkedSoFar(ScanFold(ValueByte, p, rest), p, [ch] + rest)
  {
    if rest == "" {
      assert [ch] + rest == [ch];
    } else {
      var n := |rest| - 1;
      ChunkedFolds(p, ch, rest[..n]);
      ChunkedGoesOn(ScanFold(ValueByte, p, rest[..n]), p, [ch] + rest[..n], rest[n]);
      Assoc([ch], rest[..n], [rest[n]]);
      assert rest[..n] + [rest[n]] == rest;
    }
  }

  lemma {:induction false} ChunkedStarts(p: Parser, ch: char)
    requires p.hstate.TransferEncoding?
    ensures StepHeaderValueStart(p, ch) ==
      Ask(p.(state := HeaderValue, index := 0, hstate := ChunkProgress([ch])), SetMark(FieldValue))
  {
    assert [ch][0] == ch && CHUNKED[0] == 'c';
  }

  lemma {:induction false} ChunkedMatched(p: Parser, t: string)
    requires p.hstate.TransferEncoding? && t != "" && AllowedText(t, p.lenient)
    ensures var e := Matched(p, t);
      e.out.Go? && e.p.hstate == ChunkProgress(t) && e.p.flags == p.flags && e.p.contentLength == p.contentLength
  {
    ChunkedStarts(p, t[0]);
    ChunkedFolds(StepHeaderValueStart(p, t[0]).p, t[0], t[1..]);
    assert [t[0]] + t[1..] == t;
  }

  lemma {:induction false} ChunkProgressMeans(t: string)
    ensures ChunkProgress(t).TransferEncodingChunked? <==> SaysChunked(t)
  {}

  /** What is left of a Transfer-Encoding value at its end. */
  predicate ChunkedRead(p: Parser, z: Parser, t: string, m: nat) {
    && z.flags == p.flags && z.contentLength == p.contentLength && z.nread == m && OnLine(z) && !z.hstate.ContentLength?
    && HeaderFlag(z.flags, z.hstate) == p.flags.(chunked := p.flags.chunked || SaysChunked(t))
  }

  lemma {:induction false} ChunkedReadText(p: Parser, z: Parser, t: string, m: nat)
    requires InValue(z) && z.hstate == ChunkProgress(t) && z.flags == p.flags && z.contentLength == p.contentLength &&
      z.nread == m
    ensures ChunkedRead(p, z, t, m)
  {
    ChunkProgressMeans(t);
  }

  lemma {:induction false} RunsChunkedValue(p: Parser, v: string, sw: Switch, max: nat)
    requires BlankLaw(sw, max) && FirstLaw(sw, max) && TextLaw(sw, max)
    requires AfterColon(p) && p.state.HeaderValueDiscardWs? && p.hstate.TransferEncoding?
    requires AllowedText(v, p.lenient) && p.nread + |v| <= max
    ensures var r := Reach(p, v, sw); r.out.Go? && ChunkedRead(p, r.p, TrimLeft(v), p.nread + |v|)
  {
    var t := TrimLeft(v);
    var q := RunsValue(p, v, sw, max);
    TrimKeeps(v, p.lenient);
    if t != "" {
      RunsText(q, t, sw, max);
      ChunkedMatched(Tick(q), t);
      ChunkedReadText(p, Reach(q, t, sw).p, t, p.nread + |v|);
    }
  }

  lemma {:induction false} RunsChunkedLine(p: Parser, v: string, end: string, x: char, sw: Switch, start: Switch,
                                           max: nat)
    returns (q: Parser)
    requires BlankLaw(sw, max) && FirstLaw(sw, max) && TextLaw(sw, max) && EndLaw(sw, max) && NextLaw(sw, start, max)
    requires AfterColon(p) && p.state.HeaderValueDiscardWs? && p.hstate.TransferEncoding?
    requires AllowedText(v, p.lenient) && LineEnd(end) && !Blank(x) && p.nread + |v| + |end| + 1 <= max
    ensures q.state.HeaderFieldStart? && q.contentLength == p.contentLength
    ensures q.flags == p.flags.(chunked := p.flags.chunked || SaysChunked(TrimLeft(v)))
    ensures Continues(Reach(p, v + (end + [x]), sw), q, x, start)
  {
    RunsChunkedValue(p, v, sw, max);
    var z := Reach(p, v, sw).p;
    q := NextLine(z, z.nread + |end| + 1);
    RunsLineEnd(z, end, x, sw, start, max);
    ReachSplit(p, v, end + [x], sw);
  }

  /** F_CHUNKED is added exactly when the Transfer-Encoding value is "chunked", ignoring case, after
      leading blanks and followed only by spaces: with this flag the parser goes on to the next line, whose first byte
      is `x`, unless that folds the line. */
  lemma {:induction false} RecognisesChunked(p: Parser, v: string, end: string, x: char, cfg: Config)
    returns (q: Parser)
    requires AfterColon(p) && p.state.HeaderValueDiscardWs? && p.hstate.TransferEncoding?
    requires AllowedText(v, p.lenient) && LineEnd(end) && !Blank(x) && p.nread + |v| + |end| + 1 <= cfg.maxHeader
    ensures q.state.HeaderFieldStart? && q.contentLength == p.contentLength
    ensures q.flags == p.flags.(chunked := p.flags.chunked || SaysChunked(TrimLeft(v)))
    ensures var r := Run(p, v + (end + [x]), ByteSwitch(cfg));
      Continues(Place(r.p, r.out), q, x, LineStart(cfg)) &&
        (IsToken(x) || x == CR ==> r.out.Go? && r.p.flags == q.flags)
  {
    LawsBefore(cfg);
    ValueScansHere(cfg);
    LawsBehind(cfg);
    LawsNext(cfg);
    q := RunsChunkedLine(p, v, end, x, ByteSwitch(cfg), LineStart(cfg), cfg.maxHeader);
    RunReaches(p, v + (end + [x]), ByteSwitch(cfg));
    if IsToken(x) || x == CR { LineGoesOn(q, x, cfg); }
  }
}
