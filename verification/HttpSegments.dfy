/** The parser's own switch obeys the laws of the loop, so cutting the input into pieces does not
    change what the parser does. */
module HttpSegments {
  import opened Sequences
  import opened HttpChars
  import opened HttpParser
  import opened HttpInvariant
  import opened HttpTrace
  import opened HttpRun
  import opened HttpScan
  import opened HttpExecute

  function NameByte(p: Parser, ch: char): Eff { Next(MatchField(p, ch)) }

  function ValueByte(p: Parser, ch: char): Eff {
    if !p.lenient && !IsHeaderChar(ch) then Error(p, InvalidHeaderToken) else MatchValue(p, ch)
  }

  function ByteSwitch(cfg: Config): Switch { (p, ch) => Step(p, ch, cfg) }

  function CodeOf(cfg: Config): Code { Code(ByteSwitch(cfg), NameByte, ValueByte) }

  lemma {:induction false} NameLaws()
    ensures Matches(InName, NameByte, IsToken) && NameMatches(NameByte)
  {
    forall p: Parser, ch: char | InName(p)
      ensures InName(NameByte(p, ch).p)
    {
      NameMatchKept(Matcher(p.hstate, p.index), ch);
    }
    assert NameMatches(NameByte);
    forall p: Parser, ch: char, n: nat | InName(p)
      ensures SameMatch(NameByte(p, ch), NameByte(Count(p, n), ch), n)
    {}
  }

  lemma {:induction false} AddDigitUncounted(p: Parser, ch: char, n: nat)
    ensures SameMatch(AddDigit(p, ch), AddDigit(p.(nread := n), ch), n)
  {}

  lemma {:induction false} MatchValueUncounted(p: Parser, ch: char, n: nat)
    requires ValueMatcher(p.hstate)
    ensures SameMatch(MatchValue(p, ch), MatchValue(p.(nread := n), ch), n)
  {
    AddDigitUncounted(p, ch, n);
  }

  lemma {:induction false} ValueLaws()
    ensures Matches(InValue, ValueByte, ValueChar) && ValueMatches(ValueByte)
  {
    forall p: Parser, ch: char | InValue(p)
      ensures ValueByte(p, ch).out.Go? ==> InValue(ValueByte(p, ch).p) && ValueByte(p, ch).p.nread == p.nread
    {
      MatchValueKept(p, ch);
    }
    assert ValueMatches(ValueByte);
    forall p: Parser, ch: char, n: nat | InValue(p)
      ensures SameMatch(ValueByte(p, ch), ValueByte(Count(p, n), ch), n)
    {
      MatchValueUncounted(p, ch, n);
    }
  }

  // ---------- the switch in the states that scan ----------

  lemma {:induction false} NameStep(p: Parser, ch: char, cfg: Config)
    requires p.state.HeaderField?
    ensures Step(p, ch, cfg) == if p.nread + 1 > cfg.maxHeader then Error(Count(p, p.nread + 1), HeaderOverflow)
                                else StepHeaderField(Count(p, p.nread + 1), ch)
  {}

  lemma {:induction false} ValueStep(p: Parser, ch: char, cfg: Config)
    requires p.state.HeaderValue?
    ensures Step(p, ch, cfg) == if p.nread + 1 > cfg.maxHeader then Error(Count(p, p.nread + 1), HeaderOverflow)
                                else StepHeaderValue(Count(p, p.nread + 1), ch)
  {}

  lemma {:induction false} BodyStep(p: Parser, ch: char, cfg: Config)
    ensures p.state.BodyIdentity? ==> Step(p, ch, cfg) == StepBodyIdentity(p)
    ensures p.state.ChunkData? ==> Step(p, ch, cfg) == StepChunkData(p)
    ensures p.state.ChunkDataAlmostDone? ==> Step(p, ch, cfg) == StepChunkDataAlmostDone(p, ch)
    ensures p.state.BodyIdentityEof? ==> Step(p, ch, cfg) == Ask(p, SetMark(Body))
  {}

  lemma {:induction false} NameStepScans(p: Parser, ch: char)
    requires InName(p)
    ensures var e := StepHeaderField(Count(p, p.nread + 1), ch);
      if IsToken(ch) then e == Next(Count(NameByte(p, ch).p, p.nread + 1))
      else if ch != ':' then e.out.Fail?
      else e == Ask(Count(p, p.nread + 1).(state := HeaderValueDiscardWs), Flush(FieldName))
  {}

  lemma {:induction false} ValueStepScans(p: Parser, ch: char)
    requires InValue(p)
    ensures var e := StepHeaderValue(Count(p, p.nread + 1), ch);
      if ValueChar(ch) then
        (if ValueByte(p, ch).out.Go? then e == Next(Count(ValueByte(p, ch).p, p.nread + 1)) else e.out.Fail?)
      else e == Ask(Count(p, p.nread + 1).(state := if ch == CR then HeaderAlmostDone else HeaderValueLws),
        Flush(FieldValue))
  {
    MatchValueKept(p, ch);
    MatchValueKept(Count(p, p.nread + 1), ch);
    MatchValueUncounted(p, ch, p.nread + 1);
  }

  lemma {:induction false} TokenScans(p: Parser, ch: char, cfg: Config)
    requires InName(p) && IsToken(ch)
    ensures if p.nread + 1 > cfg.maxHeader then Step(p, ch, cfg).out.Fail?
            else Step(p, ch, cfg) == Next(Count(NameByte(p, ch).p, p.nread + 1))
  {
    NameStep(p, ch, cfg);
    NameStepScans(p, ch);
  }

  lemma {:induction false} ColonScans(p: Parser, ch: char, cfg: Config)
    requires InName(p) && !IsToken(ch)
    ensures if p.nread + 1 > cfg.maxHeader || ch != ':' then Step(p, ch, cfg).out.Fail?
            else Step(p, ch, cfg) == Ask(Count(p, p.nread + 1).(state := HeaderValueDiscardWs), Flush(FieldName))
  {
    NameStep(p, ch, cfg);
    NameStepScans(p, ch);
  }

  lemma {:induction false} NameEndsHere(cfg: Config)
    ensures NameEnds(ByteSwitch(cfg), cfg.maxHeader)
  {
    var sw, max := ByteSwitch(cfg), cfg.maxHeader;
    forall p: Parser, ch: char | InName(p) && !IsToken(ch)
      ensures if p.nread + 1 > max || ch != ':' then sw(p, ch).out.Fail?
              else sw(p, ch) == Ask(Count(p, p.nread + 1).(state := HeaderValueDiscardWs), Flush(FieldName))
    {
      ColonScans(p, ch, cfg);
    }
  }

  lemma {:induction false} NameScansHere(cfg: Config)
    ensures NameScans(CodeOf(cfg), cfg.maxHeader)
  {
    var sw, max := ByteSwitch(cfg), cfg.maxHeader;
    NameLaws();
    forall p: Parser, ch: char | InName(p) && IsToken(ch)
      ensures if p.nread + 1 > max then sw(p, ch).out.Fail?
        else sw(p, ch) == Next(Count(NameByte(p, ch).p, p.nread + 1))
    {
      TokenScans(p, ch, cfg);
    }
  }

  lemma {:induction false} ValueScansHere(cfg: Config)
    ensures ValueScans(CodeOf(cfg), cfg.maxHeader) && ValueEnds(ByteSwitch(cfg), cfg.maxHeader)
  {
    var sw, max := ByteSwitch(cfg), cfg.maxHeader;
    ValueLaws();
    forall p: Parser, ch: char | InValue(p)
      ensures ValueChar(ch) ==>
        if p.nread + 1 > max || !ValueByte(p, ch).out.Go? then sw(p, ch).out.Fail?
        else sw(p, ch) == Next(Count(ValueByte(p, ch).p, p.nread + 1))
      ensures !ValueChar(ch) ==>
        if p.nread + 1 > max then sw(p, ch).out.Fail?
        else sw(p, ch) == Ask(Count(p, p.nread + 1).(state := if ch == CR then HeaderAlmostDone else HeaderValueLws),
                              Flush(FieldValue))
    {
      ValueStep(p, ch, cfg);
      ValueStepScans(p, ch);
    }
  }

  lemma {:induction false} BodyLawsHere(cfg: Config)
    ensures BodyLaw(ByteSwitch(cfg)) && BodyEnds(ByteSwitch(cfg)) && TouchesBodyMark(ByteSwitch(cfg))
  {
    var sw := ByteSwitch(cfg);
    forall p: Parser, ch: char
      ensures Remains(p, 1) ==> sw(p, ch) == Ask(BodyAfter(p, 1), SetMark(Body))
    {
      BodyStep(p, ch, cfg);
    }
    forall p: Parser, ch: char | LastByte(p)
      ensures var q := p.(contentLength := 0);
        if p.state.ChunkData? then sw(p, ch) == Ask(q.(state := ChunkDataAlmostDone), SetMark(Body))
        else sw(p, ch) == StepMessageDone(q.(state := MessageDone)).After(FlushInclusive(Body)).After(SetMark(Body))
    {
      BodyStep(p, ch, cfg);
    }
    forall p: Parser, ch: char | MayHoldBody(p.state) && (sw(p, ch).out.Go? || sw(p, ch).out.Exit?)
      ensures sw(p, ch).ops.Then? && (sw(p, ch).ops.op == SetMark(Body) || sw(p, ch).ops.op == Flush(Body))
    {
      BodyStep(p, ch, cfg);
    }
  }

  lemma {:induction false} KeepsInvHere(cfg: Config)
    ensures KeepsInv(ByteSwitch(cfg), cfg.maxHeader)
  {
    var sw := ByteSwitch(cfg);
    forall p: Parser, ch: char, h: Held | Inv(p, cfg.maxHeader) && MayHold(p.state, h)
      ensures Legal(sw(p, ch), h) && (sw(p, ch).out.Go? || sw(p, ch).out.Exit? ==> Inv(sw(p, ch).p, cfg.maxHeader))
    {
      StepLegal(p, ch, cfg, h);
    }
  }

  lemma {:induction false} CodeIsLawful(cfg: Config)
    ensures Lawful(CodeOf(cfg), cfg.maxHeader)
  {
    NameLaws();
    ValueLaws();
    NameScansHere(cfg);
    NameEndsHere(cfg);
    ValueScansHere(cfg);
    BodyLawsHere(cfg);
    KeepsInvHere(cfg);
  }

  // ---------- calls ----------

  /** http_parser_execute on a non-empty buffer. */
  method ParseBuffer(p: Parser, data: string, cfg: Config) returns (r: Result)
    requires Inv(p, cfg.maxHeader) && data != "" && ShortLines(p, data, ByteSwitch(cfg), cfg.maxHeader)
    ensures Refines(r, Run(p, data, ByteSwitch(cfg)), cfg.maxHeader)
  {
    CodeIsLawful(cfg);
    r := Execute(CodeOf(cfg), cfg.maxHeader, p, data);
  }

  function Concat(pieces: seq<string>): string {
    if pieces == [] then "" else Concat(pieces[..|pieces| - 1]) + pieces[|pieces| - 1]
  }

  predicate NoneEmpty(pieces: seq<string>) { forall k :: 0 <= k < |pieces| ==> pieces[k] != "" }

  /** In a buffer below 2^32 bytes, the header limit included, all lines are short. */
  lemma {:induction false} SmallBuffer(p: Parser, data: string, sw: Switch, max: nat)
    requires |data| + max < 0x1_0000_0000
    ensures ShortLines(p, data, sw, max)
  {}

  lemma {:induction false} ShortPrefix(p: Parser, a: string, b: string, sw: Switch, max: nat)
    requires ShortLines(p, a + b, sw, max)
    ensures ShortLines(p, a, sw, max)
  {
    var c := a + b;
    forall i | 0 <= i < |a| && InHeader(Reach(p, a[..i], sw)) ensures ShortFrom(a, i, max) {
      assert c[..i] == a[..i];
      forall j | i <= j < |a| && NoPair(a, i, j) ensures j - i + 1 + max < 0x1_0000_0000 {
        assert NoPair(c, i, j);
      }
    }
  }

  lemma {:induction false} ShortSuffix(p: Parser, a: string, b: string, sw: Switch, max: nat, q: Parser)
    requires ShortLines(p, a + b, sw, max) && Reach(p, a, sw) == Place(q, Go)
    ensures ShortLines(q, b, sw, max)
  {
    var c, n := a + b, |a|;
    forall i | 0 <= i < |b| && InHeader(Reach(q, b[..i], sw)) ensures ShortFrom(b, i, max) {
      assert c[..n + i] == a + b[..i];
      ReachSplit(p, a, b[..i], sw);
      forall j | i <= j < |b| && NoPair(b, i, j) ensures j - i + 1 + max < 0x1_0000_0000 {
        ShiftedPair(a, b, i, j);
        assert ShortFrom(c, n + i, max) && (n + j) - (n + i) + 1 + max < 0x1_0000_0000;
      }
    }
  }

  lemma {:induction false} ShiftedPair(a: string, b: string, i: nat, j: nat)
    requires i <= j <= |b| && NoPair(b, i, j)
    ensures NoPair(a + b, |a| + i, |a| + j)
  {
    var c := a + b;
    forall k | |a| + i < k < |a| + j ensures ValueChar(c[k - 1]) || ValueChar(c[k]) {
      assert c[k - 1] == b[k - 1 - |a|] && c[k] == b[k - |a|];
    }
  }

  lemma {:induction false} ConcatBegins(pieces: seq<string>, k: nat) returns (rest: string)
    requires k <= |pieces|
    ensures Concat(pieces) == Concat(pieces[..k]) + rest
    decreases |pieces|
  {
    if k == |pieces| {
      rest := "";
      assert pieces[..k] == pieces;
    } else {
      var n := |pieces| - 1;
      var r := ConcatBegins(pieces[..n], k);
      assert pieces[..n][..k] == pieces[..k];
      rest := r + pieces[n];
      Assoc(Concat(pieces[..k]), r, pieces[n]);
    }
  }

  lemma {:induction false} ShortPiece(p: Parser, pieces: seq<string>, k: nat, sw: Switch, max: nat, q: Parser)
    requires k < |pieces| && ShortLines(p, Concat(pieces), sw, max) && Reach(p, Concat(pieces[..k]), sw) == Place(q, Go)
    ensures ShortLines(q, pieces[k], sw, max)
  {
    var rest := ConcatBegins(pieces, k + 1);
    var a := Concat(pieces[..k]);
    assert pieces[..k + 1][..k] == pieces[..k];
    ShortPrefix(p, a + pieces[k], rest, sw, max);
    ShortSuffix(p, a, pieces[k], sw, max, q);
  }

  lemma {:induction false} ChainRefines(r: Result, s: Result, p: Parser, a: string, b: string, sw: Switch, max: nat)
    requires Refines(r, Run(p, a, sw), max) && (r.out.Go? ==> Refines(s, Run(r.p, b, sw), max))
    ensures Refines(Chain(r, s), Run(p, a + b, sw), max)
  {
    RunSplit(p, a, b, sw);
    var ra := Run(p, a, sw);
    if r.out.Go? && !s.out.Fail? { CanonCongruence(r.events, ra.events, s.events, Run(ra.p, b, sw).events); }
  }

  /** Feeding the pieces one call after the other, until one does not go on, is the one-byte run
      over their concatenation. */
  method FeedPieces(p: Parser, pieces: seq<string>, cfg: Config) returns (r: Result)
    requires Inv(p, cfg.maxHeader) && NoneEmpty(pieces)
    requires ShortLines(p, Concat(pieces), ByteSwitch(cfg), cfg.maxHeader)
    ensures Refines(r, Run(p, Concat(pieces), ByteSwitch(cfg)), cfg.maxHeader)
  {
    var sw := ByteSwitch(cfg);
    r := Result(p, [], 0, Go);
    assert pieces[..0] == [];
    for k := 0 to |pieces|
      invariant Refines(r, Run(p, Concat(pieces[..k]), sw), cfg.maxHeader)
    {
      var s := r;
      if r.out.Go? {
        RunReaches(p, Concat(pieces[..k]), sw);
        ShortPiece(p, pieces, k, sw, cfg.maxHeader, r.p);
        s := ParseBuffer(r.p, pieces[k], cfg);
      }
      ChainRefines(r, s, p, Concat(pieces[..k]), pieces[k], sw, cfg.maxHeader);
      assert pieces[..k + 1][..k] == pieces[..k];
      r := Chain(r, s);
    }
    assert pieces[..|pieces|] == pieces;
  }

  lemma {:induction false} ConcatNotEmpty(pieces: seq<string>)
    requires pieces != [] && NoneEmpty(pieces)
    ensures Concat(pieces) != ""
  {
    assert pieces[|pieces| - 1] != "";
  }

  /** Segmentation independence: one call on a buffer, and any cut of it into non-empty pieces, are
      accepted alike; when accepted they end with the same parser fields after the same number of
      bytes, having made the same callbacks in the same order up to the cutting of text. */
  method Segmentation(p: Parser, pieces: seq<string>, cfg: Config) returns (whole: Result, cut: Result)
    requires Inv(p, cfg.maxHeader) && pieces != [] && NoneEmpty(pieces)
    requires ShortLines(p, Concat(pieces), ByteSwitch(cfg), cfg.maxHeader)
    ensures (whole.out.Go? <==> cut.out.Go?) && (whole.out.Exit? <==> cut.out.Exit?)
    ensures !whole.out.AssertFails? && !cut.out.AssertFails?
    ensures whole.out.Go? || whole.out.Exit? ==>
      whole.p == cut.p && whole.used == cut.used && Canon(whole.events) == Canon(cut.events)
  {
    ConcatNotEmpty(pieces);
    whole := ParseBuffer(p, Concat(pieces), cfg);
    cut := FeedPieces(p, pieces, cfg);
  }

  /** Whatever is fed to a parser just initialised, no C assertion fails. */
  lemma {:induction false} NoAssertionFails(kind: Kind, data: string, cfg: Config)
    ensures !Run(Init(kind), data, ByteSwitch(cfg)).out.AssertFails?
  {
    KeepsInvHere(cfg);
    RunKeepsInv(Init(kind), data, ByteSwitch(cfg), cfg.maxHeader);
  }
}
