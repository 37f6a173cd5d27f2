/** The header limit bounds header lines: whatever the parser accepts, its byte counter cannot wrap. */
module HttpLimit {
  import opened HttpChars
  import opened HttpParser
  import opened HttpInvariant
  import opened HttpRun
  import opened HttpScan
  import opened HttpExecute
  import opened HttpSegments
  import opened HttpHeaders
  import opened HttpValues

  /** Behind a line break of a header line. */
  predicate AfterBreak(s: State) {
    s.HeaderValueDiscardWsAlmostDone? || s.HeaderValueDiscardLws? || s.HeaderValueLws? || s.HeaderAlmostDone?
  }

  /** Within the name or value of a header, or behind a line break. */
  predicate OnHeader(s: State) { s.HeaderField? || s.HeaderValueDiscardWs? || s.HeaderValue? || AfterBreak(s) }

  /** A byte that is accepted is counted and stays on the header, and only a line break leads behind one. */
  predicate Stays(e: Eff, q: Parser, ch: char) {
    e.out.Go? || e.out.Exit? ==>
      e.out.Go? && OnHeader(e.p.state) && e.p.nread == q.nread + 1 && (AfterBreak(e.p.state) ==> !ValueChar(ch))
  }

  lemma {:induction false} NameStays(q: Parser, ch: char, cfg: Config)
    requires InName(q)
    ensures Stays(Step(q, ch, cfg), q, ch)
  {
    NameStep(q, ch, cfg);
    NameStepScans(q, ch);
  }

  lemma {:induction false} ValueStays(q: Parser, ch: char, cfg: Config)
    requires InValue(q)
    ensures Stays(Step(q, ch, cfg), q, ch)
  {
    ValueStep(q, ch, cfg);
    ValueStepScans(q, ch);
    MatchValueKept(q, ch);
  }

  lemma {:induction false} StartStays(q: Parser, ch: char)
    requires LengthKnown(q) && DigitsSeen(q)
    ensures var e := StepHeaderValueStart(q, ch);
      e.out.Go? || e.out.Exit? ==> e.out.Go? && e.p.state.HeaderValue? && e.p.nread == q.nread
  {
    ValueStartAsks(q, ch);
  }

  lemma {:induction false} DiscardStays(q: Parser, ch: char, cfg: Config)
    requires AfterColon(q) && q.state.HeaderValueDiscardWs? && q.nread + 1 <= cfg.maxHeader
    ensures Stays(Step(q, ch, cfg), q, ch)
  {
    DiscardStep(q, ch, cfg);
    StartStays(Tick(q), ch);
  }

  lemma {:induction false} FieldStartStays(q: Parser, ch: char, cfg: Config)
    requires ValueChar(ch)
    ensures var e := StepHeaderFieldStart(q, ch, cfg);
      e.out.Go? || e.out.Exit? ==> e.out.Go? && e.p.state.HeaderField? && e.p.nread == q.nread
  {}

  lemma {:induction false} LwsStays(q: Parser, ch: char, cfg: Config)
    requires AfterValue(q) && q.state.HeaderValueLws? && ValueChar(ch) && q.nread + 1 <= cfg.maxHeader
    ensures Stays(Step(q, ch, cfg), q, ch)
  {
    LwsStep(q, ch, cfg);
    var p := Tick(q);
    StartStays(if p.hstate.ContentLengthNum? then p.(hstate := ContentLengthWs) else p, ch);
    FieldStartStays(p.(flags := HeaderFlag(p.flags, p.hstate), state := HeaderFieldStart), ch, cfg);
  }

  lemma {:induction false} DiscardLwsStays(q: Parser, ch: char, cfg: Config)
    requires q.state.HeaderValueDiscardLws? && ValueChar(ch) && q.nread + 1 <= cfg.maxHeader
    ensures Stays(Step(q, ch, cfg), q, ch)
  {
    DiscardLwsStep(q, ch, cfg);
    var p := Tick(q);
    FieldStartStays(p.(flags := HeaderFlag(p.flags, p.hstate), state := HeaderFieldStart), ch, cfg);
  }

  /** Behind CR only LF is accepted. */
  lemma {:induction false} CrStays(q: Parser, ch: char, cfg: Config)
    requires (q.state.HeaderAlmostDone? || q.state.HeaderValueDiscardWsAlmostDone?) && ValueChar(ch)
    ensures Step(q, ch, cfg).out.Fail?
  {}

  lemma {:induction false} Overflows(q: Parser, ch: char, cfg: Config)
    requires OnHeader(q.state) && q.nread + 1 > cfg.maxHeader
    ensures Step(q, ch, cfg).out.Fail?
  {}

  lemma {:induction false} HeaderStays(q: Parser, ch: char, cfg: Config)
    requires Inv(q, cfg.maxHeader) && OnHeader(q.state) && (AfterBreak(q.state) ==> ValueChar(ch))
    ensures Stays(Step(q, ch, cfg), q, ch)
  {
    if q.nread + 1 > cfg.maxHeader {
      Overflows(q, ch, cfg);
    } else {
      match q.state
      case HeaderField => NameStays(q, ch, cfg);
      case HeaderValue => ValueStays(q, ch, cfg);
      case HeaderValueDiscardWs => DiscardStays(q, ch, cfg);
      case HeaderValueLws => LwsStays(q, ch, cfg);
      case HeaderValueDiscardLws => DiscardLwsStays(q, ch, cfg);
      case _ => CrStays(q, ch, cfg);
    }
  }

  ghost predicate StaysLaw(sw: Switch, max: nat) {
    forall q: Parser, ch: char {:trigger sw(q, ch), Tick(q)} ::
      Inv(q, max) && OnHeader(q.state) && (AfterBreak(q.state) ==> ValueChar(ch)) ==> Stays(sw(q, ch), q, ch)
  }

  lemma {:induction false} StaysHere(cfg: Config)
    ensures StaysLaw(ByteSwitch(cfg), cfg.maxHeader)
  {
    var sw, max := ByteSwitch(cfg), cfg.maxHeader;
    forall q: Parser, ch: char | Inv(q, max) && OnHeader(q.state) && (AfterBreak(q.state) ==> ValueChar(ch))
      ensures Stays(sw(q, ch), q, ch)
    {
      HeaderStays(q, ch, cfg);
    }
  }

  /** No prefix fails, and the parser keeps its invariant. */
  ghost predicate Accepted(p: Parser, data: string, sw: Switch, max: nat) {
    forall k :: 0 <= k <= |data| ==> Sound(Reach(p, data[..k], sw), max)
  }

  predicate Sound(r: Place, max: nat) { (r.out.Go? || r.out.Exit?) && Inv(r.p, max) }

  lemma {:induction false} AcceptedIsSound(p: Parser, data: string, sw: Switch, max: nat)
    requires Inv(p, max) && KeepsInv(sw, max) && !Run(p, data, sw).out.Fail?
    ensures Accepted(p, data, sw, max)
  {
    forall k | 0 <= k <= |data| ensures Sound(Reach(p, data[..k], sw), max) {
      RunReaches(p, data[..k], sw);
      RunKeepsInv(p, data[..k], sw, max);
      if Run(p, data[..k], sw).out.Fail? { RunStops(p, data, k, sw); }
    }
  }

  /** From a place on a header up to two line breaks in a row, every byte is counted. */
  lemma {:induction false} CountsOn(p: Parser, data: string, i: nat, k: nat, sw: Switch, max: nat, q: Parser)
    requires StaysLaw(sw, max) && Accepted(p, data, sw, max) && i <= k <= |data| && NoPair(data, i, k)
    requires Reach(p, data[..i], sw) == Place(q, Go) && (q.state.HeaderField? || q.state.HeaderValue?)
    ensures var r := Reach(p, data[..k], sw);
      && r.out.Go? && OnHeader(r.p.state) && r.p.nread == q.nread + (k - i)
      && (AfterBreak(r.p.state) ==> i < k && !ValueChar(data[k - 1]))
    decreases k
  {
    if i < k {
      var r, ch := Reach(p, data[..k - 1], sw), data[k - 1];
      CountsOn(p, data, i, k - 1, sw, max, q);
      assert data[..k] == data[..k - 1] + [ch];
      ReachSnoc(p, data[..k - 1], ch, sw);
      assert Sound(Reach(p, data[..k - 1], sw), max) && Sound(Reach(p, data[..k], sw), max);
      OneMore(r, Reach(p, data[..k], sw), ch, sw, max);
    }
  }

  lemma {:induction false} OneMore(r: Place, s: Place, ch: char, sw: Switch, max: nat)
    requires StaysLaw(sw, max) && Sound(r, max) && Sound(s, max) && s == Onward(r, ch, sw)
    requires r.out.Go? && OnHeader(r.p.state) && (AfterBreak(r.p.state) ==> ValueChar(ch))
    ensures s.out.Go? && OnHeader(s.p.state) && s.p.nread == r.p.nread + 1 && (AfterBreak(s.p.state) ==> !ValueChar(ch))
  {
    assert Tick(r.p).nread == r.p.nread + 1;
  }

  /** Whatever the parser accepts byte by byte, in a buffer of any size: the lines of its headers are short, because
      the header limit has been applied to them. */
  lemma {:induction false} AcceptedIsShort(p: Parser, data: string, cfg: Config)
    requires Inv(p, cfg.maxHeader) && 2 * cfg.maxHeader + 1 < 0x1_0000_0000
    requires !Run(p, data, ByteSwitch(cfg)).out.Fail?
    ensures ShortLines(p, data, ByteSwitch(cfg), cfg.maxHeader)
  {
    KeepsInvHere(cfg);
    StaysHere(cfg);
    AcceptedIsSound(p, data, ByteSwitch(cfg), cfg.maxHeader);
    SoundIsShort(p, data, ByteSwitch(cfg), cfg.maxHeader);
  }

  lemma {:induction false} SoundIsShort(p: Parser, data: string, sw: Switch, max: nat)
    requires StaysLaw(sw, max) && Accepted(p, data, sw, max) && 2 * max + 1 < 0x1_0000_0000
    ensures ShortLines(p, data, sw, max)
  {
    forall i | 0 <= i < |data| && InHeader(Reach(p, data[..i], sw)) ensures ShortFrom(data, i, max) {
      forall j | i <= j < |data| && NoPair(data, i, j) ensures j - i + 1 + max < 0x1_0000_0000 {
        CountsOn(p, data, i, j, sw, max, Reach(p, data[..i], sw).p);
        assert Sound(Reach(p, data[..j], sw), max);
      }
    }
  }

  /** Segmentation independence without a condition on lines: a stream that the parser accepts byte by byte is read
      alike in one buffer of any size and in any pieces. */
  method ParseAccepted(p: Parser, pieces: seq<string>, cfg: Config) returns (whole: Result, cut: Result)
    requires Inv(p, cfg.maxHeader) && 2 * cfg.maxHeader + 1 < 0x1_0000_0000 && pieces != [] && NoneEmpty(pieces)
    requires !Run(p, Concat(pieces), ByteSwitch(cfg)).out.Fail?
    ensures Refines(whole, Run(p, Concat(pieces), ByteSwitch(cfg)), cfg.maxHeader)
    ensures Refines(cut, Run(p, Concat(pieces), ByteSwitch(cfg)), cfg.maxHeader)
  {
    ConcatNotEmpty(pieces);
    AcceptedIsShort(p, Concat(pieces), cfg);
    whole := ParseBuffer(p, Concat(pieces), cfg);
    cut := FeedPieces(p, pieces, cfg);
  }

  // ---------- a line that is too long for the counter ----------

  /** The counter of s_header_field behind `n` bytes of a name that reach the end of the buffer. */
  function CountAtEnd(nread: nat, n: nat): nat
    requires n > 0
  {
    Add32(Add32(nread, 1), n - 1)
  }

  lemma {:induction false} NameFills(p: Parser, data: string, sw: Switch, max: nat, n: nat)
    requires Scans(sw, max, FieldName, InName, NameByte, IsToken) && InName(p) && AllTokens(data)
    requires p.nread <= max && n == max - p.nread < |data|
    ensures Reach(p, data, sw).out.Fail?
  {
    var a, ch := data[..n], data[n];
    ReachScan(p, a, sw, max, FieldName, InName, NameByte, IsToken, max);
    NamesGo(p, a);
    var q := Reach(p, a, sw).p;
    ReachSnoc(p, a, ch, sw);
    assert NameByte(q, ch).out.Go? && sw(q, ch).out.Fail?;
    assert data == (a + [ch]) + data[n + 1..];
    ReachSplit(p, a + [ch], data[n + 1..], sw);
  }

  lemma {:induction false} NamesGo(p: Parser, a: string)
    ensures ScanFold(NameByte, p, a).out.Go?
  {
    if a != "" { NamesGo(p, a[..|a| - 1]); }
  }

  /** Read byte by byte, 2^32 bytes of a header name are over the limit; the fast scan over them counts none. */
  lemma {:induction false} LongNameWraps(p: Parser, data: string, cfg: Config)
    requires InName(p) && AllTokens(data) && |data| == 0x1_0000_0000 && p.nread <= cfg.maxHeader < 0x1_0000_0000
    ensures Run(p, data, ByteSwitch(cfg)).out.Fail? && CountAtEnd(p.nread, |data|) == p.nread
  {
    NameScansHere(cfg);
    RunReaches(p, data, ByteSwitch(cfg));
    NameFills(p, data, ByteSwitch(cfg), cfg.maxHeader, cfg.maxHeader - p.nread);
  }
}
