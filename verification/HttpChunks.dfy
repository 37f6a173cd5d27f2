/** Chunked bodies: which size lines are accepted and as what, when that is the hexadecimal number they say,
    and how an encoded body is reported. */
module HttpChunks {
  import opened HttpChars
  import opened Numerals
  import opened HttpParser
  import opened HttpInvariant
  import opened HttpTrace
  import opened HttpRun
  import opened HttpScan
  import opened HttpExecute
  import opened HttpSegments
  import opened HttpBody

  // ---------- the size line ----------

  /** A digit of the parser's own table, which is not quite a hexadecimal digit. */
  predicate IsSizeDigit(ch: char) { Unhex(ch) != -1 }

  function LeadingHex(s: string): (n: nat)
    ensures n <= |s| && (forall k :: 0 <= k < n ==> IsSizeDigit(s[k])) && (n < |s| ==> !IsSizeDigit(s[n]))
  {
    if s != "" && IsSizeDigit(s[0]) then 1 + LeadingHex(s[1..]) else 0
  }

  predicate AllSizeDigits(d: string) { forall k :: 0 <= k < |d| ==> IsSizeDigit(d[k]) }

  function Hex(d: string): nat
    requires AllSizeDigits(d)
  {
    if d == "" then 0 else Hex(d[..|d| - 1]) * 16 + Unhex(d[|d| - 1])
  }

  function SizeOf(s: string): nat { Hex(s[..LeadingHex(s)]) }

  /** The largest chunk size that is accepted. */
  const MAX_CHUNK: nat := ULLONG_MAX - 16

  /** Digits of the table whose value is not too large, and perhaps parameters after them. */
  predicate SaysSize(s: string) { LeadingHex(s) > 0 && ParametersFrom(s, LeadingHex(s)) && SizeOf(s) <= MAX_CHUNK }

  predicate ParametersFrom(s: string, n: nat) { n < |s| ==> s[n] == ';' || s[n] == SP }

  lemma {:induction false} LeadingHexSnoc(s: string, c: char)
    ensures LeadingHex(s + [c]) == if LeadingHex(s) == |s| && IsSizeDigit(c) then |s| + 1 else LeadingHex(s)
  {
    if s != "" {
      assert (s + [c])[1..] == s[1..] + [c];
      LeadingHexSnoc(s[1..], c);
    } else {
      assert (s + [c])[1..] == "";
    }
  }

  lemma {:induction false} SizeOfSnoc(s: string, c: char)
    ensures SizeOf(s + [c]) == if LeadingHex(s) == |s| && IsSizeDigit(c) then SizeOf(s) * 16 + Unhex(c) else SizeOf(s)
  {
    var u, n := s + [c], LeadingHex(s);
    LeadingHexSnoc(s, c);
    if n == |s| && IsSizeDigit(c) {
      assert u[..|s|] == s == s[..n] && u[..|u|] == u;
    } else {
      assert u[..n] == s[..n];
    }
  }

  lemma {:induction false} FitsSnoc(x: nat, d: nat)
    requires d <= 15
    ensures x * 16 + d <= MAX_CHUNK <==> x <= (ULLONG_MAX - 16) / 16
  {}

  lemma {:induction false} ParametersSnoc(s: string, n: nat, c: char)
    ensures ParametersFrom(s + [c], n) <==> if n == |s| then c == ';' || c == SP else ParametersFrom(s, n)
  {
    assert n < |s| ==> (s + [c])[n] == s[n];
    assert (s + [c])[|s|] == c;
  }

  /** Whether one character more may follow. */
  predicate SizeGoesOn(s: string, c: char) {
    LeadingHex(s) < |s| || (if IsSizeDigit(c) then SizeOf(s) <= (ULLONG_MAX - 16) / 16 else c == ';' || c == SP)
  }

  lemma {:induction false} SaysSizeSnoc(s: string, c: char)
    requires LeadingHex(s) > 0
    ensures SaysSize(s + [c]) <==> SaysSize(s) && SizeGoesOn(s, c)
    ensures LeadingHex(s + [c]) > 0
  {
    var n, u := LeadingHex(s), s + [c];
    LeadingHexSnoc(s, c);
    SizeOfSnoc(s, c);
    if n < |s| {
      ParametersSnoc(s, n, c);
    } else if IsSizeDigit(c) {
      assert ParametersFrom(s, n) && ParametersFrom(u, |u|);
      FitsSnoc(SizeOf(s), Unhex(c));
    } else {
      ParametersSnoc(s, n, c);
      assert ParametersFrom(s, n);
    }
  }

  // ---------- the switch on a size line ----------

  function SizeStep(p: Parser, ch: char): Eff {
    match p.state
    case ChunkSizeStart => StepChunkSizeStart(p, ch)
    case ChunkSize => StepChunkSize(p, ch)
    case ChunkParameters => StepChunkParameters(p, ch)
    case _ => StepChunkSizeAlmostDone(p, ch)
  }
  ghost predicate SizeLaw(sw: Switch, max: nat) {
    forall p: Parser, ch: char {:trigger sw(p, ch), Tick(p)} :: InChunkSize(p) && p.nread + 1 <= max ==>
      sw(p, ch) == SizeStep(Tick(p), ch)
  }

  lemma {:induction false} SizeLawHere(cfg: Config)
    ensures SizeLaw(ByteSwitch(cfg), cfg.maxHeader)
  {
    var sw := ByteSwitch(cfg);
    forall p: Parser, ch: char | InChunkSize(p) && p.nread + 1 <= cfg.maxHeader
      ensures sw(p, ch) == SizeStep(Tick(p), ch)
    {
      SizeDispatch(Tick(p), ch, cfg);
      StepDispatches(p, ch, cfg, Counted(p));
    }
  }

  /** The parser after the text `s` of a size line. */
  function SizeRead(p: Parser, s: string, m: nat): Parser {
    p.(state := if LeadingHex(s) == |s| then ChunkSize else ChunkParameters, contentLength := SizeOf(s), nread := m)
  }

  lemma {:induction false} SizeByte(p: Parser, s: string, c: char, m: nat)
    requires Chunking(p) && SaysSize(s) && c != CR && p.state.ChunkSizeStart?
    ensures var e := SizeStep(SizeRead(p, s, m), c);
      if SaysSize(s + [c]) then e == Next(SizeRead(p, s + [c], m)) else e.out.Fail?
  {
    SaysSizeSnoc(s, c);
    SizeOfSnoc(s, c);
    LeadingHexSnoc(s, c);
  }

  lemma {:induction false} OneHexDigit(c: char)
    ensures SaysSize([c]) <==> IsSizeDigit(c)
    ensures IsSizeDigit(c) ==> SizeOf([c]) == Unhex(c) && LeadingHex([c]) == 1
  {
    LeadingHexSnoc("", c);
    SizeOfSnoc("", c);
    assert "" + [c] == [c];
  }

  lemma {:induction false} FirstSizeByte(p: Parser, c: char)
    requires Chunking(p) && p.state.ChunkSizeStart? && p.nread == 1
    ensures var e := SizeStep(p, c); if SaysSize([c]) then e == Next(SizeRead(p, [c], 1)) else e.out.Fail?
  {
    OneHexDigit(c);
  }

  lemma {:induction false} NoEvents(s: State, e: Eff, ch: char)
    requires EntryMark(s).Nothing? && e.ops == Done
    ensures ByteEvents(s, e, ch) == []
  {}

  lemma {:induction false} SizeReadInside(p: Parser, s: string, m: nat)
    requires Chunking(p) && SaysSize(s)
    ensures InChunkSize(SizeRead(p, s, m))
  {}

  /** What a size line up to its end does. */
  ghost predicate SizeRun(p: Parser, s: string, r: Result) {
    if SaysSize(s) then r.out.Go? && r.p == SizeRead(p, s, |s|) && r.events == [] else r.out.Fail?
  }

  lemma {:induction false} FirstSizeRun(p: Parser, c: char, sw: Switch, max: nat)
    requires SizeLaw(sw, max) && InChunkSize(p) && p.state.ChunkSizeStart? && 1 <= max
    ensures SizeRun(p, [c], Run(p, [c], sw))
  {
    RunOne(p, c, sw);
    FirstSizeByte(Tick(p), c);
    if SaysSize([c]) { NoEvents(p.state, sw(p, c), c); }
  }

  lemma {:induction false} NextSizeRun(p: Parser, t: string, c: char, sw: Switch, max: nat, n: nat, m: nat)
    requires SizeLaw(sw, max) && InChunkSize(p) && p.state.ChunkSizeStart? && n == |t| && m == n + 1 <= max && c != CR
    requires t != "" && SizeRun(p, t, Run(p, t, sw)) && SaysSize(t)
    ensures SizeRun(p, t + [c], Run(p, t + [c], sw))
  {
    var q := SizeRead(p, t, n);
    SizeReadInside(p, t, n);
    SizeByte(p, t, c, m);
    assert Tick(q) == SizeRead(p, t, m);
    RunOn(p, t, [c], sw, q);
    RunOne(q, c, sw);
    if SaysSize(t + [c]) { NoEvents(q.state, sw(q, c), c); }
  }

  /** A size line up to its end is accepted exactly when it says a size, which is then held. */
  lemma {:induction false} RunsSize(p: Parser, s: string, sw: Switch, max: nat)
    requires SizeLaw(sw, max) && InChunkSize(p) && p.state.ChunkSizeStart? && 0 < |s| <= max && CR !in s
    ensures SizeRun(p, s, Run(p, s, sw))
  {
    var n := |s| - 1;
    var t, c := s[..n], s[n];
    assert s == t + [c];
    if n == 0 {
      assert s == [c];
      FirstSizeRun(p, c, sw, max);
    } else {
      RunsSize(p, t, sw, max);
      if SaysSize(t) {
        NextSizeRun(p, t, c, sw, max, n, n + 1);
      } else {
        SaysSizePrefix(t, c);
        RunStops(p, s, n, sw);
      }
    }
  }

  lemma {:induction false} SaysSizePrefix(s: string, c: char)
    requires s != "" && !SaysSize(s)
    ensures !SaysSize(s + [c])
  {
    if LeadingHex(s) > 0 { SaysSizeSnoc(s, c); } else { LeadingHexSnoc(s, c); }
  }

  /** For the parser: a size line is refused exactly when it has no digit of the table, something else than
      parameters follows, or the value is too large; otherwise that value is kept. */
  lemma {:induction false} RecognisesSize(p: Parser, s: string, cfg: Config)
    requires InChunkSize(p) && p.state.ChunkSizeStart? && 0 < |s| <= cfg.maxHeader && CR !in s
    ensures var r := Run(p, s, ByteSwitch(cfg));
      && (r.out.Go? <==> SaysSize(s))
      && (if r.out.Go? then r.p.contentLength == SizeOf(s) < ULLONG_MAX && r.events == [] else r.out.Fail?)
  {
    SizeLawHere(cfg);
    RunsSize(p, s, ByteSwitch(cfg), cfg.maxHeader);
  }

  // ---------- hexadecimal numbers ----------

  /** How many hexadecimal digits `s` starts with. */
  function LeadingHexDigits(s: string): (n: nat)
    ensures n <= |s| && AllHex(s[..n]) && (n < |s| ==> !IsHexDigit(s[n]))
  {
    if s != "" && IsHexDigit(s[0]) then
      var n := LeadingHexDigits(s[1..]);
      assert s[..n + 1] == [s[0]] + s[1..][..n];
      n + 1
    else 0
  }

  /** The number that a size line says, by the chunked coding (section 4.1 of RFC 7230). */
  function HexNumber(s: string): nat { HexValue(s[..LeadingHexDigits(s)]) }

  /** The line is a hexadecimal number that the parser has room for, perhaps with parameters after it. */
  predicate IsHexLine(s: string) {
    LeadingHexDigits(s) > 0 && ParametersFrom(s, LeadingHexDigits(s)) && HexNumber(s) <= MAX_CHUNK
  }

  /** No byte from 0x80 on among the digits that the parser reads. */
  predicate PlainDigits(s: string) { forall k :: 0 <= k < LeadingHex(s) ==> s[k] < '\U{80}' }

  lemma {:induction false} TableAgrees(c: char)
    ensures Unhex(c) == if c < '\U{80}' then HexDigit(c) else 0
    ensures IsHexDigit(c) <==> IsSizeDigit(c) && c < '\U{80}'
  {}

  lemma {:induction false} HexAgrees(d: string)
    requires AllHex(d)
    ensures AllSizeDigits(d) && Hex(d) == HexValue(d)
  {
    forall k | 0 <= k < |d| ensures IsSizeDigit(d[k]) { TableAgrees(d[k]); }
    if d != "" {
      HexAgrees(d[..|d| - 1]);
      TableAgrees(d[|d| - 1]);
    }
  }

  /** The two readings of the digits end at the same place exactly when the digits are plain. */
  lemma {:induction false} LeadingAgrees(s: string)
    ensures LeadingHexDigits(s) <= LeadingHex(s)
    ensures LeadingHexDigits(s) == LeadingHex(s) <==> PlainDigits(s)
    ensures LeadingHexDigits(s) < LeadingHex(s) ==> s[LeadingHexDigits(s)] >= '\U{80}'
  {
    var m, n := LeadingHexDigits(s), LeadingHex(s);
    forall k | 0 <= k < m ensures IsSizeDigit(s[k]) && s[k] < '\U{80}' {
      assert s[..m][k] == s[k];
      TableAgrees(s[k]);
    }
    if m < |s| { TableAgrees(s[m]); }
  }

  /** A plain line that is accepted says its hexadecimal number. */
  lemma {:induction false} PlainLine(s: string)
    requires PlainDigits(s)
    ensures (IsHexLine(s) <==> SaysSize(s)) && HexNumber(s) == SizeOf(s)
  {
    LeadingAgrees(s);
    HexAgrees(s[..LeadingHexDigits(s)]);
  }

  lemma {:induction false} NotPlainLine(s: string)
    requires !PlainDigits(s)
    ensures !IsHexLine(s)
  {
    LeadingAgrees(s);
  }

  /** Every hexadecimal size line that fits is accepted, with its number; and a line that is accepted is such a
      line, with its number, exactly when no byte from 0x80 on stands among its digits. */
  lemma {:induction false} ReadsHexNumber(p: Parser, s: string, cfg: Config)
    requires InChunkSize(p) && p.state.ChunkSizeStart? && 0 < |s| <= cfg.maxHeader && CR !in s
    ensures var r := Run(p, s, ByteSwitch(cfg));
      && (IsHexLine(s) ==> r.out.Go? && r.p.contentLength == HexNumber(s))
      && (r.out.Go? ==> (IsHexLine(s) && r.p.contentLength == HexNumber(s) <==> PlainDigits(s)))
  {
    RecognisesSize(p, s, cfg);
    if PlainDigits(s) { PlainLine(s); } else { NotPlainLine(s); }
  }

  /** The line "1" followed by the byte 0x80 is no number, and is accepted as sixteen. */
  lemma {:induction false} HighByteAccepted(p: Parser, cfg: Config)
    requires InChunkSize(p) && p.state.ChunkSizeStart? && cfg.maxHeader >= 2
    ensures var s := ['1', '\U{80}'];
      !IsHexLine(s) && Run(p, s, ByteSwitch(cfg)).out.Go? && Run(p, s, ByteSwitch(cfg)).p.contentLength == 16
  {
    var s := ['1', '\U{80}'];
    HighByteSize(s);
    RecognisesSize(p, s, cfg);
    NotPlainLine(s);
  }

  lemma {:induction false} HighByteSize(s: string)
    requires s == ['1', '\U{80}']
    ensures SaysSize(s) && SizeOf(s) == 16 && LeadingHex(s) == 2
  {
    OneHexDigit('1');
    LeadingHexSnoc(['1'], '\U{80}');
    SizeOfSnoc(['1'], '\U{80}');
    assert s == ['1'] + ['\U{80}'];
  }

  // ---------- runs with their callbacks ----------

  /** The run goes on to parser `q`, having made the callbacks `es` up to the cutting of text. */
  ghost predicate Reads(r: Result, q: Parser, es: seq<Event>) { r.out.Go? && r.p == q && Canon(r.events) == Canon(es) }

  lemma {:induction false} ReadsOn(p: Parser, a: string, q: Parser, es: seq<Event>, b: string, z: Parser,
                                   fs: seq<Event>, sw: Switch)
    requires Reads(Run(p, a, sw), q, es) && Reads(Run(q, b, sw), z, fs)
    ensures Reads(Run(p, a + b, sw), z, es + fs)
  {
    RunOn(p, a, b, sw, q);
    CanonCongruence(Run(p, a, sw).events, es, Run(q, b, sw).events, fs);
  }

  lemma {:induction false} ReadsByte(p: Parser, ch: char, sw: Switch, q: Parser)
    requires EntryMark(p.state).Nothing? && (sw(p, ch) == Next(q) || sw(p, ch) == Ask(q, Flush(Body)))
    ensures Reads(Run(p, [ch], sw), q, [])
  {
    RunOne(p, ch, sw);
    var ops := sw(p, ch).ops;
    assert DoAll(ops, EntryTape(Nothing), [ch], 0) == EntryTape(Nothing) by {
      if ops != Done { assert DoAll(Done, EntryTape(Nothing), [ch], 0) == EntryTape(Nothing); }
    }
  }

  lemma {:induction false} ReadsNote(p: Parser, ch: char, sw: Switch, q: Parser, n: Notice)
    requires EntryMark(p.state).Nothing? && sw(p, ch) == Ask(q, Notify(n))
    ensures Reads(Run(p, [ch], sw), q, [Note(n)])
  {
    RunOne(p, ch, sw);
    assert DoAll(Done, Tape(map[], [] + [Note(n)]), [ch], 0) == Tape(map[], [Note(n)]);
  }

  lemma {:induction false} ReadsBodyByte(p: Parser, ch: char, sw: Switch, q: Parser)
    requires EntryMark(p.state).Nothing? && sw(p, ch) == Ask(q, SetMark(Body))
    ensures Reads(Run(p, [ch], sw), q, [Data(Body, [ch])])
  {
    RunOne(p, ch, sw);
    var t := Tape(map[Body := 0], []);
    assert DoAll(Done, t, [ch], 0) == t;
    AtExitHolding(t, Holds(Body), [ch], 1);
    assert [ch][0..1] == [ch];
  }

  lemma {:induction false} JoinText(s: string, c: string)
    ensures Canon([Data(Body, s)] + [Data(Body, c)]) == Canon([Data(Body, s + c)])
  {
    CanonSnoc([Data(Body, s)], Data(Body, c));
    CanonSnoc([], Data(Body, s));
    CanonSnoc([], Data(Body, s + c));
    assert [] + [Data(Body, s)] == [Data(Body, s)] && [] + [Data(Body, s + c)] == [Data(Body, s + c)];
    EmitJoins([], Body, s, c);
  }

  /** One body byte more. */
  lemma {:induction false} ReadsNextByte(p: Parser, t: string, c: char, sw: Switch, q: Parser, z: Parser)
    requires Reads(Run(p, t, sw), q, [Data(Body, t)]) && Reads(Run(q, [c], sw), z, [Data(Body, [c])])
    ensures Reads(Run(p, t + [c], sw), z, [Data(Body, t + [c])])
  {
    ReadsOn(p, t, q, [Data(Body, t)], [c], z, [Data(Body, [c])], sw);
    JoinText(t, [c]);
  }

  /** Body bytes, the last one not among them. */
  lemma {:induction false} ReadsBody(p: Parser, s: string, sw: Switch)
    requires BodyLaw(sw) && s != "" && Remains(p, |s|)
    ensures Reads(Run(p, s, sw), BodyAfter(p, |s|), [Data(Body, s)])
  {
    var n := |s| - 1;
    var t, c := s[..n], s[n];
    var q, z := BodyAfter(p, n), BodyAfter(p, |s|);
    BodyAfterSteps(p, |s|);
    BodyAsks(q, c, sw);
    ReadsBodyByte(q, c, sw, z);
    assert s == t + [c];
    if n == 0 {
      assert s == [c];
      BodyAfterSteps(p, 0);
    } else {
      ReadsBody(p, t, sw);
      ReadsNextByte(p, t, c, sw, q, z);
    }
  }

  // ---------- the chunked coding ----------

  /** A chunk as it is sent: its size line without the line end, and its data. */
  datatype Piece = Piece(line: string, data: string)

  predicate LineFits(line: string, max: nat) { SaysSize(line) && CR !in line && |line| + 2 <= max }

  predicate PieceFits(c: Piece, max: nat) { LineFits(c.line, max) && c.data != "" && SizeOf(c.line) == |c.data| }

  function EncodePiece(c: Piece): string { c.line + ([CR] + [LF]) + c.data + ([CR] + [LF]) }

  function PieceEvents(c: Piece): seq<Event> {
    [Note(ChunkHeader(|c.data|))] + [Data(Body, c.data)] + [Note(ChunkComplete)]
  }

  function Encode(cs: seq<Piece>): string { if cs == [] then "" else EncodePiece(cs[0]) + Encode(cs[1..]) }

  function Events(cs: seq<Piece>): seq<Event> { if cs == [] then [] else PieceEvents(cs[0]) + Events(cs[1..]) }

  /** Where the parser stands after a size line. */
  function AfterSize(p: Parser, n: nat): Parser {
    if n == 0 then p.(contentLength := 0, nread := 0, flags := p.flags.(trailing := true), state := HeaderFieldStart)
    else p.(contentLength := n, nread := 0, state := ChunkData)
  }

  lemma {:induction false} SizeCr(q: Parser, sw: Switch, max: nat, z: Parser)
    requires SizeLaw(sw, max) && InChunkSize(q) && (q.state.ChunkSize? || q.state.ChunkParameters?) &&
      q.nread + 1 <= max
    requires z == Tick(q).(state := ChunkSizeAlmostDone)
    ensures sw(q, CR) == Next(z)
  {
    assert Unhex(CR) == -1;
  }

  lemma {:induction false} SizeLf(q: Parser, sw: Switch, max: nat)
    requires SizeLaw(sw, max) && InChunkSize(q) && q.state.ChunkSizeAlmostDone? && q.nread + 1 <= max
    ensures sw(q, LF) == Ask(AfterSize(q, q.contentLength), Notify(ChunkHeader(q.contentLength)))
  {
    assert Tick(q).nread == q.nread + 1;
  }

  lemma {:induction false} SizeLineEnds(q: Parser, sw: Switch, max: nat, z: Parser)
    requires SizeLaw(sw, max) && InChunkSize(q) && (q.state.ChunkSize? || q.state.ChunkParameters?) &&
      q.nread + 2 <= max
    requires z == Tick(q).(state := ChunkSizeAlmostDone)
    ensures sw(q, CR) == Next(z) &&
      sw(z, LF) == Ask(AfterSize(q, q.contentLength), Notify(ChunkHeader(q.contentLength)))
  {
    SizeCr(q, sw, max, z);
    SizeLf(z, sw, max);
  }

  lemma {:induction false} ReadsLine(p: Parser, line: string, sw: Switch, max: nat)
    requires SizeLaw(sw, max) && InChunkSize(p) && p.state.ChunkSizeStart? && LineFits(line, max)
    ensures Reads(Run(p, line, sw), SizeRead(p, line, |line|), [])
  {
    RunsSize(p, line, sw, max);
  }

  lemma {:induction false} ReadsEnd(p: Parser, q: Parser, z: Parser, n: Notice, sw: Switch)
    requires EntryMark(p.state).Nothing? && EntryMark(q.state).Nothing?
    requires (sw(p, CR) == Next(q) || sw(p, CR) == Ask(q, Flush(Body))) && sw(q, LF) == Ask(z, Notify(n))
    ensures Reads(Run(p, [CR] + [LF], sw), z, [Note(n)])
  {
    ReadsByte(p, CR, sw, q);
    ReadsNote(q, LF, sw, z, n);
    ReadsOn(p, [CR], q, [], [LF], z, [Note(n)], sw);
    assert [] + [Note(n)] == [Note(n)];
  }

  lemma {:induction false} ReadsLineEnd(q: Parser, sw: Switch, max: nat, n: nat)
    requires SizeLaw(sw, max) && InChunkSize(q) && (q.state.ChunkSize? || q.state.ChunkParameters?) &&
      q.nread + 2 <= max
    requires n == q.contentLength
    ensures Reads(Run(q, [CR] + [LF], sw), AfterSize(q, n), [Note(ChunkHeader(n))])
  {
    var z := Tick(q).(state := ChunkSizeAlmostDone);
    SizeLineEnds(q, sw, max, z);
    ReadsEnd(q, z, AfterSize(q, n), ChunkHeader(n), sw);
  }

  lemma {:induction false} SizeReadEnds(p: Parser, line: string, n: nat)
    requires Chunking(p) && SaysSize(line) && n == SizeOf(line)
    ensures var q := SizeRead(p, line, |line|);
      && InChunkSize(q) && (q.state.ChunkSize? || q.state.ChunkParameters?) && q.contentLength == n && q.nread == |line|
      && AfterSize(q, n) == AfterSize(p, n)
  {}

  /** A size line with its end. */
  lemma {:induction false} ReadsSizeLine(p: Parser, line: string, sw: Switch, max: nat, n: nat)
    requires SizeLaw(sw, max) && InChunkSize(p) && p.state.ChunkSizeStart? && LineFits(line, max) && n == SizeOf(line)
    ensures Reads(Run(p, line + ([CR] + [LF]), sw), AfterSize(p, n), [Note(ChunkHeader(n))])
  {
    var q := SizeRead(p, line, |line|);
    ReadsLine(p, line, sw, max);
    SizeReadEnds(p, line, n);
    ReadsLineEnd(q, sw, max, n);
    ReadsOn(p, line, q, [], [CR] + [LF], AfterSize(p, n), [Note(ChunkHeader(n))], sw);
    assert [] + [Note(ChunkHeader(n))] == [Note(ChunkHeader(n))];
  }

  /** What the switch does at the end of a chunk's data. */
  ghost predicate ChunkLaw(sw: Switch) {
    && (forall p: Parser {:trigger sw(p, CR)} ::
       p.state.ChunkDataAlmostDone? && p.flags.chunked && p.contentLength == 0 ==>
          sw(p, CR) == Ask(p.(state := ChunkDataDone), Flush(Body)))
    && (forall p: Parser {:trigger sw(p, LF)} :: p.state.ChunkDataDone? && p.flags.chunked ==>
          sw(p, LF) == Ask(p.(nread := 0, state := ChunkSizeStart), Notify(ChunkComplete)))
  }

  lemma {:induction false} LastAsks(q: Parser, c: char, sw: Switch, z: Parser)
    requires BodyEnds(sw) && q.state.ChunkData? && q.flags.chunked && q.contentLength == 1
    requires z == q.(contentLength := 0, state := ChunkDataAlmostDone)
    ensures sw(q, c) == Ask(z, SetMark(Body))
  {
    assert LastByte(q);
  }

  lemma {:induction false} OneLeft(p: Parser, n: nat)
    requires p.state.ChunkData? && p.flags.chunked && n + 1 == p.contentLength < ULLONG_MAX
    ensures Remains(p, n) && BodyAfter(p, n) == p.(contentLength := 1)
  {}

  /** The bytes `t` of a chunk, and its last byte `c`; `q` is the parser between them. */
  lemma {:induction false} ReadsLast(p: Parser, t: string, c: char, sw: Switch, q: Parser, z: Parser)
    requires EntryMark(q.state).Nothing? && sw(q, c) == Ask(z, SetMark(Body))
    requires t != "" && Reads(Run(p, t, sw), q, [Data(Body, t)])
    ensures Reads(Run(p, t + [c], sw), z, [Data(Body, t + [c])])
  {
    ReadsBodyByte(q, c, sw, z);
    ReadsNextByte(p, t, c, sw, q, z);
  }

  lemma {:induction false} ReadsDataOf(p: Parser, t: string, c: char, sw: Switch, q: Parser, z: Parser)
    requires BodyLaw(sw) && p.state.ChunkData? && p.flags.chunked && |t| + 1 == p.contentLength < ULLONG_MAX
    requires q == p.(contentLength := 1) && sw(q, c) == Ask(z, SetMark(Body))
    ensures t == "" ==> Reads(Run(p, [c], sw), z, [Data(Body, [c])])
    ensures t != "" ==> Reads(Run(p, t + [c], sw), z, [Data(Body, t + [c])])
  {
    if t == "" {
      assert q == p;
      ReadsBodyByte(q, c, sw, z);
    } else {
      OneLeft(p, |t|);
      ReadsBody(p, t, sw);
      ReadsLast(p, t, c, sw, q, z);
    }
  }

  lemma {:induction false} ReadsData(p: Parser, s: string, sw: Switch)
    requires BodyLaw(sw) && BodyEnds(sw) && p.state.ChunkData? && p.flags.chunked &&
      0 < |s| == p.contentLength < ULLONG_MAX
    ensures Reads(Run(p, s, sw), p.(contentLength := 0, state := ChunkDataAlmostDone), [Data(Body, s)])
  {
    var t, c := s[..|s| - 1], s[|s| - 1];
    var q, z := p.(contentLength := 1), p.(contentLength := 0, state := ChunkDataAlmostDone);
    LastAsks(q, c, sw, z);
    ReadsDataOf(p, t, c, sw, q, z);
    assert t == "" ==> s == [c];
    assert s == t + [c];
  }

  lemma {:induction false} ReadsChunkEnd(p: Parser, sw: Switch)
    requires ChunkLaw(sw) && p.state.ChunkDataAlmostDone? && p.flags.chunked && p.contentLength == 0
    ensures Reads(Run(p, [CR] + [LF], sw), p.(nread := 0, state := ChunkSizeStart), [Note(ChunkComplete)])
  {
    ReadsEnd(p, p.(state := ChunkDataDone), p.(nread := 0, state := ChunkSizeStart), ChunkComplete, sw);
  }

  ghost predicate ChunkLaws(sw: Switch, max: nat) { SizeLaw(sw, max) && ChunkLaw(sw) && BodyLaw(sw) && BodyEnds(sw) }

  lemma {:induction false} ReadsThree(p: Parser, a: string, q: Parser, es: seq<Event>, b: string, r: Parser,
                                      fs: seq<Event>,
                   c: string, z: Parser, gs: seq<Event>, sw: Switch)
    requires Reads(Run(p, a, sw), q, es) && Reads(Run(q, b, sw), r, fs) && Reads(Run(r, c, sw), z, gs)
    ensures Reads(Run(p, a + b + c, sw), z, es + fs + gs)
  {
    ReadsOn(p, a, q, es, b, r, fs, sw);
    ReadsOn(p, a + b, r, es + fs, c, z, gs, sw);
  }

  lemma {:induction false} BackToSize(p: Parser, n: nat, a: Parser, b: Parser, z: Parser)
    requires InChunkSize(p) && p.state.ChunkSizeStart? && 0 < n <= MAX_CHUNK
    requires a == AfterSize(p, n) && z == p.(contentLength := 0) &&
      b == a.(contentLength := 0, state := ChunkDataAlmostDone)
    ensures a.state.ChunkData? && a.flags.chunked && a.contentLength == n &&
      b.(nread := 0, state := ChunkSizeStart) == z
  {}

  lemma {:induction false} JoinPiece(p: Parser, c: Piece, sw: Switch, n: nat, a: Parser, b: Parser, z: Parser)
    requires Reads(Run(p, c.line + ([CR] + [LF]), sw), a, [Note(ChunkHeader(n))]) && n == |c.data|
    requires Reads(Run(a, c.data, sw), b, [Data(Body, c.data)]) &&
      Reads(Run(b, [CR] + [LF], sw), z, [Note(ChunkComplete)])
    ensures Reads(Run(p, EncodePiece(c), sw), z, PieceEvents(c))
  {
    ReadsThree(p, c.line + ([CR] + [LF]), a, [Note(ChunkHeader(n))], c.data, b, [Data(Body, c.data)],
               [CR] + [LF], z, [Note(ChunkComplete)], sw);
  }

  lemma {:induction false} ReadsPiece(p: Parser, c: Piece, sw: Switch, max: nat, n: nat, a: Parser, b: Parser,
                                      z: Parser)
    requires ChunkLaws(sw, max) && InChunkSize(p) && p.state.ChunkSizeStart? && PieceFits(c, max)
    requires n == |c.data| && a == AfterSize(p, n) && z == p.(contentLength := 0)
    requires b == a.(contentLength := 0, state := ChunkDataAlmostDone)
    ensures Reads(Run(p, EncodePiece(c), sw), z, PieceEvents(c))
  {
    BackToSize(p, n, a, b, z);
    ReadsSizeLine(p, c.line, sw, max, n);
    ReadsData(a, c.data, sw);
    ReadsChunkEnd(b, sw);
    JoinPiece(p, c, sw, n, a, b, z);
  }

  /** `q` is the parser between two chunks. */
  lemma {:induction false} ReadsOnePiece(p: Parser, c: Piece, sw: Switch, max: nat, q: Parser)
    requires ChunkLaws(sw, max) && InChunkSize(p) && p.state.ChunkSizeStart? && PieceFits(c, max) &&
      q == p.(contentLength := 0)
    ensures Reads(Run(p, EncodePiece(c), sw), q, PieceEvents(c)) && InChunkSize(q) && q.state.ChunkSizeStart?
  {
    var a := AfterSize(p, |c.data|);
    ReadsPiece(p, c, sw, max, |c.data|, a, a.(contentLength := 0, state := ChunkDataAlmostDone), q);
  }

  lemma {:induction false} ReadsPieces(p: Parser, cs: seq<Piece>, sw: Switch, max: nat, q: Parser)
    requires ChunkLaws(sw, max) && InChunkSize(p) && p.state.ChunkSizeStart? && q == p.(contentLength := 0)
    requires forall k :: 0 <= k < |cs| ==> PieceFits(cs[k], max)
    ensures cs != [] ==> Reads(Run(p, Encode(cs), sw), q, Events(cs))
    decreases |cs|
  {
    if cs != [] {
      ReadsOnePiece(p, cs[0], sw, max, q);
      if cs[1..] == [] {
        assert EncodePiece(cs[0]) + "" == EncodePiece(cs[0]) && PieceEvents(cs[0]) + [] == PieceEvents(cs[0]);
      } else {
        ReadsPieces(q, cs[1..], sw, max, q);
        ReadsOn(p, EncodePiece(cs[0]), q, PieceEvents(cs[0]), Encode(cs[1..]), q, Events(cs[1..]), sw);
      }
    }
  }

  // ---------- the parser's switch ----------

  lemma {:induction false} ChunkLawsHere(cfg: Config)
    ensures ChunkLaws(ByteSwitch(cfg), cfg.maxHeader)
  {
    var sw := ByteSwitch(cfg);
    SizeLawHere(cfg);
    BodyLawsHere(cfg);
    forall p: Parser, ch: char
      ensures p.state.ChunkDataAlmostDone? ==> sw(p, ch) == StepChunkDataAlmostDone(p, ch)
      ensures p.state.ChunkDataDone? ==> sw(p, ch) == StepChunkDataDone(p, ch)
    {
      ChunkEndStep(p, ch, cfg);
    }
  }

  lemma {:induction false} ChunkEndStep(p: Parser, ch: char, cfg: Config)
    ensures p.state.ChunkDataAlmostDone? ==> Step(p, ch, cfg) == StepChunkDataAlmostDone(p, ch)
    ensures p.state.ChunkDataDone? ==> Step(p, ch, cfg) == StepChunkDataDone(p, ch)
  {}

  /** The empty line after the last chunk. */
  lemma {:induction false} LastLineSteps(p: Parser, cfg: Config)
    requires p.nread + 1 <= cfg.maxHeader
    ensures p.state.HeaderFieldStart? ==> Step(p, CR, cfg) == Next(p.(nread := p.nread + 1, state := HeadersAlmostDone))
    ensures p.state.HeadersAlmostDone? && p.flags.trailing ==>
      Step(p, LF, cfg) == StepMessageDone(p.(nread := p.nread + 1, state := MessageDone)).After(Notify(ChunkComplete))
  {}

  lemma {:induction false} TwoNotes(p: Parser, ch: char, sw: Switch, q: Parser)
    requires EntryMark(p.state).Nothing? && sw(p, ch) == StepMessageDone(q).After(Notify(ChunkComplete))
    ensures var r := Run(p, [ch], sw);
      r.out == (if q.upgrade then Exit else Go) && r.p == q.(state := NewMessage(q)) &&
      r.events == [Note(ChunkComplete), Note(MessageComplete)]
  {
    RunOne(p, ch, sw);
    var e := sw(p, ch);
    var t := Tape(map[], [Note(ChunkComplete), Note(MessageComplete)]);
    assert [] + [Note(ChunkComplete)] + [Note(MessageComplete)] == t.events;
    assert DoAll(Done, t, [ch], 0) == t;
    assert DoAll(Then(Notify(MessageComplete), Done), Tape(map[], [] + [Note(ChunkComplete)]), [ch], 0) == t;
    AtExitHolding(t, Nothing, [ch], 1);
  }

  const ENDED: seq<Event> := [Note(ChunkComplete), Note(MessageComplete)]

  /** The run ends the message: it goes on to the next, or returns because of an upgrade. */
  ghost predicate Ends(r: Result, upgrade: bool, s: State, es: seq<Event>) {
    r.out == (if upgrade then Exit else Go) && r.p.state == s && Canon(r.events) == Canon(es)
  }

  lemma {:induction false} EndsOn(p: Parser, a: string, q: Parser, es: seq<Event>, b: string, upgrade: bool, s: State,
                                  fs: seq<Event>, sw: Switch)
    requires Reads(Run(p, a, sw), q, es) && Ends(Run(q, b, sw), upgrade, s, fs)
    ensures Ends(Run(p, a + b, sw), upgrade, s, es + fs)
  {
    RunOn(p, a, b, sw, q);
    CanonCongruence(Run(p, a, sw).events, es, Run(q, b, sw).events, fs);
  }

  lemma {:induction false} LastLine(p: Parser, q: Parser, z: Parser, sw: Switch)
    requires EntryMark(p.state).Nothing? && EntryMark(q.state).Nothing?
    requires sw(p, CR) == Next(q) && sw(q, LF) == StepMessageDone(z).After(Notify(ChunkComplete))
    ensures Ends(Run(p, [CR] + [LF], sw), z.upgrade, NewMessage(z), ENDED)
  {
    ReadsByte(p, CR, sw, q);
    TwoNotes(q, LF, sw, z);
    EndsOn(p, [CR], q, [], [LF], z.upgrade, NewMessage(z), ENDED, sw);
    assert [] + ENDED == ENDED;
  }

  ghost predicate LastLineLaw(sw: Switch, max: nat) {
    && (forall p: Parser {:trigger sw(p, CR)} :: p.state.HeaderFieldStart? && p.nread + 1 <= max ==>
          sw(p, CR) == Next(p.(nread := p.nread + 1, state := HeadersAlmostDone)))
    && (forall p: Parser {:trigger sw(p, LF)} ::
       p.state.HeadersAlmostDone? && p.flags.trailing && p.nread + 1 <= max ==>
          sw(p, LF) == StepMessageDone(p.(nread := p.nread + 1, state := MessageDone)).After(Notify(ChunkComplete)))
  }

  lemma {:induction false} LastLineLawHere(cfg: Config)
    ensures LastLineLaw(ByteSwitch(cfg), cfg.maxHeader)
  {
    forall p: Parser | p.nread + 1 <= cfg.maxHeader
      ensures p.state.HeaderFieldStart? ==>
        Step(p, CR, cfg) == Next(p.(nread := p.nread + 1, state := HeadersAlmostDone))
      ensures p.state.HeadersAlmostDone? && p.flags.trailing ==>
        Step(p, LF, cfg) == StepMessageDone(p.(nread := p.nread + 1, state := MessageDone)).After(Notify(ChunkComplete))
    {
      LastLineSteps(p, cfg);
    }
  }

  lemma {:induction false} ReadsLastLine(p: Parser, sw: Switch, max: nat)
    requires LastLineLaw(sw, max) && p.state.HeaderFieldStart? && p.flags.trailing && p.nread + 2 <= max
    ensures Ends(Run(p, [CR] + [LF], sw), p.upgrade, NewMessage(p), ENDED)
  {
    var q := p.(nread := p.nread + 1, state := HeadersAlmostDone);
    var z := q.(nread := q.nread + 1, state := MessageDone);
    assert NewMessage(z) == NewMessage(p);
    LastLine(p, q, z, sw);
  }

  lemma {:induction false} SameNextMessage(p: Parser, z: Parser)
    requires p.flags.chunked && z == AfterSize(p, 0)
    ensures NewMessage(z) == NewMessage(p) && z.upgrade == p.upgrade
  {}

  /** The last chunk, of size zero, and the empty line. */
  lemma {:induction false} ReadsLastChunk(p: Parser, last: string, cfg: Config)
    requires InChunkSize(p) && p.state.ChunkSizeStart? && LineFits(last, cfg.maxHeader) && SizeOf(last) == 0
    ensures Ends(Run(p, last + ([CR] + [LF]) + ([CR] + [LF]), ByteSwitch(cfg)), p.upgrade, NewMessage(p),
                 [Note(ChunkHeader(0))] + ENDED)
  {
    var z := AfterSize(p, 0);
    SizeLawHere(cfg);
    ReadsSizeLine(p, last, ByteSwitch(cfg), cfg.maxHeader, 0);
    LastLineLawHere(cfg);
    ReadsLastLine(z, ByteSwitch(cfg), cfg.maxHeader);
    SameNextMessage(p, z);
    EndsOn(p, last + ([CR] + [LF]), z, [Note(ChunkHeader(0))], [CR] + [LF], p.upgrade, NewMessage(p), ENDED,
      ByteSwitch(cfg));
  }

  /** A body sent in the chunked coding is reported as it was: each chunk with its size and its data,
      then the last chunk and the end of the message, exactly once. */
  lemma {:induction false} ChunkedRoundTrip(p: Parser, cs: seq<Piece>, last: string, cfg: Config)
    requires InChunkSize(p) && p.state.ChunkSizeStart? &&
      (forall k :: 0 <= k < |cs| ==> PieceFits(cs[k], cfg.maxHeader))
    requires LineFits(last, cfg.maxHeader) && SizeOf(last) == 0
    ensures Ends(Run(p, Encode(cs) + (last + ([CR] + [LF]) + ([CR] + [LF])), ByteSwitch(cfg)), p.upgrade, NewMessage(p),
                 Events(cs) + ([Note(ChunkHeader(0))] + ENDED))
  {
    var q, end := p.(contentLength := 0), last + ([CR] + [LF]) + ([CR] + [LF]);
    ChunkLawsHere(cfg);
    ReadsPieces(p, cs, ByteSwitch(cfg), cfg.maxHeader, q);
    BetweenChunks(p, q);
    ReadsLastChunk(p, last, cfg);
    ReadsLastChunk(q, last, cfg);
    JoinChunks(p, q, cs, end, p.upgrade, NewMessage(p), [Note(ChunkHeader(0))] + ENDED, ByteSwitch(cfg));
  }

  lemma {:induction false} BetweenChunks(p: Parser, q: Parser)
    requires InChunkSize(p) && p.state.ChunkSizeStart? && q == p.(contentLength := 0)
    ensures InChunkSize(q) && q.state.ChunkSizeStart? && NewMessage(q) == NewMessage(p) && q.upgrade == p.upgrade
  {}

  lemma {:induction false} JoinChunks(p: Parser, q: Parser, cs: seq<Piece>, end: string, upgrade: bool, s: State,
                                      es: seq<Event>, sw: Switch)
    requires cs != [] ==> Reads(Run(p, Encode(cs), sw), q, Events(cs))
    requires Ends(Run(p, end, sw), upgrade, s, es) && Ends(Run(q, end, sw), upgrade, s, es)
    ensures Ends(Run(p, Encode(cs) + end, sw), upgrade, s, Events(cs) + es)
  {
    if cs == [] {
      assert "" + end == end && [] + es == es;
    } else {
      EndsOn(p, Encode(cs), q, Events(cs), end, upgrade, s, es, sw);
    }
  }

  // ---------- with a trailer ----------

  /** The parser is still in the trailer, at the CR of the empty line that ends it. */
  predicate AtTrailerEnd(r: Result, max: nat) {
    r.out.Go? && r.p.state.HeadersAlmostDone? && r.p.flags.trailing && r.p.nread + 1 <= max
  }

  lemma {:induction false} TrailerLf(q: Parser, sw: Switch, max: nat)
    requires LastLineLaw(sw, max) && q.state.HeadersAlmostDone? && q.flags.trailing && q.nread + 1 <= max
    ensures Ends(Run(q, [LF], sw), q.upgrade, NewMessage(q), ENDED)
  {
    var m := q.(nread := q.nread + 1, state := MessageDone);
    assert NewMessage(m) == NewMessage(q);
    TwoNotes(q, LF, sw, m);
  }

  lemma {:induction false} TrailerEnds(z: Parser, x: string, sw: Switch, q: Parser, es: seq<Event>)
    requires Reads(Run(z, x, sw), q, es) && Ends(Run(q, [LF], sw), q.upgrade, NewMessage(q), ENDED)
    ensures Ends(Run(z, x + [LF], sw), q.upgrade, NewMessage(q), es + ENDED)
  {
    EndsOn(z, x, q, es, [LF], q.upgrade, NewMessage(q), ENDED, sw);
  }

  lemma {:induction false} ReadsTrailed(p: Parser, last: string, x: string, cfg: Config, r: Result)
    requires InChunkSize(p) && p.state.ChunkSizeStart? && LineFits(last, cfg.maxHeader) && SizeOf(last) == 0
    requires r == Run(AfterSize(p, 0), x, ByteSwitch(cfg)) && AtTrailerEnd(r, cfg.maxHeader)
    ensures Ends(Run(p, last + ([CR] + [LF]) + (x + [LF]), ByteSwitch(cfg)), r.p.upgrade, NewMessage(r.p),
                 [Note(ChunkHeader(0))] + (r.events + ENDED))
  {
    var z := AfterSize(p, 0);
    SizeLawHere(cfg);
    ReadsSizeLine(p, last, ByteSwitch(cfg), cfg.maxHeader, 0);
    LastLineLawHere(cfg);
    TrailerLf(r.p, ByteSwitch(cfg), cfg.maxHeader);
    TrailerEnds(z, x, ByteSwitch(cfg), r.p, r.events);
    EndsOn(p, last + ([CR] + [LF]), z, [Note(ChunkHeader(0))], x + [LF], r.p.upgrade, NewMessage(r.p), r.events + ENDED,
           ByteSwitch(cfg));
  }

  /** The same with trailer fields: whatever text `x` the parser takes for fields up to the CR of the empty line, the
      chunks are reported as they were, then the fields, then the end of the message. */
  lemma {:induction false} TrailedRoundTrip(p: Parser, cs: seq<Piece>, last: string, x: string, cfg: Config, r: Result)
    requires InChunkSize(p) && p.state.ChunkSizeStart? &&
      (forall k :: 0 <= k < |cs| ==> PieceFits(cs[k], cfg.maxHeader))
    requires LineFits(last, cfg.maxHeader) && SizeOf(last) == 0
    requires r == Run(AfterSize(p, 0), x, ByteSwitch(cfg)) && AtTrailerEnd(r, cfg.maxHeader)
    ensures Ends(Run(p, Encode(cs) + (last + ([CR] + [LF]) + (x + [LF])), ByteSwitch(cfg)), r.p.upgrade,
      NewMessage(r.p),
                 Events(cs) + ([Note(ChunkHeader(0))] + (r.events + ENDED)))
  {
    var q, end := p.(contentLength := 0), last + ([CR] + [LF]) + (x + [LF]);
    ChunkLawsHere(cfg);
    ReadsPieces(p, cs, ByteSwitch(cfg), cfg.maxHeader, q);
    BetweenChunks(p, q);
    assert AfterSize(q, 0) == AfterSize(p, 0);
    ReadsTrailed(p, last, x, cfg, r);
    ReadsTrailed(q, last, x, cfg, r);
    JoinChunks(p, q, cs, end, r.p.upgrade, NewMessage(r.p), [Note(ChunkHeader(0))] + (r.events + ENDED),
      ByteSwitch(cfg));
  }

  lemma {:induction false} LastBodyByte(p: Parser, ch: char, sw: Switch, q: Parser)
    requires EntryMark(p.state).Nothing?
    requires sw(p, ch) == StepMessageDone(q).After(FlushInclusive(Body)).After(SetMark(Body))
    ensures Ends(Run(p, [ch], sw), q.upgrade, NewMessage(q), [Data(Body, [ch])] + [Note(MessageComplete)])
  {
    RunOne(p, ch, sw);
    var e, t := sw(p, ch), Tape(map[], [Data(Body, [ch])] + [Note(MessageComplete)]);
    assert e.ops == Then(SetMark(Body), LAST_OPS);
    LastOps(ch, t);
    AtExitHolding(t, Nothing, [ch], 1);
  }

  const LAST_OPS: Ops := Then(FlushInclusive(Body), Then(Notify(MessageComplete), Done))

  lemma {:induction false} LastOps(ch: char, t: Tape)
    requires t == Tape(map[], [Data(Body, [ch])] + [Note(MessageComplete)])
    ensures DoAll(Then(SetMark(Body), LAST_OPS), EntryTape(Nothing), [ch], 0) == t
  {
    var m, d := Tape(map[Body := 0], []), Tape(map[], [Data(Body, [ch])]);
    assert [ch][0..1] == [ch];
    assert Do(SetMark(Body), EntryTape(Nothing), [ch], 0) == m;
    assert Do(FlushInclusive(Body), m, [ch], 0) == d;
    assert DoAll(Then(Notify(MessageComplete), Done), d, [ch], 0) == DoAll(Done, t, [ch], 0) == t;
    assert DoAll(LAST_OPS, m, [ch], 0) == t;
  }

  /** A body of Content-Length bytes is reported as it was, and ends its message. */
  lemma {:induction false} IdentityRoundTrip(p: Parser, s: string, cfg: Config)
    requires InIdentity(p) && |s| == p.contentLength
    ensures Ends(Run(p, s, ByteSwitch(cfg)), p.upgrade, NewMessage(p), [Data(Body, s)] + [Note(MessageComplete)])
  {
    BodyLawsHere(cfg);
    ReadsIdentity(p, s, ByteSwitch(cfg));
  }

  lemma {:induction false} ReadsIdentity(p: Parser, s: string, sw: Switch)
    requires BodyLaw(sw) && BodyEnds(sw) && InIdentity(p) && |s| == p.contentLength
    ensures Ends(Run(p, s, sw), p.upgrade, NewMessage(p), [Data(Body, s)] + [Note(MessageComplete)])
  {
    var n := |s| - 1;
    if n == 0 {
      assert s == [s[0]];
      ReadsShortIdentity(p, s[0], p.(contentLength := 1), sw);
    } else {
      assert s == s[..n] + [s[n]];
      ReadsLongIdentity(p, s[..n], s[n], p.(contentLength := 1), sw);
    }
  }

  lemma {:induction false} ReadsShortIdentity(p: Parser, c: char, q: Parser, sw: Switch)
    requires BodyEnds(sw) && InIdentity(p) && p.contentLength == 1 && q == p.(contentLength := 1)
    ensures Ends(Run(p, [c], sw), p.upgrade, NewMessage(p), [Data(Body, [c])] + [Note(MessageComplete)])
  {
    assert q == p;
    ReadsLastByte(p, q, c, sw);
  }

  lemma {:induction false} ReadsLongIdentity(p: Parser, t: string, c: char, q: Parser, sw: Switch)
    requires BodyLaw(sw) && BodyEnds(sw) && InIdentity(p) && |t| + 1 == p.contentLength && t != "" &&
      q == p.(contentLength := 1)
    ensures Ends(Run(p, t + [c], sw), p.upgrade, NewMessage(p), [Data(Body, t + [c])] + [Note(MessageComplete)])
  {
    ReadsLastByte(p, q, c, sw);
    AllButOne(p, |t|, q);
    ReadsBody(p, t, sw);
    EndsBody(p, t, c, q, sw);
  }

  lemma {:induction false} AllButOne(p: Parser, n: nat, q: Parser)
    requires InIdentity(p) && n + 1 == p.contentLength && q == p.(contentLength := 1)
    ensures BodyAfter(p, n) == q && Remains(p, n)
  {}

  lemma {:induction false} EndsBody(p: Parser, t: string, c: char, q: Parser, sw: Switch)
    requires Reads(Run(p, t, sw), q, [Data(Body, t)])
    requires Ends(Run(q, [c], sw), p.upgrade, NewMessage(p), [Data(Body, [c])] + [Note(MessageComplete)])
    ensures Ends(Run(p, t + [c], sw), p.upgrade, NewMessage(p), [Data(Body, t + [c])] + [Note(MessageComplete)])
  {
    EndsOn(p, t, q, [Data(Body, t)], [c], p.upgrade, NewMessage(p), [Data(Body, [c])] + [Note(MessageComplete)], sw);
    JoinLast(t, [c]);
  }

  lemma {:induction false} ReadsLastByte(p: Parser, q: Parser, c: char, sw: Switch)
    requires BodyEnds(sw) && InIdentity(p) && q == p.(contentLength := 1)
    ensures Ends(Run(q, [c], sw), p.upgrade, NewMessage(p), [Data(Body, [c])] + [Note(MessageComplete)])
  {
    var z := p.(contentLength := 0, state := MessageDone);
    assert LastByte(q) && NewMessage(z) == NewMessage(p);
    LastBodyByte(q, c, sw, z);
  }

  lemma {:induction false} JoinLast(s: string, c: string)
    ensures Canon([Data(Body, s)] + ([Data(Body, c)] + [Note(MessageComplete)])) ==
      Canon([Data(Body, s + c)] + [Note(MessageComplete)])
  {
    JoinText(s, c);
    CanonCongruence([Data(Body, s)] + [Data(Body, c)], [Data(Body, s + c)], [Note(MessageComplete)],
      [Note(MessageComplete)]);
    assert [Data(Body, s)] + ([Data(Body, c)] + [Note(MessageComplete)]) ==
      [Data(Body, s)] + [Data(Body, c)] + [Note(MessageComplete)];
  }
}
