/** What every byte keeps: the invariant of the parser between bytes.  From it no C
    assertion can fail, and the marks are used one at a time. */
module HttpInvariant {
  import opened HttpChars
  import opened HttpParser

  /** The header states that can hold while, or just after, a value is read. */
  predicate ValueMatcher(h: HeaderState) {
    h.General? || h.ContentLengthNum? || h.ContentLengthWs? || h.MatchChunked? || h.TokenStart? ||
    h.MatchKeepAlive? || h.MatchClose? || h.MatchConnUpgrade? || h.ConnToken? || h.TransferEncodingChunked? ||
    h.ConnKeepAlive? || h.ConnClose? || h.ConnUpgrade?
  }

  /** How far a matcher has got: it leaves its state on the word's last byte at the latest. */
  predicate MatcherIndex(h: HeaderState, i: nat) {
    match h
    case C => i == 0
    case CO => i == 1
    case CON => i == 2
    case MatchConnection => 3 <= i <= 8
    case MatchContentLength => 3 <= i <= 12
    case MatchProxyConnection => i <= 14
    case MatchTransferEncoding => i <= 15
    case MatchUpgrade => i <= 5
    case MatchChunked => i <= 5
    case TokenStart => i == 0
    case MatchKeepAlive => i <= 8
    case MatchClose => i <= 3
    case MatchConnUpgrade => i <= 5
    case _ => true
  }

  /** Content-Length is present exactly when its flag says so. */
  predicate LengthKnown(p: Parser) {
    && (if p.flags.contentLength then p.contentLength < ULLONG_MAX
        else p.contentLength == (if p.flags.trailing then 0 else ULLONG_MAX))
    && (p.flags.trailing ==> p.flags.chunked)
  }

  function MethodLength(m: nat): nat {
    match m
    case 0 => 6 case 1 => 3 case 2 => 4 case 3 => 4 case 4 => 3 case 5 => 7 case 6 => 7 case 7 => 5 case 8 => 4
    case 9 => 4 case 10 => 5 case 11 => 4 case 12 => 8 case 13 => 9 case 14 => 6 case 15 => 6 case 16 => 4
    case 17 => 6 case 18 => 6 case 19 => 3 case 20 => 6 case 21 => 10 case 22 => 8 case 23 => 5 case 24 => 8
    case 25 => 6 case 26 => 9 case 27 => 11 case 28 => 5 case 29 => 5 case 30 => 10 case 31 => 4 case 32 => 6
    case 33 => 6 case _ => 0
  }

  predicate Chunking(p: Parser) { p.flags.chunked && !p.flags.trailing && !p.flags.contentLength }

  predicate DigitsSeen(p: Parser) {
    p.hstate.ContentLengthNum? || p.hstate.ContentLengthWs? ==> p.flags.contentLength
  }

  // The phases a parser can be in between two bytes.

  predicate Starting(p: Parser) {
    p.state.Dead? || p.state.StartReqOrRes? || p.state.StartRes? || p.state.StartReq?
  }

  predicate LineState(s: State) {
    s.ResOrRespH? || s.ResH? || s.ResHT? || s.ResHTT? || s.ResHTTP? || s.ResHttpMajor? || s.ResHttpDot? ||
    s.ResHttpMinor? || s.ResHttpEnd? || s.ResFirstStatusCode? || s.ResStatusCode? || s.ResStatusStart? ||
    s.ResLineAlmostDone? || s.ReqSpacesBeforeUrl? || s.ReqHttpStart? || s.ReqHttpH? || s.ReqHttpHT? ||
    s.ReqHttpHTT? || s.ReqHttpHTTP? || s.ReqHttpI? || s.ReqHttpIC? || s.ReqHttpMajor? || s.ReqHttpDot? ||
    s.ReqHttpMinor? || s.ReqHttpEnd? || s.ReqLineAlmostDone? || s.HeaderFieldStart? || s.HeadersAlmostDone?
  }

  predicate InLine(p: Parser) { LineState(p.state) && LengthKnown(p) }

  predicate InText(p: Parser) { (UrlState(p.state) || p.state.ResStatus?) && LengthKnown(p) }

  predicate InMethod(p: Parser) {
    p.state.ReqMethod? && LengthKnown(p) && p.verb < METHOD_COUNT && 1 <= p.index <= MethodLength(p.verb)
  }

  predicate InName(p: Parser) {
    p.state.HeaderField? && LengthKnown(p) && FieldMatcher(p.hstate) && MatcherIndex(p.hstate, p.index)
  }

  predicate AfterColon(p: Parser) {
    && (p.state.HeaderValueDiscardWs? || p.state.HeaderValueDiscardWsAlmostDone? || p.state.HeaderValueDiscardLws?)
    && LengthKnown(p) && FieldMatcher(p.hstate)
  }

  predicate InValue(p: Parser) {
    p.state.HeaderValue? && LengthKnown(p) && ValueMatcher(p.hstate) && MatcherIndex(p.hstate, p.index) && DigitsSeen(p)
  }

  predicate AfterValue(p: Parser) {
    (p.state.HeaderAlmostDone? || p.state.HeaderValueLws?) && LengthKnown(p) && ValueMatcher(p.hstate) && DigitsSeen(p)
  }

  predicate InChunkSize(p: Parser) {
    && Chunking(p)
    && (if p.state.ChunkSizeStart? then p.nread == 0
        else (p.state.ChunkSize? || p.state.ChunkParameters? || p.state.ChunkSizeAlmostDone?) &&
             p.contentLength < ULLONG_MAX)
  }

  predicate InChunkData(p: Parser) {
    && Chunking(p)
    && (if p.state.ChunkData? then 0 < p.contentLength < ULLONG_MAX
        else (p.state.ChunkDataAlmostDone? || p.state.ChunkDataDone?) && p.contentLength == 0)
  }

  predicate InIdentity(p: Parser) {
    p.state.BodyIdentity? && !p.flags.chunked && p.flags.contentLength && 0 < p.contentLength < ULLONG_MAX
  }

  predicate InEofBody(p: Parser) { p.state.BodyIdentityEof? && !p.flags.contentLength && NeedsEof(p) }

  /** The states HeaderValueStart, HeadersDone and MessageDone are only passed through. */
  predicate StateInv(p: Parser) {
    || Starting(p) || InLine(p) || InText(p) || InMethod(p) || InName(p) || AfterColon(p) || InValue(p)
    || AfterValue(p) || InChunkSize(p) || InChunkData(p) || InIdentity(p) || InEofBody(p)
  }

  predicate Inv(p: Parser, maxHeader: nat) { p.nread <= maxHeader && StateInv(p) }

  // ---------- marks ----------

  /** The mark that is set; the invariant is that there is never more than one. */
  datatype Held = Nothing | Holds(f: Field)

  predicate OpOk(op: Op, h: Held) {
    match op
    case SetMark(f) => h.Nothing? || h.f == f
    case Flush(f) => h.Nothing? || h.f == f
    case FlushInclusive(f) => h == Holds(f)
    case Notify(_) => h.Nothing?
  }

  function HeldAfter(op: Op, h: Held): Held {
    match op
    case SetMark(f) => Holds(f)
    case Flush(_) => Nothing
    case FlushInclusive(_) => Nothing
    case Notify(_) => h
  }

  /** Every request meets at most its own mark, and a notify callback meets none. */
  predicate OneMark(ops: Ops, h: Held) {
    match ops
    case Done => true
    case Then(op, rest) => OpOk(op, h) && OneMark(rest, HeldAfter(op, h))
  }

  function HeldAtEnd(ops: Ops, h: Held): Held {
    match ops
    case Done => h
    case Then(op, rest) => HeldAtEnd(rest, HeldAfter(op, h))
  }

  /** The marks set when a call starts in state `s`. */
  function EntryMark(s: State): Held {
    if UrlState(s) then Holds(Url)
    else if s.ResStatus? then Holds(Status)
    else if s.HeaderField? then Holds(FieldName)
    else if s.HeaderValue? then Holds(FieldValue)
    else Nothing
  }

  /** The marks that can be set between two bytes of one call. */
  predicate MayHold(s: State, h: Held) {
    h == EntryMark(s) ||
    ((s.BodyIdentity? || s.BodyIdentityEof? || s.ChunkData? || s.ChunkDataAlmostDone?) && h == Holds(Body))
  }

  lemma {:induction false} MethodNameLengths(m: nat)
    requires m < METHOD_COUNT
    ensures |MethodName(m)| == MethodLength(m) && 3 <= MethodLength(m) <= 11
  {}

  lemma {:induction false} PatchFits(m: nat, i: nat, ch: char)
    requires PatchCandidate(m, i, ch) < METHOD_COUNT
    ensures i < MethodLength(PatchCandidate(m, i, ch))
  {}

  // ---------- one byte, state by state ----------

  /** The byte was consumed without touching the byte counter or raising an error flag. */
  predicate Quiet(e: Eff, p: Parser) { e.p.nread == p.nread && !e.out.AssertFails? && !e.out.Exit? }

  lemma {:induction false} StartReqKept(p: Parser, ch: char)
    ensures var e := StepStartReq(p, ch);
      && Quiet(e, p)
      && (e.out.Go? ==> || (e.p == p && e.ops == Done)
                        || (InMethod(e.p) && e.ops == Then(Notify(MessageBegin), Done)))
  {
    var m := FirstCandidate(ch);
    if m < METHOD_COUNT { MethodNameLengths(m); }
  }

  lemma {:induction false} StartKept(p: Parser, ch: char)
    requires p.state.StartReqOrRes?
    ensures var e := StepStartReqOrRes(p, ch);
      && Quiet(e, p)
      && (e.out.Go? ==> || (Starting(e.p) && e.ops == Done)
                        || ((InLine(e.p) || InMethod(e.p)) && e.ops == Then(Notify(MessageBegin), Done)))
  {
    StartReqKept(Begin(p).(kind := Request, state := StartReq), ch);
  }

  lemma {:induction false} StartResKept(p: Parser, ch: char)
    ensures p.state.StartRes? ==>
      var e := StepStartRes(p, ch);
      && Quiet(e, p)
      && (e.out.Go? ==> || (e.p == p && e.ops == Done)
                        || (InLine(e.p) && e.ops == Then(Notify(MessageBegin), Done)))
    ensures LengthKnown(p) ==>
      var e := StepResOrRespH(p, ch);
      Quiet(e, p) && e.ops == Done && (e.out.Go? ==> InLine(e.p) || InMethod(e.p))
  {
    MethodNameLengths(2);
  }

  lemma {:induction false} StatusKept(p: Parser, ch: char)
    requires p.state.ResStatus? && LengthKnown(p)
    ensures var e := StepStatus(p, ch);
      && Quiet(e, p) && e.out.Go?
      && (if ch == CR || ch == LF then InLine(e.p) && e.ops == Then(Flush(Status), Done) else e == Next(p))
  {}

  lemma {:induction false} StatusStartKept(p: Parser, ch: char)
    requires LengthKnown(p)
    ensures var e := StepStatusStart(p, ch);
      && Quiet(e, p) && e.out.Go?
      && (if ch == CR || ch == LF then InLine(e.p) && e.ops == Then(SetMark(Status), Then(Flush(Status), Done))
          else InText(e.p) && e.p.state.ResStatus? && e.ops == Then(SetMark(Status), Done))
  {
    StatusKept(p.(state := ResStatus, index := 0), ch);
  }

  lemma {:induction false} StatusCodeKept(p: Parser, ch: char)
    requires p.state.ResStatusCode? && LengthKnown(p)
    ensures var e := StepStatusCode(p, ch);
      && Quiet(e, p)
      && (e.out.Go? ==> InLine(e.p) && (e.ops == Done || e.ops == Then(SetMark(Status), Then(Flush(Status), Done))))
  {
    StatusStartKept(p.(state := ResStatusStart), ch);
  }

  lemma {:induction false} PatchIsMethod(m: nat, i: nat, ch: char)
    ensures PatchCandidate(m, i, ch) <= METHOD_COUNT
  {}

  lemma {:induction false} MethodKept(p: Parser, ch: char)
    requires InMethod(p)
    ensures var e := StepReqMethod(p, ch);
      Quiet(e, p) && e.ops == Done && (e.out.Go? ==> InLine(e.p) || InMethod(e.p))
  {
    MethodNameLengths(p.verb);
    var m := PatchCandidate(p.verb, p.index, ch);
    PatchIsMethod(p.verb, p.index, ch);
    if m < METHOD_COUNT {
      PatchFits(p.verb, p.index, ch);
      MethodNameLengths(m);
    }
    assert At(MethodName(p.verb), p.index) != NUL ==> p.index < MethodLength(p.verb);
  }

  lemma {:induction false} UrlKept(p: Parser, ch: char)
    requires UrlState(p.state) && LengthKnown(p)
    ensures var e := StepUrlStrict(p, ch);
      Quiet(e, p) && e.ops == Done && (e.out.Go? ==> UrlState(e.p.state) && LengthKnown(e.p))
  {}

  lemma {:induction false} UrlEndKept(p: Parser, ch: char)
    requires UrlState(p.state) && LengthKnown(p)
    ensures var e := StepUrl(p, ch);
      && Quiet(e, p)
      && (e.out.Go? ==> || (InLine(e.p) && e.ops == Then(Flush(Url), Done))
                        || (UrlState(e.p.state) && LengthKnown(e.p) && e.ops == Done))
  {
    UrlKept(p, ch);
  }

  lemma {:induction false} SpacesKept(p: Parser, ch: char)
    requires p.state.ReqSpacesBeforeUrl? && LengthKnown(p)
    ensures var e := StepSpacesBeforeUrl(p, ch);
      && Quiet(e, p)
      && (e.out.Go? ==> || (e.p == p && e.ops == Done)
                        || (UrlState(e.p.state) && LengthKnown(e.p) && e.ops == Then(SetMark(Url), Done)))
  {}

  predicate Finished(e: Eff, p: Parser) {
    && Starting(e.p) && e.p.nread == p.nread && e.ops == Then(Notify(MessageComplete), Done)
    && (e.out.Go? || e.out.Exit?)
  }

  lemma {:induction false} CompleteKept(p: Parser)
    ensures Finished(StepMessageDone(p), p) && Finished(Complete(p), p)
  {}

  /** The four ways a message goes on after its headers. */
  predicate Framed(e: Eff) {
    && e.p.nread == 0
    && ((Starting(e.p) && e.ops == Then(Notify(MessageComplete), Done)) ||
        ((InChunkSize(e.p) || InIdentity(e.p) || InEofBody(e.p)) && e.ops == Done && e.out.Go?))
  }

  lemma {:induction false} HeadersDoneKept(p: Parser, ch: char)
    requires LengthKnown(p) && !p.flags.trailing && !(p.flags.chunked && p.flags.contentLength)
    ensures var e := StepHeadersDone(p, ch); !e.out.AssertFails? && (e.out.Go? || e.out.Exit? ==> Framed(e))
  {
    CompleteKept(p.(nread := 0));
  }

  /** After the headers, or after the trailer of a chunked body. */
  predicate HeadersEnded(e: Eff) {
    && e.ops.Then? && e.ops.op.Notify?
    && (if e.ops.rest.Done? then e.out.Go? && (InChunkSize(e.p) || InIdentity(e.p) || InEofBody(e.p))
        else Starting(e.p) && e.ops.rest == Then(Notify(MessageComplete), Done))
  }

  lemma {:induction false} HeadersAlmostDoneKept(p: Parser, ch: char, cfg: Config)
    requires LengthKnown(p)
    ensures var e := StepHeadersAlmostDone(p, ch, cfg);
      !e.out.AssertFails? && (e.out.Go? || e.out.Exit? ==> HeadersEnded(e) && e.p.nread <= p.nread)
  {
    CompleteKept(p.(state := MessageDone));
    if !p.flags.trailing && !(p.flags.chunked && p.flags.contentLength) {
      var q := SetUpgrade(p.(state := HeadersDone));
      HeadersDoneKept(Answered(q, cfg.onHeadersComplete(q.(nread := 0))), ch);
    }
  }

  /** From the start of a header line. */
  predicate LineBegun(e: Eff, p: Parser) {
    && e.p.nread <= p.nread
    && (|| HeadersEnded(e)
        || (e.out.Go? && InLine(e.p) && e.ops == Done)
        || (e.out.Go? && InName(e.p) && e.ops == Then(SetMark(FieldName), Done)))
  }

  lemma {:induction false} FieldStartKept(p: Parser, ch: char, cfg: Config)
    requires p.state.HeaderFieldStart? && LengthKnown(p)
    ensures var e := StepHeaderFieldStart(p, ch, cfg);
      !e.out.AssertFails? && (e.out.Go? || e.out.Exit? ==> LineBegun(e, p))
  {
    HeadersAlmostDoneKept(p.(state := HeadersAlmostDone), ch, cfg);
  }

  lemma {:induction false} MatchKept(m: Matcher, word: string, c: char, matched: HeaderState, mismatch: HeaderState)
    requires 2 <= |word| < 100 && m.i <= |word| - 2
    ensures var n := Match(m, word, c, matched, mismatch);
      n.i == m.i + 1 && (n.h == matched || n.h == mismatch || (n.h == m.h && n.i <= |word| - 2))
  {}

  lemma {:induction false} NameMatchKept(m: Matcher, ch: char)
    requires FieldMatcher(m.h) && MatcherIndex(m.h, m.i)
    ensures var n := MatchName(m, ch); FieldMatcher(n.h) && MatcherIndex(n.h, n.i)
  {
    var c := Token(ch);
    match m.h
    case MatchConnection => MatchKept(m, CONNECTION, c, Connection, General);
    case MatchProxyConnection => MatchKept(m, PROXY_CONNECTION, c, Connection, General);
    case MatchContentLength => MatchKept(m, CONTENT_LENGTH, c, ContentLength, General);
    case MatchTransferEncoding => MatchKept(m, TRANSFER_ENCODING, c, TransferEncoding, General);
    case MatchUpgrade => MatchKept(m, UPGRADE, c, Upgrade, General);
    case _ =>
  }

  lemma {:induction false} NameKept(p: Parser, ch: char)
    requires InName(p)
    ensures var e := StepHeaderField(p, ch);
      && Quiet(e, p)
      && (e.out.Go? ==> (if IsToken(ch) then InName(e.p) && e.ops == Done
                         else AfterColon(e.p) && e.ops == Then(Flush(FieldName), Done)))
  {
    NameMatchKept(Matcher(p.hstate, p.index), ch);
  }

  lemma {:induction false} ValueStartKept(p: Parser, ch: char)
    requires LengthKnown(p) && DigitsSeen(p)
    ensures var e := StepHeaderValueStart(p, ch);
      Quiet(e, p) && (e.out.Go? ==> InValue(e.p) && e.ops == Then(SetMark(FieldValue), Done))
  {
    ValueStartAsks(p, ch);
    ValueStartMatches(p, ch);
  }

  lemma {:induction false} ValueStartAsks(p: Parser, ch: char)
    ensures var e := StepHeaderValueStart(p, ch);
      Quiet(e, p) && (e.out.Go? ==> e.ops == Then(SetMark(FieldValue), Done) && e.p.state.HeaderValue?)
  {}

  lemma {:induction false} ValueStartMatches(p: Parser, ch: char)
    requires LengthKnown(p) && DigitsSeen(p)
    ensures var e := StepHeaderValueStart(p, ch);
      e.out.Go? ==>
        LengthKnown(e.p) && ValueMatcher(e.p.hstate) && MatcherIndex(e.p.hstate, e.p.index) && DigitsSeen(e.p)
  {}

  lemma {:induction false} DiscardWsKept(p: Parser, ch: char)
    requires AfterColon(p) && p.state.HeaderValueDiscardWs?
    ensures var e := StepDiscardWs(p, ch);
      && Quiet(e, p)
      && (e.out.Go? ==> || (AfterColon(e.p) && e.ops == Done)
                        || (InValue(e.p) && e.ops == Then(SetMark(FieldValue), Done)))
  {
    ValueStartKept(p, ch);
  }

  lemma {:induction false} DiscardLwsKept(p: Parser, ch: char, cfg: Config)
    requires AfterColon(p) && p.state.HeaderValueDiscardLws?
    ensures var e := StepDiscardLws(p, ch, cfg);
      && !e.out.AssertFails?
      && (e.out.Go? || e.out.Exit? ==>
            || (AfterColon(e.p) && e.ops == Done && e.p.nread == p.nread && e.out.Go?)
            || (e.ops.Then? && e.ops.op == SetMark(FieldValue) &&
                e.ops.rest.Then? && e.ops.rest.op == Flush(FieldValue) &&
                LineBegun(Eff(e.p, e.ops.rest.rest, e.out), p)))
  {
    FieldStartKept(p.(flags := HeaderFlag(p.flags, p.hstate), state := HeaderFieldStart), ch, cfg);
  }

  lemma {:induction false} AddDigitKept(p: Parser, ch: char)
    requires InValue(p) && p.hstate.ContentLengthNum?
    ensures var e := AddDigit(p, ch);
      e.p.nread == p.nread && e.ops == Done && (e.out.Fail? || (e.out.Go? && InValue(e.p)))
  {}

  lemma {:induction false} TokenMatchKept(m: Matcher, ch: char)
    requires ValueMatcher(m.h) && !m.h.ContentLengthNum? && !m.h.ContentLengthWs? && MatcherIndex(m.h, m.i)
    ensures var n := MatchToken(m, ch);
      ValueMatcher(n.h) && !n.h.ContentLengthNum? && !n.h.ContentLengthWs? && MatcherIndex(n.h, n.i)
  {
    var c := Lower(ch);
    match m.h
    case MatchChunked => MatchKept(m, CHUNKED, c, TransferEncodingChunked, General);
    case MatchKeepAlive => MatchKept(m, KEEP_ALIVE, c, ConnKeepAlive, ConnToken);
    case MatchClose => MatchKept(m, CLOSE, c, ConnClose, ConnToken);
    case MatchConnUpgrade => MatchKept(m, UPGRADE, c, ConnUpgrade, ConnToken);
    case _ =>
  }

  lemma {:induction false} MatchValueKept(p: Parser, ch: char)
    requires InValue(p)
    ensures var e := MatchValue(p, ch);
      e.p.nread == p.nread && e.ops == Done && (e.out.Fail? || (e.out.Go? && InValue(e.p)))
  {
    if p.hstate.ContentLengthNum? { AddDigitKept(p, ch); }
    else if !p.hstate.ContentLengthWs? { TokenMatchKept(Matcher(p.hstate, p.index), ch); }
  }

  lemma {:induction false} ValueKept(p: Parser, ch: char)
    requires InValue(p)
    ensures var e := StepHeaderValue(p, ch);
      && Quiet(e, p)
      && (e.out.Go? ==> (if ch == CR || ch == LF then AfterValue(e.p) && e.ops == Then(Flush(FieldValue), Done)
                         else InValue(e.p) && e.ops == Done))
  {
    MatchValueKept(p, ch);
  }

  lemma {:induction false} AfterValueKept(p: Parser, ch: char, cfg: Config)
    requires AfterValue(p)
    ensures var e := StepHeaderValueLws(p, ch, cfg);
      && !e.out.AssertFails?
      && (e.out.Go? || e.out.Exit? ==>
            || (InValue(e.p) && e.ops == Then(SetMark(FieldValue), Done) && e.out.Go? && e.p.nread == p.nread)
            || LineBegun(e, p))
  {
    if ch == SP || ch == HT {
      ValueStartKept(if p.hstate.ContentLengthNum? then p.(hstate := ContentLengthWs) else p, ch);
    } else {
      FieldStartKept(p.(flags := HeaderFlag(p.flags, p.hstate), state := HeaderFieldStart), ch, cfg);
    }
  }

  lemma {:induction false} IdentityKept(p: Parser)
    requires InIdentity(p)
    ensures var e := StepBodyIdentity(p);
      && e.p.nread == p.nread
      && (|| (e.out.Go? && InIdentity(e.p) && e.ops == Then(SetMark(Body), Done))
          || ((e.out.Go? || e.out.Exit?) && Starting(e.p) &&
              e.ops == Then(SetMark(Body), Then(FlushInclusive(Body), Then(Notify(MessageComplete), Done)))))
  {
    CompleteKept(p.(contentLength := p.contentLength - 1, state := MessageDone));
  }

  lemma {:induction false} ChunkDataKept(p: Parser)
    requires InChunkData(p) && p.state.ChunkData?
    ensures var e := StepChunkData(p);
      e.p.nread == p.nread && e.out.Go? && InChunkData(e.p) && !e.p.state.ChunkDataDone? &&
      e.ops == Then(SetMark(Body), Done)
  {}

  lemma {:induction false} ChunkDataEndKept(p: Parser, ch: char)
    requires InChunkData(p)
    ensures p.state.ChunkDataAlmostDone? ==>
      var e := StepChunkDataAlmostDone(p, ch);
      Quiet(e, p) && (e.out.Go? ==> InChunkData(e.p) && e.p.state.ChunkDataDone? && e.ops == Then(Flush(Body), Done))
    ensures p.state.ChunkDataDone? ==>
      var e := StepChunkDataDone(p, ch);
      && !e.out.AssertFails? && !e.out.Exit?
      && (e.out.Go? ==> InChunkSize(e.p) && e.p.nread == 0 && e.ops == Then(Notify(ChunkComplete), Done))
  {}

  /** In a chunk-size state, with the byte already counted: a size starts at the first byte. */
  predicate InCountedSize(p: Parser) {
    p.nread > 0 && InChunkSize(p.(nread := if p.nread == 0 then 0 else p.nread - 1))
  }

  lemma {:induction false} ChunkSizeKept(p: Parser, ch: char)
    requires InCountedSize(p)
    ensures p.state.ChunkSizeStart? ==>
      var e := StepChunkSizeStart(p, ch); Quiet(e, p) && e.ops == Done && (e.out.Go? ==> InChunkSize(e.p))
    ensures p.state.ChunkSize? ==>
      var e := StepChunkSize(p, ch); Quiet(e, p) && e.ops == Done && (e.out.Go? ==> InChunkSize(e.p))
    ensures p.state.ChunkParameters? ==>
      var e := StepChunkParameters(p, ch); Quiet(e, p) && e.ops == Done && (e.out.Go? ==> InChunkSize(e.p))
  {}

  lemma {:induction false} ChunkSizeEndKept(p: Parser, ch: char)
    requires InCountedSize(p) && p.state.ChunkSizeAlmostDone?
    ensures var e := StepChunkSizeAlmostDone(p, ch);
      && !e.out.AssertFails? && !e.out.Exit?
      && (e.out.Go? ==> e.p.nread == 0 && (InLine(e.p) || (InChunkData(e.p) && e.p.state.ChunkData?)) &&
                        e.ops == Then(Notify(ChunkHeader(p.contentLength)), Done))
  {}

  // ---------- any byte ----------

  /** Between bytes with no mark set. */
  predicate Rest(p: Parser) { StateInv(p) && MayHold(p.state, Nothing) }

  /** Between bytes with mark `f` set. */
  predicate InRun(p: Parser, f: Field) { StateInv(p) && MayHold(p.state, Holds(f)) }

  lemma {:induction false} PhaseAtRest(p: Parser)
    requires || Starting(p) || InLine(p) || InMethod(p) || AfterColon(p) || AfterValue(p) || InChunkSize(p)
             || InChunkData(p) || InIdentity(p) || InEofBody(p)
    ensures Rest(p)
  {}

  lemma {:induction false} PhaseInRun(p: Parser)
    requires || InName(p) || InValue(p) || InText(p) || InIdentity(p) || InEofBody(p)
             || (InChunkData(p) && !p.state.ChunkDataDone?)
    ensures InName(p) ==> InRun(p, FieldName)
    ensures InValue(p) ==> InRun(p, FieldValue)
    ensures InText(p) ==> InRun(p, if p.state.ResStatus? then Status else Url)
    ensures InIdentity(p) || InEofBody(p) || InChunkData(p) ==> InRun(p, Body)
  {}

  /** What one byte may ask for, by the mark it starts from, and where it may lead. */
  predicate Legal(e: Eff, h: Held) {
    && !e.out.AssertFails?
    && (e.out.Go? || e.out.Exit? ==>
          && OneMark(e.ops, h)
          && (match HeldAtEnd(e.ops, h) case Nothing => Rest(e.p) case Holds(f) => e.out.Go? && InRun(e.p, f)))
  }

  predicate Fine(e: Eff, p: Parser, h: Held) { Legal(e, h) && (e.out.Go? || e.out.Exit? ==> e.p.nread <= p.nread) }

  /** The same as a value, so that the verifier takes it as a whole. */
  datatype Verdict = Sound | Unsound

  function Judge(e: Eff, p: Parser, h: Held): Verdict { if Fine(e, p, h) then Sound else Unsound }

  lemma {:induction false} EndedLegal(e: Eff)
    requires HeadersEnded(e) && (e.out.Go? || e.out.Exit?)
    ensures Legal(e, Nothing)
  {
    PhaseAtRest(e.p);
    assert OneMark(e.ops.rest, Nothing) && HeldAtEnd(e.ops.rest, Nothing) == Nothing;
  }

  lemma {:induction false} BegunLegal(e: Eff, p: Parser)
    requires LineBegun(e, p) && (e.out.Go? || e.out.Exit?)
    ensures Legal(e, Nothing)
  {
    if HeadersEnded(e) { EndedLegal(e); }
    else if InLine(e.p) { PhaseAtRest(e.p); }
    else { PhaseInRun(e.p); }
  }

  /** An effect without requests that stays in a phase without marks. */
  lemma {:induction false} PlainFine(e: Eff, p: Parser)
    requires Quiet(e, p) && e.ops == Done
    requires e.out.Go? ==> Starting(e.p) || InLine(e.p) || InMethod(e.p) || AfterColon(e.p) || AfterValue(e.p) ||
                           InChunkSize(e.p)
    ensures Fine(e, p, Nothing)
  {
    if e.out.Go? { PhaseAtRest(e.p); }
  }

  lemma {:induction false} ResponseLineFine(p: Parser, ch: char, cfg: Config)
    requires InLine(p)
    requires p.state.ResH? || p.state.ResHT? || p.state.ResHTT? || p.state.ResHTTP? || p.state.ResHttpMajor? ||
             p.state.ResHttpDot? || p.state.ResHttpMinor? || p.state.ResHttpEnd? || p.state.ResFirstStatusCode? ||
             p.state.ResLineAlmostDone?
    ensures Fine(Dispatch(p, ch, cfg), p, Nothing)
  {
    PlainFine(Dispatch(p, ch, cfg), p);
  }

  lemma {:induction false} RequestProtocolFine(p: Parser, ch: char, cfg: Config)
    requires InLine(p)
    requires p.state.ReqHttpStart? || p.state.ReqHttpH? || p.state.ReqHttpHT? || p.state.ReqHttpHTT? ||
             p.state.ReqHttpI? || p.state.ReqHttpIC?
    ensures Fine(Dispatch(p, ch, cfg), p, Nothing)
  {
    PlainFine(Dispatch(p, ch, cfg), p);
  }

  lemma {:induction false} RequestVersionFine(p: Parser, ch: char, cfg: Config)
    requires InLine(p) && (p.state.ReqHttpMajor? || p.state.ReqHttpDot? || p.state.ReqHttpMinor?)
    ensures Fine(Dispatch(p, ch, cfg), p, Nothing)
  {
    PlainFine(Dispatch(p, ch, cfg), p);
  }

  lemma {:induction false} RequestEndFine(p: Parser, ch: char, cfg: Config)
    requires InLine(p) && (p.state.ReqHttpHTTP? || p.state.ReqHttpEnd? || p.state.ReqLineAlmostDone?)
    ensures Fine(Dispatch(p, ch, cfg), p, Nothing)
  {
    PlainFine(Dispatch(p, ch, cfg), p);
  }

  lemma {:induction false} StatusCodeFine(p: Parser, ch: char)
    requires InLine(p) && p.state.ResStatusCode?
    ensures Fine(StepStatusCode(p, ch), p, Nothing)
  {
    StatusCodeKept(p, ch);
    var e := StepStatusCode(p, ch);
    if e.out.Go? { PhaseAtRest(e.p); }
  }

  lemma {:induction false} StatusStartFine(p: Parser, ch: char)
    requires InLine(p) && p.state.ResStatusStart?
    ensures Fine(StepStatusStart(p, ch), p, Nothing)
  {
    StatusStartKept(p, ch);
    var e := StepStatusStart(p, ch);
    if InText(e.p) { PhaseInRun(e.p); } else { PhaseAtRest(e.p); }
  }

  lemma {:induction false} SpacesFine(p: Parser, ch: char)
    requires InLine(p) && p.state.ReqSpacesBeforeUrl?
    ensures Fine(StepSpacesBeforeUrl(p, ch), p, Nothing)
  {
    SpacesKept(p, ch);
    var e := StepSpacesBeforeUrl(p, ch);
    if e.out.Go? { if e.ops == Done { PhaseAtRest(e.p); } else { PhaseInRun(e.p); } }
  }

  lemma {:induction false} LineFine(p: Parser, ch: char, cfg: Config)
    requires InLine(p)
    ensures p.state.HeaderFieldStart? ==> Fine(StepHeaderFieldStart(p, ch, cfg), p, Nothing)
    ensures p.state.HeadersAlmostDone? ==> Fine(StepHeadersAlmostDone(p, ch, cfg), p, Nothing)
    ensures p.state.ResOrRespH? ==> Fine(StepResOrRespH(p, ch), p, Nothing)
  {
    if p.state.HeaderFieldStart? {
      FieldStartKept(p, ch, cfg);
      var e := StepHeaderFieldStart(p, ch, cfg);
      if e.out.Go? || e.out.Exit? { BegunLegal(e, p); }
    } else if p.state.HeadersAlmostDone? {
      HeadersAlmostDoneKept(p, ch, cfg);
      var e := StepHeadersAlmostDone(p, ch, cfg);
      if e.out.Go? || e.out.Exit? { EndedLegal(e); }
    } else {
      StartResKept(p, ch);
      PlainFine(StepResOrRespH(p, ch), p);
    }
  }

  lemma {:induction false} LineStepFine(p: Parser, ch: char, cfg: Config)
    requires InLine(p)
    ensures Judge(Dispatch(p, ch, cfg), p, Nothing).Sound?
  {
    if p.state.ResStatusCode? { StatusCodeFine(p, ch); }
    else if p.state.ResStatusStart? { StatusStartFine(p, ch); }
    else if p.state.ReqSpacesBeforeUrl? { SpacesFine(p, ch); }
    else if p.state.HeaderFieldStart? || p.state.HeadersAlmostDone? || p.state.ResOrRespH? { LineFine(p, ch, cfg); }
    else if p.state.ReqHttpStart? || p.state.ReqHttpH? || p.state.ReqHttpHT? || p.state.ReqHttpHTT? ||
            p.state.ReqHttpI? || p.state.ReqHttpIC? { RequestProtocolFine(p, ch, cfg); }
    else if p.state.ReqHttpMajor? || p.state.ReqHttpDot? || p.state.ReqHttpMinor? { RequestVersionFine(p, ch, cfg); }
    else if p.state.ReqHttpHTTP? || p.state.ReqHttpEnd? || p.state.ReqLineAlmostDone? { RequestEndFine(p, ch, cfg); }
    else { ResponseLineFine(p, ch, cfg); }
  }

  lemma {:induction false} StartFine(p: Parser, ch: char)
    requires Starting(p) || InMethod(p)
    ensures p.state.StartReq? ==> Fine(StepStartReq(p, ch), p, Nothing)
    ensures p.state.StartReqOrRes? ==> Fine(StepStartReqOrRes(p, ch), p, Nothing)
    ensures p.state.StartRes? ==> Fine(StepStartRes(p, ch), p, Nothing)
    ensures p.state.ReqMethod? ==> Fine(StepReqMethod(p, ch), p, Nothing)
  {
    if p.state.StartReq? {
      StartReqKept(p, ch);
      var e := StepStartReq(p, ch);
      if e.out.Go? { PhaseAtRest(e.p); }
    } else if p.state.StartReqOrRes? {
      StartKept(p, ch);
      var e := StepStartReqOrRes(p, ch);
      if e.out.Go? { PhaseAtRest(e.p); }
    } else if p.state.StartRes? {
      StartResKept(p, ch);
      var e := StepStartRes(p, ch);
      if e.out.Go? { PhaseAtRest(e.p); }
    } else if p.state.ReqMethod? {
      MethodKept(p, ch);
      PlainFine(StepReqMethod(p, ch), p);
    }
  }

  lemma {:induction false} StartStepFine(p: Parser, ch: char, cfg: Config)
    requires Starting(p) || InMethod(p)
    ensures Judge(Dispatch(p, ch, cfg), p, Nothing).Sound?
  {
    StartFine(p, ch);
    if p.state.Dead? { PlainFine(Dispatch(p, ch, cfg), p); }
  }

  lemma {:induction false} TextFine(p: Parser, ch: char)
    requires InText(p)
    ensures p.state.ResStatus? ==> Fine(StepStatus(p, ch), p, Holds(Status))
    ensures UrlState(p.state) ==> Fine(StepUrl(p, ch), p, Holds(Url)) && Fine(StepUrlStrict(p, ch), p, Holds(Url))
  {
    if p.state.ResStatus? {
      StatusKept(p, ch);
      var e := StepStatus(p, ch);
      if e.ops == Done { PhaseInRun(e.p); } else { PhaseAtRest(e.p); }
    } else {
      UrlKept(p, ch);
      UrlEndKept(p, ch);
      var e, f := StepUrl(p, ch), StepUrlStrict(p, ch);
      if e.out.Go? { if e.ops == Done { PhaseInRun(e.p); } else { PhaseAtRest(e.p); } }
      if f.out.Go? { PhaseInRun(f.p); }
    }
  }

  lemma {:induction false} NameFine(p: Parser, ch: char)
    requires InName(p)
    ensures Fine(StepHeaderField(p, ch), p, Holds(FieldName))
  {
    NameKept(p, ch);
    var e := StepHeaderField(p, ch);
    if e.out.Go? { if e.ops == Done { PhaseInRun(e.p); } else { PhaseAtRest(e.p); } }
  }

  lemma {:induction false} TextStepFine(p: Parser, ch: char, cfg: Config)
    requires InText(p) || InName(p)
    ensures Judge(Dispatch(p, ch, cfg), p, EntryMark(p.state)).Sound?
  {
    if p.state.HeaderField? { NameFine(p, ch); } else { TextFine(p, ch); }
  }

  lemma {:induction false} EmptyRunLegal(e: Eff, f: Field)
    requires Legal(e, Nothing)
    ensures Legal(e.After(Flush(f)).After(SetMark(f)), Nothing)
  {
    var g := e.After(Flush(f));
    assert OneMark(g.ops, Holds(f)) == OneMark(e.ops, Nothing);
    assert HeldAtEnd(g.ops, Holds(f)) == HeldAtEnd(e.ops, Nothing);
  }

  lemma {:induction false} DiscardWsFine(p: Parser, ch: char)
    requires AfterColon(p) && p.state.HeaderValueDiscardWs?
    ensures Fine(StepDiscardWs(p, ch), p, Nothing)
  {
    DiscardWsKept(p, ch);
    var e := StepDiscardWs(p, ch);
    if e.out.Go? { if e.ops == Done { PhaseAtRest(e.p); } else { PhaseInRun(e.p); } }
  }

  lemma {:induction false} DiscardLwsFine(p: Parser, ch: char, cfg: Config)
    requires AfterColon(p) && p.state.HeaderValueDiscardLws?
    ensures Fine(StepDiscardLws(p, ch, cfg), p, Nothing)
  {
    DiscardLwsKept(p, ch, cfg);
    var e := StepDiscardLws(p, ch, cfg);
    if e.out.Go? || e.out.Exit? {
      if e.ops == Done {
        PhaseAtRest(e.p);
      } else {
        var rest := Eff(e.p, e.ops.rest.rest, e.out);
        BegunLegal(rest, p);
        EmptyRunLegal(rest, FieldValue);
        assert e == rest.After(Flush(FieldValue)).After(SetMark(FieldValue));
      }
    }
  }

  lemma {:induction false} ValueFine(p: Parser, ch: char, cfg: Config)
    requires InValue(p) || AfterValue(p)
    ensures p.state.HeaderValue? ==> Fine(StepHeaderValue(p, ch), p, Holds(FieldValue))
    ensures p.state.HeaderValueLws? ==> Fine(StepHeaderValueLws(p, ch, cfg), p, Nothing)
    ensures p.state.HeaderAlmostDone? ==> Fine(StepLine(p, ch, HeaderValueLws), p, Nothing)
  {
    if p.state.HeaderValue? {
      ValueKept(p, ch);
      var e := StepHeaderValue(p, ch);
      if e.out.Go? { if e.ops == Done { PhaseInRun(e.p); } else { PhaseAtRest(e.p); } }
    } else if p.state.HeaderValueLws? {
      AfterValueKept(p, ch, cfg);
      var e := StepHeaderValueLws(p, ch, cfg);
      if e.out.Go? || e.out.Exit? { if LineBegun(e, p) { BegunLegal(e, p); } else { PhaseInRun(e.p); } }
    } else {
      PlainFine(StepLine(p, ch, HeaderValueLws), p);
    }
  }

  lemma {:induction false} ColonStepFine(p: Parser, ch: char, cfg: Config)
    requires AfterColon(p)
    ensures Judge(Dispatch(p, ch, cfg), p, Nothing).Sound?
  {
    if p.state.HeaderValueDiscardWs? { DiscardWsFine(p, ch); }
    else if p.state.HeaderValueDiscardLws? { DiscardLwsFine(p, ch, cfg); }
    else { DiscardEndFine(p, ch); }
  }

  lemma {:induction false} DiscardEndFine(p: Parser, ch: char)
    requires AfterColon(p)
    ensures Fine(StepExpect(p, ch, LF, HeaderValueDiscardLws), p, Nothing)
  {
    PlainFine(StepExpect(p, ch, LF, HeaderValueDiscardLws), p);
  }

  lemma {:induction false} ValueStepFine(p: Parser, ch: char, cfg: Config)
    requires InValue(p) || AfterValue(p)
    ensures Judge(Dispatch(p, ch, cfg), p, EntryMark(p.state)).Sound?
  {
    ValueFine(p, ch, cfg);
  }

  lemma {:induction false} IdentityFine(p: Parser, h: Held)
    requires InIdentity(p) && MayHold(p.state, h)
    ensures Fine(StepBodyIdentity(p), p, h)
  {
    IdentityKept(p);
    var e := StepBodyIdentity(p);
    if InIdentity(e.p) { PhaseInRun(e.p); } else { PhaseAtRest(e.p); }
  }

  lemma {:induction false} ChunkDataFine(p: Parser, ch: char, h: Held)
    requires InChunkData(p) && MayHold(p.state, h)
    ensures p.state.ChunkData? ==> Fine(StepChunkData(p), p, h)
    ensures p.state.ChunkDataAlmostDone? ==> Fine(StepChunkDataAlmostDone(p, ch), p, h)
    ensures p.state.ChunkDataDone? ==> Fine(StepChunkDataDone(p, ch), p, h)
  {
    if p.state.ChunkData? {
      ChunkDataKept(p);
      PhaseInRun(StepChunkData(p).p);
    } else {
      ChunkDataEndKept(p, ch);
      var e := if p.state.ChunkDataDone? then StepChunkDataDone(p, ch) else StepChunkDataAlmostDone(p, ch);
      if e.out.Go? { PhaseAtRest(e.p); }
    }
  }

  lemma {:induction false} IdentityStepFine(p: Parser, ch: char, cfg: Config, h: Held)
    requires (InIdentity(p) || InEofBody(p)) && MayHold(p.state, h)
    ensures Judge(Dispatch(p, ch, cfg), p, h).Sound?
  {
    if p.state.BodyIdentity? { IdentityFine(p, h); } else { PhaseInRun(p); }
  }

  lemma {:induction false} ChunkDataStepFine(p: Parser, ch: char, cfg: Config, h: Held)
    requires InChunkData(p) && MayHold(p.state, h)
    ensures Judge(Dispatch(p, ch, cfg), p, h).Sound?
  {
    ChunkDataFine(p, ch, h);
  }

  lemma {:induction false} SizeFine(p: Parser, ch: char)
    requires InCountedSize(p)
    ensures p.state.ChunkSizeStart? ==> Fine(StepChunkSizeStart(p, ch), p, Nothing)
    ensures p.state.ChunkSize? ==> Fine(StepChunkSize(p, ch), p, Nothing)
    ensures p.state.ChunkParameters? ==> Fine(StepChunkParameters(p, ch), p, Nothing)
  {
    ChunkSizeKept(p, ch);
    if p.state.ChunkSizeStart? { PlainFine(StepChunkSizeStart(p, ch), p); }
    else if p.state.ChunkSize? { PlainFine(StepChunkSize(p, ch), p); }
    else if p.state.ChunkParameters? { PlainFine(StepChunkParameters(p, ch), p); }
  }

  lemma {:induction false} SizeEndFine(p: Parser, ch: char)
    requires InCountedSize(p) && p.state.ChunkSizeAlmostDone?
    ensures Fine(StepChunkSizeAlmostDone(p, ch), p, Nothing)
  {
    ChunkSizeEndKept(p, ch);
    var e := StepChunkSizeAlmostDone(p, ch);
    if e.out.Go? { PhaseAtRest(e.p); }
  }

  lemma {:induction false} SizeStepFine(p: Parser, ch: char, cfg: Config)
    requires InCountedSize(p)
    ensures Judge(Dispatch(p, ch, cfg), p, Nothing).Sound?
  {
    if p.state.ChunkSizeAlmostDone? { SizeEndFine(p, ch); } else { SizeFine(p, ch); }
  }

  /** The invariant once the byte has been counted. */
  predicate CountedInv(p: Parser) {
    || Starting(p) || InLine(p) || InText(p) || InMethod(p) || InName(p) || AfterColon(p) || InValue(p)
    || AfterValue(p) || InCountedSize(p) || InChunkData(p) || InIdentity(p) || InEofBody(p)
  }

  lemma {:induction false} NoMarkAtStart(p: Parser)
    ensures Starting(p) || InMethod(p) || InLine(p) ==> EntryMark(p.state).Nothing?
  {}

  lemma {:induction false} HeadStepFine(p: Parser, ch: char, cfg: Config)
    requires Starting(p) || InMethod(p) || InLine(p) || InText(p) || InName(p)
    ensures Judge(Dispatch(p, ch, cfg), p, EntryMark(p.state)).Sound?
  {
    NoMarkAtStart(p);
    if Starting(p) || InMethod(p) { StartStepFine(p, ch, cfg); }
    else if InLine(p) { LineStepFine(p, ch, cfg); }
    else { TextStepFine(p, ch, cfg); }
  }

  lemma {:induction false} DispatchFine(p: Parser, ch: char, cfg: Config, h: Held)
    requires CountedInv(p) && MayHold(p.state, h)
    ensures Judge(Dispatch(p, ch, cfg), p, h).Sound?
  {
    if AfterColon(p) { ColonStepFine(p, ch, cfg); }
    else if InValue(p) || AfterValue(p) { ValueStepFine(p, ch, cfg); }
    else if InCountedSize(p) { SizeStepFine(p, ch, cfg); }
    else if InChunkData(p) { ChunkDataStepFine(p, ch, cfg, h); }
    else if InIdentity(p) || InEofBody(p) { IdentityStepFine(p, ch, cfg, h); }
    else { HeadStepFine(p, ch, cfg); }
  }

  /** The parser the switch sees: COUNT_HEADER_SIZE(1) has been applied. */
  function Counted(p: Parser): Parser { if ParsingHeader(p.state) then p.(nread := p.nread + 1) else p }

  lemma {:induction false} CountedKept(p: Parser)
    requires StateInv(p)
    ensures CountedInv(Counted(p))
  {}

  /** From every state that satisfies the invariant, with the marks it may hold, one byte
      breaks no C assertion, uses one mark at a time, and keeps the invariant. */
  lemma {:induction false} StepLegal(p: Parser, ch: char, cfg: Config, h: Held)
    requires Inv(p, cfg.maxHeader) && MayHold(p.state, h)
    ensures Legal(Step(p, ch, cfg), h)
    ensures var e := Step(p, ch, cfg); e.out.Go? || e.out.Exit? ==> Inv(e.p, cfg.maxHeader)
  {
    CountedKept(p);
    if Counted(p).nread <= cfg.maxHeader {
      DispatchFine(Counted(p), ch, cfg, h);
    }
  }
}
