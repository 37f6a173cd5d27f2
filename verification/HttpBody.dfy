/** The parser and the reader of its callbacks stay in step, so bodies are conserved. */
module HttpBody {
  import opened HttpChars
  import opened HttpParser
  import opened HttpInvariant
  import opened HttpTrace
  import opened HttpRun
  import opened HttpExecute
  import opened HttpSegments
  import opened HttpWatch

  /** Where the reader must stand when the parser is `p`. */
  function WatchOf(p: Parser): Watch { WatchIn(p.state, p.flags, p.contentLength) }

  function WatchIn(s: State, f: Flags, length: nat): Watch {
    match s
    case Dead => Idle
    case StartReqOrRes => Idle
    case StartRes => Idle
    case StartReq => Idle
    case BodyIdentity => Fixed(length)
    case BodyIdentityEof => UntilEof
    case ChunkData => Chunk(length)
    case ChunkDataAlmostDone => Chunk(0)
    case ChunkDataDone => Chunk(0)
    case ChunkSizeStart => Chunks
    case ChunkSize => Chunks
    case ChunkParameters => Chunks
    case ChunkSizeAlmostDone => Chunks
    case _ => HeadWatch(f)
  }

  function HeadWatch(f: Flags): Watch { if f.trailing then Trailer else if f.skipBody then Wrong else Head }

  predicate HeadState(s: State) {
    || LineState(s) || UrlState(s) || s.ResStatus? || s.ReqMethod? || s.HeaderField? || s.HeaderValueDiscardWs?
    || s.HeaderValueDiscardWsAlmostDone? || s.HeaderValueDiscardLws? || s.HeaderValue? || s.HeaderValueLws?
    || s.HeaderAlmostDone?
  }

  lemma {:induction false} HeadStateWatch(p: Parser)
    requires HeadState(p.state)
    ensures WatchOf(p) == HeadWatch(p.flags) && !BodyState(p.state)
  {}

  predicate BodyState(s: State) { s.BodyIdentity? || s.BodyIdentityEof? || s.ChunkData? }

  /** What one byte does to the reader. */
  predicate Watched(p: Parser, e: Eff) {
    e.out.Go? || e.out.Exit? ==>
      && SeeOps(WatchOf(p), e.ops, EntryMark(p.state), e.out.Go?) == WatchOf(e.p) != Wrong
      && BodyOps(e.ops, EntryMark(p.state), e.out.Go?) == if BodyState(p.state) then 1 else 0
  }

  // ---------- inside the head ----------

  /** No notice, no body text. */
  predicate HeadOps(ops: Ops) {
    match ops
    case Done => true
    case Then(op, rest) => !op.Notify? && op.f != Body && HeadOps(rest)
  }

  predicate StaysInHead(p: Parser, e: Eff) {
    e.out.Go? ==>
      HeadState(e.p.state) && e.p.flags.trailing == p.flags.trailing && e.p.flags.skipBody == p.flags.skipBody &&
        HeadOps(e.ops)
  }

  lemma {:induction false} HeadOpsSeen(w: Watch, ops: Ops, h: Held, go: bool)
    requires (w.Head? || w.Trailer?) && HeadOps(ops) && h != Holds(Body)
    ensures SeeOps(w, ops, h, go) == w && BodyOps(ops, h, go) == 0
    decreases ops
  {
    match ops
    case Done =>
    case Then(op, rest) => HeadOpsSeen(w, rest, HeldAfter(op, h), go);
  }

  lemma {:induction false} HeadWatched(p: Parser, e: Eff)
    requires HeadState(p.state) && !WatchOf(p).Wrong? && StaysInHead(p, e) && !e.out.Exit?
    ensures Watched(p, e)
  {
    HeadStateWatch(p);
    if e.out.Go? {
      HeadStateWatch(e.p);
      HeadOpsSeen(WatchOf(p), e.ops, EntryMark(p.state), true);
    }
  }

  // ---------- the end of the head ----------

  lemma {:induction false} CompleteSeen(q: Parser, out: Outcome)
    requires out.Go? || out.Exit?
    ensures var e := Complete(q).(out := out);
      SeeOps(Fixed(0), e.ops, Nothing, out.Go?) == Idle == WatchOf(e.p) && BodyOps(e.ops, Nothing, out.Go?) == 0
  {
    var e := Complete(q).(out := out);
    assert e.ops == Then(Notify(MessageComplete), Done);
    assert SeeOps(Idle, Done, Nothing, out.Go?) == Idle;
  }

  /** What the reader is told at the end of the headers. */
  function NoticeOf(q: Parser, answer: int): Notice {
    HeadersComplete(q.flags.chunked, q.contentLength, q.upgrade, q.verb == METHOD_CONNECT, answer, NeedsEof(q))
  }

  /** The parser completes the message at once, or enters the body that `w` says. */
  predicate Enters(w: Watch, r: Parser, e: Eff) {
    || (w == Fixed(0) && (e == Complete(r) || e == Complete(r).(out := Exit)))
    || (w == WatchOf(e.p) != Wrong && e.ops == Done && e.out.Go?)
  }

  lemma {:induction false} SkipBodyEnters(q: Parser, answer: int)
    requires 1 <= answer <= 2 && (q.flags.chunked ==> q.contentLength == ULLONG_MAX)
    ensures Enters(Framing(NoticeOf(q, answer)), Answered(q, answer).(nread := 0),
      StepHeadersDone(Answered(q, answer), LF))
  {
    var r := Answered(q, answer);
    assert r.flags.skipBody;
  }

  lemma {:induction false} BodyEnters(q: Parser)
    requires !q.flags.skipBody && (q.flags.chunked ==> q.contentLength == ULLONG_MAX)
    ensures Enters(Framing(NoticeOf(q, 0)), q.(nread := 0), StepHeadersDone(q, LF))
  {
    var r := q.(nread := 0);
    assert NeedsEof(r) == NeedsEof(q);
  }

  lemma {:induction false} EntersFollows(w: Watch, r: Parser, e: Eff)
    requires Enters(w, r, e)
    ensures Follows(w, e)
  {
    CompleteSeen(r, Exit);
    CompleteSeen(r, Go);
  }

  lemma {:induction false} HeadersDoneSeen(q: Parser, answer: int, r: Parser, w: Watch, e: Eff)
    requires !q.flags.skipBody && (q.flags.chunked ==> q.contentLength == ULLONG_MAX)
    requires 0 <= answer <= 2 && r == Answered(q, answer) && w == Framing(NoticeOf(q, answer)) &&
      e == StepHeadersDone(r, LF)
    ensures Follows(w, e)
  {
    if answer == 0 { BodyEnters(q); } else { SkipBodyEnters(q, answer); }
    EntersFollows(w, r.(nread := 0), e);
  }

  lemma {:induction false} TrailerSeen(p: Parser)
    ensures var e := StepMessageDone(p.(state := MessageDone)).After(Notify(ChunkComplete));
      SeeOps(Trailer, e.ops, Nothing, e.out.Go?) == WatchOf(e.p) == Idle && BodyOps(e.ops, Nothing, e.out.Go?) == 0
  {
    var q := p.(state := MessageDone);
    CompleteSeen(q, Go);
    CompleteSeen(q, Exit);
  }

  /** The reader in state `w`, with no mark set, follows the effect `e`. */
  predicate Follows(w: Watch, e: Eff) {
    e.out.Go? || e.out.Exit? ==>
      SeeOps(w, e.ops, Nothing, e.out.Go?) == WatchOf(e.p) != Wrong && BodyOps(e.ops, Nothing, e.out.Go?) == 0
  }

  lemma {:induction false} AlmostDoneSeen(p: Parser, ch: char, cfg: Config)
    requires LengthKnown(p) && !HeadWatch(p.flags).Wrong?
    ensures Follows(HeadWatch(p.flags), StepHeadersAlmostDone(p, ch, cfg))
  {
    if ch == LF && p.flags.trailing { TrailerSeen(p); }
    else if ch == LF && !(p.flags.chunked && p.flags.contentLength) {
      var q := SetUpgrade(p.(state := HeadersDone));
      var answer := cfg.onHeadersComplete(q.(nread := 0));
      if 0 <= answer <= 2 {
        var r := Answered(q, answer);
        HeadersDoneSeen(q, answer, r, Framing(NoticeOf(q, answer)), StepHeadersDone(r, LF));
      }
    }
  }

  lemma {:induction false} FieldStartSeen(p: Parser, ch: char, cfg: Config)
    requires LengthKnown(p) && !HeadWatch(p.flags).Wrong?
    ensures Follows(HeadWatch(p.flags), StepHeaderFieldStart(p, ch, cfg))
  {
    AlmostDoneSeen(p.(state := HeadersAlmostDone), ch, cfg);
    var e := StepHeaderFieldStart(p, ch, cfg);
    if e.out.Go? && ch != LF { HeadOpsSeen(HeadWatch(p.flags), e.ops, Nothing, true); }
  }

  /** From a state of the head that holds no mark. */
  lemma {:induction false} FollowsWatched(p: Parser, e: Eff)
    requires HeadState(p.state) && EntryMark(p.state).Nothing? && Follows(HeadWatch(p.flags), e)
    ensures Watched(p, e)
  {
    HeadStateWatch(p);
  }

  // ---------- one byte, state by state ----------

  lemma {:induction false} PlainWatched(p: Parser, e: Eff)
    requires e.ops == Done && WatchOf(e.p) == WatchOf(p) != Wrong && EntryMark(p.state).Nothing? && !BodyState(p.state)
    ensures Watched(p, e)
  {}

  lemma {:induction false} NoteWatched(p: Parser, e: Eff, n: Notice)
    requires e.ops == Then(Notify(n), Done) && WatchOf(e.p) == Told(WatchOf(p), n) != Wrong
    requires EntryMark(p.state).Nothing? && !BodyState(p.state)
    ensures Watched(p, e)
  {
    assert SeeOps(WatchOf(e.p), Done, Nothing, e.out.Go?) == WatchOf(e.p);
    assert BodyOps(Done, Nothing, e.out.Go?) == 0;
  }

  lemma {:induction false} BodyByteWatched(p: Parser, e: Eff)
    requires e.ops == Then(SetMark(Body), Done) && WatchOf(e.p) == Saw(WatchOf(p), Body, 1) != Wrong && e.out.Go?
    requires BodyState(p.state)
    ensures Watched(p, e)
  {
    assert SeeOps(WatchOf(p), Done, Holds(Body), true) == WatchOf(e.p);
    assert BodyOps(Done, Holds(Body), true) == 1;
  }

  lemma {:induction false} StartReqWatched(p: Parser, ch: char)
    requires p.state.StartReq?
    ensures Watched(p, StepStartReq(p, ch))
  {
    var e := StepStartReq(p, ch);
    if e.out.Go? { if e.ops == Done { PlainWatched(p, e); } else { NoteWatched(p, e, MessageBegin); } }
  }

  lemma {:induction false} StartResWatched(p: Parser, ch: char)
    requires p.state.StartRes?
    ensures Watched(p, StepStartRes(p, ch))
  {
    var e := StepStartRes(p, ch);
    if e.out.Go? { if e.ops == Done { PlainWatched(p, e); } else { NoteWatched(p, e, MessageBegin); } }
  }

  lemma {:induction false} StartBothWatched(p: Parser, ch: char)
    requires p.state.StartReqOrRes?
    ensures Watched(p, StepStartReqOrRes(p, ch))
  {
    var e := StepStartReqOrRes(p, ch);
    if ch == 'H' { NoteWatched(p, e, MessageBegin); }
    else if ch == CR || ch == LF { PlainWatched(p, e); }
    else { StartReqWatched(Begin(p).(kind := Request, state := StartReq), ch); }
  }

  lemma {:induction false} LineStays(p: Parser, ch: char)
    requires InLine(p)
    ensures p.state.ResStatusCode? ==> StaysInHead(p, StepStatusCode(p, ch))
    ensures p.state.ResStatusStart? ==> StaysInHead(p, StepStatusStart(p, ch))
    ensures p.state.ReqSpacesBeforeUrl? ==> StaysInHead(p, StepSpacesBeforeUrl(p, ch))
    ensures p.state.ResOrRespH? ==> StaysInHead(p, StepResOrRespH(p, ch))
  {
    assert HeadOps(Then(SetMark(Status), Then(Flush(Status), Done)));
  }

  predicate PlainLine(s: State) {
    LineState(s) && !s.ResStatusCode? && !s.ResStatusStart? && !s.ReqSpacesBeforeUrl? && !s.ResOrRespH? &&
    !s.HeaderFieldStart? && !s.HeadersAlmostDone?
  }

  lemma {:induction false} PlainLineStays(p: Parser, ch: char, cfg: Config)
    requires PlainLine(p.state)
    ensures StaysInHead(p, Dispatch(p, ch, cfg)) && !Dispatch(p, ch, cfg).out.Exit?
  {}

  lemma {:induction false} OtherLineWatched(p: Parser, ch: char, cfg: Config)
    requires InLine(p) && !p.state.HeaderFieldStart? && !p.state.HeadersAlmostDone? && !WatchOf(p).Wrong?
    ensures Watched(p, Dispatch(p, ch, cfg))
  {
    if PlainLine(p.state) { PlainLineStays(p, ch, cfg); } else { LineStays(p, ch); }
    LineStepFine(p, ch, cfg);
    HeadWatched(p, Dispatch(p, ch, cfg));
  }

  lemma {:induction false} LineWatched(p: Parser, ch: char, cfg: Config)
    requires InLine(p) && !WatchOf(p).Wrong?
    ensures Watched(p, Dispatch(p, ch, cfg))
  {
    if p.state.HeaderFieldStart? {
      FieldStartSeen(p, ch, cfg);
      FollowsWatched(p, StepHeaderFieldStart(p, ch, cfg));
    } else if p.state.HeadersAlmostDone? {
      AlmostDoneSeen(p, ch, cfg);
      FollowsWatched(p, StepHeadersAlmostDone(p, ch, cfg));
    } else {
      OtherLineWatched(p, ch, cfg);
    }
  }

  lemma {:induction false} TextStays(p: Parser, ch: char)
    requires InText(p) || InMethod(p)
    ensures p.state.ResStatus? ==> StaysInHead(p, StepStatus(p, ch))
    ensures UrlState(p.state) ==> StaysInHead(p, StepUrl(p, ch)) && StaysInHead(p, StepUrlStrict(p, ch))
    ensures p.state.ReqMethod? ==> StaysInHead(p, StepReqMethod(p, ch))
  {
    assert HeadOps(Then(Flush(Url), Done));
  }

  /** The flags that decide how a message goes on are not touched. */
  predicate SameFraming(f: Flags, g: Flags) { f.trailing == g.trailing && f.skipBody == g.skipBody }

  lemma {:induction false} AddDigitFraming(p: Parser, ch: char)
    ensures AddDigit(p, ch).p.flags == p.flags
  {}

  lemma {:induction false} ConnFraming(f: Flags, h: HeaderState)
    ensures SameFraming(ConnFlag(f, h), f)
  {}

  lemma {:induction false} MatchValueFraming(p: Parser, ch: char)
    ensures SameFraming(MatchValue(p, ch).p.flags, p.flags)
  {
    AddDigitFraming(p, ch);
    AddDigitFraming(p.(hstate := ContentLengthNum), ch);
    ConnFraming(p.flags, p.hstate);
  }

  lemma {:induction false} MatchValueStays(p: Parser, ch: char)
    requires InValue(p)
    ensures StaysInHead(p, MatchValue(p, ch))
  {
    MatchValueFraming(p, ch);
    MatchValueKept(p, ch);
  }

  lemma {:induction false} ValueStartStays(p: Parser, ch: char, q: Parser)
    requires LengthKnown(p) && DigitsSeen(p) && SameFraming(p.flags, q.flags)
    ensures StaysInHead(q, StepHeaderValueStart(p, ch))
  {
    ValueStartKept(p, ch);
    ValueStartFraming(p, ch);
  }

  lemma {:induction false} ValueStartFraming(p: Parser, ch: char)
    ensures SameFraming(StepHeaderValueStart(p, ch).p.flags, p.flags)
  {}

  lemma {:induction false} ValueStays(p: Parser, ch: char)
    requires InValue(p)
    ensures StaysInHead(p, StepHeaderValue(p, ch))
  {
    if ch == CR || ch == LF {
      assert HeadOps(Then(Flush(FieldValue), Done));
    } else if p.lenient || IsHeaderChar(ch) {
      MatchValueStays(p, ch);
    }
  }

  lemma {:induction false} NameStays(p: Parser, ch: char)
    requires p.state.HeaderField?
    ensures StaysInHead(p, StepHeaderField(p, ch))
  {
    assert HeadOps(Then(Flush(FieldName), Done));
  }

  lemma {:induction false} DiscardWsStays(p: Parser, ch: char)
    requires AfterColon(p) && p.state.HeaderValueDiscardWs?
    ensures StaysInHead(p, StepDiscardWs(p, ch))
  {
    ValueStartStays(p, ch, p);
  }

  lemma {:induction false} MethodWatched(p: Parser, ch: char, cfg: Config)
    requires InMethod(p) && !WatchOf(p).Wrong?
    ensures Watched(p, Dispatch(p, ch, cfg))
  {
    TextStays(p, ch);
    StartStepFine(p, ch, cfg);
    HeadWatched(p, Dispatch(p, ch, cfg));
  }

  lemma {:induction false} TextDispatch(p: Parser, ch: char, cfg: Config)
    requires InText(p)
    ensures var e := Dispatch(p, ch, cfg);
      if p.state.ResStatus? then e == StepStatus(p, ch) else e == StepUrl(p, ch) || e == StepUrlStrict(p, ch)
  {}

  lemma {:induction false} TextByteWatched(p: Parser, ch: char, e: Eff)
    requires InText(p) && !WatchOf(p).Wrong?
    requires if p.state.ResStatus? then e == StepStatus(p, ch) else e == StepUrl(p, ch) || e == StepUrlStrict(p, ch)
    ensures Watched(p, e)
  {
    TextStays(p, ch);
    if p.state.ResStatus? {
      StatusKept(p, ch);
    } else {
      UrlKept(p, ch);
      UrlEndKept(p, ch);
    }
    HeadWatched(p, e);
  }

  lemma {:induction false} TextWatched(p: Parser, ch: char, cfg: Config)
    requires InText(p) && !WatchOf(p).Wrong?
    ensures Watched(p, Dispatch(p, ch, cfg))
  {
    TextDispatch(p, ch, cfg);
    TextByteWatched(p, ch, Dispatch(p, ch, cfg));
  }

  lemma {:induction false} HeaderWatched(p: Parser, ch: char, e: Eff)
    requires !WatchOf(p).Wrong?
    requires || (InName(p) && e == StepHeaderField(p, ch)) || (InValue(p) && e == StepHeaderValue(p, ch))
             || (AfterColon(p) && p.state.HeaderValueDiscardWs? && e == StepDiscardWs(p, ch))
    ensures Watched(p, e)
  {
    if InName(p) { NameKept(p, ch); NameStays(p, ch); }
    else if InValue(p) { ValueKept(p, ch); ValueStays(p, ch); }
    else { DiscardWsKept(p, ch); DiscardWsStays(p, ch); }
    HeadWatched(p, e);
  }

  /** An empty header value is reported as empty text. */
  lemma {:induction false} EmptyValueFollows(w: Watch, e: Eff)
    requires (w.Head? || w.Trailer?) && Follows(w, e)
    ensures Follows(w, e.After(Flush(FieldValue)).After(SetMark(FieldValue)))
  {
    var g := e.After(Flush(FieldValue));
    assert SeeOps(w, g.ops, Holds(FieldValue), e.out.Go?) == SeeOps(w, e.ops, Nothing, e.out.Go?);
    assert BodyOps(g.ops, Holds(FieldValue), e.out.Go?) == BodyOps(e.ops, Nothing, e.out.Go?);
  }

  lemma {:induction false} LwsWatched(p: Parser, ch: char, cfg: Config)
    requires AfterColon(p) && p.state.HeaderValueDiscardLws? && !WatchOf(p).Wrong?
    ensures Watched(p, StepDiscardLws(p, ch, cfg))
  {
    var e := StepDiscardLws(p, ch, cfg);
    if ch == SP || ch == HT {
      HeadWatched(p, e);
    } else if !p.hstate.ContentLength? {
      var q := p.(flags := HeaderFlag(p.flags, p.hstate), state := HeaderFieldStart);
      FieldStartSeen(q, ch, cfg);
      EmptyValueFollows(HeadWatch(p.flags), StepHeaderFieldStart(q, ch, cfg));
      FollowsWatched(p, e);
    }
  }

  lemma {:induction false} ValueLwsWatched(p: Parser, ch: char, cfg: Config)
    requires AfterValue(p) && p.state.HeaderValueLws? && !WatchOf(p).Wrong?
    ensures Watched(p, StepHeaderValueLws(p, ch, cfg))
  {
    var e := StepHeaderValueLws(p, ch, cfg);
    if ch == SP || ch == HT {
      var q := if p.hstate.ContentLengthNum? then p.(hstate := ContentLengthWs) else p;
      ValueStartStays(q, ch, p);
      ValueStartKept(q, ch);
      HeadWatched(p, e);
    } else {
      FieldStartSeen(p.(flags := HeaderFlag(p.flags, p.hstate), state := HeaderFieldStart), ch, cfg);
      FollowsWatched(p, e);
    }
  }

  lemma {:induction false} SizeStartWatched(p: Parser, ch: char)
    requires p.state.ChunkSizeStart?
    ensures Watched(p, StepChunkSizeStart(p, ch))
  {
    var e := StepChunkSizeStart(p, ch);
    if e.out.Go? { PlainWatched(p, e); }
  }

  lemma {:induction false} SizeWatched(p: Parser, ch: char)
    requires p.state.ChunkSize?
    ensures Watched(p, StepChunkSize(p, ch))
  {
    var e := StepChunkSize(p, ch);
    if e.out.Go? { PlainWatched(p, e); }
  }

  lemma {:induction false} ParametersWatched(p: Parser, ch: char)
    requires p.state.ChunkParameters?
    ensures Watched(p, StepChunkParameters(p, ch))
  {
    var e := StepChunkParameters(p, ch);
    if e.out.Go? { PlainWatched(p, e); }
  }

  lemma {:induction false} SizeEndWatched(p: Parser, ch: char)
    requires InCountedSize(p) && p.state.ChunkSizeAlmostDone?
    ensures Watched(p, StepChunkSizeAlmostDone(p, ch))
  {
    var e := StepChunkSizeAlmostDone(p, ch);
    if e.out.Go? { NoteWatched(p, e, ChunkHeader(p.contentLength)); }
  }

  lemma {:induction false} ChunkDataWatched(p: Parser)
    requires InChunkData(p) && p.state.ChunkData?
    ensures Watched(p, StepChunkData(p))
  {
    BodyByteWatched(p, StepChunkData(p));
  }

  lemma {:induction false} FlushWatched(p: Parser, e: Eff)
    requires e.ops == Then(Flush(Body), Done) && WatchOf(e.p) == WatchOf(p) != Wrong && EntryMark(p.state).Nothing? &&
      !BodyState(p.state)
    ensures Watched(p, e)
  {
    assert SeeOps(WatchOf(p), Done, Nothing, e.out.Go?) == WatchOf(p) && BodyOps(Done, Nothing, e.out.Go?) == 0;
  }

  lemma {:induction false} ChunkEndWatched(p: Parser, ch: char)
    requires p.state.ChunkDataAlmostDone?
    ensures Watched(p, StepChunkDataAlmostDone(p, ch))
  {
    var e := StepChunkDataAlmostDone(p, ch);
    if e.out.Go? { FlushWatched(p, e); }
  }

  lemma {:induction false} ChunkDoneWatched(p: Parser, ch: char)
    requires p.state.ChunkDataDone?
    ensures Watched(p, StepChunkDataDone(p, ch))
  {
    var e := StepChunkDataDone(p, ch);
    if e.out.Go? { NoteWatched(p, e, ChunkComplete); }
  }

  lemma {:induction false} LastByteWatched(p: Parser, e: Eff)
    requires p.state.BodyIdentity? && WatchOf(p) == Fixed(1) && Follows(Fixed(0), e) &&
      BodyOps(e.ops, Nothing, e.out.Go?) == 0
    ensures Watched(p, e.After(FlushInclusive(Body)).After(SetMark(Body)))
  {
    var f := e.After(FlushInclusive(Body));
    assert SeeOps(Fixed(1), f.ops, Holds(Body), e.out.Go?) == SeeOps(Fixed(0), e.ops, Nothing, e.out.Go?);
    assert BodyOps(f.ops, Holds(Body), e.out.Go?) == 1;
  }

  lemma {:induction false} IdentityWatched(p: Parser)
    requires InIdentity(p)
    ensures Watched(p, StepBodyIdentity(p))
  {
    if p.contentLength == 1 {
      var q := p.(contentLength := 0, state := MessageDone);
      CompleteSeen(q, Go);
      CompleteSeen(q, Exit);
      LastByteWatched(p, StepMessageDone(q));
    } else {
      BodyByteWatched(p, StepBodyIdentity(p));
    }
  }

  // ---------- any byte ----------

  lemma {:induction false} SizeDispatch(p: Parser, ch: char, cfg: Config)
    ensures p.state.ChunkSizeStart? ==> Dispatch(p, ch, cfg) == StepChunkSizeStart(p, ch)
    ensures p.state.ChunkSize? ==> Dispatch(p, ch, cfg) == StepChunkSize(p, ch)
    ensures p.state.ChunkParameters? ==> Dispatch(p, ch, cfg) == StepChunkParameters(p, ch)
    ensures p.state.ChunkSizeAlmostDone? ==> Dispatch(p, ch, cfg) == StepChunkSizeAlmostDone(p, ch)
  {}

  lemma {:induction false} DataDispatch(p: Parser, ch: char, cfg: Config)
    ensures p.state.ChunkData? ==> Dispatch(p, ch, cfg) == StepChunkData(p)
    ensures p.state.ChunkDataAlmostDone? ==> Dispatch(p, ch, cfg) == StepChunkDataAlmostDone(p, ch)
    ensures p.state.ChunkDataDone? ==> Dispatch(p, ch, cfg) == StepChunkDataDone(p, ch)
    ensures p.state.BodyIdentity? ==> Dispatch(p, ch, cfg) == StepBodyIdentity(p)
    ensures p.state.BodyIdentityEof? ==> Dispatch(p, ch, cfg) == Ask(p, SetMark(Body))
  {}

  lemma {:induction false} BodyPhaseWatched(p: Parser, ch: char, cfg: Config)
    requires InCountedSize(p) || InChunkData(p) || InIdentity(p) || InEofBody(p)
    ensures Watched(p, Dispatch(p, ch, cfg))
  {
    SizeDispatch(p, ch, cfg);
    DataDispatch(p, ch, cfg);
    match p.state
    case ChunkSizeStart => SizeStartWatched(p, ch);
    case ChunkSize => SizeWatched(p, ch);
    case ChunkParameters => ParametersWatched(p, ch);
    case ChunkSizeAlmostDone => SizeEndWatched(p, ch);
    case ChunkData => ChunkDataWatched(p);
    case ChunkDataAlmostDone => ChunkEndWatched(p, ch);
    case ChunkDataDone => ChunkDoneWatched(p, ch);
    case BodyIdentity => IdentityWatched(p);
    case BodyIdentityEof => BodyByteWatched(p, Ask(p, SetMark(Body)));
  }

  lemma {:induction false} StartDispatch(p: Parser, ch: char, cfg: Config)
    ensures p.state.StartReq? ==> Dispatch(p, ch, cfg) == StepStartReq(p, ch)
    ensures p.state.StartRes? ==> Dispatch(p, ch, cfg) == StepStartRes(p, ch)
    ensures p.state.StartReqOrRes? ==> Dispatch(p, ch, cfg) == StepStartReqOrRes(p, ch)
    ensures p.state.Dead? ==> Dispatch(p, ch, cfg) == if ch == CR || ch == LF then Next(p)
      else Error(p, ClosedConnection)
  {}

  lemma {:induction false} HeaderDispatch(p: Parser, ch: char, cfg: Config)
    ensures p.state.HeaderField? ==> Dispatch(p, ch, cfg) == StepHeaderField(p, ch)
    ensures p.state.HeaderValue? ==> Dispatch(p, ch, cfg) == StepHeaderValue(p, ch)
    ensures p.state.HeaderValueDiscardWs? ==> Dispatch(p, ch, cfg) == StepDiscardWs(p, ch)
  {}

  lemma {:induction false} LwsDispatch(p: Parser, ch: char, cfg: Config)
    ensures p.state.HeaderValueDiscardWsAlmostDone? ==>
      Dispatch(p, ch, cfg) == StepExpect(p, ch, LF, HeaderValueDiscardLws)
    ensures p.state.HeaderAlmostDone? ==> Dispatch(p, ch, cfg) == StepLine(p, ch, HeaderValueLws)
    ensures p.state.HeaderValueDiscardLws? ==> Dispatch(p, ch, cfg) == StepDiscardLws(p, ch, cfg)
    ensures p.state.HeaderValueLws? ==> Dispatch(p, ch, cfg) == StepHeaderValueLws(p, ch, cfg)
  {}

  lemma {:induction false} StartPhaseWatched(p: Parser, ch: char, cfg: Config)
    requires Starting(p)
    ensures Watched(p, Dispatch(p, ch, cfg))
  {
    StartDispatch(p, ch, cfg);
    match p.state
    case StartReq => StartReqWatched(p, ch);
    case StartRes => StartResWatched(p, ch);
    case StartReqOrRes => StartBothWatched(p, ch);
    case Dead => if ch == CR || ch == LF { PlainWatched(p, Next(p)); }
  }

  lemma {:induction false} HeaderPhaseWatched(p: Parser, ch: char, cfg: Config)
    requires (InName(p) || AfterColon(p) || InValue(p) || AfterValue(p)) && !WatchOf(p).Wrong?
    ensures Watched(p, Dispatch(p, ch, cfg))
  {
    var e := Dispatch(p, ch, cfg);
    HeaderDispatch(p, ch, cfg);
    LwsDispatch(p, ch, cfg);
    match p.state
    case HeaderField => HeaderWatched(p, ch, e);
    case HeaderValue => HeaderWatched(p, ch, e);
    case HeaderValueDiscardWs => HeaderWatched(p, ch, e);
    case HeaderValueDiscardLws => LwsWatched(p, ch, cfg);
    case HeaderValueLws => ValueLwsWatched(p, ch, cfg);
    case HeaderValueDiscardWsAlmostDone => HeadWatched(p, e);
    case HeaderAlmostDone => HeadWatched(p, e);
  }

  lemma {:induction false} DispatchWatched(p: Parser, ch: char, cfg: Config)
    requires CountedInv(p) && !WatchOf(p).Wrong?
    ensures Watched(p, Dispatch(p, ch, cfg))
  {
    if Starting(p) { StartPhaseWatched(p, ch, cfg); }
    else if InLine(p) { LineWatched(p, ch, cfg); }
    else if InMethod(p) { MethodWatched(p, ch, cfg); }
    else if InText(p) { TextWatched(p, ch, cfg); }
    else if InName(p) || AfterColon(p) || InValue(p) || AfterValue(p) { HeaderPhaseWatched(p, ch, cfg); }
    else { BodyPhaseWatched(p, ch, cfg); }
  }

  lemma {:induction false} WatchOfSame(p: Parser, q: Parser)
    requires p.state == q.state && p.flags == q.flags && p.contentLength == q.contentLength
    ensures WatchOf(p) == WatchOf(q)
  {}

  lemma {:induction false} WatchOfUncounted(p: Parser, q: Parser)
    requires q == Counted(p)
    ensures WatchOf(p) == WatchOf(q) && p.state == q.state
  {
    assert q.state == p.state && q.flags == p.flags && q.contentLength == p.contentLength;
    WatchOfSame(p, q);
  }

  /** Only the state and where the reader stands count. */
  lemma {:induction false} WatchedAlike(p: Parser, q: Parser, e: Eff)
    requires WatchOf(p) == WatchOf(q) && p.state == q.state && Watched(q, e)
    ensures Watched(p, e)
  {}

  lemma {:induction false} StepDispatches(p: Parser, ch: char, cfg: Config, q: Parser)
    requires q == Counted(p) && p.nread <= cfg.maxHeader
    ensures Step(p, ch, cfg) == if q.nread <= cfg.maxHeader then Dispatch(q, ch, cfg) else Error(q, HeaderOverflow)
  {}

  lemma {:induction false} StepWatched(p: Parser, ch: char, cfg: Config)
    requires Inv(p, cfg.maxHeader) && !WatchOf(p).Wrong?
    ensures Watched(p, Step(p, ch, cfg))
  {
    var q, e := Counted(p), Step(p, ch, cfg);
    StepDispatches(p, ch, cfg, q);
    WatchOfUncounted(p, q);
    CountedKept(p);
    if q.nread <= cfg.maxHeader {
      DispatchWatched(q, ch, cfg);
      WatchedAlike(p, q, e);
    }
  }

  // ---------- runs ----------

  /** The bytes of `data` that are read in a body state. */
  ghost function BodyBytes(p: Parser, data: string, sw: Switch): string {
    if data == "" then ""
    else
      var n := |data| - 1;
      var r := Run(p, data[..n], sw);
      BodyBytes(p, data[..n], sw) + (if r.out.Go? && BodyState(r.p.state) then [data[n]] else "")
  }

  ghost predicate WatchLaw(sw: Switch, max: nat) {
    forall p: Parser, ch: char {:trigger sw(p, ch)} :: Inv(p, max) && !WatchOf(p).Wrong? ==> Watched(p, sw(p, ch))
  }

  lemma {:induction false} ByteWatched(p: Parser, e: Eff, ch: char)
    requires Watched(p, e) && OneMark(e.ops, EntryMark(p.state)) && (e.out.Go? || e.out.Exit?)
    ensures SeeAll(WatchOf(p), ByteEvents(p.state, e, ch)) == WatchOf(e.p) != Wrong
    ensures BodyText(ByteEvents(p.state, e, ch)) == if BodyState(p.state) then [ch] else ""
  {
    ByteSeen(WatchOf(p), p.state, e, ch);
    assert Copies(ch, 1) == [ch] + Copies(ch, 0) == [ch];
  }

  /** A run brings the reader where the parser is, and reports as body text exactly the bytes read in a
      body state. */
  lemma {:induction false} RunWatched(p: Parser, data: string, sw: Switch, max: nat)
    requires Inv(p, max) && !WatchOf(p).Wrong? && KeepsInv(sw, max) && WatchLaw(sw, max)
    ensures var r := Run(p, data, sw);
      r.out.Go? || r.out.Exit? ==>
        SeeAll(WatchOf(p), r.events) == WatchOf(r.p) != Wrong && BodyText(r.events) == BodyBytes(p, data, sw)
  {
    if data != "" {
      var n := |data| - 1;
      RunWatched(p, data[..n], sw, max);
      RunKeepsInv(p, data[..n], sw, max);
      var r := Run(p, data[..n], sw);
      if r.out.Go? {
        var e := sw(r.p, data[n]);
        var es := ByteEvents(r.p.state, e, data[n]);
        assert MayHold(r.p.state, EntryMark(r.p.state));
        if e.out.Go? || e.out.Exit? {
          ByteWatched(r.p, e, data[n]);
          SeeAllConcat(WatchOf(p), r.events, es);
        }
      }
    }
  }

  lemma {:induction false} WatchLawHere(cfg: Config)
    ensures WatchLaw(ByteSwitch(cfg), cfg.maxHeader)
  {
    var sw := ByteSwitch(cfg);
    forall p: Parser, ch: char | Inv(p, cfg.maxHeader) && !WatchOf(p).Wrong? ensures Watched(p, sw(p, ch)) {
      StepWatched(p, ch, cfg);
    }
  }

  // ---------- what the reader's progress means ----------

  predicate NoCompletion(es: seq<Event>) { forall k :: 0 <= k < |es| ==> es[k] != Note(MessageComplete) }

  /** The chunk sizes announced, added up. */
  function Announced(es: seq<Event>): nat {
    if es == [] then 0
    else
      var e := es[|es| - 1];
      Announced(es[..|es| - 1]) + if e.Note? && e.n.ChunkHeader? then e.n.length else 0
  }

  /** Body text reported after the headers, until the message completes. */
  predicate Delivered(w: Watch, es: seq<Event>, v: Watch) {
    var n := |BodyText(es)|;
    match w
    case Fixed(m) => v == Wrong || (v.Fixed? && n + v.left == m && Announced(es) == 0)
    case Chunks => v == Wrong || ((v.Chunks? || v.Trailer? || v == Fixed(0)) && n == Announced(es)) ||
                   (v.Chunk? && n + v.left == Announced(es))
    case UntilEof => v == Wrong || (v.UntilEof? && Announced(es) == 0)
    case _ => true
  }

  lemma {:induction false} Delivers(w: Watch, es: seq<Event>)
    requires NoCompletion(es)
    ensures Delivered(w, es, SeeAll(w, es))
  {
    if es != [] {
      var n := |es| - 1;
      Delivers(w, es[..n]);
      assert es[n] != Note(MessageComplete);
    }
  }

  /** Messages begun and completed. */
  function Begun(es: seq<Event>): nat {
    if es == [] then 0 else Begun(es[..|es| - 1]) + if es[|es| - 1] == Note(MessageBegin) then 1 else 0
  }

  function Completed(es: seq<Event>): nat {
    if es == [] then 0 else Completed(es[..|es| - 1]) + if es[|es| - 1] == Note(MessageComplete) then 1 else 0
  }

  lemma {:induction false} CompletesOnce(es: seq<Event>)
    ensures !SeeAll(Idle, es).Wrong? ==> Begun(es) == Completed(es) + if SeeAll(Idle, es).Idle? then 0 else 1
  {
    if es != [] { CompletesOnce(es[..|es| - 1]); }
  }

  /** A message in a trace: its headers are complete after `before`, and it completes after `mid`. */
  ghost predicate MessageIn(es: seq<Event>, before: seq<Event>, head: Notice, mid: seq<Event>, after: seq<Event>) {
    head.HeadersComplete? && NoCompletion(mid) && es == before + [Note(head)] + mid + [Note(MessageComplete)] + after
  }

  lemma {:induction false} WrongStays(es: seq<Event>)
    ensures SeeAll(Wrong, es) == Wrong
  {
    if es != [] { WrongStays(es[..|es| - 1]); }
  }

  /** The body of that message has exactly the announced length, by Content-Length or chunk by chunk;
      it is never framed both ways, and does not end with the connection. */
  ghost predicate BodyMatches(head: Notice, mid: seq<Event>)
    requires head.HeadersComplete?
  {
    && !(head.chunked && head.length != ULLONG_MAX)
    && match Framing(head)
       case Fixed(n) => |BodyText(mid)| == n && Announced(mid) == 0
       case Chunks => |BodyText(mid)| == Announced(mid)
       case _ => false
  }

  /** Where the reader stands at the end of the head, at the end of the body, and at the end. */
  lemma {:induction false} MessageSeen(w: Watch, before: seq<Event>, head: Notice, mid: seq<Event>, after: seq<Event>,
                                       v: Watch)
    requires head.HeadersComplete? && v == SeeAll(w, before)
    ensures SeeAll(w, before + [Note(head)] + mid + [Note(MessageComplete)] + after) ==
      SeeAll(Told(SeeAll(Told(v, head), mid), MessageComplete), after)
  {
    SeeAllSnoc(w, before, Note(head));
    SeeAllConcat(w, before + [Note(head)], mid);
    SeeAllSnoc(w, before + [Note(head)] + mid, Note(MessageComplete));
    SeeAllConcat(w, before + [Note(head)] + mid + [Note(MessageComplete)], after);
  }

  lemma {:induction false} MessageConserved(w: Watch, es: seq<Event>, before: seq<Event>, head: Notice,
                                            mid: seq<Event>, after: seq<Event>)
    requires MessageIn(es, before, head, mid, after) && SeeAll(w, es) != Wrong
    ensures BodyMatches(head, mid)
  {
    MessageSeen(w, before, head, mid, after, SeeAll(w, before));
    WrongStays(after);
    WrongStays(mid);
    Delivers(Framing(head), mid);
  }

  lemma {:induction false} IdleStarts(p: Parser)
    ensures WatchOf(p).Idle? <==> Starting(p)
  {}

  lemma {:induction false} AcceptedWatched(r: Result, kind: Kind, data: string, sw: Switch, max: nat)
    requires Refines(r, Run(Init(kind), data, sw), max) && (r.out.Go? || r.out.Exit?)
    requires KeepsInv(sw, max) && WatchLaw(sw, max)
    ensures SeeAll(Idle, r.events) == WatchOf(r.p) != Wrong
    ensures BodyText(r.events) == BodyBytes(Init(kind), data, sw)
  {
    var p := Init(kind);
    assert Inv(p, max) && WatchOf(p) == Idle;
    RunWatched(p, data, sw, max);
    SameCanonSeen(Idle, r.events, Run(p, data, sw).events);
  }

  /** Body conservation.  Let the pieces of a stream be fed to a new parser and be accepted, with the
      callbacks `r.events`.  Then the body text reported is exactly the bytes read in a body state; every
      message that begins completes once, before the next begins; and between the end of a message's
      headers and its completion the body is as announced. */
  lemma {:induction false} BodyConservation(r: Result, kind: Kind, data: string, cfg: Config)
    requires Refines(r, Run(Init(kind), data, ByteSwitch(cfg)), cfg.maxHeader) && (r.out.Go? || r.out.Exit?)
    ensures SeeAll(Idle, r.events) == WatchOf(r.p) != Wrong
    ensures BodyText(r.events) == BodyBytes(Init(kind), data, ByteSwitch(cfg))
    ensures Begun(r.events) == Completed(r.events) + if Starting(r.p) then 0 else 1
    ensures forall a, h, mid, z :: MessageIn(r.events, a, h, mid, z) ==> BodyMatches(h, mid)
  {
    KeepsInvHere(cfg);
    WatchLawHere(cfg);
    AcceptedWatched(r, kind, data, ByteSwitch(cfg), cfg.maxHeader);
    CompletesOnce(r.events);
    IdleStarts(r.p);
    forall a, h, mid, z | MessageIn(r.events, a, h, mid, z) ensures BodyMatches(h, mid) {
      MessageConserved(Idle, r.events, a, h, mid, z);
    }
  }
}
