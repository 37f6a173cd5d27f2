/** The streaming HTTP parser as an automaton that reads one byte at a time.

    `Dispatch` is the body of the parser's switch for one byte.  Instead of touching
    marks and calling back it lists what it asks for (`Op`), so that the same switch
    can be read in two ways: on buffers of one byte (module HttpRun), and
    inside the loop over a whole buffer (module HttpExecute). */
module HttpParser {
  import opened HttpChars
  import opened Numerals

  const ULLONG_MAX: nat := 0xFFFF_FFFF_FFFF_FFFF

  /** A 64-bit unsigned value. */
  function Wrap64(n: nat): nat { if n <= ULLONG_MAX then n else n % (ULLONG_MAX + 1) }

  datatype Kind = Request | Response | Both

  datatype State =
    | Dead
    | StartReqOrRes | ResOrRespH
    | StartRes | ResH | ResHT | ResHTT | ResHTTP
    | ResHttpMajor | ResHttpDot | ResHttpMinor | ResHttpEnd
    | ResFirstStatusCode | ResStatusCode | ResStatusStart | ResStatus | ResLineAlmostDone
    | StartReq | ReqMethod | ReqSpacesBeforeUrl
    | ReqSchema | ReqSchemaSlash | ReqSchemaSlashSlash
    | ReqServerStart | ReqServer | ReqServerWithAt
    | ReqPath | ReqQueryStringStart | ReqQueryString | ReqFragmentStart | ReqFragment
    | ReqHttpStart | ReqHttpH | ReqHttpHT | ReqHttpHTT | ReqHttpHTTP | ReqHttpI | ReqHttpIC
    | ReqHttpMajor | ReqHttpDot | ReqHttpMinor | ReqHttpEnd | ReqLineAlmostDone
    | HeaderFieldStart | HeaderField
    | HeaderValueDiscardWs | HeaderValueDiscardWsAlmostDone | HeaderValueDiscardLws
    | HeaderValueStart | HeaderValue | HeaderValueLws | HeaderAlmostDone
    | ChunkSizeStart | ChunkSize | ChunkParameters | ChunkSizeAlmostDone
    | HeadersAlmostDone | HeadersDone
    | ChunkData | ChunkDataAlmostDone | ChunkDataDone
    | BodyIdentity | BodyIdentityEof
    | MessageDone

  datatype HeaderState =
    | General | C | CO | CON
    | MatchConnection | MatchProxyConnection | MatchContentLength | MatchTransferEncoding | MatchUpgrade
    | Connection | ContentLength | ContentLengthNum | ContentLengthWs | TransferEncoding | Upgrade
    | MatchChunked
    | TokenStart | MatchKeepAlive | MatchClose | MatchConnUpgrade | ConnToken
    | TransferEncodingChunked | ConnKeepAlive | ConnClose | ConnUpgrade

  datatype Flags = Flags(chunked: bool, keepAlive: bool, close: bool, connUpgrade: bool,
                         trailing: bool, upgrade: bool, skipBody: bool, contentLength: bool)

  const NO_FLAGS: Flags := Flags(false, false, false, false, false, false, false, false)

  datatype Parser = Parser(kind: Kind, flags: Flags, state: State, hstate: HeaderState, index: nat, lenient: bool,
                           nread: nat, contentLength: nat, major: nat, minor: nat, statusCode: nat, verb: nat,
                           upgrade: bool)

  datatype Errno =
    | CbHeadersComplete | HeaderOverflow | ClosedConnection | InvalidVersion | InvalidStatus | InvalidMethod
    | InvalidUrl | LfExpected | InvalidHeaderToken | InvalidContentLength | UnexpectedContentLength
    | InvalidChunkSize | InvalidConstant | InvalidEofState | Strict

  /** Go: the byte was consumed.  Exit: consumed, and the call returns because the rest of
      the buffer is in another protocol.  Fail: http_errno was set.  AssertFails: one of the
      C assertions is false. */
  datatype Outcome = Go | Exit | Fail(error: Errno) | AssertFails

  datatype Field = Url | Status | FieldName | FieldValue | Body

  /** The notify callbacks, with what the parser's public fields show at the call. */
  datatype Notice =
    | MessageBegin
    | HeadersComplete(chunked: bool, length: nat, upgrade: bool, connect: bool, answer: int, untilEof: bool)
    | ChunkHeader(length: nat)
    | ChunkComplete
    | MessageComplete

  /** What the switch asks for: set a mark; run a data callback up to, or including, the
      current byte; run a notify callback. */
  datatype Op = SetMark(f: Field) | Flush(f: Field) | FlushInclusive(f: Field) | Notify(n: Notice)

  datatype Ops = Done | Then(op: Op, rest: Ops)

  datatype Eff = Eff(p: Parser, ops: Ops, out: Outcome) {
    function After(op: Op): Eff { Eff(p, Then(op, ops), out) }
  }

  function Next(p: Parser): Eff { Eff(p, Done, Go) }

  function Goto(p: Parser, s: State): Eff { Eff(p.(state := s), Done, Go) }

  function Ask(p: Parser, op: Op): Eff { Eff(p, Then(op, Done), Go) }

  function Error(p: Parser, e: Errno): Eff { Eff(p, Done, Fail(e)) }

  function Violation(p: Parser): Eff { Eff(p, Done, AssertFails) }

  /** max_header_size and the answer of the on_headers_complete callback.  The callback is
      shown the parser without its byte counter, whose stored value is not kept current. */
  datatype Config = Config(maxHeader: nat, onHeadersComplete: Parser -> int)

  /** PARSING_HEADER: every state of the enumeration up to s_headers_done. */
  predicate ParsingHeader(s: State) {
    !(s.ChunkData? || s.ChunkDataAlmostDone? || s.ChunkDataDone? || s.BodyIdentity? || s.BodyIdentityEof? ||
      s.MessageDone?)
  }

  predicate UrlState(s: State) {
    s.ReqSchema? || s.ReqSchemaSlash? || s.ReqSchemaSlashSlash? || s.ReqServerStart? || s.ReqServer? ||
    s.ReqServerWithAt? || s.ReqPath? || s.ReqQueryStringStart? || s.ReqQueryString? || s.ReqFragmentStart? ||
    s.ReqFragment?
  }

  function Init(kind: Kind): Parser {
    Parser(kind, NO_FLAGS,
           if kind.Request? then StartReq else if kind.Response? then StartRes else StartReqOrRes,
           General, 0, false, 0, 0, 0, 0, 0, 0, false)
  }

  // ---------- end of message ----------

  predicate NeedsEof(p: Parser) {
    !p.kind.Request? &&
    !(p.statusCode / 100 == 1 || p.statusCode == 204 || p.statusCode == 304 || p.flags.skipBody) &&
    !(p.flags.chunked || p.contentLength != ULLONG_MAX)
  }

  predicate ShouldKeepAlive(p: Parser) {
    (if p.major > 0 && p.minor > 0 then !p.flags.close else p.flags.keepAlive) && !NeedsEof(p)
  }

  function NewMessage(p: Parser): State {
    if !ShouldKeepAlive(p) then Dead else if p.kind.Request? then StartReq else StartRes
  }

  // ---------- the URL ----------

  function ParseUrlChar(s: State, ch: char): State {
    if ch == SP || ch == CR || ch == LF || ch == HT || ch == '\U{0C}' then Dead
    else
      match s
      case ReqSpacesBeforeUrl => if ch == '/' || ch == '*' then ReqPath else if IsAlpha(ch) then ReqSchema else Dead
      case ReqSchema => if IsAlpha(ch) then ReqSchema else if ch == ':' then ReqSchemaSlash else Dead
      case ReqSchemaSlash => if ch == '/' then ReqSchemaSlashSlash else Dead
      case ReqSchemaSlashSlash => if ch == '/' then ReqServerStart else Dead
      case ReqServerWithAt => if ch == '@' then Dead else ParseServerChar(ch)
      case ReqServerStart => ParseServerChar(ch)
      case ReqServer => ParseServerChar(ch)
      case ReqPath =>
        if IsUrlChar(ch) then ReqPath else if ch == '?' then ReqQueryStringStart
        else if ch == '#' then ReqFragmentStart else Dead
      case ReqQueryStringStart => ParseQueryChar(ch)
      case ReqQueryString => ParseQueryChar(ch)
      case ReqFragmentStart =>
        if IsUrlChar(ch) || ch == '?' then ReqFragment else if ch == '#' then ReqFragmentStart else Dead
      case ReqFragment => if IsUrlChar(ch) || ch == '?' || ch == '#' then ReqFragment else Dead
      case _ => Dead
  }

  function ParseServerChar(ch: char): State {
    if ch == '/' then ReqPath
    else if ch == '?' then ReqQueryStringStart
    else if ch == '@' then ReqServerWithAt
    else if IsUserinfoChar(ch) || ch == '[' || ch == ']' then ReqServer
    else Dead
  }

  function ParseQueryChar(ch: char): State {
    if IsUrlChar(ch) || ch == '?' then ReqQueryString else if ch == '#' then ReqFragmentStart else Dead
  }

  // ---------- start of a message, status line ----------

  function Begin(p: Parser): Parser { p.(flags := NO_FLAGS, contentLength := ULLONG_MAX) }

  function StepStartReqOrRes(p: Parser, ch: char): Eff {
    if ch == CR || ch == LF then Next(p)
    else
      var q := Begin(p);
      if ch == 'H' then Ask(q.(state := ResOrRespH), Notify(MessageBegin))
      else StepStartReq(q.(kind := Request, state := StartReq), ch)
  }

  function StepResOrRespH(p: Parser, ch: char): Eff {
    if ch == 'T' then Next(p.(kind := Response, state := ResHT))
    else if ch != 'E' then Error(p, InvalidConstant)
    else Next(p.(kind := Request, verb := 2, index := 2, state := ReqMethod))
  }

  function StepStartRes(p: Parser, ch: char): Eff {
    if ch == CR || ch == LF then Next(p)
    else if ch == 'H' then Ask(Begin(p).(state := ResH), Notify(MessageBegin))
    else Error(Begin(p), InvalidConstant)
  }

  /** STRICT_CHECK(ch != expected), then a move to the next state. */
  function StepExpect(p: Parser, ch: char, expected: char, s: State): Eff {
    if ch != expected then Error(p, Strict) else Goto(p, s)
  }

  function StepVersionDot(p: Parser, ch: char, s: State): Eff {
    if ch != '.' then Error(p, InvalidVersion) else Goto(p, s)
  }

  function StepMajor(p: Parser, ch: char, s: State): Eff {
    if !IsNumber(ch) then Error(p, InvalidVersion) else Next(p.(major := Digit(ch), state := s))
  }

  function StepMinor(p: Parser, ch: char, s: State): Eff {
    if !IsNumber(ch) then Error(p, InvalidVersion) else Next(p.(minor := Digit(ch), state := s))
  }

  function StepFirstStatusCode(p: Parser, ch: char): Eff {
    if IsNumber(ch) then Next(p.(statusCode := Digit(ch), state := ResStatusCode))
    else if ch == SP then Next(p)
    else Error(p, InvalidStatus)
  }

  function StepStatusCode(p: Parser, ch: char): Eff {
    if IsNumber(ch) then
      var code := p.statusCode * 10 + Digit(ch);
      if code > 999 then Error(p, InvalidStatus) else Next(p.(statusCode := code))
    else if ch == SP then Goto(p, ResStatusStart)
    else if ch == CR || ch == LF then StepStatusStart(p.(state := ResStatusStart), ch)
    else Error(p, InvalidStatus)
  }

  function StepStatusStart(p: Parser, ch: char): Eff {
    var q := p.(state := ResStatus, index := 0);
    if ch == CR || ch == LF then StepStatus(q, ch).After(SetMark(Status)) else Ask(q, SetMark(Status))
  }

  function StepStatus(p: Parser, ch: char): Eff {
    if ch == CR then Ask(p.(state := ResLineAlmostDone), Flush(Status))
    else if ch == LF then Ask(p.(state := HeaderFieldStart), Flush(Status))
    else Next(p)
  }

  // ---------- request line ----------

  const METHOD_COUNT: nat := 34

  function MethodName(m: nat): string {
    match m
    case 0 => "DELETE" case 1 => "GET" case 2 => "HEAD" case 3 => "POST" case 4 => "PUT"
    case 5 => "CONNECT" case 6 => "OPTIONS" case 7 => "TRACE"
    case 8 => "COPY" case 9 => "LOCK" case 10 => "MKCOL" case 11 => "MOVE" case 12 => "PROPFIND"
    case 13 => "PROPPATCH" case 14 => "SEARCH" case 15 => "UNLOCK" case 16 => "BIND" case 17 => "REBIND"
    case 18 => "UNBIND" case 19 => "ACL"
    case 20 => "REPORT" case 21 => "MKACTIVITY" case 22 => "CHECKOUT" case 23 => "MERGE"
    case 24 => "M-SEARCH" case 25 => "NOTIFY" case 26 => "SUBSCRIBE" case 27 => "UNSUBSCRIBE"
    case 28 => "PATCH" case 29 => "PURGE" case 30 => "MKCALENDAR" case 31 => "LINK" case 32 => "UNLINK"
    case 33 => "SOURCE"
    case _ => ""
  }

  const METHOD_CONNECT: nat := 5
  const METHOD_SOURCE: nat := 33

  /** The candidate method chosen by the first letter; METHOD_COUNT when there is none. */
  function FirstCandidate(ch: char): nat {
    match ch
    case 'A' => 19 case 'B' => 16 case 'C' => 5 case 'D' => 0 case 'G' => 1 case 'H' => 2 case 'L' => 9
    case 'M' => 10 case 'N' => 25 case 'O' => 6 case 'P' => 3 case 'R' => 20 case 'S' => 26 case 'T' => 7
    case 'U' => 15 case _ => METHOD_COUNT
  }

  /** The table that replaces candidate `m` when byte `index` is `ch`. */
  function PatchCandidate(m: nat, index: nat, ch: char): nat {
    match (m, index, ch)
    case (3, 1, 'U') => 4
    case (3, 1, 'A') => 28
    case (3, 1, 'R') => 12
    case (4, 2, 'R') => 29
    case (5, 1, 'H') => 22
    case (5, 2, 'P') => 8
    case (10, 1, 'O') => 11
    case (10, 1, 'E') => 23
    case (10, 1, '-') => 24
    case (10, 2, 'A') => 21
    case (10, 3, 'A') => 30
    case (26, 1, 'E') => 14
    case (26, 1, 'O') => 33
    case (20, 2, 'B') => 17
    case (12, 4, 'P') => 13
    case (9, 1, 'I') => 31
    case (15, 2, 'S') => 27
    case (15, 2, 'B') => 18
    case (15, 3, 'I') => 32
    case _ => METHOD_COUNT
  }

  function StepStartReq(p: Parser, ch: char): Eff {
    if ch == CR || ch == LF then Next(p)
    else
      var q := Begin(p);
      if !IsAlpha(ch) then Error(q, InvalidMethod)
      else
        var m := FirstCandidate(ch);
        if m == METHOD_COUNT then Error(q, InvalidMethod)
        else Ask(q.(verb := m, index := 1, state := ReqMethod), Notify(MessageBegin))
  }

  /** The increment of the 7-bit field `index`. */
  function Inc7(i: nat): nat { if i < 127 then i + 1 else 0 }

  /** Character `i` of a NUL-terminated string. */
  function At(s: string, i: nat): char { if i < |s| then s[i] else NUL }

  function StepReqMethod(p: Parser, ch: char): Eff {
    if ch == NUL then Error(p, InvalidMethod)
    else
      var name := MethodName(p.verb);
      if p.index > |name| then Violation(p)  // a read past the terminator
      else if ch == SP && At(name, p.index) == NUL then
        Next(p.(state := ReqSpacesBeforeUrl, index := Inc7(p.index)))
      else if ch == At(name, p.index) then Next(p.(index := Inc7(p.index)))
      else if IsUpper(ch) || ch == '-' then
        var m := PatchCandidate(p.verb, p.index, ch);
        if m == METHOD_COUNT then Error(p, InvalidMethod) else Next(p.(verb := m, index := Inc7(p.index)))
      else Error(p, InvalidMethod)
  }

  function StepSpacesBeforeUrl(p: Parser, ch: char): Eff {
    if ch == SP then Next(p)
    else
      var s := ParseUrlChar(if p.verb == METHOD_CONNECT then ReqServerStart else p.state, ch);
      if s.Dead? then Error(p, InvalidUrl) else Ask(p.(state := s), SetMark(Url))
  }

  /** Inside a URL where white space is an error. */
  function StepUrlStrict(p: Parser, ch: char): Eff {
    var s := ParseUrlChar(p.state, ch);
    if s.Dead? then Error(p, InvalidUrl) else Goto(p, s)
  }

  /** Inside a URL that may end here. */
  function StepUrl(p: Parser, ch: char): Eff {
    if ch == SP then Ask(p.(state := ReqHttpStart), Flush(Url))
    else if ch == CR || ch == LF then
      Ask(p.(major := 0, minor := 9, state := if ch == CR then ReqLineAlmostDone else HeaderFieldStart),
          Flush(Url))
    else StepUrlStrict(p, ch)
  }

  function StepReqHttpStart(p: Parser, ch: char): Eff {
    if ch == SP then Next(p)
    else if ch == 'H' then Goto(p, ReqHttpH)
    else if ch == 'I' && p.verb == METHOD_SOURCE then Goto(p, ReqHttpI)
    else Error(p, InvalidConstant)
  }

  function StepReqHttpEnd(p: Parser, ch: char): Eff {
    if ch == CR then Goto(p, ReqLineAlmostDone)
    else if ch == LF then Goto(p, HeaderFieldStart)
    else Error(p, InvalidVersion)
  }

  function StepLine(p: Parser, ch: char, s: State): Eff {
    if ch != LF then Error(p, LfExpected) else Goto(p, s)
  }

  // ---------- header fields ----------

  const CONNECTION := "connection"
  const PROXY_CONNECTION := "proxy-connection"
  const CONTENT_LENGTH := "content-length"
  const TRANSFER_ENCODING := "transfer-encoding"
  const UPGRADE := "upgrade"
  const CHUNKED := "chunked"
  const KEEP_ALIVE := "keep-alive"
  const CLOSE := "close"

  function StepHeaderFieldStart(p: Parser, ch: char, cfg: Config): Eff {
    if ch == CR then Goto(p, HeadersAlmostDone)
    else if ch == LF then StepHeadersAlmostDone(p.(state := HeadersAlmostDone), ch, cfg)
    else if !IsToken(ch) then Error(p, InvalidHeaderToken)
    else
      var c := Token(ch);
      var h := if c == 'c' then C else if c == 'p' then MatchProxyConnection
               else if c == 't' then MatchTransferEncoding else if c == 'u' then MatchUpgrade else General;
      Ask(p.(index := 0, state := HeaderField, hstate := h), SetMark(FieldName))
  }

  /** The pair the matchers work on: `header_state` and `index`. */
  datatype Matcher = Matcher(h: HeaderState, i: nat)

  /** One step of a word matcher: go on when byte `i + 1` of `word` is `c`, end in `matched` on
      its last byte, and in `mismatch` when it differs. */
  function Match(m: Matcher, word: string, c: char, matched: HeaderState, mismatch: HeaderState): Matcher {
    var i := Inc7(m.i);
    if i > |word| || c != At(word, i) then Matcher(mismatch, i)
    else if i == |word| - 1 then Matcher(matched, i)
    else Matcher(m.h, i)
  }

  /** The header-name matcher on one token character. */
  function MatchName(m: Matcher, ch: char): Matcher {
    var c := Token(ch);
    match m.h
    case C => Matcher(if c == 'o' then CO else General, Inc7(m.i))
    case CO => Matcher(if c == 'n' then CON else General, Inc7(m.i))
    case CON =>
      Matcher(if c == 'n' then MatchConnection else if c == 't' then MatchContentLength else General, Inc7(m.i))
    case MatchConnection => Match(m, CONNECTION, c, Connection, General)
    case MatchProxyConnection => Match(m, PROXY_CONNECTION, c, Connection, General)
    case MatchContentLength => Match(m, CONTENT_LENGTH, c, ContentLength, General)
    case MatchTransferEncoding => Match(m, TRANSFER_ENCODING, c, TransferEncoding, General)
    case MatchUpgrade => Match(m, UPGRADE, c, Upgrade, General)
    case General => m
    case _ => if ch != SP then Matcher(General, m.i) else m
  }

  function MatchField(p: Parser, ch: char): Parser {
    var m := MatchName(Matcher(p.hstate, p.index), ch);
    p.(hstate := m.h, index := m.i)
  }

  /** The header states the name matcher knows. */
  predicate FieldMatcher(h: HeaderState) {
    h.General? || h.C? || h.CO? || h.CON? || h.MatchConnection? || h.MatchProxyConnection? ||
    h.MatchContentLength? || h.MatchTransferEncoding? || h.MatchUpgrade? || h.Connection? || h.ContentLength? ||
    h.TransferEncoding? || h.Upgrade?
  }

  function StepHeaderField(p: Parser, ch: char): Eff {
    if IsToken(ch) then
      if FieldMatcher(p.hstate) then Next(MatchField(p, ch)) else Violation(p)
    else if ch == ':' then Ask(p.(state := HeaderValueDiscardWs), Flush(FieldName))
    else Error(p, InvalidHeaderToken)
  }

  // ---------- header values ----------

  function StepDiscardWs(p: Parser, ch: char): Eff {
    if ch == SP || ch == HT then Next(p)
    else if ch == CR then Goto(p, HeaderValueDiscardWsAlmostDone)
    else if ch == LF then Goto(p, HeaderValueDiscardLws)
    else StepHeaderValueStart(p, ch)
  }

  function StepHeaderValueStart(p: Parser, ch: char): Eff {
    var q := p.(state := HeaderValue, index := 0);
    var c := Lower(ch);
    match p.hstate
    case Upgrade => Ask(q.(flags := q.flags.(upgrade := true), hstate := General), SetMark(FieldValue))
    case TransferEncoding =>
      Ask(q.(hstate := if c == 'c' then MatchChunked else General), SetMark(FieldValue))
    case ContentLength =>
      if !IsNumber(ch) then Error(q, InvalidContentLength)
      else if p.flags.contentLength then Error(q, UnexpectedContentLength)
      else Ask(q.(flags := q.flags.(contentLength := true), contentLength := Digit(ch), hstate := ContentLengthNum),
               SetMark(FieldValue))
    case ContentLengthWs => Ask(q, SetMark(FieldValue))
    case Connection =>
      Ask(q.(hstate := if c == 'k' then MatchKeepAlive else if c == 'c' then MatchClose
                       else if c == 'u' then MatchConnUpgrade else ConnToken), SetMark(FieldValue))
    case TokenStart => Ask(q, SetMark(FieldValue))
    case _ => Ask(q.(hstate := General), SetMark(FieldValue))
  }

  function ConnFlag(f: Flags, h: HeaderState): Flags {
    match h
    case ConnKeepAlive => f.(keepAlive := true)
    case ConnClose => f.(close := true)
    case ConnUpgrade => f.(connUpgrade := true)
    case _ => f
  }

  function HeaderFlag(f: Flags, h: HeaderState): Flags {
    if h.TransferEncodingChunked? then f.(chunked := true) else ConnFlag(f, h)
  }

  function AddDigit(p: Parser, ch: char): Eff {
    if ch == SP then Next(p.(hstate := ContentLengthWs))
    else if !IsNumber(ch) then Error(p, InvalidContentLength)
    else
      var t := Wrap64(p.contentLength * 10 + Digit(ch));
      if (ULLONG_MAX - 10) / 10 < p.contentLength then Error(p, InvalidContentLength)
      else Next(p.(contentLength := t))
  }

  /** The matcher for the values of Transfer-Encoding and Connection. */
  function MatchToken(m: Matcher, ch: char): Matcher {
    var c := Lower(ch);
    match m.h
    case MatchChunked => Match(m, CHUNKED, c, TransferEncodingChunked, General)
    case TokenStart =>
      Matcher(if c == 'k' then MatchKeepAlive else if c == 'c' then MatchClose else if c == 'u' then MatchConnUpgrade
              else if IsToken(c) then ConnToken else if c == SP || c == HT then TokenStart else General, m.i)
    case MatchKeepAlive => Match(m, KEEP_ALIVE, c, ConnKeepAlive, ConnToken)
    case MatchClose => Match(m, CLOSE, c, ConnClose, ConnToken)
    case MatchConnUpgrade => Match(m, UPGRADE, c, ConnUpgrade, ConnToken)
    case ConnToken => if ch == ',' then Matcher(TokenStart, 0) else m
    case TransferEncodingChunked => if ch != SP then Matcher(General, m.i) else m
    case ConnKeepAlive => MatchedToken(m, ch)
    case ConnClose => MatchedToken(m, ch)
    case ConnUpgrade => MatchedToken(m, ch)
    case _ => Matcher(General, m.i)
  }

  function MatchedToken(m: Matcher, ch: char): Matcher {
    if ch == ',' then Matcher(TokenStart, 0) else if ch != SP then Matcher(ConnToken, m.i) else m
  }

  /** The header-value matcher on one character other than CR and LF. */
  function MatchValue(p: Parser, ch: char): Eff {
    match p.hstate
    case Connection => Violation(p)
    case TransferEncoding => Violation(p)
    case ContentLength => if ch == SP then Next(p) else AddDigit(p.(hstate := ContentLengthNum), ch)
    case ContentLengthNum => AddDigit(p, ch)
    case ContentLengthWs => if ch == SP then Next(p) else Error(p, InvalidContentLength)
    case _ =>
      var m := MatchToken(Matcher(p.hstate, p.index), ch);
      Next(p.(hstate := m.h, index := m.i, flags := if ch == ',' then ConnFlag(p.flags, p.hstate) else p.flags))
  }

  function StepHeaderValue(p: Parser, ch: char): Eff {
    if ch == CR then Ask(p.(state := HeaderAlmostDone), Flush(FieldValue))
    else if ch == LF then StepLine(p.(state := HeaderAlmostDone), ch, HeaderValueLws).After(Flush(FieldValue))
    else if !p.lenient && !IsHeaderChar(ch) then Error(p, InvalidHeaderToken)
    else MatchValue(p, ch)
  }

  function StepHeaderValueLws(p: Parser, ch: char, cfg: Config): Eff {
    if ch == SP || ch == HT then
      StepHeaderValueStart(if p.hstate.ContentLengthNum? then p.(hstate := ContentLengthWs) else p, ch)
    else StepHeaderFieldStart(p.(flags := HeaderFlag(p.flags, p.hstate), state := HeaderFieldStart), ch, cfg)
  }

  function StepDiscardLws(p: Parser, ch: char, cfg: Config): Eff {
    if ch == SP || ch == HT then Goto(p, HeaderValueDiscardWs)
    else if p.hstate.ContentLength? then Error(p, InvalidContentLength)
    else
      StepHeaderFieldStart(p.(flags := HeaderFlag(p.flags, p.hstate), state := HeaderFieldStart), ch, cfg)
        .After(Flush(FieldValue)).After(SetMark(FieldValue))
  }

  // ---------- end of headers ----------

  function SetUpgrade(p: Parser): Parser {
    p.(upgrade := if p.flags.upgrade && p.flags.connUpgrade then p.kind.Request? || p.statusCode == 101
                  else p.verb == METHOD_CONNECT)
  }

  /** What on_headers_complete answers: 1 for no body, 2 for no body and nothing after it. */
  function Answered(p: Parser, answer: int): Parser {
    if answer == 0 then p
    else p.(upgrade := p.upgrade || answer == 2, flags := p.flags.(skipBody := true))
  }

  function StepHeadersAlmostDone(p: Parser, ch: char, cfg: Config): Eff {
    if ch != LF then Error(p, Strict)
    else if p.flags.trailing then
      StepMessageDone(p.(state := MessageDone)).After(Notify(ChunkComplete))
    else if p.flags.chunked && p.flags.contentLength then Error(p, UnexpectedContentLength)
    else
      var q := SetUpgrade(p.(state := HeadersDone));
      var answer := cfg.onHeadersComplete(q.(nread := 0));
      var notice := HeadersComplete(q.flags.chunked, q.contentLength, q.upgrade, q.verb == METHOD_CONNECT, answer,
                                    NeedsEof(q));
      if 0 <= answer <= 2 then StepHeadersDone(Answered(q, answer), ch).After(Notify(notice))
      else Eff(q, Then(Notify(notice), Done), Fail(CbHeadersComplete))
  }

  function Complete(p: Parser): Eff { Ask(p.(state := NewMessage(p)), Notify(MessageComplete)) }

  function StepHeadersDone(p: Parser, ch: char): Eff {
    if ch != LF then Error(p, Strict)
    else
      var q := p.(nread := 0);
      var hasBody := q.flags.chunked || (q.contentLength > 0 && q.contentLength != ULLONG_MAX);
      if q.upgrade && (q.verb == METHOD_CONNECT || q.flags.skipBody || !hasBody) then Complete(q).(out := Exit)
      else if q.flags.skipBody then Complete(q)
      else if q.flags.chunked then Goto(q, ChunkSizeStart)
      else if q.contentLength == 0 then Complete(q)
      else if q.contentLength != ULLONG_MAX then Goto(q, BodyIdentity)
      else if !NeedsEof(q) then Complete(q)
      else Goto(q, BodyIdentityEof)
  }

  function StepMessageDone(p: Parser): Eff {
    if p.upgrade then Complete(p).(out := Exit) else Complete(p)
  }

  // ---------- bodies ----------

  /** s_body_identity on a buffer of one byte. */
  function StepBodyIdentity(p: Parser): Eff {
    if p.contentLength == 0 || p.contentLength == ULLONG_MAX then Violation(p)
    else
      var q := p.(contentLength := p.contentLength - 1);
      if q.contentLength == 0 then
        StepMessageDone(q.(state := MessageDone)).After(FlushInclusive(Body)).After(SetMark(Body))
      else Ask(q, SetMark(Body))
  }

  function StepChunkSizeStart(p: Parser, ch: char): Eff {
    if p.nread != 1 || !p.flags.chunked then Violation(p)
    else if Unhex(ch) == -1 then Error(p, InvalidChunkSize)
    else Next(p.(contentLength := Unhex(ch), state := ChunkSize))
  }

  function StepChunkSize(p: Parser, ch: char): Eff {
    if !p.flags.chunked then Violation(p)
    else if ch == CR then Goto(p, ChunkSizeAlmostDone)
    else if Unhex(ch) == -1 then
      if ch == ';' || ch == SP then Goto(p, ChunkParameters) else Error(p, InvalidChunkSize)
    else
      var t := Wrap64(p.contentLength * 16 + Unhex(ch));
      if (ULLONG_MAX - 16) / 16 < p.contentLength then Error(p, InvalidContentLength)
      else Next(p.(contentLength := t))
  }

  function StepChunkParameters(p: Parser, ch: char): Eff {
    if !p.flags.chunked then Violation(p)
    else if ch == CR then Goto(p, ChunkSizeAlmostDone)
    else Next(p)
  }

  function StepChunkSizeAlmostDone(p: Parser, ch: char): Eff {
    if !p.flags.chunked then Violation(p)
    else if ch != LF then Error(p, Strict)
    else
      var q := p.(nread := 0);
      Ask(if q.contentLength == 0 then q.(flags := q.flags.(trailing := true), state := HeaderFieldStart)
          else q.(state := ChunkData),
          Notify(ChunkHeader(q.contentLength)))
  }

  /** s_chunk_data on a buffer of one byte. */
  function StepChunkData(p: Parser): Eff {
    if !p.flags.chunked || p.contentLength == 0 || p.contentLength == ULLONG_MAX then Violation(p)
    else
      var q := p.(contentLength := p.contentLength - 1);
      Ask(if q.contentLength == 0 then q.(state := ChunkDataAlmostDone) else q, SetMark(Body))
  }

  function StepChunkDataAlmostDone(p: Parser, ch: char): Eff {
    if !p.flags.chunked || p.contentLength != 0 then Violation(p)
    else if ch != CR then Error(p, Strict)
    else Ask(p.(state := ChunkDataDone), Flush(Body))
  }

  function StepChunkDataDone(p: Parser, ch: char): Eff {
    if !p.flags.chunked then Violation(p)
    else if ch != LF then Error(p, Strict)
    else Ask(p.(nread := 0, state := ChunkSizeStart), Notify(ChunkComplete))
  }

  // ---------- the switch ----------

  /** One byte through the switch, following every `goto reexecute` on the same byte. */
  function Dispatch(p: Parser, ch: char, cfg: Config): Eff {
    match p.state
    case Dead => if ch == CR || ch == LF then Next(p) else Error(p, ClosedConnection)
    case StartReqOrRes => StepStartReqOrRes(p, ch)
    case StartRes => StepStartRes(p, ch)
    case StartReq => StepStartReq(p, ch)
    case ResOrRespH => StepResOrRespH(p, ch)
    case ResH => StepExpect(p, ch, 'T', ResHT)
    case ResHT => StepExpect(p, ch, 'T', ResHTT)
    case ResHTT => StepExpect(p, ch, 'P', ResHTTP)
    case ResHTTP => StepExpect(p, ch, '/', ResHttpMajor)
    case ResHttpMajor => StepMajor(p, ch, ResHttpDot)
    case ResHttpDot => StepVersionDot(p, ch, ResHttpMinor)
    case ResHttpMinor => StepMinor(p, ch, ResHttpEnd)
    case ResHttpEnd => if ch != SP then Error(p, InvalidVersion) else Goto(p, ResFirstStatusCode)
    case ResFirstStatusCode => StepFirstStatusCode(p, ch)
    case ResStatusCode => StepStatusCode(p, ch)
    case ResStatusStart => StepStatusStart(p, ch)
    case ResStatus => StepStatus(p, ch)
    case ResLineAlmostDone => StepExpect(p, ch, LF, HeaderFieldStart)
    case ReqMethod => StepReqMethod(p, ch)
    case ReqSpacesBeforeUrl => StepSpacesBeforeUrl(p, ch)
    case ReqSchema => StepUrlStrict(p, ch)
    case ReqSchemaSlash => StepUrlStrict(p, ch)
    case ReqSchemaSlashSlash => StepUrlStrict(p, ch)
    case ReqServerStart => StepUrlStrict(p, ch)
    case ReqServer => StepUrl(p, ch)
    case ReqServerWithAt => StepUrl(p, ch)
    case ReqPath => StepUrl(p, ch)
    case ReqQueryStringStart => StepUrl(p, ch)
    case ReqQueryString => StepUrl(p, ch)
    case ReqFragmentStart => StepUrl(p, ch)
    case ReqFragment => StepUrl(p, ch)
    case ReqHttpStart => StepReqHttpStart(p, ch)
    case ReqHttpH => StepExpect(p, ch, 'T', ReqHttpHT)
    case ReqHttpHT => StepExpect(p, ch, 'T', ReqHttpHTT)
    case ReqHttpHTT => StepExpect(p, ch, 'P', ReqHttpHTTP)
    case ReqHttpHTTP => StepExpect(p, ch, '/', ReqHttpMajor)
    case ReqHttpI => StepExpect(p, ch, 'C', ReqHttpIC)
    case ReqHttpIC => StepExpect(p, ch, 'E', ReqHttpHTTP)
    case ReqHttpMajor => StepMajor(p, ch, ReqHttpDot)
    case ReqHttpDot => StepVersionDot(p, ch, ReqHttpMinor)
    case ReqHttpMinor => StepMinor(p, ch, ReqHttpEnd)
    case ReqHttpEnd => StepReqHttpEnd(p, ch)
    case ReqLineAlmostDone => StepLine(p, ch, HeaderFieldStart)
    case HeaderFieldStart => StepHeaderFieldStart(p, ch, cfg)
    case HeaderField => StepHeaderField(p, ch)
    case HeaderValueDiscardWs => StepDiscardWs(p, ch)
    case HeaderValueDiscardWsAlmostDone => StepExpect(p, ch, LF, HeaderValueDiscardLws)
    case HeaderValueDiscardLws => StepDiscardLws(p, ch, cfg)
    case HeaderValueStart => StepHeaderValueStart(p, ch)
    case HeaderValue => StepHeaderValue(p, ch)
    case HeaderValueLws => StepHeaderValueLws(p, ch, cfg)
    case HeaderAlmostDone => StepLine(p, ch, HeaderValueLws)
    case HeadersAlmostDone => StepHeadersAlmostDone(p, ch, cfg)
    case HeadersDone => StepHeadersDone(p, ch)
    case ChunkSizeStart => StepChunkSizeStart(p, ch)
    case ChunkSize => StepChunkSize(p, ch)
    case ChunkParameters => StepChunkParameters(p, ch)
    case ChunkSizeAlmostDone => StepChunkSizeAlmostDone(p, ch)
    case ChunkData => StepChunkData(p)
    case ChunkDataAlmostDone => StepChunkDataAlmostDone(p, ch)
    case ChunkDataDone => StepChunkDataDone(p, ch)
    case BodyIdentity => StepBodyIdentity(p)
    case BodyIdentityEof => Ask(p, SetMark(Body))
    case MessageDone => StepMessageDone(p)
  }

  /** COUNT_HEADER_SIZE(1), then the switch. */
  function Step(p: Parser, ch: char, cfg: Config): Eff {
    if !ParsingHeader(p.state) then Dispatch(p, ch, cfg)
    else if p.nread + 1 > cfg.maxHeader then Error(p.(nread := p.nread + 1), HeaderOverflow)
    else Dispatch(p.(nread := p.nread + 1), ch, cfg)
  }
}
