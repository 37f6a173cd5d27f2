/** http_parser_parse_url: cutting a URL into its fields.

    Two automata read the URL: one over the whole buffer, and one over the part that
    holds user info, host and port.  Each byte belongs to the field of the state that
    it leads to.  The two loops only keep the offset and length of each field; they are
    proved to describe exactly those bytes, and the fields to partition the URL. */
module HttpParserUrl {
  import opened HttpChars
  import opened Numerals
  import opened HttpParser
  import opened HttpRun

  datatype Part = Schema | UserInfo | Host | Port | Path | Query | Fragment

  datatype Span = Span(off: nat, len: nat)

  /** The fields that are set: `field_set` and `field_data`. */
  type Fields = map<Part, Span>

  datatype Parsed = Rejected | Parsed(fields: Fields, port: nat)

  /** The field a byte belongs to; `Gap` for a delimiter. */
  datatype Label = Gap | In(part: Part)

  predicate Within(f: Fields, part: Part, k: int) { part in f && f[part].off <= k < f[part].off + f[part].len }

  // ---------- the whole buffer ----------

  function Start(connect: bool): State { if connect then ReqServerStart else ReqSpacesBeforeUrl }

  /** The states before every byte of `buf` and at its end. */
  function UrlTrace(buf: string, connect: bool): (r: seq<State>)
    ensures |r| == |buf| + 1
  {
    if buf == "" then [Start(connect)]
    else
      var n := |buf| - 1;
      var r := UrlTrace(buf[..n], connect);
      r + [ParseUrlChar(r[n], buf[n])]
  }

  function StateAt(buf: string, connect: bool, k: nat): State
    requires k <= |buf|
  {
    UrlTrace(buf, connect)[k]
  }

  lemma {:induction false} StateFirst(buf: string, connect: bool)
    ensures StateAt(buf, connect, 0) == Start(connect)
  {
    if buf != "" { StateFirst(buf[..|buf| - 1], connect); }
  }

  function LabelOf(s: State): Label {
    match s
    case ReqSchema => In(Schema)
    case ReqServer => In(Host)
    case ReqServerWithAt => In(Host)
    case ReqPath => In(Path)
    case ReqQueryString => In(Query)
    case ReqFragment => In(Fragment)
    case _ => Gap
  }

  /** States in the order in which a URL goes through them. */
  function Rank(s: State): nat {
    match s
    case ReqSpacesBeforeUrl => 0
    case ReqSchema => 1
    case ReqSchemaSlash => 2
    case ReqSchemaSlashSlash => 3
    case ReqServerStart => 4
    case ReqServer => 5
    case ReqServerWithAt => 5
    case ReqPath => 6
    case ReqQueryStringStart => 7
    case ReqQueryString => 8
    case ReqFragmentStart => 9
    case ReqFragment => 10
    case _ => 11
  }

  function PartRank(part: Part): nat {
    match part
    case Schema => 1 case UserInfo => 5 case Host => 5 case Port => 5 case Path => 6 case Query => 8 case Fragment => 10
  }

  /** A URL never goes back, and stays only inside a field or among repeated '#'. */
  lemma {:induction false} RankGrows(s: State, ch: char)
    requires !ParseUrlChar(s, ch).Dead?
    ensures var t := ParseUrlChar(s, ch);
      Rank(s) <= Rank(t) <= 10 && (Rank(s) == Rank(t) ==> LabelOf(s) == LabelOf(t))
  {}

  lemma {:induction false} LabelRank(s: State)
    ensures LabelOf(s).In? ==> Rank(s) == PartRank(LabelOf(s).part)
    ensures forall part: Part ::
      LabelOf(s).In? && PartRank(part) == Rank(s) && part != UserInfo && part != Port ==> LabelOf(s) == In(part)
  {}

  lemma {:induction false} StateSnoc(buf: string, connect: bool, k: nat)
    requires k < |buf|
    ensures StateAt(buf, connect, k + 1) == ParseUrlChar(StateAt(buf, connect, k), buf[k])
  {
    var n := |buf| - 1;
    if k < n { StateSnoc(buf[..n], connect, k); }
  }

  /** The fields set after `i` bytes are the bytes with their label. */
  ghost predicate Describes(f: Fields, buf: string, connect: bool, i: nat)
    requires i <= |buf|
  {
    && UserInfo !in f && Port !in f
    && (forall part :: part in f ==> f[part].len > 0 && f[part].off + f[part].len <= i)
    && (forall part, k: nat {:trigger Within(f, part, k)} :: k < i ==>
          (Within(f, part, k) <==> LabelOf(StateAt(buf, connect, k + 1)) == In(part)))
  }

  /** What the state says of the field being read, `was`. */
  ghost predicate Current(f: Fields, s: State, was: Label, i: nat) {
    && (forall part :: part in f ==> PartRank(part) <= Rank(s))
    && (was.In? ==> was.part in f)
    && (LabelOf(s).In? ==> was == LabelOf(s) && f[was.part].off + f[was.part].len == i)
    && (LabelOf(s).Gap? ==> forall part :: part in f ==> PartRank(part) < Rank(s))
    && (forall part :: part in f && LabelOf(s).In? && part != was.part ==> PartRank(part) < Rank(s))
  }

  /** One byte of the loop. */
  function Extend(f: Fields, was: Label, part: Part, i: nat): Fields
    requires was == In(part) ==> part in f
  {
    if was == In(part) then f[part := Span(f[part].off, f[part].len + 1)] else f[part := Span(i, 1)]
  }

  /** The field of the next byte is the one being read, which ends there, or has not been set. */
  predicate Fits(f: Fields, was: Label, part: Part, i: nat) {
    if was == In(part) then part in f && f[part].off + f[part].len == i else part !in f
  }

  lemma {:induction false} NextFits(f: Fields, s: State, was: Label, i: nat, ch: char)
    requires Current(f, s, was, i) && UserInfo !in f && Port !in f
    requires !ParseUrlChar(s, ch).Dead? && LabelOf(ParseUrlChar(s, ch)).In?
    ensures Fits(f, was, LabelOf(ParseUrlChar(s, ch)).part, i)
  {
    RankGrows(s, ch);
    LabelRank(s);
    LabelRank(ParseUrlChar(s, ch));
  }

  /** Adding byte `i` to its field adds nothing else. */
  lemma {:induction false} ExtendWithin(f: Fields, was: Label, part: Part, i: nat)
    requires Fits(f, was, part, i)
    ensures var g := Extend(f, was, part, i);
      forall q, k: nat :: Within(g, q, k) <==> Within(f, q, k) || (q == part && k == i)
  {}

  lemma {:induction false} ExtendCurrent(f: Fields, s: State, was: Label, i: nat, ch: char)
    requires Current(f, s, was, i) && !ParseUrlChar(s, ch).Dead? && LabelOf(ParseUrlChar(s, ch)).In?
    requires Fits(f, was, LabelOf(ParseUrlChar(s, ch)).part, i)
    ensures var t := ParseUrlChar(s, ch);
      Current(Extend(f, was, LabelOf(t).part, i), t, LabelOf(t), i + 1)
  {
    RankGrows(s, ch);
    LabelRank(s);
    LabelRank(ParseUrlChar(s, ch));
  }

  lemma {:induction false} ExtendDescribes(f: Fields, buf: string, connect: bool, i: nat, was: Label, t: State,
                                           g: Fields)
    requires i < |buf| && Describes(f, buf, connect, i) && t == StateAt(buf, connect, i + 1) && LabelOf(t).In?
    requires Fits(f, was, LabelOf(t).part, i) && g == Extend(f, was, LabelOf(t).part, i)
    requires LabelOf(t).part != UserInfo && LabelOf(t).part != Port
    ensures Describes(g, buf, connect, i + 1)
  {
    ExtendWithin(f, was, LabelOf(t).part, i);
    assert forall part :: !Within(f, part, i);
    forall q, k: nat | k < i + 1 ensures Within(g, q, k) <==> LabelOf(StateAt(buf, connect, k + 1)) == In(q) {
      assert Within(g, q, k) <==> Within(f, q, k) || (q == LabelOf(t).part && k == i);
    }
  }

  lemma {:induction false} SkipDescribes(f: Fields, buf: string, connect: bool, i: nat, was: Label, s: State)
    requires i < |buf| && Describes(f, buf, connect, i) && s == StateAt(buf, connect, i) && Current(f, s, was, i)
    requires !StateAt(buf, connect, i + 1).Dead? && LabelOf(StateAt(buf, connect, i + 1)).Gap?
    ensures Describes(f, buf, connect, i + 1) && Current(f, StateAt(buf, connect, i + 1), was, i + 1)
  {
    StateSnoc(buf, connect, i);
    RankGrows(s, buf[i]);
    LabelRank(s);
    assert forall part :: !Within(f, part, i);
  }

  // ---------- user info, host and port ----------

  datatype HostState =
    | HostDead | UserInfoStart | InUserInfo | HostStart | V6Start | InHost | V6 | V6End | V6ZoneStart | V6Zone
    | PortStart | InPort

  function ParseHostChar(s: HostState, ch: char): HostState {
    match s
    case InUserInfo => ParseUserInfoChar(ch)
    case UserInfoStart => ParseUserInfoChar(ch)
    case HostStart => if ch == '[' then V6Start else if IsHostChar(ch) then InHost else HostDead
    case InHost => if IsHostChar(ch) then InHost else if ch == ':' then PortStart else HostDead
    case V6End => if ch == ':' then PortStart else HostDead
    case V6 => if ch == ']' then V6End else if IsV6Char(ch) then V6 else if ch == '%' then V6ZoneStart else HostDead
    case V6Start => if IsV6Char(ch) then V6 else HostDead
    case V6Zone => if ch == ']' then V6End else if IsZoneChar(ch) then V6Zone else HostDead
    case V6ZoneStart => if IsZoneChar(ch) then V6Zone else HostDead
    case InPort => if IsNumber(ch) then InPort else HostDead
    case PortStart => if IsNumber(ch) then InPort else HostDead
    case HostDead => HostDead
  }

  function ParseUserInfoChar(ch: char): HostState {
    if ch == '@' then HostStart else if IsUserinfoChar(ch) then InUserInfo else HostDead
  }

  predicate IsV6Char(ch: char) { IsHex(ch) || ch == ':' || ch == '.' }

  predicate IsZoneChar(ch: char) {
    IsAlphanum(ch) || ch == '%' || ch == '.' || ch == '-' || ch == '_' || ch == '~'
  }

  function HostTrace(text: string, at: bool): (r: seq<HostState>)
    ensures |r| == |text| + 1
  {
    if text == "" then [if at then UserInfoStart else HostStart]
    else
      var n := |text| - 1;
      var r := HostTrace(text[..n], at);
      r + [ParseHostChar(r[n], text[n])]
  }

  /** The state before byte `k`, when the host part starts at `off`. */
  function HostAt(buf: string, at: bool, off: nat, k: nat): HostState
    requires off <= k <= |buf|
  {
    HostTrace(buf[off..], at)[k - off]
  }

  lemma {:induction false} HostFirst(text: string, at: bool)
    ensures HostTrace(text, at)[0] == if at then UserInfoStart else HostStart
  {
    if text != "" { HostFirst(text[..|text| - 1], at); }
  }

  lemma {:induction false} HostNext(text: string, at: bool, k: nat)
    requires k < |text|
    ensures HostTrace(text, at)[k + 1] == ParseHostChar(HostTrace(text, at)[k], text[k])
  {
    var n := |text| - 1;
    if k < n { HostNext(text[..n], at, k); }
  }

  function HostLabel(s: HostState): Label {
    match s
    case InUserInfo => In(UserInfo)
    case InHost => In(Host)
    case V6 => In(Host)
    case V6ZoneStart => In(Host)
    case V6Zone => In(Host)
    case InPort => In(Port)
    case _ => Gap
  }

  function HostRank(s: HostState): nat {
    match s
    case UserInfoStart => 0
    case InUserInfo => 1
    case HostStart => 2
    case V6Start => 3
    case InHost => 4
    case V6 => 4
    case V6ZoneStart => 4
    case V6Zone => 4
    case V6End => 5
    case PortStart => 6
    case InPort => 7
    case HostDead => 8
  }

  function HostPartRank(part: Part): nat {
    match part case UserInfo => 1 case Host => 4 case Port => 7 case _ => 9
  }

  lemma {:induction false} HostRankGrows(s: HostState, ch: char)
    requires !ParseHostChar(s, ch).HostDead?
    ensures var t := ParseHostChar(s, ch);
      && HostRank(s) <= HostRank(t) <= 7 && (HostRank(s) == HostRank(t) ==> HostLabel(s) == HostLabel(t) != Gap)
      && (HostRank(t) > 4 ==> HostRank(s) >= 4)
  {}

  lemma {:induction false} HostLabelRank(s: HostState, part: Part)
    ensures HostLabel(s) == In(part) <==> HostRank(s) == HostPartRank(part)
  {}

  lemma {:induction false} HostSnoc(buf: string, at: bool, off: nat, k: nat)
    requires off <= k < |buf|
    ensures HostAt(buf, at, off, k + 1) == ParseHostChar(HostAt(buf, at, off, k), buf[k])
  {
    HostNext(buf[off..], at, k - off);
  }

  /** The two tests before a byte is added to a field: does the field start at this byte?  The host does so
      where the state enters s_http_host or s_http_host_v6, the others where their state is entered. */
  predicate StartsAt(s: HostState, t: HostState) {
    match t
    case InHost => s != InHost
    case V6 => s != V6
    case InPort => s != InPort
    case InUserInfo => s != InUserInfo
    case _ => false
  }

  function ExtendHost(g: Fields, s: HostState, t: HostState, i: nat): Fields
    requires HostLabel(t).In? && (HostLabel(t).part in g || (!HostLabel(t).part.Host? && StartsAt(s, t)))
  {
    var part := HostLabel(t).part;
    if part.Host? then g[Host := Span(if StartsAt(s, t) then i else g[Host].off, g[Host].len + 1)]
    else if StartsAt(s, t) then g[part := Span(i, 1)]
    else g[part := Span(g[part].off, g[part].len + 1)]
  }

  /** The fields set after byte `i` of the host part, which starts at `off`.  The host itself is set from
      the start, with length zero. */
  ghost predicate DescribesHost(g: Fields, buf: string, at: bool, off: nat, i: nat)
    requires off <= i <= |buf|
  {
    && Host in g
    && (forall part :: part in g && HostPartRank(part) < 9 ==>
          off <= g[part].off && g[part].off + g[part].len <= i && (part.Host? || g[part].len > 0))
    && (forall part, k: nat {:trigger Within(g, part, k)} :: off <= k < i && HostPartRank(part) < 9 ==>
          (Within(g, part, k) <==> HostLabel(HostAt(buf, at, off, k + 1)) == In(part)))
  }

  ghost predicate CurrentHost(g: Fields, s: HostState, i: nat)
    requires Host in g
  {
    && (UserInfo in g ==> 1 <= HostRank(s)) && (Port in g ==> 7 <= HostRank(s)) &&
       (g[Host].len > 0 <==> 4 <= HostRank(s))
    && (HostLabel(s).In? ==> HostLabel(s).part in g && g[HostLabel(s).part].off + g[HostLabel(s).part].len == i)
  }

  lemma {:induction false} StartsByRank(s: HostState, ch: char)
    requires HostLabel(ParseHostChar(s, ch)).In?
    ensures StartsAt(s, ParseHostChar(s, ch)) <==> HostRank(s) < HostRank(ParseHostChar(s, ch))
  {}

  /** Adding byte `i` to its field adds nothing else. */
  lemma {:induction false} ExtendHostWithin(g: Fields, s: HostState, t: HostState, i: nat)
    requires HostLabel(t).In? && (HostLabel(t).part in g || (!HostLabel(t).part.Host? && StartsAt(s, t)))
    requires var part := HostLabel(t).part;
      if StartsAt(s, t) then (part.Host? ==> g[Host].len == 0) && (!part.Host? ==> part !in g)
        else g[part].off + g[part].len == i
    ensures var h, part := ExtendHost(g, s, t, i), HostLabel(t).part;
      forall q, k: nat :: Within(h, q, k) <==> Within(g, q, k) || (q == part && k == i)
  {}

  lemma {:induction false} ExtendHostReady(g: Fields, buf: string, at: bool, off: nat, i: nat, s: HostState,
                                           t: HostState)
    requires off <= i < |buf| && DescribesHost(g, buf, at, off, i) && CurrentHost(g, s, i)
    requires s == HostAt(buf, at, off, i) && t == HostAt(buf, at, off, i + 1) != HostDead && HostLabel(t).In?
    ensures HostLabel(t).part in g || (!HostLabel(t).part.Host? && StartsAt(s, t))
    ensures var part := HostLabel(t).part;
      if StartsAt(s, t) then (part.Host? ==> g[Host].len == 0) && (!part.Host? ==> part !in g)
        else g[part].off + g[part].len == i
    ensures HostRank(s) <= HostRank(t) && HostRank(t) == HostPartRank(HostLabel(t).part) < 9
    ensures !StartsAt(s, t) ==> HostRank(s) == HostRank(t)
    ensures HostRank(t) > 4 ==> HostRank(s) >= 4
  {
    HostSnoc(buf, at, off, i);
    HostRankGrows(s, buf[i]);
    StartsByRank(s, buf[i]);
    HostLabelRank(s, HostLabel(t).part);
    HostLabelRank(t, HostLabel(t).part);
  }

  /** One byte more, which belongs to `part`. */
  lemma {:induction false} LabelledNext(g: Fields, h: Fields, buf: string, at: bool, off: nat, i: nat, part: Part)
    requires off <= i < |buf| && DescribesHost(g, buf, at, off, i) && HostLabel(HostAt(buf, at, off, i + 1)) == In(part)
    requires forall q, k: nat :: Within(h, q, k) <==> Within(g, q, k) || (q == part && k == i)
    ensures forall q, k: nat {:trigger Within(h, q, k)} :: off <= k < i + 1 && HostPartRank(q) < 9 ==>
              (Within(h, q, k) <==> HostLabel(HostAt(buf, at, off, k + 1)) == In(q))
  {
    assert forall q :: HostPartRank(q) < 9 ==> !Within(g, q, i);
  }

  lemma {:induction false} ExtendHostDescribes(g: Fields, buf: string, at: bool, off: nat, i: nat, s: HostState,
                                               t: HostState, h: Fields)
    requires off <= i < |buf| && DescribesHost(g, buf, at, off, i) && CurrentHost(g, s, i)
    requires s == HostAt(buf, at, off, i) && t == HostAt(buf, at, off, i + 1) != HostDead && HostLabel(t).In?
    requires (HostLabel(t).part in g || (!HostLabel(t).part.Host? && StartsAt(s, t))) && h == ExtendHost(g, s, t, i)
    ensures DescribesHost(h, buf, at, off, i + 1)
  {
    ExtendHostReady(g, buf, at, off, i, s, t);
    ExtendHostWithin(g, s, t, i);
    LabelledNext(g, h, buf, at, off, i, HostLabel(t).part);
  }

  lemma {:induction false} ExtendHostCurrent(g: Fields, buf: string, at: bool, off: nat, i: nat, s: HostState,
                                             t: HostState, h: Fields)
    requires off <= i < |buf| && DescribesHost(g, buf, at, off, i) && CurrentHost(g, s, i)
    requires s == HostAt(buf, at, off, i) && t == HostAt(buf, at, off, i + 1) != HostDead && HostLabel(t).In?
    requires (HostLabel(t).part in g || (!HostLabel(t).part.Host? && StartsAt(s, t))) && h == ExtendHost(g, s, t, i)
    ensures Host in h && CurrentHost(h, t, i + 1)
  {
    ExtendHostReady(g, buf, at, off, i, s, t);
  }

  lemma {:induction false} SkipHostDescribes(g: Fields, buf: string, at: bool, off: nat, i: nat, s: HostState,
                                             t: HostState)
    requires off <= i < |buf| && DescribesHost(g, buf, at, off, i) && CurrentHost(g, s, i)
    requires s == HostAt(buf, at, off, i) && t == HostAt(buf, at, off, i + 1) != HostDead && HostLabel(t).Gap?
    ensures DescribesHost(g, buf, at, off, i + 1) && CurrentHost(g, t, i + 1)
  {
    HostSnoc(buf, at, off, i);
    HostRankGrows(s, buf[i]);
    HostLabelRank(s, Host);
    HostLabelRank(t, Host);
    assert forall part :: HostPartRank(part) < 9 ==> !Within(g, part, i);
  }

  // ---------- the loops ----------

  /** A host part may only end inside a host, after a bracketed one, or inside a port. */
  predicate HostEnds(s: HostState) { s.InHost? || s.V6End? || s.InPort? }

  function PartEnd(f: Fields, part: Part): nat
    requires part in f
  {
    f[part].off + f[part].len
  }

  predicate SameOthers(f: Fields, g: Fields) {
    forall part :: HostPartRank(part) == 9 ==> (part in f <==> part in g) && (part in f ==> f[part] == g[part])
  }

  datatype HostCursor = HostCursor(s: HostState, g: Fields)

  function HostByte(c: HostCursor, t: HostState, i: nat): HostCursor
    requires HostLabel(t).In? ==> HostLabel(t).part in c.g || (!HostLabel(t).part.Host? && StartsAt(c.s, t))
  {
    HostCursor(t, if HostLabel(t).In? then ExtendHost(c.g, c.s, t, i) else c.g)
  }

  ghost function HostPace(c: HostCursor, f: Fields, buf: string, at: bool, off: nat, i: nat): Pace
    requires off <= i <= |buf|
  {
    if c.s == HostAt(buf, at, off, i) != HostDead && SameOthers(f, c.g) && DescribesHost(c.g, buf, at, off, i) &&
       CurrentHost(c.g, c.s, i) then InStep else OutOfStep
  }

  lemma {:induction false} HostPaceStarts(f: Fields, buf: string, at: bool, off: nat)
    requires UserInfo !in f && Port !in f && off <= |buf|
    ensures HostPace(HostCursor(if at then UserInfoStart else HostStart, f[Host := Span(off, 0)]), f, buf, at, off,
      off).InStep?
  {
    HostFirst(buf[off..], at);
  }

  lemma {:induction false} HostPaceExtends(c: HostCursor, f: Fields, buf: string, at: bool, off: nat, i: nat,
                                           t: HostState)
    requires off <= i < |buf| && HostPace(c, f, buf, at, off, i).InStep?
    requires t == HostAt(buf, at, off, i + 1) != HostDead && HostLabel(t).In?
    ensures HostLabel(t).part in c.g || (!HostLabel(t).part.Host? && StartsAt(c.s, t))
    ensures HostPace(HostByte(c, t, i), f, buf, at, off, i + 1).InStep?
  {
    ExtendHostReady(c.g, buf, at, off, i, c.s, t);
    ExtendHostDescribes(c.g, buf, at, off, i, c.s, t, ExtendHost(c.g, c.s, t, i));
    ExtendHostCurrent(c.g, buf, at, off, i, c.s, t, ExtendHost(c.g, c.s, t, i));
    ExtendSameOthers(f, c.g, c.s, t, i);
  }

  lemma {:induction false} ExtendSameOthers(f: Fields, g: Fields, s: HostState, t: HostState, i: nat)
    requires HostLabel(t).In? && (HostLabel(t).part in g || (!HostLabel(t).part.Host? && StartsAt(s, t)))
    requires SameOthers(f, g) && HostPartRank(HostLabel(t).part) < 9
    ensures SameOthers(f, ExtendHost(g, s, t, i))
  {}

  lemma {:induction false} HostPaceSkips(c: HostCursor, f: Fields, buf: string, at: bool, off: nat, i: nat,
                                         t: HostState)
    requires off <= i < |buf| && HostPace(c, f, buf, at, off, i).InStep?
    requires t == HostAt(buf, at, off, i + 1) != HostDead && HostLabel(t).Gap?
    ensures HostPace(HostByte(c, t, i), f, buf, at, off, i + 1).InStep?
  {
    SkipHostDescribes(c.g, buf, at, off, i, c.s, t);
  }

  /** Where the cursor stands. */
  lemma {:induction false} HostPaceAt(c: HostCursor, f: Fields, buf: string, at: bool, off: nat, i: nat)
    requires off <= i <= |buf| && HostPace(c, f, buf, at, off, i).InStep?
    ensures c.s == HostAt(buf, at, off, i)
    ensures HostEnds(c.s) ==> SameOthers(f, c.g) && DescribesHost(c.g, buf, at, off, i) && c.g[Host].len > 0
  {}

  lemma {:induction false} HostPaceGoesOn(c: HostCursor, f: Fields, buf: string, at: bool, off: nat, i: nat, end: nat,
                                          t: HostState)
    requires off <= i < end <= |buf| && HostPace(c, f, buf, at, off, i).InStep? && t == ParseHostChar(c.s, buf[i])
    ensures if t.HostDead? then HostAt(buf, at, off, end).HostDead?
      else
        (HostLabel(t).In? ==> HostLabel(t).part in c.g || (!HostLabel(t).part.Host? && StartsAt(c.s, t))) &&
        HostPace(HostByte(c, t, i), f, buf, at, off, i + 1).InStep?
  {
    HostPaceAt(c, f, buf, at, off, i);
    HostSnoc(buf, at, off, i);
    if t.HostDead? {
      HostDeadStays(buf, at, off, i + 1, end);
    } else if HostLabel(t).In? {
      HostPaceExtends(c, f, buf, at, off, i, t);
    } else {
      HostPaceSkips(c, f, buf, at, off, i, t);
    }
  }

  /** http_parse_host */
  method ParseHost(buf: string, f: Fields, at: bool) returns (ok: bool, g: Fields)
    requires Host in f && UserInfo !in f && Port !in f && PartEnd(f, Host) <= |buf|
    ensures ok <==> HostEnds(HostAt(buf, at, f[Host].off, PartEnd(f, Host)))
    ensures ok ==> SameOthers(f, g) && DescribesHost(g, buf, at, f[Host].off, PartEnd(f, Host)) && g[Host].len > 0
  {
    var off, end := f[Host].off, PartEnd(f, Host);
    var c := HostCursor(if at then UserInfoStart else HostStart, f[Host := Span(off, 0)]);
    HostPaceStarts(f, buf, at, off);
    for i := off to end
      invariant HostPace(c, f, buf, at, off, i).InStep?
    {
      var t := ParseHostChar(c.s, buf[i]);
      HostPaceGoesOn(c, f, buf, at, off, i, end, t);
      if t == HostDead {
        return false, c.g;
      }
      c := HostByte(c, t, i);
    }
    HostPaceAt(c, f, buf, at, off, end);
    return HostEnds(c.s), c.g;
  }

  lemma {:induction false} HostDeadStays(buf: string, at: bool, off: nat, i: nat, k: nat)
    requires off <= i <= k <= |buf| && HostAt(buf, at, off, i).HostDead?
    ensures HostAt(buf, at, off, k).HostDead?
    decreases k
  {
    if i < k {
      HostDeadStays(buf, at, off, i, k - 1);
      HostSnoc(buf, at, off, k - 1);
    }
  }

  lemma {:induction false} UrlDeadStays(buf: string, connect: bool, i: nat, k: nat)
    requires i <= k <= |buf| && StateAt(buf, connect, i).Dead?
    ensures StateAt(buf, connect, k).Dead?
    decreases k
  {
    if i < k {
      UrlDeadStays(buf, connect, i, k - 1);
      StateSnoc(buf, connect, k - 1);
    }
  }

  ghost predicate AtSeen(buf: string, connect: bool, i: nat)
    requires i <= |buf|
  {
    exists k: nat :: k <= i && StateAt(buf, connect, k).ReqServerWithAt?
  }

  /** The variables of the first loop: the state, the fields, the field being read, and whether '@' was seen. */
  datatype Cursor = Cursor(s: State, f: Fields, was: Label, at: bool)

  function UrlByte(c: Cursor, t: State, i: nat): Cursor
    requires c.was.In? ==> c.was.part in c.f
  {
    if LabelOf(t).In? then Cursor(t, Extend(c.f, c.was, LabelOf(t).part, i), LabelOf(t), c.at || t.ReqServerWithAt?)
    else c.(s := t)
  }

  ghost function UrlPace(c: Cursor, buf: string, connect: bool, i: nat): Pace
    requires i <= |buf|
  {
    if c.s == StateAt(buf, connect, i) != Dead && Describes(c.f, buf, connect, i) && Current(c.f, c.s, c.was, i) &&
       c.at == AtSeen(buf, connect, i) then InStep else OutOfStep
  }

  lemma {:induction false} UrlPaceStarts(buf: string, connect: bool)
    ensures UrlPace(Cursor(Start(connect), map[], Gap, false), buf, connect, 0).InStep?
  {
    StateFirst(buf, connect);
  }

  lemma {:induction false} UrlPaceGoesOn(c: Cursor, buf: string, connect: bool, i: nat, t: State)
    requires i < |buf| && UrlPace(c, buf, connect, i).InStep? && t == ParseUrlChar(c.s, buf[i])
    ensures t.Dead? ==> StateAt(buf, connect, |buf|).Dead?
    ensures (c.was.In? ==> c.was.part in c.f) && (!t.Dead? ==> UrlPace(UrlByte(c, t, i), buf, connect, i + 1).InStep?)
  {
    StateSnoc(buf, connect, i);
    if t.Dead? {
      UrlDeadStays(buf, connect, i + 1, |buf|);
    } else {
      AtSeenNext(buf, connect, i);
      if LabelOf(t).In? { UrlPaceExtends(c, buf, connect, i, t); } else {
        SkipDescribes(c.f, buf, connect, i, c.was, c.s);
      }
    }
  }

  lemma {:induction false} UrlPaceExtends(c: Cursor, buf: string, connect: bool, i: nat, t: State)
    requires i < |buf| && UrlPace(c, buf, connect, i).InStep? && t == ParseUrlChar(c.s, buf[i]) && !t.Dead? &&
      LabelOf(t).In?
    ensures (c.was.In? ==> c.was.part in c.f) && var g := Extend(c.f, c.was, LabelOf(t).part, i);
      Describes(g, buf, connect, i + 1) && Current(g, t, LabelOf(t), i + 1)
  {
    StateSnoc(buf, connect, i);
    NextFits(c.f, c.s, c.was, i, buf[i]);
    ExtendCurrent(c.f, c.s, c.was, i, buf[i]);
    ExtendDescribes(c.f, buf, connect, i, c.was, t, Extend(c.f, c.was, LabelOf(t).part, i));
  }

  /** The first loop of http_parser_parse_url. */
  method ScanUrl(buf: string, connect: bool) returns (ok: bool, f: Fields, at: bool)
    ensures ok <==> !StateAt(buf, connect, |buf|).Dead?
    ensures ok ==> Describes(f, buf, connect, |buf|) && at == AtSeen(buf, connect, |buf|)
  {
    var c := Cursor(Start(connect), map[], Gap, false);
    UrlPaceStarts(buf, connect);
    for i := 0 to |buf|
      invariant UrlPace(c, buf, connect, i).InStep?
    {
      var t := ParseUrlChar(c.s, buf[i]);
      UrlPaceGoesOn(c, buf, connect, i, t);
      if t == Dead {
        return false, map[], false;
      }
      c := UrlByte(c, t, i);
    }
    return true, c.f, c.at;
  }

  lemma {:induction false} AtSeenNext(buf: string, connect: bool, i: nat)
    requires i < |buf|
    ensures AtSeen(buf, connect, i + 1) <==> AtSeen(buf, connect, i) || StateAt(buf, connect, i + 1).ReqServerWithAt?
  {
    if AtSeen(buf, connect, i + 1) {
      var k: nat :| k <= i + 1 && StateAt(buf, connect, k).ReqServerWithAt?;
      assert k <= i ==> AtSeen(buf, connect, i);
    }
  }

  const MAX_PORT := 0xFFFF

  lemma {:induction false} DecimalGrows(d: string, k: nat)
    requires k <= |d| && AllDigits(d)
    ensures Decimal(d[..k]) <= Decimal(d)
    decreases |d| - k
  {
    if k < |d| {
      assert d[..k + 1][..k] == d[..k];
      DecimalGrows(d, k + 1);
    } else {
      assert d[..k] == d;
    }
  }

  /** The loop over the digits of the port. */
  method ReadPort(d: string) returns (ok: bool, v: nat)
    requires AllDigits(d)
    ensures ok <==> Decimal(d) <= MAX_PORT
    ensures ok ==> v == Decimal(d)
  {
    v := 0;
    for i := 0 to |d|
      invariant v == Decimal(d[..i]) <= MAX_PORT
    {
      v := v * 10 + Digit(d[i]);
      assert d[..i + 1][..i] == d[..i];
      if v > MAX_PORT {
        DecimalGrows(d, i + 1);
        ok := false;
        return;
      }
    }
    assert d[..|d|] == d;
    ok := true;
  }

  // ---------- the whole function ----------

  function TextOf(buf: string, f: Fields, part: Part): string
    requires part in f && PartEnd(f, part) <= |buf|
  {
    buf[f[part].off..PartEnd(f, part)]
  }

  /** The final fields `g` come from the fields `f` of the first loop. */
  ghost predicate Refined(buf: string, connect: bool, f: Fields, g: Fields)
    requires Describes(f, buf, connect, |buf|)
  {
    if Host !in f then g == f
    else
      var off, end, at := f[Host].off, PartEnd(f, Host), AtSeen(buf, connect, |buf|);
      HostEnds(HostAt(buf, at, off, end)) && SameOthers(f, g) && DescribesHost(g, buf, at, off, end) && g[Host].len > 0
  }

  /** Which URLs are accepted, and with which fields. */
  ghost predicate Accepts(buf: string, connect: bool, f: Fields, g: Fields) {
    && buf != "" && !StateAt(buf, connect, |buf|).Dead? && Describes(f, buf, connect, |buf|)
    && (Schema in f ==> Host in f) && Refined(buf, connect, f, g)
    && (connect ==> g.Keys == {Host, Port})
    && (Port in g ==>
          PartEnd(g, Port) <= |buf| && AllDigits(TextOf(buf, g, Port)) && Decimal(TextOf(buf, g, Port)) <= MAX_PORT)
  }

  lemma {:induction false} DescribesOnce(f: Fields, f': Fields, buf: string, connect: bool)
    requires Describes(f, buf, connect, |buf|) && Describes(f', buf, connect, |buf|)
    ensures f == f'
  {
    forall part ensures part in f <==> part in f' {
      if part in f { assert Within(f, part, f[part].off) <==> Within(f', part, f[part].off); }
      if part in f' { assert Within(f, part, f'[part].off) <==> Within(f', part, f'[part].off); }
    }
    forall part | part in f ensures f[part] == f'[part] { SpansAgree(f, f', buf, connect, part); }
  }

  lemma {:induction false} SpansAgree(f: Fields, f': Fields, buf: string, connect: bool, part: Part)
    requires Describes(f, buf, connect, |buf|) && Describes(f', buf, connect, |buf|) && part in f && part in f'
    ensures f[part] == f'[part]
  {
    var a, b := f[part], f'[part];
    assert Within(f, part, a.off) <==> Within(f', part, a.off);
    assert Within(f, part, b.off) <==> Within(f', part, b.off);
    assert Within(f, part, a.off + a.len - 1) <==> Within(f', part, a.off + a.len - 1);
    assert Within(f, part, b.off + b.len - 1) <==> Within(f', part, b.off + b.len - 1);
  }

  lemma {:induction false} RefinedOnce(buf: string, connect: bool, f: Fields, g: Fields, g': Fields)
    requires Describes(f, buf, connect, |buf|) && Refined(buf, connect, f, g) && Refined(buf, connect, f, g')
    ensures g == g'
  {
    if Host in f {
      var off, end, at := f[Host].off, PartEnd(f, Host), AtSeen(buf, connect, |buf|);
      forall part ensures (part in g <==> part in g') && (part in g ==> g[part] == g'[part]) {
        if HostPartRank(part) < 9 { HostSpansAgree(g, g', buf, at, off, end, part); }
      }
    }
  }

  lemma {:induction false} HostSpansAgree(g: Fields, g': Fields, buf: string, at: bool, off: nat, end: nat, part: Part)
    requires off <= end <= |buf| && DescribesHost(g, buf, at, off, end) && DescribesHost(g', buf, at, off, end)
    requires g[Host].len > 0 && g'[Host].len > 0 && HostPartRank(part) < 9
    ensures (part in g <==> part in g') && (part in g ==> g[part] == g'[part])
  {
    if part in g { assert Within(g, part, g[part].off) <==> Within(g', part, g[part].off); }
    if part in g' { assert Within(g, part, g'[part].off) <==> Within(g', part, g'[part].off); }
    if part in g && part in g' {
      var a, b := g[part], g'[part];
      assert Within(g, part, a.off + a.len - 1) <==> Within(g', part, a.off + a.len - 1);
      assert Within(g, part, b.off + b.len - 1) <==> Within(g', part, b.off + b.len - 1);
    }
  }

  lemma {:induction false} PortDigits(g: Fields, buf: string, at: bool, off: nat, end: nat)
    requires off <= end <= |buf| && DescribesHost(g, buf, at, off, end) && !HostAt(buf, at, off, end).HostDead? &&
      Port in g
    ensures PartEnd(g, Port) <= |buf| && AllDigits(TextOf(buf, g, Port))
  {
    var d := TextOf(buf, g, Port);
    forall k | 0 <= k < |d| ensures IsNumber(d[k]) {
      var i := g[Port].off + k;
      assert Within(g, Port, i);
      HostSnoc(buf, at, off, i);
    }
  }

  /** http_parser_parse_url, on a buffer whose offsets fit their 16 bits. */
  method ParseUrl(buf: string, connect: bool) returns (r: Parsed)
    requires |buf| <= 0xFFFF
    ensures r.Rejected? ==> forall f, g :: !Accepts(buf, connect, f, g)
    ensures r.Parsed? ==>
      && (exists f :: Accepts(buf, connect, f, r.fields))
      && (if Port in r.fields then
         PartEnd(r.fields, Port) <= |buf| && AllDigits(TextOf(buf, r.fields, Port)) &&
           r.port == Decimal(TextOf(buf, r.fields, Port))
          else r.port == 0)
  {
    if buf == "" {
      return Rejected;
    }
    var ok, f, at := ScanUrl(buf, connect);
    if !ok {
      return Rejected;
    }
    forall f', g | Accepts(buf, connect, f', g) ensures f' == f { DescribesOnce(f, f', buf, connect); }
    if Schema in f && Host !in f {
      return Rejected;
    }
    var g := f;
    if Host in f {
      ok, g := ParseHost(buf, f, at);
      if !ok {
        return Rejected;
      }
    }
    forall f', g' | Accepts(buf, connect, f', g') ensures g' == g { RefinedOnce(buf, connect, f, g, g'); }
    if connect && g.Keys != {Host, Port} {
      return Rejected;
    }
    var port := 0;
    if Port in g {
      PortDigits(g, buf, at, f[Host].off, PartEnd(f, Host));
      ok, port := ReadPort(TextOf(buf, g, Port));
      if !ok {
        return Rejected;
      }
    }
    assert Accepts(buf, connect, f, g);
    return Parsed(g, port);
  }

  // ---------- the fields partition the URL ----------

  predicate IsDelimiter(ch: char) {
    ch == ':' || ch == '/' || ch == '?' || ch == '#' || ch == '@' || ch == '[' || ch == ']'
  }

  function Order(part: Part): nat {
    match part
    case Schema => 0 case UserInfo => 1 case Host => 2 case Port => 3 case Path => 4 case Query => 5 case Fragment => 6
  }

  /** The characters a field may hold. */
  predicate PartChar(part: Part, ch: char) {
    match part
    case Schema => IsAlpha(ch)
    case UserInfo => IsUserinfoChar(ch)
    case Host => IsHostChar(ch) || IsV6Char(ch) || IsZoneChar(ch)
    case Port => IsNumber(ch)
    case Path => IsUrlChar(ch)
    case Query => IsUrlChar(ch) || ch == '?'
    case Fragment => IsUrlChar(ch) || ch == '?' || ch == '#'
  }

  /** The delimiter in front of a field that starts at `k`. */
  predicate Introduced(part: Part, buf: string, k: nat)
    requires k < |buf|
  {
    match part
    case Query => k > 0 && buf[k - 1] == '?'
    case Fragment => k > 0 && buf[k - 1] == '#'
    case Port => k > 0 && buf[k - 1] == ':'
    case Path => buf[k] == '/' || buf[k] == '*'
    case _ => true
  }

  ghost predicate InBounds(buf: string, g: Fields) {
    forall part :: part in g ==> g[part].len > 0 && PartEnd(g, part) <= |buf|
  }

  /** The fields are not empty, in bounds, disjoint and in order; what is outside them is delimiters; and what
      is inside has its field's characters and its field's delimiter before it. */
  ghost predicate Partition(buf: string, g: Fields) {
    && InBounds(buf, g)
    && (forall a, b :: a in g && b in g && Order(a) < Order(b) ==> PartEnd(g, a) <= g[b].off)
    && (forall k: nat :: k < |buf| && !IsDelimiter(buf[k]) ==> exists part :: Within(g, part, k))
    && (forall part, k: nat {:trigger Within(g, part, k)} :: Within(g, part, k) ==> PartChar(part, buf[k]))
    && (forall part :: part in g ==> Introduced(part, buf, g[part].off))
  }

  lemma {:induction false} UrlCharLabel(s: State, ch: char, t: State)
    requires t == ParseUrlChar(s, ch) && !t.Dead?
    ensures LabelOf(t).Gap? ==> IsDelimiter(ch)
    ensures LabelOf(t).In? && LabelOf(t).part != Host ==> PartChar(LabelOf(t).part, ch)
    ensures t.ReqPath? ==> s.ReqPath? || ch == '/' || ch == '*'
    ensures t.ReqQueryString? ==> s.ReqQueryString? || s.ReqQueryStringStart?
    ensures t.ReqQueryStringStart? ==> ch == '?'
    ensures t.ReqFragment? ==> s.ReqFragment? || s.ReqFragmentStart?
    ensures t.ReqFragmentStart? ==> ch == '#'
  {}

  lemma {:induction false} HostCharLabel(s: HostState, ch: char, t: HostState)
    requires t == ParseHostChar(s, ch) && !t.HostDead?
    ensures HostLabel(t).Gap? ==> IsDelimiter(ch)
    ensures HostLabel(t).In? ==> PartChar(HostLabel(t).part, ch)
    ensures t.InPort? ==> s.InPort? || s.PortStart?
    ensures t.PortStart? ==> ch == ':'
  {}

  lemma {:induction false} UrlOrdered(buf: string, connect: bool, j: nat, k: nat)
    requires j <= k <= |buf| && !StateAt(buf, connect, |buf|).Dead?
    ensures Rank(StateAt(buf, connect, j)) <= Rank(StateAt(buf, connect, k)) && !StateAt(buf, connect, k).Dead?
    decreases k - j
  {
    if StateAt(buf, connect, k).Dead? { UrlDeadStays(buf, connect, k, |buf|); }
    if j < k {
      UrlOrdered(buf, connect, j, k - 1);
      StateSnoc(buf, connect, k - 1);
      RankGrows(StateAt(buf, connect, k - 1), buf[k - 1]);
    }
  }

  lemma {:induction false} HostOrdered(buf: string, at: bool, off: nat, j: nat, k: nat, end: nat)
    requires off <= j <= k <= end <= |buf| && !HostAt(buf, at, off, end).HostDead?
    ensures HostRank(HostAt(buf, at, off, j)) <= HostRank(HostAt(buf, at, off, k)) && !HostAt(buf, at, off, k).HostDead?
    decreases k - j
  {
    if HostAt(buf, at, off, k).HostDead? { HostDeadStays(buf, at, off, k, end); }
    if j < k {
      HostOrdered(buf, at, off, j, k - 1, end);
      HostSnoc(buf, at, off, k - 1);
      HostRankGrows(HostAt(buf, at, off, k - 1), buf[k - 1]);
    }
  }

  /** Fields of the first loop, in order. */
  lemma {:induction false} UrlFieldsOrdered(buf: string, connect: bool, f: Fields, a: Part, b: Part)
    requires Describes(f, buf, connect, |buf|) && !StateAt(buf, connect, |buf|).Dead?
    requires a in f && b in f && PartRank(a) < PartRank(b)
    ensures PartEnd(f, a) <= f[b].off
  {
    var j, k := PartEnd(f, a) - 1, f[b].off;
    assert Within(f, a, j) && Within(f, b, k);
    LabelRank(StateAt(buf, connect, j + 1));
    LabelRank(StateAt(buf, connect, k + 1));
    if k <= j { UrlOrdered(buf, connect, k + 1, j + 1); }
  }

  /** The labels of the first and the last byte of a field. */
  lemma {:induction false} HostFieldLabels(buf: string, at: bool, off: nat, end: nat, g: Fields, a: Part)
    requires off <= end <= |buf| && DescribesHost(g, buf, at, off, end) && g[Host].len > 0 && a in g &&
      HostPartRank(a) < 9
    ensures off <= g[a].off < PartEnd(g, a) <= end
    ensures HostLabel(HostAt(buf, at, off, g[a].off + 1)) == In(a) &&
      HostLabel(HostAt(buf, at, off, PartEnd(g, a))) == In(a)
  {
    assert Within(g, a, g[a].off) && Within(g, a, PartEnd(g, a) - 1);
  }

  lemma {:induction false} HostFieldsOrdered(buf: string, at: bool, off: nat, end: nat, g: Fields, a: Part, b: Part)
    requires off <= end <= |buf| && DescribesHost(g, buf, at, off, end) && !HostAt(buf, at, off, end).HostDead? &&
      g[Host].len > 0
    requires a in g && b in g && HostPartRank(a) < HostPartRank(b) < 9
    ensures PartEnd(g, a) <= g[b].off
  {
    HostFieldLabels(buf, at, off, end, g, a);
    HostFieldLabels(buf, at, off, end, g, b);
    HostLabelsOrdered(buf, at, off, end, a, b, PartEnd(g, a), g[b].off + 1);
  }

  lemma {:induction false} HostLabelsOrdered(buf: string, at: bool, off: nat, end: nat, a: Part, b: Part, j: nat,
                                             k: nat)
    requires off <= end <= |buf| && !HostAt(buf, at, off, end).HostDead? && HostPartRank(a) < HostPartRank(b) < 9
    requires off <= j <= end && off <= k <= end
    requires HostLabel(HostAt(buf, at, off, j)) == In(a) && HostLabel(HostAt(buf, at, off, k)) == In(b)
    ensures j < k
  {
    HostLabelRank(HostAt(buf, at, off, j), a);
    HostLabelRank(HostAt(buf, at, off, k), b);
    if k <= j { HostOrdered(buf, at, off, k, j, end); }
  }

  /** A byte of the URL, by the first loop's label. */
  lemma {:induction false} UrlByteLabel(buf: string, connect: bool, k: nat)
    requires k < |buf| && !StateAt(buf, connect, |buf|).Dead?
    ensures var t := StateAt(buf, connect, k + 1);
      (LabelOf(t).Gap? ==> IsDelimiter(buf[k])) &&
        (LabelOf(t).In? && LabelOf(t).part != Host ==> PartChar(LabelOf(t).part, buf[k]))
  {
    StateSnoc(buf, connect, k);
    UrlOrdered(buf, connect, k + 1, |buf|);
    if StateAt(buf, connect, k + 1).Dead? { UrlDeadStays(buf, connect, k + 1, |buf|); }
    UrlCharLabel(StateAt(buf, connect, k), buf[k], StateAt(buf, connect, k + 1));
  }

  lemma {:induction false} HostByteLabel(buf: string, at: bool, off: nat, end: nat, k: nat)
    requires off <= k < end <= |buf| && !HostAt(buf, at, off, end).HostDead?
    ensures var t := HostAt(buf, at, off, k + 1);
      (HostLabel(t).Gap? ==> IsDelimiter(buf[k])) &&
        (HostLabel(t).In? ==> PartChar(HostLabel(t).part, buf[k]) && HostPartRank(HostLabel(t).part) < 9)
  {
    HostSnoc(buf, at, off, k);
    if HostAt(buf, at, off, k + 1).HostDead? { HostDeadStays(buf, at, off, k + 1, end); }
    HostCharLabel(HostAt(buf, at, off, k), buf[k], HostAt(buf, at, off, k + 1));
  }

  predicate FromHost(part: Part) { part.UserInfo? || part.Host? || part.Port? }

  lemma {:induction false} FinalSpan(buf: string, connect: bool, f: Fields, g: Fields, part: Part)
    requires Accepts(buf, connect, f, g) && part in g
    ensures g[part].len > 0
    ensures if FromHost(part) then
      Host in f && f[Host].off <= g[part].off && PartEnd(g, part) <= PartEnd(f, Host) <= |buf|
            else part in f && g[part] == f[part] && PartEnd(f, part) <= |buf|
  {}

  lemma {:induction false} FieldsOrdered(buf: string, connect: bool, f: Fields, g: Fields, a: Part, b: Part)
    requires Accepts(buf, connect, f, g) && a in g && b in g && Order(a) < Order(b)
    ensures PartEnd(g, a) <= g[b].off
  {
    FinalSpan(buf, connect, f, g, a);
    FinalSpan(buf, connect, f, g, b);
    if FromHost(a) && FromHost(b) {
      HostFieldsOrdered(buf, AtSeen(buf, connect, |buf|), f[Host].off, PartEnd(f, Host), g, a, b);
    } else {
      UrlFieldsOrdered(buf, connect, f, if FromHost(a) then Host else a, if FromHost(b) then Host else b);
    }
  }

  /** Every byte is a delimiter or in a field that allows it. */
  lemma {:induction false} ByteCovered(buf: string, connect: bool, f: Fields, g: Fields, k: nat) returns (l: Label)
    requires Accepts(buf, connect, f, g) && k < |buf|
    ensures if l.Gap? then IsDelimiter(buf[k]) else Within(g, l.part, k) && PartChar(l.part, buf[k])
  {
    l := LabelOf(StateAt(buf, connect, k + 1));
    UrlByteLabel(buf, connect, k);
    if l.In? {
      assert Within(f, l.part, k);
      if l.part == Host {
        var off, end, at := f[Host].off, PartEnd(f, Host), AtSeen(buf, connect, |buf|);
        l := HostLabel(HostAt(buf, at, off, k + 1));
        HostByteLabel(buf, at, off, end, k);
        assert l.In? ==> Within(g, l.part, k);
      }
    }
  }

  /** A byte that is in a field is not one of the bytes left between fields. */
  lemma {:induction false} FieldChar(buf: string, connect: bool, f: Fields, g: Fields, part: Part, k: nat)
    requires Accepts(buf, connect, f, g) && Within(g, part, k)
    ensures k < |buf| && PartChar(part, buf[k])
  {
    FinalSpan(buf, connect, f, g, part);
    if FromHost(part) {
      var off, end, at := f[Host].off, PartEnd(f, Host), AtSeen(buf, connect, |buf|);
      HostByteLabel(buf, at, off, end, k);
    } else {
      assert Within(f, part, k);
      UrlByteLabel(buf, connect, k);
    }
  }

  /** The labels around the first byte of a field. */
  lemma {:induction false} FieldLabels(buf: string, connect: bool, f: Fields, part: Part, k: nat)
    requires Describes(f, buf, connect, |buf|) && part in f && k == f[part].off
    ensures k < |buf| && LabelOf(StateAt(buf, connect, k + 1)) == In(part)
    ensures k > 0 ==> LabelOf(StateAt(buf, connect, k)) != In(part)
  {
    assert Within(f, part, k);
    if k > 0 { assert !Within(f, part, k - 1); }
  }

  lemma {:induction false} FieldBegins(buf: string, connect: bool, part: Part, k: nat, s: State)
    requires k < |buf| && !StateAt(buf, connect, |buf|).Dead? && s == StateAt(buf, connect, k)
    requires LabelOf(StateAt(buf, connect, k + 1)) == In(part) && (k > 0 ==> LabelOf(s) != In(part))
    ensures LabelOf(s) != In(part) && !s.Dead?
    ensures LabelOf(ParseUrlChar(s, buf[k])) == In(part)
    ensures k == 0 ==> s == Start(connect)
    ensures k > 0 ==> s == ParseUrlChar(StateAt(buf, connect, k - 1), buf[k - 1])
  {
    StateFirst(buf, connect);
    StateSnoc(buf, connect, k);
    if k > 0 { StateSnoc(buf, connect, k - 1); }
  }

  lemma {:induction false} UrlFieldIntroduced(buf: string, connect: bool, f: Fields, part: Part)
    requires Describes(f, buf, connect, |buf|) && !StateAt(buf, connect, |buf|).Dead? && part in f
    ensures f[part].off < |buf| && Introduced(part, buf, f[part].off)
  {
    var k := f[part].off;
    var s := StateAt(buf, connect, k);
    FieldLabels(buf, connect, f, part, k);
    FieldBegins(buf, connect, part, k, s);
    UrlCharLabel(s, buf[k], ParseUrlChar(s, buf[k]));
    if k > 0 { UrlCharLabel(StateAt(buf, connect, k - 1), buf[k - 1], s); }
  }

  lemma {:induction false} PortIntroduced(buf: string, at: bool, off: nat, end: nat, g: Fields)
    requires off <= end <= |buf| && DescribesHost(g, buf, at, off, end) && !HostAt(buf, at, off, end).HostDead? &&
      Port in g
    ensures g[Port].off < |buf| && Introduced(Port, buf, g[Port].off)
  {
    var k := g[Port].off;
    assert Within(g, Port, k);
    HostFirst(buf[off..], at);
    HostSnoc(buf, at, off, k);
    HostCharLabel(HostAt(buf, at, off, k), buf[k], HostAt(buf, at, off, k + 1));
    if k > off {
      HostSnoc(buf, at, off, k - 1);
      assert !Within(g, Port, k - 1);
      HostCharLabel(HostAt(buf, at, off, k - 1), buf[k - 1], HostAt(buf, at, off, k));
    }
  }

  /** For every URL that is accepted, the fields partition it. */
  lemma {:induction false} FieldsPartition(buf: string, connect: bool, f: Fields, g: Fields)
    requires Accepts(buf, connect, f, g)
    ensures Partition(buf, g)
  {
    forall part | part in g
      ensures g[part].len > 0 && PartEnd(g, part) <= |buf| && Introduced(part, buf, g[part].off)
    {
      FinalSpan(buf, connect, f, g, part);
      if part == Port { PortIntroduced(buf, AtSeen(buf, connect, |buf|), f[Host].off, PartEnd(f, Host), g); }
      else if !FromHost(part) { UrlFieldIntroduced(buf, connect, f, part); }
    }
    forall a, b | a in g && b in g && Order(a) < Order(b) ensures PartEnd(g, a) <= g[b].off {
      FieldsOrdered(buf, connect, f, g, a, b);
    }
    forall k: nat | k < |buf| && !IsDelimiter(buf[k]) ensures exists part :: Within(g, part, k) {
      var l := ByteCovered(buf, connect, f, g, k);
    }
    forall part, k: nat | Within(g, part, k) ensures PartChar(part, buf[k]) {
      FieldChar(buf, connect, f, g, part, k);
    }
  }
}
