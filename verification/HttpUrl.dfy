/** HttpUrl: a URL taken apart and put together again. */
module HttpUrl {
  import opened UrlCoding
  import opened Numerals
  import opened UrlPath
  import opened UrlQuery
  import opened Ipv4
  import opened Ipv6

  const NAME: Mask := Mask(false, false, false, false, false)  // 0x01

  /** What kind of host: none, a registered name, an IPv4 address, an IPv6 address. */
  datatype Ip = NoHost | Name | V4 | V6

  datatype Parts = Parts(scheme: string, user: string, host: string, ip: Ip, port: string, path: string,
                         query: seq<Pair>, fragment: string)

  const EMPTY: Parts := Parts("", "", "", NoHost, "", "", [], "")

  /** The parts, an exception, or a host that is outside this model: an IPvFuture host, or an IPv6 host that
      is_valid_ipv6 rejects. */
  datatype Outcome<T> = Parsed(value: T) | Thrown | Unmodelled

  // ---------- characters ----------

  predicate SchemeChar(c: char) { IsAlpha(c) || IsNumber(c) || c == '+' || c == '-' || c == '.' }

  predicate IsScheme(s: string) { s != "" && IsAlpha(s[0]) && forall k :: 0 <= k < |s| ==> SchemeChar(s[k]) }

  function LowerChar(c: char): char { if 'A' <= c <= 'Z' then (c as int + 32) as char else c }

  function ToLower(s: string): (t: string)
    ensures |t| == |s| && forall k :: 0 <= k < |s| ==> t[k] == LowerChar(s[k])
  {
    seq(|s|, k requires 0 <= k < |s| => LowerChar(s[k]))
  }

  predicate IsIpv4(s: string) { 7 <= |s| <= 254 && forall k :: 0 <= k < |s| ==> s[k] == '.' || IsNumber(s[k]) }

  predicate IsIpv6(s: string) {
    2 <= |s| <= 254 && forall k :: 0 <= k < |s| ==> s[k] == ':' || s[k] == '.' || IsHexDigit(s[k])
  }

  predicate IsRegName(s: string) { IsChars(s, NAME) }

  predicate IsPort(s: string) { s != "" && ReadUint(s, 65535) == |s| }

  // ---------- parsing ----------

  /** The port behind a host, or nothing; what follows a bracket without a colon is ignored. */
  function ParsePort(s: string): Maybe<string> {
    if s == "" || s[0] != ':' then Some("") else if IsPort(s[1..]) then Some(s[1..]) else None
  }

  datatype Host = Host(name: string, ip: Ip, port: string)

  /** A tail that can stand in an address of 39 characters. */
  predicate ShortTail(tail: seq<string>) { tail == [] || |tail[0]| <= 38 }

  /** IPv6 hosts that normalize_IPv6 is modelled on: all that is_valid_ipv6 accepts, and their normal forms, which may
      have a character more than it would take. */
  predicate Modelled(s: string) { IsIpv6(s) && (s == "::" || (ValidTokens(Tokens(s)) && ShortTail(TailOf(Tokens(s))))) }

  /** An address behind '[', up to its ']'. */
  function ParseLiteral(inner: string, after: string): Outcome<Host> {
    if inner != "" && inner[0] == 'v' then Unmodelled
    else if !IsIpv6(inner) || ParsePort(after).None? then Thrown
    else if !Modelled(inner) then Unmodelled
    else Parsed(Host(NormalizeIpv6(inner), V6, ParsePort(after).value))
  }

  function ParseName(name: string, after: string): Outcome<Host> {
    if ParsePort(after).None? then Thrown
    else if IsIpv4(name) then Parsed(Host(name, V4, ParsePort(after).value))
    else if IsRegName(name) then Parsed(Host(ToLower(name), Name, ParsePort(after).value))
    else Thrown
  }

  predicate HasBracket(s: string) { s != "" && s[0] == '[' }

  /** Where the bracket closes, counted behind the opening one. */
  function BracketEnd(s: string): nat
    requires HasBracket(s)
  {
    FirstOf(s[1..], "]")
  }

  function ParseHost(s: string): Outcome<Host> {
    if HasBracket(s) then
      var p := BracketEnd(s);
      if p == |s[1..]| then Thrown else ParseLiteral(s[1..][..p], s[1..][p + 1..])
    else
      var p := FirstOf(s, ":");
      ParseName(s[..p], s[p..])
  }

  datatype Authority = Authority(user: string, host: Host)

  const NO_AUTHORITY: Authority := Authority("", Host("", NoHost, ""))

  function WithUser(user: string, h: Outcome<Host>): Outcome<Authority> {
    if !IsChars(user, USER) || h.Thrown? then Thrown
    else if h.Unmodelled? then Unmodelled
    else Parsed(Authority(user, h.value))
  }

  /** What stands before '@', and host and port behind it. */
  function UserOf(s: string): string { if FirstOf(s, "@") < |s| then s[..FirstOf(s, "@")] else "" }

  function HostPart(s: string): string { if FirstOf(s, "@") < |s| then s[FirstOf(s, "@") + 1..] else s }

  function ParseAuthority(s: string): Outcome<Authority> { WithUser(UserOf(s), ParseHost(HostPart(s))) }

  datatype Rest = Rest(path: string, query: seq<Pair>, fragment: string)

  function ParsePath(s: string): Maybe<string> {
    if !IsChars(s, CODED_PATH) then None
    else
      var d := Decode(s, false);
      if d.None? then None else Some(NormalizePath(d.value))
  }

  /** A fragment with its '#', or nothing. */
  function ParseFragment(s: string): Maybe<string> {
    if s == "" then Some("") else if IsChars(s[1..], CODED_TEXT) then Decode(s[1..], false) else None
  }

  /** Where the query that `t` may start with ends, and its text. */
  function QueryEnd(t: string): (q: nat)
    ensures q <= |t|
  {
    if t != "" && t[0] == '?' then 1 + FirstOf(t[1..], "#") else 0
  }

  function QueryOf(t: string): string { if QueryEnd(t) > 0 then t[1..QueryEnd(t)] else "" }

  /** Path, query and fragment. */
  function ParseRest(s: string): Maybe<Rest> {
    var p := FirstOf(s, "?#");
    var path, query, fragment := ParsePath(s[..p]), ParseQuery(QueryOf(s[p..])),
      ParseFragment(s[p..][QueryEnd(s[p..])..]);
    if path.None? || query.None? || fragment.None? then None else Some(Rest(path.value, query.value, fragment.value))
  }

  predicate HasAuthority(s: string) { |s| > 1 && s[0] == '/' && s[1] == '/' }

  function Assemble(scheme: string, a: Outcome<Authority>, r: Maybe<Rest>): Outcome<Parts> {
    if a.Thrown? || r.None? then Thrown
    else if a.Unmodelled? then Unmodelled
    else
      var h := a.value.host;
      Parsed(Parts(scheme, a.value.user, h.name, h.ip, h.port, r.value.path, r.value.query, r.value.fragment))
  }

  /** The authority behind "//", and what follows it. */
  function AuthorityOf(s: string): string
    requires HasAuthority(s)
  {
    s[2..][..FirstOf(s[2..], "/?#")]
  }

  function BehindAuthority(s: string): string
    requires HasAuthority(s)
  {
    s[2..][FirstOf(s[2..], "/?#")..]
  }

  function ParseAfterScheme(scheme: string, s: string): Outcome<Parts> {
    if HasAuthority(s) then Assemble(scheme, ParseAuthority(AuthorityOf(s)), ParseRest(BehindAuthority(s)))
    else Assemble(scheme, Parsed(NO_AUTHORITY), ParseRest(s))
  }

  const MAX_URL: nat := 8000

  /** The first of the delimiters is the colon of a scheme. */
  predicate HasScheme(u: string) { FirstOf(u, ":/?#") < |u| && u[FirstOf(u, ":/?#")] == ':' }

  function SchemeOf(u: string): string { if HasScheme(u) then u[..FirstOf(u, ":/?#")] else "" }

  function AfterScheme(u: string): string { if HasScheme(u) then u[FirstOf(u, ":/?#") + 1..] else u }

  /** parse_url */
  function Parse(u: string): Outcome<Parts> {
    if u == "" then Parsed(EMPTY)
    else if |u| > MAX_URL || (HasScheme(u) && !IsScheme(SchemeOf(u))) then Thrown
    else ParseAfterScheme(ToLower(SchemeOf(u)), AfterScheme(u))
  }

  // ---------- building ----------

  predicate IsDefaultPort(scheme: string, port: string) {
    (scheme == "http" && port == "80") || (scheme == "https" && port == "443")
  }

  function SchemeText(scheme: string): string { if scheme == "" then "" else scheme + ":" }

  function PortText(scheme: string, port: string): string {
    if port == "" || IsDefaultPort(scheme, port) then "" else ":" + port
  }

  function HostText(host: string, ip: Ip): string { if ip.V6? then "[" + host + "]" else host }

  predicate AsciiParts(x: Parts) {
    IsAscii(x.user) && IsAscii(x.path) && IsAscii(x.fragment) &&
    forall k :: 0 <= k < |x.query| ==> IsAscii(x.query[k].key) && IsAscii(x.query[k].val)
  }

  function UserText(user: string): string
    requires IsAscii(user)
  {
    if user == "" then "" else Encode(user, USER, Normal) + "@"
  }

  function AuthorityText(x: Parts): string
    requires IsAscii(x.user)
  {
    UserText(x.user) + (HostText(x.host, x.ip) + PortText(x.scheme, x.port))
  }

  /** The authority with its two slashes, or nothing. */
  function AuthorityPart(x: Parts): string
    requires IsAscii(x.user)
  {
    if x.host == "" then "" else "//" + AuthorityText(x)
  }

  /** The errors of build_url, apart from the characters it cannot escape. */
  predicate Buildable(x: Parts) {
    && AllFit(x.query)
    && (if x.host != "" then x.path == "" || x.path[0] == '/'
        else x.user == "" && x.port == "" &&
             (FirstOf(x.path, ":/") < |x.path| ==> x.path[FirstOf(x.path, ":/")] != ':'))
  }

  function QueryPart(ps: seq<Pair>): string
    requires AllFit(ps)
  {
    if ps == [] then "" else "?" + QueryText(ps)
  }

  function FragmentPart(s: string): string
    requires IsAscii(s)
  {
    if s == "" then "" else "#" + Encode(s, TEXT, Normal)
  }

  function RestText(x: Parts): string
    requires AsciiParts(x) && AllFit(x.query)
  {
    Encode(x.path, PATH, Normal) + (QueryPart(x.query) + FragmentPart(x.fragment))
  }

  /** build_url, for parts of ASCII characters. */
  function Build(x: Parts): Maybe<string>
    requires AsciiParts(x)
  {
    if !Buildable(x) then None
    else Some(SchemeText(x.scheme) + (AuthorityPart(x) + RestText(x)))
  }
}
