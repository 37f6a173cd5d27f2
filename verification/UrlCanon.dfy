/** Building and parsing again changes nothing: canonicalisation is idempotent. */
module UrlCanon {
  import opened UrlCoding
  import opened Numerals
  import opened UrlPath
  import opened UrlQuery
  import opened Sequences
  import opened TextSplit
  import opened Ipv4
  import opened Ipv6
  import opened Ipv6Valid
  import opened HttpUrl

  // ---------- path, query and fragment ----------

  lemma {:induction false} PathReads(path: string)
    requires IsAscii(path) && NormalizePath(path) == path
    ensures var p := Encode(path, PATH, Normal); ParsePath(p) == Some(path) && Free(p, "?#")
  {
    EncodedChars(path, PATH, Normal);
    CodedPath(Encode(path, PATH, Normal));
    DecodeEncode(path, PATH, Normal);
  }

  lemma {:induction false} CodedPath(p: string)
    requires forall k :: 0 <= k < |p| ==> EncodedChar(p[k], PATH, Normal)
    ensures IsChars(p, CODED_PATH) && Free(p, "?#")
  {
    assert !EncodedChar('?', PATH, Normal) && !EncodedChar('#', PATH, Normal);
  }

  lemma {:induction false} FragmentReads(s: string)
    requires IsAscii(s)
    ensures ParseFragment(FragmentPart(s)) == Some(s) && (FragmentPart(s) == "" || FragmentPart(s)[0] == '#')
  {
    if s != "" {
      var e := Encode(s, TEXT, Normal);
      EncodedChars(s, TEXT, Normal);
      DecodeEncode(s, TEXT, Normal);
      assert FragmentPart(s)[1..] == e;
    }
  }

  lemma {:induction false} QuerySplits(w: string, f: string, t: string)
    requires Free(w, "#") && (f == "" || f[0] == '#') && t == "?" + w + f
    ensures QueryEnd(t) == 1 + |w| && QueryOf(t) == w && t[1 + |w|..] == f
  {
    assert t[0] == '?' && t[1..] == w + f;
    FirstOfFree(w, f, "#");
    assert t[1..1 + |w|] == t[1..][..|w|] && t[1 + |w|..] == t[1..][|w|..];
  }

  /** What follows the path: '?' and the query, '#' and the fragment. */
  lemma {:induction false} QueryAndFragmentRead(ps: seq<Pair>, f: string, t: string)
    requires AllFit(ps) && (f == "" || f[0] == '#') && t == QueryPart(ps) + f
    ensures t == "" || t[0] == '?' || t[0] == '#'
    ensures ParseQuery(QueryOf(t)) == Some(ps) && t[QueryEnd(t)..] == f
  {
    QueryRoundTrip(ps);
    if ps == [] {
      assert t == f;
    } else {
      QuerySplits(QueryText(ps), f, t);
    }
  }

  lemma {:induction false} RestParses(s: string, p: string, t: string, path: string, ps: seq<Pair>, fragment: string)
    requires s == p + t && Free(p, "?#") && (t == "" || t[0] == '?' || t[0] == '#') && ParsePath(p) == Some(path)
    requires ParseQuery(QueryOf(t)) == Some(ps) && ParseFragment(t[QueryEnd(t)..]) == Some(fragment)
    ensures ParseRest(s) == Some(Rest(path, ps, fragment))
  {
    FirstOfFree(p, t, "?#");
  }

  lemma {:induction false} RestReads(x: Parts)
    requires AsciiParts(x) && AllFit(x.query) && NormalizePath(x.path) == x.path
    ensures ParseRest(RestText(x)) == Some(Rest(x.path, x.query, x.fragment))
  {
    var p, f := Encode(x.path, PATH, Normal), FragmentPart(x.fragment);
    var t := QueryPart(x.query) + f;
    PathReads(x.path);
    FragmentReads(x.fragment);
    QueryAndFragmentRead(x.query, f, t);
    RestParses(RestText(x), p, t, x.path, x.query, x.fragment);
  }

  // ---------- user, host and port ----------

  predicate Stable(host: string) { Modelled(host) && NormalizeIpv6(host) == host && host[0] != 'v' }

  /** A host as parsing leaves it. */
  predicate WellHost(host: string, ip: Ip) {
    match ip
    case NoHost => host == ""
    case Name => IsRegName(host) && ToLower(host) == host && !IsIpv4(host)
    case V4 => IsIpv4(host)
    case V6 => Stable(host)
  }

  /** The port that is printed. */
  function KeptPort(scheme: string, port: string): string { if IsDefaultPort(scheme, port) then "" else port }

  lemma {:induction false} PortDigits(port: string)
    requires IsPort(port)
    ensures forall k :: 0 <= k < |port| ==> IsNumber(port[k])
  {
    UintDigitsAre(port);
  }

  lemma {:induction false} PortReads(scheme: string, port: string)
    requires port == "" || IsPort(port)
    ensures var t := PortText(scheme, port);
      ParsePort(t) == Some(KeptPort(scheme, port)) && (t == "" || t[0] == ':') && Free(t, "/?#@")
  {
    if port != "" {
      PortDigits(port);
      assert (":" + port)[1..] == port;
    }
  }

  lemma {:induction false} NameReads(host: string, ip: Ip, t: string, port: string)
    requires WellHost(host, ip) && (ip.Name? || ip.V4?) && (t == "" || t[0] == ':') && ParsePort(t) == Some(port)
    ensures ParseHost(host + t) == Parsed(Host(host, ip, port)) && Free(host, "/?#@")
  {
    assert Free(host, ":") && Free(host, "[");
    FirstOfFree(host, t, ":");
    assert host + t != "" ==> (host + t)[0] != '[' by {
      if host != "" { assert (host + t)[0] == host[0]; } else { assert host + t == t; }
    }
  }

  lemma {:induction false} BracketSplits(host: string, t: string, s: string)
    requires Free(host, "]") && s == "[" + host + "]" + t
    ensures ParseHost(s) == ParseLiteral(host, t)
  {
    var rest := host + ("]" + t);
    assert s[0] == '[' && s[1..] == rest;
    FirstOfFree(host, "]" + t, "]");
    assert rest[|host| + 1..] == t;
  }

  lemma {:induction false} AddressChars(host: string)
    requires IsIpv6(host)
    ensures Free(host, "]") && Free(host, "/?#@")
  {}

  lemma {:induction false} BracketFree(host: string, b: string)
    requires Free(host, "/?#@") && b == "[" + host + "]"
    ensures Free(b, "/?#@")
  {
    forall k | 0 <= k < |b| ensures b[k] !in "/?#@" {
      if 0 < k <= |host| { assert b[k] == host[k - 1]; }
    }
  }

  lemma {:induction false} BracketReads(host: string, t: string, port: string)
    requires Stable(host) && ParsePort(t) == Some(port)
    ensures ParseHost("[" + host + "]" + t) == Parsed(Host(host, V6, port)) && Free("[" + host + "]", "/?#@")
  {
    AddressChars(host);
    BracketFree(host, "[" + host + "]");
    BracketSplits(host, t, "[" + host + "]" + t);
    LiteralReads(host, t, port);
  }

  lemma {:induction false} LiteralReads(host: string, t: string, port: string)
    requires Stable(host) && ParsePort(t) == Some(port)
    ensures ParseLiteral(host, t) == Parsed(Host(host, V6, port))
  {}

  lemma {:induction false} HostReads(host: string, ip: Ip, t: string, port: string)
    requires WellHost(host, ip) && !ip.NoHost? && (t == "" || t[0] == ':') && ParsePort(t) == Some(port)
    ensures ParseHost(HostText(host, ip) + t) == Parsed(Host(host, ip, port)) && Free(HostText(host, ip), "/?#@")
  {
    if ip.V6? { BracketReads(host, t, port); } else { NameReads(host, ip, t, port); }
  }

  lemma {:induction false} UserAscii(user: string)
    requires IsChars(user, USER)
    ensures IsAscii(user) && Encode(user, USER, Normal) == user && Free(user, "/?#@")
  {
    assert IsAscii(user);
    EncodeIdentity(user, USER);
  }

  lemma {:induction false} AuthoritySplits(user: string, hp: string)
    requires Free(user, "@") && Free(hp, "@")
    ensures ParseAuthority(user + ("@" + hp)) == WithUser(user, ParseHost(hp))
    ensures ParseAuthority(hp) == WithUser("", ParseHost(hp))
  {
    var s := user + ("@" + hp);
    FirstOfFree(user, "@" + hp, "@");
    assert s[|user| + 1..] == hp;
    FirstOfFree(hp, "", "@");
    assert hp + "" == hp;
  }

  lemma {:induction false} UserTextIs(user: string, hp: string)
    requires IsChars(user, USER) && IsAscii(user)
    ensures UserText(user) + hp == if user == "" then hp else user + ("@" + hp)
  {
    UserAscii(user);
    assert user + "@" + hp == user + ("@" + hp);
    assert "" + hp == hp;
  }

  lemma {:induction false} AuthorityParses(user: string, hp: string, h: Host, s: string)
    requires IsChars(user, USER) && IsAscii(user) && ParseHost(hp) == Parsed(h) && Free(hp, "@") &&
      s == UserText(user) + hp
    ensures ParseAuthority(s) == Parsed(Authority(user, h))
  {
    UserTextIs(user, hp);
    NoAt(user);
    AuthoritySplits(user, hp);
  }

  lemma {:induction false} NoAt(user: string)
    requires IsChars(user, USER)
    ensures Free(user, "@")
  {}

  lemma {:induction false} FreeConcat(a: string, b: string, stops: string)
    requires Free(a, stops) && Free(b, stops)
    ensures Free(a + b, stops)
  {}

  lemma {:induction false} FewerStops(s: string)
    requires Free(s, "/?#@")
    ensures Free(s, "@") && Free(s, "/?#")
  {
    assert forall c: char :: c in "@" ==> c in "/?#@";
    assert forall c: char :: c in "/?#" ==> c in "/?#@";
  }

  /** Parts as parsing leaves them, the host apart. */
  predicate WellApart(x: Parts) {
    && (x.scheme == "" || (IsScheme(x.scheme) && ToLower(x.scheme) == x.scheme))
    && IsChars(x.user, USER) && (x.port == "" || IsPort(x.port)) && NormalizePath(x.path) == x.path
  }

  predicate WellFormed(x: Parts) { WellApart(x) && WellHost(x.host, x.ip) }

  lemma {:induction false} AuthorityReads(x: Parts)
    requires WellFormed(x) && IsAscii(x.user) && !x.ip.NoHost?
    ensures ParseAuthority(AuthorityText(x)) ==
      Parsed(Authority(x.user, Host(x.host, x.ip, KeptPort(x.scheme, x.port))))
  {
    var h, t := HostText(x.host, x.ip), PortText(x.scheme, x.port);
    PortReads(x.scheme, x.port);
    HostReads(x.host, x.ip, t, KeptPort(x.scheme, x.port));
    FreeConcat(h, t, "/?#@");
    FewerStops(h + t);
    AuthorityParses(x.user, h + t, Host(x.host, x.ip, KeptPort(x.scheme, x.port)), AuthorityText(x));
  }

  lemma {:induction false} AuthorityFree(x: Parts)
    requires WellFormed(x) && IsAscii(x.user) && !x.ip.NoHost?
    ensures Free(AuthorityText(x), "/?#")
  {
    var h, t := HostText(x.host, x.ip), PortText(x.scheme, x.port);
    PortReads(x.scheme, x.port);
    HostReads(x.host, x.ip, t, KeptPort(x.scheme, x.port));
    FreeConcat(h, t, "/?#@");
    FewerStops(h + t);
    UserTextFree(x.user);
    FreeConcat(UserText(x.user), h + t, "/?#");
  }

  lemma {:induction false} UserTextFree(user: string)
    requires IsChars(user, USER) && IsAscii(user)
    ensures Free(UserText(user), "/?#")
  {
    UserAscii(user);
    if user != "" {
      FewerStops(user);
      assert Free("@", "/?#");
      FreeConcat(user, "@", "/?#");
    }
  }

  // ---------- the first characters of what follows ----------

  lemma {:induction false} EncodedStarts(path: string)
    requires IsAscii(path) && path != "" && path[0] == '/'
    ensures Encode(path, PATH, Normal) == "/" + Encode(path[1..], PATH, Normal)
  {}

  lemma {:induction false} EncodedFirst(s: string)
    requires IsAscii(s) && s != ""
    ensures var e := Encode(s, PATH, Normal);
      e != "" && (e[0] == '/' <==> s[0] == '/') && (e[0] == ':' <==> s[0] == ':') && e[0] != '?' && e[0] != '#'
  {
    var c := EncodeChar(s[0], PATH, Normal);
    assert (c + Encode(s[1..], PATH, Normal))[0] == c[0];
  }

  /** What follows the authority is empty or starts with one of its delimiters. */
  lemma {:induction false} RestStarts(x: Parts)
    requires AsciiParts(x) && Buildable(x) && x.host != ""
    ensures RestText(x) == "" || RestText(x)[0] in "/?#"
  {
    var p, f := Encode(x.path, PATH, Normal), FragmentPart(x.fragment);
    var t := QueryPart(x.query) + f;
    FragmentReads(x.fragment);
    QueryAndFragmentRead(x.query, f, t);
    if x.path != "" {
      EncodedFirst(x.path);
      assert RestText(x)[0] == p[0];
    } else {
      assert RestText(x) == t;
    }
  }

  lemma {:induction false} OneSlash(path: string, t: string)
    requires IsAscii(path) && path != "" && path[0] == '/' && !HasAuthority(path) &&
      (t == "" || t[0] == '?' || t[0] == '#')
    ensures !HasAuthority(Encode(path, PATH, Normal) + t)
  {
    var q := Encode(path[1..], PATH, Normal);
    EncodedStarts(path);
    assert "/" + q + t == "/" + (q + t);
    if path[1..] == "" {
      assert q + t == t;
    } else {
      EncodedFirst(path[1..]);
      assert (q + t)[0] == q[0];
    }
  }

  lemma {:induction false} NotDouble(path: string, t: string)
    requires IsAscii(path) && !HasAuthority(path) && (t == "" || t[0] == '?' || t[0] == '#')
    ensures !HasAuthority(Encode(path, PATH, Normal) + t)
  {
    if path == "" {
      assert "" + t == t;
    } else if path[0] == '/' {
      OneSlash(path, t);
    } else {
      EncodedFirst(path);
      FirstOfConcat(Encode(path, PATH, Normal), t);
    }
  }

  /** Without an authority, what is printed does not look as if there were one. */
  lemma {:induction false} NoDoubleSlash(x: Parts)
    requires AsciiParts(x) && AllFit(x.query) && NormalizePath(x.path) == x.path
    ensures !HasAuthority(RestText(x))
  {
    var f := FragmentPart(x.fragment);
    var t := QueryPart(x.query) + f;
    NormalizeTwice(x.path);
    FragmentReads(x.fragment);
    QueryAndFragmentRead(x.query, f, t);
    NotDouble(x.path, t);
  }

  lemma {:induction false} FirstOfConcat(p: string, t: string)
    requires p != ""
    ensures (p + t)[0] == p[0]
  {}

  /** The first of ':' and '/' is a colon. */
  predicate ColonFirst(s: string) { FirstOf(s, ":/") < |s| && s[FirstOf(s, ":/")] == ':' }

  lemma {:induction false} EncodedColon(s: string)
    requires IsAscii(s)
    ensures ColonFirst(Encode(s, PATH, Normal)) <==> ColonFirst(s)
  {
    if s != "" {
      var c, e := EncodeChar(s[0], PATH, Normal), Encode(s[1..], PATH, Normal);
      EncodedColon(s[1..]);
      if s[0] in ":/" {
        assert c == [s[0]];
        assert (c + e)[0] == s[0];
      } else {
        assert Free(c, ":/");
        ColonBehind(c, e);
        ColonBehind([s[0]], s[1..]);
        assert s == [s[0]] + s[1..];
      }
    }
  }

  lemma {:induction false} ColonBehind(c: string, e: string)
    requires Free(c, ":/")
    ensures FirstOf(c + e, ":/") == |c| + FirstOf(e, ":/") && (ColonFirst(c + e) <==> ColonFirst(e))
  {
    var s, n := c + e, FirstOf(e, ":/");
    assert forall k :: 0 <= k < |c| ==> s[k] == c[k];
    assert forall k :: 0 <= k < |e| ==> s[|c| + k] == e[k];
    assert forall k :: |c| <= k < |s| ==> s[k] == e[k - |c|];
    assert n < |e| ==> s[|c| + n] == e[n];
  }

  // ---------- the whole URL ----------

  /** What parsing makes of the parts: a default port is dropped, and an empty host is no host. */
  function Canon(x: Parts): Parts {
    if x.host == "" then x.(ip := NoHost) else x.(port := KeptPort(x.scheme, x.port))
  }

  lemma {:induction false} WithAuthority(scheme: string, a: string, r: string)
    requires Free(a, "/?#") && (r == "" || r[0] in "/?#")
    ensures ParseAfterScheme(scheme, "//" + a + r) == Assemble(scheme, ParseAuthority(a), ParseRest(r))
  {
    var s := "//" + a + r;
    assert s[2..] == a + r && HasAuthority(s);
    FirstOfFree(a, r, "/?#");
  }

  lemma {:induction false} HostedReads(x: Parts)
    requires WellFormed(x) && AsciiParts(x) && Buildable(x) && x.host != ""
    ensures ParseAfterScheme(x.scheme, "//" + AuthorityText(x) + RestText(x)) == Parsed(Canon(x))
  {
    RestReads(x);
    AuthorityReads(x);
    AuthorityFree(x);
    RestStarts(x);
    WithAuthority(x.scheme, AuthorityText(x), RestText(x));
  }

  lemma {:induction false} HostlessReads(x: Parts, s: string)
    requires WellFormed(x) && AsciiParts(x) && Buildable(x) && x.host == "" && s == RestText(x)
    ensures ParseAfterScheme(x.scheme, s) == Parsed(Canon(x))
  {
    RestReads(x);
    NoDoubleSlash(x);
  }

  lemma {:induction false} AfterSchemeReads(x: Parts, s: string)
    requires WellFormed(x) && AsciiParts(x) && Buildable(x) && s == AuthorityPart(x) + RestText(x)
    ensures ParseAfterScheme(x.scheme, s) == Parsed(Canon(x))
  {
    if x.host == "" { HostlessReads(x, "" + RestText(x)); } else { HostedReads(x); }
  }

  lemma {:induction false} SchemeSplits(scheme: string, s: string, u: string)
    requires IsScheme(scheme) && ToLower(scheme) == scheme && u == scheme + ":" + s && |u| <= MAX_URL
    ensures Parse(u) == ParseAfterScheme(scheme, s)
  {
    assert Free(scheme, ":/?#");
    assert u == scheme + (":" + s);
    FirstOfFree(scheme, ":" + s, ":/?#");
    assert u[|scheme| + 1..] == s;
  }

  /** Without a scheme, the first delimiter is not a colon. */
  lemma {:induction false} NoSchemeSplits(x: Parts, u: string)
    requires AsciiParts(x) && Buildable(x) && |u| <= MAX_URL && u != ""
    requires u == AuthorityPart(x) + RestText(x)
    ensures Parse(u) == ParseAfterScheme("", u)
  {
    if x.host != "" {
      StartsWithSlash(x, u);
    } else {
      assert u == RestText(x);
      RelativeStart(x, u);
      NoColonFirst(u);
    }
  }

  lemma {:induction false} StartsWithSlash(x: Parts, u: string)
    requires IsAscii(x.user) && x.host != "" && |u| <= MAX_URL && IsPrefix(AuthorityPart(x), u)
    ensures Parse(u) == ParseAfterScheme("", u)
  {
    assert AuthorityPart(x)[0] == '/' && u[0] == u[..|AuthorityPart(x)|][0];
    assert FirstOf(u, ":/?#") == 0;
    NoColonFirst(u);
  }

  lemma {:induction false} NoColonFirst(u: string)
    requires u != "" && |u| <= MAX_URL && (FirstOf(u, ":/?#") < |u| ==> u[FirstOf(u, ":/?#")] != ':')
    ensures Parse(u) == ParseAfterScheme("", u)
  {
    assert !HasScheme(u) && ToLower("") == "";
  }

  lemma {:induction false} RelativeStart(x: Parts, u: string)
    requires AsciiParts(x) && Buildable(x) && x.host == "" && u == RestText(x)
    ensures FirstOf(u, ":/?#") < |u| ==> u[FirstOf(u, ":/?#")] != ':'
  {
    var p, f := Encode(x.path, PATH, Normal), FragmentPart(x.fragment);
    var t := QueryPart(x.query) + f;
    FragmentReads(x.fragment);
    QueryAndFragmentRead(x.query, f, t);
    EncodedColon(x.path);
    FirstDelimiter(p, t, u);
  }

  lemma {:induction false} FirstDelimiter(p: string, t: string, u: string)
    requires !ColonFirst(p) && (t == "" || t[0] == '?' || t[0] == '#') && u == p + t
    ensures FirstOf(u, ":/?#") < |u| ==> u[FirstOf(u, ":/?#")] != ':'
  {
    var m, n := FirstOf(u, ":/?#"), FirstOf(p, ":/");
    assert forall k :: 0 <= k < |p| ==> u[k] == p[k];
    assert t != "" ==> u[|p|] == t[0];
    assert n < |p| ==> u[n] == '/';
  }

  /** Parsing what was built gives the parts back, up to a default port. */
  lemma {:induction false} BuildParses(x: Parts, u: string)
    requires WellFormed(x) && AsciiParts(x) && Build(x) == Some(u) && |u| <= MAX_URL
    ensures Parse(u) == Parsed(Canon(x))
  {
    var s := AuthorityPart(x) + RestText(x);
    AfterSchemeReads(x, s);
    if x.scheme != "" {
      assert u == x.scheme + ":" + s;
      SchemeSplits(x.scheme, s, u);
    } else {
      assert u == s;
      if u == "" { NothingBuilt(x); } else { NoSchemeSplits(x, u); }
    }
  }

  lemma {:induction false} NothingBuilt(x: Parts)
    requires WellFormed(x) && AsciiParts(x) && Build(x) == Some("")
    ensures Canon(x) == EMPTY
  {
    EncodedChars(x.path, PATH, Normal);
    NoHash(x.query);
    EncodedChars(x.fragment, TEXT, Normal);
    assert x.scheme == "" && x.host == "" && RestText(x) == "";
    assert Encode(x.path, PATH, Normal) == "" && QueryPart(x.query) == "" && FragmentPart(x.fragment) == "";
  }

  lemma {:induction false} CanonBuilds(x: Parts)
    requires WellFormed(x) && AsciiParts(x)
    ensures AsciiParts(Canon(x)) && Build(Canon(x)) == Build(x)
  {
    if Buildable(x) && x.host != "" {
      assert PortText(x.scheme, KeptPort(x.scheme, x.port)) == PortText(x.scheme, x.port);
    }
  }

  // ---------- what parsing leaves ----------

  lemma {:induction false} LowerTwice(s: string)
    ensures ToLower(ToLower(s)) == ToLower(s)
  {}

  lemma {:induction false} LowerScheme(s: string)
    requires IsScheme(s)
    ensures IsScheme(ToLower(s))
  {
    assert forall k :: 0 <= k < |s| ==> SchemeChar(LowerChar(s[k]));
  }

  lemma {:induction false} LowerName(s: string)
    requires IsRegName(s) && !IsIpv4(s)
    ensures IsRegName(ToLower(s)) && !IsIpv4(ToLower(s))
  {
    var t := ToLower(s);
    assert forall k :: 0 <= k < |s| ==> (t[k] == '.' || IsNumber(t[k]) <==> s[k] == '.' || IsNumber(s[k]));
    assert forall k :: 0 <= k < |s| ==> IsChar(t[k], NAME);
  }

  lemma {:induction false} ParsedName(name: string, after: string)
    ensures var r := ParseName(name, after);
      r.Parsed? ==>
        && (r.value.port == "" || IsPort(r.value.port)) && (r.value.ip.Name? || r.value.ip.V4?)
        && WellHost(r.value.name, r.value.ip)
  {
    LowerTwice(name);
    if IsRegName(name) && !IsIpv4(name) { LowerName(name); }
  }

  /** `t` is the text that an IPv6 host was normalised from. */
  predicate NormalOf(host: string, t: string) { Modelled(t) && host == NormalizeIpv6(t) }

  lemma {:induction false} ParsedLiteral(inner: string, after: string)
    ensures var r := ParseLiteral(inner, after);
      r.Parsed? ==> (r.value.port == "" || IsPort(r.value.port)) && r.value.ip.V6? && NormalOf(r.value.name, inner)
  {}

  lemma {:induction false} ParsedHost(s: string)
    ensures var r := ParseHost(s);
      r.Parsed? ==> (r.value.port == "" || IsPort(r.value.port)) && !r.value.ip.NoHost? &&
                    (if r.value.ip.V6? then exists t :: NormalOf(r.value.name, t)
                     else WellHost(r.value.name, r.value.ip))
  {
    if s != "" && s[0] == '[' {
      var p := FirstOf(s[1..], "]");
      if p < |s[1..]| { ParsedLiteral(s[1..][..p], s[1..][p + 1..]); }
    } else {
      var p := FirstOf(s, ":");
      ParsedName(s[..p], s[p..]);
    }
  }

  predicate AddressChar(c: char) { c == ':' || c == '.' || IsHexDigit(c) }

  predicate AddressText(s: string) { forall k :: 0 <= k < |s| ==> AddressChar(s[k]) }

  lemma {:induction false} AddressConcat(a: string, b: string)
    requires AddressText(a) && AddressText(b)
    ensures AddressText(a + b)
  {}

  lemma {:induction false} JoinShape(ts: seq<string>)
    requires AllTokens(ts)
    ensures |Join(':', ts)| <= 5 * |ts| && AddressText(Join(':', ts))
  {
    if ts != [] {
      var n := |ts| - 1;
      JoinShape(ts[..n]);
      assert IsToken(ts[n]) && AddressText(ts[n]) && AddressText([':']);
      AddressConcat(Join(':', ts[..n]), [':']);
      AddressConcat(Join(':', ts[..n]) + [':'], ts[n]);
    }
  }

  lemma {:induction false} TailChars(tail: seq<string>)
    requires GoodTail(tail) && tail != []
    ensures AddressText(tail[0])
  {
    TailShape(tail[0]);
    assert forall c: char :: QuadChar(c) ==> AddressChar(c);
  }

  /** Printed fields, perhaps with a tail. */
  lemma {:induction false} FieldsShape(f: seq<nat>, tail: seq<string>, j: string)
    requires AllFields(f) && GoodTail(tail) && ShortTail(tail) && j == Join(':', Texts(f) + tail)
    ensures |j| <= 5 * |f| + 39 && AddressText(j)
  {
    TextsAreGroups(f);
    JoinShape(Texts(f));
    if tail == [] {
      assert Texts(f) + tail == Texts(f);
    } else {
      TailChars(tail);
      assert tail == [tail[0]];
      JoinLast(':', Texts(f), tail[0]);
      assert AddressText([':']);
      AddressConcat(Join(':', Texts(f)), [':']);
      AddressConcat(Join(':', Texts(f)) + [':'], tail[0]);
    }
  }

  lemma {:induction false} RunShape(f: seq<nat>, g: seq<nat>, tail: seq<string>, a: string, b: string)
    requires AllFields(f) && AllFields(g) && |f| + |g| <= 8 && GoodTail(tail) && ShortTail(tail)
    requires a == Join(':', Texts(f)) && b == Join(':', Texts(g) + tail)
    ensures |a + "::" + b| <= 254 && AddressText(a + "::" + b)
  {
    assert Texts(f) + [] == Texts(f);
    FieldsShape(f, [], a);
    FieldsShape(g, tail, b);
    assert AddressText("::");
    AddressConcat(a, "::");
    AddressConcat(a + "::", b);
  }

  lemma {:induction false} PlainShape(a: Address)
    requires Ipv6.WellFormed(a) && ShortTail(a.tail) && BestFrom(a.fields, 0).len < 2
    ensures |TextOf(a)| <= 254 && AddressText(TextOf(a))
  {
    FieldsShape(a.fields, a.tail, TextOf(a));
  }

  lemma {:induction false} ShortShape(a: Address, r: Run, f: seq<nat>, g: seq<nat>)
    requires Ipv6.WellFormed(a) && ShortTail(a.tail) && r == BestFrom(a.fields, 0) && r.len >= 2
    requires r.len < |a.fields| || a.tail != []
    requires f == a.fields[..r.pos] && g == a.fields[r.pos + r.len..]
    ensures |TextOf(a)| <= 254 && AddressText(TextOf(a))
  {
    RunText(a, r, Join(':', Texts(f)), Join(':', Texts(g) + a.tail));
    RunShape(f, g, a.tail, Join(':', Texts(f)), Join(':', Texts(g) + a.tail));
  }

  lemma {:induction false} TextShape(a: Address)
    requires Ipv6.WellFormed(a) && ShortTail(a.tail)
    ensures |TextOf(a)| <= 254 && AddressText(TextOf(a))
  {
    var r := BestFrom(a.fields, 0);
    if r.len < 2 {
      PlainShape(a);
    } else if r.len < |a.fields| || a.tail != [] {
      ShortShape(a, r, a.fields[..r.pos], a.fields[r.pos + r.len..]);
    } else {
      assert AddressText(":");
    }
  }

  lemma {:induction false} AddressIsModelled(h: string)
    requires AddressText(h) && 3 <= |h| <= 254 && ValidTokens(Tokens(h)) && ShortTail(TailOf(Tokens(h)))
    ensures Modelled(h) && h[0] != 'v'
  {
    assert !AddressChar('v');
  }

  lemma {:induction false} NormalTextStable(t: string, h: string)
    requires t != "::" && Modelled(t) && h == NormalizeIpv6(t) != ":"
    ensures Modelled(h) && NormalizeIpv6(h) == h && h[0] != 'v'
  {
    AllZeroBreaks(t);
    Ipv6.NormalForm(t);
    FieldsFit(Tokens(t));
    TextShape(AddressOf(Tokens(t)));
    AddressIsModelled(h);
  }

  /** A normal IPv6 host is its own normal form, unless it is the colon that all zeros become. */
  lemma {:induction false} NormalHostStable(t: string)
    requires Modelled(t) && NormalizeIpv6(t) != ":"
    ensures Stable(NormalizeIpv6(t))
  {
    if t != "::" { NormalTextStable(t, NormalizeIpv6(t)); }
  }

  // ---------- every host that is_valid_ipv6 accepts ----------

  lemma {:induction false} PiecesText(x: string)
    requires forall i :: 0 <= i < |Split(':', x)| ==> AddressText(Split(':', x)[i])
    ensures AddressText(x)
  {
    if x != "" {
      var n := |x| - 1;
      var r, q := Split(':', x[..n]), Split(':', x);
      forall i | 0 <= i < |r| ensures AddressText(r[i]) { LastGrows(r, x[n], q, i); }
      PiecesText(x[..n]);
      LastPieceHas(r, x[n], q);
    }
  }

  lemma {:induction false} LastGrows(r: seq<string>, c: char, q: seq<string>, i: nat)
    requires r != [] && q == AddChar(r, c, ':') && i < |r| && forall k :: 0 <= k < |q| ==> AddressText(q[k])
    ensures AddressText(r[i])
  {
    assert i < |q| && (q[i] == r[i] || q[i] == r[i] + [c]);
    if q[i] == r[i] + [c] { assert forall k :: 0 <= k < |r[i]| ==> q[i][k] == r[i][k]; }
  }

  lemma {:induction false} LastPieceHas(r: seq<string>, c: char, q: seq<string>)
    requires r != [] && q == AddChar(r, c, ':') && forall k :: 0 <= k < |q| ==> AddressText(q[k])
    ensures AddressChar(c)
  {
    if c != ':' {
      var l := q[|q| - 1];
      assert l == r[|r| - 1] + [c] && l[|l| - 1] == c;
    }
  }

  lemma {:induction false} TokensText(ts: seq<string>)
    requires ValidTokens(ts)
    ensures forall i :: 0 <= i < |ts| ==> AddressText(ts[i])
  {
    var gs, tail := HeadOf(ts), TailOf(ts);
    if tail != [] { TailChars(tail); }
    forall i | 0 <= i < |ts| ensures AddressText(ts[i]) {
      if i < |gs| { assert ts[i] == gs[i] && IsToken(gs[i]); } else { assert ts[i] == tail[0]; }
    }
  }

  lemma {:induction false} InnerText(s: string)
    requires |s| >= 2 && AddressText(Inner(s))
    ensures AddressText(s)
  {
    var a := if s[0] == ':' then s[1..] else s;
    forall k | 0 <= k < |s| ensures AddressChar(s[k]) {
      var j := if s[0] == ':' then k - 1 else k;
      if 0 <= j < |Inner(s)| { assert Inner(s)[j] == s[k]; }
    }
  }

  lemma {:induction false} AcceptedText(s: string)
    requires |s| >= 2 && ValidTokens(Tokens(s))
    ensures AddressText(s)
  {
    TokensText(Tokens(s));
    PiecesText(Inner(s));
    InnerText(s);
  }

  lemma {:induction false} AcceptedTail(s: string)
    requires 2 <= |s| <= 39 && ValidTokens(Tokens(s))
    ensures ShortTail(TailOf(Tokens(s)))
  {
    SplitLength(':', Inner(s));
    TokensMany(Tokens(s));
  }

  /** The model leaves out no host that is_valid_ipv6 accepts. */
  lemma {:induction false} AcceptedIsModelled(s: string)
    requires IsAccepted(s)
    ensures Modelled(s) && s[0] != 'v'
  {
    if s == "::" {
      assert AddressText(s);
    } else {
      AcceptedText(s);
      AcceptedTail(s);
    }
    assert AddressChar(s[0]) && !AddressChar('v');
  }

  /** What is outside the model is an IPvFuture host, or is rejected by is_valid_ipv6. */
  lemma {:induction false} LeftOutIsRejected(inner: string, after: string)
    ensures ParseLiteral(inner, after).Unmodelled? ==> inner != "" && (inner[0] == 'v' || !IsAccepted(inner))
  {
    if IsAccepted(inner) { AcceptedIsModelled(inner); }
  }

  lemma {:induction false} TokensMany(ts: seq<string>)
    requires ValidTokens(ts)
    ensures |ts| >= 2
  {}

  lemma {:induction false} QuadHostAccepted(q: string, host: string)
    requires IsTail(q) && |q| <= 37 && host == "::" + q && IsAddress(host)
    ensures IsAccepted(host)
  {
    TailShape(q);
    assert host[|host| - 1] == q[|q| - 1] && host[0] == ':' && host[1] == ':';
  }

  /** Zeros before a dotted quad stay as they are written, whatever the quad. */
  lemma {:induction false} QuadHostStable(q: string, host: string)
    requires IsTail(q) && |q| <= 37 && host == "::" + q
    ensures IsAccepted(host) && Stable(host)
  {
    TailAfterGap(q, host);
    QuadHostAccepted(q, host);
    AcceptedIsModelled(host);
  }

  /** In particular "::0.0.0.0". */
  lemma {:induction false} ZeroQuadStable()
    ensures IsAccepted("::0.0.0.0") && Stable("::0.0.0.0")
  {
    var q, host := "0.0.0.0", "::0.0.0.0";
    ZeroQuad();
    ZeroQuadText(q, host);
    QuadHostStable(q, host);
  }

  lemma {:induction false} ZeroQuadText(q: string, host: string)
    requires q == "0.0.0.0" && host == "::0.0.0.0"
    ensures host == "::" + q
  {}

  /** The host is the colon that an IPv6 address of zeros becomes. */
  predicate AllZeroHost(x: Parts) { x.ip.V6? && x.host == ":" }

  lemma {:induction false} ParsedAuthority(s: string)
    ensures var r := ParseAuthority(s);
      r.Parsed? ==> var h := r.value.host;
        && IsChars(r.value.user, USER) && (h.port == "" || IsPort(h.port)) && !h.ip.NoHost?
        && ((h.ip.V6? && h.name == ":") || WellHost(h.name, h.ip))
  {
    var hp := HostPart(s);
    ParsedHost(hp);
    var h := ParseHost(hp);
    if h.Parsed? && h.value.ip.V6? {
      var t :| NormalOf(h.value.name, t);
      if h.value.name != ":" { NormalHostStable(t); }
    }
  }

  lemma {:induction false} ParsedPath(s: string)
    ensures ParseRest(s).Some? ==> NormalizePath(ParseRest(s).value.path) == ParseRest(s).value.path
  {
    var d := Decode(s[..FirstOf(s, "?#")], false);
    if d.Some? { NormalizeTwice(d.value); }
  }

  /** What parsing leaves, for any outcome. */
  predicate LeavesWell(r: Outcome<Parts>) {
    r.Parsed? ==> WellApart(r.value) && (AllZeroHost(r.value) || WellHost(r.value.host, r.value.ip))
  }

  lemma {:induction false} AssembledWell(scheme: string, a: Outcome<Authority>, r: Maybe<Rest>)
    requires scheme == "" || (IsScheme(scheme) && ToLower(scheme) == scheme)
    requires r.Some? ==> NormalizePath(r.value.path) == r.value.path
    requires a.Parsed? ==> var h := a.value.host;
      && IsChars(a.value.user, USER) && (h.port == "" || IsPort(h.port))
      && ((h.ip.V6? && h.name == ":") || WellHost(h.name, h.ip))
    ensures LeavesWell(Assemble(scheme, a, r))
  {}

  lemma {:induction false} AfterSchemeWell(scheme: string, s: string)
    requires scheme == "" || (IsScheme(scheme) && ToLower(scheme) == scheme)
    ensures LeavesWell(ParseAfterScheme(scheme, s))
  {
    if HasAuthority(s) {
      ParsedAuthority(AuthorityOf(s));
      ParsedPath(BehindAuthority(s));
      AssembledWell(scheme, ParseAuthority(AuthorityOf(s)), ParseRest(BehindAuthority(s)));
    } else {
      ParsedPath(s);
      AssembledWell(scheme, Parsed(NO_AUTHORITY), ParseRest(s));
    }
  }

  /** The parts that parsing leaves are well formed, an all-zero IPv6 host apart. */
  lemma {:induction false} ParsedWell(u: string)
    ensures LeavesWell(Parse(u))
  {
    var scheme := SchemeOf(u);
    if u == "" {
      assert LeavesWell(Parsed(EMPTY));
    } else if HasScheme(u) && !IsScheme(scheme) {
      assert Parse(u) == Thrown;
    } else {
      LowerTwice(scheme);
      if HasScheme(u) { LowerScheme(scheme); } else { assert ToLower(scheme) == ""; }
      AfterSchemeWell(ToLower(scheme), AfterScheme(u));
    }
  }

  // ---------- which URLs are canonical after one pass ----------

  /** Canonicalisation is idempotent: what is built from a parsed URL is parsed again and built to the same
      string, as long as it is not too long and its host is not an IPv6 address of zeros written out. */
  lemma {:induction false} Canonicalisation(u: string, x: Parts, v: string)
    requires Parse(u) == Parsed(x) && AsciiParts(x) && Build(x) == Some(v) && |v| <= MAX_URL && !AllZeroHost(x)
    ensures Parse(v) == Parsed(Canon(x)) && AsciiParts(Canon(x)) && Build(Canon(x)) == Some(v)
  {
    ParsedWell(u);
    BuildParses(x, v);
    CanonBuilds(x);
  }

  lemma {:induction false} ZeroAfterScheme(x: Parts, s: string)
    requires AllZeroHost(x) && WellApart(x) && AsciiParts(x) && Buildable(x) && s == AuthorityPart(x) + RestText(x)
    ensures ParseAfterScheme(x.scheme, s) == Thrown
  {
    var t := PortText(x.scheme, x.port);
    PortReads(x.scheme, x.port);
    BracketSplits(":", t, "[" + ":" + "]" + t);
    BracketAuthority(x, t);
    RestStarts(x);
    WithAuthority(x.scheme, AuthorityText(x), RestText(x));
  }

  /** With such a host it is not: what is built cannot be parsed. */
  lemma {:induction false} AllZeroHostFails(x: Parts, v: string)
    requires AllZeroHost(x) && WellApart(x) && AsciiParts(x) && Build(x) == Some(v)
    ensures Parse(v) == Thrown
  {
    var s := AuthorityPart(x) + RestText(x);
    ZeroAfterScheme(x, s);
    BuiltSplits(x, s, v);
  }

  lemma {:induction false} BuiltSplits(x: Parts, s: string, v: string)
    requires WellApart(x) && AsciiParts(x) && Build(x) == Some(v) && s == AuthorityPart(x) + RestText(x) && x.host != ""
    ensures |v| <= MAX_URL ==> Parse(v) == ParseAfterScheme(x.scheme, s)
  {
    if |v| <= MAX_URL {
      if x.scheme != "" {
        assert v == x.scheme + ":" + s;
        SchemeSplits(x.scheme, s, v);
      } else {
        assert v == s;
        NoSchemeSplits(x, v);
      }
    }
  }

  lemma {:induction false} BracketAuthority(x: Parts, t: string)
    requires AllZeroHost(x) && IsChars(x.user, USER) && IsAscii(x.user)
    requires t == PortText(x.scheme, x.port) && Free(t, "/?#@") && ParseHost("[" + ":" + "]" + t) == Thrown
    ensures ParseAuthority(AuthorityText(x)) == Thrown && Free(AuthorityText(x), "/?#")
  {
    var hp := "[" + ":" + "]" + t;
    assert Free("[" + ":" + "]", "/?#@");
    FreeConcat("[" + ":" + "]", t, "/?#@");
    FewerStops(hp);
    UserTextIs(x.user, hp);
    NoAt(x.user);
    AuthoritySplits(x.user, hp);
    UserTextFree(x.user);
    FreeConcat(UserText(x.user), hp, "/?#");
    assert HostText(x.host, x.ip) + t == hp;
  }

  // ---------- the host as the caller wrote it ----------

  /** The host part is an address in brackets that spells zeros in another way than "::". */
  predicate BracketsZeros(hp: string) {
    HasBracket(hp) && BracketEnd(hp) < |hp[1..]| && SpellsZeros(hp[1..][..BracketEnd(hp)])
  }

  /** So is the host of the URL `u`. */
  predicate HostSpellsZeros(u: string) {
    HasAuthority(AfterScheme(u)) && BracketsZeros(HostPart(AuthorityOf(AfterScheme(u))))
  }

  lemma {:induction false} LiteralBecomesColon(inner: string, after: string)
    ensures var r := ParseLiteral(inner, after); r.Parsed? ==> (r.value.name == ":" <==> SpellsZeros(inner))
  {
    if Modelled(inner) && inner != "::" { AllZeroBreaks(inner); }
  }

  lemma {:induction false} BracketBecomesColon(hp: string, p: nat, inner: string, after: string)
    requires HasBracket(hp) && p == BracketEnd(hp) < |hp[1..]| && inner == hp[1..][..p] && after == hp[1..][p + 1..]
    ensures var r := ParseHost(hp); r.Parsed? ==> (r.value.ip.V6? && r.value.name == ":" <==> SpellsZeros(inner))
  {
    LiteralBecomesColon(inner, after);
    LiteralIsV6(inner, after);
  }

  lemma {:induction false} LiteralIsV6(inner: string, after: string)
    ensures ParseLiteral(inner, after).Parsed? ==> ParseLiteral(inner, after).value.ip.V6?
  {}

  lemma {:induction false} HostBecomesColon(hp: string)
    ensures var r := ParseHost(hp); r.Parsed? ==> (r.value.ip.V6? && r.value.name == ":" <==> BracketsZeros(hp))
  {
    if HasBracket(hp) {
      var p := BracketEnd(hp);
      if p < |hp[1..]| { BracketBecomesColon(hp, p, hp[1..][..p], hp[1..][p + 1..]); }
    } else {
      ParsedName(hp[..FirstOf(hp, ":")], hp[FirstOf(hp, ":")..]);
    }
  }

  lemma {:induction false} AssembledZeros(scheme: string, s: string, x: Parts)
    requires ParseAfterScheme(scheme, s) == Parsed(x)
    ensures AllZeroHost(x) <==> HasAuthority(s) && BracketsZeros(HostPart(AuthorityOf(s)))
  {
    if HasAuthority(s) { HostBecomesColon(HostPart(AuthorityOf(s))); }
  }

  lemma {:induction false} ParsedZeros(u: string, x: Parts)
    requires Parse(u) == Parsed(x)
    ensures AllZeroHost(x) <==> HostSpellsZeros(u)
  {
    if u == "" {
      assert !HasAuthority(AfterScheme(u));
    } else {
      AssembledZeros(ToLower(SchemeOf(u)), AfterScheme(u), x);
    }
  }

  /** `v` is parsed, and built to itself. */
  predicate IsCanonical(v: string) {
    var r := Parse(v);
    r.Parsed? && AsciiParts(r.value) && Build(r.value) == Some(v)
  }

  /** For every URL that parses to ASCII parts and builds to a string that is not too long: that string is
      canonical exactly when the host of the URL is not an IPv6 address of zeros in another spelling than "::". */
  lemma {:induction false} CanonicalExactly(u: string, x: Parts, v: string)
    requires Parse(u) == Parsed(x) && AsciiParts(x) && Build(x) == Some(v) && |v| <= MAX_URL
    ensures IsCanonical(v) <==> !HostSpellsZeros(u)
    ensures HostSpellsZeros(u) ==> Parse(v) == Thrown
  {
    ParsedZeros(u, x);
    ParsedWell(u);
    if AllZeroHost(x) { AllZeroHostFails(x, v); } else { Canonicalisation(u, x, v); }
  }

  const ZERO_HOST: Parts := EMPTY.(host := ":", ip := V6)

  /** A host of zeros in brackets, alone. */
  lemma {:induction false} ZeroHostParses(t: string, a: string)
    requires Modelled(t) && SpellsZeros(t) && t[0] != 'v' && a == "[" + t + "]" + ""
    ensures ParseAuthority(a) == Parsed(Authority("", Host(":", V6, ""))) && Free(a, "/?#")
  {
    AddressChars(t);
    BracketFree(t, "[" + t + "]");
    assert a == "[" + t + "]";
    FewerStops(a);
    ZeroLiteral(t);
    BracketSplits(t, "", a);
    NoUser(a, Host(":", V6, ""));
  }

  lemma {:induction false} ZeroLiteral(t: string)
    requires Modelled(t) && SpellsZeros(t) && t[0] != 'v'
    ensures ParseLiteral(t, "") == Parsed(Host(":", V6, ""))
  {
    NoPort();
    NormalLiteral(t, "", "", NormalizeIpv6(t));
    AllZeroBreaks(t);
  }

  lemma {:induction false} NoPort()
    ensures ParsePort("") == Some("")
  {}

  lemma {:induction false} NormalLiteral(t: string, after: string, port: string, name: string)
    requires Modelled(t) && t[0] != 'v' && ParsePort(after) == Some(port) && name == NormalizeIpv6(t)
    ensures ParseLiteral(t, after) == Parsed(Host(name, V6, port))
  {}

  lemma {:induction false} NoUser(a: string, h: Host)
    requires ParseHost(a) == Parsed(h) && Free(a, "@")
    ensures ParseAuthority(a) == Parsed(Authority("", h))
  {
    AuthoritySplits("", a);
  }

  lemma {:induction false} NothingFollows()
    ensures ParseRest("") == Some(Rest("", [], ""))
  {}

  lemma {:induction false} SlashesFirst(a: string, u: string)
    requires u == "//" + a + "" && |u| <= MAX_URL
    ensures Parse(u) == ParseAfterScheme("", u)
  {
    assert u[0] == '/';
    assert ToLower("") == "";
  }

  /** Every URL that is such a host alone is parsed, built to "//[:]", and that is refused. */
  lemma {:induction false} ZeroHostUrl(t: string, u: string)
    requires Modelled(t) && SpellsZeros(t) && t[0] != 'v' && u == "//" + ("[" + t + "]" + "") + "" && |u| <= MAX_URL
    ensures Parse(u) == Parsed(ZERO_HOST) && AsciiParts(ZERO_HOST) && Build(ZERO_HOST) == Some("//[:]")
    ensures Parse("//[:]") == Thrown
  {
    var a := "[" + t + "]" + "";
    ZeroHostParses(t, a);
    NothingFollows();
    WithAuthority("", a, "");
    SlashesFirst(a, u);
    ZeroHostBuilds();
    AllZeroHostFails(ZERO_HOST, "//[:]");
  }

  lemma {:induction false} ZerosChars(t: string)
    requires t == ['0', ':', ':', '0']
    ensures IsIpv6(t) && "//" + ("[" + t + "]" + "") + "" == "//[0::0]"
  {}

  /** "//[0::0]" is one. */
  lemma {:induction false} ZeroHostExample()
    ensures Parse("//[0::0]") == Parsed(ZERO_HOST) && AsciiParts(ZERO_HOST) && Build(ZERO_HOST) == Some("//[:]")
    ensures Parse("//[:]") == Thrown
  {
    var t := "0::0";
    GapSpellsZeros();
    ZerosChars(t);
    ZeroHostUrl(t, "//[0::0]");
  }

  lemma {:induction false} ZeroHostBuilds()
    ensures AsciiParts(ZERO_HOST) && WellApart(ZERO_HOST) && Build(ZERO_HOST) == Some("//[:]")
  {
    assert RestText(ZERO_HOST) == "" && UserText("") == "" && PortText("", "") == "" && SchemeText("") == "";
    assert AuthorityText(ZERO_HOST) == "" + ("[:]" + "") == "[:]";
    assert "" + ("//" + "[:]" + "") == "//[:]";
  }
}
