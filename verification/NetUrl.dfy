/** NetUrl: an address `protocol://host:port?key=value&...`, printed and read back. */
module NetUrl {
  import opened Numerals

  // ---------- searching ----------

  const SEPARATOR := "://"

  predicate SeparatorAt(s: string, k: nat) { k + 3 <= |s| && s[k] == ':' && s[k + 1] == '/' && s[k + 2] == '/' }

  /** Offset of the first "://", or |s|. */
  function FindSeparator(s: string): (n: nat)
    ensures n <= |s| && (n < |s| ==> SeparatorAt(s, n)) && forall k: nat :: k < n ==> !SeparatorAt(s, k)
  {
    if s == "" || SeparatorAt(s, 0) then 0
    else
      var n := FindSeparator(s[1..]);
      assert forall k: nat :: SeparatorAt(s, k + 1) <==> SeparatorAt(s[1..], k);
      assert forall k: nat :: 0 < k < n + 1 && SeparatorAt(s, k) ==> SeparatorAt(s[1..], k - 1);
      n + 1
  }

  /** Offset of the first `c`, or |s|. */
  function FindChar(s: string, c: char): (n: nat)
    ensures n <= |s| && (n < |s| ==> s[n] == c) && forall k :: 0 <= k < n ==> s[k] != c
  {
    if s == "" then 0 else if s[0] == c then 0 else FindChar(s[1..], c) + 1
  }

  lemma {:induction false} FindCharIn(a: string, c: char, b: string)
    requires c !in a
    ensures FindChar(a + [c] + b, c) == |a| && FindChar(a, c) == |a|
  {
    var s := a + [c] + b;
    assert s[|a|] == c;
    assert forall k :: 0 <= k < |a| ==> s[k] == a[k] && a[k] in a;
  }

  // ---------- the port ----------

  predicate IsSpace(c: char) { c == ' ' || '\t' <= c <= '\r' }

  const INT_MAX: int := 0x7FFF_FFFF

  datatype Number = NoNumber | Number(value: int)

  /** std::stoi: blanks, a sign, and the digits that follow; an exception without digits or out of range. */
  function Stoi(s: string): Number {
    if s != "" && IsSpace(s[0]) then Stoi(s[1..])
    else
      var negative := s != "" && s[0] == '-';
      var t := if s != "" && (s[0] == '-' || s[0] == '+') then s[1..] else s;
      var n := LeadingDigits(t);
      var v: int := Decimal(t[..n]);
      if n == 0 || v > (if negative then INT_MAX + 1 else INT_MAX) then NoNumber else Number(if negative then -v else v)
  }

  /** The conversion to a 16-bit unsigned value. */
  function Cast16(v: int): nat { v % 0x1_0000 }

  function DigitsOf(n: nat): (d: string)
    ensures d != "" && AllDigits(d) && Decimal(d) == n
  {
    if n < 10 then
      var d := [('0' as int + n) as char];
      assert d[..0] == "";
      d
    else
      var r := DigitsOf(n / 10);
      var d := r + [('0' as int + n % 10) as char];
      assert d[..|r|] == r;
      d
  }

  lemma {:induction false} AllLeading(d: string)
    requires AllDigits(d)
    ensures LeadingDigits(d) == |d|
  {}

  lemma {:induction false} StoiReads(n: nat)
    requires n <= 0xFFFF
    ensures Stoi(DigitsOf(n)) == Number(n) && Cast16(n) == n
  {
    var d := DigitsOf(n);
    AllLeading(d);
    assert IsNumber(d[0]) && !IsSpace(d[0]) && d[..|d|] == d;
  }

  // ---------- the parameters ----------

  type Params = map<string, string>

  /** The variables of the parameter loop. */
  datatype Reading = Reading(isKey: bool, key: string, value: string, params: Params)

  function ReadChar(r: Reading, c: char): Reading {
    if c == '=' then r.(isKey := !r.isKey)
    else if c == '&' then Reading(!r.isKey, "", "", r.params[r.key := r.value])
    else if r.isKey then r.(key := r.key + [c])
    else r.(value := r.value + [c])
  }

  function ReadParams(r: Reading, s: string): Reading {
    if s == "" then r else ReadChar(ReadParams(r, s[..|s| - 1]), s[|s| - 1])
  }

  function LastParam(r: Reading): Params { if r.key != "" then r.params[r.key := r.value] else r.params }

  lemma {:induction false} ReadParamsConcat(r: Reading, a: string, b: string)
    ensures ReadParams(r, a + b) == ReadParams(ReadParams(r, a), b)
  {
    if b == "" {
      assert a + b == a;
    } else {
      ReadParamsConcat(r, a, b[..|b| - 1]);
      assert (a + b)[..|a + b| - 1] == a + b[..|b| - 1];
    }
  }

  predicate Plain(s: string) { '=' !in s && '&' !in s }

  lemma {:induction false} ReadsPlain(r: Reading, s: string)
    requires Plain(s)
    ensures ReadParams(r, s) == if r.isKey then r.(key := r.key + s) else r.(value := r.value + s)
  {
    if s == "" {
      assert r.key + s == r.key && r.value + s == r.value;
    } else {
      var t, c := s[..|s| - 1], s[|s| - 1];
      assert c in s;
      ReadsPlain(r, t);
      assert s == t + [c];
      assert r.key + t + [c] == r.key + s && r.value + t + [c] == r.value + s;
    }
  }

  function EncodeParam(k: string, v: string): string { k + ['='] + v + ['&'] }

  lemma {:induction false} ReadsOne(r: Reading, c: char)
    ensures ReadParams(r, [c]) == ReadChar(r, c)
  {
    assert [c][..0] == "";
  }

  /** A printed parameter is read back, and the loop is ready for the next: the flag has been toggled twice. */
  lemma {:induction false} ReadsParam(m: Params, k: string, v: string)
    requires Plain(k) && Plain(v)
    ensures ReadParams(Reading(true, "", "", m), EncodeParam(k, v)) == Reading(true, "", "", m[k := v])
  {
    var r := Reading(true, "", "", m);
    ReadsPlain(r, k);
    ReadsOne(r.(key := k), '=');
    ReadsPlain(Reading(false, k, "", m), v);
    ReadsOne(Reading(false, k, v, m), '&');
    assert "" + k == k && "" + v == v;
    ReadParamsConcat(r, k, ['=']);
    ReadParamsConcat(r, k + ['='], v);
    ReadParamsConcat(r, k + ['='] + v, ['&']);
  }

  /** The parameters printed in the order `keys`. */
  function EncodeParams(m: Params, keys: seq<string>): string
    requires forall k :: k in keys ==> k in m
  {
    if keys == [] then ""
    else
      var n := |keys| - 1;
      EncodeParams(m, keys[..n]) + EncodeParam(keys[n], m[keys[n]])
  }

  predicate AllPlain(m: Params) { forall k :: k in m ==> Plain(k) && Plain(m[k]) }

  function Restrict(m: Params, keys: seq<string>): Params { map k | k in keys && k in m :: m[k] }

  lemma {:induction false} ReadsAllParams(m: Params, keys: seq<string>)
    requires AllPlain(m) && forall k :: k in keys ==> k in m
    ensures ReadParams(Reading(true, "", "", map[]), EncodeParams(m, keys)) == Reading(true, "", "", Restrict(m, keys))
  {
    if keys == [] {
      assert Restrict(m, keys) == map[];
    } else {
      var n := |keys| - 1;
      var init, k := keys[..n], keys[n];
      ReadsAllParams(m, init);
      ReadsParam(Restrict(m, init), k, m[k]);
      ReadParamsConcat(Reading(true, "", "", map[]), EncodeParams(m, init), EncodeParam(k, m[k]));
      assert keys == init + [k];
      assert Restrict(m, init)[k := m[k]] == Restrict(m, keys);
    }
  }

  // ---------- the whole address ----------

  datatype Url = Url(protocol: string, host: string, port: nat, params: Params)

  /** What parse leaves: no "://" (it returns false), an exception for the port, or the address. */
  datatype Outcome = NotFound | BadPort | Parsed(url: Url)

  /** Host and port. */
  function HostInfo(s: string): (string, Number) {
    var c := FindChar(s, ':');
    if c == |s| then (s, Number(0))
    else (s[..c], if s[c + 1..] == "" then Number(0) else Stoi(s[c + 1..]))
  }

  function ReadAll(tail: string): Params { LastParam(ReadParams(Reading(true, "", "", map[]), tail)) }

  /** What follows "://". */
  function ParseRest(protocol: string, rest: string): Outcome {
    var q := FindChar(rest, '?');
    var info := HostInfo(rest[..q]);
    if info.1.NoNumber? then BadPort
    else Parsed(Url(protocol, info.0, Cast16(info.1.value), ReadAll(if q == |rest| then "" else rest[q + 1..])))
  }

  function ParseText(s: string): Outcome {
    var pos := FindSeparator(s);
    if pos == |s| then NotFound else ParseRest(s[..pos], s[pos + 3..])
  }

  /** Any order in which the map may be walked: every key, once. */
  ghost predicate IsOrder(m: Params, keys: seq<string>) {
    (forall k :: k in keys <==> k in m) && forall i, j :: 0 <= i < j < |keys| ==> keys[i] != keys[j]
  }

  function PortText(port: nat): string { if port > 0 then [':'] + DigitsOf(port) else "" }

  function QueryText(m: Params, keys: seq<string>): string
    requires IsOrder(m, keys)
  {
    if m == map[] then "" else ['?'] + EncodeParams(m, keys)
  }

  function EncodeUrl(u: Url, keys: seq<string>): string
    requires IsOrder(u.params, keys)
  {
    u.protocol + SEPARATOR + (u.host + PortText(u.port) + QueryText(u.params, keys))
  }

  /** An address that can be printed and read back. */
  predicate Printable(u: Url) {
    && FindSeparator(u.protocol) == |u.protocol| && ':' !in u.host && '?' !in u.host && u.port <= 0xFFFF &&
       AllPlain(u.params)
  }

  lemma {:induction false} SeparatorFound(p: string, rest: string)
    requires FindSeparator(p) == |p|
    ensures FindSeparator(p + SEPARATOR + rest) == |p|
  {
    var s := p + SEPARATOR + rest;
    assert s[|p|] == ':' && s[|p| + 1] == '/' && s[|p| + 2] == '/';
    assert SeparatorAt(s, |p|);
    forall k: nat | k < |p| ensures !SeparatorAt(s, k) {
      assert SeparatorAt(s, k) && k + 3 <= |p| ==> SeparatorAt(p, k);
    }
  }

  lemma {:induction false} HostInfoReads(host: string, d: string)
    requires ':' !in host
    ensures HostInfo(host) == (host, Number(0))
    ensures d != "" ==> HostInfo(host + [':'] + d) == (host, Stoi(d))
  {
    var s := host + [':'] + d;
    FindCharIn(host, ':', d);
    assert s[..|host|] == host && s[|host| + 1..] == d;
  }

  lemma {:induction false} PortReads(host: string, port: nat)
    requires ':' !in host && port <= 0xFFFF
    ensures HostInfo(host + PortText(port)) == (host, Number(port))
  {
    var d := DigitsOf(port);
    HostInfoReads(host, d);
    StoiReads(port);
    PortTextIs(host, port);
  }

  lemma {:induction false} PortTextIs(host: string, port: nat)
    ensures host + PortText(port) == if port > 0 then host + [':'] + DigitsOf(port) else host
  {
    assert host + "" == host;
    assert host + ([':'] + DigitsOf(port)) == host + [':'] + DigitsOf(port);
  }

  lemma {:induction false} ParsesText(protocol: string, rest: string)
    requires FindSeparator(protocol) == |protocol|
    ensures ParseText(protocol + SEPARATOR + rest) == ParseRest(protocol, rest)
  {
    var s := protocol + SEPARATOR + rest;
    SeparatorFound(protocol, rest);
    assert s[..|protocol|] == protocol && s[|protocol| + 3..] == rest;
  }

  /** Without and with a query. */
  lemma {:induction false} ParsesRest(protocol: string, info: string, tail: string, host: string, port: nat)
    requires '?' !in info && HostInfo(info) == (host, Number(port)) && port <= 0xFFFF
    ensures ParseRest(protocol, info) == Parsed(Url(protocol, host, port, ReadAll("")))
    ensures ParseRest(protocol, info + ['?'] + tail) == Parsed(Url(protocol, host, port, ReadAll(tail)))
  {
    var rest := info + ['?'] + tail;
    FindCharIn(info, '?', tail);
    assert info[..|info|] == info && rest[..|info|] == info && rest[|info| + 1..] == tail;
    assert Cast16(port) == port;
  }

  lemma {:induction false} NoQuestionMark(host: string, port: nat)
    requires '?' !in host
    ensures '?' !in host + PortText(port)
  {
    assert forall c :: c in DigitsOf(port) ==> IsNumber(c);
  }

  lemma {:induction false} ReadsBack(m: Params, keys: seq<string>)
    requires AllPlain(m) && IsOrder(m, keys)
    ensures ReadAll(EncodeParams(m, keys)) == m && (m == map[] ==> EncodeParams(m, keys) == "")
  {
    ReadsAllParams(m, keys);
    assert Restrict(m, keys) == m;
    assert keys != [] ==> keys[0] in m;
  }

  lemma {:induction false} QueryConcat(info: string, query: string, tail: string)
    ensures query == "" ==> info + query == info
    ensures query == ['?'] + tail ==> info + query == info + ['?'] + tail
  {}

  lemma {:induction false} RestReads(protocol: string, host: string, port: nat, info: string, query: string,
                                     tail: string)
    requires '?' !in info && HostInfo(info) == (host, Number(port)) && port <= 0xFFFF
    requires (query == "" && tail == "") || query == ['?'] + tail
    ensures ParseRest(protocol, info + query) == Parsed(Url(protocol, host, port, ReadAll(tail)))
  {
    QueryConcat(info, query, tail);
    ParsesRest(protocol, info, tail, host, port);
  }

  /** parse(encode(u)) returns the same address, in whatever order the parameters were printed. */
  lemma {:induction false} RoundTrip(u: Url, keys: seq<string>)
    requires Printable(u) && IsOrder(u.params, keys)
    ensures ParseText(EncodeUrl(u, keys)) == Parsed(u)
  {
    PortReads(u.host, u.port);
    NoQuestionMark(u.host, u.port);
    ReadsBack(u.params, keys);
    RestReads(u.protocol, u.host, u.port, u.host + PortText(u.port), QueryText(u.params, keys),
      EncodeParams(u.params, keys));
    ParsesText(u.protocol, u.host + PortText(u.port) + QueryText(u.params, keys));
  }

  // ---------- the object ----------

  class Address {
    var protocol: string
    var host: string
    var port: nat
    var params: Params

    ghost function Value(): Url
      reads this
    {
      Url(protocol, host, port, params)
    }

    constructor ()
      ensures Value() == Url("", "", 0, map[])
    {
      protocol, host, port, params := "", "", 0, map[];
    }

    /** The loop over the characters behind '?'. */
    method ReadQuery(tail: string)
      modifies this`params
      ensures params == LastParam(ReadParams(Reading(true, "", "", old(params)), tail))
    {
      var isKey, key, value := true, "", "";
      ghost var r := Reading(true, "", "", params);
      assert tail[..0] == "";
      for i := 0 to |tail|
        invariant Reading(isKey, key, value, params) == ReadParams(r, tail[..i])
      {
        assert tail[..i + 1][..i] == tail[..i];
        if tail[i] == '=' {
          isKey := !isKey;
        } else if tail[i] == '&' {
          params := params[key := value];
          key, value, isKey := "", "", !isKey;
        } else if isKey {
          key := key + [tail[i]];
        } else {
          value := value + [tail[i]];
        }
      }
      assert tail[..|tail|] == tail;
      if key != "" {
        params := params[key := value];
      }
    }

    /** Returns false without "://"; `thrown` says that the port raised an exception. */
    method Parse(channel: string) returns (ok: bool, thrown: bool)
      modifies this
      ensures match ParseText(channel)
              case NotFound => !ok && !thrown && Value() == Url("", "", 0, map[])
              case BadPort => thrown && params == map[]
              case Parsed(u) => ok && !thrown && Value() == u
    {
      protocol, host, port, params := "", "", 0, map[];
      ok, thrown := false, false;
      var pos := FindSeparator(channel);
      if pos == |channel| {
        return;
      }
      protocol := channel[..pos];
      var rest := channel[pos + 3..];
      var q := FindChar(rest, '?');
      var info := rest[..q];
      var c := FindChar(info, ':');
      host := info[..c];
      assert c == |info| ==> info[..c] == info;
      if c < |info| && info[c + 1..] != "" {
        var n := Stoi(info[c + 1..]);
        if n.NoNumber? {
          thrown := true;
          return;
        }
        port := Cast16(n.value);
      }
      ReadQuery(if q == |rest| then "" else rest[q + 1..]);
      ok := true;
    }

    /** The loop over the map, in the order `keys`. */
    method PrintParams(keys: seq<string>) returns (s: string)
      requires forall k :: k in keys ==> k in params
      ensures s == EncodeParams(params, keys)
    {
      s := "";
      assert keys[..0] == [];
      for i := 0 to |keys|
        invariant s == EncodeParams(params, keys[..i])
      {
        assert keys[..i + 1][..i] == keys[..i];
        s := s + EncodeParam(keys[i], params[keys[i]]);
      }
      assert keys[..|keys|] == keys;
    }

    method Print(keys: seq<string>) returns (s: string)
      requires IsOrder(params, keys)
      ensures s == EncodeUrl(Value(), keys)
    {
      s := host + (if port > 0 then [':'] + DigitsOf(port) else "");
      if params != map[] {
        var query := PrintParams(keys);
        s := s + (['?'] + query);
      } else {
        assert s == s + QueryText(params, keys);
      }
      s := protocol + SEPARATOR + s;
    }
  }
}
