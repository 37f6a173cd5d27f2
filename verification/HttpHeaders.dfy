/** The incremental header matchers against plain comparison of whole names and values. */
module HttpHeaders {
  import opened Sequences
  import opened HttpChars
  import opened HttpParser
  import opened HttpInvariant
  import opened HttpRun
  import opened HttpScan
  import opened HttpSegments

  function LowerCase(s: string): string {
    seq(|s|, i requires 0 <= i < |s| => if IsUpper(s[i]) then (s[i] as int + 32) as char else s[i])
  }

  // ---------- names ----------

  /** The header state of a matcher for one word after the lower-case text `l`. */
  function Progress(word: string, l: string, matching: HeaderState, matched: HeaderState): HeaderState {
    if l == word then matched else if IsPrefix(l, word) then matching else General
  }

  /** The header state after the lower-case text `l`, by comparing `l` with the words. */
  function Expected(l: string): HeaderState
    requires l != ""
  {
    if l[0] == 'p' then Progress(PROXY_CONNECTION, l, MatchProxyConnection, Connection)
    else if l[0] == 't' then Progress(TRANSFER_ENCODING, l, MatchTransferEncoding, TransferEncoding)
    else if l[0] == 'u' then Progress(UPGRADE, l, MatchUpgrade, Upgrade)
    else if l == "c" then C
    else if l == "co" then CO
    else if l == "con" then CON
    else if |l| > 3 && l[..3] == "con" && l[3] == 'n' then Progress(CONNECTION, l, MatchConnection, Connection)
    else if |l| > 3 && l[..3] == "con" && l[3] == 't' then
      Progress(CONTENT_LENGTH, l, MatchContentLength, ContentLength)
    else General
  }

  predicate Matching(h: HeaderState) {
    h.C? || h.CO? || h.CON? || h.MatchConnection? || h.MatchProxyConnection? || h.MatchContentLength? ||
    h.MatchTransferEncoding? || h.MatchUpgrade?
  }

  /** One more byte of a word matcher is one more byte compared. */
  lemma {:induction false} ProgressStep(word: string, l: string, c: char, matching: HeaderState, matched: HeaderState,
                                        m: Matcher)
    requires 2 <= |word| < 100 && l != "" && l[0] == word[0] && c != NUL && m.h == matching && m.i == |l| - 1
    requires IsPrefix(l, word) && l != word
    ensures var n := Match(m, word, c, matched, General);
      n.h == Progress(word, l + [c], matching, matched) && n.i == |l|
  {
    var k := |l|;
    assert word[..k + 1] == word[..k] + [word[k]];
    if k + 1 == |word| { assert word[..k + 1] == word; }
    assert (l + [c])[..k] == l && (l + [c])[k] == c;
  }

  /** A matcher that failed, or went past its word, stays failed. */
  lemma {:induction false} ProgressEnds(word: string, l: string, c: char, matching: HeaderState, matched: HeaderState)
    requires Progress(word, l, matching, matched).General? || l == word
    requires !matching.General? && !matched.General?
    ensures Progress(word, l + [c], matching, matched) == General
  {
    assert (l + [c])[..|l|] == l;
  }

  lemma {:induction false} ExpectedFirst(ch: char)
    requires IsToken(ch)
    ensures var c := Token(ch);
      Expected([c]) == if c == 'c' then C else if c == 'p' then MatchProxyConnection
                       else if c == 't' then MatchTransferEncoding else if c == 'u' then MatchUpgrade else General
  {
    assert PROXY_CONNECTION[..1] == "p" && TRANSFER_ENCODING[..1] == "t" && UPGRADE[..1] == "u";
  }

  /** One byte of a name whose first letter, or first four, leave one word to compare with. */
  lemma {:induction false} WordStep(word: string, l: string, ch: char, matching: HeaderState, matched: HeaderState,
                                    i: nat)
    requires 2 <= |word| < 100 && l != "" && IsToken(ch)
    requires var h := Progress(word, l, matching, matched); h == matching ==> i == |l| - 1
    requires (matching == MatchProxyConnection && matched == Connection && word == PROXY_CONNECTION) ||
             (matching == MatchTransferEncoding && matched == TransferEncoding && word == TRANSFER_ENCODING) ||
             (matching == MatchUpgrade && matched == Upgrade && word == UPGRADE) ||
             (matching == MatchConnection && matched == Connection && word == CONNECTION) ||
             (matching == MatchContentLength && matched == ContentLength && word == CONTENT_LENGTH)
    ensures var h := Progress(word, l, matching, matched);
      var n := MatchName(Matcher(h, i), ch);
      n.h == Progress(word, l + [Token(ch)], matching, matched) && (n.h == matching ==> n.i == |l|)
  {
    var h, c := Progress(word, l, matching, matched), Token(ch);
    if h == matching {
      ProgressStep(word, l, c, matching, matched, Matcher(h, i));
    } else {
      ProgressEnds(word, l, c, matching, matched);
    }
  }

  lemma {:induction false} ConStep(l: string, ch: char, i: nat)
    requires (l == "c" || l == "co" || l == "con") && IsToken(ch) && i == |l| - 1
    ensures var n := MatchName(Matcher(Expected(l), i), ch);
      n.h == Expected(l + [Token(ch)]) && n.i == |l|
  {
    var c := Token(ch);
    assert CONNECTION[..4] == "conn" && CONTENT_LENGTH[..4] == "cont";
    if l == "c" { assert l + [c] == ['c', c]; }
    else if l == "co" { assert l + [c] == ['c', 'o', c]; }
    else { assert l + [c] == ['c', 'o', 'n', c] && (l + [c])[..3] == "con"; }
  }

  predicate FirstDecides(l: string)
    requires l != ""
  {
    l[0] == 'p' || l[0] == 't' || l[0] == 'u'
  }

  lemma {:induction false} ExpectedStep(l: string, ch: char, i: nat)
    requires l != "" && IsToken(ch) && (Matching(Expected(l)) ==> i == |l| - 1)
    ensures var n := MatchName(Matcher(Expected(l), i), ch);
      n.h == Expected(l + [Token(ch)]) && (Matching(n.h) ==> n.i == |l|)
  {
    var k := l + [Token(ch)];
    if l[0] == 'p' { WordStep(PROXY_CONNECTION, l, ch, MatchProxyConnection, Connection, i); }
    else if l[0] == 't' { WordStep(TRANSFER_ENCODING, l, ch, MatchTransferEncoding, TransferEncoding, i); }
    else if l[0] == 'u' { WordStep(UPGRADE, l, ch, MatchUpgrade, Upgrade, i); }
    else if l == "c" || l == "co" || l == "con" { ConStep(l, ch, i); }
    else {
      assert k[..|l|] == l;
      if |l| > 3 {
        assert k[..3] == l[..3];
        if l[..3] == "con" && l[3] == 'n' { WordStep(CONNECTION, l, ch, MatchConnection, Connection, i); }
        else if l[..3] == "con" &&
          l[3] == 't' { WordStep(CONTENT_LENGTH, l, ch, MatchContentLength, ContentLength, i); }
      } else {
        OtherStep(l, Token(ch));
      }
    }
  }

  lemma {:induction false} OtherStep(l: string, c: char)
    requires 0 < |l| <= 3 && !FirstDecides(l) && l != "c" && l != "co" && l != "con"
    ensures Expected(l) == General && Expected(l + [c]) == General
  {
    var k := l + [c];
    assert k[..|l|] == l && k[0] == l[0];
    assert "co"[..1] == "c" && "con"[..2] == "co";
    if |l| == 3 { assert k[..3] == l; }
  }

  // ---------- a name in the parser ----------

  /** The matcher has read `name` and compared it in lower case. */
  predicate NameSoFar(e: Eff, p: Parser, name: string) {
    && e.out.Go? && name != "" && e.p == p.(hstate := Expected(LowerCase(name)), index := e.p.index)
    && (Matching(e.p.hstate) ==> e.p.index == |name| - 1)
  }

  lemma {:induction false} LowerCaseSnoc(name: string, ch: char)
    requires IsToken(ch)
    ensures LowerCase(name + [ch]) == LowerCase(name) + [Token(ch)]
  {}

  lemma {:induction false} NameGoesOn(q: Eff, p: Parser, name: string, ch: char)
    requires NameSoFar(q, p, name) && IsToken(ch)
    ensures NameSoFar(NameByte(q.p, ch), p, name + [ch])
  {
    LowerCaseSnoc(name, ch);
    assert |LowerCase(name)| == |name| && |name + [ch]| == |name| + 1;
    ExpectedStep(LowerCase(name), ch, q.p.index);
  }

  /** The matcher over a name: it ends in the state that comparing the whole name gives. */
  lemma {:induction false} NameFolds(p: Parser, ch: char, rest: string)
    requires AllTokens([ch] + rest) && p.hstate == Expected([Token(ch)]) && p.index == 0
    ensures NameSoFar(ScanFold(NameByte, p, rest), p, [ch] + rest)
  {
    if rest == "" {
      assert [ch] + rest == [ch] && LowerCase([ch]) == [Token(ch)];
    } else {
      var n, c := |rest| - 1, rest[|rest| - 1];
      Assoc([ch], rest[..n], [c]);
      assert rest[..n] + [c] == rest;
      AllTokensSnoc([ch] + rest[..n], c);
      NameFolds(p, ch, rest[..n]);
      NameGoesOn(ScanFold(NameByte, p, rest[..n]), p, [ch] + rest[..n], c);
    }
  }

  predicate AllTokens(s: string) { forall k :: 0 <= k < |s| ==> IsToken(s[k]) }

  lemma {:induction false} AllTokensSnoc(s: string, c: char)
    ensures AllTokens(s + [c]) <==> AllTokens(s) && IsToken(c)
  {
    var t := s + [c];
    assert t[|s|] == c && forall k :: 0 <= k < |s| ==> t[k] == s[k];
  }

  lemma {:induction false} FirstNameByte(p: Parser, ch: char, cfg: Config)
    requires p.state.HeaderFieldStart? && IsToken(ch) && p.nread + 1 <= cfg.maxHeader && LengthKnown(p)
    ensures var q := p.(index := 0, state := HeaderField, hstate := Expected([Token(ch)]), nread := p.nread + 1);
      Step(p, ch, cfg) == Ask(q, SetMark(FieldName)) && InName(q)
  {
    ExpectedFirst(ch);
  }

  /** The first byte of a name. */
  ghost predicate NameLaw(sw: Switch, max: nat) {
    forall p: Parser, ch: char {:trigger sw(p, ch), Tick(p)} ::
      p.state.HeaderFieldStart? && IsToken(ch) && p.nread + 1 <= max && LengthKnown(p) ==>
        sw(p, ch).out.Go? && sw(p, ch).p == OnName(p, ch) && InName(OnName(p, ch))
  }

  function OnName(p: Parser, ch: char): Parser {
    Tick(p).(index := 0, state := HeaderField, hstate := Expected([Token(ch)]))
  }

  lemma {:induction false} NameLawHere(cfg: Config)
    ensures NameLaw(ByteSwitch(cfg), cfg.maxHeader)
  {
    var sw := ByteSwitch(cfg);
    forall p: Parser, ch: char | p.state.HeaderFieldStart? && IsToken(ch) && p.nread + 1 <= cfg.maxHeader &&
      LengthKnown(p)
      ensures sw(p, ch).out.Go? && sw(p, ch).p == OnName(p, ch) && InName(OnName(p, ch))
    {
      FirstNameByte(p, ch, cfg);
    }
  }

  /** The parser at the end of the name `name` of a header line. */
  lemma {:induction false} RunsName(p: Parser, name: string, sw: Switch, max: nat)
    requires NameLaw(sw, max) && Scans(sw, max, FieldName, InName, NameByte, IsToken)
    requires p.state.HeaderFieldStart? && name != "" && LengthKnown(p) && p.nread + |name| <= max && AllTokens(name)
    ensures var r := Reach(p, name, sw);
      r.out.Go? && InName(r.p) &&
        r.p == p.(state := HeaderField, hstate := Expected(LowerCase(name)), index := r.p.index,
                                            nread := p.nread + |name|)
  {
    var ch, rest := name[0], name[1..];
    assert name == [ch] + rest;
    ReachFirst(p, name, sw);
    var q := OnName(p, ch);
    ReachScan(q, rest, sw, max, FieldName, InName, NameByte, IsToken, p.nread + |name|);
    NameFolds(q, ch, rest);
  }

  lemma {:induction false} ExpectedMeans(l: string)
    requires l != ""
    ensures Expected(l).ContentLength? <==> l == CONTENT_LENGTH
    ensures Expected(l).TransferEncoding? <==> l == TRANSFER_ENCODING
    ensures Expected(l).Connection? <==> l == CONNECTION || l == PROXY_CONNECTION
    ensures Expected(l).Upgrade? <==> l == UPGRADE
  {
    assert CONNECTION[..3] == "con" && CONTENT_LENGTH[..3] == "con";
  }

  /** Incremental name matching is plain comparison: at the colon of a header line the parser has
      recognised Content-Length, Transfer-Encoding, Connection (or Proxy-Connection) or Upgrade
      exactly when the name is that word, ignoring the case of ASCII letters. */
  lemma {:induction false} RecognisesHeaders(p: Parser, name: string, cfg: Config)
    requires p.state.HeaderFieldStart? && name != "" && LengthKnown(p) && p.nread + |name| + 1 <= cfg.maxHeader
    requires AllTokens(name)
    ensures var r, l := Run(p, name + ":", ByteSwitch(cfg)), LowerCase(name);
      && r.out.Go? && r.p.state.HeaderValueDiscardWs?
      && (r.p.hstate.ContentLength? <==> l == CONTENT_LENGTH)
      && (r.p.hstate.TransferEncoding? <==> l == TRANSFER_ENCODING)
      && (r.p.hstate.Connection? <==> l == CONNECTION || l == PROXY_CONNECTION)
      && (r.p.hstate.Upgrade? <==> l == UPGRADE)
  {
    var sw := ByteSwitch(cfg);
    NameLawHere(cfg);
    NameScansHere(cfg);
    RunsName(p, name, sw, cfg.maxHeader);
    ReachSnoc(p, name, ':', sw);
    RunReaches(p, name + ":", sw);
    ColonStep(Reach(p, name, sw).p, cfg);
    ExpectedMeans(LowerCase(name));
  }

  lemma {:induction false} ColonStep(q: Parser, cfg: Config)
    requires InName(q) && q.nread + 1 <= cfg.maxHeader
    ensures var e := Step(q, ':', cfg); e.out.Go? && e.p.state.HeaderValueDiscardWs? && e.p.hstate == q.hstate
  {
    NameStep(q, ':', cfg);
    NameStepScans(q, ':');
  }

  // ---------- Transfer-Encoding: chunked ----------

  predicate Blank(ch: char) { ch == SP || ch == HT }

  function TrimLeft(v: string): string {
    if v != "" && Blank(v[0]) then TrimLeft(v[1..]) else v
  }

  /** `t` is "chunked", ignoring case, followed by spaces only. */
  predicate SaysChunked(t: string) {
    && |t| >= |CHUNKED| && (forall k :: 0 <= k < |CHUNKED| ==> Lower(t[k]) == CHUNKED[k])
    && (forall k :: |CHUNKED| <= k < |t| ==> t[k] == SP)
  }

  /** The header state after the text `t` of a Transfer-Encoding value, by comparing it. */
  function ChunkProgress(t: string): HeaderState {
    if |t| < |CHUNKED| then
      if forall k :: 0 <= k < |t| ==> Lower(t[k]) == CHUNKED[k] then MatchChunked else General
    else if SaysChunked(t) then TransferEncodingChunked else General
  }

  lemma {:induction false} ChunkStep(t: string, ch: char, i: nat)
    requires t != "" && (ChunkProgress(t).MatchChunked? ==> i == |t| - 1)
    ensures var m := MatchToken(Matcher(ChunkProgress(t), i), ch);
      m.h == ChunkProgress(t + [ch]) && (m.h.MatchChunked? ==> m.i == |t|)
  {
    var u := t + [ch];
    assert forall k :: 0 <= k < |t| ==> u[k] == t[k];
    assert u[|t|] == ch;
  }
}
