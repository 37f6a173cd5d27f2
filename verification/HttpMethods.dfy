/** The method recogniser: the automaton that patches one candidate accepts exactly the 34 method
    names, each with its own code. */
module HttpMethods {
  import opened Sequences
  import opened HttpChars
  import opened HttpParser
  import opened HttpInvariant
  import opened HttpRun
  import opened HttpSegments

  /** The candidate after one more byte in s_req_method; METHOD_COUNT when the byte is an error. */
  function NextCandidate(m: nat, i: nat, ch: char): nat {
    if ch == NUL then METHOD_COUNT
    else if ch == At(MethodName(m), i) then m
    else if IsUpper(ch) || ch == '-' then PatchCandidate(m, i, ch)
    else METHOD_COUNT
  }

  /** The candidate after the bytes `w`. */
  function Candidate(w: string): nat {
    if |w| == 0 then METHOD_COUNT
    else if |w| == 1 then FirstCandidate(w[0])
    else
      var m := Candidate(w[..|w| - 1]);
      if m >= METHOD_COUNT then METHOD_COUNT else NextCandidate(m, |w| - 1, w[|w| - 1])
  }

  /** A candidate that replaces another at byte `i` agrees with it up to there, and has the byte. */
  lemma {:induction false} PatchAgrees(m: nat, i: nat, ch: char)
    requires PatchCandidate(m, i, ch) < METHOD_COUNT
    ensures var n := PatchCandidate(m, i, ch);
      m < METHOD_COUNT && 1 <= i < |MethodName(n)| && i < |MethodName(m)| && MethodName(n)[i] == ch &&
      forall k :: 0 <= k < i ==> MethodName(n)[k] == MethodName(m)[k]
  {}

  lemma {:induction false} FirstAgrees(ch: char)
    requires FirstCandidate(ch) < METHOD_COUNT
    ensures |MethodName(FirstCandidate(ch))| > 0 && MethodName(FirstCandidate(ch))[0] == ch && IsAlpha(ch)
  {}

  lemma {:induction false} PrefixGrows(v: string, ch: char, a: string, b: string)
    requires IsPrefix(v, a) && |v| < |b| && b[|v|] == ch && forall k :: 0 <= k < |v| ==> b[k] == a[k]
    ensures IsPrefix(v + [ch], b)
  {
    assert forall k :: 0 <= k < |v| ==> v[k] == a[k];
  }

  /** In every run the bytes consumed are the beginning of the current candidate's name. */
  lemma {:induction false} CandidateSpells(w: string)
    requires Candidate(w) < METHOD_COUNT
    ensures IsPrefix(w, MethodName(Candidate(w)))
  {
    if |w| == 1 {
      FirstAgrees(w[0]);
    } else {
      var v, ch := w[..|w| - 1], w[|w| - 1];
      var m, n := Candidate(v), Candidate(w);
      CandidateSpells(v);
      assert w == v + [ch];
      if ch != At(MethodName(m), |v|) { PatchAgrees(m, |v|, ch); }
      PrefixGrows(v, ch, MethodName(m), MethodName(n));
    }
  }

  // ---------- every name is reached ----------

  /** Where the table introduces candidate `m`: the byte, and the candidate it replaces.  Byte 0 for
      a candidate chosen by its first letter. */
  function Fork(m: nat): nat {
    match m
    case 4 => 1 case 28 => 1 case 12 => 1 case 29 => 2 case 22 => 1 case 8 => 2 case 11 => 1 case 23 => 1
    case 24 => 1 case 21 => 2 case 30 => 3 case 14 => 1 case 33 => 1 case 17 => 2 case 13 => 4 case 31 => 1
    case 27 => 2 case 18 => 2 case 32 => 3 case _ => 0
  }

  function Replaced(m: nat): nat {
    match m
    case 4 => 3 case 28 => 3 case 12 => 3 case 29 => 4 case 22 => 5 case 8 => 5 case 11 => 10 case 23 => 10
    case 24 => 10 case 21 => 10 case 30 => 10 case 14 => 26 case 33 => 26 case 17 => 20 case 13 => 12
    case 31 => 9 case 27 => 15 case 18 => 15 case 32 => 15 case _ => METHOD_COUNT
  }

  lemma {:induction false} ForkAgrees(m: nat)
    requires m < METHOD_COUNT && Fork(m) > 0
    ensures var c, i := Replaced(m), Fork(m);
      && c < METHOD_COUNT && Fork(c) < i < |MethodName(m)| && i < |MethodName(c)|
      && PatchCandidate(c, i, MethodName(m)[i]) == m && MethodName(m)[i] != MethodName(c)[i]
      && (IsUpper(MethodName(m)[i]) || MethodName(m)[i] == '-')
  {}

  lemma {:induction false} RootAgrees(m: nat)
    requires m < METHOD_COUNT && Fork(m) == 0
    ensures |MethodName(m)| > 0 && FirstCandidate(MethodName(m)[0]) == m
  {}

  lemma {:induction false} LowNameChars(m: nat, i: nat)
    requires m < 17 && i < |MethodName(m)|
    ensures MethodName(m)[i] > SP
  {}

  lemma {:induction false} NameChars(m: nat, i: nat)
    requires m < METHOD_COUNT && i < |MethodName(m)|
    ensures MethodName(m)[i] > SP
  {
    if m < 17 { LowNameChars(m, i); }
  }

  /** Past its fork, the bytes of a name keep the automaton on that name. */
  lemma {:induction false} CandidateReaches(m: nat, k: nat)
    requires m < METHOD_COUNT && Fork(m) < k <= |MethodName(m)|
    ensures Candidate(MethodName(m)[..k]) == m
    decreases k
  {
    var w := MethodName(m)[..k];
    if k == 1 {
      RootAgrees(m);
    } else {
      assert w[..k - 1] == MethodName(m)[..k - 1];
      if k - 1 > Fork(m) {
        CandidateReaches(m, k - 1);
        NameChars(m, k - 1);
      } else {
        var c, i := Replaced(m), Fork(m);
        ForkAgrees(m);
        CandidateReaches(c, i);
        PatchAgrees(c, i, MethodName(m)[i]);
        assert MethodName(c)[..i] == MethodName(m)[..i];
      }
    }
  }

  // ---------- in the parser ----------

  lemma {:induction false} StartStep(p: Parser, ch: char, cfg: Config)
    requires p.state.StartReq? && ch != CR && ch != LF && p.nread + 1 <= cfg.maxHeader
    ensures var e := Step(p, ch, cfg);
      if FirstCandidate(ch) < METHOD_COUNT
      then e == Ask(Begin(p).(verb := FirstCandidate(ch), index := 1, state := ReqMethod, nread := p.nread + 1),
                    Notify(MessageBegin))
      else e.out.Fail?
  {
    if FirstCandidate(ch) < METHOD_COUNT { FirstAgrees(ch); }
  }

  lemma {:induction false} MethodByte(p: Parser, ch: char)
    requires p.verb < METHOD_COUNT && p.index <= |MethodName(p.verb)| <= 11
    ensures var e := StepReqMethod(p, ch);
      var q := p.(index := p.index + 1);
      if ch == SP then (if p.index == |MethodName(p.verb)| then e == Next(q.(state := ReqSpacesBeforeUrl))
        else e.out.Fail?)
      else if NextCandidate(p.verb, p.index, ch) < METHOD_COUNT
      then e == Next(q.(verb := NextCandidate(p.verb, p.index, ch)))
      else e.out.Fail?
  {
    if p.index < |MethodName(p.verb)| { NameChars(p.verb, p.index); }
    PatchIsMethod(p.verb, p.index, ch);
  }

  lemma {:induction false} MethodStep(p: Parser, ch: char, cfg: Config)
    requires p.state.ReqMethod? && p.nread + 1 <= cfg.maxHeader
    ensures Step(p, ch, cfg) == StepReqMethod(p.(nread := p.nread + 1), ch)
  {}

  /** The parser after the bytes `w` of a method. */
  function OnMethod(p: Parser, w: string): Parser {
    Begin(p).(verb := Candidate(w), index := |w|, state := ReqMethod, nread := p.nread + |w|)
  }

  /** What a byte other than a space does within a method. */
  ghost predicate MethodLaw(sw: Switch, max: nat) {
    forall p: Parser, ch: char {:trigger sw(p, ch), Tick(p)} ::
      p.state.ReqMethod? && p.verb < METHOD_COUNT && p.index <= |MethodName(p.verb)| && p.nread + 1 <= max &&
        ch != SP ==>
        Turns(sw(p, ch), p.(index := p.index + 1, nread := p.nread + 1), NextCandidate(p.verb, p.index, ch))
  }

  predicate Turns(e: Eff, q: Parser, m: nat) {
    if m < METHOD_COUNT then e.out.Go? && e.p == q.(verb := m) else e.out.Fail?
  }

  /** What the first byte of a request does. */
  ghost predicate StartLaw(sw: Switch, max: nat) {
    forall p: Parser, ch: char {:trigger sw(p, ch), Tick(p)} ::
      p.state.StartReq? && ch != CR && ch != LF && p.nread + 1 <= max ==>
      Turns(sw(p, ch), Begin(p).(index := 1, state := ReqMethod, nread := p.nread + 1), FirstCandidate(ch))
  }

  lemma {:induction false} Laws(cfg: Config)
    ensures MethodLaw(ByteSwitch(cfg), cfg.maxHeader) && StartLaw(ByteSwitch(cfg), cfg.maxHeader)
  {
    var sw, max := ByteSwitch(cfg), cfg.maxHeader;
    forall p: Parser, ch: char
      | p.state.ReqMethod? && p.verb < METHOD_COUNT && p.index <= |MethodName(p.verb)| && p.nread + 1 <= max && ch != SP
      ensures Turns(sw(p, ch), p.(index := p.index + 1, nread := p.nread + 1), NextCandidate(p.verb, p.index, ch))
    {
      MethodTurns(p, ch, cfg);
    }
    forall p: Parser, ch: char | p.state.StartReq? && ch != CR && ch != LF && p.nread + 1 <= max
      ensures Turns(sw(p, ch), Begin(p).(index := 1, state := ReqMethod, nread := p.nread + 1), FirstCandidate(ch))
    {
      StartStep(p, ch, cfg);
    }
  }

  lemma {:induction false} MethodTurns(p: Parser, ch: char, cfg: Config)
    requires p.state.ReqMethod? && p.verb < METHOD_COUNT && p.index <= |MethodName(p.verb)| && ch != SP
    requires p.nread + 1 <= cfg.maxHeader
    ensures Turns(Step(p, ch, cfg), p.(index := p.index + 1, nread := p.nread + 1), NextCandidate(p.verb, p.index, ch))
  {
    MethodNameLengths(p.verb);
    MethodStep(p, ch, cfg);
    MethodByte(p.(nread := p.nread + 1), ch);
  }

  lemma {:induction false} MethodGrows(q: Parser, v: string, ch: char, sw: Switch, max: nat)
    requires MethodLaw(sw, max) && q.state.ReqMethod? && q.nread + 1 <= max && ch != SP && v != ""
    requires Candidate(v) < METHOD_COUNT && q.verb == Candidate(v) && q.index == |v|
    ensures Turns(sw(q, ch), q.(index := |v| + 1, nread := q.nread + 1), NextCandidate(q.verb, |v|, ch))
  {
    CandidateSpells(v);
    assert Tick(q).nread == q.nread + 1;
  }

  lemma {:induction false} RunsMethod(p: Parser, w: string, sw: Switch, max: nat)
    requires MethodLaw(sw, max) && StartLaw(sw, max)
    requires p.state.StartReq? && w != "" && w[0] != CR && w[0] != LF && SP !in w && p.nread + |w| <= max
    ensures var r := Reach(p, w, sw);
      if Candidate(w) < METHOD_COUNT then r.out.Go? && r.p == OnMethod(p, w) else r.out.Fail?
  {
    var v, ch := w[..|w| - 1], w[|w| - 1];
    if v == "" {
      assert w == [w[0]];
      ReachOne(p, w[0], sw);
      assert Tick(p).nread == p.nread + 1;
    } else {
      RunsMethod(p, v, sw, max);
      assert ch in w;
      if Candidate(v) < METHOD_COUNT { MethodGrows(OnMethod(p, v), v, ch, sw, max); }
    }
  }

  /** `w` is all of its candidate's name. */
  predicate Spelled(w: string) { Candidate(w) < METHOD_COUNT && |w| == |MethodName(Candidate(w))| }

  lemma {:induction false} SpelledIsName(w: string, m: nat)
    requires m < METHOD_COUNT
    ensures w == MethodName(m) <==> Spelled(w) && Candidate(w) == m
  {
    if w == MethodName(m) {
      ForkBefore(m);
      CandidateReaches(m, |w|);
      assert w[..|w|] == w;
    }
    if Spelled(w) { CandidateSpells(w); }
  }

  lemma {:induction false} SpaceEndsMethod(p: Parser, w: string, cfg: Config)
    requires p.state.StartReq? && w != "" && w[0] != CR && w[0] != LF && SP !in w && p.nread + |w| + 1 <= cfg.maxHeader
    ensures var r := Reach(p, w + [SP], ByteSwitch(cfg));
      (r.out.Go? <==> Spelled(w)) && (r.out.Go? ==> r.p.state == ReqSpacesBeforeUrl && r.p.verb == Candidate(w))
  {
    ReachSnoc(p, w, SP, ByteSwitch(cfg));
    Laws(cfg);
    RunsMethod(p, w, ByteSwitch(cfg), cfg.maxHeader);
    if Candidate(w) < METHOD_COUNT {
      CandidateSpells(w);
      SpaceStep(OnMethod(p, w), cfg);
    }
  }

  lemma {:induction false} SpaceStep(q: Parser, cfg: Config)
    requires q.state.ReqMethod? && q.verb < METHOD_COUNT && q.index <= |MethodName(q.verb)| &&
      q.nread + 1 <= cfg.maxHeader
    ensures var e := Step(q, SP, cfg);
      if q.index == |MethodName(q.verb)| then e.out.Go? && e.p.state == ReqSpacesBeforeUrl && e.p.verb == q.verb
      else e.out.Fail?
  {
    MethodNameLengths(q.verb);
    MethodStep(q, SP, cfg);
    MethodByte(q.(nread := q.nread + 1), SP);
  }

  /** The method recogniser.  A word without spaces, followed by a space, is accepted exactly when it
      is one of the 34 names; the parser then holds that name's code. */
  lemma {:induction false} RecognisesMethods(p: Parser, w: string, cfg: Config)
    requires p.state.StartReq? && w != "" && w[0] != CR && w[0] != LF && SP !in w && p.nread + |w| + 1 <= cfg.maxHeader
    ensures var r := Run(p, w + [SP], ByteSwitch(cfg));
      && (r.out.Go? <==> exists m: nat :: m < METHOD_COUNT && w == MethodName(m))
      && (r.out.Go? ==> r.p.state == ReqSpacesBeforeUrl)
      && (forall m: nat :: m < METHOD_COUNT && w == MethodName(m) ==> r.p.verb == m)
  {
    SpaceEndsMethod(p, w, cfg);
    RunReaches(p, w + [SP], ByteSwitch(cfg));
    if Spelled(w) { SpelledIsName(w, Candidate(w)); }
    forall m: nat | m < METHOD_COUNT && w == MethodName(m)
      ensures Spelled(w) && Candidate(w) == m
    {
      SpelledIsName(w, m);
    }
  }

  lemma {:induction false} ForkBefore(m: nat)
    requires m < METHOD_COUNT
    ensures Fork(m) < |MethodName(m)|
  {
    if Fork(m) > 0 { ForkAgrees(m); } else { RootAgrees(m); }
  }

  // ---------- when it may also be a response ----------

  /** The same parser, told that a request follows. */
  function AsRequest(p: Parser): Parser { p.(kind := Request, state := StartReq) }

  lemma {:induction false} BothStep(p: Parser, ch: char, cfg: Config)
    requires p.nread + 1 <= cfg.maxHeader
    ensures p.state.StartReqOrRes? ==> Step(p, ch, cfg) == StepStartReqOrRes(Tick(p), ch)
    ensures p.state.StartReq? ==> Step(p, ch, cfg) == StepStartReq(Tick(p), ch)
  {}

  lemma {:induction false} StartAlike(p: Parser, ch: char)
    requires ch != CR && ch != LF && ch != 'H'
    ensures var e, f := StepStartReqOrRes(p, ch), StepStartReq(AsRequest(p), ch); e.p == f.p && e.out == f.out
  {
    assert Begin(AsRequest(Begin(p))) == Begin(AsRequest(p));
  }

  lemma {:induction false} BothStart(p: Parser, ch: char, cfg: Config)
    requires p.state.StartReqOrRes? && ch != CR && ch != LF && p.nread + 1 <= cfg.maxHeader
    ensures ch != 'H' ==>
      Step(p, ch, cfg).p == Step(AsRequest(p), ch, cfg).p && Step(p, ch, cfg).out == Step(AsRequest(p), ch, cfg).out
    ensures ch == 'H' ==> Step(p, ch, cfg).out.Go? && Step(p, ch, cfg).p == Tick(Begin(p)).(state := ResOrRespH)
  {
    BothStep(p, ch, cfg);
    BothStep(AsRequest(p), ch, cfg);
    if ch != 'H' { StartAlike(Tick(p), ch); }
  }

  /** After 'H' the second byte decides. */
  lemma {:induction false} SecondByte(q: Parser, ch: char, cfg: Config)
    requires q.state.ResOrRespH? && q.nread + 1 <= cfg.maxHeader
    ensures var e := Step(q, ch, cfg);
      if ch == 'E' then e.out.Go? &&
        e.p == q.(kind := Request, verb := 2, index := 2, state := ReqMethod, nread := q.nread + 1)
      else if ch == 'T' then e.out.Go? && e.p == q.(kind := Response, state := ResHT, nread := q.nread + 1)
      else e.out.Fail?
  {}

  /** The name and version at the start of a status line. */
  predicate InVersion(s: State) {
    s.ResHT? || s.ResHTT? || s.ResHTTP? || s.ResHttpMajor? || s.ResHttpDot? || s.ResHttpMinor? || s.ResHttpEnd?
  }

  lemma {:induction false} VersionStep(q: Parser, ch: char, cfg: Config)
    requires InVersion(q.state) && q.nread + 1 <= cfg.maxHeader
    ensures var e := Step(q, ch, cfg);
      e.out.Fail? || (e.out.Go? && e.p.kind == q.kind && e.p.nread == q.nread + 1 &&
                      (InVersion(e.p.state) || (ch == SP && e.p.state.ResFirstStatusCode?)))
  {}

  ghost predicate VersionLaw(sw: Switch, max: nat) {
    forall q: Parser, ch: char {:trigger sw(q, ch), Tick(q)} :: InVersion(q.state) && q.nread + 1 <= max ==>
      sw(q, ch).out.Fail? ||
      (sw(q, ch).out.Go? && sw(q, ch).p.kind == q.kind && sw(q, ch).p.nread == q.nread + 1 &&
       (InVersion(sw(q, ch).p.state) || (ch == SP && sw(q, ch).p.state.ResFirstStatusCode?)))
  }

  lemma {:induction false} VersionLaws(cfg: Config)
    ensures VersionLaw(ByteSwitch(cfg), cfg.maxHeader)
  {
    var sw, max := ByteSwitch(cfg), cfg.maxHeader;
    forall q: Parser, ch: char | InVersion(q.state) && q.nread + 1 <= max
      ensures sw(q, ch).out.Fail? ||
        (sw(q, ch).out.Go? && sw(q, ch).p.kind == q.kind && sw(q, ch).p.nread == q.nread + 1 &&
         (InVersion(sw(q, ch).p.state) || (ch == SP && sw(q, ch).p.state.ResFirstStatusCode?)))
    {
      VersionStep(q, ch, cfg);
    }
  }

  /** Up to the first space such a line is the start of a response, or an error. */
  lemma {:induction false} RunsVersion(q: Parser, x: string, sw: Switch, max: nat)
    requires VersionLaw(sw, max) && InVersion(q.state) && SP !in x && q.nread + |x| <= max
    ensures var r := Reach(q, x, sw);
      r.out.Fail? || (r.out.Go? && InVersion(r.p.state) && r.p.kind == q.kind && r.p.nread == q.nread + |x|)
  {
    if x != "" {
      var n := |x| - 1;
      RunsVersion(q, x[..n], sw, max);
      var r := Reach(q, x[..n], sw);
      assert x[n] in x;
      if r.out.Go? { assert Tick(r.p).nread == r.p.nread + 1; }
    }
  }

  lemma {:induction false} VersionThenSpace(q: Parser, x: string, sw: Switch, max: nat)
    requires VersionLaw(sw, max) && InVersion(q.state) && SP !in x && q.nread + |x| + 1 <= max
    ensures var r := Reach(q, x + [SP], sw); r.out.Go? ==> !r.p.state.ReqSpacesBeforeUrl? && r.p.kind == q.kind
  {
    RunsVersion(q, x, sw, max);
    ReachSnoc(q, x, SP, sw);
    var r := Reach(q, x, sw);
    if r.out.Go? { assert Tick(r.p).nread == r.p.nread + 1; }
  }

  /** Two parsers that agree after the same first bytes agree after all. */
  lemma {:induction false} AgreeAfter(p: Parser, q: Parser, a: string, x: string, sw: Switch)
    requires IsPrefix(a, x) && Reach(p, a, sw) == Reach(q, a, sw)
    ensures Reach(p, x, sw) == Reach(q, x, sw)
  {
    ReachSplit(p, a, x[|a|..], sw);
    ReachSplit(q, a, x[|a|..], sw);
    assert a + x[|a|..] == x;
  }

  lemma {:induction false} OnlyHead(m: nat)
    requires m < METHOD_COUNT && MethodName(m) != "" && MethodName(m)[0] == 'H'
    ensures m == 2
  {}

  lemma {:induction false} SpelledWithH(w: string)
    requires Spelled(w) && w != "" && w[0] == 'H'
    ensures |w| > 1 && w[1] == 'E'
  {
    var m := Candidate(w);
    CandidateSpells(w);
    OnlyHead(m);
  }

  lemma {:induction false} SecondCandidate()
    ensures Candidate("HE") == 2
  {
    assert "HE"[..1] == "H" && Candidate("H") == FirstCandidate('H') == 2;
    assert MethodName(2)[1] == 'E';
  }

  lemma {:induction false} AfterH(p: Parser, ch: char, cfg: Config)
    requires p.state.StartReqOrRes? && p.nread + 2 <= cfg.maxHeader
    ensures var q, r := Begin(p).(nread := p.nread + 2), Reach(p, ['H', ch], ByteSwitch(cfg));
      if ch == 'E' then r.out.Go? && r.p == q.(kind := Request, verb := 2, index := 2, state := ReqMethod)
      else if ch == 'T' then r.out.Go? && r.p == q.(kind := Response, state := ResHT)
      else r.out.Fail?
  {
    BothStart(p, 'H', cfg);
    ReachOne(p, 'H', ByteSwitch(cfg));
    ReachSnoc(p, ['H'], ch, ByteSwitch(cfg));
    assert ['H'] + [ch] == ['H', ch];
    SecondByte(Tick(Begin(p)).(state := ResOrRespH), ch, cfg);
  }

  /** "HE" leads to where a parser of requests would be. */
  lemma {:induction false} AfterHE(p: Parser, cfg: Config)
    requires p.state.StartReqOrRes? && p.nread + 2 <= cfg.maxHeader
    ensures Reach(p, "HE", ByteSwitch(cfg)) == Reach(AsRequest(p), "HE", ByteSwitch(cfg))
  {
    AfterH(p, 'E', cfg);
    Laws(cfg);
    SecondCandidate();
    RunsMethod(AsRequest(p), "HE", ByteSwitch(cfg), cfg.maxHeader);
  }

  lemma {:induction false} BothFirst(p: Parser, ch: char, cfg: Config)
    requires p.state.StartReqOrRes? && ch != CR && ch != LF && ch != 'H' && p.nread + 1 <= cfg.maxHeader
    ensures Reach(p, [ch], ByteSwitch(cfg)) == Reach(AsRequest(p), [ch], ByteSwitch(cfg))
  {
    BothStart(p, ch, cfg);
    ReachOne(p, ch, ByteSwitch(cfg));
    ReachOne(AsRequest(p), ch, ByteSwitch(cfg));
  }

  lemma {:induction false} ReadsHead(p: Parser, x: string, cfg: Config)
    requires p.state.StartReqOrRes? && p.nread + 2 <= cfg.maxHeader && IsPrefix("HE", x)
    ensures Reach(p, x, ByteSwitch(cfg)) == Reach(AsRequest(p), x, ByteSwitch(cfg))
  {
    AfterHE(p, cfg);
    AgreeAfter(p, AsRequest(p), "HE", x, ByteSwitch(cfg));
  }

  lemma {:induction false} ReadsOther(p: Parser, ch: char, x: string, cfg: Config)
    requires p.state.StartReqOrRes? && ch != CR && ch != LF && ch != 'H' && p.nread + 1 <= cfg.maxHeader &&
      IsPrefix([ch], x)
    ensures Reach(p, x, ByteSwitch(cfg)) == Reach(AsRequest(p), x, ByteSwitch(cfg))
  {
    BothFirst(p, ch, cfg);
    AgreeAfter(p, AsRequest(p), [ch], x, ByteSwitch(cfg));
  }

  lemma {:induction false} FirstBytes(w: string)
    requires w != ""
    ensures IsPrefix([w[0]], w + [SP]) && (|w| > 1 && w[0] == 'H' && w[1] == 'E' ==> IsPrefix("HE", w + [SP]))
  {
    var x := w + [SP];
    assert x[..1] == [w[0]];
    if |w| > 1 { assert x[..2] == [w[0], w[1]]; }
  }

  /** Unless the word begins with 'H' and goes on with another letter than 'E', it is read as in a request. */
  lemma {:induction false} ReadAsRequest(p: Parser, w: string, cfg: Config)
    requires p.state.StartReqOrRes? && w != "" && w[0] != CR && w[0] != LF && p.nread + |w| + 1 <= cfg.maxHeader
    requires w[0] == 'H' ==> |w| > 1 && w[1] == 'E'
    ensures Reach(p, w + [SP], ByteSwitch(cfg)) == Reach(AsRequest(p), w + [SP], ByteSwitch(cfg))
  {
    FirstBytes(w);
    if w[0] == 'H' { ReadsHead(p, w + [SP], cfg); } else { ReadsOther(p, w[0], w + [SP], cfg); }
  }

  /** Otherwise it is the start of a response, or an error. */
  lemma {:induction false} ReadAsResponse(p: Parser, w: string, cfg: Config)
    requires p.state.StartReqOrRes? && w != "" && w[0] == 'H' && SP !in w && p.nread + |w| + 1 <= cfg.maxHeader
    requires |w| > 1 ==> w[1] != 'E'
    ensures var r := Reach(p, w + [SP], ByteSwitch(cfg));
      r.out.Go? ==> |w| > 1 && w[1] == 'T' && r.p.kind == Response && !r.p.state.ReqSpacesBeforeUrl?
  {
    var x, sw := w + [SP], ByteSwitch(cfg);
    AfterH(p, x[1], cfg);
    assert x == ['H', x[1]] + x[2..];
    ReachSplit(p, ['H', x[1]], x[2..], sw);
    if x[1] == 'T' {
      assert x[2..] == w[2..] + [SP];
      VersionLaws(cfg);
      VersionThenSpace(Reach(p, ['H', 'T'], sw).p, w[2..], sw, cfg.maxHeader);
    }
  }

  /** The recogniser of a parser for both kinds: the same words are accepted as methods, and what else is accepted
      starts with "HT" and is taken for a response. */
  lemma {:induction false} RecognisesEither(p: Parser, w: string, cfg: Config)
    requires p.state.StartReqOrRes? && w != "" && w[0] != CR && w[0] != LF && SP !in w &&
      p.nread + |w| + 1 <= cfg.maxHeader
    ensures var r := Run(p, w + [SP], ByteSwitch(cfg));
      && (r.out.Go? && r.p.state == ReqSpacesBeforeUrl <==> exists m: nat :: m < METHOD_COUNT && w == MethodName(m))
      && (forall m: nat :: m < METHOD_COUNT && w == MethodName(m) ==> r.p.verb == m)
      && (r.out.Go? && r.p.state != ReqSpacesBeforeUrl ==>
         |w| > 1 && w[0] == 'H' && w[1] == 'T' && r.p.kind == Response)
  {
    RunReaches(p, w + [SP], ByteSwitch(cfg));
    if w[0] == 'H' && (|w| > 1 ==> w[1] != 'E') {
      ReadAsResponse(p, w, cfg);
      forall m: nat | m < METHOD_COUNT ensures w != MethodName(m) {
        SpelledIsName(w, m);
        if Spelled(w) { SpelledWithH(w); }
      }
    } else {
      ReadAsRequest(p, w, cfg);
      RecognisesMethods(AsRequest(p), w, cfg);
      RunReaches(AsRequest(p), w + [SP], ByteSwitch(cfg));
    }
  }
}
