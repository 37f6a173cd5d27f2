/** Content-Length is read as a number exactly when the whole value says one that fits. */
module HttpLength {
  import opened HttpChars
  import opened Numerals
  import opened HttpParser
  import opened HttpInvariant
  import opened HttpRun
  import opened HttpScan
  import opened HttpSegments
  import opened HttpHeaders
  import opened HttpValues

  /** The largest length that is accepted. */
  const MAX_LENGTH: nat := ULLONG_MAX - 6

  /** `t` is a number in decimal, not too large, followed by spaces only. */
  predicate SaysLength(t: string) {
    var n := LeadingDigits(t);
    n > 0 && OnlySpaces(t, n) && LengthOf(t) <= MAX_LENGTH
  }

  predicate OnlySpaces(t: string, n: nat) { forall k :: n <= k < |t| ==> t[k] == SP }

  function LengthOf(t: string): nat { Decimal(t[..LeadingDigits(t)]) }

  lemma {:induction false} LeadingDigitsSnoc(t: string, c: char)
    ensures LeadingDigits(t + [c]) == if LeadingDigits(t) == |t| && IsNumber(c) then |t| + 1 else LeadingDigits(t)
  {
    if t != "" {
      assert (t + [c])[1..] == t[1..] + [c];
      LeadingDigitsSnoc(t[1..], c);
    } else {
      assert (t + [c])[1..] == "";
    }
  }

  lemma {:induction false} LengthOfSnoc(t: string, c: char)
    ensures LengthOf(t + [c]) == if LeadingDigits(t) == |t| && IsNumber(c) then LengthOf(t) * 10 + Digit(c)
      else LengthOf(t)
  {
    var u, n := t + [c], LeadingDigits(t);
    LeadingDigitsSnoc(t, c);
    if n == |t| && IsNumber(c) {
      assert u[..|t|] == t == t[..n] && u[..|u|] == u;
    } else {
      assert u[..n] == t[..n];
    }
  }

  lemma {:induction false} FitsSnoc(x: nat, d: nat)
    requires d <= 9
    ensures x * 10 + d <= MAX_LENGTH <==> x <= (ULLONG_MAX - 10) / 10
  {}

  lemma {:induction false} OnlySpacesSnoc(t: string, n: nat, c: char)
    ensures n <= |t| ==> (OnlySpaces(t + [c], n) <==> OnlySpaces(t, n) && c == SP)
    ensures n > |t| ==> OnlySpaces(t + [c], n)
  {
    var u := t + [c];
    assert forall k :: 0 <= k < |t| ==> u[k] == t[k];
    assert u[|t|] == c;
  }

  /** One character more, as the value matcher sees it. */
  lemma {:induction false} SaysLengthSnoc(t: string, c: char)
    requires LeadingDigits(t) > 0
    ensures SaysLength(t + [c]) <==>
      SaysLength(t) && (c == SP || (LeadingDigits(t) == |t| && IsNumber(c) && LengthOf(t) <= (ULLONG_MAX - 10) / 10))
  {
    LeadingDigitsSnoc(t, c);
    LengthOfSnoc(t, c);
    OnlySpacesSnoc(t, LeadingDigits(t), c);
    if LeadingDigits(t) == |t| && IsNumber(c) {
      OnlySpacesSnoc(t, |t| + 1, c);
      FitsSnoc(LengthOf(t), Digit(c));
    }
  }

  /** The value matcher has read `t` and holds its number. */
  predicate HoldsLength(p: Parser, t: string) {
    p.contentLength == LengthOf(t) && p.hstate == if LeadingDigits(t) == |t| then ContentLengthNum else ContentLengthWs
  }

  lemma {:induction false} LengthByte(p: Parser, t: string, c: char)
    requires LeadingDigits(t) > 0 && SaysLength(t) && HoldsLength(p, t)
    ensures var e := ValueByte(p, c);
      if SaysLength(t + [c]) then
        e.out.Go? && HoldsLength(e.p, t + [c]) && e.p == p.(contentLength := e.p.contentLength, hstate := e.p.hstate)
      else e.out.Fail?
  {
    SaysLengthSnoc(t, c);
    LengthOfSnoc(t, c);
    LeadingDigitsSnoc(t, c);
  }

  /** What the value matcher makes of the text `t`, having read `rest` behind its first digit. */
  predicate LengthFolded(p: Parser, rest: string, t: string) {
    var e := ScanFold(ValueByte, p, rest);
    if SaysLength(t) then e.out.Go? && HoldsLength(e.p, t) &&
      e.p == p.(contentLength := e.p.contentLength, hstate := e.p.hstate)
    else e.out.Fail?
  }

  lemma {:induction false} LengthFoldsOn(p: Parser, rest: string, init: string, c: char, t: string)
    requires rest == init + [c] && LengthFolded(p, init, t) && LeadingDigits(t) > 0
    ensures LengthFolded(p, rest, t + [c]) && LeadingDigits(t + [c]) > 0
  {
    assert rest[..|rest| - 1] == init && rest[|rest| - 1] == c;
    SaysLengthSnoc(t, c);
    LeadingDigitsSnoc(t, c);
    if SaysLength(t) { LengthByte(ScanFold(ValueByte, p, init).p, t, c); }
  }

  lemma {:induction false} LengthFolds(p: Parser, ch: char, rest: string)
    requires IsNumber(ch) && HoldsLength(p, [ch])
    ensures LengthFolded(p, rest, [ch] + rest) && LeadingDigits([ch] + rest) > 0
  {
    if rest == "" {
      assert [ch] + rest == [ch];
      OneDigit(ch);
    } else {
      var n := |rest| - 1;
      LengthFolds(p, ch, rest[..n]);
      var t := [ch] + rest[..n];
      assert rest == rest[..n] + [rest[n]] && [ch] + rest == t + [rest[n]];
      LengthFoldsOn(p, rest, rest[..n], rest[n], t);
    }
  }

  lemma {:induction false} OneDigit(ch: char)
    requires IsNumber(ch)
    ensures SaysLength([ch]) && LengthOf([ch]) == Digit(ch) && LeadingDigits([ch]) == 1
  {
    LeadingDigitsSnoc("", ch);
    LengthOfSnoc("", ch);
    assert "" + [ch] == [ch];
  }

  lemma {:induction false} LengthStarts(p: Parser, ch: char)
    requires p.hstate.ContentLength?
    ensures var e := StepHeaderValueStart(p, ch);
      if IsNumber(ch) && !p.flags.contentLength then
        e.out.Go? && HoldsLength(e.p, [ch]) && e.p.flags == p.flags.(contentLength := true)
      else e.out.Fail?
  {
    if IsNumber(ch) { OneDigit(ch); }
  }

  lemma {:induction false} SaysLengthStarts(t: string)
    requires t != "" && !IsNumber(t[0])
    ensures !SaysLength(t)
  {}

  lemma {:induction false} LengthMatched(p: Parser, t: string)
    requires p.hstate.ContentLength? && t != ""
    ensures var e := Matched(p, t);
      if SaysLength(t) && !p.flags.contentLength then
        e.out.Go? && HoldsLength(e.p, t) && e.p.flags == p.flags.(contentLength := true)
      else e.out.Fail?
  {
    LengthStarts(p, t[0]);
    assert [t[0]] + t[1..] == t;
    if IsNumber(t[0]) && !p.flags.contentLength {
      LengthFolds(StepHeaderValueStart(p, t[0]).p, t[0], t[1..]);
    } else if !IsNumber(t[0]) {
      SaysLengthStarts(t);
    }
  }

  /** What is held at the end of an acceptable Content-Length value. */
  predicate LengthRead(p: Parser, z: Parser, t: string, m: nat) {
    && InValue(z) && z.nread == m && z.flags == p.flags.(contentLength := true)
    && z.contentLength == LengthOf(t) && HeaderFlag(z.flags, z.hstate) == z.flags
  }

  lemma {:induction false} RunsLengthValue(p: Parser, v: string, sw: Switch, max: nat)
    requires BlankLaw(sw, max) && FirstLaw(sw, max) && TextLaw(sw, max)
    requires AfterColon(p) && p.state.HeaderValueDiscardWs? && p.hstate.ContentLength?
    requires p.nread + |v| <= max && OneLine(v)
    ensures var r, t := Reach(p, v, sw), TrimLeft(v);
      if t == "" then r.out.Go? && r.p == Count(p, p.nread + |v|)
      else if SaysLength(t) && !p.flags.contentLength then r.out.Go? && LengthRead(p, r.p, t, p.nread + |v|)
      else r.out.Fail?
  {
    var t := TrimLeft(v);
    var q := RunsValue(p, v, sw, max);
    TrimKeeps(v, true);
    if t != "" {
      RunsText(q, t, sw, max);
      LengthMatched(Tick(q), t);
    }
  }

  lemma {:induction false} RunsLengthLine(p: Parser, v: string, end: string, x: char, sw: Switch, start: Switch,
                                          max: nat)
    returns (q: Parser)
    requires BlankLaw(sw, max) && FirstLaw(sw, max) && TextLaw(sw, max) && EndLaw(sw, max) && NextLaw(sw, start, max)
    requires AfterColon(p) && p.state.HeaderValueDiscardWs? && p.hstate.ContentLength?
    requires OneLine(v) && LineEnd(end) && !Blank(x) && p.nread + |v| + |end| + 1 <= max
    ensures q.state.HeaderFieldStart? && q.flags == p.flags.(contentLength := true)
    ensures var r, t := Reach(p, v + (end + [x]), sw), TrimLeft(v);
      if SaysLength(t) && !p.flags.contentLength then q.contentLength == LengthOf(t) && Continues(r, q, x, start)
      else r.out.Fail?
  {
    var z, t := Reach(p, v, sw), TrimLeft(v);
    RunsLengthValue(p, v, sw, max);
    ReachSplit(p, v, end + [x], sw);
    q := p.(state := HeaderFieldStart, flags := p.flags.(contentLength := true));
    if z.out.Go? {
      RunsLineEnd(z.p, end, x, sw, start, max);
      if t != "" { q := NextLine(z.p, z.p.nread + |end| + 1); }
    }
  }

  /** A Content-Length line is accepted exactly when it is the first one and its value, after leading
      blanks, is a decimal number that fits followed only by spaces; the number is then kept, with no
      wrap-around and never the value that stands for no length, and the parser goes on to the next line, whose
      first byte is `x`, unless that folds the line. */
  lemma {:induction false} RecognisesLength(p: Parser, v: string, end: string, x: char, cfg: Config) returns (q: Parser)
    requires AfterColon(p) && p.state.HeaderValueDiscardWs? && p.hstate.ContentLength?
    requires OneLine(v) && LineEnd(end) && !Blank(x)
    requires p.nread + |v| + |end| + 1 <= cfg.maxHeader
    ensures q.state.HeaderFieldStart? && q.flags == p.flags.(contentLength := true)
    ensures var r, t := Run(p, v + (end + [x]), ByteSwitch(cfg)), TrimLeft(v);
      if SaysLength(t) && !p.flags.contentLength then
        && q.contentLength == LengthOf(t) < ULLONG_MAX && Continues(Place(r.p, r.out), q, x, LineStart(cfg))
        && (IsToken(x) || x == CR ==> r.out.Go? && r.p.flags == q.flags && r.p.contentLength == q.contentLength)
      else r.out.Fail?
  {
    LawsBefore(cfg);
    ValueScansHere(cfg);
    LawsBehind(cfg);
    LawsNext(cfg);
    q := RunsLengthLine(p, v, end, x, ByteSwitch(cfg), LineStart(cfg), cfg.maxHeader);
    RunReaches(p, v + (end + [x]), ByteSwitch(cfg));
    if IsToken(x) || x == CR { LineGoesOn(q, x, cfg); }
  }
}
