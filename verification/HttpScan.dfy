/** The fast scans of the parser as many single bytes.

    A scan stays in one phase and moves one matcher over a run of bytes.  What it needs to
    know of the phase and the matcher is `Scans`; the parser's two scans are shown to have
    it in module HttpSegments. */
module HttpScan {
  import opened HttpParser
  import opened HttpInvariant
  import opened HttpTrace
  import opened HttpRun

  type Phase = Parser -> bool
  type Matching = (Parser, char) -> Eff

  /** The parser with its byte counter at `n`. */
  function Count(p: Parser, n: nat): Parser { p.(nread := n) }

  /** Only the matcher decides whether the byte is accepted, not the byte counter. */
  predicate SameMatch(v: Eff, w: Eff, n: nat) {
    (v.out.Go? <==> w.out.Go?) && (v.out.Go? ==> w.p == Count(v.p, n))
  }

  /** Matcher `step` keeps phase `inPhase` on the bytes `ok`, and ignores the byte counter. */
  ghost predicate Matches(inPhase: Phase, step: Matching, ok: char -> bool) {
    && (forall p: Parser, n: nat {:trigger Count(p, n)} :: inPhase(p) ==> inPhase(Count(p, n)))
    && (forall p: Parser, ch: char {:trigger step(p, ch)} :: inPhase(p) && ok(ch) && step(p, ch).out.Go? ==>
          inPhase(step(p, ch).p) && step(p, ch).p.nread == p.nread)
    && (forall p: Parser, ch: char, n: nat {:trigger step(Count(p, n), ch)} :: inPhase(p) && ok(ch) ==>
          SameMatch(step(p, ch), step(Count(p, n), ch), n))
  }

  /** The switch `sw`, on a byte allowed by `ok` in phase `inPhase`, counts the byte and moves the
      matcher `step`; the phase has mark `f`. */
  ghost predicate Scans(sw: Switch, max: nat, f: Field, inPhase: Phase, step: Matching, ok: char -> bool) {
    && Matches(inPhase, step, ok)
    && (forall p: Parser {:trigger inPhase(p)} :: inPhase(p) ==> EntryMark(p.state) == Holds(f))
    && (forall p: Parser, ch: char {:trigger sw(p, ch), step(p, ch)} :: inPhase(p) && ok(ch) ==>
          if p.nread + 1 > max || !step(p, ch).out.Go? then sw(p, ch).out.Fail?
          else sw(p, ch) == Next(Count(step(p, ch).p, p.nread + 1)))
  }

  function ScanFold(step: Matching, p: Parser, s: string): Eff {
    if s == "" then Next(p)
    else
      var e := ScanFold(step, p, s[..|s| - 1]);
      if e.out.Go? then step(e.p, s[|s| - 1]) else e
  }

  lemma {:induction false} ScanFoldSnoc(step: Matching, p: Parser, data: string, i: nat, j: nat)
    requires i <= j < |data|
    ensures var e := ScanFold(step, p, data[i..j]);
      ScanFold(step, p, data[i..j + 1]) == if e.out.Go? then step(e.p, data[j]) else e
  {
    assert data[i..j + 1][..j - i] == data[i..j];
  }

  lemma {:induction false} ScanFoldKept(inPhase: Phase, step: Matching, ok: char -> bool, p: Parser, s: string)
    requires Matches(inPhase, step, ok) && inPhase(p) && forall k :: 0 <= k < |s| ==> ok(s[k])
    ensures var e := ScanFold(step, p, s); e.out.Go? ==> inPhase(e.p) && e.p.nread == p.nread
  {
    if s != "" { ScanFoldKept(inPhase, step, ok, p, s[..|s| - 1]); }
  }

  lemma {:induction false} TracksScanByte(p0: Parser, data: string, sw: Switch, max: nat, f: Field, inPhase: Phase,
                                          step: Matching, ok: char -> bool, p: Parser, t: Tape, i: nat)
    requires Scans(sw, max, f, inPhase, step, ok) && inPhase(p)
    requires Tracks(p0, data, sw, p, t, i, Holds(f)).InStep? && i < |data| && ok(data[i])
    ensures var v := step(p, data[i]);
            if p.nread + 1 > max || !v.out.Go? then Run(p0, data, sw).out.Fail?
            else Tracks(p0, data, sw, Count(v.p, p.nread + 1), t, i + 1, Holds(f)).InStep?
  {
    var v := step(p, data[i]);
    TracksByte(p0, data, sw, p, t, i, Holds(f), sw(p, data[i]));
    if sw(p, data[i]).out.Fail? { RunStops(p0, data, i + 1, sw); }
  }

  /** `at(k, q)`: after `k` bytes the run holds parser `q`; `failed`: the run fails. */
  ghost predicate Bytewise(at: (nat, Parser) -> bool, failed: bool, data: string, max: nat, inPhase: Phase,
                           step: Matching, i: nat, n: nat)
    requires n <= |data|
  {
    forall k: nat, q: Parser {:trigger at(k, q), step(q, data[k])} :: i <= k < n && at(k, q) && inPhase(q) ==>
      if q.nread + 1 > max || !step(q, data[k]).out.Go? then failed
      else at(k + 1, Count(step(q, data[k]).p, q.nread + 1))
  }

  lemma {:induction false} ManyBytes(at: (nat, Parser) -> bool, failed: bool, data: string, max: nat,
                                     inPhase: Phase, step: Matching, ok: char -> bool, p: Parser, i: nat, j: nat,
                                       n: nat)
    requires Matches(inPhase, step, ok) && inPhase(p) && p.nread <= max
    requires at(i, p) && i <= j <= n <= |data| && Bytewise(at, failed, data, max, inPhase, step, i, n)
    requires forall k :: i <= k < n ==> ok(data[k])
    ensures var e := ScanFold(step, p, data[i..j]);
      if e.out.Go? && p.nread + (j - i) <= max then at(j, Count(e.p, p.nread + (j - i))) else failed
    decreases j
  {
    if i == j {
      assert data[i..j] == "";
    } else {
      var k := j - 1;
      ManyBytes(at, failed, data, max, inPhase, step, ok, p, i, k, n);
      ScanFoldSnoc(step, p, data, i, k);
      var e := ScanFold(step, p, data[i..k]);
      if e.out.Go? && p.nread + (k - i) <= max {
        ScanFoldKept(inPhase, step, ok, p, data[i..k]);
        var q := Count(e.p, p.nread + (k - i));
        assert SameMatch(step(e.p, data[k]), step(q, data[k]), q.nread);
        assert at(k, q) && inPhase(q);
      }
    }
  }

  /** A whole scan: it is `j - i` single bytes, unless one of them fails or too many header bytes
      have been read. */
  lemma {:induction false} TracksScan(p0: Parser, data: string, sw: Switch, max: nat, f: Field, inPhase: Phase,
                   step: Matching, ok: char -> bool, p: Parser, t: Tape, i: nat, j: nat)
    requires Scans(sw, max, f, inPhase, step, ok) && inPhase(p) && p.nread <= max
    requires Tracks(p0, data, sw, p, t, i, Holds(f)).InStep? && i <= j <= |data| &&
      forall k :: i <= k < j ==> ok(data[k])
    ensures var e := ScanFold(step, p, data[i..j]);
            if e.out.Go? && p.nread + (j - i) <= max
            then Tracks(p0, data, sw, Count(e.p, p.nread + (j - i)), t, j, Holds(f)).InStep?
            else Run(p0, data, sw).out.Fail?
  {
    var at, failed := TrackAt(p0, data, sw, t, f), Run(p0, data, sw).out.Fail?;
    ScanIsBytewise(p0, data, sw, max, f, inPhase, step, ok, t, i, j);
    ManyBytes(at, failed, data, max, inPhase, step, ok, p, i, j, j);
  }

  ghost function TrackAt(p0: Parser, data: string, sw: Switch, t: Tape, f: Field): (nat, Parser) -> bool {
    (k: nat, q: Parser) => Tracks(p0, data, sw, q, t, k, Holds(f)).InStep?
  }

  lemma {:induction false} ScanIsBytewise(p0: Parser, data: string, sw: Switch, max: nat, f: Field, inPhase: Phase,
                       step: Matching, ok: char -> bool, t: Tape, i: nat, j: nat)
    requires Scans(sw, max, f, inPhase, step, ok) && j <= |data| && forall k :: i <= k < j ==> ok(data[k])
    ensures Bytewise(TrackAt(p0, data, sw, t, f), Run(p0, data, sw).out.Fail?, data, max, inPhase, step, i, j)
  {
    var at, failed := TrackAt(p0, data, sw, t, f), Run(p0, data, sw).out.Fail?;
    forall k: nat, q: Parser {:trigger at(k, q), step(q, data[k])} | i <= k < j && at(k, q) && inPhase(q)
      ensures if q.nread + 1 > max || !step(q, data[k]).out.Go? then failed
              else at(k + 1, Count(step(q, data[k]).p, q.nread + 1))
    {
      TracksScanByte(p0, data, sw, max, f, inPhase, step, ok, q, t, k);
    }
    assert Bytewise(at, failed, data, max, inPhase, step, i, j);
  }

  lemma {:induction false} ScanByte(p: Parser, ch: char, n: nat, sw: Switch, max: nat, f: Field, inPhase: Phase,
                                    step: Matching, ok: char -> bool)
    requires Scans(sw, max, f, inPhase, step, ok) && inPhase(p) && ok(ch) && n + 1 <= max
    ensures var v, e := step(p, ch), sw(Count(p, n), ch);
      if v.out.Go? then e == Next(Count(v.p, n + 1)) && inPhase(v.p) else e.out.Fail?
  {
    var q := Count(p, n);
    assert SameMatch(step(p, ch), step(q, ch), n) && inPhase(q);
    var e := sw(q, ch);
  }

  /** The one-byte run over the bytes of a scan. */
  lemma {:induction false} ReachScan(p: Parser, s: string, sw: Switch, max: nat, f: Field, inPhase: Phase,
                                     step: Matching, ok: char -> bool, m: nat)
    requires Scans(sw, max, f, inPhase, step, ok) && inPhase(p) && m == p.nread + |s| <= max
    requires forall k :: 0 <= k < |s| ==> ok(s[k])
    ensures var e, r := ScanFold(step, p, s), Reach(p, s, sw);
      if e.out.Go? then r.out.Go? && inPhase(e.p) && r.p == Count(e.p, m) else r.out.Fail?
  {
    if s == "" {
      assert Count(p, p.nread) == p;
    } else {
      var n, k := |s| - 1, m - 1;
      ReachScan(p, s[..n], sw, max, f, inPhase, step, ok, k);
      var e := ScanFold(step, p, s[..n]);
      if e.out.Go? { ScanByte(e.p, s[n], k, sw, max, f, inPhase, step, ok); }
    }
  }

  /** The one-byte run over bytes that are only counted. */
  lemma {:induction false} ReachCounts(p: Parser, s: string, sw: Switch, m: nat)
    requires m == p.nread + |s|
    requires forall n: nat, k: nat {:trigger sw(Count(p, n), s[k])} :: p.nread <= n < m && k < |s| ==>
               sw(Count(p, n), s[k]) == Next(Count(p, n + 1))
    ensures var r := Reach(p, s, sw); r.out.Go? && r.p == Count(p, m)
  {
    if s == "" {
      assert Count(p, p.nread) == p;
    } else {
      var n, k := |s| - 1, m - 1;
      assert forall j :: 0 <= j < n ==> s[..n][j] == s[j];
      ReachCounts(p, s[..n], sw, k);
      var e := sw(Count(p, k), s[n]);
    }
  }

  // ---------- bodies ----------

  /** The parser after `n` body bytes, the last byte not among them. */
  function BodyAfter(p: Parser, n: nat): Parser {
    if p.state.BodyIdentityEof? || n > p.contentLength then p else p.(contentLength := p.contentLength - n)
  }

  /** More than `n` body bytes are still to come. */
  predicate Remains(p: Parser, n: nat) {
    || p.state.BodyIdentityEof?
    || ((p.state.BodyIdentity? || (p.state.ChunkData? && p.flags.chunked)) && n < p.contentLength < ULLONG_MAX)
  }

  /** Before its last byte a body only asks for its mark. */
  ghost predicate BodyLaw(sw: Switch) {
    forall p: Parser, ch: char {:trigger sw(p, ch), BodyAfter(p, 1)} :: Remains(p, 1) ==>
      sw(p, ch) == Ask(BodyAfter(p, 1), SetMark(Body))
  }

  lemma {:induction false} SetMarkAlone(t: Tape, data: string, i: nat, h: Held)
    requires i < |data| && Holding(t, h, i) && (h.Nothing? || (h == Holds(Body) && i > 0))
    ensures var ops := Then(SetMark(Body), Done);
      DoAll(ops, t, data, i) == Do(SetMark(Body), t, data, i) && HeldAtEnd(ops, h) == Holds(Body) &&
      MarksMeet(ops, h, Nothing, i)
  {}

  lemma {:induction false} BodyAsks(p: Parser, ch: char, sw: Switch)
    requires BodyLaw(sw) && Remains(p, 1)
    ensures sw(p, ch) == Ask(BodyAfter(p, 1), SetMark(Body)) && EntryMark(p.state).Nothing?
  {}

  lemma {:induction false} TracksBodyByte(p0: Parser, data: string, sw: Switch, p: Parser, t: Tape, i: nat, h: Held,
                                          q: Parser)
    requires Tracks(p0, data, sw, p, t, i, h).InStep? && i < |data| && EntryMark(p.state).Nothing?
    requires sw(p, data[i]) == Ask(q, SetMark(Body))
    requires h.Nothing? || (h == Holds(Body) && i > 0)
    ensures Tracks(p0, data, sw, q, Do(SetMark(Body), t, data, i), i + 1, Holds(Body)).InStep?
  {
    SetMarkAlone(t, data, i, h);
    TracksByte(p0, data, sw, p, t, i, h, Ask(q, SetMark(Body)));
  }

  lemma {:induction false} BodyAfterSteps(p: Parser, n: nat)
    requires Remains(p, n)
    ensures if n == 0 then BodyAfter(p, n) == p
            else Remains(p, n - 1) && Remains(BodyAfter(p, n - 1), 1) &&
                 BodyAfter(BodyAfter(p, n - 1), 1) == BodyAfter(p, n)
  {}

  lemma {:induction false} TracksNextBody(p0: Parser, data: string, sw: Switch, p: Parser, t: Tape, i: nat, q: Parser,
                                          j: nat)
    requires Tracks(p0, data, sw, p, t, i, Holds(Body)).InStep? && 0 < i < |data| && Remains(p, 1) && BodyLaw(sw)
    requires q == BodyAfter(p, 1) && j == i + 1
    ensures Tracks(p0, data, sw, q, t, j, Holds(Body)).InStep?
  {
    MarkIsSet(t, data, i);
    BodyAsks(p, data[i], sw);
    TracksBodyByte(p0, data, sw, p, t, i, Holds(Body), q);
  }

  lemma {:induction false} MarkIsSet(t: Tape, data: string, i: nat)
    requires i < |data| && Holding(t, Holds(Body), i)
    ensures Do(SetMark(Body), t, data, i) == t
  {}

  lemma {:induction false} TracksRestOfBody(p0: Parser, data: string, sw: Switch, p: Parser, t: Tape, i: nat, n: nat,
                                            q: Parser, j: nat)
    requires Tracks(p0, data, sw, p, t, i, Holds(Body)).InStep? && BodyLaw(sw)
    requires 0 < i && i + n == j <= |data| && Remains(p, n) && q == BodyAfter(p, n)
    ensures Tracks(p0, data, sw, q, t, j, Holds(Body)).InStep?
    decreases n
  {
    BodyAfterSteps(p, n);
    if n > 0 {
      var m, k := n - 1, j - 1;
      var r := BodyAfter(p, m);
      TracksRestOfBody(p0, data, sw, p, t, i, m, r, k);
      TracksNextBody(p0, data, sw, r, t, k, q, j);
    }
  }

  /** Body bytes short of the last one only move the count down, behind one mark. */
  lemma {:induction false} TracksBody(p0: Parser, data: string, sw: Switch, p: Parser, t: Tape, i: nat, j: nat, h: Held)
    requires Tracks(p0, data, sw, p, t, i, h).InStep? && i < j <= |data| && Remains(p, j - i) && BodyLaw(sw)
    requires h.Nothing? || (h == Holds(Body) && i > 0)
    ensures Tracks(p0, data, sw, BodyAfter(p, j - i), Do(SetMark(Body), t, data, i), j, Holds(Body)).InStep?
  {
    var n, q, r := j - i, BodyAfter(p, 1), BodyAfter(p, j - i);
    BodyAfterSum(p, n);
    BodyAsks(p, data[i], sw);
    TracksBodyByte(p0, data, sw, p, t, i, h, q);
    TracksRestOfBody(p0, data, sw, q, Do(SetMark(Body), t, data, i), i + 1, n - 1, r, j);
  }

  lemma {:induction false} BodyAfterSum(p: Parser, n: nat)
    requires Remains(p, n) && n > 0
    ensures Remains(p, 1) && Remains(BodyAfter(p, 1), n - 1) && BodyAfter(BodyAfter(p, 1), n - 1) == BodyAfter(p, n)
  {}
}
