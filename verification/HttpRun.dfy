/** Runs of the one-byte automaton, and how a call on a longer buffer follows one.

    Everything here is said of an arbitrary `Switch` that obeys a few laws; module
    HttpSegments proves the laws of the parser's own switch. */
module HttpRun {
  import opened Sequences
  import opened HttpParser
  import opened HttpInvariant
  import opened HttpTrace

  /** What one byte does: COUNT_HEADER_SIZE(1) and the switch statement. */
  type Switch = (Parser, char) -> Eff

  /** A parser that has counted a byte.  The laws below that have it in their trigger are used where it is mentioned. */
  function Tick(p: Parser): Parser { p.(nread := p.nread + 1) }

  datatype Result = Result(p: Parser, events: seq<Event>, used: nat, out: Outcome)

  function EntryTape(k: Held): Tape { Tape(MarksAt(k, 0), []) }

  /** The callbacks of a call on the one-byte buffer `[ch]` in state `s`.  Marks are flushed at
      the end of the buffer, but not when the call returns early. */
  function ByteEvents(s: State, e: Eff, ch: char): seq<Event> {
    var t := DoAll(e.ops, EntryTape(EntryMark(s)), [ch], 0);
    if e.out.Go? then AtExit(t, [ch], 1) else t.events
  }

  /** One more byte, unless the run has stopped. */
  function Advance(r: Result, ch: char, sw: Switch): Result {
    if !r.out.Go? then r
    else
      var e := sw(r.p, ch);
      Result(e.p, r.events + ByteEvents(r.p.state, e, ch), if e.out.Fail? then r.used else r.used + 1, e.out)
  }

  /** Feeding `data` byte by byte, stopping at the first byte that does not go on. */
  function Run(p: Parser, data: string, sw: Switch): Result {
    if data == "" then Result(p, [], 0, Go) else Advance(Run(p, data[..|data| - 1], sw), data[|data| - 1], sw)
  }

  /** Where a run gets to, leaving its callbacks aside. */
  datatype Place = Place(p: Parser, out: Outcome)

  function Reach(p: Parser, data: string, sw: Switch): Place {
    if data == "" then Place(p, Go) else Onward(Reach(p, data[..|data| - 1], sw), data[|data| - 1], sw)
  }

  function Onward(r: Place, ch: char, sw: Switch): Place {
    if r.out.Go? then Place(sw(r.p, ch).p, sw(r.p, ch).out) else r
  }

  lemma {:induction false} RunReaches(p: Parser, data: string, sw: Switch)
    ensures var r := Run(p, data, sw); Reach(p, data, sw) == Place(r.p, r.out)
  {
    if data != "" { RunReaches(p, data[..|data| - 1], sw); }
  }

  lemma {:induction false} ReachSnoc(p: Parser, a: string, ch: char, sw: Switch)
    ensures Reach(p, a + [ch], sw) == Onward(Reach(p, a, sw), ch, sw)
  {
    var b := a + [ch];
    assert b[..|b| - 1] == a && b[|b| - 1] == ch;
  }

  lemma {:induction false} ReachOne(p: Parser, ch: char, sw: Switch)
    ensures Reach(p, [ch], sw) == Place(sw(p, ch).p, sw(p, ch).out)
  {
    assert [] + [ch] == [ch];
    ReachSnoc(p, [], ch, sw);
  }

  /** The place reached by two pieces one after the other. */
  lemma {:induction false} ReachSplit(p: Parser, a: string, b: string, sw: Switch)
    ensures var r := Reach(p, a, sw); Reach(p, a + b, sw) == if r.out.Go? then Reach(r.p, b, sw) else r
  {
    if b == "" {
      assert a + b == a;
    } else {
      var c, ch := b[..|b| - 1], b[|b| - 1];
      ReachSplit(p, a, c, sw);
      Assoc(a, c, [ch]);
      assert c + [ch] == b;
      ReachSnoc(p, a + c, ch, sw);
      ReachSnoc(Reach(p, a, sw).p, c, ch, sw);
    }
  }

  lemma {:induction false} ReachFirst(p: Parser, a: string, sw: Switch)
    requires a != ""
    ensures var e := sw(p, a[0]); Reach(p, a, sw) == if e.out.Go? then Reach(e.p, a[1..], sw) else Place(e.p, e.out)
  {
    assert a == [a[0]] + a[1..];
    ReachOne(p, a[0], sw);
    ReachSplit(p, [a[0]], a[1..], sw);
  }

  /** One byte breaks no C assertion, uses one mark at a time and keeps the invariant. */
  ghost predicate KeepsInv(sw: Switch, maxHeader: nat) {
    forall p: Parser, ch: char, h: Held {:trigger sw(p, ch), MayHold(p.state, h)} ::
      Inv(p, maxHeader) && MayHold(p.state, h) ==>
      Legal(sw(p, ch), h) && (sw(p, ch).out.Go? || sw(p, ch).out.Exit? ==> Inv(sw(p, ch).p, maxHeader))
  }

  predicate MayHoldBody(s: State) {
    s.BodyIdentity? || s.BodyIdentityEof? || s.ChunkData? || s.ChunkDataAlmostDone?
  }

  /** In a state that may or may not hold the body mark, the byte sets or flushes it. */
  ghost predicate TouchesBodyMark(sw: Switch) {
    forall p: Parser, ch: char {:trigger sw(p, ch)} ::
      MayHoldBody(p.state) && (sw(p, ch).out.Go? || sw(p, ch).out.Exit?) ==>
      sw(p, ch).ops.Then? && (sw(p, ch).ops.op == SetMark(Body) || sw(p, ch).ops.op == Flush(Body))
  }

  lemma {:induction false} RunSnoc(p: Parser, data: string, i: nat, sw: Switch)
    requires i < |data|
    ensures Run(p, data[..i + 1], sw) == Advance(Run(p, data[..i], sw), data[i], sw)
  {
    assert data[..i + 1][..i] == data[..i];
  }

  /** Every run from a state with the invariant keeps it and breaks no C assertion. */
  lemma {:induction false} RunKeepsInv(p: Parser, data: string, sw: Switch, maxHeader: nat)
    requires Inv(p, maxHeader) && KeepsInv(sw, maxHeader)
    ensures var r := Run(p, data, sw);
      && !r.out.AssertFails?
      && (r.out.Go? || r.out.Exit? ==> Inv(r.p, maxHeader))
      && (r.out.Go? ==> r.used == |data|)
  {
    if data != "" {
      RunKeepsInv(p, data[..|data| - 1], sw, maxHeader);
      var r := Run(p, data[..|data| - 1], sw);
      if r.out.Go? { assert MayHold(r.p.state, EntryMark(r.p.state)); }
    }
  }

  /** Run `s` started where run `r` ended. */
  function Chain(r: Result, s: Result): Result {
    if !r.out.Go? then r else Result(s.p, r.events + s.events, r.used + s.used, s.out)
  }

  /** Running two pieces one after the other is running their concatenation. */
  lemma {:induction false} RunSplit(p: Parser, a: string, b: string, sw: Switch)
    ensures Run(p, a + b, sw) == Chain(Run(p, a, sw), Run(Run(p, a, sw).p, b, sw))
  {
    var r := Run(p, a, sw);
    if b == "" {
      assert a + b == a && r.events + [] == r.events;
    } else {
      var c, ch := b[..|b| - 1], b[|b| - 1];
      RunSplit(p, a, c, sw);
      assert (a + b)[..|a + b| - 1] == a + c;
      var s := Run(r.p, c, sw);
      var ev := ByteEvents(s.p.state, sw(s.p, ch), ch);
      assert r.events + s.events + ev == r.events + (s.events + ev);
    }
  }

  /** A run that goes on continues from where it got to. */
  lemma {:induction false} RunOn(p: Parser, a: string, b: string, sw: Switch, q: Parser)
    requires Run(p, a, sw).out.Go? && Run(p, a, sw).p == q
    ensures Run(p, a + b, sw).out == Run(q, b, sw).out && Run(p, a + b, sw).p == Run(q, b, sw).p
    ensures Run(p, a + b, sw).events == Run(p, a, sw).events + Run(q, b, sw).events
  {
    RunSplit(p, a, b, sw);
  }

  lemma {:induction false} RunOne(p: Parser, ch: char, sw: Switch)
    ensures var e, r := sw(p, ch), Run(p, [ch], sw);
      r.out == e.out && r.p == e.p && r.events == ByteEvents(p.state, e, ch)
  {
    assert [ch][..0] == "";
    assert Run(p, "", sw) == Result(p, [], 0, Go);
    var ev := ByteEvents(p.state, sw(p, ch), ch);
    assert [] + ev == ev;
  }

  /** A run that stopped stays stopped. */
  lemma {:induction false} RunStops(p: Parser, data: string, i: nat, sw: Switch)
    requires i <= |data| && !Run(p, data[..i], sw).out.Go?
    ensures Run(p, data, sw) == Run(p, data[..i], sw)
  {
    RunSplit(p, data[..i], data[i..], sw);
    assert data[..i] + data[i..] == data;
  }

  // ---------- a call in progress ----------

  /** Whether a call and the one-byte run are in step.  A value and not a predicate, so that the
      verifier takes it as a whole. */
  datatype Pace = InStep | OutOfStep

  /** A call on `data` that started in `p0` has consumed `i` bytes and holds parser `p`, tape `t` and
      mark `h`: the one-byte run is in the same state and has made the same callbacks, up to the
      text still pending behind the mark. */
  ghost function Tracks(p0: Parser, data: string, sw: Switch, p: Parser, t: Tape, i: nat, h: Held): Pace {
    if i <= |data| && Holding(t, h, i) && Follows(Run(p0, data[..i], sw), data, p, t, i, h) then InStep else OutOfStep
  }

  ghost predicate Follows(r: Result, data: string, p: Parser, t: Tape, i: nat, h: Held)
    requires i <= |data| && Holding(t, h, i)
  {
    r.out.Go? && r.p == p && r.used == i && SameCallbacks(r.events, t, data, i, h)
  }

  /** The callbacks `es` of the one-byte run against those of the call; at its start the call has
      made none, and only has its first mark. */
  ghost predicate SameCallbacks(es: seq<Event>, t: Tape, data: string, i: nat, h: Held)
    requires i <= |data| && Holding(t, h, i)
  {
    if i == 0 then t == EntryTape(h) && es == [] else Canon(es) == Canon(AtExit(t, data, i))
  }

  lemma {:induction false} TracksAtEntry(p: Parser, data: string, sw: Switch)
    ensures Tracks(p, data, sw, p, EntryTape(EntryMark(p.state)), 0, EntryMark(p.state)).InStep?
  {
    assert data[..0] == "";
  }

  lemma {:induction false} EntryTapeExit(k: Held, c: string)
    requires |c| == 1
    ensures Holding(EntryTape(k), k, 0) && AtExit(EntryTape(k), c, 0) == if k.Nothing? then [] else [Data(k.f, "")]
  {
    AtExitHolding(EntryTape(k), k, c, 0);
    assert c[0..0] == "";
  }

  lemma {:induction false} AgreeAtEntry(es: seq<Event>, t: Tape, data: string, i: nat, h: Held, k: Held)
    requires i < |data| && (k == h || (k.Nothing? && i > 0)) && Holding(t, h, i) && SameCallbacks(es, t, data, i, h)
    ensures Agree(t, h, data, i, EntryTape(k), k, es)
  {
    AtExitHolding(t, h, data, i);
    EntryTapeExit(k, [data[i]]);
    if k.Nothing? {
      assert es + [] == es;
    } else if i == 0 {
      assert data[0..0] == "";
      assert es + [Data(k.f, "")] == [Data(k.f, "")];
    } else {
      EmptyTextAbsorbed(es, t.events, k.f, data[t.marks[k.f]..i]);
    }
  }

  // ---------- one byte of a call ----------

  /** Mark `h` is what the call holds, `k` what a call starting at this byte would hold, and the
      requests `ops` bring both to the same mark. */
  predicate MarksMeet(ops: Ops, h: Held, k: Held, i: nat) {
    && (k == h || (k.Nothing? && i > 0)) && OneMark(ops, h) && OneMark(ops, k)
    && HeldAtEnd(ops, h) == HeldAtEnd(ops, k)
  }

  lemma {:induction false} ByteAgrees(es: seq<Event>, ops: Ops, t: Tape, data: string, i: nat, h: Held, k: Held)
    requires i < |data| && Holding(t, h, i) && SameCallbacks(es, t, data, i, h) && MarksMeet(ops, h, k, i)
    ensures var t' := DoAll(ops, t, data, i);
      var s' := DoAll(ops, EntryTape(k), [data[i]], 0);
      var h' := HeldAtEnd(ops, h);
      && Holding(t', h', i + 1)
      && Canon(es + AtExit(s', [data[i]], 1)) == Canon(AtExit(t', data, i + 1))
      && (h'.Nothing? ==> Canon(es + s'.events) == Canon(t'.events) && t'.marks == map[])
  {
    AgreeAtEntry(es, t, data, i, h, k);
    DoAllAgree(ops, t, h, data, i, EntryTape(k), k, es);
    var t', s', h' := DoAll(ops, t, data, i), DoAll(ops, EntryTape(k), [data[i]], 0), HeldAtEnd(ops, h);
    AgreeMovesOn(t', h', data, i, s', es);
    AtExitHolding(t', h', data, i);
    AtExitHolding(s', h', [data[i]], 0);
  }

  /** Where the call is after byte `i`, with tape `t'` and mark `h'`, when the call goes on. */
  lemma {:induction false} TracksGo(p0: Parser, data: string, sw: Switch, r: Result, t: Tape, i: nat, h: Held, e: Eff,
                                    t': Tape, h': Held)
    requires i < |data| && r == Run(p0, data[..i], sw) && r.out.Go? && r.used == i && e == sw(r.p, data[i]) && e.out.Go?
    requires Holding(t, h, i) && SameCallbacks(r.events, t, data, i, h) && MarksMeet(e.ops, h, EntryMark(r.p.state), i)
    requires t' == DoAll(e.ops, t, data, i) && h' == HeldAtEnd(e.ops, h)
    ensures Tracks(p0, data, sw, e.p, t', i + 1, h').InStep?
  {
    RunSnoc(p0, data, i, sw);
    ByteAgrees(r.events, e.ops, t, data, i, h, EntryMark(r.p.state));
  }

  lemma {:induction false} TracksExit(p0: Parser, data: string, sw: Switch, r: Result, t: Tape, i: nat, h: Held,
                                      e: Eff, t': Tape)
    requires i < |data| && r == Run(p0, data[..i], sw) && r.out.Go? && r.used == i && e == sw(r.p, data[i]) &&
      e.out.Exit?
    requires Holding(t, h, i) && SameCallbacks(r.events, t, data, i, h) && MarksMeet(e.ops, h, EntryMark(r.p.state), i)
    requires t' == DoAll(e.ops, t, data, i) && HeldAtEnd(e.ops, h).Nothing?
    ensures var q := Run(p0, data[..i + 1], sw);
      q.p == e.p && q.used == i + 1 && Canon(q.events) == Canon(t'.events) && t'.marks == map[]
  {
    RunSnoc(p0, data, i, sw);
    ByteAgrees(r.events, e.ops, t, data, i, h, EntryMark(r.p.state));
  }

  /** What the loop body of a call does with byte `i`, against the one-byte run. */
  lemma {:induction false} TracksByte(p0: Parser, data: string, sw: Switch, p: Parser, t: Tape, i: nat, h: Held, e: Eff)
    requires Tracks(p0, data, sw, p, t, i, h).InStep? && i < |data| && e == sw(p, data[i])
    requires e.out.Go? || e.out.Exit? ==> MarksMeet(e.ops, h, EntryMark(p.state), i)
    ensures Run(p0, data[..i + 1], sw).out == e.out
    ensures e.out.Go? ==> Tracks(p0, data, sw, e.p, DoAll(e.ops, t, data, i), i + 1, HeldAtEnd(e.ops, h)).InStep?
    ensures e.out.Exit? && HeldAtEnd(e.ops, h).Nothing? ==>
      var t' := DoAll(e.ops, t, data, i);
      var r := Run(p0, data[..i + 1], sw);
      r.p == e.p && r.used == i + 1 && Canon(r.events) == Canon(t'.events) && t'.marks == map[]
  {
    var r := Run(p0, data[..i], sw);
    RunSnoc(p0, data, i, sw);
    if e.out.Go? {
      TracksGo(p0, data, sw, r, t, i, h, e, DoAll(e.ops, t, data, i), HeldAtEnd(e.ops, h));
    } else if e.out.Exit? && HeldAtEnd(e.ops, h).Nothing? {
      TracksExit(p0, data, sw, r, t, i, h, e, DoAll(e.ops, t, data, i));
    }
  }

  lemma {:induction false} HeldMeets(ops: Ops, h: Held, k: Held)
    requires h == k || (ops.Then? && (ops.op.SetMark? || ops.op.Flush?))
    ensures HeldAtEnd(ops, h) == HeldAtEnd(ops, k)
  {}
}
