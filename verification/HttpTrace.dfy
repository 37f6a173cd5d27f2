/** Callbacks as a trace, and traces up to the cutting of data callbacks.

    The parser may report one run of text in any number of data callbacks.  `Canon`
    joins neighbouring callbacks for the same field, so two traces with the same
    canonical form differ only in where text was cut. */
module HttpTrace {
  import opened HttpParser
  import opened HttpInvariant

  datatype Event = Data(f: Field, text: string) | Note(n: Notice)

  /** Appends one callback, joining it to the last one if both carry text of one field. */
  function Emit(t: seq<Event>, e: Event): seq<Event> {
    if |t| > 0 && e.Data? && t[|t| - 1].Data? && t[|t| - 1].f == e.f
    then t[..|t| - 1] + [Data(e.f, t[|t| - 1].text + e.text)]
    else t + [e]
  }

  function EmitAll(t: seq<Event>, es: seq<Event>): seq<Event> {
    if es == [] then t else Emit(EmitAll(t, es[..|es| - 1]), es[|es| - 1])
  }

  function Canon(es: seq<Event>): seq<Event> { EmitAll([], es) }

  lemma {:induction false} EmitJoins(t: seq<Event>, f: Field, a: string, b: string)
    ensures Emit(Emit(t, Data(f, a)), Data(f, b)) == Emit(t, Data(f, a + b))
  {
    var u := Emit(t, Data(f, a));
    assert u[|u| - 1].Data? && u[|u| - 1].f == f;
    if |t| > 0 && t[|t| - 1].Data? && t[|t| - 1].f == f {
      assert u[..|u| - 1] == t[..|t| - 1];
      assert t[|t| - 1].text + a + b == t[|t| - 1].text + (a + b);
    } else {
      assert u[..|u| - 1] == t;
    }
  }

  lemma {:induction false} EmitAllConcat(t: seq<Event>, a: seq<Event>, b: seq<Event>)
    ensures EmitAll(t, a + b) == EmitAll(EmitAll(t, a), b)
  {
    if b == [] {
      assert a + b == a;
    } else {
      var c := b[..|b| - 1];
      EmitAllConcat(t, a, c);
      assert (a + b)[..|a + b| - 1] == a + c;
    }
  }

  /** Emitting a canonical form is emitting the trace. */
  lemma {:induction false} EmitAllCanon(t: seq<Event>, es: seq<Event>)
    ensures EmitAll(t, Canon(es)) == EmitAll(t, es)
  {
    if es != [] {
      var c, e := Canon(es[..|es| - 1]), es[|es| - 1];
      EmitAllCanon(t, es[..|es| - 1]);
      if |c| > 0 && e.Data? && c[|c| - 1].Data? && c[|c| - 1].f == e.f {
        var l := c[|c| - 1];
        var d := c[..|c| - 1] + [Data(e.f, l.text + e.text)];
        assert d[..|d| - 1] == c[..|c| - 1];
        assert l == Data(e.f, l.text);
        EmitJoins(EmitAll(t, c[..|c| - 1]), e.f, l.text, e.text);
      } else {
        assert (c + [e])[..|c + [e]| - 1] == c;
      }
    }
  }

  /** Traces with equal canonical forms can be continued by such traces. */
  lemma {:induction false} CanonCongruence(a: seq<Event>, b: seq<Event>, c: seq<Event>, d: seq<Event>)
    requires Canon(a) == Canon(b) && Canon(c) == Canon(d)
    ensures Canon(a + c) == Canon(b + d)
  {
    EmitAllConcat([], a, c);
    EmitAllConcat([], b, d);
    EmitAllCanon(Canon(a), c);
    EmitAllCanon(Canon(b), d);
  }

  lemma {:induction false} CanonSnoc(a: seq<Event>, e: Event)
    ensures Canon(a + [e]) == Emit(Canon(a), e)
  {
    assert (a + [e])[..|a + [e]| - 1] == a;
  }

  /** Text pending behind a mark absorbs the empty text that a call may start with. */
  lemma {:induction false} EmptyTextAbsorbed(es: seq<Event>, ts: seq<Event>, f: Field, x: string)
    requires Canon(es) == Canon(ts + [Data(f, x)])
    ensures Canon(es + [Data(f, "")]) == Canon(ts + [Data(f, x)])
  {
    CanonSnoc(es, Data(f, ""));
    CanonSnoc(ts, Data(f, x));
    EmitJoins(Canon(ts), f, x, "");
    assert x + "" == x;
  }

  // ---------- marks ----------

  /** The local marks of one call, as offsets into its buffer, and the callbacks made. */
  datatype Tape = Tape(marks: map<Field, nat>, events: seq<Event>)

  /** One request of the switch at offset `i` of `data`. */
  function Do(op: Op, t: Tape, data: string, i: nat): Tape
    requires i < |data| && forall f :: f in t.marks ==> t.marks[f] <= i
    ensures forall f :: f in Do(op, t, data, i).marks ==> Do(op, t, data, i).marks[f] <= i
  {
    match op
    case SetMark(f) => if f in t.marks then t else t.(marks := t.marks[f := i])
    case Flush(f) => if f in t.marks then Tape(t.marks - {f}, t.events + [Data(f, data[t.marks[f]..i])]) else t
    case FlushInclusive(f) =>
      if f in t.marks then Tape(t.marks - {f}, t.events + [Data(f, data[t.marks[f]..i + 1])]) else t
    case Notify(n) => t.(events := t.events + [Note(n)])
  }

  function DoAll(ops: Ops, t: Tape, data: string, i: nat): Tape
    requires i < |data| && forall f :: f in t.marks ==> t.marks[f] <= i
    ensures forall f :: f in DoAll(ops, t, data, i).marks ==> DoAll(ops, t, data, i).marks[f] <= i
  {
    match ops
    case Done => t
    case Then(op, rest) => DoAll(rest, Do(op, t, data, i), data, i)
  }

  function FlushAt(t: Tape, f: Field, data: string, end: nat): seq<Event>
    requires end <= |data| && forall g :: g in t.marks ==> t.marks[g] <= end
  {
    if f in t.marks then [Data(f, data[t.marks[f]..end])] else []
  }

  /** The callbacks of a call that ends at offset `end`: each mark still set is flushed, in
      the order of the source. */
  function AtExit(t: Tape, data: string, end: nat): seq<Event>
    requires end <= |data| && forall g :: g in t.marks ==> t.marks[g] <= end
  {
    t.events + FlushAt(t, FieldName, data, end) + FlushAt(t, FieldValue, data, end) + FlushAt(t, Url, data, end) +
    FlushAt(t, Body, data, end) + FlushAt(t, Status, data, end)
  }

  function MarksAt(h: Held, i: nat): map<Field, nat> { if h.Nothing? then map[] else map[h.f := i] }

  /** The marks hold exactly `h`. */
  ghost predicate Holding(t: Tape, h: Held, i: nat) {
    && (h.Nothing? ==> t.marks == map[])
    && (h.Holds? ==> h.f in t.marks && t.marks == map[h.f := t.marks[h.f]] && t.marks[h.f] <= i)
  }

  lemma {:induction false} AtExitHolding(t: Tape, h: Held, data: string, end: nat)
    requires end <= |data| && Holding(t, h, end)
    ensures h.Nothing? ==> AtExit(t, data, end) == t.events
    ensures h.Holds? ==> AtExit(t, data, end) == t.events + [Data(h.f, data[t.marks[h.f]..end])]
  {
    if h.Holds? {
      var m := t.marks[h.f];
      assert forall g :: g in map[h.f := m] <==> g == h.f;
      assert forall g :: g in t.marks <==> g == h.f;
    }
  }

  // ---------- one buffer or many ----------

  /** The same byte `ch`, read at offset `i` of a long buffer with tape `t`, and as a buffer of
      its own with tape `s` after the callbacks `base`: the callbacks made so far agree. */
  ghost predicate Agree(t: Tape, h: Held, data: string, i: nat, s: Tape, k: Held, base: seq<Event>) {
    && i < |data| && Holding(t, h, i) && Holding(s, k, 0) && (k == h || k.Nothing?)
    && Canon(base + AtExit(s, [data[i]], 0)) == Canon(AtExit(t, data, i))
  }

  /** A mark just set has no text behind it. */
  lemma {:induction false} NewMark(f: Field, t: Tape, data: string, i: nat)
    requires i < |data| && Holding(t, Nothing, i)
    ensures var u := Do(SetMark(f), t, data, i);
      Holding(u, Holds(f), i) && AtExit(u, data, i) == t.events + [Data(f, "")]
  {
    var u := Do(SetMark(f), t, data, i);
    AtExitHolding(u, Holds(f), data, i);
    assert data[i..i] == "";
  }

  lemma {:induction false} SetMarkAgrees(f: Field, t: Tape, h: Held, data: string, i: nat, s: Tape, k: Held,
                                         base: seq<Event>)
    requires Agree(t, h, data, i, s, k, base) && (h.Nothing? || h.f == f)
    ensures Agree(Do(SetMark(f), t, data, i), Holds(f), data, i, Do(SetMark(f), s, [data[i]], 0), Holds(f), base)
  {
    AtExitHolding(t, h, data, i);
    AtExitHolding(s, k, [data[i]], 0);
    if k.Nothing? {
      var b := base + s.events;
      NewMark(f, s, [data[i]], 0);
      assert base + (s.events + [Data(f, "")]) == b + [Data(f, "")];
      if h.Nothing? {
        NewMark(f, t, data, i);
        CanonSnoc(b, Data(f, ""));
        CanonSnoc(t.events, Data(f, ""));
      } else {
        EmptyTextAbsorbed(b, t.events, f, data[t.marks[f]..i]);
      }
    }
  }

  lemma {:induction false} FlushAgrees(f: Field, t: Tape, h: Held, data: string, i: nat, s: Tape, k: Held,
                                       base: seq<Event>)
    requires Agree(t, h, data, i, s, k, base) && (h.Nothing? || h.f == f)
    ensures Agree(Do(Flush(f), t, data, i), Nothing, data, i, Do(Flush(f), s, [data[i]], 0), Nothing, base)
  {
    var t', s' := Do(Flush(f), t, data, i), Do(Flush(f), s, [data[i]], 0);
    AtExitHolding(t, h, data, i);
    AtExitHolding(s, k, [data[i]], 0);
    AtExitHolding(t', Nothing, data, i);
    AtExitHolding(s', Nothing, [data[i]], 0);
  }

  lemma {:induction false} FlushInclusiveAgrees(f: Field, t: Tape, data: string, i: nat, s: Tape, base: seq<Event>)
    requires Agree(t, Holds(f), data, i, s, Holds(f), base)
    ensures Agree(Do(FlushInclusive(f), t, data, i), Nothing, data, i,
                  Do(FlushInclusive(f), s, [data[i]], 0), Nothing, base)
  {
    var t', s' := Do(FlushInclusive(f), t, data, i), Do(FlushInclusive(f), s, [data[i]], 0);
    var b := base + s.events;
    AtExitHolding(t, Holds(f), data, i);
    AtExitHolding(s, Holds(f), [data[i]], 0);
    AtExitHolding(t', Nothing, data, i);
    AtExitHolding(s', Nothing, [data[i]], 0);
    var x, c := data[t.marks[f]..i], [data[i]];
    assert data[t.marks[f]..i + 1] == x + c;
    assert c[0..0] == "" && c[0..1] == "" + c;
    assert base + (s.events + [Data(f, "")]) == b + [Data(f, "")];
    assert base + (s.events + [Data(f, "" + c)]) == b + [Data(f, "" + c)];
    JoinBoth(t.events, b, f, x, "", c);
  }

  lemma {:induction false} DoAgrees(op: Op, t: Tape, h: Held, data: string, i: nat, s: Tape, k: Held, base: seq<Event>)
    requires Agree(t, h, data, i, s, k, base) && OpOk(op, h) && OpOk(op, k)
    ensures Agree(Do(op, t, data, i), HeldAfter(op, h), data, i, Do(op, s, [data[i]], 0), HeldAfter(op, k), base)
  {
    match op
    case SetMark(f) => SetMarkAgrees(f, t, h, data, i, s, k, base);
    case Flush(f) => FlushAgrees(f, t, h, data, i, s, k, base);
    case FlushInclusive(f) => FlushInclusiveAgrees(f, t, data, i, s, base);
    case Notify(n) =>
      AtExitHolding(t, h, data, i);
      AtExitHolding(s, k, [data[i]], 0);
      AtExitHolding(Do(op, t, data, i), h, data, i);
      AtExitHolding(Do(op, s, [data[i]], 0), k, [data[i]], 0);
      assert base + (s.events + [Note(n)]) == base + s.events + [Note(n)];
      CanonSnoc(base + s.events, Note(n));
      CanonSnoc(t.events, Note(n));
  }

  /** Traces that agree up to a piece of text still agree when both pieces grow by `c`. */
  lemma {:induction false} JoinBoth(a: seq<Event>, b: seq<Event>, f: Field, x: string, y: string, c: string)
    requires Canon(a + [Data(f, x)]) == Canon(b + [Data(f, y)])
    ensures Canon(a + [Data(f, x + c)]) == Canon(b + [Data(f, y + c)])
  {
    CanonSnoc(a, Data(f, x));
    CanonSnoc(b, Data(f, y));
    CanonSnoc(a, Data(f, x + c));
    CanonSnoc(b, Data(f, y + c));
    EmitJoins(Canon(a), f, x, c);
    EmitJoins(Canon(b), f, y, c);
  }

  lemma {:induction false} DoAllAgree(ops: Ops, t: Tape, h: Held, data: string, i: nat, s: Tape, k: Held,
                                      base: seq<Event>)
    requires Agree(t, h, data, i, s, k, base) && OneMark(ops, h) && OneMark(ops, k)
    ensures Agree(DoAll(ops, t, data, i), HeldAtEnd(ops, h), data, i,
                  DoAll(ops, s, [data[i]], 0), HeldAtEnd(ops, k), base)
    decreases ops
  {
    match ops
    case Done =>
    case Then(op, rest) =>
      DoAgrees(op, t, h, data, i, s, k, base);
      DoAllAgree(rest, Do(op, t, data, i), HeldAfter(op, h), data, i, Do(op, s, [data[i]], 0), HeldAfter(op, k), base);
  }

  /** After the byte the agreement moves on to the next offset. */
  lemma {:induction false} AgreeMovesOn(t: Tape, h: Held, data: string, i: nat, s: Tape, base: seq<Event>)
    requires Agree(t, h, data, i, s, h, base)
    ensures Holding(t, h, i + 1) && Holding(s, h, 1)
    ensures Canon(base + AtExit(s, [data[i]], 1)) == Canon(AtExit(t, data, i + 1))
  {
    AtExitHolding(t, h, data, i);
    AtExitHolding(s, h, [data[i]], 0);
    AtExitHolding(t, h, data, i + 1);
    AtExitHolding(s, h, [data[i]], 1);
    if h.Holds? {
      var f, c := h.f, [data[i]];
      assert data[t.marks[f]..i + 1] == data[t.marks[f]..i] + c;
      assert c[0..0] == "" && c[0..1] == "" + c;
      assert base + (s.events + [Data(f, "")]) == base + s.events + [Data(f, "")];
      assert base + (s.events + [Data(f, "" + c)]) == base + s.events + [Data(f, "" + c)];
      JoinBoth(t.events, base + s.events, f, data[t.marks[f]..i], "", c);
    }
  }
}
