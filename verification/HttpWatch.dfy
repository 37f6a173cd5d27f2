/** A reader of the callbacks, who knows only what the callbacks say, and keeps count of the body.

    `Watch` is where such a reader stands: outside a message, in its head, in a body of which
    a known number of bytes is left, and so on.  `Wrong` is reached when a callback comes that
    does not fit.  Module HttpBody shows that the parser never brings the reader there. */
module HttpWatch {
  import opened HttpParser
  import opened HttpInvariant
  import opened HttpTrace
  import opened HttpRun

  datatype Watch =
    | Idle
    | Head
    | Fixed(left: nat)
    | UntilEof
    | Chunks
    | Chunk(left: nat)
    | Trailer
    | Wrong

  /** The body that the headers announce.  A message may not be framed both ways. */
  function Framing(n: Notice): Watch
    requires n.HeadersComplete?
  {
    var noBody := !n.chunked && (n.length == 0 || n.length == ULLONG_MAX);
    if n.answer < 0 || n.answer > 2 || (n.chunked && n.length != ULLONG_MAX) then Wrong
    else if n.answer != 0 || (n.upgrade && (n.connect || noBody)) then Fixed(0)
    else if n.chunked then Chunks
    else if n.length != ULLONG_MAX then Fixed(n.length)
    else if n.untilEof then UntilEof
    else Fixed(0)
  }

  /** `n` bytes of text for field `f`. */
  function Saw(w: Watch, f: Field, n: nat): Watch {
    if f.Body? then
      match w
      case Fixed(left) => if n <= left then Fixed(left - n) else Wrong
      case Chunk(left) => if n <= left then Chunk(left - n) else Wrong
      case UntilEof => UntilEof
      case _ => Wrong
    else if w.Head? || w.Trailer? then w
    else Wrong
  }

  function Told(w: Watch, n: Notice): Watch {
    match n
    case MessageBegin => if w.Idle? then Head else Wrong
    case HeadersComplete(_, _, _, _, _, _) => if w.Head? then Framing(n) else Wrong
    case ChunkHeader(size) => if w.Chunks? then (if size == 0 then Trailer else Chunk(size)) else Wrong
    case ChunkComplete => if w == Chunk(0) then Chunks else if w.Trailer? then Fixed(0) else Wrong
    case MessageComplete => if w == Fixed(0) then Idle else Wrong
  }

  function See(w: Watch, e: Event): Watch { if e.Data? then Saw(w, e.f, |e.text|) else Told(w, e.n) }

  function SeeAll(w: Watch, es: seq<Event>): Watch {
    if es == [] then w else See(SeeAll(w, es[..|es| - 1]), es[|es| - 1])
  }

  /** The body text that was reported. */
  function BodyText(es: seq<Event>): string {
    if es == [] then "" else BodyText(es[..|es| - 1]) + BodyPiece(es[|es| - 1])
  }

  function BodyPiece(e: Event): string { if e.Data? && e.f.Body? then e.text else "" }

  lemma {:induction false} SeeAllConcat(w: Watch, a: seq<Event>, b: seq<Event>)
    ensures SeeAll(w, a + b) == SeeAll(SeeAll(w, a), b) && BodyText(a + b) == BodyText(a) + BodyText(b)
  {
    if b == [] {
      assert a + b == a;
    } else {
      var c, x := b[..|b| - 1], BodyPiece(b[|b| - 1]);
      SeeAllConcat(w, a, c);
      assert BodyText(a) + BodyText(c) + x == BodyText(a) + (BodyText(c) + x);
      assert (a + b)[..|a + b| - 1] == a + c;
    }
  }

  lemma {:induction false} SeeAllSnoc(w: Watch, a: seq<Event>, e: Event)
    ensures SeeAll(w, a + [e]) == See(SeeAll(w, a), e)
    ensures BodyText(a + [e]) == BodyText(a) + BodyPiece(e)
  {
    assert (a + [e])[..|a + [e]| - 1] == a;
  }

  /** Where text is cut makes no difference to the reader. */
  lemma {:induction false} SawTwice(w: Watch, f: Field, a: nat, b: nat)
    ensures Saw(Saw(w, f, a), f, b) == Saw(w, f, a + b)
  {}

  lemma {:induction false} PieceJoins(b: string, l: Event, e: Event, j: Event)
    requires l.Data? && e.Data? && l.f == e.f && j == Data(e.f, l.text + e.text)
    ensures b + BodyPiece(j) == b + BodyPiece(l) + BodyPiece(e)
  {
    assert b + (l.text + e.text) == b + l.text + e.text;
  }

  /** The last event `l` and the next one `e` joined to `j`. */
  lemma {:induction false} JoinSeen(w: Watch, u: seq<Event>, l: Event, e: Event, j: Event)
    requires l.Data? && e.Data? && l.f == e.f && j == Data(e.f, l.text + e.text)
    ensures SeeAll(w, u + [j]) == See(SeeAll(w, u + [l]), e)
    ensures BodyText(u + [j]) == BodyText(u + [l]) + BodyPiece(e)
  {
    SeeAllSnoc(w, u, j);
    SeeAllSnoc(w, u, l);
    PieceJoins(BodyText(u), l, e, j);
    SeenJoined(SeeAll(w, u), l, e, j);
  }

  lemma {:induction false} SeenJoined(v: Watch, l: Event, e: Event, j: Event)
    requires l.Data? && e.Data? && l.f == e.f && j == Data(e.f, l.text + e.text)
    ensures See(v, j) == See(See(v, l), e)
  {
    SawTwice(v, e.f, |l.text|, |e.text|);
  }

  lemma {:induction false} EmitSeen(w: Watch, t: seq<Event>, e: Event)
    ensures SeeAll(w, Emit(t, e)) == See(SeeAll(w, t), e)
    ensures BodyText(Emit(t, e)) == BodyText(t) + BodyPiece(e)
  {
    if |t| > 0 && e.Data? && t[|t| - 1].Data? && t[|t| - 1].f == e.f {
      var l, u := t[|t| - 1], t[..|t| - 1];
      assert t == u + [l];
      JoinSeen(w, u, l, e, Data(e.f, l.text + e.text));
    } else {
      SeeAllSnoc(w, t, e);
    }
  }

  lemma {:induction false} CanonSeen(w: Watch, es: seq<Event>)
    ensures SeeAll(w, Canon(es)) == SeeAll(w, es) && BodyText(Canon(es)) == BodyText(es)
  {
    if es != [] {
      CanonSeen(w, es[..|es| - 1]);
      EmitSeen(w, Canon(es[..|es| - 1]), es[|es| - 1]);
    }
  }

  lemma {:induction false} SameCanonSeen(w: Watch, a: seq<Event>, b: seq<Event>)
    requires Canon(a) == Canon(b)
    ensures SeeAll(w, a) == SeeAll(w, b) && BodyText(a) == BodyText(b)
  {
    CanonSeen(w, a);
    CanonSeen(w, b);
  }

  // ---------- one byte, from its requests ----------

  /** What the reader sees of one request, made with mark `h`. */
  function SeeOp(w: Watch, op: Op, h: Held): Watch {
    match op
    case SetMark(_) => w
    case Flush(_) => if h.Holds? then Saw(w, h.f, 0) else w
    case FlushInclusive(f) => Saw(w, f, 1)
    case Notify(n) => Told(w, n)
  }

  /** What the reader sees of one byte; a mark is flushed at the end of the one-byte buffer if the
      call goes on. */
  function SeeOps(w: Watch, ops: Ops, h: Held, go: bool): Watch
    decreases ops
  {
    match ops
    case Done => if go && h.Holds? then Saw(w, h.f, 1) else w
    case Then(op, rest) => SeeOps(SeeOp(w, op, h), rest, HeldAfter(op, h), go)
  }

  function BodyOp(op: Op): nat { if op == FlushInclusive(Body) then 1 else 0 }

  /** How often that byte is reported as body text. */
  function BodyOps(ops: Ops, h: Held, go: bool): nat
    decreases ops
  {
    match ops
    case Done => if go && h == Holds(Body) then 1 else 0
    case Then(op, rest) => BodyOp(op) + BodyOps(rest, HeldAfter(op, h), go)
  }

  function Copies(ch: char, n: nat): string { if n == 0 then "" else [ch] + Copies(ch, n - 1) }

  function TapeEnd(t: Tape, ch: char, go: bool): seq<Event>
    requires forall g :: g in t.marks ==> t.marks[g] <= 0
  {
    if go then AtExit(t, [ch], 1) else t.events
  }

  lemma {:induction false} TapeEndSeen(w0: Watch, t: Tape, h: Held, ch: char, go: bool)
    requires Holding(t, h, 0)
    ensures SeeAll(w0, TapeEnd(t, ch, go)) == SeeOps(SeeAll(w0, t.events), Done, h, go)
    ensures BodyText(TapeEnd(t, ch, go)) == BodyText(t.events) + Copies(ch, BodyOps(Done, h, go))
  {
    AtExitHolding(t, h, [ch], 1);
    assert Copies(ch, 1) == [ch] + Copies(ch, 0) == [ch];
    if h.Holds? {
      assert [ch][0..1] == [ch];
      SeeAllSnoc(w0, t.events, Data(h.f, [ch]));
    }
  }

  lemma {:induction false} OpSeen(w0: Watch, op: Op, t: Tape, h: Held, ch: char)
    requires Holding(t, h, 0) && OpOk(op, h)
    ensures var t' := Do(op, t, [ch], 0);
      && Holding(t', HeldAfter(op, h), 0)
      && SeeAll(w0, t'.events) == SeeOp(SeeAll(w0, t.events), op, h)
      && BodyText(t'.events) == BodyText(t.events) + Copies(ch, BodyOp(op))
  {
    assert [ch][0..0] == "" && [ch][0..1] == [ch];
    match op
    case SetMark(f) =>
    case Flush(f) => if h.Holds? { SeeAllSnoc(w0, t.events, Data(f, "")); }
    case FlushInclusive(f) =>
      SeeAllSnoc(w0, t.events, Data(f, [ch]));
      assert Copies(ch, 1) == [ch] + Copies(ch, 0) == [ch];
    case Notify(n) => SeeAllSnoc(w0, t.events, Note(n));
  }

  lemma {:induction false} CopiesSum(ch: char, m: nat, n: nat)
    ensures Copies(ch, m + n) == Copies(ch, m) + Copies(ch, n)
  {
    if m > 0 { CopiesSum(ch, m - 1, n); }
  }

  lemma {:induction false} MoreCopies(b: string, ch: char, m: nat, n: nat, k: nat)
    requires k == m + n
    ensures b + Copies(ch, k) == b + Copies(ch, m) + Copies(ch, n)
  {
    CopiesSum(ch, m, n);
    assert b + (Copies(ch, m) + Copies(ch, n)) == b + Copies(ch, m) + Copies(ch, n);
  }

  lemma {:induction false} OpsSeen(w0: Watch, ops: Ops, t: Tape, h: Held, ch: char, go: bool)
    requires Holding(t, h, 0) && OneMark(ops, h)
    ensures SeeAll(w0, TapeEnd(DoAll(ops, t, [ch], 0), ch, go)) == SeeOps(SeeAll(w0, t.events), ops, h, go)
    decreases ops
  {
    match ops
    case Done => TapeEndSeen(w0, t, h, ch, go);
    case Then(op, rest) =>
      OpSeen(w0, op, t, h, ch);
      OpsSeen(w0, rest, Do(op, t, [ch], 0), HeldAfter(op, h), ch, go);
  }

  lemma {:induction false} OpsText(ops: Ops, t: Tape, h: Held, ch: char, go: bool, b: string)
    requires Holding(t, h, 0) && OneMark(ops, h) && b == BodyText(t.events)
    ensures BodyText(TapeEnd(DoAll(ops, t, [ch], 0), ch, go)) == b + Copies(ch, BodyOps(ops, h, go))
    decreases ops
  {
    match ops
    case Done => TapeEndSeen(Idle, t, h, ch, go);
    case Then(op, rest) =>
      var m, n := BodyOp(op), BodyOps(rest, HeldAfter(op, h), go);
      OpSeen(Idle, op, t, h, ch);
      OpsText(rest, Do(op, t, [ch], 0), HeldAfter(op, h), ch, go, b + Copies(ch, m));
      MoreCopies(b, ch, m, n, BodyOps(ops, h, go));
  }

  lemma {:induction false} ByteSeen(w: Watch, s: State, e: Eff, ch: char)
    requires OneMark(e.ops, EntryMark(s))
    ensures SeeAll(w, ByteEvents(s, e, ch)) == SeeOps(w, e.ops, EntryMark(s), e.out.Go?)
    ensures BodyText(ByteEvents(s, e, ch)) == Copies(ch, BodyOps(e.ops, EntryMark(s), e.out.Go?))
  {
    var t := EntryTape(EntryMark(s));
    OpsSeen(w, e.ops, t, EntryMark(s), ch, e.out.Go?);
    OpsText(e.ops, t, EntryMark(s), ch, e.out.Go?, "");
    assert SeeAll(w, t.events) == w && BodyText(t.events) == "";
  }
}
