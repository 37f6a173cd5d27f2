/** http_parser_execute on a buffer: the loop with its fast scans, its marks and its deferred
    byte count, proved to follow the one-byte automaton.

    The loop is written over `Code`, the parts of the switch it uses; the laws it needs of
    them are proved of the parser's own switch in module HttpSegments. */
module HttpExecute {
  import opened HttpChars
  import opened HttpParser
  import opened HttpInvariant
  import opened HttpTrace
  import opened HttpRun
  import opened HttpScan

  /** The switch for one byte, and its name and value matchers. */
  datatype Code = Code(sw: Switch, name: Matching, value: Matching)

  predicate ValueChar(ch: char) { ch != CR && ch != LF }

  /** What ends a header name. */
  ghost predicate NameEnds(sw: Switch, max: nat) {
    forall p: Parser, ch: char {:trigger sw(p, ch), InName(p)} :: InName(p) && !IsToken(ch) ==>
      if p.nread + 1 > max || ch != ':' then sw(p, ch).out.Fail?
      else sw(p, ch) == Ask(Count(p, p.nread + 1).(state := HeaderValueDiscardWs), Flush(FieldName))
  }

  /** What ends a header value. */
  ghost predicate ValueEnds(sw: Switch, max: nat) {
    forall p: Parser, ch: char {:trigger sw(p, ch), InValue(p)} :: InValue(p) && !ValueChar(ch) ==>
      if p.nread + 1 > max then sw(p, ch).out.Fail?
      else sw(p, ch) == Ask(Count(p, p.nread + 1).(state := if ch == CR then HeaderAlmostDone else HeaderValueLws),
                            Flush(FieldValue))
  }

  /** The last byte of a body or of a chunk. */
  ghost predicate BodyEnds(sw: Switch) {
    forall p: Parser, ch: char {:trigger sw(p, ch), LastByte(p)} :: LastByte(p) ==>
      var q := p.(contentLength := 0);
      if p.state.ChunkData? then sw(p, ch) == Ask(q.(state := ChunkDataAlmostDone), SetMark(Body))
      else sw(p, ch) == StepMessageDone(q.(state := MessageDone)).After(FlushInclusive(Body)).After(SetMark(Body))
  }

  predicate LastByte(p: Parser) {
    p.contentLength == 1 && (p.state.BodyIdentity? || (p.state.ChunkData? && p.flags.chunked))
  }

  /** The name matcher accepts every token character; in the general state it stays where it is. */
  ghost predicate NameMatches(name: Matching) {
    forall p: Parser, ch: char {:trigger name(p, ch)} :: InName(p) && IsToken(ch) ==>
      name(p, ch).out.Go? && InName(name(p, ch).p) && (p.hstate.General? ==> name(p, ch).p == p)
  }

  /** The value matcher; in the general state it only looks for forbidden characters. */
  ghost predicate ValueMatches(value: Matching) {
    forall p: Parser, ch: char {:trigger value(p, ch)} :: InValue(p) && ValueChar(ch) ==>
      && (value(p, ch).out.Go? ==> InValue(value(p, ch).p))
      && (p.hstate.General? ==> (value(p, ch).out.Go? <==> p.lenient || IsHeaderChar(ch)) &&
                                (value(p, ch).out.Go? ==> value(p, ch).p == p))
  }

  ghost predicate NameScans(c: Code, max: nat) {
    Scans(c.sw, max, FieldName, InName, c.name, IsToken)
  }

  ghost predicate ValueScans(c: Code, max: nat) {
    Scans(c.sw, max, FieldValue, InValue, c.value, ValueChar)
  }

  ghost predicate Lawful(c: Code, max: nat) {
    && KeepsInv(c.sw, max) && TouchesBodyMark(c.sw) && NameScans(c, max) && ValueScans(c, max)
    && NameEnds(c.sw, max) && ValueEnds(c.sw, max) && BodyLaw(c.sw) && BodyEnds(c.sw)
    && NameMatches(c.name) && ValueMatches(c.value)
  }

  // ---------- the two scans ----------

  predicate Tokens(data: string, i: nat, j: nat)
    requires i <= j <= |data|
  {
    forall k :: i <= k < j ==> IsToken(data[k])
  }

  predicate ValueText(data: string, i: nat, j: nat)
    requires i <= j <= |data|
  {
    forall k :: i <= k < j ==> ValueChar(data[k])
  }

  /** No two neighbouring bytes from `i` up to `j` are line breaks. */
  predicate NoPair(data: string, i: nat, j: nat)
    requires i <= j <= |data|
  {
    forall k :: i < k < j ==> ValueChar(data[k - 1]) || ValueChar(data[k])
  }

  lemma {:induction false} TokensNoPair(data: string, i: nat, j: nat)
    requires i <= j <= |data| && Tokens(data, i, j)
    ensures NoPair(data, i, j)
  {}

  /** What follows `i` reaches two line breaks in a row, or its end, before the byte counter can wrap. */
  ghost predicate ShortFrom(data: string, i: nat, max: nat) {
    forall j :: i <= j < |data| && NoPair(data, i, j) ==> j - i + 1 + max < 0x1_0000_0000
  }

  lemma {:induction false} CountFits(data: string, i: nat, j: nat, max: nat)
    requires i <= j <= |data| && i < |data| && ShortFrom(data, i, max) && NoPair(data, i, j)
    ensures j - i + max + (if j < |data| then 1 else 0) < 0x1_0000_0000
  {
    if j == |data| { assert NoPair(data, i, j - 1); }
  }

  /** So it is wherever the parser is in the name or value of a header. */
  ghost predicate ShortLines(p: Parser, data: string, sw: Switch, max: nat) {
    forall i :: 0 <= i < |data| && InHeader(Reach(p, data[..i], sw)) ==> ShortFrom(data, i, max)
  }

  predicate InHeader(r: Place) { r.out.Go? && (r.p.state.HeaderField? || r.p.state.HeaderValue?) }

  /** The line that starts at `i` has more bytes than a header may have. */
  predicate TooLong(data: string, i: nat, max: nat) { i + max < |data| && ValueText(data, i, i + max) }

  /** The matcher has gone over `data[i..j]` and is in `q`. */
  ghost predicate Scanned(step: Matching, p: Parser, data: string, i: nat, j: nat, q: Parser)
    requires i <= j <= |data|
  {
    ScanFold(step, p, data[i..j]).out.Go? && ScanFold(step, p, data[i..j]).p == q
  }

  lemma {:induction false} ScannedSnoc(step: Matching, p: Parser, data: string, i: nat, j: nat, q: Parser)
    requires i <= j < |data| && Scanned(step, p, data, i, j, q)
    ensures step(q, data[j]).out.Go? ==> Scanned(step, p, data, i, j + 1, step(q, data[j]).p)
    ensures !step(q, data[j]).out.Go? ==> !ScanFold(step, p, data[i..j + 1]).out.Go?
  {
    ScanFoldSnoc(step, p, data, i, j);
  }

  /** In the general state: over token characters, at most max_header_size of them. */
  method NameAhead(name: Matching, max: nat, ghost p: Parser, q: Parser, data: string, ghost i: nat, j0: nat)
    returns (j: nat)
    requires NameMatches(name) && InName(q) && q.hstate.General? && i <= j0 < |data|
    requires Tokens(data, i, j0 + 1) && Scanned(name, p, data, i, j0, q)
    ensures j0 <= j < |data| && Tokens(data, i, j + 1) && Scanned(name, p, data, i, j, q)
  {
    j := j0;
    var pe := j + if |data| - j < max then |data| - j else max;
    while j + 1 < pe && IsToken(data[j + 1])
      invariant j0 <= j < |data| && Tokens(data, i, j + 1) && Scanned(name, p, data, i, j, q)
    {
      ScannedSnoc(name, p, data, i, j, q);
      j := j + 1;
    }
  }

  /** The for loop of s_header_field. */
  method ScanName(name: Matching, max: nat, p: Parser, data: string, i: nat) returns (q: Parser, j: nat)
    requires NameMatches(name) && InName(p) && i < |data|
    ensures i <= j <= |data| && (j < |data| ==> !IsToken(data[j]))
    ensures Tokens(data, i, j) && Scanned(name, p, data, i, j, q)
  {
    q, j := p, i;
    assert data[i..i] == "";
    while j < |data| && IsToken(data[j])
      invariant i <= j <= |data| && InName(q) && Tokens(data, i, j) && Scanned(name, p, data, i, j, q)
    {
      if q.hstate.General? {
        j := NameAhead(name, max, p, q, data, i, j);
      }
      ScannedSnoc(name, p, data, i, j, q);
      q, j := name(q, data[j]).p, j + 1;
    }
  }

  /** In the general state: to the end of the line, at most max_header_size bytes. */
  method ValueAhead(value: Matching, max: nat, ghost p: Parser, q: Parser, data: string, ghost i: nat, j0: nat)
    returns (j: nat, ok: bool)
    requires ValueMatches(value) && InValue(q) && q.hstate.General? && i <= j0 < |data|
    requires ValueText(data, i, j0) && Scanned(value, p, data, i, j0, q) && ValueChar(data[j0])
    ensures j0 <= j <= |data| && j <= j0 + max && ValueText(data, i, j)
    ensures if ok then Scanned(value, p, data, i, j, q) && (j == |data| || j == j0 + max || !ValueChar(data[j]))
            else !ScanFold(value, p, data[i..j]).out.Go?
  {
    j, ok := j0, true;
    var pe := j + if |data| - j < max then |data| - j else max;
    while j < pe && ValueChar(data[j])
      invariant j0 <= j <= pe && ValueText(data, i, j) && Scanned(value, p, data, i, j, q)
    {
      ScannedSnoc(value, p, data, i, j, q);
      j := j + 1;
      if !q.lenient && !IsHeaderChar(data[j - 1]) { return j, false; }
    }
  }

  /** The scan is at `j`, having read all up to there, or more than a header may have. */
  ghost predicate ReadTo(value: Matching, max: nat, p: Parser, data: string, i: nat, j: nat, q: Parser)
    requires i <= j <= |data|
  {
    (j - i > max && TooLong(data, i, max)) || (ValueText(data, i, j) && Scanned(value, p, data, i, j, q))
  }

  ghost predicate Refused(value: Matching, max: nat, p: Parser, data: string, i: nat, j: nat)
    requires i <= j <= |data|
  {
    TooLong(data, i, max) || (ValueText(data, i, j) && !ScanFold(value, p, data[i..j]).out.Go?)
  }

  /** Text on one line makes no pair, and neither does the byte behind it. */
  lemma {:induction false} StillNoPair(data: string, i: nat, start: nat, j: nat)
    requires i <= start <= j <= |data| && NoPair(data, i, start) && ValueText(data, start, j)
    requires start < |data| && ValueChar(data[start])
    ensures NoPair(data, i, j) && (j < |data| ==> NoPair(data, i, j + 1))
  {}

  /** In the general state.  Where that loop stops after max_header_size bytes, one byte is stepped over unread; by then
      more bytes have passed than a header may have. */
  method ValueJump(value: Matching, max: nat, ghost p: Parser, q: Parser, data: string, ghost i: nat, start: nat)
    returns (j: nat, ok: bool)
    requires ValueMatches(value) && InValue(q) && q.hstate.General? && i <= start < |data| && ValueChar(data[start])
    requires NoPair(data, i, start) && ReadTo(value, max, p, data, i, start, q)
    ensures start < j <= |data| && NoPair(data, i, j)
    ensures if ok then ReadTo(value, max, p, data, i, j, q) else Refused(value, max, p, data, i, j)
  {
    ghost var long := start - i > max && TooLong(data, i, max);
    ghost var from, begin := if long then q else p, if long then start else i;
    assert data[start..start] == "";
    j, ok := ValueAhead(value, max, from, q, data, begin, start);
    StillNoPair(data, i, start, j);
    if ok && j == start + max && j < |data| { j := j + 1; }
  }

  /** The for loop of s_header_value up to the end of the line or of the buffer. */
  method ScanValue(value: Matching, max: nat, p: Parser, data: string, i: nat) returns (q: Parser, j: nat, ok: bool)
    requires ValueMatches(value) && InValue(p) && i < |data|
    ensures i <= j <= |data| && (ok && j < |data| ==> !ValueChar(data[j])) && NoPair(data, i, j)
    ensures if ok then ReadTo(value, max, p, data, i, j, q) else Refused(value, max, p, data, i, j)
  {
    q, j, ok := p, i, true;
    assert data[i..i] == "";
    while j < |data| && ValueChar(data[j])
      invariant i <= j <= |data| && InValue(q) && NoPair(data, i, j)
      invariant ReadTo(value, max, p, data, i, j, q)
      decreases |data| - j
    {
      if q.hstate.General? {
        j, ok := ValueJump(value, max, p, q, data, i, j);
        if !ok { return; }
      } else {
        ReadByte(value, max, p, data, i, j, q);
        var e := value(q, data[j]);
        j := j + 1;
        if !e.out.Go? { return q, j, false; }
        q := e.p;
      }
    }
  }

  /** One byte more, through the matcher. */
  lemma {:induction false} ReadByte(value: Matching, max: nat, p: Parser, data: string, i: nat, j: nat, q: Parser)
    requires i <= j < |data| && ReadTo(value, max, p, data, i, j, q) && ValueChar(data[j]) && NoPair(data, i, j)
    ensures var e := value(q, data[j]);
      if e.out.Go? then ReadTo(value, max, p, data, i, j + 1, e.p) else Refused(value, max, p, data, i, j + 1)
    ensures NoPair(data, i, j + 1)
  {
    if ValueText(data, i, j) && Scanned(value, p, data, i, j, q) { ScannedSnoc(value, p, data, i, j, q); }
  }

  // ---------- the loop ----------

  /** The 32-bit addition of COUNT_HEADER_SIZE. */
  function Add32(a: nat, b: nat): nat {
    if a + b < 0x1_0000_0000 then a + b else (a + b) % 0x1_0000_0000
  }

  /** Where a call stands: how it goes on, its parser, its tape, and the offset of the next byte. */
  datatype Cursor = Cursor(out: Outcome, p: Parser, t: Tape, i: nat)

  /** The call and the one-byte run agree so far: in step while both go on, the same result when the
      call has exited, and both failed. */
  ghost predicate Agrees(c: Code, max: nat, p0: Parser, data: string, k: Cursor, h: Held) {
    var r := Run(p0, data, c.sw);
    match k.out
    case Go => Tracks(p0, data, c.sw, k.p, k.t, k.i, h).InStep? && Inv(k.p, max) && MayHold(k.p.state, h)
    case Exit => r.out.Exit? && r.p == k.p && r.used == k.i && Canon(r.events) == Canon(k.t.events) &&
      k.t.marks == map[] && Inv(k.p, max)
    case Fail(_) => r.out.Fail?
    case AssertFails => false
  }

  lemma {:induction false} MarksBehind(p0: Parser, data: string, sw: Switch, p: Parser, t: Tape, i: nat, h: Held)
    requires Tracks(p0, data, sw, p, t, i, h).InStep?
    ensures i <= |data| && Holding(t, h, i) && forall g :: g in t.marks ==> t.marks[g] <= i
  {}

  /** One byte through the switch keeps the call and the run together. */
  lemma {:induction false} ByteAgrees(c: Code, max: nat, p0: Parser, data: string, p: Parser, t: Tape, i: nat,
                                      h: Held, e: Eff)
    requires KeepsInv(c.sw, max) && TouchesBodyMark(c.sw) && i < |data| && e == c.sw(p, data[i])
    requires Agrees(c, max, p0, data, Cursor(Go, p, t, i), h) && (i == 0 ==> h == EntryMark(p.state))
    ensures Holding(t, h, i)
    ensures Agrees(c, max, p0, data, Cursor(e.out, e.p, DoAll(e.ops, t, data, i), i + 1), HeldAtEnd(e.ops, h))
  {
    MarksBehind(p0, data, c.sw, p, t, i, h);
    ByteMeets(c, max, p, data[i], i, h, e);
    TracksByte(p0, data, c.sw, p, t, i, h, e);
    if !e.out.Go? { RunStops(p0, data, i + 1, c.sw); }
  }

  /** Both readings of a byte are legal and end with the same mark. */
  lemma {:induction false} ByteMeets(c: Code, max: nat, p: Parser, ch: char, i: nat, h: Held, e: Eff)
    requires KeepsInv(c.sw, max) && TouchesBodyMark(c.sw) && e == c.sw(p, ch)
    requires Inv(p, max) && MayHold(p.state, h) && (i == 0 ==> h == EntryMark(p.state))
    ensures Legal(e, h) && (e.out.Go? || e.out.Exit? ==> Inv(e.p, max) && MarksMeet(e.ops, h, EntryMark(p.state), i))
  {
    assert MayHold(p.state, EntryMark(p.state));
    if e.out.Go? || e.out.Exit? { HeldMeets(e.ops, h, EntryMark(p.state)); }
  }

  /** One byte through the switch, in the states that do not scan. */
  method SwitchCase(c: Code, ghost max: nat, ghost p0: Parser, data: string, p: Parser, t: Tape, i: nat, ghost h: Held)
    returns (k: Cursor, ghost h': Held)
    requires KeepsInv(c.sw, max) && TouchesBodyMark(c.sw) && i < |data|
    requires Agrees(c, max, p0, data, Cursor(Go, p, t, i), h) && (i == 0 ==> h == EntryMark(p.state))
    ensures Agrees(c, max, p0, data, k, h') && (k.out.Go? ==> k.i == i + 1)
  {
    var e := c.sw(p, data[i]);
    MarksBehind(p0, data, c.sw, p, t, i, h);
    ByteAgrees(c, max, p0, data, p, t, i, h, e);
    h' := HeldAtEnd(e.ops, h);
    k := Cursor(e.out, e.p, DoAll(e.ops, t, data, i), i + 1);
  }

  /** A byte that fails in the switch fails the run. */
  lemma {:induction false} ByteFails(p0: Parser, data: string, sw: Switch, p: Parser, t: Tape, i: nat, h: Held)
    requires Tracks(p0, data, sw, p, t, i, h).InStep? && i < |data| && sw(p, data[i]).out.Fail?
    ensures Run(p0, data, sw).out.Fail?
  {
    TracksByte(p0, data, sw, p, t, i, h, sw(p, data[i]));
    RunStops(p0, data, i + 1, sw);
  }

  /** A byte that only ends the text behind mark `f`. */
  lemma {:induction false} ByteFlushes(p0: Parser, data: string, sw: Switch, p: Parser, t: Tape, i: nat, f: Field,
                                       q: Parser)
    requires Tracks(p0, data, sw, p, t, i, Holds(f)).InStep? && i < |data| && EntryMark(p.state) == Holds(f)
    requires sw(p, data[i]) == Ask(q, Flush(f)) && Holding(t, Holds(f), i)
    ensures Tracks(p0, data, sw, q, Do(Flush(f), t, data, i), i + 1, Nothing).InStep?
  {
    FlushAlone(t, data, i, f);
    TracksByte(p0, data, sw, p, t, i, Holds(f), Ask(q, Flush(f)));
  }

  lemma {:induction false} FlushAlone(t: Tape, data: string, i: nat, f: Field)
    requires i < |data| && Holding(t, Holds(f), i)
    ensures var ops := Then(Flush(f), Done);
      DoAll(ops, t, data, i) == Do(Flush(f), t, data, i) && HeldAtEnd(ops, Holds(f)) == Nothing &&
      MarksMeet(ops, Holds(f), Holds(f), i)
  {}

  lemma {:induction false} NameEndIs(sw: Switch, max: nat, p: Parser, ch: char)
    requires NameEnds(sw, max) && InName(p) && !IsToken(ch)
    ensures if p.nread + 1 > max || ch != ':' then sw(p, ch).out.Fail?
            else sw(p, ch) == Ask(Count(p, p.nread + 1).(state := HeaderValueDiscardWs), Flush(FieldName))
    ensures var q := Count(p, p.nread + 1).(state := HeaderValueDiscardWs);
      (p.nread + 1 <= max ==> Inv(q, max)) && MayHold(q.state, Nothing)
  {}

  lemma {:induction false} NameInStep(c: Code, max: nat, p0: Parser, data: string, p: Parser, t: Tape, i: nat,
                                      q: Parser, j: nat)
    requires NameScans(c, max) && InName(p) && p.nread <= max && i <= j <= |data|
    requires Tracks(p0, data, c.sw, p, t, i, Holds(FieldName)).InStep?
    requires Tokens(data, i, j) && Scanned(c.name, p, data, i, j, q)
    ensures InName(q)
    ensures if p.nread + (j - i) > max then Run(p0, data, c.sw).out.Fail?
            else Tracks(p0, data, c.sw, Count(q, p.nread + (j - i)), t, j, Holds(FieldName)).InStep?
  {
    TracksScan(p0, data, c.sw, max, FieldName, InName, c.name, IsToken, p, t, i, j);
    ScanFoldKept(InName, c.name, IsToken, p, data[i..j]);
  }

  lemma {:induction false} NameCounted(p: Parser, n: nat, max: nat)
    requires InName(p) && n <= max
    ensures InName(Count(p, n)) && Inv(Count(p, n), max) && MayHold(p.state, Holds(FieldName)) &&
            EntryMark(p.state) == Holds(FieldName)
  {}

  lemma {:induction false} NameEnded(c: Code, max: nat, p0: Parser, data: string, p: Parser, t: Tape, j: nat)
    requires NameEnds(c.sw, max) && InName(p) && p.nread <= max && j < |data| && !IsToken(data[j])
    requires Tracks(p0, data, c.sw, p, t, j, Holds(FieldName)).InStep?
    ensures Holding(t, Holds(FieldName), j)
    ensures if p.nread + 1 > max || data[j] != ':' then Run(p0, data, c.sw).out.Fail?
            else var q := Count(p, p.nread + 1).(state := HeaderValueDiscardWs);
                 Agrees(c, max, p0, data, Cursor(Go, q, Do(Flush(FieldName), t, data, j), j + 1), Nothing)
  {
    NameEndIs(c.sw, max, p, data[j]);
    NameCounted(p, p.nread, max);
    MarksBehind(p0, data, c.sw, p, t, j, Holds(FieldName));
    if p.nread + 1 > max || data[j] != ':' {
      ByteFails(p0, data, c.sw, p, t, j, Holds(FieldName));
    } else {
      ByteFlushes(p0, data, c.sw, p, t, j, FieldName, Count(p, p.nread + 1).(state := HeaderValueDiscardWs));
    }
  }

  /** The name goes on behind the buffer. */
  lemma {:induction false} NameToEnd(c: Code, max: nat, p0: Parser, data: string, p: Parser, t: Tape, i: nat,
                                     q: Parser, n: nat)
    requires NameScans(c, max) && InName(p) && p.nread <= max && i <= |data| && n == p.nread + (|data| - i)
    requires Tracks(p0, data, c.sw, p, t, i, Holds(FieldName)).InStep?
    requires Tokens(data, i, |data|) && Scanned(c.name, p, data, i, |data|, q)
    ensures if n > max then Run(p0, data, c.sw).out.Fail?
            else Agrees(c, max, p0, data, Cursor(Go, Count(q, n), t, |data|), Holds(FieldName))
  {
    NameInStep(c, max, p0, data, p, t, i, q, |data|);
    if n <= max { NameCounted(q, n, max); }
  }

  /** The name ends at `j`. */
  lemma {:induction false} NameToColon(c: Code, max: nat, p0: Parser, data: string, p: Parser, t: Tape, i: nat,
                                       q: Parser, j: nat, n: nat)
    requires NameScans(c, max) && NameEnds(c.sw, max) && InName(p) && p.nread <= max && i <= j < |data| &&
      n == p.nread + (j - i)
    requires Tracks(p0, data, c.sw, p, t, i, Holds(FieldName)).InStep?
    requires Tokens(data, i, j) && Scanned(c.name, p, data, i, j, q) && !IsToken(data[j])
    ensures forall g :: g in t.marks ==> t.marks[g] <= j
    ensures if n + 1 > max || data[j] != ':' then Run(p0, data, c.sw).out.Fail?
            else Agrees(c, max, p0, data, Cursor(Go, Count(q, n + 1).(state := HeaderValueDiscardWs),
                                                 Do(Flush(FieldName), t, data, j), j + 1), Nothing)
  {
    MarksBehind(p0, data, c.sw, p, t, i, Holds(FieldName));
    NameInStep(c, max, p0, data, p, t, i, q, j);
    if n <= max {
      NameCounted(q, n, max);
      NameEnded(c, max, p0, data, Count(q, n), t, j);
      assert Count(Count(q, n), n + 1) == Count(q, n + 1);
    }
  }

  /** The case s_header_field. */
  method NameCase(c: Code, max: nat, ghost p0: Parser, data: string, p: Parser, t: Tape, i: nat)
    returns (k: Cursor, ghost h': Held)
    requires NameMatches(c.name) && NameScans(c, max) && NameEnds(c.sw, max)
    requires i < |data| && ShortFrom(data, i, max) && InName(p) && p.nread <= max
    requires Tracks(p0, data, c.sw, p, t, i, Holds(FieldName)).InStep?
    ensures Agrees(c, max, p0, data, k, h') && (k.out.Go? ==> k.i > i)
  {
    var nread := Add32(p.nread, 1);
    var q, j := ScanName(c.name, max, p, data, i);
    TokensNoPair(data, i, j);
    CountFits(data, i, j, max);
    if j == |data| {
      nread := Add32(nread, j - 1 - i);
      NameToEnd(c, max, p0, data, p, t, i, q, nread);
      if nread > max { return Cursor(Fail(HeaderOverflow), q, t, i), Nothing; }
      return Cursor(Go, Count(q, nread), t, j), Holds(FieldName);
    }
    nread := Add32(nread, j - i);
    NameToColon(c, max, p0, data, p, t, i, q, j, nread - 1);
    if nread > max { return Cursor(Fail(HeaderOverflow), q, t, i), Nothing; }
    if data[j] != ':' { return Cursor(Fail(InvalidHeaderToken), q, t, i), Nothing; }
    return Cursor(Go, Count(q, nread).(state := HeaderValueDiscardWs), Do(Flush(FieldName), t, data, j), j + 1),
      Nothing;
  }

  lemma {:induction false} ValueEndIs(sw: Switch, max: nat, p: Parser, ch: char)
    requires ValueEnds(sw, max) && InValue(p) && !ValueChar(ch)
    ensures var q := Count(p, p.nread + 1).(state := if ch == CR then HeaderAlmostDone else HeaderValueLws);
      && (if p.nread + 1 > max then sw(p, ch).out.Fail? else sw(p, ch) == Ask(q, Flush(FieldValue)))
      && (p.nread + 1 <= max ==> Inv(q, max)) && MayHold(q.state, Nothing)
  {}

  lemma {:induction false} ValueInStep(c: Code, max: nat, p0: Parser, data: string, p: Parser, t: Tape, i: nat,
                                       q: Parser, j: nat, n: nat)
    requires ValueScans(c, max) && InValue(p) && p.nread <= max && i <= j <= |data| && n == p.nread + (j - i)
    requires Tracks(p0, data, c.sw, p, t, i, Holds(FieldValue)).InStep? && ValueText(data, i, j)
    ensures n > max || !ScanFold(c.value, p, data[i..j]).out.Go? ==> Run(p0, data, c.sw).out.Fail?
    ensures n <= max && Scanned(c.value, p, data, i, j, q) ==>
      InValue(q) && Tracks(p0, data, c.sw, Count(q, n), t, j, Holds(FieldValue)).InStep?
  {
    TracksScan(p0, data, c.sw, max, FieldValue, InValue, c.value, ValueChar, p, t, i, j);
    ScanFoldKept(InValue, c.value, ValueChar, p, data[i..j]);
  }

  lemma {:induction false} ValueTooLong(c: Code, max: nat, p0: Parser, data: string, p: Parser, t: Tape, i: nat)
    requires ValueScans(c, max) && ValueEnds(c.sw, max) && InValue(p) && p.nread <= max && TooLong(data, i, max)
    requires Tracks(p0, data, c.sw, p, t, i, Holds(FieldValue)).InStep?
    ensures Run(p0, data, c.sw).out.Fail?
  {
    var m, n := i + max, p.nread + max;
    var q := ScanFold(c.value, p, data[i..m]).p;
    ValueInStep(c, max, p0, data, p, t, i, q, m, n);
    if n <= max && Scanned(c.value, p, data, i, m, q) {
      ValueCounted(q, n, max);
      ValueFull(c, max, Count(q, n), data[m]);
      ByteFails(p0, data, c.sw, Count(q, n), t, m, Holds(FieldValue));
    }
  }

  /** With max_header_size bytes read, any further byte fails. */
  lemma {:induction false} ValueFull(c: Code, max: nat, p: Parser, ch: char)
    requires ValueScans(c, max) && ValueEnds(c.sw, max) && InValue(p) && p.nread == max
    ensures c.sw(p, ch).out.Fail?
  {
    if ValueChar(ch) { var e := c.value(p, ch); }
  }

  lemma {:induction false} ValueCounted(p: Parser, n: nat, max: nat)
    requires InValue(p) && n <= max
    ensures InValue(Count(p, n)) && Inv(Count(p, n), max) && MayHold(p.state, Holds(FieldValue)) &&
            EntryMark(p.state) == Holds(FieldValue)
  {}

  lemma {:induction false} ValueEnded(c: Code, max: nat, p0: Parser, data: string, p: Parser, t: Tape, j: nat)
    requires ValueEnds(c.sw, max) && InValue(p) && p.nread <= max && j < |data| && !ValueChar(data[j])
    requires Tracks(p0, data, c.sw, p, t, j, Holds(FieldValue)).InStep?
    ensures Holding(t, Holds(FieldValue), j)
    ensures if p.nread + 1 > max then Run(p0, data, c.sw).out.Fail?
            else var q := Count(p, p.nread + 1).(state := if data[j] == CR then HeaderAlmostDone else HeaderValueLws);
                 Agrees(c, max, p0, data, Cursor(Go, q, Do(Flush(FieldValue), t, data, j), j + 1), Nothing)
  {
    ValueEndIs(c.sw, max, p, data[j]);
    ValueCounted(p, p.nread, max);
    MarksBehind(p0, data, c.sw, p, t, j, Holds(FieldValue));
    if p.nread + 1 > max {
      ByteFails(p0, data, c.sw, p, t, j, Holds(FieldValue));
    } else {
      ByteFlushes(p0, data, c.sw, p, t, j, FieldValue,
                  Count(p, p.nread + 1).(state := if data[j] == CR then HeaderAlmostDone else HeaderValueLws));
    }
  }

  /** The value goes on behind the buffer. */
  lemma {:induction false} ValueToEnd(c: Code, max: nat, p0: Parser, data: string, p: Parser, t: Tape, i: nat,
                                      q: Parser, n: nat)
    requires ValueScans(c, max) && ValueEnds(c.sw, max) && InValue(p) && p.nread <= max && i <= |data|
    requires n == p.nread + (|data| - i) && ReadTo(c.value, max, p, data, i, |data|, q)
    requires Tracks(p0, data, c.sw, p, t, i, Holds(FieldValue)).InStep?
    ensures if n > max then Run(p0, data, c.sw).out.Fail?
            else Agrees(c, max, p0, data, Cursor(Go, Count(q, n), t, |data|), Holds(FieldValue))
  {
    if |data| - i > max && TooLong(data, i, max) {
      ValueTooLong(c, max, p0, data, p, t, i);
    } else {
      ValueInStep(c, max, p0, data, p, t, i, q, |data|, n);
      if n <= max { ValueCounted(q, n, max); }
    }
  }

  /** The value ends at `j`. */
  lemma {:induction false} ValueToBreak(c: Code, max: nat, p0: Parser, data: string, p: Parser, t: Tape, i: nat,
                                        q: Parser, j: nat, n: nat, s: State)
    requires ValueScans(c, max) && ValueEnds(c.sw, max) && InValue(p) && p.nread <= max && i <= j < |data|
    requires n == p.nread + (j - i) && s == if data[j] == CR then HeaderAlmostDone else HeaderValueLws
    requires Tracks(p0, data, c.sw, p, t, i, Holds(FieldValue)).InStep?
    requires ReadTo(c.value, max, p, data, i, j, q) && !ValueChar(data[j])
    ensures forall g :: g in t.marks ==> t.marks[g] <= j
    ensures if n + 1 > max then Run(p0, data, c.sw).out.Fail?
            else Agrees(c, max, p0, data,
              Cursor(Go, Count(q, n + 1).(state := s), Do(Flush(FieldValue), t, data, j), j + 1), Nothing)
  {
    MarksBehind(p0, data, c.sw, p, t, i, Holds(FieldValue));
    if j - i > max && TooLong(data, i, max) {
      ValueTooLong(c, max, p0, data, p, t, i);
      return;
    }
    ValueInStep(c, max, p0, data, p, t, i, q, j, n);
    if n <= max {
      ValueCounted(q, n, max);
      ValueEnded(c, max, p0, data, Count(q, n), t, j);
      assert Count(Count(q, n), n + 1) == Count(q, n + 1);
    }
  }

  lemma {:induction false} ValueFails(c: Code, max: nat, p0: Parser, data: string, p: Parser, t: Tape, i: nat, j: nat)
    requires ValueScans(c, max) && ValueEnds(c.sw, max) && InValue(p) && p.nread <= max && i <= j <= |data|
    requires Tracks(p0, data, c.sw, p, t, i, Holds(FieldValue)).InStep?
    requires Refused(c.value, max, p, data, i, j)
    ensures Run(p0, data, c.sw).out.Fail?
  {
    if TooLong(data, i, max) {
      ValueTooLong(c, max, p0, data, p, t, i);
    } else {
      ValueInStep(c, max, p0, data, p, t, i, p, j, p.nread + (j - i));
    }
  }

  /** The counting behind the scan of s_header_value, at the end of the buffer. */
  method ValueAtEnd(c: Code, max: nat, ghost p0: Parser, data: string, p: Parser, t: Tape, i: nat, q: Parser)
    returns (k: Cursor, ghost h': Held)
    requires ValueScans(c, max) && ValueEnds(c.sw, max) && i < |data| && InValue(p) && p.nread <= max
    requires ReadTo(c.value, max, p, data, i, |data|, q) && |data| - i + max < 0x1_0000_0000
    requires Tracks(p0, data, c.sw, p, t, i, Holds(FieldValue)).InStep?
    ensures Agrees(c, max, p0, data, k, h') && (k.out.Go? ==> k.i > i)
  {
    var nread := Add32(Add32(p.nread, 1), |data| - 1 - i);
    ValueToEnd(c, max, p0, data, p, t, i, q, nread);
    if nread > max { return Cursor(Fail(HeaderOverflow), q, t, i), Nothing; }
    return Cursor(Go, Count(q, nread), t, |data|), Holds(FieldValue);
  }

  /** The same at a line break. */
  method ValueAtBreak(c: Code, max: nat, ghost p0: Parser, data: string, p: Parser, t: Tape, i: nat, q: Parser, j: nat)
    returns (k: Cursor, ghost h': Held)
    requires ValueScans(c, max) && ValueEnds(c.sw, max) && i <= j < |data| && InValue(p) && p.nread <= max
    requires ReadTo(c.value, max, p, data, i, j, q) && !ValueChar(data[j]) && j - i + max + 1 < 0x1_0000_0000
    requires Tracks(p0, data, c.sw, p, t, i, Holds(FieldValue)).InStep?
    ensures Agrees(c, max, p0, data, k, h') && (k.out.Go? ==> k.i > i)
  {
    var nread := Add32(Add32(p.nread, 1), j - i);
    var s := if data[j] == CR then HeaderAlmostDone else HeaderValueLws;
    ValueToBreak(c, max, p0, data, p, t, i, q, j, nread - 1, s);
    if nread > max { return Cursor(Fail(HeaderOverflow), q, t, i), Nothing; }
    return Cursor(Go, Count(q, nread).(state := s), Do(Flush(FieldValue), t, data, j), j + 1), Nothing;
  }

  /** The case s_header_value. */
  method ValueCase(c: Code, max: nat, ghost p0: Parser, data: string, p: Parser, t: Tape, i: nat)
    returns (k: Cursor, ghost h': Held)
    requires ValueMatches(c.value) && ValueScans(c, max) && ValueEnds(c.sw, max)
    requires i < |data| && ShortFrom(data, i, max) && InValue(p) && p.nread <= max
    requires Tracks(p0, data, c.sw, p, t, i, Holds(FieldValue)).InStep?
    ensures Agrees(c, max, p0, data, k, h') && (k.out.Go? ==> k.i > i)
  {
    var q, j, ok := ScanValue(c.value, max, p, data, i);
    if !ok {
      ValueFails(c, max, p0, data, p, t, i, j);
      return Cursor(Fail(InvalidHeaderToken), q, t, i), Nothing;
    }
    CountFits(data, i, j, max);
    if j == |data| {
      k, h' := ValueAtEnd(c, max, p0, data, p, t, i, q);
    } else {
      k, h' := ValueAtBreak(c, max, p0, data, p, t, i, q, j);
    }
  }

  lemma {:induction false} BodyStays(p: Parser, n: nat, h: Held, max: nat)
    requires Inv(p, max) && MayHold(p.state, h)
    requires p.state.BodyIdentityEof? || ((p.state.BodyIdentity? || p.state.ChunkData?) && n < p.contentLength)
    ensures Remains(p, n) && Inv(BodyAfter(p, n), max) && MayHold(p.state, Holds(Body)) &&
      (h.Nothing? || h == Holds(Body))
    ensures BodyAfter(p, n).state == p.state && EntryMark(p.state).Nothing?
  {}

  lemma {:induction false} BodyToCome(p: Parser, max: nat)
    requires Inv(p, max) && (p.state.BodyIdentity? || p.state.ChunkData?)
    ensures 0 < p.contentLength < ULLONG_MAX
  {}

  lemma {:induction false} BodyInStep(c: Code, max: nat, p0: Parser, data: string, p: Parser, t: Tape, i: nat, j: nat,
                                      h: Held, n: nat, q: Parser)
    requires BodyLaw(c.sw) && Agrees(c, max, p0, data, Cursor(Go, p, t, i), h) && (i == 0 ==> h.Nothing?)
    requires p.state.BodyIdentityEof? || ((p.state.BodyIdentity? || p.state.ChunkData?) && n < p.contentLength)
    requires i < j <= |data| && n == j - i && q == BodyAfter(p, n)
    ensures Holding(t, h, i)
    ensures Agrees(c, max, p0, data, Cursor(Go, q, Do(SetMark(Body), t, data, i), j), Holds(Body))
  {
    MarksBehind(p0, data, c.sw, p, t, i, h);
    BodyStays(p, n, h, max);
    TracksBody(p0, data, c.sw, p, t, i, j, h);
  }

  /** The cases s_body_identity and s_chunk_data. */
  method BodyCase(c: Code, ghost max: nat, ghost p0: Parser, data: string, p: Parser, t: Tape, i: nat, ghost h: Held)
    returns (k: Cursor, ghost h': Held)
    requires KeepsInv(c.sw, max) && TouchesBodyMark(c.sw) && BodyLaw(c.sw) && BodyEnds(c.sw) && i < |data|
    requires p.state.BodyIdentity? || p.state.ChunkData?
    requires Agrees(c, max, p0, data, Cursor(Go, p, t, i), h) && (i == 0 ==> h.Nothing?)
    ensures Agrees(c, max, p0, data, k, h') && (k.out.Go? ==> k.i > i)
  {
    MarksBehind(p0, data, c.sw, p, t, i, h);
    BodyToCome(p, max);
    var toRead := if p.contentLength < |data| - i then p.contentLength else |data| - i;
    var q := p.(contentLength := p.contentLength - toRead);
    var last := i + toRead - 1;
    var u := Do(SetMark(Body), t, data, i);
    if q.contentLength > 0 {
      assert toRead == |data| - i && toRead < p.contentLength && q == BodyAfter(p, toRead);
      BodyInStep(c, max, p0, data, p, t, i, |data|, h, toRead, q);
      return Cursor(Go, q, u, |data|), Holds(Body);
    }
    assert p.contentLength == last - i + 1 && q == p.(contentLength := 0);
    BodyFinishes(c, max, p0, data, p, t, i, h, last, q, u);
    if p.state.ChunkData? {
      return Cursor(Go, q.(state := ChunkDataAlmostDone), u, last + 1), Holds(Body);
    }
    var e := StepMessageDone(q.(state := MessageDone));
    u := DoAll(e.ops, Do(FlushInclusive(Body), u, data, last), data, last);
    return Cursor(e.out, e.p, u, last + 1), Nothing;
  }

  /** All the bytes that a body or chunk still has are in the buffer, the last of them at `last`. */
  lemma {:induction false} BodyFinishes(c: Code, max: nat, p0: Parser, data: string, p: Parser, t: Tape, i: nat,
                                        h: Held, last: nat, q: Parser, u: Tape)
    requires KeepsInv(c.sw, max) && TouchesBodyMark(c.sw) && BodyLaw(c.sw) && BodyEnds(c.sw)
    requires p.state.BodyIdentity? || p.state.ChunkData?
    requires Agrees(c, max, p0, data, Cursor(Go, p, t, i), h) && (i == 0 ==> h.Nothing?)
    requires i <= last < |data| && p.contentLength == last - i + 1 && q == p.(contentLength := 0)
    requires (forall g :: g in t.marks ==> t.marks[g] <= i) && u == Do(SetMark(Body), t, data, i)
    ensures forall g :: g in u.marks ==> u.marks[g] <= last
    ensures if p.state.ChunkData? then
              Agrees(c, max, p0, data, Cursor(Go, q.(state := ChunkDataAlmostDone), u, last + 1), Holds(Body))
            else
              var e := StepMessageDone(q.(state := MessageDone));
              var v := DoAll(e.ops, Do(FlushInclusive(Body), u, data, last), data, last);
              Agrees(c, max, p0, data, Cursor(e.out, e.p, v, last + 1), Nothing)
  {
    BodyStays(p, 0, h, max);
    if last == i {
      BodyEndInStep(c, max, p0, data, p, t, last, h, u);
    } else {
      var n, r := last - i, p.(contentLength := 1);
      BodyInStep(c, max, p0, data, p, t, i, last, h, n, r);
      MarksBehind(p0, data, c.sw, r, u, last, Holds(Body));
      MarkIsSet(u, data, last);
      BodyEndInStep(c, max, p0, data, r, u, last, Holds(Body), u);
    }
  }

  lemma {:induction false} BodyEndInStep(c: Code, max: nat, p0: Parser, data: string, p: Parser, t: Tape, i: nat,
                                         h: Held, u: Tape)
    requires KeepsInv(c.sw, max) && TouchesBodyMark(c.sw) && BodyEnds(c.sw) && i < |data|
    requires p.contentLength == 1 && (p.state.BodyIdentity? || p.state.ChunkData?)
    requires Agrees(c, max, p0, data, Cursor(Go, p, t, i), h) && (i == 0 ==> h.Nothing?)
    requires (forall g :: g in t.marks ==> t.marks[g] <= i) && u == Do(SetMark(Body), t, data, i)
    ensures var q := p.(contentLength := 0);
      if p.state.ChunkData? then
        Agrees(c, max, p0, data, Cursor(Go, q.(state := ChunkDataAlmostDone), u, i + 1), Holds(Body))
      else
        var e := StepMessageDone(q.(state := MessageDone));
        var v := DoAll(e.ops, Do(FlushInclusive(Body), u, data, i), data, i);
        Agrees(c, max, p0, data, Cursor(e.out, e.p, v, i + 1), Nothing)
  {
    BodyStays(p, 0, h, max);
    MarksBehind(p0, data, c.sw, p, t, i, h);
    ByteAgrees(c, max, p0, data, p, t, i, h, c.sw(p, data[i]));
    BodyEndIs(c.sw, max, p, data[i], t, data, i, h, u);
  }

  lemma {:induction false} BodyEndIs(sw: Switch, max: nat, p: Parser, ch: char, t: Tape, data: string, i: nat,
                                     h: Held, u: Tape)
    requires BodyEnds(sw) && Inv(p, max) && p.contentLength == 1 && (p.state.BodyIdentity? || p.state.ChunkData?)
    requires i < |data| && Holding(t, h, i) && u == Do(SetMark(Body), t, data, i) && (h.Nothing? || h == Holds(Body))
    ensures var q := p.(contentLength := 0);
      var e := sw(p, ch);
      if p.state.ChunkData? then
        e.out.Go? && e.p == q.(state := ChunkDataAlmostDone) && DoAll(e.ops, t, data, i) == u &&
          HeldAtEnd(e.ops, h) == Holds(Body)
      else
        var f := StepMessageDone(q.(state := MessageDone));
        && e.out == f.out && e.p == f.p && HeldAtEnd(e.ops, h) == Nothing
        && DoAll(e.ops, t, data, i) == DoAll(f.ops, Do(FlushInclusive(Body), u, data, i), data, i)
  {
    assert LastByte(p);
    var f := StepMessageDone(p.(contentLength := 0, state := MessageDone));
    CompleteKept(p.(contentLength := 0, state := MessageDone));
    var ops := Then(SetMark(Body), Then(FlushInclusive(Body), f.ops));
    assert DoAll(ops, t, data, i) == DoAll(ops.rest, u, data, i);
    assert HeldAtEnd(ops, h) == HeldAtEnd(ops.rest, Holds(Body)) == HeldAtEnd(f.ops, Nothing);
  }

  /** The case s_body_identity_eof. */
  method EofCase(c: Code, ghost max: nat, ghost p0: Parser, data: string, p: Parser, t: Tape, i: nat, ghost h: Held)
    returns (k: Cursor, ghost h': Held)
    requires BodyLaw(c.sw) && i < |data| && p.state.BodyIdentityEof?
    requires Agrees(c, max, p0, data, Cursor(Go, p, t, i), h) && (i == 0 ==> h.Nothing?)
    ensures Agrees(c, max, p0, data, k, h') && (k.out.Go? ==> k.i > i)
  {
    BodyInStep(c, max, p0, data, p, t, i, |data|, h, |data| - i, p);
    k, h' := Cursor(Go, p, Do(SetMark(Body), t, data, i), |data|), Holds(Body);
  }

  lemma {:induction false} PhaseOfState(p: Parser, max: nat, h: Held)
    requires Inv(p, max) && MayHold(p.state, h)
    ensures p.state.HeaderField? ==> InName(p) && h == Holds(FieldName)
    ensures p.state.HeaderValue? ==> InValue(p) && h == Holds(FieldValue)
  {}

  lemma {:induction false} ShortHere(p0: Parser, data: string, sw: Switch, p: Parser, t: Tape, i: nat, h: Held,
                                     max: nat)
    requires ShortLines(p0, data, sw, max) && i < |data| && Tracks(p0, data, sw, p, t, i, h).InStep?
    ensures p.state.HeaderField? || p.state.HeaderValue? ==> ShortFrom(data, i, max)
  {
    RunReaches(p0, data[..i], sw);
    var r := Reach(p0, data[..i], sw);
    assert r.out.Go? && r.p == p;
  }

  /** The states that scan a header line. */
  method LineCase(c: Code, max: nat, ghost p0: Parser, data: string, k0: Cursor, ghost h0: Held)
    returns (k: Cursor, ghost h: Held)
    requires Lawful(c, max) && ShortLines(p0, data, c.sw, max) && k0.out.Go? && k0.i < |data|
    requires k0.p.state.HeaderField? || k0.p.state.HeaderValue?
    requires Agrees(c, max, p0, data, k0, h0)
    ensures Agrees(c, max, p0, data, k, h) && (k.out.Go? ==> k.i > k0.i)
  {
    PhaseOfState(k0.p, max, h0);
    ShortHere(p0, data, c.sw, k0.p, k0.t, k0.i, h0, max);
    if k0.p.state.HeaderField? {
      k, h := NameCase(c, max, p0, data, k0.p, k0.t, k0.i);
    } else {
      k, h := ValueCase(c, max, p0, data, k0.p, k0.t, k0.i);
    }
  }

  /** The body of the loop. */
  method LoopBody(c: Code, max: nat, ghost p0: Parser, data: string, k0: Cursor, ghost h0: Held)
    returns (k: Cursor, ghost h: Held)
    requires Lawful(c, max) && ShortLines(p0, data, c.sw, max) && k0.out.Go? && k0.i < |data|
    requires Agrees(c, max, p0, data, k0, h0) && (k0.i == 0 ==> h0 == EntryMark(k0.p.state))
    ensures Agrees(c, max, p0, data, k, h) && (k.out.Go? ==> k.i > k0.i)
  {
    var s := k0.p.state;
    if s.HeaderField? || s.HeaderValue? {
      k, h := LineCase(c, max, p0, data, k0, h0);
    } else if s.BodyIdentity? || s.ChunkData? {
      k, h := BodyCase(c, max, p0, data, k0.p, k0.t, k0.i, h0);
    } else if s.BodyIdentityEof? {
      k, h := EofCase(c, max, p0, data, k0.p, k0.t, k0.i, h0);
    } else {
      k, h := SwitchCase(c, max, p0, data, k0.p, k0.t, k0.i, h0);
    }
  }

  /** What a call on `data` from `p` owes to the one-byte run: the same outcome, parser, byte count
      and callbacks, up to the cutting of text; and it fails exactly when the run fails. */
  ghost predicate Refines(r: Result, run: Result, max: nat) {
    && !r.out.AssertFails? && (r.out.Go? <==> run.out.Go?) && (r.out.Exit? <==> run.out.Exit?)
    && (r.out.Go? || r.out.Exit? ==>
          r.p == run.p && r.used == run.used && Canon(r.events) == Canon(run.events) && Inv(r.p, max))
  }

  lemma {:induction false} LoopEnds(c: Code, max: nat, p0: Parser, data: string, k: Cursor, h: Held)
    requires Agrees(c, max, p0, data, k, h) && data != "" && (k.out.Go? ==> k.i == |data|)
    ensures !k.out.Go? ==> Refines(Result(k.p, k.t.events, k.i, k.out), Run(p0, data, c.sw), max)
    ensures k.out.Go? ==>
      && (forall g :: g in k.t.marks ==> k.t.marks[g] <= |data|) && |k.t.marks| <= 1
      && Refines(Result(k.p, AtExit(k.t, data, |data|), |data|, Go), Run(p0, data, c.sw), max)
  {
    if k.out.Go? {
      MarksBehind(p0, data, c.sw, k.p, k.t, k.i, h);
      assert data[..|data|] == data;
    }
  }

  /** http_parser_execute on a non-empty buffer. */
  method Execute(c: Code, max: nat, p0: Parser, data: string) returns (r: Result)
    requires Lawful(c, max) && Inv(p0, max) && data != "" && ShortLines(p0, data, c.sw, max)
    ensures Refines(r, Run(p0, data, c.sw), max)
  {
    var k := Cursor(Go, p0, EntryTape(EntryMark(p0.state)), 0);
    ghost var h := EntryMark(p0.state);
    TracksAtEntry(p0, data, c.sw);
    while k.out.Go? && k.i < |data|
      invariant k.out.Go? ==> k.i <= |data|
      invariant Agrees(c, max, p0, data, k, h) && (k.out.Go? && k.i == 0 ==> h == EntryMark(k.p.state))
      decreases k.out.Go?, |data| - k.i
    {
      k, h := LoopBody(c, max, p0, data, k, h);
      if k.out.Go? { MarksBehind(p0, data, c.sw, k.p, k.t, k.i, h); }
    }
    LoopEnds(c, max, p0, data, k, h);
    if !k.out.Go? { return Result(k.p, k.t.events, k.i, k.out); }
    assert |k.t.marks| <= 1;
    return Result(k.p, AtExit(k.t, data, |data|), |data|, Go);
  }
}
