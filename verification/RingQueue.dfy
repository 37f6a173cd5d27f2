/** The ring under concurrency: one producer and one consumer, every byte copied being a step of its own.

    `pushed` and `consumed` record every byte ever committed by the producer and by the consumer;
    the 32-bit counters are their lengths, wrapped. */
module RingQueue {
  import opened Words
  import opened LoopBuffer
  import opened Sequences
  import opened PipeFrames

  datatype Producer = Resting | Writing(data: Bytes, done: nat)

  datatype Consumer = Waiting | Reading(len: nat, got: Bytes)

  datatype Ring = Ring(size: nat, head: nat, tail: nat, slots: Bytes, producer: Producer, consumer: Consumer,
                       pushed: Bytes, consumed: Bytes)

  datatype Action =
    | BeginPush(data: Bytes) | WriteByte | EndPush
    | BeginRead(limit: nat) | ReadByte | Commit(n: nat)

  /** A 32-bit difference. */
  function Minus32(a: nat, b: nat): nat
    requires a < WORD && b < WORD
  {
    if a >= b then a - b else a + WORD - b
  }

  function Position(counter: nat, size: nat): nat
    requires size > 0
  {
    And(counter, size - 1)
  }

  function Min(a: nat, b: nat): nat { if a <= b then a else b }

  ghost predicate RingSize(size: nat) { exists k: nat :: k <= 31 && size == Pow2(k) }

  /** Every size that the template computes is one. */
  lemma {:induction false} SizesFit(max: nat)
    requires 0 < max <= 0x8000_0000
    ensures RingSize(BufferSize(max))
  {
    BufferSizeIsLeast(max);
  }

  /** Where byte `n` of a push goes: the first copy fills the end of the array, the second its start. */
  function WriteIndex(r: Ring, n: nat): nat
    requires r.size > 0
  {
    var pos := Position(r.tail, r.size);
    var room := r.size - pos;
    if n < room then pos + n else n - room
  }

  function ReadIndex(r: Ring, n: nat): nat
    requires r.size > 0
  {
    Position(r.head, r.size) + n
  }

  /** The length of what `read` offers. */
  function ReadLength(r: Ring, limit: nat): nat
    requires r.size > 0 && r.head < WORD && r.tail < WORD
  {
    var pos := Position(r.head, r.size);
    var len := Min(Minus32(r.tail, r.head), r.size - pos);
    if limit > 0 then Min(len, limit) else len
  }

  predicate Formed(r: Ring) { 0 < r.size < WORD && r.head < WORD && r.tail < WORD && |r.slots| == r.size }

  predicate Enabled(r: Ring, a: Action) {
    Formed(r) &&
    match a
    case BeginPush(data) => r.producer.Resting? && |data| < WORD
    case WriteByte => r.producer.Writing? && r.producer.done < |r.producer.data| &&
      WriteIndex(r, r.producer.done) < r.size
    case EndPush => r.producer.Writing? && r.producer.done == |r.producer.data|
    case BeginRead(_) => r.consumer.Waiting?
    case ReadByte => r.consumer.Reading? && |r.consumer.got| < r.consumer.len && ReadIndex(r, |r.consumer.got|) < r.size
    case Commit(n) => r.consumer.Reading? && |r.consumer.got| == r.consumer.len && n <= r.consumer.len
  }

  /** A push that does not fit returns 0 at once; so does a read of an empty ring. */
  function Step(r: Ring, a: Action): Ring
    requires Enabled(r, a)
  {
    match a
    case BeginPush(data) =>
      if Minus32(r.size, Minus32(r.tail, r.head)) < |data| then r
      else r.(producer := Writing(data, 0))
    case WriteByte =>
      var n := r.producer.done;
      r.(slots := r.slots[WriteIndex(r, n) := r.producer.data[n]], producer := Writing(r.producer.data, n + 1))
    case EndPush =>
      r.(tail := Wrap32(r.tail + |r.producer.data|), pushed := r.pushed + r.producer.data, producer := Resting)
    case BeginRead(limit) =>
      if Minus32(r.tail, r.head) == 0 then r else r.(consumer := Reading(ReadLength(r, limit), []))
    case ReadByte =>
      r.(consumer := Reading(r.consumer.len, r.consumer.got + [r.slots[ReadIndex(r, |r.consumer.got|)]]))
    case Commit(n) =>
      r.(head := Wrap32(r.head + n), consumed := r.consumed + r.consumer.got[..n], consumer := Waiting)
  }

  // ---------- counters ----------

  /** A counter's position is its true value's slot, whether or not the counter has wrapped. */
  lemma {:induction false} PositionIs(count: nat, size: nat)
    requires RingSize(size)
    ensures size > 0 && Position(Wrap32(count), size) == Slot(count, size)
  {
    var k: nat :| k <= 31 && size == Pow2(k);
    AndMask(Wrap32(count), k);
    SlotWraps(count, k);
  }

  lemma {:induction false} SizeBound(size: nat)
    requires RingSize(size)
    ensures 0 < size <= 0x8000_0000
  {
    var k: nat :| k <= 31 && size == Pow2(k);
    WordIsPow2();
    Pow2Grows(k, 31);
  }

  lemma {:induction false} DifferenceIs(p: nat, c: nat)
    requires c <= p < c + WORD
    ensures Minus32(Wrap32(p), Wrap32(c)) == p - c
  {}

  lemma {:induction false} WrapSum(count: nat, n: nat)
    requires n <= WORD
    ensures Wrap32(Wrap32(count) + n) == Wrap32(count + n)
  {}

  // ---------- what every step keeps ----------

  ghost predicate Counters(r: Ring) {
    && RingSize(r.size) && Formed(r) && r.tail == Wrap32(|r.pushed|) && r.head == Wrap32(|r.consumed|)
    && |r.consumed| <= |r.pushed| <= |r.consumed| + r.size
  }

  /** Slots hold the bytes that are committed and not consumed. */
  ghost predicate Holds(r: Ring)
    requires Formed(r)
  {
    forall c: nat {:trigger r.pushed[c]} :: |r.consumed| <= c < |r.pushed| ==> r.slots[Slot(c, r.size)] == r.pushed[c]
  }

  ghost predicate ProducerOk(r: Ring)
    requires Formed(r)
  {
    r.producer.Writing? ==>
      && r.producer.done <= |r.producer.data| && |r.pushed| + |r.producer.data| <= |r.consumed| + r.size
      && forall i: nat {:trigger r.producer.data[i]} :: i < r.producer.done ==>
           r.slots[Slot(|r.pushed| + i, r.size)] == r.producer.data[i]
  }

  ghost predicate ConsumerOk(r: Ring)
    requires Formed(r)
  {
    r.consumer.Reading? ==>
      && |r.consumer.got| <= r.consumer.len && |r.consumed| + r.consumer.len <= |r.pushed|
      && Slot(|r.consumed|, r.size) + r.consumer.len <= r.size
      && r.consumer.got == r.pushed[|r.consumed|..|r.consumed| + |r.consumer.got|]
  }

  ghost predicate Inv(r: Ring) {
    Counters(r) && Holds(r) && ProducerOk(r) && ConsumerOk(r) && IsPrefix(r.consumed, r.pushed)
  }

  lemma {:induction false} WriteIndexIs(r: Ring, n: nat)
    requires Counters(r) && n <= r.size
    ensures WriteIndex(r, n) == Slot(|r.pushed| + n, r.size)
  {
    PositionIs(|r.pushed|, r.size);
    SlotAdd(r.size, |r.pushed|, n);
  }

  lemma {:induction false} ReadIndexIs(r: Ring, n: nat)
    requires Counters(r) && Slot(|r.consumed|, r.size) + n < r.size
    ensures ReadIndex(r, n) == Slot(|r.consumed| + n, r.size)
  {
    PositionIs(|r.consumed|, r.size);
    SlotAdd(r.size, |r.consumed|, n);
  }

  lemma {:induction false} BeginPushKeeps(r: Ring, data: Bytes)
    requires Inv(r) && Enabled(r, BeginPush(data))
    ensures Inv(Step(r, BeginPush(data)))
    ensures Step(r, BeginPush(data)).producer.Writing? <==> |r.pushed| - |r.consumed| + |data| <= r.size
  {
    SizeBound(r.size);
    DifferenceIs(|r.pushed|, |r.consumed|);
  }

  /** The slot of byte `w` is not the slot of an earlier byte that is less than `size` away. */
  lemma {:induction false} OtherSlot(slots: Bytes, w: nat, b: byte, c: nat)
    requires |slots| > 0 && c < w < c + |slots|
    ensures slots[Slot(w, |slots|) := b][Slot(c, |slots|)] == slots[Slot(c, |slots|)]
  {
    SlotDistinct(|slots|, c, w);
  }

  lemma {:induction false} WriteByteHolds(r: Ring, s: Ring, w: nat)
    requires Inv(r) && Enabled(r, WriteByte) && w == |r.pushed| + r.producer.done
    requires s == r.(slots := r.slots[Slot(w, r.size) := r.producer.data[r.producer.done]], producer := s.producer)
    ensures Formed(s) && Holds(s)
  {
    forall c: nat | |r.consumed| <= c < |r.pushed| ensures s.slots[Slot(c, r.size)] == r.pushed[c] {
      OtherSlot(r.slots, w, r.producer.data[r.producer.done], c);
    }
  }

  lemma {:induction false} WriteByteWrites(r: Ring, s: Ring, w: nat)
    requires Inv(r) && Enabled(r, WriteByte) && w == |r.pushed| + r.producer.done
    requires s == r.(slots := r.slots[Slot(w, r.size) := r.producer.data[r.producer.done]],
                     producer := Writing(r.producer.data, r.producer.done + 1))
    ensures Formed(s) && ProducerOk(s)
  {
    var n, m := r.producer.done, |r.pushed|;
    forall i: nat | i < n + 1 ensures s.slots[Slot(m + i, r.size)] == r.producer.data[i] {
      if i < n { OtherSlot(r.slots, w, r.producer.data[n], m + i); }
    }
  }

  lemma {:induction false} WriteByteKeeps(r: Ring)
    requires Inv(r) && Enabled(r, WriteByte)
    ensures Inv(Step(r, WriteByte))
  {
    var n := r.producer.done;
    WriteIndexIs(r, n);
    WriteByteHolds(r, Step(r, WriteByte), |r.pushed| + n);
    WriteByteWrites(r, Step(r, WriteByte), |r.pushed| + n);
  }

  /** The bytes written now count as pushed. */
  lemma {:induction false} EndPushHolds(r: Ring, s: Ring)
    requires Inv(r) && Enabled(r, EndPush) && s == Step(r, EndPush) && Formed(s)
    ensures Holds(s)
  {
    var m, d := |r.pushed|, r.producer.data;
    forall c: nat | |s.consumed| <= c < |s.pushed| ensures s.slots[Slot(c, s.size)] == s.pushed[c] {
      if c < m {
        assert s.pushed[c] == r.pushed[c];
      } else {
        assert s.pushed[c] == d[c - m];
        assert r.slots[Slot(m + (c - m), r.size)] == d[c - m];
      }
    }
  }

  /** What the consumer has is still the first of it. */
  lemma {:induction false} EndPushReads(r: Ring, s: Ring)
    requires Inv(r) && Enabled(r, EndPush) && s == Step(r, EndPush) && Formed(s)
    ensures ConsumerOk(s) && IsPrefix(s.consumed, s.pushed)
  {
    if r.consumer.Reading? {
      var a, b := |r.consumed|, |r.consumed| + |r.consumer.got|;
      assert s.pushed[a..b] == r.pushed[a..b];
    }
    assert s.pushed[..|r.consumed|] == r.pushed[..|r.consumed|];
  }

  lemma {:induction false} EndPushKeeps(r: Ring)
    requires Inv(r) && Enabled(r, EndPush)
    ensures Inv(Step(r, EndPush))
  {
    SizeBound(r.size);
    WrapSum(|r.pushed|, |r.producer.data|);
    EndPushHolds(r, Step(r, EndPush));
    EndPushReads(r, Step(r, EndPush));
  }

  lemma {:induction false} BeginReadKeeps(r: Ring, limit: nat)
    requires Inv(r) && Enabled(r, BeginRead(limit))
    ensures Inv(Step(r, BeginRead(limit)))
    ensures var s := Step(r, BeginRead(limit));
      (s.consumer.Reading? <==> |r.consumed| < |r.pushed|) && (s.consumer.Reading? ==> s.consumer.len > 0)
  {
    SizeBound(r.size);
    DifferenceIs(|r.pushed|, |r.consumed|);
    PositionIs(|r.consumed|, r.size);
  }

  /** The byte that ReadByte copies is the next one pushed. */
  lemma {:induction false} ReadByteIs(r: Ring, s: Ring)
    requires Inv(r) && Enabled(r, ReadByte) && s == Step(r, ReadByte)
    ensures |r.consumed| + |r.consumer.got| < |r.pushed|
    ensures s == r.(consumer := r.consumer.(got := r.consumer.got + [r.pushed[|r.consumed| + |r.consumer.got|]]))
  {
    ReadIndexIs(r, |r.consumer.got|);
    assert r.slots[Slot(|r.consumed| + |r.consumer.got|, r.size)] == r.pushed[|r.consumed| + |r.consumer.got|];
  }

  lemma {:induction false} GotGrows(r: Ring, s: Ring, a: nat, n: nat)
    requires Formed(r) && ConsumerOk(r) && r.consumer.Reading? && a == |r.consumed| &&
      n == |r.consumer.got| < r.consumer.len
    requires s == r.(consumer := r.consumer.(got := r.consumer.got + [r.pushed[a + n]]))
    ensures Formed(s) && ConsumerOk(s)
  {
    assert r.pushed[a..a + n] + [r.pushed[a + n]] == r.pushed[a..a + n + 1];
  }

  lemma {:induction false} ReadByteKeeps(r: Ring)
    requires Inv(r) && Enabled(r, ReadByte)
    ensures Inv(Step(r, ReadByte))
  {
    var s := Step(r, ReadByte);
    ReadByteIs(r, s);
    GotGrows(r, s, |r.consumed|, |r.consumer.got|);
    assert Holds(s) && ProducerOk(s);
  }

  lemma {:induction false} CommitKeeps(r: Ring, n: nat)
    requires Inv(r) && Enabled(r, Commit(n))
    ensures Inv(Step(r, Commit(n)))
  {
    var a, s := |r.consumed|, Step(r, Commit(n));
    SizeBound(r.size);
    WrapSum(a, n);
    assert r.consumer.got[..n] == r.pushed[a..a + n];
    assert r.pushed[..a] + r.pushed[a..a + n] == r.pushed[..a + n];
  }

  lemma {:induction false} StepKeeps(r: Ring, a: Action)
    requires Inv(r) && Enabled(r, a)
    ensures Inv(Step(r, a))
  {
    match a
    case BeginPush(data) => BeginPushKeeps(r, data);
    case WriteByte => WriteByteKeeps(r);
    case EndPush => EndPushKeeps(r);
    case BeginRead(limit) => BeginReadKeeps(r, limit);
    case ReadByte => ReadByteKeeps(r);
    case Commit(n) => CommitKeeps(r, n);
  }

  // ---------- runs ----------

  ghost predicate Initial(r: Ring) {
    RingSize(r.size) && r.head == 0 && r.tail == 0 && |r.slots| == r.size && r.producer.Resting? &&
      r.consumer.Waiting? &&
    r.pushed == [] && r.consumed == []
  }

  ghost predicate IsRun(run: seq<Ring>, actions: seq<Action>) {
    && |run| == |actions| + 1 && Initial(run[0])
    && forall i :: 0 <= i < |actions| ==> Enabled(run[i], actions[i]) && run[i + 1] == Step(run[i], actions[i])
  }

  lemma {:induction false} RunKeeps(run: seq<Ring>, actions: seq<Action>, i: nat)
    requires IsRun(run, actions) && i < |run|
    ensures Inv(run[i])
  {
    if i == 0 {
      SizeBound(run[0].size);
    } else {
      RunKeeps(run, actions, i - 1);
      StepKeeps(run[i - 1], actions[i - 1]);
      assert run[i] == Step(run[i - 1], actions[i - 1]);
    }
  }

  /** In every interleaving the consumed bytes are the first bytes pushed, and no more than the ring holds
      lies between. */
  lemma {:induction false} FirstInFirstOut(run: seq<Ring>, actions: seq<Action>, i: nat)
    requires IsRun(run, actions) && i < |run|
    ensures IsPrefix(run[i].consumed, run[i].pushed) && |run[i].pushed| - |run[i].consumed| <= run[i].size
    ensures run[i].consumer.Reading? ==> IsPrefix(run[i].consumed + run[i].consumer.got, run[i].pushed)
  {
    RunKeeps(run, actions, i);
    var r := run[i];
    if r.consumer.Reading? {
      var a, b := |r.consumed|, |r.consumed| + |r.consumer.got|;
      assert r.pushed[..a] + r.pushed[a..b] == r.pushed[..b];
    }
  }

  /** Both stay inside the array, so neither has to wait for the other in the middle of a copy. */
  lemma {:induction false} CopiesGoOn(r: Ring)
    requires Inv(r)
    ensures r.producer.Writing? && r.producer.done < |r.producer.data| ==> Enabled(r, WriteByte)
    ensures r.consumer.Reading? && |r.consumer.got| < r.consumer.len ==> Enabled(r, ReadByte)
  {
    if r.producer.Writing? && r.producer.done < |r.producer.data| { WriteIndexIs(r, r.producer.done); }
    if r.consumer.Reading? && |r.consumer.got| < r.consumer.len { ReadIndexIs(r, |r.consumer.got|); }
  }

  lemma {:induction false} SlotsDiffer(r: Ring, n: nat)
    requires Inv(r) && Enabled(r, WriteByte) && r.consumer.Reading? && n < r.consumer.len
    ensures WriteIndex(r, r.producer.done) != ReadIndex(r, n)
  {
    WriteIndexIs(r, r.producer.done);
    ReadIndexIs(r, n);
    SlotDistinct(r.size, |r.consumed| + n, |r.pushed| + r.producer.done);
  }

  /** In every interleaving the producer never writes a slot that the consumer has been offered. */
  lemma {:induction false} NoSharedSlot(run: seq<Ring>, actions: seq<Action>, i: nat, n: nat)
    requires IsRun(run, actions) && i < |run|
    requires Enabled(run[i], WriteByte) && run[i].consumer.Reading? && n < run[i].consumer.len
    ensures WriteIndex(run[i], run[i].producer.done) != ReadIndex(run[i], n)
  {
    RunKeeps(run, actions, i);
    SlotsDiffer(run[i], n);
  }
}
