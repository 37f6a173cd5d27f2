/** The LoopBuffer object: its methods, called one at a time, are those of a bounded queue of bytes. */
module RingObject {
  import opened Words
  import opened Sequences
  import opened PipeFrames
  import opened RingQueue

  /** `n` bytes of the ring from counter `from` on. */
  function Window(slots: Bytes, from: nat, n: nat): (w: Bytes)
    requires |slots| > 0
    ensures |w| == n && forall i {:trigger w[i]} :: 0 <= i < n ==> w[i] == slots[Slot(from + i, |slots|)]
  {
    seq(n, i requires 0 <= i < n => slots[Slot(from + i, |slots|)])
  }

  /** A counter and its wrapped value see the same bytes. */
  lemma {:induction false} WindowWraps(slots: Bytes, from: nat, n: nat)
    requires RingSize(|slots|) && n <= |slots|
    ensures |slots| > 0 && Window(slots, Wrap32(from), n) == Window(slots, from, n)
  {
    PositionIs(from, |slots|);
    PositionIs(Wrap32(from), |slots|);
    var w, v := Window(slots, Wrap32(from), n), Window(slots, from, n);
    forall i | 0 <= i < n ensures w[i] == v[i] {
      SlotAdd(|slots|, from, i);
      SlotAdd(|slots|, Wrap32(from), i);
    }
  }

  lemma {:induction false} WindowSplits(slots: Bytes, from: nat, m: nat, n: nat)
    requires |slots| > 0 && m <= n
    ensures Window(slots, from, n)[..m] == Window(slots, from, m)
    ensures Window(slots, from, n)[m..] == Window(slots, from + m, n - m)
  {
    var w, v := Window(slots, from, n)[m..], Window(slots, from + m, n - m);
    forall i | 0 <= i < n - m ensures w[i] == v[i] { assert from + (m + i) == from + m + i; }
  }

  /** Array `b` is `a` with `data` written from slot `pos` on. */
  ghost predicate Written(a: Bytes, b: Bytes, pos: nat, data: Bytes) {
    && |a| == |b| && pos < |a| && |data| <= |a|
    && (forall j: nat {:trigger data[j]} :: j < |data| ==> b[Turn(pos, j, |a|)] == data[j])
    && (forall x: nat {:trigger b[x]} :: x < |a| && Untouched(pos, x, |data|, |a|) ==> b[x] == a[x])
  }

  predicate Untouched(pos: nat, x: nat, n: nat, size: nat)
    requires pos < size
  {
    forall j: nat {:trigger Turn(pos, j, size)} :: j < n ==> x != Turn(pos, j, size)
  }

  /** Bytes written behind a window that leaves room for them are seen behind it. */
  lemma {:induction false} WindowGrows(a: Bytes, b: Bytes, from: nat, n: nat, data: Bytes, pos: nat)
    requires |a| > 0 && n + |data| <= |a| && Written(a, b, pos, data) && pos == Slot(from + n, |a|)
    ensures Window(b, from, n + |data|) == Window(a, from, n) + data
  {
    var w, v := Window(b, from, n + |data|), Window(a, from, n);
    forall i: nat | i < n + |data| ensures w[i] == (v + data)[i] {
      if i < n {
        OldByteKept(a, b, from, n, data, pos, i);
      } else {
        var j: nat := i - n;
        SlotAdd(|a|, from + n, j);
        assert from + i == from + n + j && b[Turn(pos, j, |a|)] == data[j];
      }
    }
  }

  lemma {:induction false} OldByteKept(a: Bytes, b: Bytes, from: nat, n: nat, data: Bytes, pos: nat, i: nat)
    requires |a| > 0 && n + |data| <= |a| && Written(a, b, pos, data) && pos == Slot(from + n, |a|) && i < n
    ensures b[Slot(from + i, |a|)] == a[Slot(from + i, |a|)]
  {
    var x := Slot(from + i, |a|);
    forall j: nat | j < |data| ensures x != Turn(pos, j, |a|) {
      SlotAdd(|a|, from + n, j);
      SlotDistinct(|a|, from + i, from + n + j);
    }
  }

  /** Two copies, the first up to the end of the array. */
  lemma {:induction false} CopyWritten(a: Bytes, b: Bytes, pos: nat, data: Bytes)
    requires |a| == |b| && pos < |a| && |data| <= |a|
    requires forall x: nat {:trigger b[x]} :: x < |a| ==>
      b[x] == (if x < pos + |data| - |a| then data[|a| - pos + x] else if pos <= x < pos + |data| then data[x - pos]
        else a[x])
    ensures Written(a, b, pos, data)
  {
    forall j: nat | j < |data| ensures b[Turn(pos, j, |a|)] == data[j] {}
    forall x: nat | x < |a| && Untouched(pos, x, |data|, |a|) ensures b[x] == a[x] {
      var j := if pos <= x then x - pos else |a| - pos + x;
      assert Turn(pos, j, |a|) == x;
    }
  }

  class LoopBuffer {
    const buffer: array<byte>
    var head: nat
    var tail: nat

    ghost predicate Valid()
      reads this
    {
      RingSize(buffer.Length) && head < WORD && tail < WORD && 0 < buffer.Length < WORD &&
        Minus32(tail, head) <= buffer.Length
    }

    /** The bytes in the queue, the oldest first. */
    ghost function Contents(): Bytes
      reads this, buffer
      requires Valid()
    {
      Window(buffer[..], head, Minus32(tail, head))
    }

    constructor (size: nat)
      requires RingSize(size)
      ensures Valid() && fresh(buffer) && buffer.Length == size && Contents() == []
    {
      SizeBound(size);
      buffer := new byte[size];
      head, tail := 0, 0;
    }

    /** The one or two memcpy calls of a push. */
    method Copy(data: Bytes, pos: nat)
      requires pos < buffer.Length && |data| <= buffer.Length
      modifies buffer
      ensures Written(old(buffer[..]), buffer[..], pos, data)
    {
      var room := buffer.Length - pos;
      ghost var a := buffer[..];
      if |data| > room {
        forall i | 0 <= i < room { buffer[pos + i] := data[i]; }
        forall i | 0 <= i < |data| - room { buffer[i] := data[room + i]; }
      } else {
        forall i | 0 <= i < |data| { buffer[pos + i] := data[i]; }
      }
      CopyWritten(a, buffer[..], pos, data);
    }

    /** All of `data` goes in, or nothing. */
    method Push(data: Bytes) returns (n: nat)
      requires Valid()
      modifies this`tail, buffer
      ensures Valid()
      ensures if |old(Contents())| + |data| <= buffer.Length then n == |data| && Contents() == old(Contents()) + data
              else n == 0 && Contents() == old(Contents())
    {
      var size := buffer.Length;
      var used := Minus32(tail, head);
      if Minus32(size, used) < |data| {
        return 0;
      }
      ghost var p, before := head + used, buffer[..];
      SizeBound(size);
      TailIs(head, tail);
      PositionIs(p, size);
      Copy(data, Position(tail, size));
      WindowGrows(before, buffer[..], head, used, data, Slot(p, size));
      DifferenceIs(p + |data|, head);
      WrapSum(p, |data|);
      tail := Wrap32(tail + |data|);
      n := |data|;
    }

    /** The longest run of bytes that does not wrap, or the first `limit` of them. */
    method Read(limit: nat) returns (chunk: Bytes)
      requires Valid()
      ensures IsPrefix(chunk, Contents()) && (chunk == [] <==> Contents() == [])
    {
      var size := buffer.Length;
      var used := Minus32(tail, head);
      if used == 0 {
        return [];
      }
      var pos := Position(head, size);
      var len := Min(used, size - pos);
      if limit > 0 {
        len := Min(len, limit);
      }
      chunk := buffer[pos..pos + len];
      PositionIs(head, size);
      forall i | 0 <= i < len ensures chunk[i] == Contents()[i] { SlotAdd(size, head, i); }
    }

    method Commit(n: nat)
      requires Valid() && n <= |Contents()|
      modifies this`head
      ensures Valid() && Contents() == old(Contents())[n..]
    {
      ghost var used := Minus32(tail, head);
      SizeBound(buffer.Length);
      WindowSplits(buffer[..], head, n, used);
      WindowWraps(buffer[..], head + n, used - n);
      TailIs(head, tail);
      DifferenceIs(head + used, head + n);
      head := Wrap32(head + n);
    }

    /** Hands over the longest run of bytes that does not wrap, and forgets it. */
    method Pop() returns (chunk: Bytes)
      requires Valid()
      modifies this`head
      ensures Valid() && old(Contents()) == chunk + Contents() && (chunk == [] <==> old(Contents()) == [])
    {
      ghost var all := Contents();
      chunk := Read(0);
      Commit(|chunk|);
      assert all == all[..|chunk|] + all[|chunk|..];
    }
  }

  lemma {:induction false} TailIs(head: nat, tail: nat)
    requires head < WORD && tail < WORD
    ensures tail == Wrap32(head + Minus32(tail, head))
  {}
}
