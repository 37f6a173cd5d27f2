/** A connection: the send buffer with its locked sections, and the read buffer with its framing loop.

    The value types `Link` and `Reader` say what the two halves hold; each method is proved to do to
    the object what a function does to the value.  Module PipeNetwork composes these functions into
    runs of many threads. */
module TcpConnection {
  import opened Sequences
  import opened PipeFrames

  datatype Status = Idle | Open | Closing | Closed

  const READ_BUFFER: nat := 8388608

  // ---------- the sending half ----------

  /** The send buffer, whether EPOLLOUT is registered, and the status. */
  datatype Link = Link(buffer: Bytes, out: bool, status: Status)

  /** What ::send answers: it took `n` bytes, would block, or failed. */
  datatype SendAnswer = Took(n: nat) | WouldBlock | Broken

  /** The kernel takes at least one byte of a buffer that is not empty, or reports an error. */
  predicate Plausible(l: Link, a: SendAnswer) { a.Took? && l.buffer != [] ==> 1 <= a.n <= |l.buffer| }

  function CloseStatus(s: Status): Status { if s.Idle? || s.Open? then Closing else s }

  /** One locked section of do_send. */
  function SendOnce(l: Link, a: SendAnswer): Link
    requires Plausible(l, a)
  {
    if l.buffer == [] then l.(out := false)
    else
      match a
      case Took(n) => l.(buffer := l.buffer[n..])
      case WouldBlock => l.(out := true)
      case Broken => l.(status := CloseStatus(l.status), out := l.out || l.status.Idle? || l.status.Open?)
  }

  /** Whether do_send calls itself again after that section. */
  predicate SendsAgain(l: Link, a: SendAnswer) { l.buffer != [] && a.Took? && a.n < |l.buffer| }

  /** The bytes the kernel took. */
  function Taken(l: Link, a: SendAnswer): Bytes
    requires Plausible(l, a)
  {
    if l.buffer != [] && a.Took? then l.buffer[..a.n] else []
  }

  /** No section loses or reorders a byte. */
  lemma {:induction false} SendConserves(l: Link, a: SendAnswer)
    requires Plausible(l, a)
    ensures Taken(l, a) + SendOnce(l, a).buffer == l.buffer
  {
    if l.buffer != [] && a.Took? { assert l.buffer[..a.n] + l.buffer[a.n..] == l.buffer; }
  }

  /** What mpush appends to a buffer of `size` bytes: it stops after a piece that leaves the buffer empty. */
  function Appended(size: nat, pieces: seq<Bytes>): Bytes
    decreases |pieces|
  {
    if pieces == [] then []
    else if size + |pieces[0]| == 0 then []
    else pieces[0] + Appended(size + |pieces[0]|, pieces[1..])
  }

  /** Empty pieces in front apart, mpush appends all of them, so a head and its body go together. */
  lemma {:induction false} AppendsAll(size: nat, pieces: seq<Bytes>)
    requires size > 0 || (pieces != [] && pieces[0] != [])
    ensures Appended(size, pieces) == Concat(pieces)
    decreases |pieces|
  {
    if pieces != [] && |pieces| > 1 { AppendsAll(size + |pieces[0]|, pieces[1..]); }
    else if |pieces| == 1 { assert pieces[1..] == []; }
  }

  lemma {:induction false} AppendsFrame(size: nat, h: Head, body: Bytes)
    ensures Appended(size, [EncodeHead(h), body]) == Encode(h, body)
  {
    AppendsAll(size, [EncodeHead(h), body]);
    assert [EncodeHead(h), body][1..] == [body] && [body][1..] == [];
    assert Concat([body]) == body + Concat([]);
    assert Concat([EncodeHead(h), body]) == EncodeHead(h) + Concat([body]);
  }

  // ---------- the reading half ----------

  /** The packages handed to handle_data so far, and the bytes that wait for the rest of their frame. */
  datatype Reader = Reader(packages: seq<Bytes>, pending: Bytes)

  function Feed(r: Reader, s: Bytes): Reader {
    var c := CutFrames(r.pending + s);
    Reader(r.packages + c.frames, c.rest)
  }

  /** Frames found before, and the cut of what follows them. */
  function Behind(frames: seq<Bytes>, c: Cut): Cut { Cut(frames + c.frames, c.rest) }

  lemma {:induction false} CutInFront(f: Bytes, s: Bytes)
    requires IsFrame(f)
    ensures CutFrames(f + s) == Behind([f], CutFrames(s))
  {
    FrameInFront(f, s);
  }

  lemma {:induction false} CutOnwardsFrom(f: Bytes, t: Bytes, b: Bytes, c: Cut, d: Cut)
    requires IsFrame(f) && CutFrames(t + b) == Behind(c.frames, d)
    ensures CutFrames(f + t + b) == Behind([f] + c.frames, d)
  {
    Assoc(f, t, b);
    CutInFront(f, t + b);
    Assoc([f], c.frames, d.frames);
  }

  lemma {:induction false} CutOnwards(a: Bytes, b: Bytes)
    ensures var c := CutFrames(a); CutFrames(a + b) == Behind(c.frames, CutFrames(c.rest + b))
    decreases |a|
  {
    var n := NextFrame(a);
    if n == 0 {
      assert [] + CutFrames(a + b).frames == CutFrames(a + b).frames;
    } else {
      var f, t := a[..n], a[n..];
      CutFirst(a, f, t);
      CutOnwards(t, b);
      CutOnwardsFrom(f, t, b, CutFrames(t), CutFrames(CutFrames(t).rest + b));
    }
  }

  /** Packages handed over, and bytes still to be cut. */
  function Finish(packages: seq<Bytes>, s: Bytes): Reader {
    Reader(packages + CutFrames(s).frames, CutFrames(s).rest)
  }

  lemma {:induction false} FinishFrame(packages: seq<Bytes>, s: Bytes, pos: nat, n: nat)
    requires pos <= |s| && n == NextFrame(s[pos..]) > 0
    ensures Finish(packages, s[pos..]) == Finish(packages + [s[pos..pos + n]], s[pos + n..])
  {
    var c := CutFrames(s[pos + n..]);
    assert s[pos..][..n] == s[pos..pos + n] && s[pos..][n..] == s[pos + n..];
    assert packages + ([s[pos..pos + n]] + c.frames) == packages + [s[pos..pos + n]] + c.frames;
  }

  lemma {:induction false} FinishRest(packages: seq<Bytes>, s: Bytes)
    requires NextFrame(s) == 0
    ensures Finish(packages, s) == Reader(packages, s)
  {
    assert packages + [] == packages;
  }

  /** One turn of the framing loop: `all` is the read buffer from `pos` on. */
  lemma {:induction false} FinishTurn(packages: seq<Bytes>, s: Bytes, pos: nat, all: Bytes, n: nat)
    requires pos < |s| && |all| >= 64 && IsPrefix(s[pos..], all) && n == HandlePackage(all, |s|)
    ensures n <= |s|
    ensures Finish(packages, s[pos..]) ==
      if n == 0 || n > |s| - pos then Reader(packages, s[pos..]) else Finish(packages + [s[pos..pos + n]], s[pos + n..])
  {
    HandlePackageFrames(all, s[pos..], |s|);
    if NextFrame(s[pos..]) == 0 { FinishRest(packages, s[pos..]); } else { FinishFrame(packages, s, pos, n); }
  }

  /** How the stream is cut by recv makes no difference. */
  lemma {:induction false} FeedTwice(r: Reader, a: Bytes, b: Bytes)
    ensures Feed(Feed(r, a), b) == Feed(r, a + b)
  {
    var c := CutFrames(r.pending + a);
    CutOnwards(r.pending + a, b);
    Assoc(r.pending, a, b);
    Assoc(r.packages, c.frames, CutFrames(c.rest + b).frames);
  }

  /** No whole frame waits. */
  predicate Settled(r: Reader) { NextFrame(r.pending) == 0 }

  lemma {:induction false} FeedSettles(r: Reader, s: Bytes)
    ensures Settled(Feed(r, s)) && (Settled(r) ==> Feed(r, []) == r)
  {
    CutIsExact(r.pending + s);
    assert r.pending + [] == r.pending;
    if Settled(r) { FinishRest(r.packages, r.pending); }
  }

  /** After `taken` bytes of `wire`, `n` more. */
  lemma {:induction false} FeedMore(r: Reader, q: Reader, wire: Bytes, taken: nat, n: nat)
    requires taken + n <= |wire| && q == Feed(r, wire[..taken])
    ensures Feed(q, wire[taken..taken + n]) == Feed(r, wire[..taken + n]) && Settled(Feed(q, wire[taken..taken + n]))
  {
    FeedTwice(r, wire[..taken], wire[taken..taken + n]);
    FeedSettles(q, wire[taken..taken + n]);
    assert wire[..taken] + wire[taken..taken + n] == wire[..taken + n];
  }

  /** What ::recv answers: it copied at most `n` bytes, would block when `n` is 0, failed, or met the end. */
  datatype RecvAnswer = Copied(n: nat) | Failed | End

  /** The framing loop over the read buffer `all`, of which `len` bytes count; `found` grows by what is handed over. */
  method FrameLoop(all: Bytes, len: nat, first: seq<Bytes>) returns (pos: nat, found: seq<Bytes>)
    requires |all| == READ_BUFFER + 64 && len <= READ_BUFFER
    ensures pos <= len && Finish(first, all[..len]) == Reader(found, all[pos..len])
  {
    ghost var s := all[..len];
    pos, found := 0, first;
    assert s[0..] == s;
    while pos < len
      invariant 0 <= pos <= len && Finish(found, s[pos..]) == Finish(first, s)
    {
      var n := HandlePackage(all[pos..], len);
      assert IsPrefix(s[pos..], all[pos..]);
      FinishTurn(found, s, pos, all[pos..], n);
      if n == 0 || n > len - pos {
        if n > READ_BUFFER {
          assert false;
        }
        break;
      }
      assert s[pos..pos + n] == all[pos..pos + n];
      found := found + [all[pos..pos + n]];
      pos := pos + n;
    }
    LoopLeft(found, s, pos);
    assert all[pos..len] == s[pos..];
  }

  lemma {:induction false} LoopLeft(found: seq<Bytes>, s: Bytes, pos: nat)
    requires pos <= |s| && NextFrame(s[pos..]) == 0
    ensures Finish(found, s[pos..]) == Reader(found, s[pos..])
  {
    FinishRest(found, s[pos..]);
  }

  // ---------- the object ----------

  class Connection {
    var readBuffer: array<byte>
    var readPos: nat
    var packages: seq<Bytes>
    var sendBuffer: Bytes
    var epollOut: bool
    var status: Status

    ghost predicate Valid()
      reads this
    {
      readBuffer.Length == READ_BUFFER + 64 && readPos <= READ_BUFFER
    }

    ghost function GetLink(): Link
      reads this
    {
      Link(sendBuffer, epollOut, status)
    }

    ghost function GetReader(): Reader
      reads this, readBuffer
      requires Valid()
    {
      Reader(packages, readBuffer[..readPos])
    }

    constructor ()
      ensures Valid() && fresh(readBuffer)
      ensures GetLink() == Link([], false, Idle) && GetReader() == Reader([], [])
    {
      readBuffer := new byte[READ_BUFFER + 64];
      readPos, packages, sendBuffer, epollOut, status := 0, [], [], false, Idle;
    }

    method Close()
      modifies this`status, this`epollOut
      ensures GetLink() == Link(old(sendBuffer), old(epollOut) || old(status).Idle? ||
        old(status).Open?, CloseStatus(old(status)))
    {
      if status.Idle? || status.Open? {
        status := Closing;
        epollOut := true;
      }
    }

    /** The locked section of msend, if the connection is open.  `owes` says that this caller must now
        call do_send. */
    method Append(pieces: seq<Bytes>) returns (owes: bool)
      modifies this`sendBuffer
      ensures sendBuffer == old(sendBuffer) + (if status.Open? then Appended(|old(sendBuffer)|, pieces) else [])
      ensures owes <==> status.Open? && old(sendBuffer) == []
    {
      if !status.Open? {
        return false;
      }
      owes := sendBuffer == [];
      ghost var was := sendBuffer;
      var i := 0;
      var go := true;
      assert pieces[0..] == pieces;
      while i < |pieces| && go
        invariant 0 <= i <= |pieces|
        invariant was + Appended(|was|, pieces) == sendBuffer + (if go then Appended(|sendBuffer|, pieces[i..]) else [])
        decreases |pieces| - i, go
      {
        assert pieces[i..][1..] == pieces[i + 1..];
        assert sendBuffer + pieces[i] + Appended(|sendBuffer + pieces[i]|, pieces[i + 1..]) ==
               sendBuffer + (pieces[i] + Appended(|sendBuffer + pieces[i]|, pieces[i + 1..]));
        sendBuffer := sendBuffer + pieces[i];
        go := |sendBuffer| > 0;
        i := i + 1;
      }
    }

    /** The locked section of do_send, with the answer of ::send. */
    method DoSend(a: SendAnswer) returns (again: bool)
      requires Plausible(GetLink(), a)
      modifies this`sendBuffer, this`epollOut, this`status
      ensures GetLink() == SendOnce(old(GetLink()), a) && (again <==> SendsAgain(old(GetLink()), a))
    {
      if sendBuffer == [] {
        epollOut := false;
        return false;
      }
      match a
      case WouldBlock =>
        epollOut := true;
        again := false;
      case Broken =>
        Close();
        again := false;
      case Took(n) =>
        again := n < |sendBuffer|;
        sendBuffer := if again then sendBuffer[n..] else [];
    }

    /** memmove to the start of the read buffer. */
    method MoveDown(from: nat, n: nat)
      requires from + n <= readBuffer.Length
      modifies readBuffer
      ensures readBuffer[..n] == old(readBuffer[from..from + n])
    {
      forall i | 0 <= i < n {
        readBuffer[i] := readBuffer[from + i];
      }
    }

    /** The loop of process_data: hands over the whole frames, and returns where the rest starts. */
    method HandleFrames() returns (pos: nat)
      requires Valid()
      modifies this`packages
      ensures pos <= readPos
      ensures Finish(old(packages), readBuffer[..readPos]) == Reader(packages, readBuffer[pos..readPos])
    {
      var all, found := readBuffer[..], packages;
      pos, found := FrameLoop(all, readPos, found);
      assert all[..readPos] == readBuffer[..readPos] && all[pos..readPos] == readBuffer[pos..readPos];
      packages := found;
    }

    /** process_data: `nread` bytes have been received behind the pending ones. */
    method ProcessData(nread: nat) returns (more: bool)
      requires Valid() && readPos + nread <= READ_BUFFER
      modifies this`readPos, this`packages, readBuffer
      ensures Valid() && (more <==> readPos > 0)
      ensures GetReader() == Feed(old(GetReader()), old(readBuffer[readPos..readPos + nread]))
    {
      ghost var s := readBuffer[..readPos + nread];
      assert s == readBuffer[..readPos] + readBuffer[readPos..readPos + nread];
      readPos := readPos + nread;
      var pos := HandleFrames();
      var left := readPos - pos;
      if left > 0 {
        MoveDown(pos, left);
      }
      readPos := left;
      more := readPos > 0;
    }

    /** ::recv puts `data` behind the pending bytes, and process_data cuts them. */
    method Receive(data: Bytes) returns (more: bool)
      requires Valid() && readPos + |data| <= READ_BUFFER
      modifies this`readPos, this`packages, readBuffer
      ensures Valid() && (more <==> readPos > 0)
      ensures GetReader() == Feed(old(GetReader()), data)
    {
      forall i | 0 <= i < |data| {
        readBuffer[readPos + i] := data[i];
      }
      assert readBuffer[..readPos] == old(readBuffer[..readPos]);
      assert readBuffer[readPos..readPos + |data|] == data;
      more := ProcessData(|data|);
    }

    /** One recv of do_read, on the bytes of `wire` behind `taken`, and what process_data makes of it. */
    method ReadOnce(wire: Bytes, taken: nat, answer: RecvAnswer, ghost r: Reader) returns (now: nat, more: bool)
      requires Valid() && taken <= |wire| && GetReader() == Feed(r, wire[..taken]) && Settled(GetReader())
      modifies this`readPos, this`packages, this`status, this`epollOut, readBuffer
      ensures Valid() && taken <= now <= |wire| && GetReader() == Feed(r, wire[..now]) && Settled(GetReader())
      ensures sendBuffer == old(sendBuffer) && (status == old(status) || (!more && status == CloseStatus(old(status))))
      ensures more ==> readPos > 0
    {
      var room := READ_BUFFER - readPos;
      if room > 0 && !answer.Copied? {
        Close();
        return taken, false;
      }
      var n := if room == 0 then 0 else Least(Least(answer.n, room), |wire| - taken);
      if room > 0 && n == 0 {
        return taken, false;
      }
      FeedMore(r, GetReader(), wire, taken, n);
      more := Receive(wire[taken..taken + n]);
      now := taken + n;
    }

    /** do_read, on the bytes `wire` that the kernel holds: reads again while a part of a frame is pending. */
    method DoRead(wire: Bytes, answers: seq<RecvAnswer>) returns (taken: nat)
      requires Valid() && Settled(GetReader())
      modifies this`readPos, this`packages, this`status, this`epollOut, readBuffer
      ensures Valid() && taken <= |wire| && GetReader() == Feed(old(GetReader()), wire[..taken]) && Settled(GetReader())
      ensures sendBuffer == old(sendBuffer) && (status == old(status) || status == CloseStatus(old(status)))
    {
      taken := 0;
      FeedSettles(GetReader(), []);
      ghost var r := GetReader();
      assert wire[..0] == [];
      for i := 0 to |answers|
        invariant Valid() && taken <= |wire| && GetReader() == Feed(r, wire[..taken]) && Settled(GetReader())
        invariant status == old(status) && sendBuffer == old(sendBuffer)
      {
        var more;
        taken, more := ReadOnce(wire, taken, answers[i], r);
        if !more {
          return;
        }
      }
    }
  }

  function Least(a: nat, b: nat): nat { if a < b then a else b }
}
