/** One direction of a pipe: any number of threads that call msend, the epoll thread, the kernel's byte
    stream, and the reader at the other end.  Every locked section and every call of recv is one step; the kernel
    may take any part of what it is offered, and recv may cut the stream anywhere.  Both ends are woken by
    edge-triggered events, which are consumed by the call that they cause. */
module PipeNetwork {
  import opened Sequences
  import opened PipeFrames
  import opened TcpConnection

  /** What the sender's epoll thread does for this connection: nothing, do_send within process_event, or the
      check for closing at the end of process_event. */
  datatype Turn = Away | Sending | Checking

  /** `frames`: what was appended, in the order of the lock; `calls`: do_send calls of msend that are still to
      come or under way; `turn`: the epoll thread; `edge`: EPOLLOUT was registered after the last EAGAIN, or by
      close, and has not been reported; `sent`: the bytes the kernel has taken, of which `wire` has not been received.
      `arrival`: bytes have come since the receiver's last event, which is still to be reported (EPOLLET);
      `reading`: do_read is to call recv, because of an event or because bytes are pending. */
  datatype Net = Net(frames: seq<Bytes>, link: Link, calls: nat, turn: Turn, edge: bool, sent: Bytes, wire: Bytes,
                     arrival: bool, reading: bool, reader: Reader)

  datatype Action =
    | Msend(head: Head, body: Bytes)
    | CallerSend(answer: SendAnswer)
    | Report
    | OtherEvent(out: bool)
    | PollerSend(answer: SendAnswer)
    | EndEvent
    | CloseConnection
    | Arrive
    | Touch
    | Recv(n: nat)
    | RecvBlocks

  ghost predicate Initial(s: Net) {
    && s.frames == [] && s.link.buffer == [] && (s.link.status.Idle? || s.link.status.Open?) && s.edge == s.link.out
    && s.calls == 0 && s.turn.Away? && s.sent == [] && s.wire == [] && !s.arrival && !s.reading
    && s.reader == Reader([], [])
  }

  /** `OtherEvent` is an event at the sender for another reason than `edge`, and `Touch` one at the receiver for
      another reason than `arrival`, such as its own sending; epoll then reports all that is ready, and EPOLLOUT only
      while it is registered. */
  predicate Enabled(s: Net, a: Action) {
    match a
    case Msend(h, body) => HeadFits(h) && h.length == |body| && HEAD_SIZE + |body| <= READ_BUFFER
    case CallerSend(answer) => s.calls > 0 && Plausible(s.link, answer)
    case Report => s.edge && s.turn.Away?
    case OtherEvent(out) => s.turn.Away? && (out ==> s.link.out)
    case PollerSend(answer) => s.turn.Sending? && Plausible(s.link, answer)
    case EndEvent => s.turn.Checking?
    case CloseConnection => true
    case Arrive => s.arrival && !s.reading
    case Touch => !s.reading
    case Recv(n) => s.reading && 0 < n <= |s.wire| && |s.reader.pending| + n <= READ_BUFFER
    case RecvBlocks => s.reading && s.wire == []
  }

  /** on_ready at the start of process_event, and do_close at its end, without reconnection. */
  function Ready(l: Link): Link { if l.status.Idle? then l.(status := Status.Open) else l }
  function Finished(l: Link): Link { if l.status.Closing? then l.(status := Closed) else l }

  /** A locked section of do_send, whoever calls it. */
  function Section(s: Net, answer: SendAnswer): Net
    requires Plausible(s.link, answer)
  {
    var l, t := SendOnce(s.link, answer), Taken(s.link, answer);
    s.(link := l, sent := s.sent + t, wire := s.wire + t, arrival := s.arrival || t != [],
       edge := if s.link.buffer == [] then false else s.edge || answer.WouldBlock? || l.status != s.link.status)
  }

  function Step(s: Net, a: Action): Net
    requires Enabled(s, a)
  {
    match a
    case Msend(h, body) =>
      if !s.link.status.Open? then s
      else
        s.(frames := s.frames + [Encode(h, body)],
           link := s.link.(buffer := s.link.buffer + Appended(|s.link.buffer|, [EncodeHead(h), body])),
           calls := if s.link.buffer == [] then s.calls + 1 else s.calls)
    case CallerSend(answer) =>
      Section(s, answer).(calls := if SendsAgain(s.link, answer) then s.calls else s.calls - 1)
    case Report => s.(edge := false, turn := Sending, link := Ready(s.link))
    case OtherEvent(out) =>
      s.(edge := s.edge && !out, turn := if out then Sending else Checking, link := Ready(s.link))
    case PollerSend(answer) =>
      Section(s, answer).(turn := if SendsAgain(s.link, answer) then Sending else Checking)
    case EndEvent => s.(turn := Away, link := Finished(s.link))
    case CloseConnection =>
      var live := s.link.status.Idle? || s.link.status.Open?;
      s.(link := s.link.(status := CloseStatus(s.link.status), out := s.link.out || live), edge := s.edge || live)
    case Arrive => s.(arrival := false, reading := true)
    case Touch => s.(arrival := false, reading := s.wire != [])
    case Recv(n) =>
      var r := Feed(s.reader, s.wire[..n]);
      s.(wire := s.wire[n..], reader := r, reading := r.pending != [])
    case RecvBlocks => s.(reading := false)
  }

  predicate Shut(l: Link) { l.status.Closing? || l.status.Closed? }

  /** Bytes are conserved from the first append to the last package; whoever must send next is known; and a part
      of a frame is left alone only while its next bytes are still to be announced. */
  ghost predicate Inv(s: Net) {
    && AllFrames(s.frames) && (forall k :: 0 <= k < |s.frames| ==> |s.frames[k]| <= READ_BUFFER)
    && s.sent + s.link.buffer == Concat(s.frames)
    && Concat(s.reader.packages) + s.reader.pending + s.wire == s.sent
    && AllFrames(s.reader.packages) && Settled(s.reader)
    && (s.link.buffer != [] ==> s.calls > 0 || s.turn.Sending? || s.edge || Shut(s.link))
    && (s.edge ==> s.link.out)
    && (Stranded(s) ==> s.reader.pending == [])
  }

  /** Bytes wait in the kernel, and nothing will make the receiver look at them. */
  predicate Stranded(s: Net) { s.wire != [] && !s.arrival && !s.reading }

  lemma {:induction false} MsendKeeps(s: Net, h: Head, body: Bytes)
    requires Inv(s) && Enabled(s, Msend(h, body))
    ensures Inv(Step(s, Msend(h, body)))
  {
    var f := Encode(h, body);
    EncodeIsFrame(h, body);
    AppendsFrame(|s.link.buffer|, h, body);
    ConcatSnoc(s.frames, f);
    assert s.sent + (s.link.buffer + f) == s.sent + s.link.buffer + f;
  }

  /** What a section keeps; who sends next is up to the caller. */
  lemma {:induction false} SectionKeeps(s: Net, answer: SendAnswer)
    requires Inv(s) && Plausible(s.link, answer)
    ensures var t := Section(s, answer);
      && t.sent + t.link.buffer == Concat(s.frames)
      && Concat(s.reader.packages) + s.reader.pending + t.wire == t.sent
      && (t.edge ==> t.link.out) && (Stranded(t) ==> s.reader.pending == [])
      && (t.link.buffer != [] ==> SendsAgain(s.link, answer) || t.edge || Shut(t.link))
  {
    var t, l := Taken(s.link, answer), SendOnce(s.link, answer);
    SendConserves(s.link, answer);
    Assoc(s.sent, t, l.buffer);
    Assoc(Concat(s.reader.packages) + s.reader.pending, s.wire, t);
    if t == [] { assert s.wire + t == s.wire; }
  }

  lemma {:induction false} FeedConserves(r: Reader, s: Bytes)
    requires AllFrames(r.packages)
    ensures var q := Feed(r, s);
      AllFrames(q.packages) && Concat(q.packages) + q.pending == Concat(r.packages) + r.pending + s
  {
    CutIsExact(r.pending + s);
    CutConserves(r, s, CutFrames(r.pending + s));
  }

  lemma {:induction false} CutConserves(r: Reader, s: Bytes, c: Cut)
    requires AllFrames(r.packages) && AllFrames(c.frames) && r.pending + s == Concat(c.frames) + c.rest
    ensures AllFrames(r.packages + c.frames) &&
      Concat(r.packages + c.frames) + c.rest == Concat(r.packages) + r.pending + s
  {
    ConcatAppend(r.packages, c.frames);
    assert Concat(r.packages) + (r.pending + s) == Concat(r.packages) + r.pending + s;
    assert Concat(r.packages) + (Concat(c.frames) + c.rest) == Concat(r.packages) + Concat(c.frames) + c.rest;
  }

  lemma {:induction false} RecvKeeps(s: Net, n: nat)
    requires Inv(s) && Enabled(s, Recv(n))
    ensures Inv(Step(s, Recv(n)))
  {
    var d, w := s.wire[..n], s.wire[n..];
    FeedConserves(s.reader, d);
    FeedSettles(s.reader, d);
    var p := Concat(s.reader.packages) + s.reader.pending;
    assert p + d + w == p + (d + w) && d + w == s.wire;
  }

  lemma {:induction false} StepKeeps(s: Net, a: Action)
    requires Inv(s) && Enabled(s, a)
    ensures Inv(Step(s, a))
  {
    match a
    case Msend(h, body) => MsendKeeps(s, h, body);
    case CallerSend(answer) => SectionKeeps(s, answer);
    case PollerSend(answer) => SectionKeeps(s, answer);
    case Recv(n) => RecvKeeps(s, n);
    case _ =>
  }

  /** A run: every state comes from the one before by an enabled action. */
  ghost predicate IsRun(run: seq<Net>, actions: seq<Action>) {
    && |run| == |actions| + 1 && Initial(run[0])
    && forall i :: 0 <= i < |actions| ==> Enabled(run[i], actions[i]) && run[i + 1] == Step(run[i], actions[i])
  }

  lemma {:induction false} RunKeeps(run: seq<Net>, actions: seq<Action>, i: nat)
    requires IsRun(run, actions) && i < |run|
    ensures Inv(run[i])
  {
    if i == 0 {
      assert Concat(run[0].frames) == [];
    } else {
      RunKeeps(run, actions, i - 1);
      StepKeeps(run[i - 1], actions[i - 1]);
      assert run[i] == Step(run[i - 1], actions[i - 1]);
    }
  }

  /** End-to-end delivery: in every run, whatever the interleaving, the partial sends and the cuts of recv,
      the packages handed to the receiver are the first frames appended, in the order of the lock, each whole and
      unchanged. */
  lemma {:induction false} Delivery(run: seq<Net>, actions: seq<Action>, i: nat)
    requires IsRun(run, actions) && i < |run|
    ensures IsPrefix(run[i].reader.packages, run[i].frames)
  {
    RunKeeps(run, actions, i);
    ReceivedIsPrefix(run[i]);
    FramesArePrefix(run[i].reader.packages, run[i].reader.pending, run[i].frames);
  }

  lemma {:induction false} ReceivedIsPrefix(s: Net)
    requires Inv(s)
    ensures IsPrefix(Concat(s.reader.packages) + s.reader.pending, Concat(s.frames))
  {
    var p := Concat(s.reader.packages) + s.reader.pending;
    assert Concat(s.frames) == p + s.wire + s.link.buffer;
  }

  /** The reader always has room for more, because every frame fits the read buffer. */
  lemma {:induction false} NeverFull(run: seq<Net>, actions: seq<Action>, i: nat)
    requires IsRun(run, actions) && i < |run|
    ensures |run[i].reader.pending| < READ_BUFFER
  {
    var s := run[i];
    RunKeeps(run, actions, i);
    ReceivedIsPrefix(s);
    FramesArePrefix(s.reader.packages, s.reader.pending, s.frames);
    RestIsShort(s.reader.pending, s.frames[|s.reader.packages|..]);
  }

  /** Nothing is held back: once the send buffer and the wire are empty, every frame has been handed over. */
  lemma {:induction false} Drained(run: seq<Net>, actions: seq<Action>, i: nat)
    requires IsRun(run, actions) && i < |run| && run[i].link.buffer == [] && run[i].wire == []
    ensures run[i].reader == Reader(run[i].frames, [])
  {
    var s := run[i];
    RunKeeps(run, actions, i);
    ReceivedIsPrefix(s);
    FramesArePrefix(s.reader.packages, s.reader.pending, s.frames);
    var later := s.frames[|s.reader.packages|..];
    assert s.frames == s.reader.packages + later;
    ConcatAppend(s.reader.packages, later);
    assert Concat(s.reader.packages) + s.reader.pending == Concat(s.frames);
    assert s.reader.pending == Concat(later);
    RestIsShort(s.reader.pending, later);
  }

  /** Sending keeps every byte, and loses no wakeup: while bytes wait, a do_send is owed, or EPOLLOUT has been
      registered since the last EAGAIN and is still to be reported, or the connection is closing. */
  lemma {:induction false} SendsEverything(run: seq<Net>, actions: seq<Action>, i: nat)
    requires IsRun(run, actions) && i < |run|
    ensures run[i].sent + run[i].link.buffer == Concat(run[i].frames)
    ensures run[i].link.buffer != [] ==>
      run[i].calls > 0 || run[i].turn.Sending? || (run[i].edge && run[i].link.out) || Shut(run[i].link)
  {
    RunKeeps(run, actions, i);
  }
}
