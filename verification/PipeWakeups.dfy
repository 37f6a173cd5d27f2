/** Who is woken, and when nobody is: the edge-triggered events of both ends of a pipe over whole runs. */
module PipeWakeups {
  import opened PipeFrames
  import opened TcpConnection
  import opened PipeNetwork

  // ---------- since ----------

  /** Before step `i` something was set and has not been reset since. */
  predicate Since(sets: seq<bool>, resets: seq<bool>, i: nat)
    requires i <= |sets| == |resets|
  {
    exists j :: 0 <= j < i && sets[j] && !(exists k :: j < k < i && resets[k])
  }

  predicate Switches(before: bool, after: bool, on: bool, reset: bool) {
    if before then !on && after == !reset else after == on
  }

  lemma {:induction false} Latch(state: seq<bool>, sets: seq<bool>, resets: seq<bool>, i: nat)
    requires |state| == |sets| + 1 == |resets| + 1 && i < |state| && !state[0]
    requires forall k :: 0 <= k < |sets| ==> Switches(state[k], state[k + 1], sets[k], resets[k])
    ensures state[i] <==> Since(sets, resets, i)
  {
    if i > 0 {
      Latch(state, sets, resets, i - 1);
      assert Switches(state[i - 1], state[i], sets[i - 1], resets[i - 1]);
    }
  }

  // ---------- the receiver ----------

  /** recv ends at the end of a frame although there is more, and no event is outstanding: do_read stops. */
  predicate Strands(s: Net, a: Action)
    requires Enabled(s, a)
  {
    a.Recv? && !s.arrival && a.n < |s.wire| && Feed(s.reader, s.wire[..a.n]).pending == []
  }

  /** New bytes reach the kernel, or the receiver is woken for another reason. */
  predicate Rescues(s: Net, a: Action)
    requires Enabled(s, a)
  {
    match a
    case Touch => true
    case CallerSend(answer) => Taken(s.link, answer) != []
    case PollerSend(answer) => Taken(s.link, answer) != []
    case _ => false
  }

  lemma {:induction false} StepStrands(s: Net, a: Action)
    requires Enabled(s, a)
    ensures !Stranded(s) ==> (Stranded(Step(s, a)) <==> Strands(s, a))
    ensures Stranded(s) ==> !Strands(s, a) && (Stranded(Step(s, a)) <==> !Rescues(s, a))
  {
    match a
    case CallerSend(answer) => TakesNone(s, answer);
    case PollerSend(answer) => TakesNone(s, answer);
    case _ =>
  }

  lemma {:induction false} TakesNone(s: Net, answer: SendAnswer)
    requires Plausible(s.link, answer)
    ensures Taken(s.link, answer) == [] ==> Section(s, answer).wire == s.wire
  {
  }

  /** Bytes are left in the kernel with nobody to fetch them exactly when some recv ended at the end of a frame before
      the end of what had come, with no event outstanding, and nothing has come to the rescue since. */
  lemma {:induction false} StrandedExactly(run: seq<Net>, actions: seq<Action>, i: nat)
    requires IsRun(run, actions) && i < |run|
    ensures Stranded(run[i]) <==> Since(Strandings(run, actions), Rescuings(run, actions), i)
  {
    var state := seq(|run|, k requires 0 <= k < |run| => Stranded(run[k]));
    var sets, resets := Strandings(run, actions), Rescuings(run, actions);
    forall k | 0 <= k < |actions| ensures Switches(state[k], state[k + 1], sets[k], resets[k]) {
      StepStrands(run[k], actions[k]);
    }
    Latch(state, sets, resets, i);
  }

  /** Which actions of a run strand the receiver, and which come to its rescue. */
  ghost function Strandings(run: seq<Net>, actions: seq<Action>): (r: seq<bool>)
    requires IsRun(run, actions)
    ensures |r| == |actions| && forall k :: 0 <= k < |r| ==> r[k] == Strands(run[k], actions[k])
  {
    seq(|actions|, k requires 0 <= k < |actions| && IsRun(run, actions) => Strands(run[k], actions[k]))
  }

  ghost function Rescuings(run: seq<Net>, actions: seq<Action>): (r: seq<bool>)
    requires IsRun(run, actions)
    ensures |r| == |actions| && forall k :: 0 <= k < |r| ==> r[k] == Rescues(run[k], actions[k])
  {
    seq(|actions|, k requires 0 <= k < |actions| && IsRun(run, actions) => Rescues(run[k], actions[k]))
  }

  /** A recv that takes all there is, or all that fits, leaves bytes behind only when frames fill the read buffer to
      its last byte. */
  predicate TakesAll(s: Net, n: nat) { n == |s.wire| || |s.reader.pending| + n == READ_BUFFER }

  lemma {:induction false} FullBufferStrands(s: Net, n: nat)
    requires Enabled(s, Recv(n)) && TakesAll(s, n)
    ensures Strands(s, Recv(n)) <==>
      && !s.arrival && n < |s.wire| && |s.reader.pending| + n == READ_BUFFER
      && CutFrames(s.reader.pending + s.wire[..n]).rest == []
  {
  }

  ghost predicate IsMessage(h: Head, body: Bytes) { Enabled(Start(), Msend(h, body)) }

  function Start(): Net { Net([], Link([], false, Status.Open), 0, Away, false, [], [], false, false, Reader([], [])) }

  lemma {:induction false} OneMessage(s: Net, h: Head, body: Bytes)
    requires IsMessage(h, body) && s.link == Link([], false, Status.Open) && s.calls == 0
    ensures var f := Encode(h, body); var t := Step(s, Msend(h, body));
      && t == s.(frames := s.frames + [f], link := s.link.(buffer := f), calls := 1)
      && Enabled(t, CallerSend(Took(|f|)))
      && Step(t, CallerSend(Took(|f|))) ==
         s.(frames := s.frames + [f], sent := s.sent + f, wire := s.wire + f, arrival := true, edge := s.edge)
  {
    AppendsFrame(0, h, body);
    assert [] + Encode(h, body) == Encode(h, body);
  }

  lemma {:induction false} OneFrame(f: Bytes)
    requires IsFrame(f)
    ensures Feed(Reader([], []), f) == Reader([f], [])
  {
    FrameInFront(f, []);
    assert f + [] == f && [] + f == f && [f] + [] == [f] && [] + [f] == [f];
    assert CutFrames(f) == Cut([f] + CutFrames([]).frames, CutFrames([]).rest);
  }

  ghost function Last(run: seq<Net>): Net
    requires run != []
  {
    run[|run| - 1]
  }

  lemma {:induction false} StartRuns()
    ensures IsRun([Start()], [])
  {
  }

  /** One action more. */
  lemma {:induction false} Extend(run: seq<Net>, actions: seq<Action>, a: Action) returns (r: seq<Net>, b: seq<Action>)
    requires IsRun(run, actions) && Enabled(Last(run), a)
    ensures r == run + [Step(Last(run), a)] && b == actions + [a] && IsRun(r, b)
  {
    r, b := run + [Step(Last(run), a)], actions + [a];
    forall i | 0 <= i < |b| ensures Enabled(r[i], b[i]) && r[i + 1] == Step(r[i], b[i]) {
      if i < |actions| { assert r[i] == run[i] && r[i + 1] == run[i + 1]; }
    }
  }

  /** Such a run, for any two messages: recv returns the first frame, and the second stays in the kernel.  When the
      first fills the read buffer, recv cannot return more. */
  lemma {:induction false} StrandedRun(h1: Head, b1: Bytes, h2: Head, b2: Bytes)
    returns (run: seq<Net>, actions: seq<Action>)
    requires IsMessage(h1, b1) && IsMessage(h2, b2)
    ensures IsRun(run, actions) && |actions| == 6 && actions[5] == Recv(|Encode(h1, b1)|)
    ensures HEAD_SIZE + |b1| == READ_BUFFER ==> TakesAll(run[5], |Encode(h1, b1)|)
    ensures Stranded(run[6]) && run[6].frames == [Encode(h1, b1), Encode(h2, b2)]
    ensures run[6].wire == Encode(h2, b2) && run[6].reader == Reader([Encode(h1, b1)], [])
  {
    var f, g := Encode(h1, b1), Encode(h2, b2);
    StartRuns();
    run, actions := SendMessage([Start()], [], h1, b1);
    assert [] + [f] == [f] && [] + f == f;
    run, actions := SendMessage(run, actions, h2, b2);
    assert [f] + [g] == [f, g];
    run, actions := Extend(run, actions, Arrive);
    EncodeIsFrame(h1, b1);
    RecvFirst(Last(run), f, g);
    run, actions := Extend(run, actions, Recv(|f|));
  }

  /** In particular with a first frame of 8 MB. */
  lemma {:induction false} FullBufferRun() returns (run: seq<Net>, actions: seq<Action>)
    ensures IsRun(run, actions) && |actions| == 6 && actions[5] == Recv(READ_BUFFER) && TakesAll(run[5], READ_BUFFER)
    ensures Stranded(run[6])
  {
    var n := READ_BUFFER - HEAD_SIZE;
    run, actions := StrandedRun(Head(n, 0, 0), seq(n, _ => 0), Head(0, 0, 0), []);
  }

  lemma {:induction false} RecvFirst(s: Net, f: Bytes, g: Bytes)
    requires IsFrame(f) && |f| <= READ_BUFFER && s.reading && !s.arrival && g != []
    requires s.wire == f + g && s.reader == Reader([], [])
    ensures Enabled(s, Recv(|f|)) && var t := Step(s, Recv(|f|));
      t.wire == g && t.reader == Reader([f], []) && Stranded(t)
    ensures Step(s, Recv(|f|)).frames == s.frames
  {
    OneFrame(f);
    assert (f + g)[..|f|] == f && (f + g)[|f|..] == g;
  }

  /** A message is appended and sent at once. */
  lemma {:induction false} SendMessage(run: seq<Net>, actions: seq<Action>, h: Head, body: Bytes)
    returns (r: seq<Net>, b: seq<Action>)
    requires IsRun(run, actions) && IsMessage(h, body)
    requires Last(run).link == Link([], false, Status.Open) && Last(run).calls == 0
    ensures var f := Encode(h, body); var s := Last(run);
      && IsRun(r, b) && |b| == |actions| + 2
      && Last(r) == s.(frames := s.frames + [f], sent := s.sent + f, wire := s.wire + f, arrival := true)
  {
    OneMessage(Last(run), h, body);
    r, b := Extend(run, actions, Msend(h, body));
    r, b := Extend(r, b, CallerSend(Took(|Encode(h, body)|)));
  }

  // ---------- the sender's close ----------

  /** The connection is closing, and nothing will make the epoll thread finish it. */
  predicate Missed(s: Net) { s.link.status.Closing? && s.turn.Away? && !s.edge }

  /** A do_send that msend owed finds the buffer empty and takes back the EPOLLOUT that close has registered. */
  predicate TakesBack(s: Net, a: Action)
    requires Enabled(s, a)
  {
    a.CallerSend? && s.link.buffer == [] && s.link.status.Closing? && s.turn.Away? && s.edge
  }

  /** Once closing, a connection with an empty buffer stays so. */
  ghost predicate MissedInv(s: Net) { Missed(s) ==> s.link.buffer == [] }

  lemma {:induction false} StepMisses(s: Net, a: Action)
    requires Enabled(s, a) && MissedInv(s)
    ensures MissedInv(Step(s, a)) && Switches(Missed(s), Missed(Step(s, a)), TakesBack(s, a), a.OtherEvent?)
  {
  }

  /** A closing connection is left unfinished exactly when a do_send took EPOLLOUT back after close, while the epoll
      thread was away, and no other event has come since. */
  lemma {:induction false} MissedExactly(run: seq<Net>, actions: seq<Action>, i: nat)
    requires IsRun(run, actions) && i < |run|
    ensures Missed(run[i]) <==> Since(TakingsBack(run, actions), OtherEvents(actions), i)
  {
    var state := seq(|run|, k requires 0 <= k < |run| => Missed(run[k]));
    var sets, resets := TakingsBack(run, actions), OtherEvents(actions);
    forall k | 0 <= k < |actions| ensures Switches(state[k], state[k + 1], sets[k], resets[k]) {
      MissedEmpty(run, actions, k);
      StepMisses(run[k], actions[k]);
    }
    Latch(state, sets, resets, i);
  }

  lemma {:induction false} MissedEmpty(run: seq<Net>, actions: seq<Action>, i: nat)
    requires IsRun(run, actions) && i < |run|
    ensures MissedInv(run[i])
  {
    if i > 0 {
      MissedEmpty(run, actions, i - 1);
      StepMisses(run[i - 1], actions[i - 1]);
    }
  }

  ghost function TakingsBack(run: seq<Net>, actions: seq<Action>): (r: seq<bool>)
    requires IsRun(run, actions)
    ensures |r| == |actions| && forall k :: 0 <= k < |r| ==> r[k] == TakesBack(run[k], actions[k])
  {
    seq(|actions|, k requires 0 <= k < |actions| && IsRun(run, actions) => TakesBack(run[k], actions[k]))
  }

  function OtherEvents(actions: seq<Action>): (r: seq<bool>)
    ensures |r| == |actions| && forall k :: 0 <= k < |r| ==> r[k] == actions[k].OtherEvent?
  {
    seq(|actions|, k requires 0 <= k < |actions| => actions[k].OtherEvent?)
  }

  /** A connection of the connecting side, whose do_connect has registered EPOLLOUT. */
  function Connecting(): Net {
    Net([], Link([], true, Idle), 0, Away, true, [], [], false, false, Reader([], []))
  }

  /** A message in the send buffer, while the epoll thread is on its way to do_send. */
  function Racing(f: Bytes): Net {
    Connecting().(frames := [f], link := Link(f, true, Status.Open), calls := 1, turn := Sending, edge := false)
  }

  lemma {:induction false} RaceBegins(h: Head, body: Bytes) returns (run: seq<Net>, actions: seq<Action>)
    requires IsMessage(h, body)
    ensures IsRun(run, actions) && |actions| == 2 && Last(run) == Racing(Encode(h, body))
    ensures forall k :: 0 <= k < |actions| ==> !actions[k].OtherEvent?
  {
    AppendsFrame(0, h, body);
    assert [] + Encode(h, body) == Encode(h, body) && [] + [Encode(h, body)] == [Encode(h, body)];
    assert IsRun([Connecting()], []);
    run, actions := Extend([Connecting()], [], Report);
    run, actions := Extend(run, actions, Msend(h, body));
  }

  /** Such a run, for any message: the epoll thread sends it before its writer does, the connection is closed, and
      the writer's do_send finds nothing to send. */
  lemma {:induction false} MissedRun(h: Head, body: Bytes) returns (run: seq<Net>, actions: seq<Action>)
    requires IsMessage(h, body)
    ensures IsRun(run, actions) && |actions| == 6 && actions[4] == CloseConnection && Missed(run[6])
    ensures forall k :: 0 <= k < |actions| ==> !actions[k].OtherEvent?
  {
    run, actions := RaceBegins(h, body);
    run, actions := Extend(run, actions, PollerSend(Took(|Encode(h, body)|)));
    run, actions := Extend(run, actions, EndEvent);
    run, actions := Extend(run, actions, CloseConnection);
    run, actions := Extend(run, actions, CallerSend(WouldBlock));
  }

  // ---------- progress ----------

  /** What the two programs and the kernel do of themselves, as long as the kernel takes what it is offered. */
  predicate Inner(a: Action) {
    match a
    case CallerSend(answer) => answer.Took?
    case PollerSend(answer) => answer.Took?
    case Report => true
    case EndEvent => true
    case Arrive => true
    case Recv(_) => true
    case RecvBlocks => true
    case _ => false
  }

  ghost predicate Quiet(s: Net) { forall a :: Inner(a) ==> !Enabled(s, a) }

  function One(b: bool): nat { if b then 1 else 0 }

  /** A bound on the inner actions still to come. */
  function Work(s: Net): nat {
    4 * |s.link.buffer| + |s.wire| + s.calls + 3 * One(s.edge) + 2 * One(s.arrival) + One(s.reading) +
    match s.turn { case Away => 0 case Sending => 2 case Checking => 1 }
  }

  lemma {:induction false} WorkGetsLess(s: Net, a: Action)
    requires Enabled(s, a) && Inner(a)
    ensures Work(Step(s, a)) < Work(s) && Step(s, a).frames == s.frames
  {
  }

  lemma {:induction false} QuietIs(s: Net)
    requires Quiet(s) && |s.reader.pending| < READ_BUFFER
    ensures s.calls == 0 && s.turn.Away? && !s.edge && !s.arrival && !s.reading
  {
    var all := Took(|s.link.buffer|);
    assert !Enabled(s, CallerSend(all)) && !Enabled(s, PollerSend(all)) && !Enabled(s, EndEvent) && !Enabled(s, Report);
    assert !Enabled(s, Recv(1)) && !Enabled(s, RecvBlocks) && !Enabled(s, Arrive);
  }

  /** No deadlock but the two that are known: when nothing goes on of itself, a connection that is not closing has
      handed over every frame, unless the receiver is stranded; and a closing one is a missed one. */
  lemma {:induction false} Progress(run: seq<Net>, actions: seq<Action>, i: nat)
    requires IsRun(run, actions) && i < |run| && Quiet(run[i])
    ensures !Shut(run[i].link) ==> (run[i].reader.packages == run[i].frames <==> !Stranded(run[i]))
    ensures run[i].link.status.Closing? ==> Missed(run[i])
  {
    var s := run[i];
    RunKeeps(run, actions, i);
    NeverFull(run, actions, i);
    QuietIs(s);
    if !Shut(s.link) {
      if s.wire == [] { Drained(run, actions, i); }
      if s.reader.packages == s.frames { assert |s.sent| >= |Concat(s.frames)| + |s.wire|; }
    }
  }

  /** Inner actions come to an end, and then every frame has been handed over: delivery is bound to happen if the
      kernel takes what it is offered, unless the receiver is stranded. */
  lemma {:induction false} Delivers(run: seq<Net>, actions: seq<Action>, i: nat, j: nat)
    requires IsRun(run, actions) && i <= j < |run| && (forall k :: i <= k < j ==> Inner(actions[k]))
    ensures j - i <= Work(run[i]) - Work(run[j]) && run[j].frames == run[i].frames
    ensures Quiet(run[j]) && !Shut(run[j].link) && !Stranded(run[j]) ==> run[j].reader == Reader(run[i].frames, [])
    decreases j - i
  {
    if i < j {
      WorkGetsLess(run[i], actions[i]);
      Delivers(run, actions, i + 1, j);
    } else if Quiet(run[j]) && !Shut(run[j].link) && !Stranded(run[j]) {
      RunKeeps(run, actions, j);
      NeverFull(run, actions, j);
      QuietIs(run[j]);
      Drained(run, actions, j);
    }
  }
}
