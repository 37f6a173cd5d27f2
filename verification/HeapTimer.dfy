/** HeapTimer: timers in a heap, and runs in which handlers start and stop timers.

    `Timers` is the state of the scheduler together with the log of what it did; a run interleaves the
    passing of time, calls of start_timer and stop_timer, from inside handlers or outside, and
    the steps of timer_loop. */
module HeapTimer {
  import opened MinHeap

  datatype Node = Node(interval: nat, loop: bool, stopped: bool, expire: int)

  /** Where timer_loop is: it has tested `stopped` and is about to call the handler, or is inside one. */
  datatype Phase = Outside | Committed(e: Entry) | InHandler(id: nat)

  datatype Event = Started(id: nat) | Fired(id: nat, expire: int, time: int) | Stopped(id: nat)

  /** `nodes` holds every node ever made, which the heap may still refer to; `known` the identifiers in
      timer_nodes. */
  datatype Timers = Timers(now: int, heap: multiset<Entry>, nodes: map<nat, Node>, known: set<nat>, next: nat,
                           phase: Phase, log: seq<Event>)

  /** `Start` inserts a node whose expiry was computed at time `made`: now, when start_timer is called from the loop's
      own thread, but another thread may be held up in between. */
  datatype Action =
    | Tick(time: int)
    | Start(interval: nat, loop: bool, made: int)
    | Stop(id: nat)
    | Take(e: Entry)
    | Fire
    | Return(result: bool)

  ghost predicate IsTop(heap: multiset<Entry>, e: Entry) { e in heap && forall d :: d in heap ==> e.expire <= d.expire }

  ghost predicate Enabled(t: Timers, a: Action) {
    match a
    case Tick(time) => t.now <= time
    case Start(_, _, made) => made <= t.now
    case Stop(id) => id in t.known ==> id in t.nodes
    case Take(e) => t.phase.Outside? && IsTop(t.heap, e) && e.expire <= t.now && e.id in t.nodes
    case Fire => t.phase.Committed?
    case Return(_) => t.phase.InHandler? && t.phase.id in t.nodes
  }

  function StartOne(t: Timers, interval: nat, loop: bool, made: int): Timers {
    var id, at := t.next, made + interval;
    t.(heap := t.heap + multiset{Entry(id, at)}, nodes := t.nodes[id := Node(interval, loop, false, at)],
       known := t.known + {id}, next := id + 1, log := t.log + [Started(id)])
  }

  function StopOne(t: Timers, id: nat): Timers
    requires id in t.known ==> id in t.nodes
  {
    if id !in t.known then t
    else t.(nodes := t.nodes[id := t.nodes[id].(stopped := true)], known := t.known - {id},
      log := t.log + [Stopped(id)])
  }

  /** One turn of the loop in timer_loop, up to the test of `stopped`. */
  function TakeOne(t: Timers, e: Entry): Timers
    requires e.id in t.nodes
  {
    var u := t.(heap := t.heap - multiset{e});
    if t.nodes[e.id].stopped then u else u.(phase := Committed(e))
  }

  /** The call of the handler. */
  function FireOne(t: Timers): Timers
    requires t.phase.Committed?
  {
    var e := t.phase.e;
    t.(phase := InHandler(e.id), log := t.log + [Fired(e.id, e.expire, t.now)])
  }

  /** The rest of handle_timeout, once the handler has answered. */
  function ReturnOne(t: Timers, result: bool): Timers
    requires t.phase.InHandler? && t.phase.id in t.nodes
  {
    var id := t.phase.id;
    var n := t.nodes[id];
    var u := t.(phase := Outside);
    if !result then u.(nodes := t.nodes[id := n.(stopped := true)], known := t.known - {id})
    else if n.loop && !n.stopped then
      var at := t.now + n.interval;
      u.(nodes := t.nodes[id := n.(expire := at)], heap := t.heap + multiset{Entry(id, at)})
    else u
  }

  ghost function Step(t: Timers, a: Action): Timers
    requires Enabled(t, a)
  {
    match a
    case Tick(time) => t.(now := time)
    case Start(interval, loop, made) => StartOne(t, interval, loop, made)
    case Stop(id) => StopOne(t, id)
    case Take(e) => TakeOne(t, e)
    case Fire => FireOne(t)
    case Return(result) => ReturnOne(t, result)
  }

  // ---------- what a log must be like ----------

  /** Handlers fire in the order of expiry. */
  ghost predicate InOrder(log: seq<Event>) {
    forall i, j :: 0 <= i < j < |log| && log[i].Fired? && log[j].Fired? ==> log[i].expire <= log[j].expire
  }

  /** No handler fires early. */
  ghost predicate NotEarly(log: seq<Event>) {
    forall i :: 0 <= i < |log| && log[i].Fired? ==> log[i].expire <= log[i].time
  }

  /** Nothing fires after it was stopped. */
  ghost predicate StopsHold(log: seq<Event>) {
    forall i, j :: 0 <= i < j < |log| && log[i].Stopped? && log[j].Fired? ==> log[i].id != log[j].id
  }

  /** What fires twice is a loop. */
  ghost predicate OnceUnlessLoop(log: seq<Event>, nodes: map<nat, Node>) {
    forall i, j ::
      0 <= i < j < |log| && log[i].Fired? && log[j].Fired? && log[i].id == log[j].id && log[i].id in nodes ==>
        nodes[log[i].id].loop
  }

  // ---------- what every step keeps ----------

  /** Every entry is for a node, once, and agrees with it. */
  ghost predicate HeapOk(t: Timers) {
    && (forall e :: e in t.heap ==> t.heap[e] == 1 && e.id in t.nodes && t.nodes[e.id].expire == e.expire)
    && (t.phase.InHandler? ==> t.phase.id in t.nodes && forall e :: e in t.heap ==> e.id != t.phase.id)
    && (t.phase.Committed? ==> t.phase.e.expire <= t.now && t.phase.e.id in t.nodes &&
                               forall e :: e in t.heap ==> e.id != t.phase.e.id)
    && (forall id :: id in t.known ==> id in t.nodes)
    && (forall id :: id in t.nodes ==> id < t.next)
  }

  /** What the log says of the past fits what is waiting. */
  ghost predicate LogOk(t: Timers) {
    && (forall i :: 0 <= i < |t.log| ==> t.log[i].id in t.nodes)
    && (forall i, e :: 0 <= i < |t.log| && t.log[i].Fired? && e in t.heap && t.log[i].id == e.id ==> t.nodes[e.id].loop)
    && (t.phase.Committed? && t.phase.e.id in t.nodes ==>
          forall i :: 0 <= i < |t.log| && t.log[i].Fired? && t.log[i].id == t.phase.e.id ==> t.nodes[t.phase.e.id].loop)
  }

  ghost predicate Inv(t: Timers) { HeapOk(t) && LogOk(t) && NotEarly(t.log) && OnceUnlessLoop(t.log, t.nodes) }

  /** Every entry of the old log is where it was. */
  lemma {:induction false} LogGrows(log: seq<Event>, e: Event)
    ensures var more := log + [e];
      more[|log|] == e && (forall i :: 0 <= i < |log| ==> more[i] == log[i])
  {}

  /** An event other than a firing disturbs nothing. */
  lemma {:induction false} QuietEvent(log: seq<Event>, e: Event)
    requires !e.Fired?
    ensures InOrder(log) ==> InOrder(log + [e])
    ensures NotEarly(log) ==> NotEarly(log + [e])
    ensures StopsHold(log) ==> StopsHold(log + [e])
  {
    LogGrows(log, e);
  }

  lemma {:induction false} StartHeapOk(t: Timers, interval: nat, loop: bool, made: int)
    requires HeapOk(t)
    ensures HeapOk(StartOne(t, interval, loop, made))
  {
    var u, e := StartOne(t, interval, loop, made), Entry(t.next, made + interval);
    forall d | d in u.heap ensures u.heap[d] == 1 && d.id in u.nodes && u.nodes[d.id].expire == d.expire {
      if d in t.heap { assert d.id < t.next && d != e; } else { assert d == e; }
    }
  }

  lemma {:induction false} StartLogOk(t: Timers, interval: nat, loop: bool, made: int)
    requires Inv(t)
    ensures var u := StartOne(t, interval, loop, made); LogOk(u) && OnceUnlessLoop(u.log, u.nodes)
  {
    LogGrows(t.log, Started(t.next));
    assert forall i :: 0 <= i < |t.log| ==> t.log[i].id < t.next;
  }

  lemma {:induction false} StartKeeps(t: Timers, interval: nat, loop: bool, made: int)
    requires Inv(t)
    ensures Inv(StartOne(t, interval, loop, made))
  {
    StartHeapOk(t, interval, loop, made);
    StartLogOk(t, interval, loop, made);
    QuietEvent(t.log, Started(t.next));
  }

  lemma {:induction false} StopKeeps(t: Timers, id: nat)
    requires Inv(t) && Enabled(t, Stop(id))
    ensures Inv(StopOne(t, id))
  {
    LogGrows(t.log, Stopped(id));
    QuietEvent(t.log, Stopped(id));
    StopLogOk(t, id);
  }

  lemma {:induction false} StopLogOk(t: Timers, id: nat)
    requires Inv(t) && Enabled(t, Stop(id))
    ensures var u := StopOne(t, id); LogOk(u) && OnceUnlessLoop(u.log, u.nodes)
  {
    LogGrows(t.log, Stopped(id));
  }

  lemma {:induction false} OthersWait(t: Timers, e: Entry, d: Entry)
    requires HeapOk(t) && e in t.heap && d in t.heap - multiset{e}
    ensures d in t.heap && d != e && d.id != e.id
  {}

  lemma {:induction false} TakeHeapOk(t: Timers, e: Entry)
    requires Inv(t) && Enabled(t, Take(e))
    ensures HeapOk(TakeOne(t, e))
  {
    var u := TakeOne(t, e);
    forall d | d in u.heap
      ensures u.heap[d] == 1 && d.id in u.nodes && u.nodes[d.id].expire == d.expire && d.id != e.id
    {
      OthersWait(t, e, d);
    }
  }

  lemma {:induction false} TakeLogOk(t: Timers, e: Entry)
    requires Inv(t) && Enabled(t, Take(e))
    ensures LogOk(TakeOne(t, e))
  {
    var u := TakeOne(t, e);
    forall i, d | 0 <= i < |u.log| && u.log[i].Fired? && d in u.heap && u.log[i].id == d.id ensures u.nodes[d.id].loop {
      OthersWait(t, e, d);
    }
  }

  lemma {:induction false} TakeKeeps(t: Timers, e: Entry)
    requires Inv(t) && Enabled(t, Take(e))
    ensures Inv(TakeOne(t, e))
  {
    TakeHeapOk(t, e);
    TakeLogOk(t, e);
  }

  lemma {:induction false} FireKeeps(t: Timers)
    requires Inv(t) && Enabled(t, Fire)
    ensures Inv(FireOne(t))
  {
    LogGrows(t.log, Fired(t.phase.e.id, t.phase.e.expire, t.now));
  }

  lemma {:induction false} ReturnHeapOk(t: Timers, result: bool)
    requires HeapOk(t) && Enabled(t, Return(result))
    ensures HeapOk(ReturnOne(t, result))
  {}

  lemma {:induction false} ReturnLogOk(t: Timers, result: bool)
    requires Inv(t) && Enabled(t, Return(result))
    ensures var u := ReturnOne(t, result); LogOk(u) && OnceUnlessLoop(u.log, u.nodes)
  {}

  lemma {:induction false} ReturnKeeps(t: Timers, result: bool)
    requires Inv(t) && Enabled(t, Return(result))
    ensures Inv(ReturnOne(t, result))
  {
    ReturnHeapOk(t, result);
    ReturnLogOk(t, result);
  }

  lemma {:induction false} StepKeeps(t: Timers, a: Action)
    requires Inv(t) && Enabled(t, a)
    ensures Inv(Step(t, a))
  {
    match a
    case Tick(_) =>
    case Start(interval, loop, made) => StartKeeps(t, interval, loop, made);
    case Stop(id) => StopKeeps(t, id);
    case Take(e) => TakeKeeps(t, e);
    case Fire => FireKeeps(t);
    case Return(result) => ReturnKeeps(t, result);
  }

  // ---------- the order of firing ----------

  /** What waits expires no earlier than anything that has fired or is about to, and nothing has fired from the
      future. */
  ghost predicate OrderInv(t: Timers) {
    && InOrder(t.log) && Timely(t, t.now)
    && (forall i, e :: 0 <= i < |t.log| && t.log[i].Fired? && e in t.heap ==> t.log[i].expire <= e.expire)
    && (t.phase.Committed? ==>
          && (forall i :: 0 <= i < |t.log| && t.log[i].Fired? ==> t.log[i].expire <= t.phase.e.expire)
          && (forall e :: e in t.heap ==> t.phase.e.expire <= e.expire))
  }

  /** Nothing that has fired, or is about to, was to expire after `at`. */
  ghost predicate Timely(t: Timers, at: int) {
    && (forall i :: 0 <= i < |t.log| && t.log[i].Fired? ==> t.log[i].expire <= at)
    && (t.phase.Committed? ==> t.phase.e.expire <= at)
  }

  /** A node is inserted before anything fires that expires later. */
  ghost predicate Punctual(t: Timers, a: Action) { a.Start? ==> Timely(t, a.made + a.interval) }

  lemma {:induction false} StartKeepsOrder(t: Timers, interval: nat, loop: bool, made: int)
    requires OrderInv(t) && Timely(t, made + interval)
    ensures OrderInv(StartOne(t, interval, loop, made))
  {
    LogGrows(t.log, Started(t.next));
    QuietEvent(t.log, Started(t.next));
  }

  lemma {:induction false} StopKeepsOrder(t: Timers, id: nat)
    requires OrderInv(t) && Enabled(t, Stop(id))
    ensures OrderInv(StopOne(t, id))
  {
    LogGrows(t.log, Stopped(id));
    QuietEvent(t.log, Stopped(id));
  }

  lemma {:induction false} TakeKeepsOrder(t: Timers, e: Entry)
    requires Inv(t) && OrderInv(t) && Enabled(t, Take(e))
    ensures OrderInv(TakeOne(t, e))
  {
    var u := TakeOne(t, e);
    forall d | d in u.heap ensures d in t.heap {
      OthersWait(t, e, d);
    }
  }

  lemma {:induction false} FireKeepsOrder(t: Timers)
    requires Inv(t) && OrderInv(t) && Enabled(t, Fire)
    ensures OrderInv(FireOne(t))
  {
    LogGrows(t.log, Fired(t.phase.e.id, t.phase.e.expire, t.now));
  }

  lemma {:induction false} StepKeepsOrder(t: Timers, a: Action)
    requires Inv(t) && OrderInv(t) && Enabled(t, a) && Punctual(t, a)
    ensures OrderInv(Step(t, a))
  {
    match a
    case Tick(_) =>
    case Start(interval, loop, made) => StartKeepsOrder(t, interval, loop, made);
    case Stop(id) => StopKeepsOrder(t, id);
    case Take(e) => TakeKeepsOrder(t, e);
    case Fire => FireKeepsOrder(t);
    case Return(_) =>
  }

  /** A call from the loop's own thread is always punctual. */
  lemma {:induction false} OwnThreadIsPunctual(t: Timers, interval: nat, loop: bool)
    requires OrderInv(t)
    ensures Punctual(t, Start(interval, loop, t.now))
  {}

  // ---------- stopping ----------

  /** Nothing has fired after it was stopped, and nothing that was stopped is about to fire. */
  ghost predicate StopInv(t: Timers) {
    && StopsHold(t.log)
    && (forall i :: 0 <= i < |t.log| && t.log[i].Stopped? && t.log[i].id in t.nodes ==> t.nodes[t.log[i].id].stopped)
    && (t.phase.Committed? ==> forall i :: 0 <= i < |t.log| && t.log[i].Stopped? ==> t.log[i].id != t.phase.e.id)
  }

  /** stop_timer succeeds between the test of `stopped` and the call of the handler. */
  predicate TooLate(t: Timers, a: Action) { a.Stop? && a.id in t.known && t.phase.Committed? && t.phase.e.id == a.id }

  lemma {:induction false} StopKeepsStops(t: Timers, id: nat)
    requires Inv(t) && StopInv(t) && Enabled(t, Stop(id)) && !TooLate(t, Stop(id))
    ensures StopInv(StopOne(t, id))
  {
    LogGrows(t.log, Stopped(id));
    QuietEvent(t.log, Stopped(id));
  }

  lemma {:induction false} StartKeepsStops(t: Timers, interval: nat, loop: bool, made: int)
    requires Inv(t) && StopInv(t)
    ensures StopInv(StartOne(t, interval, loop, made))
  {
    LogGrows(t.log, Started(t.next));
    QuietEvent(t.log, Started(t.next));
  }

  lemma {:induction false} FireKeepsStops(t: Timers)
    requires Inv(t) && StopInv(t) && Enabled(t, Fire)
    ensures StopInv(FireOne(t))
  {
    LogGrows(t.log, Fired(t.phase.e.id, t.phase.e.expire, t.now));
  }

  lemma {:induction false} StepKeepsStops(t: Timers, a: Action)
    requires Inv(t) && StopInv(t) && Enabled(t, a) && !TooLate(t, a)
    ensures StopInv(Step(t, a))
  {
    match a
    case Tick(_) =>
    case Start(interval, loop, made) => StartKeepsStops(t, interval, loop, made);
    case Stop(id) => StopKeepsStops(t, id);
    case Take(e) =>
    case Fire => FireKeepsStops(t);
    case Return(_) =>
  }

  // ---------- runs ----------

  const BASE_TIMER_INDEX: nat := 1024

  function Initial(now: int): Timers { Timers(now, multiset{}, map[], {}, BASE_TIMER_INDEX, Outside, []) }

  ghost predicate IsRun(run: seq<Timers>, actions: seq<Action>) {
    && |run| == |actions| + 1 && run[0] == Initial(run[0].now)
    && forall i :: 0 <= i < |actions| ==> Enabled(run[i], actions[i]) && run[i + 1] == Step(run[i], actions[i])
  }

  lemma {:induction false} RunKeeps(run: seq<Timers>, actions: seq<Action>, i: nat)
    requires IsRun(run, actions) && i < |run|
    ensures Inv(run[i])
  {
    if i > 0 {
      RunKeeps(run, actions, i - 1);
      StepKeeps(run[i - 1], actions[i - 1]);
      assert run[i] == Step(run[i - 1], actions[i - 1]);
    }
  }

  /** In every run with a clock that does not go back, whatever other threads start and stop: handlers never fire
      early, a one-shot at most once, and no node is in the heap twice. */
  lemma {:induction false} TimerSafety(run: seq<Timers>, actions: seq<Action>, i: nat)
    requires IsRun(run, actions) && i < |run|
    ensures NotEarly(run[i].log) && OnceUnlessLoop(run[i].log, run[i].nodes)
    ensures forall d, e :: d in run[i].heap && e in run[i].heap && d.id == e.id ==> d == e && run[i].heap[e] == 1
  {
    RunKeeps(run, actions, i);
  }

  /** And if no stop comes too late, as none does from the loop's own thread, none fires after stop_timer returned
      true for it. */
  lemma {:induction false} StopsFor(run: seq<Timers>, actions: seq<Action>, i: nat)
    requires IsRun(run, actions) && i < |run| && forall k :: 0 <= k < i ==> !TooLate(run[k], actions[k])
    ensures StopInv(run[i])
  {
    if i > 0 {
      RunKeeps(run, actions, i - 1);
      StopsFor(run, actions, i - 1);
      StepKeepsStops(run[i - 1], actions[i - 1]);
      assert run[i] == Step(run[i - 1], actions[i - 1]);
    }
  }

  /** And if every insertion is punctual, as it is from the loop's own thread, they fire in the order of expiry. */
  lemma {:induction false} FiresInOrder(run: seq<Timers>, actions: seq<Action>, i: nat)
    requires IsRun(run, actions) && i < |run|
    requires forall k :: 0 <= k < i ==>
      Punctual(run[k], actions[k]) || (actions[k].Start? && actions[k].made == run[k].now)
    ensures OrderInv(run[i])
  {
    if i > 0 {
      var t, a := run[i - 1], actions[i - 1];
      RunKeeps(run, actions, i - 1);
      FiresInOrder(run, actions, i - 1);
      if a.Start? && a.made == t.now { OwnThreadIsPunctual(t, a.interval, a.loop); }
      StepKeepsOrder(t, a);
      assert run[i] == Step(t, a);
    }
  }

  // ---------- a late insertion ----------

  /** `actions` lead from `t` to `u`. */
  ghost predicate Leads(t: Timers, actions: seq<Action>, u: Timers)
    decreases |actions|
  {
    if actions == [] then t == u else Enabled(t, actions[0]) && Leads(Step(t, actions[0]), actions[1..], u)
  }

  lemma {:induction false} LeadsFurther(t: Timers, actions: seq<Action>, m: Timers, more: seq<Action>, u: Timers)
    requires Leads(t, actions, m) && Leads(m, more, u)
    ensures Leads(t, actions + more, u)
    decreases |actions|
  {
    if actions == [] {
      assert actions + more == more;
    } else {
      LeadsFurther(Step(t, actions[0]), actions[1..], m, more, u);
      assert (actions + more)[0] == actions[0] && (actions + more)[1..] == actions[1..] + more;
    }
  }

  lemma {:induction false} LeadsOne(t: Timers, a: Action, actions: seq<Action>, u: Timers)
    requires Enabled(t, a) && Leads(Step(t, a), actions, u)
    ensures Leads(t, [a] + actions, u)
  {
    assert ([a] + actions)[0] == a && ([a] + actions)[1..] == actions;
  }

  predicate NoStart(actions: seq<Action>) { forall k :: 0 <= k < |actions| ==> !actions[k].Start? }

  lemma {:induction false} LeadsKeepOrder(t: Timers, actions: seq<Action>, u: Timers)
    requires Inv(t) && OrderInv(t) && Leads(t, actions, u) && NoStart(actions)
    ensures OrderInv(u)
    decreases |actions|
  {
    if actions != [] {
      StepKeeps(t, actions[0]);
      StepKeepsOrder(t, actions[0]);
      LeadsKeepOrder(Step(t, actions[0]), actions[1..], u);
    }
  }

  lemma {:induction false} LeastOf(heap: multiset<Entry>, e: Entry) returns (d: Entry)
    requires e in heap
    ensures IsTop(heap, d)
    decreases |heap|
  {
    var rest := heap - multiset{e};
    if rest == multiset{} {
      d := e;
      assert forall c :: c in heap ==> c == e || c in rest;
    } else {
      var c :| c in rest;
      d := LeastOf(rest, c);
      if e.expire < d.expire { d := e; }
      assert forall b :: b in heap ==> b == e || b in rest;
    }
  }

  /** Something has fired that expires after `e`. */
  ghost predicate Overtaken(t: Timers, e: Entry) { !Timely(t, e.expire) }

  lemma {:induction false} TakeThenFire(t: Timers, d: Entry, u: Timers)
    requires Inv(t) && Enabled(t, Take(d)) && !t.nodes[d.id].stopped && u == FireOne(TakeOne(t, d))
    ensures Leads(t, [Take(d)] + ([Fire] + []), u) && u.log == t.log + [Fired(d.id, d.expire, t.now)]
  {
    LeadsOne(TakeOne(t, d), Fire, [], u);
    LeadsOne(t, Take(d), [Fire] + [], u);
  }

  lemma {:induction false} OutOfOrder(t: Timers, at: int, d: Entry, log: seq<Event>)
    requires t.phase.Outside? && !Timely(t, at) && d.expire <= at && log == t.log + [Fired(d.id, d.expire, t.now)]
    ensures !InOrder(log)
  {
    LogGrows(t.log, Fired(d.id, d.expire, t.now));
    var i :| 0 <= i < |t.log| && t.log[i].Fired? && t.log[i].expire > at;
    assert log[i].Fired? && log[|t.log|].Fired? && log[i].expire > log[|t.log|].expire;
  }

  /** An overtaken entry that is due and not stopped fires late, or another one out of order before it. */
  lemma {:induction false} FiresLate(t: Timers, e: Entry) returns (actions: seq<Action>, u: Timers)
    requires Inv(t) && t.phase.Outside? && e in t.heap && e.expire <= t.now && !t.nodes[e.id].stopped && Overtaken(t, e)
    ensures Leads(t, actions, u) && NoStart(actions) && !InOrder(u.log)
    decreases |t.heap|
  {
    var d := LeastOf(t.heap, e);
    if t.nodes[d.id].stopped {
      var s := TakeOne(t, d);
      TakeKeeps(t, d);
      assert d.id != e.id && e in s.heap;
      var rest: seq<Action>;
      rest, u := FiresLate(s, e);
      actions := [Take(d)] + rest;
      LeadsOne(t, Take(d), rest, u);
    } else {
      u := FireOne(TakeOne(t, d));
      TakeThenFire(t, d, u);
      OutOfOrder(t, e.expire, d, u.log);
      actions := [Take(d)] + ([Fire] + []);
    }
  }

  /** The handler that is about to be called is called, and `e` keeps waiting. */
  lemma {:induction false} IntoHandler(t: Timers, e: Entry) returns (actions: seq<Action>, u: Timers)
    requires Inv(t) && e in t.heap && !t.nodes[e.id].stopped && Overtaken(t, e)
    ensures Leads(t, actions, u) && NoStart(actions) && Inv(u) && !u.phase.Committed?
    ensures e in u.heap && e.id in u.nodes && !u.nodes[e.id].stopped && Overtaken(u, e)
  {
    actions, u := [], t;
    if t.phase.Committed? {
      actions, u := [Fire] + [], FireOne(t);
      FireKeeps(t);
      LogGrows(t.log, Fired(t.phase.e.id, t.phase.e.expire, t.now));
      LeadsOne(t, Fire, [], u);
      StillOvertaken(t, e, u);
    }
  }

  lemma {:induction false} StillOvertaken(t: Timers, e: Entry, u: Timers)
    requires t.phase.Committed? && Overtaken(t, e) && u == FireOne(t)
    ensures Overtaken(u, e)
  {
    LogGrows(t.log, Fired(t.phase.e.id, t.phase.e.expire, t.now));
    if t.phase.e.expire > e.expire {
      assert u.log[|t.log|].Fired? && u.log[|t.log|].expire > e.expire;
    } else {
      var i :| 0 <= i < |t.log| && t.log[i].Fired? && t.log[i].expire > e.expire;
      assert u.log[i].Fired?;
    }
  }

  /** Out of the handler, and on to the time when `e` is due. */
  lemma {:induction false} ComesDue(t: Timers, e: Entry) returns (actions: seq<Action>, u: Timers)
    requires Inv(t) && e in t.heap && !t.nodes[e.id].stopped && !t.phase.Committed?
    ensures Leads(t, actions, u) && NoStart(actions) && Inv(u) && u.phase.Outside? && u.log == t.log
    ensures e in u.heap && e.expire <= u.now && e.id in u.nodes && !u.nodes[e.id].stopped
  {
    var s, first := t, [];
    if t.phase.InHandler? {
      s, first := ReturnOne(t, false), [Return(false)] + [];
      ReturnKeeps(t, false);
      LeadsOne(t, Return(false), [], s);
    }
    var time := if e.expire <= s.now then s.now else e.expire;
    u, actions := s.(now := time), first + ([Tick(time)] + []);
    LeadsOne(s, Tick(time), [], u);
    LeadsFurther(t, first, s, [Tick(time)] + [], u);
  }

  lemma {:induction false} StartedLate(t: Timers, s: Timers, e: Entry)
    requires !Timely(t, e.expire) && e in s.heap && s.phase == t.phase && s.log == t.log + [Started(e.id)]
    ensures Overtaken(s, e)
  {
    LogGrows(t.log, Started(e.id));
    if !(t.phase.Committed? && t.phase.e.expire > e.expire) {
      var i :| 0 <= i < |t.log| && t.log[i].Fired? && t.log[i].expire > e.expire;
      assert s.log[i].Fired? && s.log[i].expire > e.expire;
    }
  }

  lemma {:induction false} LateBreaks(t: Timers, interval: nat, loop: bool, made: int)
    returns (actions: seq<Action>, u: Timers)
    requires Inv(t) && !Timely(t, made + interval)
    ensures Leads(StartOne(t, interval, loop, made), actions, u) && NoStart(actions) && !InOrder(u.log)
  {
    var s, e := StartOne(t, interval, loop, made), Entry(t.next, made + interval);
    StartKeeps(t, interval, loop, made);
    StartedLate(t, s, e);
    var first, r := IntoHandler(s, e);
    var second, m := ComesDue(r, e);
    var after;
    after, u := FiresLate(m, e);
    LeadsFurther(r, second, m, after, u);
    LeadsFurther(s, first, r, second + after, u);
    actions := first + (second + after);
  }

  /** An insertion does harm exactly when it is late: then, and only then, can what follows fire out of order. */
  lemma {:induction false} LateStart(t: Timers, interval: nat, loop: bool, made: int)
    requires Inv(t) && OrderInv(t) && made <= t.now
    ensures var s := StartOne(t, interval, loop, made);
      Timely(t, made + interval) <==> forall actions, u :: Leads(s, actions, u) && NoStart(actions) ==> InOrder(u.log)
  {
    var s := StartOne(t, interval, loop, made);
    if Timely(t, made + interval) {
      StartKeeps(t, interval, loop, made);
      StartKeepsOrder(t, interval, loop, made);
      forall actions, u | Leads(s, actions, u) && NoStart(actions) ensures InOrder(u.log) {
        LeadsKeepOrder(s, actions, u);
      }
    } else {
      var actions, u := LateBreaks(t, interval, loop, made);
    }
  }

  // ---------- a late stop ----------

  predicate NoStop(actions: seq<Action>) { forall k :: 0 <= k < |actions| ==> !actions[k].Stop? }

  lemma {:induction false} LeadsKeepStops(t: Timers, actions: seq<Action>, u: Timers)
    requires Inv(t) && StopInv(t) && Leads(t, actions, u) && NoStop(actions)
    ensures StopsHold(u.log)
    decreases |actions|
  {
    if actions != [] {
      StepKeeps(t, actions[0]);
      StepKeepsStops(t, actions[0]);
      LeadsKeepStops(Step(t, actions[0]), actions[1..], u);
    }
  }

  lemma {:induction false} FiresAnyway(t: Timers, id: nat, s: Timers, u: Timers)
    requires Enabled(t, Stop(id)) && TooLate(t, Stop(id)) && s == StopOne(t, id) && u == FireOne(s)
    ensures Leads(s, [Fire] + [], u) && !StopsHold(u.log)
  {
    LeadsOne(s, Fire, [], u);
    LogGrows(t.log, Stopped(id));
    LogGrows(s.log, Fired(id, t.phase.e.expire, t.now));
    var n := |t.log|;
    assert u.log[n] == Stopped(id) && u.log[n + 1].Fired? && u.log[n + 1].id == id;
  }

  /** A successful stop is in vain exactly when the handler is about to be called: then, and only then, can the timer
      fire after it. */
  lemma {:induction false} LateStop(t: Timers, id: nat)
    requires Inv(t) && StopInv(t) && id in t.known
    ensures id in t.nodes && var s := StopOne(t, id);
      !TooLate(t, Stop(id)) <==> forall actions, u :: Leads(s, actions, u) && NoStop(actions) ==> StopsHold(u.log)
  {
    var s := StopOne(t, id);
    if TooLate(t, Stop(id)) {
      FiresAnyway(t, id, s, FireOne(s));
      assert NoStop([Fire] + []);
    } else {
      StopKeeps(t, id);
      StopKeepsStops(t, id);
      forall actions, u | Leads(s, actions, u) && NoStop(actions) ensures StopsHold(u.log) {
        LeadsKeepStops(s, actions, u);
      }
    }
  }
}
