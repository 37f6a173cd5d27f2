/** The HeapTimer object: its methods take the steps of module HeapTimer, and timer_loop is one of the runs. */
module TimerObject {
  import opened MinHeap
  import opened HeapTimer

  /** What one handler does: its calls, with the clock moving, and its answer. */
  datatype Turn = Turn(calls: seq<Action>, result: bool)

  predicate HandlerCall(a: Action) { (a.Tick? && a.time >= 0) || a.Start? || a.Stop? }

  predicate IsTurn(turn: Turn) { forall k :: 0 <= k < |turn.calls| ==> HandlerCall(turn.calls[k]) }

  lemma {:induction false} LeadsOn(t: Timers, actions: seq<Action>, m: Timers, a: Action, u: Timers)
    requires Leads(t, actions, m) && Enabled(m, a) && u == Step(m, a)
    ensures Leads(t, actions + [a], u)
  {
    assert [a][1..] == [] && Leads(u, [], u);
    LeadsFurther(t, actions, m, [a], u);
  }

  /** The invariant as a value, so that the verifier takes it as a whole. */
  datatype Soundness = Sound | Unsound

  ghost function Judge(t: Timers): Soundness { if Inv(t) then Sound else Unsound }

  lemma {:induction false} StepSound(t: Timers, a: Action)
    requires Judge(t).Sound? && Enabled(t, a)
    ensures Judge(Step(t, a)).Sound?
  {
    StepKeeps(t, a);
  }

  lemma {:induction false} SoundRefers(t: Timers)
    requires Judge(t).Sound?
    ensures (forall id :: id in t.known ==> id in t.nodes) && (t.phase.InHandler? ==> t.phase.id in t.nodes)
    ensures forall e :: e in t.heap ==> e.id in t.nodes
  {}

  class Scheduler {
    const heap: Heap
    var now: int
    var nodes: map<nat, Node>
    var known: set<nat>
    var next: nat
    var phase: Phase
    var log: seq<Event>

    ghost function Value(): Timers
      reads this, heap
    {
      Timers(now, multiset(heap.data), nodes, known, next, phase, log)
    }

    ghost predicate Valid()
      reads this, heap
    {
      heap.Valid() && Judge(Value()).Sound?
    }

    constructor (time: int)
      ensures Valid() && fresh(heap) && Value() == Initial(time)
    {
      heap := new Heap();
      now, nodes, known, next, phase, log := time, map[], {}, BASE_TIMER_INDEX, Outside, [];
    }

    method StartTimer(interval: nat, loop: bool) returns (id: nat)
      requires Valid()
      modifies this, heap
      ensures Valid() && Value() == StartOne(old(Value()), interval, loop, old(now)) && id == old(next)
    {
      StepSound(Value(), Start(interval, loop, now));
      id := next;
      next := next + 1;
      var at := now + interval;
      heap.Insert(Entry(id, at));
      nodes := nodes[id := Node(interval, loop, false, at)];
      known := known + {id};
      log := log + [Started(id)];
      assert Value() == StartOne(old(Value()), interval, loop, old(now));
    }

    method StopTimer(id: nat) returns (stopped: bool)
      requires Valid()
      modifies this
      ensures Valid() && Enabled(old(Value()), Stop(id)) && Value() == StopOne(old(Value()), id) &&
        (stopped <==> id in old(known))
    {
      SoundRefers(Value());
      StepSound(Value(), Stop(id));
      stopped := id in known;
      if stopped {
        nodes := nodes[id := nodes[id].(stopped := true)];
        known := known - {id};
        log := log + [Stopped(id)];
      }
    }

    method Wait(time: int)
      requires Valid() && now <= time
      modifies this`now
      ensures Valid() && Value() == Step(old(Value()), Tick(time))
    {
      StepSound(Value(), Tick(time));
      now := time;
    }

    /** One call that a handler makes. */
    method Perform(a: Action) returns (ghost done: Action)
      requires Valid() && HandlerCall(a)
      modifies this, heap
      ensures Valid() && Enabled(old(Value()), done) && Value() == Step(old(Value()), done) && phase == old(phase)
    {
      match a
      case Tick(step) =>
        done := Tick(now + step);
        Wait(now + step);
      case Start(interval, loop, _) =>
        done := Start(interval, loop, now);
        var _ := StartTimer(interval, loop);
      case Stop(id) =>
        done := a;
        var _ := StopTimer(id);
    }

    /** handle_timeout after the handler's answer. */
    method FinishHandler(result: bool)
      requires Valid() && phase.InHandler?
      modifies this, heap
      ensures Valid() && Enabled(old(Value()), Return(result)) && Value() == ReturnOne(old(Value()), result)
    {
      SoundRefers(Value());
      StepSound(Value(), Return(result));
      ghost var goal := ReturnOne(Value(), result);
      var id := phase.id;
      var n := nodes[id];
      phase := Outside;
      if !result {
        nodes := nodes[id := n.(stopped := true)];
        known := known - {id};
        assert Value() == goal;
      } else if n.loop && !n.stopped {
        var at := now + n.interval;
        nodes := nodes[id := n.(expire := at)];
        heap.Insert(Entry(id, at));
        assert Value() == goal;
      }
    }

    /** The top of the heap, once it is due, is taken out; unless it was stopped its handler is called next. */
    method TakeTop() returns (due: bool, ghost e: Entry)
      requires Valid() && phase.Outside?
      modifies this, heap
      ensures Valid()
      ensures due ==> Enabled(old(Value()), Take(e)) && Value() == TakeOne(old(Value()), e)
      ensures due ==> |heap.data| < |old(heap.data)|
      ensures !due ==> Value() == old(Value()) && forall d :: d in Value().heap ==> d.expire > now
    {
      var found, item := heap.Top();
      e := item;
      due := found && item.expire <= now;
      if due {
        SoundRefers(Value());
        StepSound(Value(), Take(item));
        heap.Pop();
        assert |multiset(heap.data)| == |heap.data|;
        if !nodes[item.id].stopped {
          phase := Committed(item);
        }
        assert Value() == TakeOne(old(Value()), item);
      }
    }

    /** The call of the handler. */
    method CallHandler()
      requires Valid() && phase.Committed?
      modifies this
      ensures Valid() && phase.InHandler? && Value() == FireOne(old(Value()))
    {
      StepSound(Value(), Fire);
      var e := phase.e;
      phase := InHandler(e.id);
      log := log + [Fired(e.id, e.expire, now)];
      assert Value() == FireOne(old(Value()));
    }

    /** The handler that `turn` describes, and the end of handle_timeout. */
    method RunHandler(turn: Turn) returns (ghost actions: seq<Action>)
      requires Valid() && phase.InHandler? && IsTurn(turn)
      modifies this, heap
      ensures Valid() && phase.Outside? && Leads(old(Value()), actions, Value())
    {
      actions := [];
      for k := 0 to |turn.calls|
        invariant Valid() && phase == old(phase) && Leads(old(Value()), actions, Value())
      {
        ghost var m := Value();
        ghost var a := Perform(turn.calls[k]);
        LeadsOn(old(Value()), actions, m, a, Value());
        actions := actions + [a];
      }
      ghost var m := Value();
      FinishHandler(turn.result);
      LeadsOn(old(Value()), actions, m, Return(turn.result), Value());
      actions := actions + [Return(turn.result)];
    }

    /** timer_loop, with what the handlers do as `turns`.  It is one of the runs, and unless `turns` ran out it
        leaves nothing that is due. */
    method TimerLoop(turns: seq<Turn>) returns (used: nat, ghost actions: seq<Action>)
      requires Valid() && phase.Outside? && forall k :: 0 <= k < |turns| ==> IsTurn(turns[k])
      modifies this, heap
      ensures Valid() && phase.Outside? && used <= |turns| && Leads(old(Value()), actions, Value())
      ensures used < |turns| ==> forall e :: e in Value().heap ==> e.expire > now
    {
      used, actions := 0, [];
      while used < |turns|
        invariant Valid() && phase.Outside? && used <= |turns| && Leads(old(Value()), actions, Value())
        decreases |turns| - used, |heap.data|
      {
        ghost var m := Value();
        var due, e := TakeTop();
        if !due {
          return;
        }
        LeadsOn(old(Value()), actions, m, Take(e), Value());
        actions := actions + [Take(e)];
        if phase.Committed? {
          ghost var c := Value();
          CallHandler();
          ghost var u := Value();
          LeadsOn(old(Value()), actions, c, Fire, u);
          actions := actions + [Fire];
          ghost var more := RunHandler(turns[used]);
          LeadsFurther(old(Value()), actions, u, more, Value());
          actions := actions + more;
          used := used + 1;
        }
      }
    }
  }
}
