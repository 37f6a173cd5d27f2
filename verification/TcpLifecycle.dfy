/** The life of a connection: status, events and the release of its resources, with event handlers that may
    call back into the connection. */
module TcpLifecycle {
  import opened TcpConnection

  datatype NetEvent = Connect | Disconnect

  /** conn_sd: none, an open socket that epoll watches or not, or the number of a socket that has been closed. */
  datatype Descriptor = NoSocket | Live(watched: bool) | Stale

  /** `opens` counts sockets, `closes` the closing of open sockets, `spoiled` how often a socket was closed and its
      number kept, `stale` the closing of a number that is closed already, `leaks` the open sockets that conn_sd no
      longer names, and `releases` the closing done by do_close. */
  datatype Sockets = Sockets(held: Descriptor, opens: nat, closes: nat, spoiled: nat, stale: nat, leaks: nat,
                             releases: nat)

  /** `reconnect` is need_reconnect, `owned` says that there is a factory; `tested` counts calls of close between its
      test and its assignment; `log` holds the events handed to handle_event, and `removals` counts the posted remove
      tasks. */
  datatype Life = Life(status: Status, reconnect: bool, owned: bool, tested: nat, log: seq<NetEvent>, sockets: Sockets,
                       removals: nat)

  /** How do_connect ends: there is no socket to be had, the address is malformed, the peer refuses, epoll refuses, or
      it succeeds. */
  datatype Outcome = NoneLeft | Malformed | Refused | Unwatched | Connected

  /** What a handler, or another part of the program, may call; a call that raises an event carries
      what the handler of that event calls in turn.  Another thread may run between the test and the assignment of
      close, which are then two calls.  `Renew` is the mod_event with which do_send changes what epoll watches. */
  datatype Call =
    | Close
    | TestClose
    | AssignClose
    | OnReady(handler: Script)
    | DoClose(handler: Script)
    | DoConnect(outcome: Outcome)
    | Renew
    | EnableReconnect

  datatype Script = Stop | Do(call: Call, rest: Script)

  /** The new socket is closed at once, and its number kept. */
  function Spoil(k: Sockets): Sockets { k.(held := Stale, closes := k.closes + 1, spoiled := k.spoiled + 1) }

  function ConnectSocket(k: Sockets, o: Outcome): Sockets {
    var m := k.(leaks := if k.held.Live? then k.leaks + 1 else k.leaks);
    var n := m.(held := Live(false), opens := m.opens + 1);
    match o
    case NoneLeft => m.(held := NoSocket)
    case Malformed => n
    case Refused => Spoil(n)
    case Unwatched => Spoil(n)
    case Connected => n.(held := Live(true))
  }

  /** mod_event: if epoll does not watch the number, or it is closed, the number is closed. */
  function ModEvent(k: Sockets): Sockets {
    match k.held
    case NoSocket => k
    case Live(watched) => if watched then k else Spoil(k)
    case Stale => k.(stale := k.stale + 1)
  }

  /** del_event */
  function DelEvent(k: Sockets): Sockets { if k.held.Live? then k.(held := Live(false)) else k }

  function CloseSocket(k: Sockets): Sockets {
    match k.held
    case NoSocket => k
    case Live(_) => k.(held := NoSocket, closes := k.closes + 1, releases := k.releases + 1)
    case Stale => k.(held := NoSocket, stale := k.stale + 1, releases := k.releases + 1)
  }

  /** The descriptor is closed if there is one, and the factory is asked to forget the connection. */
  function Release(l: Life): Life {
    l.(sockets := CloseSocket(l.sockets), removals := if l.owned then l.removals + 1 else l.removals)
  }

  function Readied(l: Life): Life { l.(status := Open, log := l.log + [Connect]) }

  function Disconnected(l: Life): Life {
    l.(status := Closed, sockets := DelEvent(l.sockets), log := l.log + [Disconnect])
  }

  /** The assignment of close, and notify_send. */
  function CloseAssigned(l: Life): Life { l.(status := Closing, sockets := ModEvent(l.sockets)) }

  function PerformCall(l: Life, c: Call): Life
    decreases c, 0
  {
    match c
    case Close => if CloseStatus(l.status) != l.status then CloseAssigned(l) else l
    case TestClose => if CloseStatus(l.status) != l.status then l.(tested := l.tested + 1) else l
    case AssignClose => if l.tested > 0 then CloseAssigned(l.(tested := l.tested - 1)) else l
    case OnReady(h) => if l.status.Idle? then Perform(Readied(l), h) else l
    case DoClose(h) =>
      if !l.status.Closing? then l
      else
        var m := Perform(Disconnected(l), h);
        if m.reconnect then m.(status := Idle) else Release(m)
    case DoConnect(o) => l.(sockets := ConnectSocket(l.sockets, o))
    case Renew => l.(sockets := ModEvent(l.sockets))
    case EnableReconnect => l.(reconnect := true)
  }

  function Perform(l: Life, s: Script): Life
    decreases s, 1
  {
    match s
    case Stop => l
    case Do(c, rest) => Perform(PerformCall(l, c), rest)
  }

  /** process_event: the first event makes the connection ready; then reading, writing and errors may call handlers
      and close; and a closing connection is closed for good. */
  function EventScript(ready: Script, work: Script, closing: Script): Script {
    Do(OnReady(ready), Append(work, Do(DoClose(closing), Stop)))
  }

  function Append(s: Script, t: Script): Script {
    match s
    case Stop => t
    case Do(c, rest) => Do(c, Append(rest, t))
  }

  lemma {:induction false} PerformAppend(l: Life, s: Script, t: Script)
    ensures Perform(l, Append(s, t)) == Perform(Perform(l, s), t)
    decreases s
  {
    match s
    case Stop =>
    case Do(c, rest) => PerformAppend(PerformCall(l, c), rest, t);
  }

  // ---------- late assignments ----------

  /** No assignment of close lands on a connection that was closed after the test. */
  predicate Clean(l: Life, s: Script)
    decreases s, 1
  {
    match s
    case Stop => true
    case Do(c, rest) => CleanCall(l, c) && Clean(PerformCall(l, c), rest)
  }

  predicate CleanCall(l: Life, c: Call)
    decreases c, 0
  {
    match c
    case AssignClose => l.tested > 0 ==> !l.status.Closed?
    case OnReady(h) => l.status.Idle? ==> Clean(Readied(l), h)
    case DoClose(h) => l.status.Closing? ==> Clean(Disconnected(l), h)
    case _ => true
  }

  /** close is one step throughout. */
  predicate Atomic(s: Script) {
    match s
    case Stop => true
    case Do(c, rest) => AtomicCall(c) && Atomic(rest)
  }

  predicate AtomicCall(c: Call) {
    match c
    case AssignClose => false
    case OnReady(h) => Atomic(h)
    case DoClose(h) => Atomic(h)
    case _ => true
  }

  lemma {:induction false} AtomicIsClean(l: Life, s: Script)
    requires Atomic(s)
    ensures Clean(l, s)
    decreases s, 1
  {
    match s
    case Stop =>
    case Do(c, rest) =>
      AtomicCallIsClean(l, c);
      AtomicIsClean(PerformCall(l, c), rest);
  }

  lemma {:induction false} AtomicCallIsClean(l: Life, c: Call)
    requires AtomicCall(c)
    ensures CleanCall(l, c)
    decreases c, 0
  {
    match c
    case OnReady(h) => AtomicIsClean(Readied(l), h);
    case DoClose(h) => AtomicIsClean(Disconnected(l), h);
    case _ =>
  }

  // ---------- every run ----------

  /** The sockets after the do_connect and mod_event calls of `s`, if its other calls do nothing. */
  function SocketsAfter(k: Sockets, s: Script): Sockets
    decreases s
  {
    match s
    case Stop => k
    case Do(c, rest) =>
      SocketsAfter(if c.DoConnect? then ConnectSocket(k, c.outcome) else if c.Renew? then ModEvent(k) else k, rest)
  }

  /** A closed connection is left alone by everything a handler can call, apart from its sockets. */
  lemma {:induction false} ClosedUntouched(l: Life, s: Script)
    requires l.status.Closed? && Clean(l, s)
    ensures var m := Perform(l, s);
      && m.status.Closed? && m.log == l.log && m.removals == l.removals && m.owned == l.owned
      && m.sockets == SocketsAfter(l.sockets, s) && (l.reconnect ==> m.reconnect)
    decreases s
  {
    match s
    case Stop =>
    case Do(c, rest) => ClosedUntouched(PerformCall(l, c), rest);
  }

  lemma {:induction false} NoRelease(k: Sockets, s: Script)
    ensures SocketsAfter(k, s).releases == k.releases
    decreases s
  {
    match s
    case Stop =>
    case Do(c, rest) =>
      NoRelease(if c.DoConnect? then ConnectSocket(k, c.outcome) else if c.Renew? then ModEvent(k) else k, rest);
  }

  /** Two Connect events are never neighbours. */
  predicate Alternates(log: seq<NetEvent>) {
    forall i, j :: 0 <= i < j < |log| && log[i].Connect? && log[j].Connect? ==>
      exists k :: i < k < j && log[k].Disconnect?
  }

  predicate EndsConnected(log: seq<NetEvent>) { |log| > 0 && log[|log| - 1].Connect? }

  ghost predicate LifeInv(l: Life) {
    Alternates(l.log) && (EndsConnected(l.log) ==> l.status.Open? || l.status.Closing?)
  }

  lemma {:induction false} ConnectAlternates(log: seq<NetEvent>)
    requires Alternates(log) && !EndsConnected(log)
    ensures Alternates(log + [Connect])
  {
    var m := log + [Connect];
    forall i, j | 0 <= i < j < |m| && m[i].Connect? && m[j].Connect? ensures exists k :: i < k < j && m[k].Disconnect? {
      if j == |log| {
        assert m[|log| - 1] == log[|log| - 1] && m[|log| - 1].Disconnect?;
      } else {
        var k :| i < k < j && log[k].Disconnect?;
        assert m[k].Disconnect?;
      }
    }
  }

  lemma {:induction false} DisconnectAlternates(log: seq<NetEvent>)
    requires Alternates(log)
    ensures Alternates(log + [Disconnect]) && !EndsConnected(log + [Disconnect])
  {
    var m := log + [Disconnect];
    forall i, j | 0 <= i < j < |m| && m[i].Connect? && m[j].Connect? ensures exists k :: i < k < j && m[k].Disconnect? {
      var k :| i < k < j && log[k].Disconnect?;
      assert m[k].Disconnect?;
    }
  }

  lemma {:induction false} CallKeeps(l: Life, c: Call)
    requires LifeInv(l) && CleanCall(l, c)
    ensures LifeInv(PerformCall(l, c))
    decreases c, 0
  {
    match c
    case OnReady(h) =>
      if l.status.Idle? {
        ConnectAlternates(l.log);
        PerformKeeps(Readied(l), h);
      }
    case DoClose(h) =>
      if l.status.Closing? {
        DisconnectAlternates(l.log);
        ClosedUntouched(Disconnected(l), h);
      }
    case _ =>
  }

  /** In every run of calls, handlers within handlers included, two EVT_CONNECT are separated by an
      EVT_DISCONNECT. */
  lemma {:induction false} PerformKeeps(l: Life, s: Script)
    requires LifeInv(l) && Clean(l, s)
    ensures LifeInv(Perform(l, s))
    decreases s, 1
  {
    match s
    case Stop =>
    case Do(c, rest) =>
      CallKeeps(l, c);
      PerformKeeps(PerformCall(l, c), rest);
  }

  function FirstSockets(accepted: bool): Sockets {
    if accepted then Sockets(Live(true), 1, 0, 0, 0, 0, 0) else Sockets(NoSocket, 0, 0, 0, 0, 0, 0)
  }

  /** A new connection: an accepted one has its socket. */
  function Fresh(reconnect: bool, owned: bool, accepted: bool): Life {
    Life(Idle, reconnect, owned, 0, [], FirstSockets(accepted), 0)
  }

  lemma {:induction false} ConnectsAlternate(reconnect: bool, owned: bool, accepted: bool, s: Script)
    requires Clean(Fresh(reconnect, owned, accepted), s)
    ensures Alternates(Perform(Fresh(reconnect, owned, accepted), s).log)
  {
    PerformKeeps(Fresh(reconnect, owned, accepted), s);
  }

  // ---------- sockets ----------

  /** Every socket opened is closed, leaked or held; and only a number that was kept is closed again. */
  predicate Accounted(k: Sockets) {
    && k.opens == k.closes + k.leaks + (if k.held.Live? then 1 else 0)
    && (k.stale > 0 || k.held.Stale? ==> k.spoiled > 0) && k.spoiled <= k.closes
  }

  lemma {:induction false} CallAccounts(l: Life, c: Call)
    requires Accounted(l.sockets)
    ensures Accounted(PerformCall(l, c).sockets)
    decreases c, 0
  {
    match c
    case OnReady(h) => PerformAccounts(Readied(l), h);
    case DoClose(h) => PerformAccounts(Disconnected(l), h);
    case _ =>
  }

  lemma {:induction false} PerformAccounts(l: Life, s: Script)
    requires Accounted(l.sockets)
    ensures Accounted(Perform(l, s).sockets)
    decreases s, 1
  {
    match s
    case Stop =>
    case Do(c, rest) =>
      CallAccounts(l, c);
      PerformAccounts(PerformCall(l, c), rest);
  }

  /** In every run, late assignments included. */
  lemma {:induction false} SocketsAccounted(reconnect: bool, owned: bool, accepted: bool, s: Script)
    ensures Accounted(Perform(Fresh(reconnect, owned, accepted), s).sockets)
  {
    PerformAccounts(Fresh(reconnect, owned, accepted), s);
  }

  /** A step of close() closes a number that is closed already exactly when it goes from open to closing and conn_sd is
      such a number. */
  lemma {:induction false} StaleInClose(l: Life)
    ensures PerformCall(l, Close).sockets.stale > l.sockets.stale <==>
      (l.status.Idle? || l.status.Open?) && l.sockets.held.Stale?
    ensures PerformCall(l, AssignClose).sockets.stale > l.sockets.stale <==> l.tested > 0 && l.sockets.held.Stale?
  {}

  /** It makes conn_sd such a number exactly when epoll does not watch the socket. */
  lemma {:induction false} CloseSpoils(l: Life)
    requires l.status.Idle? || l.status.Open?
    ensures PerformCall(l, Close).sockets.held.Stale? <==> l.sockets.held.Stale? || l.sockets.held == Live(false)
  {}

  /** do_close itself closes a number that is closed already exactly when there is no reconnection and conn_sd is such a
      number after the handler. */
  lemma {:induction false} StaleClose(l: Life, h: Script)
    requires l.status.Closing? && Clean(Disconnected(l), h)
    ensures var m, k := PerformCall(l, DoClose(h)), SocketsAfter(DelEvent(l.sockets), h);
      m.sockets.stale > k.stale <==> !m.reconnect && k.held.Stale?
  {
    ClosedUntouched(Disconnected(l), h);
  }

  /** Such a run: connect in vain, close.  The number is closed once by do_connect, again by close() and again by
      do_close. */
  lemma {:induction false} RefusedThenClosed(owned: bool)
    ensures var l := Perform(Fresh(false, owned, false), Do(DoConnect(Refused), Do(Close, Do(DoClose(Stop), Stop))));
      l.sockets == Sockets(NoSocket, 1, 1, 1, 2, 0, 1)
  {
    var l := PerformCall(Fresh(false, owned, false), DoConnect(Refused));
    var m := PerformCall(PerformCall(l, Close), DoClose(Stop));
    assert Perform(Fresh(false, owned, false), Do(DoConnect(Refused), Do(Close, Do(DoClose(Stop), Stop)))) ==
      Perform(m, Stop);
  }

  /** Closing a connection that will reconnect, `n` times. */
  function CloseOften(n: nat): Script { if n == 0 then Stop else Do(Close, Do(DoClose(Stop), CloseOften(n - 1))) }

  lemma {:induction false} ClosesOften(l: Life, n: nat)
    requires l.status.Idle? && l.reconnect && l.sockets.held.Stale?
    ensures var m := Perform(l, CloseOften(n));
      m.sockets == l.sockets.(stale := l.sockets.stale + n) && m.status.Idle? && m.reconnect
    decreases n
  {
    if n > 0 {
      var a := PerformCall(l, Close);
      var b := PerformCall(a, DoClose(Stop));
      assert b.sockets == l.sockets.(stale := l.sockets.stale + 1) && b.status.Idle? && b.reconnect;
      ClosesOften(b, n - 1);
    }
  }

  /** With reconnection there is no bound: after one refused connect the number may be closed any number of times. */
  lemma {:induction false} StaleWithoutBound(owned: bool, n: nat)
    ensures var l := Perform(Fresh(true, owned, false), Do(DoConnect(Refused), CloseOften(n)));
      l.sockets == Sockets(Stale, 1, 1, 1, n, 0, 0)
  {
    ClosesOften(PerformCall(Fresh(true, owned, false), DoConnect(Refused)), n);
  }

  /** do_close does not close the socket of a connection that will reconnect, and the next do_connect forgets it. */
  lemma {:induction false} ReconnectLeaks(l: Life, h: Script, o: Outcome)
    requires l.status.Closing? && Clean(Disconnected(l), h) && l.reconnect
    ensures var m := PerformCall(l, DoClose(h));
      && m.status.Idle? && m.sockets == SocketsAfter(DelEvent(l.sockets), h)
      && PerformCall(m, DoConnect(o)).sockets.leaks == m.sockets.leaks + (if m.sockets.held.Live? then 1 else 0)
  {
    ClosedUntouched(Disconnected(l), h);
  }

  // ---------- without reconnection ----------

  predicate NeverReconnects(s: Script) {
    match s
    case Stop => true
    case Do(c, rest) => NeverReconnectsCall(c) && NeverReconnects(rest)
  }

  predicate NeverReconnectsCall(c: Call) {
    match c
    case EnableReconnect => false
    case OnReady(h) => NeverReconnects(h)
    case DoClose(h) => NeverReconnects(h)
    case _ => true
  }

  /** What has happened, by the status.  After the events nothing but the release is left to do. */
  ghost predicate OnceInv(l: Life) {
    && !l.reconnect
    && var n := l.sockets.releases;
       match l.status
       case Idle => l.log == [] && n == 0 && l.removals == 0
       case Open => l.log == [Connect] && n == 0 && l.removals == 0
       case Closing => (l.log == [] || l.log == [Connect]) && n == 0 && l.removals == 0
       case Closed => (l.log == [Disconnect] || l.log == [Connect, Disconnect]) && n <= 1 && l.removals <= 1
  }

  lemma {:induction false} NoReconnect(l: Life, s: Script)
    requires !l.reconnect && NeverReconnects(s)
    ensures !Perform(l, s).reconnect
    decreases s, 1
  {
    match s
    case Stop =>
    case Do(c, rest) =>
      NoReconnectCall(l, c);
      NoReconnect(PerformCall(l, c), rest);
  }

  lemma {:induction false} NoReconnectCall(l: Life, c: Call)
    requires !l.reconnect && NeverReconnectsCall(c)
    ensures !PerformCall(l, c).reconnect
    decreases c, 0
  {
    match c
    case OnReady(h) => NoReconnect(Readied(l), h);
    case DoClose(h) => NoReconnect(Disconnected(l), h);
    case _ =>
  }

  lemma {:induction false} CallOnce(l: Life, c: Call)
    requires OnceInv(l) && NeverReconnectsCall(c) && CleanCall(l, c)
    ensures OnceInv(PerformCall(l, c)) && (l.status.Closed? ==> PerformCall(l, c).status.Closed?)
    decreases c, 0
  {
    match c
    case OnReady(h) =>
      if l.status.Idle? {
        assert [] + [Connect] == [Connect];
        PerformOnce(Readied(l), h);
      }
    case DoClose(h) =>
      if l.status.Closing? {
        var m := Disconnected(l);
        assert [] + [Disconnect] == [Disconnect] && [Connect] + [Disconnect] == [Connect, Disconnect];
        ClosedUntouched(m, h);
        NoRelease(m.sockets, h);
        NoReconnect(m, h);
      }
    case _ =>
  }

  lemma {:induction false} PerformOnce(l: Life, s: Script)
    requires OnceInv(l) && NeverReconnects(s) && Clean(l, s)
    ensures OnceInv(Perform(l, s)) && (l.status.Closed? ==> Perform(l, s).status.Closed?)
    decreases s, 1
  {
    match s
    case Stop =>
    case Do(c, rest) =>
      CallOnce(l, c);
      PerformOnce(PerformCall(l, c), rest);
  }

  predicate AtMostOnce(log: seq<NetEvent>, e: NetEvent) {
    forall i, j :: 0 <= i < j < |log| ==> !(log[i] == e && log[j] == e)
  }

  predicate InOrder(log: seq<NetEvent>) {
    forall i, j :: 0 <= i < j < |log| ==> !(log[i].Disconnect? && log[j].Connect?)
  }

  /** Each event at most once and in order, and at most one release. */
  predicate RaisedOnce(l: Life) {
    && AtMostOnce(l.log, Connect) && AtMostOnce(l.log, Disconnect) && InOrder(l.log)
    && l.sockets.releases <= 1 && l.removals <= 1
  }

  lemma {:induction false} OnceLog(l: Life)
    requires OnceInv(l)
    ensures RaisedOnce(l)
  {
  }

  lemma {:induction false} OnceFrom(start: Life, s: Script)
    requires OnceInv(start) && NeverReconnects(s) && Clean(start, s)
    ensures RaisedOnce(Perform(start, s))
  {
    PerformOnce(start, s);
    OnceLog(Perform(start, s));
  }

  /** Without reconnection, and without a late assignment: each event is raised at most once and EVT_CONNECT not after
      EVT_DISCONNECT, and do_close closes a descriptor and posts the removal at most once. */
  lemma {:induction false} ClosesOnce(owned: bool, accepted: bool, s: Script)
    requires NeverReconnects(s) && Clean(Fresh(false, owned, accepted), s)
    ensures RaisedOnce(Perform(Fresh(false, owned, accepted), s))
  {
    OnceFrom(Fresh(false, owned, accepted), s);
  }

  /** CLOSED is final, whatever is called without a late assignment. */
  lemma {:induction false} ClosedIsFinal(l: Life, s: Script)
    requires l.status.Closed? && Clean(l, s)
    ensures Perform(l, s).status.Closed? && Perform(l, s).log == l.log && Perform(l, s).removals == l.removals
  {
    ClosedUntouched(l, s);
  }

  // ---------- the test and the assignment in close() ----------

  /** The assignment does harm exactly when the connection has been closed since the test: only then can what
      follows raise EVT_DISCONNECT twice. */
  lemma {:induction false} LateClose(l: Life)
    requires OnceInv(l) && l.tested > 0
    ensures l.status.Closed? <==>
      exists s :: NeverReconnects(s) && Clean(PerformCall(l, AssignClose), s) &&
        !AtMostOnce(Perform(l, Do(AssignClose, s)).log, Disconnect)
  {
    var m := PerformCall(l, AssignClose);
    if l.status.Closed? {
      ClosesAgain(l);
    } else {
      forall s | NeverReconnects(s) && Clean(m, s) ensures AtMostOnce(Perform(l, Do(AssignClose, s)).log, Disconnect) {
        PerformOnce(m, s);
      }
    }
  }

  lemma {:induction false} ClosesAgain(l: Life)
    requires OnceInv(l) && l.tested > 0 && l.status.Closed?
    ensures var s := Do(DoClose(Stop), Stop);
      && NeverReconnects(s) && Clean(PerformCall(l, AssignClose), s)
      && !AtMostOnce(Perform(l, Do(AssignClose, s)).log, Disconnect)
  {
    var m := PerformCall(l, AssignClose);
    var n := PerformCall(m, DoClose(Stop));
    assert CleanCall(m, DoClose(Stop)) && Clean(n, Stop);
    assert Perform(m, Do(DoClose(Stop), Stop)) == Perform(n, Stop) == n;
    var k := |l.log| - 1;
    assert n.log[k].Disconnect? && n.log[k + 1].Disconnect?;
  }

  /** Such a run: the epoll thread closes the connection between the test and the assignment of another thread. */
  lemma {:induction false} CloseIsNotAtomic(owned: bool, accepted: bool)
    ensures var s := Do(OnReady(Stop),
      Do(TestClose, Do(Close, Do(DoClose(Stop), Do(AssignClose, Do(DoClose(Stop), Stop))))));
      Perform(Fresh(false, owned, accepted), s).log == [Connect, Disconnect, Disconnect]
  {
    var a := PerformCall(Fresh(false, owned, accepted), OnReady(Stop));
    var b := PerformCall(PerformCall(a, TestClose), Close);
    var c := PerformCall(b, DoClose(Stop));
    var d := PerformCall(c, AssignClose);
    var e := PerformCall(d, DoClose(Stop));
    assert a.log == [Connect] && c.log == [Connect, Disconnect] && e.log == [Connect, Disconnect, Disconnect];
    var s := Do(AssignClose, Do(DoClose(Stop), Stop));
    assert Perform(c, s) == Perform(d, Do(DoClose(Stop), Stop)) == Perform(e, Stop);
    assert Perform(b, Do(DoClose(Stop), s)) == Perform(c, s);
  }

  // ---------- the object ----------

  class Connection {
    var status: Status
    var reconnect: bool
    var tested: nat
    var log: seq<NetEvent>
    var sockets: Sockets
    var removals: nat
    const owned: bool

    ghost function Value(): Life
      reads this
    {
      Life(status, reconnect, owned, tested, log, sockets, removals)
    }

    constructor (needReconnect: bool, hasFactory: bool, accepted: bool)
      ensures Value() == Fresh(needReconnect, hasFactory, accepted)
    {
      status, reconnect, tested, log, removals, owned := Idle, needReconnect, 0, [], 0, hasFactory;
      sockets := FirstSockets(accepted);
    }

    /** mod_event on conn_sd. */
    method NotifySend()
      modifies this`sockets
      ensures sockets == ModEvent(old(sockets))
    {
      match sockets.held
      case NoSocket =>
      case Live(watched) =>
        if !watched {
          sockets := sockets.(held := Stale, closes := sockets.closes + 1, spoiled := sockets.spoiled + 1);
        }
      case Stale => sockets := sockets.(stale := sockets.stale + 1);
    }

    method RequestClose()
      modifies this
      ensures Value() == PerformCall(old(Value()), Close)
    {
      if status.Idle? || status.Open? {
        status := Closing;
        NotifySend();
      }
    }

    /** The test of close, and later its assignment. */
    method BeginClose()
      modifies this
      ensures Value() == PerformCall(old(Value()), TestClose)
    {
      if status.Idle? || status.Open? {
        tested := tested + 1;
      }
    }

    method EndClose()
      modifies this
      ensures Value() == PerformCall(old(Value()), AssignClose)
    {
      if tested > 0 {
        status, tested := Closing, tested - 1;
        NotifySend();
      }
    }

    /** do_connect: `conn_sd` names a new socket, which a failed connect or add_event closes without forgetting it. */
    method Reconnect(outcome: Outcome)
      modifies this
      ensures Value() == PerformCall(old(Value()), DoConnect(outcome))
    {
      if sockets.held.Live? {
        sockets := sockets.(leaks := sockets.leaks + 1);
      }
      if outcome.NoneLeft? {
        sockets := sockets.(held := NoSocket);
        return;
      }
      sockets := sockets.(held := Live(outcome.Connected?), opens := sockets.opens + 1);
      if outcome.Refused? || outcome.Unwatched? {
        sockets := sockets.(held := Stale, closes := sockets.closes + 1, spoiled := sockets.spoiled + 1);
      }
    }

    method BecomeReady(handler: Script)
      modifies this
      ensures Value() == PerformCall(old(Value()), OnReady(handler))
      decreases handler, 1
    {
      if status.Idle? {
        status := Open;
        log := log + [Connect];
        HandleEvent(handler);
      }
    }

    method FinishClose(handler: Script)
      modifies this
      ensures Value() == PerformCall(old(Value()), DoClose(handler))
      decreases handler, 1
    {
      if status.Closing? {
        status := Closed;
        sockets := DelEvent(sockets);
        log := log + [Disconnect];
        HandleEvent(handler);
        if reconnect {
          status := Idle;
        } else {
          sockets := CloseSocket(sockets);
          if owned {
            removals := removals + 1;
          }
        }
      }
    }

    /** handle_event, whose handler runs `s`. */
    method HandleEvent(s: Script)
      modifies this
      ensures Value() == Perform(old(Value()), s)
      decreases s, 0
    {
      match s
      case Stop =>
      case Do(c, rest) =>
        match c {
          case Close => RequestClose();
          case TestClose => BeginClose();
          case AssignClose => EndClose();
          case OnReady(h) => BecomeReady(h);
          case DoClose(h) => FinishClose(h);
          case DoConnect(o) => Reconnect(o);
          case Renew => NotifySend();
          case EnableReconnect => reconnect := true;
        }
        HandleEvent(rest);
    }

    method ProcessEvent(ready: Script, work: Script, closing: Script)
      modifies this
      ensures Value() == Perform(old(Value()), EventScript(ready, work, closing))
    {
      PerformAppend(PerformCall(Value(), OnReady(ready)), work, Do(DoClose(closing), Stop));
      if status.Idle? {
        BecomeReady(ready);
      }
      HandleEvent(work);
      if status.Closing? {
        FinishClose(closing);
      }
    }
  }
}
