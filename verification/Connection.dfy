/** A reliable connection to one peer: what it keeps, in which order, and what leaves it. */
module Connection {

  const RETRY_DELAY: nat := 200
  const MAX_DELAY: nat := 60000

  // A message and the handler by which its sender is told of the ACK, or may
  // cancel.  Handlers are named by their place among the messages received.
  datatype Message = Message(data: seq<int>, handler: nat)

  // An ACK passed on to a handler.
  datatype Resolution = Resolution(handler: nat, ack: seq<int>)

  // What a connection holds, and what it has done: the messages taken from the
  // channel, those written on the current connection, the ACKs passed on over
  // it and before it, and the handlers whose messages were skipped as cancelled.
  datatype State = State(
    connected: bool,
    delay: nat,
    retry: nat,
    buffer: seq<Message>,
    pending: seq<Message>,
    received: seq<Message>,
    written: seq<Message>,
    acked: seq<Resolution>,
    ackedBefore: seq<Resolution>,
    skipped: set<nat>,
    cancelled: set<nat>)

  const NEW := State(false, RETRY_DELAY, 0, [], [], [], [], [], [], {}, {})

  function Min(a: nat, b: nat): nat { if a <= b then a else b }

  // While the connection waits to retry, messages arrive and handlers close.
  datatype Arrival = Arrives(data: seq<int>) | Closes(handler: nat)

  // After each event that leaves it connected, the connection flushes its
  // buffer: `writes` writes succeed before one fails, if it comes to that.
  datatype Event =
    | Cancel(handler: nat)
    | ConnectFails(arrivals: seq<Arrival>)
    | Connects(writes: nat)
    | Receives(data: seq<int>, writes: nat)
    | Acks(bytes: seq<int>, writes: nat)
    | Breaks

  // ----- Steps ------------------------------------------------------------------

  function Open(messages: seq<Message>, closed: set<nat>): seq<Message> {
    if messages == [] then []
    else
      var last := messages[|messages| - 1];
      Open(messages[..|messages| - 1], closed) + if last.handler !in closed then [last] else []
  }

  // A message taken from the channel joins the back of the buffer.
  function Enqueue(s: State, data: seq<int>): State {
    var message := Message(data, |s.received|);
    s.(received := s.received + [message], buffer := s.buffer + [message])
  }

  // The handlers in the buffer that are closed.
  function Dropped(s: State): set<nat> {
    set m | m in s.buffer && m.handler in s.cancelled :: m.handler
  }

  // The buffer drops the messages whose handlers are closed.
  function Retain(s: State): State {
    s.(
      buffer := Open(s.buffer, s.cancelled),
      skipped := s.skipped + Dropped(s))
  }

  function Wait(s: State, arrivals: seq<Arrival>): State {
    if arrivals == [] then s
    else
      var before := Wait(s, arrivals[..|arrivals| - 1]);
      match arrivals[|arrivals| - 1]
      case Arrives(data) => Retain(Enqueue(before, data))
      case Closes(handler) => before.(cancelled := before.cancelled + {handler})
  }

  // The wait is over: the next one is twice as long, up to a minute.
  function BackOff(s: State): State {
    s.(delay := Min(2 * s.delay, MAX_DELAY), retry := s.retry + 1)
  }

  function Connect(s: State): State {
    s.(connected := true, delay := RETRY_DELAY, retry := 0, written := [], acked := [],
       ackedBefore := s.ackedBefore + s.acked)
  }

  // Take one message off the buffer and write it, unless it was cancelled.
  function SendFirst(s: State): State
    requires s.buffer != []
  {
    var message := s.buffer[0];
    if message.handler in s.cancelled then
      s.(buffer := s.buffer[1..], skipped := s.skipped + {message.handler})
    else
      s.(buffer := s.buffer[1..], pending := s.pending + [message], written := s.written + [message])
  }

  // Put what was not acknowledged back in front of the buffer.
  function Disconnect(s: State): State {
    s.(connected := false, buffer := s.pending + s.buffer, pending := [])
  }

  // The write after the given number of successful ones fails, if it comes to
  // that, and breaks the connection.
  function FlushBuffer(s: State, writes: nat): State
    decreases |s.buffer|
  {
    if s.buffer == [] then s
    else if s.buffer[0].handler in s.cancelled then FlushBuffer(SendFirst(s), writes)
    else if writes == 0 then Disconnect(s)
    else FlushBuffer(SendFirst(s), writes - 1)
  }

  // An ACK resolves the message written longest ago.
  function Acknowledge(s: State, bytes: seq<int>): State
    requires s.pending != []
  {
    s.(pending := s.pending[1..], acked := s.acked + [Resolution(s.pending[0].handler, bytes)])
  }

  predicate MayHappen(s: State, event: Event) {
    match event
    case Cancel(_) => true
    case ConnectFails(_) => !s.connected
    case Connects(_) => !s.connected
    case _ => s.connected
  }

  function Step(s: State, event: Event): State
    requires MayHappen(s, event)
  {
    match event
    case Cancel(handler) => s.(cancelled := s.cancelled + {handler})
    case ConnectFails(arrivals) => BackOff(Wait(s, arrivals))
    case Connects(writes) => FlushBuffer(Connect(s), writes)
    case Receives(data, writes) => FlushBuffer(Enqueue(s, data), writes)
    case Acks(bytes, writes) => if s.pending == [] then Disconnect(s) else FlushBuffer(Acknowledge(s, bytes), writes)
    case Breaks => Disconnect(s)
  }

  // The state after a run of events, of which each may happen when it does.
  predicate Possible(events: seq<Event>)
    decreases |events|, 0
  {
    events != [] ==>
      && Possible(events[..|events| - 1])
      && MayHappen(After(events[..|events| - 1]), events[|events| - 1])
  }

  function After(events: seq<Event>): State
    requires Possible(events)
    decreases |events|, 1
  {
    if events == [] then NEW else Step(After(events[..|events| - 1]), events[|events| - 1])
  }

  // ----- The invariant ------------------------------------------------------------

  // Handlers are numbered as the messages come.
  ghost predicate Numbered(received: seq<Message>) {
    forall i | 0 <= i < |received| :: received[i].handler == i
  }

  // All ACKs passed on to handlers.
  function Resolved(s: State): seq<Resolution> { s.ackedBefore + s.acked }

  // The handlers of the messages that have left, by an ACK or as cancelled.
  function Gone(s: State): set<nat> {
    (set r | r in Resolved(s) :: r.handler) + s.skipped
  }

  ghost predicate OnceEach(resolutions: seq<Resolution>, skipped: set<nat>) {
    && (forall i, j | 0 <= i < j < |resolutions| :: resolutions[i].handler != resolutions[j].handler)
    && (forall i | 0 <= i < |resolutions| :: resolutions[i].handler !in skipped)
  }

  // The messages waiting for an ACK and those waiting to be written are, in
  // this order, exactly the ones received and not yet gone.
  ghost predicate Conserved(s: State) {
    && Numbered(s.received)
    && s.pending + s.buffer == Open(s.received, Gone(s))
    && s.skipped <= s.cancelled
    && OnceEach(Resolved(s), s.skipped)
    && (forall h | h in Gone(s) :: h < |s.received|)
  }

  // On each connection, the ACKs pair with the messages written, in order.
  ghost predicate Paired(s: State) {
    && |s.acked| <= |s.written|
    && (forall k | 0 <= k < |s.acked| :: s.acked[k].handler == s.written[k].handler)
    && s.pending == (if s.connected then s.written[|s.acked|..] else [])
  }

  ghost predicate Inv(s: State) {
    Conserved(s) && Paired(s)
  }

  // ----- What filtering does ---------------------------------------------------------

  lemma {:induction false} OpenMembers(messages: seq<Message>, closed: set<nat>)
    ensures forall m :: m in Open(messages, closed) <==> m in messages && m.handler !in closed
  {
    if messages != [] {
      var n := |messages| - 1;
      OpenMembers(messages[..n], closed);
      assert messages == messages[..n] + [messages[n]];
    }
  }

  lemma {:induction false} OpenSame(messages: seq<Message>, a: set<nat>, b: set<nat>)
    requires forall m | m in messages :: m.handler in a <==> m.handler in b
    ensures Open(messages, a) == Open(messages, b)
  {
    if messages != [] {
      assert messages[|messages| - 1] in messages;
      OpenSame(messages[..|messages| - 1], a, b);
    }
  }

  lemma {:induction false} OpenConcat(a: seq<Message>, b: seq<Message>, closed: set<nat>)
    ensures Open(a + b, closed) == Open(a, closed) + Open(b, closed)
  {
    if b == [] {
      assert a + b == a;
    } else {
      var n := |b| - 1;
      assert (a + b)[..|a + b| - 1] == a + b[..n];
      OpenConcat(a, b[..n], closed);
    }
  }

  lemma {:induction false} OpenTwice(messages: seq<Message>, a: set<nat>, b: set<nat>)
    ensures Open(Open(messages, a), b) == Open(messages, a + b)
  {
    if messages != [] {
      var n := |messages| - 1;
      OpenTwice(messages[..n], a, b);
      OpenConcat(Open(messages[..n], a), if messages[n].handler !in a then [messages[n]] else [], b);
      assert Open([messages[n]], b) == if messages[n].handler !in b then [messages[n]] else [] by {
        assert [messages[n]][..0] == [];
      }
    }
  }

  lemma {:induction false} OpenAll(messages: seq<Message>, closed: set<nat>)
    requires forall m | m in messages :: m.handler !in closed
    ensures Open(messages, closed) == messages
  {
    if messages != [] {
      var rest, last := messages[..|messages| - 1], messages[|messages| - 1];
      assert messages == rest + [last];
      assert last in messages;
      OpenAll(rest, closed) by {
        assert forall m | m in rest :: m in messages;
      }
    }
  }

  ghost predicate Ascending(messages: seq<Message>) {
    forall i, j | 0 <= i < j < |messages| :: messages[i].handler < messages[j].handler
  }

  // What remains of the messages received is in the order they came.
  lemma {:induction false} OpenAscending(messages: seq<Message>, closed: set<nat>)
    requires Ascending(messages)
    ensures Ascending(Open(messages, closed))
  {
    if messages != [] {
      var n := |messages| - 1;
      OpenAscending(messages[..n], closed);
      OpenMembers(messages[..n], closed);
      var rest := Open(messages[..n], closed);
      forall i | 0 <= i < |rest| ensures rest[i].handler < messages[n].handler {
        assert rest[i] in rest;
      }
    }
  }

  // In a queue with ascending handlers each message stands between the others.
  lemma AscendingAround(a: seq<Message>, m: Message, b: seq<Message>)
    requires Ascending(a + [m] + b)
    ensures forall i | 0 <= i < |a| :: a[i].handler < m.handler
    ensures forall i | 0 <= i < |b| :: m.handler < b[i].handler
  {
    var queue := a + [m] + b;
    assert queue[|a|] == m;
    forall i | 0 <= i < |a| ensures a[i].handler < m.handler {
      assert queue[i] == a[i];
    }
    forall i | 0 <= i < |b| ensures m.handler < b[i].handler {
      assert queue[|a| + 1 + i] == b[i];
    }
  }

  // Handlers in what remains are all different.
  lemma OthersDiffer(messages: seq<Message>, gone: set<nat>, a: seq<Message>, m: Message, b: seq<Message>)
    requires Numbered(messages) && Open(messages, gone) == a + [m] + b
    ensures m.handler !in gone && m.handler < |messages|
    ensures forall x | x in a :: x.handler < m.handler
    ensures forall x | x in b :: m.handler < x.handler
  {
    hide Open;
    OpenAscending(messages, gone);
    OpenMembers(messages, gone);
    assert m in a + [m] + b by { assert (a + [m] + b)[|a|] == m; }
    hide Ascending;
    AscendingAround(a, m, b);
  }

  lemma Without(a: seq<Message>, m: Message, b: seq<Message>)
    requires forall x | x in a :: x.handler < m.handler
    requires forall x | x in b :: m.handler < x.handler
    ensures Open(a + [m] + b, {m.handler}) == a + b
  {
    var closed := {m.handler};
    assert Open([m], closed) == [];
    hide Open;
    OpenConcat(a + [m], b, closed);
    OpenConcat(a, [m], closed);
    OpenAll(a, closed);
    OpenAll(b, closed);
    assert a + [] == a;
  }

  // Dropping one message from the queue.
  lemma DropOne(messages: seq<Message>, gone: set<nat>, a: seq<Message>, m: Message, b: seq<Message>)
    requires Numbered(messages) && Open(messages, gone) == a + [m] + b
    ensures Open(messages, gone + {m.handler}) == a + b
    ensures m.handler !in gone && m.handler < |messages|
  {
    hide Open;
    OthersDiffer(messages, gone, a, m, b);
    Without(a, m, b);
    OpenTwice(messages, gone, {m.handler});
  }

  // ----- Every step keeps it -----------------------------------------------------------

  lemma ResolvedAreGone(s: State)
    ensures forall i | 0 <= i < |Resolved(s)| :: Resolved(s)[i].handler in Gone(s)
  {
    forall i | 0 <= i < |Resolved(s)| ensures Resolved(s)[i].handler in Gone(s) {
      assert Resolved(s)[i] in Resolved(s);
    }
  }

  lemma EnqueueKeeps(s: State, data: seq<int>)
    requires Inv(s)
    ensures Inv(Enqueue(s, data))
  {
    var s', n := Enqueue(s, data), |s.received|;
    var message := Message(data, n);
    assert s'.received[..n] == s.received && Gone(s') == Gone(s) && n !in Gone(s);
    assert Open(s'.received, Gone(s)) == Open(s.received, Gone(s)) + [message];
    assert s.pending + (s.buffer + [message]) == s.pending + s.buffer + [message];
  }

  lemma RetainedQueue(s: State)
    requires s.buffer == Open(s.received, Gone(s)) && Numbered(s.received)
    ensures Open(s.buffer, s.cancelled) == Open(s.received, Gone(s) + Dropped(s))
    ensures forall h | h in Dropped(s) :: h !in Gone(s) && h in s.cancelled && h < |s.received|
  {
    OpenMembers(s.received, Gone(s));
    OpenTwice(s.received, Gone(s), s.cancelled);
    hide Open;
    forall m | m in s.received ensures m.handler in Gone(s) + s.cancelled <==> m.handler in Gone(s) + Dropped(s) {
      if m.handler in s.cancelled && m.handler !in Gone(s) {
        assert m in s.buffer;
      }
    }
    OpenSame(s.received, Gone(s) + s.cancelled, Gone(s) + Dropped(s));
  }

  lemma StillOnceEach(resolutions: seq<Resolution>, skipped: set<nat>, more: set<nat>)
    requires OnceEach(resolutions, skipped)
    requires forall i | 0 <= i < |resolutions| :: resolutions[i].handler !in more
    ensures OnceEach(resolutions, skipped + more)
  {
  }

  // Skipping some of what is held.
  lemma MoreSkipped(s: State, s': State, more: set<nat>)
    requires Conserved(s)
    requires s'.received == s.received && s'.cancelled == s.cancelled && Resolved(s') == Resolved(s)
    requires s'.skipped == s.skipped + more
    requires forall h | h in more :: h !in Gone(s) && h in s.cancelled && h < |s.received|
    requires s'.pending + s'.buffer == Open(s.received, Gone(s) + more)
    ensures Conserved(s')
  {
    hide Open;
    ResolvedAreGone(s);
    assert Gone(s') == Gone(s) + more;
    hide Gone, Resolved;
    StillOnceEach(Resolved(s), s.skipped, more);
  }

  lemma RetainKeeps(s: State)
    requires Inv(s) && !s.connected
    ensures Inv(Retain(s))
  {
    var s', dropped := Retain(s), Dropped(s);
    assert s.pending + s.buffer == s.buffer && s'.pending + s'.buffer == s'.buffer;
    RetainedQueue(s);
    hide Open, Dropped, Gone;
    MoreSkipped(s, s', dropped);
  }

  lemma {:induction false} WaitKeeps(s: State, arrivals: seq<Arrival>)
    requires Inv(s) && !s.connected
    ensures Inv(Wait(s, arrivals)) && !Wait(s, arrivals).connected
  {
    if arrivals != [] {
      var before, last := Wait(s, arrivals[..|arrivals| - 1]), arrivals[|arrivals| - 1];
      WaitKeeps(s, arrivals[..|arrivals| - 1]);
      hide Inv;
      match last {
        case Arrives(data) =>
          EnqueueKeeps(before, data);
          RetainKeeps(Enqueue(before, data));
        case Closes(h) =>
          CancelKeeps(before, h);
      }
    }
  }

  lemma CancelKeeps(s: State, h: nat)
    requires Inv(s)
    ensures Inv(s.(cancelled := s.cancelled + {h}))
  {
    assert Gone(s.(cancelled := s.cancelled + {h})) == Gone(s);
  }

  lemma BackOffKeeps(s: State)
    requires Inv(s)
    ensures Inv(BackOff(s))
  {
    assert Gone(BackOff(s)) == Gone(s);
  }

  lemma ConnectKeeps(s: State)
    requires Inv(s) && !s.connected
    ensures Inv(Connect(s))
  {
    assert Resolved(Connect(s)) == Resolved(s);
  }

  // A message skipped leaves the queue; one written only moves along it.
  lemma SendFirstKeeps(s: State)
    requires Inv(s) && s.connected && s.buffer != []
    ensures Inv(SendFirst(s))
  {
    hide Open;
    var s', m := SendFirst(s), s.buffer[0];
    assert s.pending + s.buffer == s.pending + [m] + s.buffer[1..];
    assert Resolved(s') == Resolved(s);
    if m.handler in s.cancelled {
      DropOne(s.received, Gone(s), s.pending, m, s.buffer[1..]);
      assert Gone(s') == Gone(s) + {m.handler};
      ResolvedAreGone(s);
    } else {
      assert Gone(s') == Gone(s);
      assert (s.written + [m])[|s.acked|..] == s.written[|s.acked|..] + [m];
    }
  }

  lemma DisconnectKeeps(s: State)
    requires Inv(s)
    ensures Inv(Disconnect(s))
  {
    assert Gone(Disconnect(s)) == Gone(s);
    assert [] + (s.pending + s.buffer) == s.pending + s.buffer;
  }

  lemma {:induction false} FlushKeeps(s: State, writes: nat)
    requires Inv(s) && s.connected
    ensures Inv(FlushBuffer(s, writes))
    decreases |s.buffer|
  {
    hide Inv;
    if s.buffer != [] {
      SendFirstKeeps(s);
      if s.buffer[0].handler in s.cancelled {
        FlushKeeps(SendFirst(s), writes);
      } else if writes == 0 {
        DisconnectKeeps(s);
      } else {
        FlushKeeps(SendFirst(s), writes - 1);
      }
    }
  }

  lemma AcknowledgeConserves(s: State, bytes: seq<int>)
    requires Conserved(s) && s.pending != []
    ensures Conserved(Acknowledge(s, bytes))
  {
    hide Open;
    var s', m, rest := Acknowledge(s, bytes), s.pending[0], s.pending[1..] + s.buffer;
    assert s.pending + s.buffer == [] + [m] + rest;
    DropOne(s.received, Gone(s), [], m, rest);
    assert s'.pending + s'.buffer == [] + rest;
    assert Resolved(s') == Resolved(s) + [Resolution(m.handler, bytes)];
    ResolvedAreGone(s);
    OneMoreGone(s, s', Resolution(m.handler, bytes));
    hide Gone, Resolved;
    assert OnceEach(Resolved(s'), s'.skipped);
  }

  lemma AcknowledgeKeeps(s: State, bytes: seq<int>)
    requires Inv(s) && s.connected && s.pending != []
    ensures Inv(Acknowledge(s, bytes))
  {
    AcknowledgeConserves(s, bytes);
    hide Conserved;
  }

  lemma OneMoreGone(s: State, s': State, r: Resolution)
    requires Resolved(s') == Resolved(s) + [r] && s'.skipped == s.skipped
    ensures Gone(s') == Gone(s) + {r.handler}
  {
    assert r in Resolved(s');
  }

  lemma StepKeeps(s: State, event: Event)
    requires Inv(s) && MayHappen(s, event)
    ensures Inv(Step(s, event))
  {
    hide Inv, Wait, FlushBuffer;
    match event {
      case Cancel(h) => CancelKeeps(s, h);
      case ConnectFails(arrivals) =>
        WaitKeeps(s, arrivals);
        BackOffKeeps(Wait(s, arrivals));
      case Connects(writes) =>
        ConnectKeeps(s);
        FlushKeeps(Connect(s), writes);
      case Receives(data, writes) =>
        EnqueueKeeps(s, data);
        FlushKeeps(Enqueue(s, data), writes);
      case Acks(bytes, writes) =>
        if s.pending == [] {
          DisconnectKeeps(s);
        } else {
          AcknowledgeKeeps(s, bytes);
          FlushKeeps(Acknowledge(s, bytes), writes);
        }
      case Breaks => DisconnectKeeps(s);
    }
  }

  lemma {:induction false} AfterKeeps(events: seq<Event>)
    requires Possible(events)
    ensures Inv(After(events))
  {
    if events == [] {
      assert Gone(NEW) == {};
    } else {
      hide Inv;
      AfterKeeps(events[..|events| - 1]);
      StepKeeps(After(events[..|events| - 1]), events[|events| - 1]);
    }
  }

  // ----- What holds of every run ----------------------------------------------------------

  function Queue(s: State): seq<Message> { s.pending + s.buffer }

  // The data that arrived from the channel, in order.
  function ArrivedWaiting(arrivals: seq<Arrival>): seq<seq<int>> {
    if arrivals == [] then []
    else
      ArrivedWaiting(arrivals[..|arrivals| - 1]) +
      match arrivals[|arrivals| - 1]
      case Arrives(data) => [data]
      case Closes(_) => []
  }

  function ArrivedAt(event: Event): seq<seq<int>> {
    match event
    case ConnectFails(arrivals) => ArrivedWaiting(arrivals)
    case Receives(data, _) => [data]
    case _ => []
  }

  function Arrived(events: seq<Event>): seq<seq<int>> {
    if events == [] then [] else Arrived(events[..|events| - 1]) + ArrivedAt(events[|events| - 1])
  }

  function DataOf(messages: seq<Message>): (data: seq<seq<int>>)
    ensures |data| == |messages|
    ensures forall i | 0 <= i < |data| :: data[i] == messages[i].data
  {
    seq(|messages|, i requires 0 <= i < |messages| => messages[i].data)
  }

  // What flushing leaves alone.
  lemma {:induction false} FlushLeaves(s: State, writes: nat)
    ensures FlushBuffer(s, writes).received == s.received
    ensures FlushBuffer(s, writes).delay == s.delay && FlushBuffer(s, writes).retry == s.retry
    ensures FlushBuffer(s, writes).cancelled == s.cancelled
    ensures s.skipped <= FlushBuffer(s, writes).skipped
    ensures Resolved(FlushBuffer(s, writes)) == Resolved(s)
    ensures FlushBuffer(s, writes).connected ==> FlushBuffer(s, writes).buffer == [] && s.connected
    decreases |s.buffer|
  {
    if s.buffer != [] {
      if s.buffer[0].handler in s.cancelled {
        FlushLeaves(SendFirst(s), writes);
      } else if writes > 0 {
        FlushLeaves(SendFirst(s), writes - 1);
      }
    }
  }

  lemma {:induction false} WaitLeaves(s: State, arrivals: seq<Arrival>)
    ensures DataOf(Wait(s, arrivals).received) == DataOf(s.received) + ArrivedWaiting(arrivals)
    ensures Wait(s, arrivals).delay == s.delay && Wait(s, arrivals).retry == s.retry
    ensures Wait(s, arrivals).connected == s.connected && Resolved(Wait(s, arrivals)) == Resolved(s)
    ensures s.skipped <= Wait(s, arrivals).skipped
    ensures s.received <= Wait(s, arrivals).received
  {
    if arrivals != [] {
      WaitLeaves(s, arrivals[..|arrivals| - 1]);
    }
  }

  // A step takes in what arrived, and takes back neither an ACK nor a skip.
  lemma StepGrows(s: State, event: Event)
    requires MayHappen(s, event)
    ensures DataOf(Step(s, event).received) == DataOf(s.received) + ArrivedAt(event)
    ensures s.received <= Step(s, event).received
    ensures Resolved(s) <= Resolved(Step(s, event))
    ensures s.skipped <= Step(s, event).skipped
  {
    match event {
      case ConnectFails(arrivals) => WaitLeaves(s, arrivals);
      case Connects(writes) => FlushLeaves(Connect(s), writes);
      case Receives(data, writes) => FlushLeaves(Enqueue(s, data), writes);
      case Acks(bytes, writes) =>
        if s.pending != [] {
          FlushLeaves(Acknowledge(s, bytes), writes);
        }
      case _ =>
    }
  }

  // Once an event is over, a connection that stands has written all it had.
  lemma {:induction false} NothingUnwritten(events: seq<Event>)
    requires Possible(events) && After(events).connected
    ensures After(events).buffer == []
  {
    var s, event := After(events[..|events| - 1]), events[|events| - 1];
    match event {
      case Cancel(_) => NothingUnwritten(events[..|events| - 1]);
      case ConnectFails(arrivals) => WaitLeaves(s, arrivals);
      case Connects(writes) => FlushLeaves(Connect(s), writes);
      case Receives(data, writes) => FlushLeaves(Enqueue(s, data), writes);
      case Acks(bytes, writes) =>
        if s.pending != [] {
          FlushLeaves(Acknowledge(s, bytes), writes);
        }
      case Breaks =>
    }
  }

  // The messages received are what arrived, numbered; those still held are the
  // ones neither acknowledged nor skipped as cancelled, in the order they came.
  lemma {:induction false} HeldInOrder(events: seq<Event>)
    requires Possible(events)
    ensures DataOf(After(events).received) == Arrived(events) && Numbered(After(events).received)
    ensures Queue(After(events)) == Open(After(events).received, Gone(After(events)))
    ensures Ascending(Queue(After(events)))
    ensures After(events).skipped <= After(events).cancelled
  {
    AfterKeeps(events);
    OpenAscending(After(events).received, Gone(After(events)));
    hide Open, Wait, FlushBuffer, Step;
    if events != [] {
      var before := events[..|events| - 1];
      HeldInOrder(before);
      StepGrows(After(before), events[|events| - 1]);
    }
  }

  // Each message received is in exactly one place: acknowledged, skipped as
  // cancelled, or held once.
  lemma EachAccountedFor(events: seq<Event>, h: nat)
    requires Possible(events) && h < |Arrived(events)|
    ensures
      var s := After(events);
      var acked := exists i :: 0 <= i < |Resolved(s)| && Resolved(s)[i].handler == h;
      var held := exists i :: 0 <= i < |Queue(s)| && Queue(s)[i] == Message(Arrived(events)[h], h);
      && (acked ==> h !in s.skipped && !held)
      && (h in s.skipped ==> !held)
      && (acked || h in s.skipped || held)
  {
    var s := After(events);
    AfterKeeps(events);
    HeldInOrder(events);
    ResolvedAreGone(s);
    OpenMembers(s.received, Gone(s));
    hide Open, After, Arrived;
    var message := Message(Arrived(events)[h], h);
    assert s.received[h] == message && message in s.received;
    assert message in Queue(s) <==> h !in Gone(s);
    if h in Gone(s) && h !in s.skipped {
      var r :| r in Resolved(s) && r.handler == h;
    }
  }

  // No handler is told twice, and none whose message was skipped.
  lemma ResolvedOnce(events: seq<Event>, i: nat, j: nat)
    requires Possible(events) && i < j < |Resolved(After(events))|
    ensures Resolved(After(events))[i].handler != Resolved(After(events))[j].handler
  {
    AfterKeeps(events);
  }

  lemma {:induction false} RunsOn(events: seq<Event>, n: nat)
    requires Possible(events) && n <= |events|
    ensures Possible(events[..n])
    ensures After(events[..n]).received <= After(events).received
    ensures Resolved(After(events[..n])) <= Resolved(After(events))
    ensures After(events[..n]).skipped <= After(events).skipped
  {
    if n == |events| {
      assert events[..n] == events;
    } else {
      var before := events[..|events| - 1];
      RunsOn(before, n);
      assert before[..n] == events[..n];
      hide Step;
      StepGrows(After(before), events[|events| - 1]);
    }
  }

  // A message held at some point of a run leaves only by an ACK or because it
  // was cancelled, and then never comes back.
  lemma LeavesForGood(events: seq<Event>, n: nat, m: Message)
    requires Possible(events) && n <= |events|
    ensures Possible(events[..n])
    ensures m in Queue(After(events[..n])) && m !in Queue(After(events)) ==>
      || (exists i :: 0 <= i < |Resolved(After(events))| && Resolved(After(events))[i].handler == m.handler)
      || m.handler in After(events).cancelled
    ensures m in After(events[..n]).received && m !in Queue(After(events[..n])) ==> m !in Queue(After(events))
  {
    RunsOn(events, n);
    var s, s' := After(events[..n]), After(events);
    AfterKeeps(events[..n]);
    AfterKeeps(events);
    OpenMembers(s.received, Gone(s));
    OpenMembers(s'.received, Gone(s'));
    hide Open, After, Possible;
    assert forall x | x in s.received :: x in s'.received;
    assert Gone(s) <= Gone(s');
    if m in Queue(s) && m !in Queue(s') && m.handler !in s'.skipped {
      var r :| r in Resolved(s') && r.handler == m.handler;
    }
  }

  // On each connection the k-th ACK goes to the k-th message written on it,
  // and what is written but not acknowledged is what it waits for.
  lemma AcksPair(events: seq<Event>, k: nat)
    requires Possible(events) && k < |After(events).acked|
    ensures |After(events).acked| <= |After(events).written|
    ensures After(events).acked[k].handler == After(events).written[k].handler
    ensures After(events).connected ==> Queue(After(events)) == After(events).written[|After(events).acked|..]
  {
    AfterKeeps(events);
    if After(events).connected {
      NothingUnwritten(events);
    }
  }

  // ----- Backing off ---------------------------------------------------------------------

  // The failures to connect since the last time it worked.
  function Failures(events: seq<Event>): nat {
    if events == [] then 0
    else
      var before := events[..|events| - 1];
      match events[|events| - 1]
      case ConnectFails(_) => Failures(before) + 1
      case Connects(_) => 0
      case _ => Failures(before)
  }

  function Power(k: nat): nat {
    if k == 0 then 1 else 2 * Power(k - 1)
  }

  // After k failures in a row the next wait is 200 * 2^k ms, but never more
  // than a minute.
  lemma {:induction false} WaitsDouble(events: seq<Event>)
    requires Possible(events)
    ensures After(events).retry == Failures(events)
    ensures After(events).delay == Min(RETRY_DELAY * Power(Failures(events)), MAX_DELAY)
  {
    if events != [] {
      var s, event := After(events[..|events| - 1]), events[|events| - 1];
      WaitsDouble(events[..|events| - 1]);
      match event {
        case ConnectFails(arrivals) => WaitLeaves(s, arrivals);
        case Connects(writes) => FlushLeaves(Connect(s), writes);
        case Receives(data, writes) => FlushLeaves(Enqueue(s, data), writes);
        case Acks(bytes, writes) =>
          if s.pending != [] {
            FlushLeaves(Acknowledge(s, bytes), writes);
          }
        case _ =>
      }
    }
  }
}
