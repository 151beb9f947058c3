/** What each event of a connection does to the outside: what is written, skipped and passed on. */
module Wire {
  import opened Connection

  // ----- Flushing -----------------------------------------------------------------

  // The handlers of a queue that are closed.
  function ClosedIn(messages: seq<Message>, closed: set<nat>): set<nat> {
    set m | m in messages && m.handler in closed :: m.handler
  }

  // As many of them as there are writes that succeed.
  function FirstOf(messages: seq<Message>, writes: nat): seq<Message> {
    messages[..Min(writes, |messages|)]
  }

  // The state once the first n messages of the buffer have been dealt with.
  function Taken(s: State, n: nat): State
    requires n <= |s.buffer|
  {
    var open := Open(s.buffer[..n], s.cancelled);
    s.(
      buffer := s.buffer[n..],
      pending := s.pending + open,
      written := s.written + open,
      skipped := s.skipped + ClosedIn(s.buffer[..n], s.cancelled))
  }

  lemma TakeNone(s: State)
    ensures Taken(s, 0) == s && Open(s.buffer[..0], s.cancelled) == []
  {
    assert s.buffer[..0] == [] && s.buffer[0..] == s.buffer && ClosedIn([], s.cancelled) == {};
    assert s.pending + [] == s.pending && s.written + [] == s.written && s.skipped + {} == s.skipped;
  }

  lemma OpenNext(messages: seq<Message>, closed: set<nat>, n: nat)
    requires n < |messages|
    ensures Open(messages[..n + 1], closed)
         == Open(messages[..n], closed) + if messages[n].handler in closed then [] else [messages[n]]
    ensures ClosedIn(messages[..n + 1], closed)
         == ClosedIn(messages[..n], closed) + if messages[n].handler in closed then {messages[n].handler} else {}
  {
    assert messages[..n + 1] == messages[..n] + [messages[n]] && messages[..n + 1][..n] == messages[..n];
  }

  lemma TakeNext(s: State, n: nat)
    requires n < |s.buffer|
    ensures Taken(s, n).buffer != [] && Taken(s, n).buffer[0] == s.buffer[n]
    ensures SendFirst(Taken(s, n)) == Taken(s, n + 1)
  {
    hide Open, ClosedIn;
    OpenNext(s.buffer, s.cancelled, n);
    var m, open := s.buffer[n], Open(s.buffer[..n], s.cancelled);
    assert s.buffer[n..][1..] == s.buffer[n + 1..];
    assert s.pending + (open + [m]) == s.pending + open + [m];
    assert s.written + (open + [m]) == s.written + open + [m];
    assert open + [] == open && ClosedIn(s.buffer[..n], s.cancelled) + {} == ClosedIn(s.buffer[..n], s.cancelled);
  }

  lemma {:induction false} FlushTakes(s: State, writes: nat, n: nat)
    requires n <= |s.buffer| && |Open(s.buffer[..n], s.cancelled)| <= writes
    ensures FlushBuffer(s, writes) == FlushBuffer(Taken(s, n), writes - |Open(s.buffer[..n], s.cancelled)|)
  {
    hide Open, Taken, SendFirst, ClosedIn, FlushBuffer;
    if n == 0 {
      TakeNone(s);
    } else {
      OpenNext(s.buffer, s.cancelled, n - 1);
      FlushTakes(s, writes, n - 1);
      TakeNext(s, n - 1);
      TakenKeepsCancelled(s, n - 1);
      FlushOne(Taken(s, n - 1), writes - |Open(s.buffer[..n - 1], s.cancelled)|);
    }
  }

  lemma FlushOne(s: State, writes: nat)
    requires s.buffer != [] && (s.buffer[0].handler in s.cancelled || writes > 0)
    ensures FlushBuffer(s, writes)
         == FlushBuffer(SendFirst(s), if s.buffer[0].handler in s.cancelled then writes else writes - 1)
  {}

  lemma TakenKeepsCancelled(s: State, n: nat)
    requires n <= |s.buffer|
    ensures Taken(s, n).cancelled == s.cancelled
  {}

  // A flush that gets all its writes through writes every message that is not
  // cancelled, in order, and skips exactly the cancelled ones.
  lemma FlushGoesThrough(s: State, writes: nat)
    requires |Open(s.buffer, s.cancelled)| <= writes
    ensures FlushBuffer(s, writes) == s.(
      buffer := [],
      pending := s.pending + Open(s.buffer, s.cancelled),
      written := s.written + Open(s.buffer, s.cancelled),
      skipped := s.skipped + ClosedIn(s.buffer, s.cancelled))
  {
    hide Open, ClosedIn, SendFirst;
    assert s.buffer[..|s.buffer|] == s.buffer && s.buffer[|s.buffer|..] == [];
    FlushTakes(s, writes, |s.buffer|);
  }

  lemma {:induction false} FindBreak(messages: seq<Message>, closed: set<nat>, writes: nat) returns (n: nat)
    requires |Open(messages, closed)| > writes
    ensures n < |messages| && messages[n].handler !in closed && |Open(messages[..n], closed)| == writes
  {
    var k := |messages| - 1;
    if |Open(messages[..k], closed)| > writes {
      n := FindBreak(messages[..k], closed, writes);
      assert messages[..k][..n] == messages[..n];
    } else {
      n := k;
    }
  }

  // One whose write fails has written the messages before, skipped the
  // cancelled ones among them, and put all others back in their order.
  lemma FlushBreaksOff(s: State, writes: nat) returns (n: nat)
    requires |Open(s.buffer, s.cancelled)| > writes
    ensures n < |s.buffer| && s.buffer[n].handler !in s.cancelled && |Open(s.buffer[..n], s.cancelled)| == writes
    ensures FlushBuffer(s, writes) == Disconnect(Taken(s, n))
  {
    n := FindBreak(s.buffer, s.cancelled, writes);
    hide Open, ClosedIn, SendFirst;
    FlushTakes(s, writes, n);
    TakeNext(s, n);
    TakenKeepsCancelled(s, n);
  }

  // ----- What has been cancelled ------------------------------------------------------

  function ClosesWaiting(arrivals: seq<Arrival>): set<nat> {
    set a | a in arrivals && a.Closes? :: a.handler
  }

  function ClosesAt(event: Event): set<nat> {
    match event
    case Cancel(handler) => {handler}
    case ConnectFails(arrivals) => ClosesWaiting(arrivals)
    case _ => {}
  }

  // The handlers closed in the course of a run.
  function Closed(events: seq<Event>): set<nat> {
    if events == [] then {} else Closed(events[..|events| - 1]) + ClosesAt(events[|events| - 1])
  }

  lemma {:induction false} WaitCloses(s: State, arrivals: seq<Arrival>)
    ensures Wait(s, arrivals).cancelled == s.cancelled + ClosesWaiting(arrivals)
    ensures Wait(s, arrivals).written == s.written
  {
    if arrivals == [] {
      assert ClosesWaiting([]) == {};
    } else {
      var n := |arrivals| - 1;
      WaitCloses(s, arrivals[..n]);
      assert arrivals == arrivals[..n] + [arrivals[n]];
      assert ClosesWaiting(arrivals)
          == ClosesWaiting(arrivals[..n]) + if arrivals[n].Closes? then {arrivals[n].handler} else {};
    }
  }

  lemma StepCloses(s: State, event: Event)
    requires MayHappen(s, event)
    ensures Step(s, event).cancelled == s.cancelled + ClosesAt(event)
  {
    match event {
      case ConnectFails(arrivals) => WaitCloses(s, arrivals);
      case Connects(writes) => FlushLeaves(Connect(s), writes);
      case Receives(data, writes) => FlushLeaves(Enqueue(s, data), writes);
      case Acks(bytes, writes) =>
        if s.pending != [] {
          FlushLeaves(Acknowledge(s, bytes), writes);
        }
      case _ =>
    }
  }

  lemma {:induction false} CancelledAreClosed(events: seq<Event>)
    requires Possible(events)
    ensures After(events).cancelled == Closed(events)
  {
    if events != [] {
      var n := |events| - 1;
      CancelledAreClosed(events[..n]);
      StepCloses(After(events[..n]), events[n]);
    }
  }

  // ----- What each event writes ----------------------------------------------------------

  // The messages an event has the connection flush.
  function Offered(s: State, event: Event): seq<Message> {
    match event
    case Connects(_) => s.buffer
    case Receives(data, _) => [Message(data, |s.received|)]
    case _ => []
  }

  function WritesOf(event: Event): nat {
    match event
    case Connects(writes) => writes
    case Receives(_, writes) => writes
    case Acks(_, writes) => writes
    case _ => 0
  }

  lemma {:induction false} Extended(events: seq<Event>, event: Event)
    requires Possible(events) && MayHappen(After(events), event)
    ensures Possible(events + [event]) && After(events + [event]) == Step(After(events), event)
    ensures Closed(events + [event]) == Closed(events) + ClosesAt(event)
  {
    assert (events + [event])[..|events + [event]| - 1] == events;
  }

  // An event that has the connection flush writes the first of the messages at
  // hand that were not cancelled before, as many as get through.  The connection
  // stands afterwards if and only if that was all of them, and then it has
  // skipped all the cancelled ones.
  lemma EventWrites(events: seq<Event>, event: Event)
    requires Possible(events) && MayHappen(After(events), event)
    requires event.Connects? || event.Receives? || (event.Acks? && After(events).pending != [])
    ensures Possible(events + [event])
    ensures
      var s, s' := After(events), After(events + [event]);
      var offered := Offered(s, event);
      var due := Open(offered, Closed(events));
      && s'.written == (if event.Connects? then [] else s.written) + FirstOf(due, WritesOf(event))
      && (s'.connected <==> |due| <= WritesOf(event))
      && (s'.connected ==> s'.skipped == s.skipped + ClosedIn(offered, Closed(events)))
  {
    Extended(events, event);
    CancelledAreClosed(events);
    var s := After(events);
    hide After, Possible, Open, FlushBuffer, ClosedIn, Closed;
    match event {
      case Connects(writes) => FlushWrites(Connect(s), writes);
      case Receives(data, writes) =>
        NothingUnwritten(events);
        assert [] + [Message(data, |s.received|)] == [Message(data, |s.received|)];
        FlushWrites(Enqueue(s, data), writes);
      case Acks(bytes, writes) =>
        NothingUnwritten(events);
        FlushWrites(Acknowledge(s, bytes), writes);
    }
  }

  lemma FlushWrites(s: State, writes: nat)
    requires s.connected
    ensures
      var s', due := FlushBuffer(s, writes), Open(s.buffer, s.cancelled);
      && s'.written == s.written + FirstOf(due, writes)
      && (s'.connected <==> |due| <= writes)
      && (s'.connected ==> s'.skipped == s.skipped + ClosedIn(s.buffer, s.cancelled))
  {
    var due := Open(s.buffer, s.cancelled);
    if |due| <= writes {
      FlushGoesThrough(s, writes);
      assert due[..|due|] == due;
    } else {
      var n := FlushBreaksOff(s, writes);
      OpenConcat(s.buffer[..n], s.buffer[n..], s.cancelled);
      assert s.buffer[..n] + s.buffer[n..] == s.buffer;
      assert due[..writes] == Open(s.buffer[..n], s.cancelled);
    }
  }

  // So nothing cancelled before an event is written by it, and nothing else is
  // skipped.
  lemma CancelledAreNotWritten(events: seq<Event>, event: Event, m: Message)
    requires Possible(events) && MayHappen(After(events), event)
    requires event.Connects? || event.Receives? || (event.Acks? && After(events).pending != [])
    ensures Possible(events + [event])
    ensures
      var s, s' := After(events), After(events + [event]);
      var before := if event.Connects? then [] else s.written;
      && before <= s'.written
      && (m in s'.written[|before|..] ==> m.handler !in Closed(events) && m in Offered(s, event))
      && (s'.connected && m in s.buffer && m.handler in Closed(events) ==> m.handler in s'.skipped)
  {
    EventWrites(events, event);
    var s := After(events);
    OpenMembers(Offered(s, event), Closed(events));
    if !event.Connects? {
      NothingUnwritten(events);
    }
    hide After, Possible, Open, Closed;
  }

  // The other events write nothing; an ACK that nothing waits for and the end of
  // the stream break the connection, which a cancelled message does not.
  lemma EventWritesNothing(events: seq<Event>, event: Event)
    requires Possible(events) && MayHappen(After(events), event)
    requires !event.Connects? && !event.Receives? && !(event.Acks? && After(events).pending != [])
    ensures Possible(events + [event])
    ensures
      var s, s' := After(events), After(events + [event]);
      && s'.written == s.written && Resolved(s') == Resolved(s)
      && (s'.connected <==> s.connected && event.Cancel?)
  {
    Extended(events, event);
    var s := After(events);
    match event {
      case ConnectFails(arrivals) =>
        WaitCloses(s, arrivals);
        WaitLeaves(s, arrivals);
      case _ =>
    }
  }

  // ----- What the waiting cleans up --------------------------------------------------------

  // Whatever was closed before some message arrived is gone from the buffer.
  lemma {:induction false} WaitDropsClosed(s: State, arrivals: seq<Arrival>, n: nat, m: Message)
    requires n < |arrivals| && arrivals[n].Arrives? && m in Wait(s, arrivals).buffer
    ensures m.handler !in s.cancelled + ClosesWaiting(arrivals[..n])
  {
    var k := |arrivals| - 1;
    var before := Wait(s, arrivals[..k]);
    assert arrivals[..k][..n] == arrivals[..n];
    WaitCloses(s, arrivals[..k]);
    if arrivals[k].Arrives? {
      var arrived := Enqueue(before, arrivals[k].data);
      OpenMembers(arrived.buffer, before.cancelled);
      ClosesEarlier(arrivals[..k], n);
      hide ClosesWaiting, Open;
      assert Wait(s, arrivals).buffer == Open(arrived.buffer, before.cancelled);
    } else {
      WaitDropsClosed(s, arrivals[..k], n, m);
    }
  }

  lemma ClosesEarlier(arrivals: seq<Arrival>, n: nat)
    requires n <= |arrivals|
    ensures ClosesWaiting(arrivals[..n]) <= ClosesWaiting(arrivals)
  {
    assert arrivals == arrivals[..n] + arrivals[n..];
  }

  // While the connection waits, each arrival clears the buffer of what has been
  // cancelled by then.
  lemma WaitingCleans(events: seq<Event>, arrivals: seq<Arrival>, n: nat, m: Message)
    requires Possible(events) && MayHappen(After(events), ConnectFails(arrivals))
    requires n < |arrivals| && arrivals[n].Arrives?
    ensures Possible(events + [ConnectFails(arrivals)])
    ensures m in After(events + [ConnectFails(arrivals)]).buffer ==>
      m.handler !in Closed(events) && m.handler !in ClosesWaiting(arrivals[..n])
  {
    Extended(events, ConnectFails(arrivals));
    CancelledAreClosed(events);
    hide Wait, After, Possible;
    if m in Wait(After(events), arrivals).buffer {
      WaitDropsClosed(After(events), arrivals, n, m);
    }
  }

  // ----- What is passed on to the handlers ---------------------------------------------------

  // The bytes of the ACKs that found a message waiting for one.
  function AcksHeard(events: seq<Event>): seq<seq<int>>
    requires Possible(events)
  {
    if events == [] then []
    else
      var before, last := events[..|events| - 1], events[|events| - 1];
      AcksHeard(before) + if last.Acks? && After(before).pending != [] then [last.bytes] else []
  }

  // The bytes of all ACKs since the connection was last established.
  function AcksSince(events: seq<Event>): seq<seq<int>> {
    if events == [] then []
    else
      var before, last := events[..|events| - 1], events[|events| - 1];
      match last
      case Acks(bytes, _) => AcksSince(before) + [bytes]
      case Connects(_) => []
      case _ => AcksSince(before)
  }

  function BytesOf(resolutions: seq<Resolution>): (bytes: seq<seq<int>>)
    ensures |bytes| == |resolutions|
    ensures forall k | 0 <= k < |bytes| :: bytes[k] == resolutions[k].ack
  {
    seq(|resolutions|, k requires 0 <= k < |resolutions| => resolutions[k].ack)
  }

  lemma {:induction false} FlushKeepsAcks(s: State, writes: nat)
    ensures FlushBuffer(s, writes).acked == s.acked && FlushBuffer(s, writes).ackedBefore == s.ackedBefore
    decreases |s.buffer|
  {
    if s.buffer != [] {
      if s.buffer[0].handler in s.cancelled {
        FlushKeepsAcks(SendFirst(s), writes);
      } else if writes > 0 {
        FlushKeepsAcks(SendFirst(s), writes - 1);
      }
    }
  }

  lemma {:induction false} WaitKeepsAcks(s: State, arrivals: seq<Arrival>)
    ensures Wait(s, arrivals).acked == s.acked && Wait(s, arrivals).ackedBefore == s.ackedBefore
  {
    if arrivals != [] {
      WaitKeepsAcks(s, arrivals[..|arrivals| - 1]);
    }
  }

  // What a step passes on.
  lemma StepPassesOn(s: State, event: Event)
    requires MayHappen(s, event)
    ensures
      var s' := Step(s, event);
      && Resolved(s') == Resolved(s)
         + (if event.Acks? && s.pending != [] then [Resolution(s.pending[0].handler, event.bytes)] else [])
      && s'.acked == (if event.Connects? then []
                      else if event.Acks? && s.pending != [] then s.acked + [Resolution(s.pending[0].handler, event.bytes)]
                      else s.acked)
  {
    match event {
      case ConnectFails(arrivals) => WaitKeepsAcks(s, arrivals);
      case Connects(writes) => FlushKeepsAcks(Connect(s), writes);
      case Receives(data, writes) => FlushKeepsAcks(Enqueue(s, data), writes);
      case Acks(bytes, writes) =>
        if s.pending != [] {
          FlushKeepsAcks(Acknowledge(s, bytes), writes);
          assert Resolved(Acknowledge(s, bytes)) == Resolved(s) + [Resolution(s.pending[0].handler, bytes)];
        }
      case _ =>
    }
  }

  // Over all connections, the handlers are passed the bytes of those ACKs, in order.
  lemma {:induction false} AcksPassedOn(events: seq<Event>)
    requires Possible(events)
    ensures BytesOf(Resolved(After(events))) == AcksHeard(events)
  {
    if events != [] {
      var before, last := events[..|events| - 1], events[|events| - 1];
      hide Step;
      AcksPassedOn(before);
      StepPassesOn(After(before), last);
    }
  }

  // On each connection they are passed the bytes of all ACKs that have arrived on
  // it, in order, but for the one that nothing waits for, which breaks it.
  lemma {:induction false} AcksOfConnection(events: seq<Event>)
    requires Possible(events)
    ensures
      var acked, arrived := BytesOf(After(events).acked), AcksSince(events);
      && acked <= arrived && |arrived| <= |acked| + 1
      && (After(events).connected ==> acked == arrived)
  {
    hide Step, ClosesAt, Closed;
    if events != [] {
      var before, last := events[..|events| - 1], events[|events| - 1];
      AcksOfConnection(before);
      StepPassesOn(After(before), last);
      Extended(before, last);
      assert before + [last] == events;
      if !last.Connects? && !last.Receives? && !(last.Acks? && After(before).pending != []) {
        EventWritesNothing(before, last);
      }
      if last.Acks? && After(before).pending != [] {
        assert BytesOf(After(events).acked) == BytesOf(After(before).acked) + [last.bytes];
      }
    }
  }
}
