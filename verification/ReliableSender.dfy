/** The connection's loops, in place over its two deques, against the steps they take. */
module ReliableSender {
  import opened Connection

  datatype Error = FailedToSendMessage | UnexpectedAck | FailedToReceiveAck

  datatype Outcome = Up | Broken(error: Error)

  // What the peer's stream yields: bytes, or an error or its end.
  datatype Response = Bytes(bytes: seq<int>) | Failure

  class Link {
    var connected: bool
    var delay: nat
    var retry: nat
    var buffer: seq<Message>
    var pending: seq<Message>
    var taken: nat
    var closed: set<nat>
    var acked: seq<Resolution>
    ghost var received: seq<Message>
    ghost var written: seq<Message>
    ghost var ackedBefore: seq<Resolution>
    ghost var skipped: set<nat>

    ghost predicate Valid()
      reads this
    {
      |received| == taken
    }

    ghost function Contents(): State
      reads this
    {
      State(connected, delay, retry, buffer, pending, received, written, acked, ackedBefore, skipped, closed)
    }

    constructor ()
      ensures Valid() && Contents() == NEW
    {
      connected, delay, retry := false, RETRY_DELAY, 0;
      buffer, pending, taken, closed, acked := [], [], 0, {}, [];
      received, written, ackedBefore, skipped := [], [], [], {};
    }

    // A caller drops or keeps the other half of a handler as it pleases.
    method Close(handler: nat)
      requires Valid()
      modifies this`closed
      ensures Valid() && Contents() == Step(old(Contents()), Cancel(handler))
    {
      closed := closed + {handler};
    }

    method PushBack(data: seq<int>)
      requires Valid()
      modifies this`buffer, this`taken, this`received
      ensures Valid() && Contents() == Enqueue(old(Contents()), data)
    {
      buffer := buffer + [Message(data, taken)];
      received := received + [Message(data, taken)];
      taken := taken + 1;
    }

    // The wait after a failed attempt to connect: the channel is drained into
    // the buffer until the timer goes.
    method AwaitTimer(arrivals: seq<Arrival>)
      requires Valid() && !connected
      modifies this
      ensures Valid() && Contents() == Step(old(Contents()), ConnectFails(arrivals))
    {
      for i := 0 to |arrivals|
        invariant Valid()
        invariant Contents() == Wait(old(Contents()), arrivals[..i])
      {
        assert arrivals[..i + 1][..i] == arrivals[..i];
        match arrivals[i] {
          case Arrives(data) =>
            PushBack(data);
            skipped := skipped + Dropped(Contents());
            buffer := Open(buffer, closed);
          case Closes(handler) =>
            closed := closed + {handler};
        }
      }
      assert arrivals[..|arrivals|] == arrivals;
      delay := Min(2 * delay, MAX_DELAY);
      retry := retry + 1;
    }

    // The messages without an ACK go back in front of the buffer, last first.
    method PutBack()
      requires Valid()
      modifies this`connected, this`buffer, this`pending
      ensures Valid() && Contents() == Disconnect(old(Contents()))
    {
      connected := false;
      while pending != []
        invariant !connected && pending + buffer == old(pending + buffer)
        decreases |pending|
      {
        var message := pending[|pending| - 1];
        assert pending + buffer == pending[..|pending| - 1] + ([message] + buffer);
        pending := pending[..|pending| - 1];
        buffer := [message] + buffer;
      }
      assert pending + buffer == buffer;
    }

    // Write the buffer out, message by message, leaving out the cancelled ones.
    method Flush(writes: nat) returns (outcome: Outcome)
      requires Valid() && connected
      modifies this
      ensures Valid() && Contents() == FlushBuffer(old(Contents()), writes)
      ensures outcome == if connected then Up else Broken(FailedToSendMessage)
    {
      var left := writes;
      outcome := Up;
      while buffer != [] && outcome == Up
        invariant Valid() && connected
        invariant outcome == Up ==> FlushBuffer(Contents(), left) == FlushBuffer(old(Contents()), writes)
        invariant outcome != Up ==> outcome == Broken(FailedToSendMessage)
        invariant outcome != Up ==> Disconnect(Contents()) == FlushBuffer(old(Contents()), writes)
        decreases |buffer|, outcome == Up
      {
        var message := buffer[0];
        assert buffer == [message] + buffer[1..];
        buffer := buffer[1..];
        if message.handler in closed {
          skipped := skipped + {message.handler};
        } else if left > 0 {
          left := left - 1;
          pending := pending + [message];
          written := written + [message];
        } else {
          buffer := [message] + buffer;
          outcome := Broken(FailedToSendMessage);
        }
      }
      if outcome != Up {
        PutBack();
      }
    }

    method Establish(writes: nat) returns (outcome: Outcome)
      requires Valid() && !connected
      modifies this
      ensures Valid() && Contents() == Step(old(Contents()), Connects(writes))
      ensures outcome == if connected then Up else Broken(FailedToSendMessage)
    {
      connected := true;
      delay, retry := RETRY_DELAY, 0;
      ackedBefore := ackedBefore + acked;
      written, acked := [], [];
      hide FlushBuffer;
      assert Contents() == Connect(old(Contents()));
      outcome := Flush(writes);
    }

    method Receive(data: seq<int>, writes: nat) returns (outcome: Outcome)
      requires Valid() && connected
      modifies this
      ensures Valid() && Contents() == Step(old(Contents()), Receives(data, writes))
      ensures outcome == if connected then Up else Broken(FailedToSendMessage)
    {
      PushBack(data);
      outcome := Flush(writes);
    }

    // The peer's stream yields something: an ACK for the message that waits
    // longest, or the end of the connection.
    method Respond(response: Response, writes: nat) returns (outcome: Outcome)
      requires Valid() && connected
      modifies this
      ensures Valid()
      ensures Contents() == Step(old(Contents()), if response.Bytes? then Acks(response.bytes, writes) else Breaks)
      ensures outcome == Broken(UnexpectedAck) <==> old(pending) == []
      ensures outcome == Broken(FailedToReceiveAck) <==> old(pending) != [] && response.Failure?
      ensures outcome == Up <==> connected
    {
      if pending == [] {
        outcome := Broken(UnexpectedAck);
      } else {
        var message := pending[0];
        assert pending == [message] + pending[1..];
        pending := pending[1..];
        match response {
          case Bytes(bytes) =>
            acked := acked + [Resolution(message.handler, bytes)];
            outcome := Flush(writes);
            return;
          case Failure =>
            pending := [message] + pending;
            outcome := Broken(FailedToReceiveAck);
        }
      }
      PutBack();
    }
  }
}
