/** The key-value store's command loop, and the history its replies obey. */
module Store {
  import opened Basics

  type Key = seq<int>
  type Bytes = seq<int>

  // The place of a command in the history names the channel its reply goes to.
  datatype Command =
    | Write(key: Key, value: Bytes)
    | Read(key: Key)
    | NotifyRead(key: Key)

  // A reply sent: to which command, and what.
  datatype Reply = Reply(to: nat, value: Option<Bytes>)

  // ----- The reference: replies read off the history ---------------------------

  // The value a key holds after a history: that of its last write.
  function LastWrite(h: seq<Command>, key: Key): Option<Bytes> {
    if h == [] then None
    else
      var last := h[|h| - 1];
      if last.Write? && last.key == key then Some(last.value) else LastWrite(h[..|h| - 1], key)
  }

  // The unanswered readers of a key, first come first.
  function Waiting(h: seq<Command>, key: Key): seq<nat> {
    if h == [] then []
    else
      var n := |h| - 1;
      var waiting := Waiting(h[..n], key);
      if h[n].Write? && h[n].key == key then []
      else if h[n] == NotifyRead(key) && LastWrite(h[..n], key) == None then waiting + [n]
      else waiting
  }

  function ReplyAll(to: seq<nat>, value: Bytes): seq<Reply> {
    seq(|to|, k requires 0 <= k < |to| => Reply(to[k], Some(value)))
  }

  // The replies the n-th command sets off, given the history before it.
  function RepliesTo(h: seq<Command>, command: Command): seq<Reply> {
    match command
    case Write(key, value) => ReplyAll(Waiting(h, key), value)
    case Read(key) => [Reply(|h|, LastWrite(h, key))]
    case NotifyRead(key) =>
      var found := LastWrite(h, key);
      if found.Some? then [Reply(|h|, found)] else []
  }

  function Replies(h: seq<Command>): seq<Reply> {
    if h == [] then []
    else Replies(h[..|h| - 1]) + RepliesTo(h[..|h| - 1], h[|h| - 1])
  }

  // ----- The loop -----------------------------------------------------------------

  // The state of the loop is the one this history leaves.
  ghost predicate Follows(db: map<Key, Bytes>, obligations: map<Key, seq<nat>>, h: seq<Command>) {
    && (forall key :: LastWrite(h, key) == if key in db then Some(db[key]) else None)
    && (forall key :: Waiting(h, key) == if key in obligations then obligations[key] else [])
  }

  class CommandLoop {
    var db: map<Key, Bytes>
    var obligations: map<Key, seq<nat>>
    var sent: seq<Reply>
    ghost var history: seq<Command>

    ghost predicate Valid()
      reads this
    {
      Follows(db, obligations, history) && sent == Replies(history)
    }

    constructor ()
      ensures Valid() && history == []
    {
      db, obligations, sent, history := map[], map[], [], [];
    }

    // One command, with the channel its reply would go to.
    method Handle(command: Command, sender: nat)
      requires Valid() && sender == |history|
      modifies this
      ensures Valid() && history == old(history) + [command]
    {
      hide Follows, RepliesTo;
      HistoryGrows(history, command);
      FollowsOn(db, obligations, history, command);
      history := history + [command];
      match command {
        case Write(key, value) =>
          db := db[key := value];
          assert key !in obligations ==> obligations - {key} == obligations;
          if key in obligations {
            var senders := obligations[key];
            obligations := obligations - {key};
            sent := Answer(sent, senders, value);
          }
        case Read(key) =>
          var response := if key in db then Some(db[key]) else None;
          sent := sent + [Reply(sender, response)];
        case NotifyRead(key) =>
          if key in db {
            sent := sent + [Reply(sender, Some(db[key]))];
          } else {
            var senders := if key in obligations then obligations[key] else [];
            obligations := obligations[key := senders + [sender]];
          }
      }
    }
  }

  // How one command moves the state of the loop along.
  lemma FollowsOn(db: map<Key, Bytes>, obligations: map<Key, seq<nat>>, h: seq<Command>, command: Command)
    requires Follows(db, obligations, h)
    ensures command.Write? ==> Follows(db[command.key := command.value], obligations - {command.key}, h + [command])
    ensures command.Read? ==> Follows(db, obligations, h + [command])
    ensures command.NotifyRead? ==>
      if command.key in db then Follows(db, obligations, h + [command])
      else
        var senders := if command.key in obligations then obligations[command.key] else [];
        Follows(db, obligations[command.key := senders + [|h|]], h + [command])
    ensures RepliesTo(h, command) ==
      match command
      case Write(key, value) => if key in obligations then ReplyAll(obligations[key], value) else []
      case Read(key) => [Reply(|h|, if key in db then Some(db[key]) else None)]
      case NotifyRead(key) => if key in db then [Reply(|h|, Some(db[key]))] else []
  {
    HistoryGrows(h, command);
  }

  // Serve the waiting readers of a key, front of the queue first.
  method Answer(sent: seq<Reply>, queue: seq<nat>, value: Bytes) returns (sent': seq<Reply>)
    ensures sent' == sent + ReplyAll(queue, value)
  {
    sent' := sent;
    var senders := queue;
    while senders != []
      invariant |senders| <= |queue| && senders == queue[|queue| - |senders|..]
      invariant sent' == sent + ReplyAll(queue[..|queue| - |senders|], value)
      decreases |senders|
    {
      ghost var k := |queue| - |senders|;
      var s := senders[0];
      senders := senders[1..];
      sent' := sent' + [Reply(s, Some(value))];
      assert ReplyAll(queue[..k + 1], value) == ReplyAll(queue[..k], value) + [Reply(queue[k], Some(value))];
    }
    assert queue[..|queue|] == queue;
  }

  lemma HistoryGrows(h: seq<Command>, command: Command)
    ensures (h + [command])[..|h + [command]| - 1] == h
  {}

  // ----- What the history promises -----------------------------------------------

  // No key ever has both a value and waiting readers.
  lemma {:induction false} NoWaiterHasValue(h: seq<Command>, key: Key)
    ensures LastWrite(h, key) == None || Waiting(h, key) == []
  {
    if h != [] {
      NoWaiterHasValue(h[..|h| - 1], key);
    }
  }

  predicate WritesTo(command: Command, key: Key) {
    command.Write? && command.key == key
  }

  predicate Ascending(s: seq<nat>) {
    forall a, b | 0 <= a < b < |s| :: s[a] < s[b]
  }

  // The readers waiting for a key are those that came after no write to it,
  // each once, in the order they came.
  lemma {:induction false} WaitingIsFifo(h: seq<Command>, key: Key)
    ensures forall i | i in Waiting(h, key) :: i < |h| && h[i] == NotifyRead(key)
    ensures Ascending(Waiting(h, key))
    ensures forall i: nat | i < |h| && h[i] == NotifyRead(key) ::
      i in Waiting(h, key) <==> forall j: nat | j < |h| :: !WritesTo(h[j], key)
  {
    if h != [] {
      var n := |h| - 1;
      var before := h[..n];
      WaitingIsFifo(before, key);
      UnwrittenIsNone(before, key);
      assert forall j: nat | j < n :: before[j] == h[j];
      assert forall a | 0 <= a < |Waiting(before, key)| :: Waiting(before, key)[a] in Waiting(before, key);
      if !WritesTo(h[n], key) {
        assert (forall j: nat | j < |h| :: !WritesTo(h[j], key)) <==> (forall j: nat | j < n :: !WritesTo(before[j], key));
      } else {
        assert WritesTo(h[n], key);
      }
    }
  }

  lemma {:induction false} UnwrittenIsNone(h: seq<Command>, key: Key)
    ensures LastWrite(h, key) == None <==> forall j: nat | j < |h| :: !WritesTo(h[j], key)
  {
    if h != [] {
      var n := |h| - 1;
      UnwrittenIsNone(h[..n], key);
      assert forall j: nat | j < n :: h[..n][j] == h[j];
    }
  }

  // ----- Every reader gets its answer, once ----------------------------------------

  // The value of the first write to a key from some place on.
  function FirstWrite(h: seq<Command>, from: nat, key: Key): Option<Bytes>
    decreases |h| - from
  {
    if from >= |h| then None
    else if WritesTo(h[from], key) then Some(h[from].value)
    else FirstWrite(h, from + 1, key)
  }

  // What a NotifyRead at place i is owed: the latest write before it, or else
  // the first one after it.
  function Owed(h: seq<Command>, i: nat): Option<Bytes>
    requires i < |h| && h[i].NotifyRead?
  {
    var earlier := LastWrite(h[..i], h[i].key);
    if earlier.Some? then earlier else FirstWrite(h, i, h[i].key)
  }

  function Addressed(replies: seq<Reply>, i: nat): seq<Reply> {
    if replies == [] then []
    else
      var last := replies[|replies| - 1];
      Addressed(replies[..|replies| - 1], i) + if last.to == i then [last] else []
  }

  lemma {:induction false} AddressedConcat(a: seq<Reply>, b: seq<Reply>, i: nat)
    ensures Addressed(a + b, i) == Addressed(a, i) + Addressed(b, i)
  {
    if b == [] {
      assert a + b == a;
    } else {
      var n := |b| - 1;
      assert (a + b)[..|a + b| - 1] == a + b[..n];
      AddressedConcat(a, b[..n], i);
    }
  }

  lemma {:induction false} AddressedNone(replies: seq<Reply>, i: nat)
    requires forall r | r in replies :: r.to != i
    ensures Addressed(replies, i) == []
  {
    if replies != [] {
      AddressedNone(replies[..|replies| - 1], i);
    }
  }

  lemma {:induction false} AddressedAll(queue: seq<nat>, value: Bytes, i: nat)
    requires Ascending(queue)
    ensures Addressed(ReplyAll(queue, value), i) == if i in queue then [Reply(i, Some(value))] else []
  {
    var replies := ReplyAll(queue, value);
    if queue != [] {
      var n := |queue| - 1;
      assert replies[..n] == ReplyAll(queue[..n], value);
      AddressedAll(queue[..n], value, i);
      assert i in queue <==> i in queue[..n] || i == queue[n];
    }
  }

  lemma RepliesToPast(h: seq<Command>, command: Command)
    ensures forall r | r in RepliesTo(h, command) :: r.to <= |h|
  {
    if command.Write? {
      var waiting := Waiting(h, command.key);
      WaitingIsFifo(h, command.key);
      forall r | r in ReplyAll(waiting, command.value) ensures r.to in waiting {}
    }
  }

  lemma {:induction false} RepliesGoBack(h: seq<Command>)
    ensures forall r | r in Replies(h) :: r.to < |h|
  {
    if h != [] {
      var n := |h| - 1;
      RepliesGoBack(h[..n]);
      RepliesToPast(h[..n], h[n]);
    }
  }

  lemma {:induction false} FirstWriteExtends(h: seq<Command>, from: nat, key: Key)
    requires |h| > 0 && from < |h|
    ensures FirstWrite(h, from, key) ==
      var n := |h| - 1;
      if FirstWrite(h[..n], from, key).Some? then FirstWrite(h[..n], from, key)
      else if WritesTo(h[n], key) then Some(h[n].value) else None
    decreases |h| - from
  {
    if from < |h| - 1 {
      FirstWriteExtends(h, from + 1, key);
    }
  }

  lemma {:induction false} FirstWriteNone(h: seq<Command>, from: nat, key: Key)
    ensures FirstWrite(h, from, key) == None <==> forall j: nat | from <= j < |h| :: !WritesTo(h[j], key)
    decreases |h| - from
  {
    if from < |h| {
      FirstWriteNone(h, from + 1, key);
    }
  }

  // A reader is still waiting exactly when nothing is owed to it yet.
  lemma WaitingIsOwedNothing(h: seq<Command>, i: nat)
    requires i < |h| && h[i].NotifyRead?
    ensures Owed(h, i) == None <==> i in Waiting(h, h[i].key)
  {
    var key := h[i].key;
    WaitingIsFifo(h, key);
    UnwrittenIsNone(h[..i], key);
    FirstWriteNone(h, i, key);
    assert forall j: nat | j < i :: h[..i][j] == h[j];
  }

  // Every NotifyRead is answered at most once: with the latest write to its key
  // before it, or else the first one after it, and not before there is one.
  lemma {:induction false} AnsweredOnce(h: seq<Command>, i: nat)
    requires i < |h| && h[i].NotifyRead?
    ensures Addressed(Replies(h), i) == if Owed(h, i).Some? then [Reply(i, Owed(h, i))] else []
  {
    var n := |h| - 1;
    var before := h[..n];
    AddressedConcat(Replies(before), RepliesTo(before, h[n]), i);
    if i == n {
      AnsweredAtOnce(h);
    } else {
      AnsweredOnce(before, i);
      AnsweredLater(h, i);
      RepliesToReader(before, h[n], i);
    }
  }

  lemma AnsweredAtOnce(h: seq<Command>)
    requires |h| > 0 && h[|h| - 1].NotifyRead?
    ensures var n := |h| - 1;
      Addressed(Replies(h[..n]), n) + Addressed(RepliesTo(h[..n], h[n]), n)
      == if Owed(h, n).Some? then [Reply(n, Owed(h, n))] else []
  {
    var n := |h| - 1;
    RepliesGoBack(h[..n]);
    AddressedNone(Replies(h[..n]), n);
    FirstWriteNone(h, n, h[n].key);
    var reply := Reply(n, LastWrite(h[..n], h[n].key));
    assert Addressed([reply], n) == [reply] by {
      assert [reply][..0] == [];
    }
  }

  // One more command settles what is owed to a reader, or leaves it as it was.
  lemma AnsweredLater(h: seq<Command>, i: nat)
    requires i < |h| - 1 && h[i].NotifyRead?
    ensures var before, last := h[..|h| - 1], h[|h| - 1];
      && before[i] == h[i]
      && (Owed(h, i) == if Owed(before, i).Some? then Owed(before, i)
                        else if WritesTo(last, h[i].key) then Some(last.value) else None)
      && (Owed(before, i) == None <==> i in Waiting(before, h[i].key))
  {
    var before := h[..|h| - 1];
    assert before[..i] == h[..i];
    FirstWriteExtends(h, i, h[i].key);
    WaitingIsOwedNothing(before, i);
  }

  lemma RepliesToReader(h: seq<Command>, command: Command, i: nat)
    requires i < |h| && h[i].NotifyRead?
    ensures Addressed(RepliesTo(h, command), i) ==
      if WritesTo(command, h[i].key) && i in Waiting(h, h[i].key) then [Reply(i, Some(command.value))] else []
  {
    if command.Write? {
      WaitingIsFifo(h, command.key);
      AddressedAll(Waiting(h, command.key), command.value, i);
    } else {
      AddressedNone(RepliesTo(h, command), i);
    }
  }

  // A key holds a value exactly when some command wrote it and none after that
  // wrote to the key.
  lemma {:induction false} LastWriteIsLatest(h: seq<Command>, key: Key, value: Bytes)
    ensures LastWrite(h, key) == Some(value) <==>
      exists j: nat :: j < |h| && h[j] == Write(key, value) && forall k: nat | j < k < |h| :: !WritesTo(h[k], key)
  {
    if h != [] {
      var n := |h| - 1;
      if WritesTo(h[n], key) {
        assert LastWrite(h, key) == Some(h[n].value);
      } else {
        var before := h[..n];
        LastWriteIsLatest(before, key, value);
        if j: nat :| j < |before| && before[j] == Write(key, value) && forall k: nat | j < k < |before| :: !WritesTo(before[k], key) {
          forall k: nat | j < k < |h| ensures !WritesTo(h[k], key) {
            assert k < n ==> h[k] == before[k];
          }
          assert h[j] == Write(key, value);
        }
        if j: nat :| j < |h| && h[j] == Write(key, value) && forall k: nat | j < k < |h| :: !WritesTo(h[k], key) {
          forall k: nat | j < k < |before| ensures !WritesTo(before[k], key) {
            assert before[k] == h[k];
          }
          assert j != n && before[j] == Write(key, value);
        }
      }
    }
  }

  // ----- Reads, and the order of the replies ---------------------------------------------

  // A Read is answered once, with the latest write before it; a Write never.
  lemma {:induction false} ReadAnsweredAtOnce(h: seq<Command>, i: nat)
    requires i < |h| && !h[i].NotifyRead?
    ensures Addressed(Replies(h), i) == if h[i].Read? then [Reply(i, LastWrite(h[..i], h[i].key))] else []
  {
    var n := |h| - 1;
    var before := h[..n];
    AddressedConcat(Replies(before), RepliesTo(before, h[n]), i);
    if i == n {
      RepliesGoBack(before);
      AddressedNone(Replies(before), n);
      OwnReply(before, h[n]);
    } else {
      assert before[..i] == h[..i];
      ReadAnsweredAtOnce(before, i);
      NoReplyNow(before, h[n], i);
    }
  }

  lemma OwnReply(h: seq<Command>, command: Command)
    requires !command.NotifyRead?
    ensures Addressed(RepliesTo(h, command), |h|)
         == if command.Read? then [Reply(|h|, LastWrite(h, command.key))] else []
  {
    if command.Read? {
      assert [Reply(|h|, LastWrite(h, command.key))][..0] == [];
    } else {
      WaitingIsFifo(h, command.key);
      AddressedAll(Waiting(h, command.key), command.value, |h|);
    }
  }

  lemma NoReplyNow(h: seq<Command>, command: Command, i: nat)
    requires i < |h| && !h[i].NotifyRead?
    ensures Addressed(RepliesTo(h, command), i) == []
  {
    if command.Write? {
      WaitingIsFifo(h, command.key);
      AddressedAll(Waiting(h, command.key), command.value, i);
    } else {
      AddressedNone(RepliesTo(h, command), i);
    }
  }

  // What a Write sets off: replies with its value, in strictly ascending order,
  // to exactly the readers that wait for its key.
  lemma WriteAnswers(h: seq<Command>, key: Key, value: Bytes)
    ensures
      var before, after := Replies(h), Replies(h + [Write(key, value)]);
      && before <= after
      && (forall a, b | |before| <= a < b < |after| :: after[a].to < after[b].to)
      && (forall a | |before| <= a < |after| :: after[a].value == Some(value) && after[a].to in Waiting(h, key))
      && (forall i | i in Waiting(h, key) :: exists a :: |before| <= a < |after| && after[a].to == i)
  {
    var command := Write(key, value);
    HistoryGrows(h, command);
    WaitingIsFifo(h, key);
    var before, waiting := Replies(h), Waiting(h, key);
    var after := before + RepliesTo(h, command);
    assert Replies(h + [command]) == after;
    forall i | i in waiting ensures exists a :: |before| <= a < |after| && after[a].to == i {
      var k :| 0 <= k < |waiting| && waiting[k] == i;
      assert after[|before| + k].to == i;
    }
  }

  // Readers of a key are answered in the order they came.
  lemma {:induction false} AnsweredInOrder(h: seq<Command>, key: Key, i: nat, j: nat, a: nat, b: nat)
    requires i < j < |h| && h[i] == NotifyRead(key) && h[j] == NotifyRead(key)
    requires a < |Replies(h)| && b < |Replies(h)| && Replies(h)[a].to == i && Replies(h)[b].to == j
    ensures a < b
  {
    hide RepliesTo, Addressed, Waiting;
    var n := |h| - 1;
    var before, command := h[..n], h[n];
    var replies := Replies(before);
    assert Replies(h) == replies + RepliesTo(before, command);
    RepliesGoBack(before);
    if a >= |replies| {
      LaterReply(before, command, key, i, a - |replies|);
      if b < |replies| {
        AllStillWait(before, key, i, j);
        AddressedSome(replies, b);
        assert false;
      } else {
        RepliesAscend(before, command, a - |replies|, b - |replies|);
      }
    } else if b < |replies| {
      AnsweredInOrder(before, key, i, j, a, b);
    }
  }

  lemma RepliesAscend(h: seq<Command>, command: Command, a: nat, b: nat)
    requires a < |RepliesTo(h, command)| && b < |RepliesTo(h, command)|
    requires RepliesTo(h, command)[a].to < RepliesTo(h, command)[b].to
    ensures a < b
  {
    if command.Write? {
      WaitingIsFifo(h, command.key);
    }
  }

  // Who is replied to by a later command was waiting for it.
  lemma LaterReply(h: seq<Command>, command: Command, key: Key, i: nat, a: nat)
    requires i < |h| && h[i] == NotifyRead(key) && a < |RepliesTo(h, command)| && RepliesTo(h, command)[a].to == i
    ensures WritesTo(command, key) && i in Waiting(h, key)
  {
    if command.Write? {
      WaitingIsFifo(h, command.key);
      assert Waiting(h, command.key)[a] == i;
    }
  }

  // While one reader of a key waits, nobody who asked for it has been answered.
  lemma AllStillWait(h: seq<Command>, key: Key, i: nat, j: nat)
    requires i in Waiting(h, key) && j < |h| && h[j] == NotifyRead(key)
    ensures Addressed(Replies(h), j) == []
  {
    WaitingIsFifo(h, key);
    WaitingIsOwedNothing(h, j);
    AnsweredOnce(h, j);
  }

  lemma {:induction false} AddressedSome(replies: seq<Reply>, a: nat)
    requires a < |replies|
    ensures Addressed(replies, replies[a].to) != []
  {
    if a < |replies| - 1 {
      AddressedSome(replies[..|replies| - 1], a);
    }
  }
}
