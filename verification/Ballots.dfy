/** One election across the committee: the nodes running the code, byzantine senders, and every vote sent. */
module Ballots {
  import opened Basics
  import opened Votes
  import opened Elections
  import opened Locals

  datatype Committee = Committee(f: nat, nodes: set<NodeId>, byzantine: set<NodeId>) {
    ghost predicate Fits() {
      && f >= 1
      && |nodes| == TotalNodes(f)
      && byzantine <= nodes
      && |byzantine| <= f
    }

    function Honest(): set<NodeId> { nodes - byzantine }

    function Who(id: NodeId): Profile { Profile(f, id, id in byzantine) }
  }

  // What the nodes running the code know of one election, and the votes sent in
  // it.  Every honest node runs the code; a byzantine node may run it too, with
  // its flag set, or send votes at will.  Sent votes stay available for ever:
  // delivery may lose, repeat and reorder.
  datatype Ballot = Ballot(locals: map<NodeId, Local>, sent: set<Vote>)

  function NewBallot(running: set<NodeId>): Ballot {
    Ballot(map p | p in running :: NEW_LOCAL, {})
  }

  // A byzantine node sends whatever value and type it likes, but one vote a
  // round, under its own key, and with a quorum in the proof.
  ghost predicate MayForge(c: Committee, hash: BlockHash, ballot: Ballot, vote: Vote) {
    && vote.signer in c.byzantine && vote.signer !in ballot.locals
    && vote.election == hash
    && Proven(c.f, vote)
    && (forall v | v in ballot.sent :: !(v.signer == vote.signer && v.round == vote.round))
  }

  function Move(ballot: Ballot, p: NodeId, outcome: Outcome): Ballot
    requires p in ballot.locals
  {
    Ballot(ballot.locals[p := ballot.locals[p].After(outcome)], ballot.sent + Sent(outcome))
  }

  // What can happen to an election: nothing, a transaction or a vote that was
  // sent reaching an honest node, or a byzantine node sending a vote.
  datatype Event =
    | Idle
    | Transaction(node: NodeId, coins: Coins)
    | Deliver(node: NodeId, vote: Vote, coins: Coins)
    | Forge(vote: Vote)

  ghost predicate Enabled(c: Committee, hash: BlockHash, ballot: Ballot, event: Event) {
    match event
    case Idle => true
    case Transaction(p, _) => p in ballot.locals
    case Deliver(p, vote, _) =>
      p in ballot.locals && vote in ballot.sent && Readable(ballot.locals[p].election, vote)
    case Forge(vote) => MayForge(c, hash, ballot, vote)
  }

  ghost function Next(c: Committee, hash: BlockHash, ballot: Ballot, event: Event): Ballot
    requires Enabled(c, hash, ballot, event)
  {
    match event
    case Idle => ballot
    case Transaction(p, coins) =>
      Move(ballot, p, OnTransaction(c.Who(p), coins, ballot.locals[p].election, hash))
    case Deliver(p, vote, coins) =>
      Move(ballot, p, OnVote(c.Who(p), coins, ballot.locals[p].election, vote))
    case Forge(vote) => ballot.(sent := ballot.sent + {vote})
  }

  // ----- The invariant --------------------------------------------------------

  ghost predicate LocalsOk(c: Committee, hash: BlockHash, ballot: Ballot) {
    && c.Honest() <= ballot.locals.Keys <= c.nodes
    && forall p | p in ballot.locals :: LocalInv(c.Who(p), hash, ballot.locals[p])
  }

  // A vote on the network: of this election, by a member, proven, and under the
  // key of a node that runs the code only what that node did broadcast.
  ghost predicate Genuine(c: Committee, hash: BlockHash, ballot: Ballot, vote: Vote) {
    && vote.signer in c.nodes
    && vote.election == hash
    && Proven(c.f, vote)
    && (vote.signer in ballot.locals ==>
          var log := ballot.locals[vote.signer].log;
          vote.round < |log| && log[vote.round] == vote)
  }

  // One vote per signer and round.
  ghost predicate OneVoteEach(votes: set<Vote>) {
    forall v, w | v in votes && w in votes && v.signer == w.signer && v.round == w.round :: v == w
  }

  ghost predicate LogSent(local: Local, votes: set<Vote>) {
    forall k | 0 <= k < |local.log| :: local.log[k] in votes
  }

  ghost predicate ViewsSent(election: Election, votes: set<Vote>) {
    forall r, s | r in election.state && s in election.state[r].votes :: election.state[r].votes[s] in votes
  }

  ghost predicate BallotInv(c: Committee, hash: BlockHash, ballot: Ballot) {
    && LocalsOk(c, hash, ballot)
    && (forall v | v in ballot.sent :: Genuine(c, hash, ballot, v))
    && OneVoteEach(ballot.sent)
    && (forall p | p in ballot.locals :: LogSent(ballot.locals[p], ballot.sent))
    && (forall p | p in ballot.locals :: ViewsSent(ballot.locals[p].election, ballot.sent))
  }

  lemma NewBallotInv(c: Committee, hash: BlockHash, running: set<NodeId>)
    requires c.Honest() <= running <= c.nodes
    ensures BallotInv(c, hash, NewBallot(running))
  {}

  // ----- Honest eyes only -------------------------------------------------------

  // The same election as the honest nodes alone know it.
  function OnlyHonest(c: Committee, ballot: Ballot): Ballot {
    ballot.(locals := map p | p in ballot.locals && p in c.Honest() :: ballot.locals[p])
  }

  ghost predicate HonestInv(c: Committee, hash: BlockHash, ballot: Ballot) {
    BallotInv(c, hash, ballot) && ballot.locals.Keys == c.Honest()
  }

  lemma HonestEyes(c: Committee, hash: BlockHash, ballot: Ballot)
    requires BallotInv(c, hash, ballot)
    ensures HonestInv(c, hash, OnlyHonest(c, ballot))
  {
    var honest := OnlyHonest(c, ballot);
    assert honest.locals.Keys == c.Honest();
    forall v | v in honest.sent ensures Genuine(c, hash, honest, v) {
      assert Genuine(c, hash, ballot, v);
    }
  }

  // The votes a node has just sent are its next ones.
  ghost predicate FreshlySent(local: Local, p: NodeId, outcome: Outcome) {
    var log := local.After(outcome).log;
    forall v | v in Sent(outcome) :: v.signer == p && |local.log| <= v.round < |log| && log[v.round] == v
  }

  lemma SentAreFresh(who: Profile, hash: BlockHash, local: Local, outcome: Outcome)
    requires LocalInv(who, hash, local.After(outcome))
    ensures FreshlySent(local, who.id, outcome)
    ensures forall v | v in Sent(outcome) :: v.election == hash && Proven(who.f, v)
  {
    var log := local.After(outcome).log;
    forall v | v in Sent(outcome)
      ensures v.signer == who.id && |local.log| <= v.round < |log| && log[v.round] == v
      ensures v.election == hash && Proven(who.f, v)
    {
      var i :| 0 <= i < |outcome.sent| && outcome.sent[i] == v;
      assert log[|local.log| + i] == v;
      LogBelongs(who, hash, local.After(outcome), |local.log| + i);
    }
  }

  lemma MoveKeepsGenuine(c: Committee, hash: BlockHash, before: Ballot, p: NodeId, outcome: Outcome)
    requires p in before.locals && p in c.nodes
    requires forall v | v in before.sent :: Genuine(c, hash, before, v)
    requires FreshlySent(before.locals[p], p, outcome)
    requires forall v | v in Sent(outcome) :: v.election == hash && Proven(c.f, v)
    ensures forall v | v in before.sent + Sent(outcome) :: Genuine(c, hash, Move(before, p, outcome), v)
  {
    forall v | v in before.sent + Sent(outcome) ensures Genuine(c, hash, Move(before, p, outcome), v) {
      assert v in before.sent ==> Genuine(c, hash, before, v);
    }
  }

  lemma MoveKeepsUnique(c: Committee, hash: BlockHash, before: Ballot, p: NodeId, outcome: Outcome)
    requires p in before.locals
    requires forall v | v in before.sent :: Genuine(c, hash, before, v)
    requires OneVoteEach(before.sent)
    requires FreshlySent(before.locals[p], p, outcome)
    ensures OneVoteEach(before.sent + Sent(outcome))
  {
    forall v | v in before.sent && v.signer == p ensures v.round < |before.locals[p].log| {
      assert Genuine(c, hash, before, v);
    }
  }

  lemma MoveKeepsLog(local: Local, outcome: Outcome, sent: set<Vote>)
    requires LogSent(local, sent)
    ensures LogSent(local.After(outcome), sent + Sent(outcome))
  {
    var log := local.After(outcome).log;
    forall k | 0 <= k < |log| ensures log[k] in sent + Sent(outcome) {
      if k < |local.log| {
        assert log[k] == local.log[k];
      } else {
        assert log[k] == outcome.sent[k - |local.log|];
      }
    }
  }

  // A node's move keeps the invariant when it keeps the local one.
  lemma MoveKeeps(c: Committee, hash: BlockHash, before: Ballot, p: NodeId, outcome: Outcome, arrived: set<Vote>)
    requires BallotInv(c, hash, before) && p in before.locals
    requires LocalInv(c.Who(p), hash, before.locals[p].After(outcome))
    requires ViewsWithin(before.locals[p].election, outcome.election, Sent(outcome) + arrived)
    requires arrived <= before.sent
    ensures BallotInv(c, hash, Move(before, p, outcome))
  {
    var after := Move(before, p, outcome);
    SentAreFresh(c.Who(p), hash, before.locals[p], outcome);
    MoveKeepsGenuine(c, hash, before, p, outcome);
    MoveKeepsUnique(c, hash, before, p, outcome);
    MoveKeepsLog(before.locals[p], outcome, before.sent);
    assert ViewsSent(outcome.election, after.sent);
    forall q | q in after.locals
      ensures LocalInv(c.Who(q), hash, after.locals[q])
      ensures LogSent(after.locals[q], after.sent)
      ensures ViewsSent(after.locals[q].election, after.sent)
    {
      if q != p {
        assert after.locals[q] == before.locals[q];
        assert LogSent(before.locals[q], before.sent) && ViewsSent(before.locals[q].election, before.sent);
      }
    }
  }

  lemma ForgeKeeps(c: Committee, hash: BlockHash, before: Ballot, vote: Vote)
    requires c.Fits()
    requires BallotInv(c, hash, before) && MayForge(c, hash, before, vote)
    ensures BallotInv(c, hash, before.(sent := before.sent + {vote}))
  {
    var after := before.(sent := before.sent + {vote});
    forall v | v in after.sent ensures Genuine(c, hash, after, v) {
      assert v != vote ==> Genuine(c, hash, before, v);
    }
    forall p | p in after.locals
      ensures LogSent(after.locals[p], after.sent)
      ensures ViewsSent(after.locals[p].election, after.sent)
    {
      assert LogSent(before.locals[p], before.sent) && ViewsSent(before.locals[p].election, before.sent);
    }
  }

  lemma TransactionKeeps(c: Committee, hash: BlockHash, before: Ballot, p: NodeId, coins: Coins)
    requires c.Fits()
    requires BallotInv(c, hash, before) && p in before.locals
    ensures
      var outcome := OnTransaction(c.Who(p), coins, before.locals[p].election, hash);
      && BallotInv(c, hash, Move(before, p, outcome))
      && LocalGrows(before.locals[p], before.locals[p].After(outcome))
  {
    var local := before.locals[p];
    TransactionKeepsLocal(c.Who(p), coins, hash, local);
    TransactionViews(c.Who(p), coins, local.election, hash);
    MoveKeeps(c, hash, before, p, OnTransaction(c.Who(p), coins, local.election, hash), {});
  }

  lemma DeliverKeeps(c: Committee, hash: BlockHash, before: Ballot, p: NodeId, vote: Vote, coins: Coins)
    requires c.Fits()
    requires BallotInv(c, hash, before) && p in before.locals && vote in before.sent
    requires Readable(before.locals[p].election, vote)
    ensures
      var outcome := OnVote(c.Who(p), coins, before.locals[p].election, vote);
      && BallotInv(c, hash, Move(before, p, outcome))
      && LocalGrows(before.locals[p], before.locals[p].After(outcome))
  {
    var local := before.locals[p];
    assert Genuine(c, hash, before, vote);
    VoteKeepsLocal(c.Who(p), coins, hash, local, vote);
    VoteViews(c.Who(p), coins, local.election, vote);
    MoveKeeps(c, hash, before, p, OnVote(c.Who(p), coins, local.election, vote), {vote});
    if local.decided.Some? {
      DecidedIsFinal(c.Who(p), coins, local, vote);
    }
  }

  lemma DecidedIsFinal(who: Profile, coins: Coins, local: Local, vote: Vote)
    requires LogOk(who, local) && Readable(local.election, vote)
    requires local.decided.Some?
    ensures OnVote(who, coins, local.election, vote).decided == None
  {}

  // Every step keeps the invariant and only extends what is known.
  lemma StepKeeps(c: Committee, hash: BlockHash, before: Ballot, event: Event)
    requires c.Fits()
    requires BallotInv(c, hash, before) && Enabled(c, hash, before, event)
    ensures BallotInv(c, hash, Next(c, hash, before, event))
    ensures BallotGrows(before, Next(c, hash, before, event))
  {
    match event {
      case Idle =>
      case Transaction(p, coins) => TransactionKeeps(c, hash, before, p, coins);
      case Deliver(p, vote, coins) => DeliverKeeps(c, hash, before, p, vote, coins);
      case Forge(vote) => ForgeKeeps(c, hash, before, vote);
    }
    NextGrows(c, hash, before, event);
  }

  lemma NextGrows(c: Committee, hash: BlockHash, before: Ballot, event: Event)
    requires Enabled(c, hash, before, event)
    requires event.Transaction? || event.Deliver? ==>
      LocalGrows(before.locals[event.node], Next(c, hash, before, event).locals[event.node])
    ensures BallotGrows(before, Next(c, hash, before, event))
  {
    var after := Next(c, hash, before, event);
    forall q | q in before.locals ensures LocalGrows(before.locals[q], after.locals[q]) {
      if !(event.Transaction? || event.Deliver?) || q != event.node {
        assert after.locals[q] == before.locals[q];
      }
    }
  }

  // Knowledge is only ever extended, and decisions are final.
  ghost predicate LocalGrows(before: Local, after: Local) {
    && Grows(before.election, after.election)
    && before.log <= after.log
    && (before.decided.Some? ==> after.decided == before.decided)
  }

  ghost predicate BallotGrows(before: Ballot, after: Ballot) {
    && before.locals.Keys == after.locals.Keys
    && before.sent <= after.sent
    && forall p | p in before.locals :: LocalGrows(before.locals[p], after.locals[p])
  }

  // The proof of a vote on the network can always be read: the source's
  // `unwrap` of it never fails.
  lemma DeliveryNeverFails(c: Committee, hash: BlockHash, ballot: Ballot, p: NodeId, vote: Vote)
    requires BallotInv(c, hash, ballot) && p in ballot.locals && vote in ballot.sent
    ensures Readable(ballot.locals[p].election, vote)
  {
    assert Genuine(c, hash, ballot, vote);
  }

  // ----- Byzantine code is forgery ------------------------------------------------

  // These events, one after the other, lead from one ballot to the other.
  ghost predicate Leads(c: Committee, hash: BlockHash, before: Ballot, events: seq<Event>, after: Ballot)
    decreases |events|
  {
    if events == [] then before == after
    else Enabled(c, hash, before, events[0]) && Leads(c, hash, Next(c, hash, before, events[0]), events[1..], after)
  }

  function Forgeries(votes: seq<Vote>): seq<Event> {
    seq(|votes|, k requires 0 <= k < |votes| => Forge(votes[k]))
  }

  // Votes a byzantine node may send one after the other.
  ghost predicate MayForgeAll(c: Committee, hash: BlockHash, ballot: Ballot, votes: seq<Vote>) {
    && (forall k | 0 <= k < |votes| :: MayForge(c, hash, ballot, votes[k]))
    && (forall j, k | 0 <= j < k < |votes| :: votes[j].round != votes[k].round)
  }

  lemma ForgeAllButFirst(c: Committee, hash: BlockHash, before: Ballot, votes: seq<Vote>)
    requires MayForgeAll(c, hash, before, votes) && votes != []
    ensures MayForge(c, hash, before, votes[0])
    ensures MayForgeAll(c, hash, before.(sent := before.sent + {votes[0]}), votes[1..])
  {
    var next, rest := before.(sent := before.sent + {votes[0]}), votes[1..];
    forall k | 0 <= k < |rest| ensures MayForge(c, hash, next, rest[k]) {
      assert rest[k] == votes[k + 1] && MayForge(c, hash, before, votes[k + 1]);
    }
  }

  lemma {:induction false} ForgeriesLead(c: Committee, hash: BlockHash, before: Ballot, votes: seq<Vote>)
    requires MayForgeAll(c, hash, before, votes)
    ensures Leads(c, hash, before, Forgeries(votes), before.(sent := before.sent + set v | v in votes))
    decreases |votes|
  {
    hide MayForgeAll, MayForge;
    if votes == [] {
      assert before.sent + (set v | v in votes) == before.sent;
    } else {
      var next, rest := before.(sent := before.sent + {votes[0]}), votes[1..];
      ForgeAllButFirst(c, hash, before, votes);
      ForgeriesLead(c, hash, next, rest);
      assert Forgeries(votes)[0] == Forge(votes[0]) && Forgeries(votes)[1..] == Forgeries(rest);
      assert next.sent + (set v | v in rest) == before.sent + set v | v in votes;
    }
  }

  // What a byzantine node broadcasts by running the code it may send at will.
  lemma BroadcastIsForgery(c: Committee, hash: BlockHash, before: Ballot, p: NodeId, outcome: Outcome)
    requires BallotInv(c, hash, before) && p in before.locals && p in c.byzantine
    requires LocalInv(c.Who(p), hash, before.locals[p].After(outcome))
    ensures MayForgeAll(c, hash, OnlyHonest(c, before), outcome.sent)
  {
    var local := before.locals[p];
    var log := local.After(outcome).log;
    SentAreFresh(c.Who(p), hash, local, outcome);
    forall k | 0 <= k < |outcome.sent|
      ensures outcome.sent[k].round == |local.log| + k && MayForge(c, hash, OnlyHonest(c, before), outcome.sent[k])
    {
      var vote := outcome.sent[k];
      assert log[|local.log| + k] == vote && vote in Sent(outcome);
      LogBelongs(c.Who(p), hash, local.After(outcome), |local.log| + k);
      forall v | v in before.sent && v.signer == p ensures v.round < |local.log| {
        assert Genuine(c, hash, before, v);
      }
    }
  }

  // A move of a byzantine node, as the honest nodes see it.
  lemma ByzantineMove(c: Committee, hash: BlockHash, before: Ballot, p: NodeId, outcome: Outcome)
    requires BallotInv(c, hash, before) && p in before.locals && p in c.byzantine
    requires LocalInv(c.Who(p), hash, before.locals[p].After(outcome))
    ensures Leads(c, hash, OnlyHonest(c, before), Forgeries(outcome.sent), OnlyHonest(c, Move(before, p, outcome)))
  {
    BroadcastIsForgery(c, hash, before, p, outcome);
    ForgeriesLead(c, hash, OnlyHonest(c, before), outcome.sent);
    assert OnlyHonest(c, Move(before, p, outcome)).locals == OnlyHonest(c, before).locals;
    assert Sent(outcome) == set v | v in outcome.sent;
  }

  lemma OneLeads(c: Committee, hash: BlockHash, before: Ballot, event: Event)
    requires Enabled(c, hash, before, event)
    ensures Leads(c, hash, before, [event], Next(c, hash, before, event))
  {
    assert [event][1..] == [];
    assert Leads(c, hash, Next(c, hash, before, event), [], Next(c, hash, before, event));
  }

  ghost function OutcomeOf(c: Committee, hash: BlockHash, before: Ballot, event: Event): Outcome
    requires Enabled(c, hash, before, event) && (event.Transaction? || event.Deliver?)
  {
    var election := before.locals[event.node].election;
    if event.Transaction? then OnTransaction(c.Who(event.node), event.coins, election, hash)
    else OnVote(c.Who(event.node), event.coins, election, event.vote)
  }

  // The events that honest nodes see instead: at a byzantine node running the
  // code, sends at will of what it broadcasts; else the event itself.
  ghost function Seen(c: Committee, hash: BlockHash, before: Ballot, event: Event): seq<Event>
    requires Enabled(c, hash, before, event)
  {
    if (event.Transaction? || event.Deliver?) && event.node !in c.Honest()
    then Forgeries(OutcomeOf(c, hash, before, event).sent)
    else [event]
  }

  lemma HonestMove(c: Committee, hash: BlockHash, before: Ballot, event: Event)
    requires Enabled(c, hash, before, event)
    requires (event.Transaction? || event.Deliver?) ==> event.node in c.Honest()
    ensures Enabled(c, hash, OnlyHonest(c, before), event)
    ensures OnlyHonest(c, Next(c, hash, before, event)) == Next(c, hash, OnlyHonest(c, before), event)
  {
    hide OnTransaction, OnVote;
    assert OnlyHonest(c, Next(c, hash, before, event)).locals == Next(c, hash, OnlyHonest(c, before), event).locals;
  }

  // Whatever happens in an election with byzantine nodes running the code
  // happens, to honest eyes, in one where they only send votes at will.
  lemma ByzantineCodeIsForgery(c: Committee, hash: BlockHash, before: Ballot, event: Event)
    requires c.Fits() && BallotInv(c, hash, before) && Enabled(c, hash, before, event)
    ensures Leads(c, hash, OnlyHonest(c, before), Seen(c, hash, before, event), OnlyHonest(c, Next(c, hash, before, event)))
  {
    hide OnTransaction, OnVote, Leads;
    if (event.Transaction? || event.Deliver?) && event.node !in c.Honest() {
      StepKeeps(c, hash, before, event);
      assert event.node in c.byzantine;
      ByzantineMove(c, hash, before, event.node, OutcomeOf(c, hash, before, event));
    } else {
      HonestMove(c, hash, before, event);
      OneLeads(c, hash, OnlyHonest(c, before), event);
    }
  }

  // ----- Quorums --------------------------------------------------------------------

  // The honest nodes make a quorum, two quorums have an honest node in common,
  // and so many nodes as a semi-quorum have one among them.
  lemma Quorums(c: Committee, a: set<NodeId>, b: set<NodeId>)
    requires c.Fits() && a <= c.nodes && b <= c.nodes
    ensures |c.Honest()| >= Quorum(c.f)
    ensures |a| >= Quorum(c.f) && |b| >= Quorum(c.f) ==> |a * b| >= SemiQuorum(c.f)
    ensures |a| >= SemiQuorum(c.f) ==> a * c.Honest() != {}
  {
    assert c.nodes == c.Honest() + c.byzantine;
    assert |a + b| == |a| + |b| - |a * b|;
    SubsetSize(a + b, c.nodes);
    if a * c.Honest() == {} {
      assert a <= c.byzantine;
      SubsetSize(a, c.byzantine);
    }
  }
}
