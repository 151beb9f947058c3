/** The whole network: every election at once, and what holds at any time of any run. */
module Network {
  import opened Basics
  import opened Votes
  import opened Elections
  import opened Locals
  import opened Ballots
  import opened NeroCore

  // The nodes running the code, and every vote ever sent.
  datatype System = System(nodes: map<NodeId, Node>, sent: set<Vote>)

  function NewSystem(running: set<NodeId>): System {
    System(map p | p in running :: EMPTY_NODE, {})
  }

  datatype Action =
    | OfTransaction(node: NodeId, hash: BlockHash, coins: Coins)
    | OfVote(node: NodeId, vote: Vote, coins: Coins)
    | OfForgery(vote: Vote)

  // ----- One election of the network ------------------------------------------

  function LogOf(outbox: seq<Vote>, hash: BlockHash): seq<Vote> {
    if outbox == [] then []
    else
      var last := outbox[|outbox| - 1];
      LogOf(outbox[..|outbox| - 1], hash) + if last.election == hash then [last] else []
  }

  function LocalOf(node: Node, hash: BlockHash): Local {
    Local(
      node.ElectionOf(hash),
      if hash in node.decided then Some(node.decided[hash]) else None,
      LogOf(node.outbox, hash))
  }

  function BallotOf(system: System, hash: BlockHash): Ballot {
    Ballot(
      map p | p in system.nodes :: LocalOf(system.nodes[p], hash),
      set v | v in system.sent && v.election == hash)
  }

  ghost predicate MayAct(c: Committee, system: System, action: Action) {
    match action
    case OfTransaction(p, _, _) => p in system.nodes
    case OfVote(p, vote, _) =>
      p in system.nodes && vote in system.sent && Readable(system.nodes[p].ElectionOf(vote.election), vote)
    case OfForgery(vote) => MayForge(c, vote.election, BallotOf(system, vote.election), vote)
  }

  // A node's new broadcasts join the votes sent.
  function Broadcast(system: System, p: NodeId, node: Node): System
    requires p in system.nodes && system.nodes[p].outbox <= node.outbox
  {
    System(
      system.nodes[p := node],
      system.sent + set v | v in node.outbox[|system.nodes[p].outbox|..])
  }

  ghost function Act(c: Committee, system: System, action: Action): System
    requires MayAct(c, system, action)
  {
    match action
    case OfTransaction(p, hash, coins) =>
      Broadcast(system, p, NodeOnTransaction(c.Who(p), coins, system.nodes[p], hash))
    case OfVote(p, vote, coins) =>
      Broadcast(system, p, NodeOnVote(c.Who(p), coins, system.nodes[p], vote))
    case OfForgery(vote) => system.(sent := system.sent + {vote})
  }

  // ----- Each election evolves on its own --------------------------------------

  lemma {:induction false} LogOfConcat(a: seq<Vote>, b: seq<Vote>, hash: BlockHash)
    ensures LogOf(a + b, hash) == LogOf(a, hash) + LogOf(b, hash)
  {
    if b == [] {
      assert a + b == a;
    } else {
      var n := |b| - 1;
      assert (a + b)[..|a + b| - 1] == a + b[..n];
      LogOfConcat(a, b[..n], hash);
    }
  }

  lemma {:induction false} LogOfSame(a: seq<Vote>, hash: BlockHash)
    requires forall v | v in a :: v.election == hash
    ensures LogOf(a, hash) == a
  {
    if a != [] {
      LogOfSame(a[..|a| - 1], hash);
    }
  }

  lemma {:induction false} LogOfOther(a: seq<Vote>, hash: BlockHash)
    requires forall v | v in a :: v.election != hash
    ensures LogOf(a, hash) == []
  {
    if a != [] {
      LogOfOther(a[..|a| - 1], hash);
    }
  }

  // What storing an outcome makes of a node's knowledge of any election.
  lemma StoreLocal(node: Node, hash: BlockHash, outcome: Outcome, other: BlockHash)
    requires forall v | v in outcome.sent :: v.election == hash
    ensures
      LocalOf(Store(node, hash, outcome), other)
      == if other == hash then LocalOf(node, hash).After(outcome) else LocalOf(node, other)
  {
    LogOfConcat(node.outbox, outcome.sent, other);
    if other == hash {
      LogOfSame(outcome.sent, hash);
    } else {
      LogOfOther(outcome.sent, other);
    }
  }

  // A node's broadcast, as one election sees it.
  lemma BroadcastBallot(system: System, p: NodeId, node: Node, outcome: Outcome, hash: BlockHash)
    requires p in system.nodes && node.outbox == system.nodes[p].outbox + outcome.sent
    ensures BallotOf(Broadcast(system, p, node), hash) == Ballot(
      BallotOf(system, hash).locals[p := LocalOf(node, hash)],
      BallotOf(system, hash).sent + set v | v in outcome.sent && v.election == hash)
  {
    hide LocalOf;
    var after := Broadcast(system, p, node);
    assert node.outbox[|system.nodes[p].outbox|..] == outcome.sent;
    assert BallotOf(after, hash).locals == BallotOf(system, hash).locals[p := LocalOf(node, hash)];
    assert BallotOf(after, hash).sent
        == BallotOf(system, hash).sent + set v | v in outcome.sent && v.election == hash;
  }

  // Storing an outcome is a move in its own election, and nothing in others.
  lemma StoreIsMove(system: System, p: NodeId, seen: set<Vote>, hash: BlockHash, outcome: Outcome, other: BlockHash)
    requires p in system.nodes
    requires forall v | v in outcome.sent :: v.election == hash
    ensures
      BallotOf(Broadcast(system, p, Store(system.nodes[p].(seen := seen), hash, outcome)), other)
      == if other == hash then Move(BallotOf(system, other), p, outcome) else BallotOf(system, other)
  {
    var before := system.nodes[p].(seen := seen);
    StoreLocal(before, hash, outcome, other);
    BroadcastBallot(system, p, Store(before, hash, outcome), outcome, other);
    assert LocalOf(before, other) == BallotOf(system, other).locals[p];
    hide LocalOf, LogOf, Broadcast;
    SentTo(outcome, hash, other);
    if other != hash {
      assert BallotOf(system, other).locals[p := LocalOf(before, other)] == BallotOf(system, other).locals;
    }
  }

  // The votes of an outcome, by election.
  lemma SentTo(outcome: Outcome, hash: BlockHash, other: BlockHash)
    requires forall v | v in outcome.sent :: v.election == hash
    ensures (set v | v in outcome.sent && v.election == other) == if other == hash then Sent(outcome) else {}
  {}

  lemma SentInElection(who: Profile, coins: Coins, election: Election, vote: Vote, hash: BlockHash)
    ensures forall v | v in OnTransaction(who, coins, election, hash).sent :: v.election == hash
    ensures Readable(election, vote) ==> forall v | v in OnVote(who, coins, election, vote).sent :: v.election == vote.election
  {}

  // What one election sees of an action.
  function EventOf(action: Action, hash: BlockHash): Event {
    match action
    case OfTransaction(p, h, coins) => if h == hash then Transaction(p, coins) else Idle
    case OfVote(p, vote, coins) => if vote.election == hash then Deliver(p, vote, coins) else Idle
    case OfForgery(vote) => if vote.election == hash then Forge(vote) else Idle
  }

  lemma ActIsStep(c: Committee, system: System, action: Action, hash: BlockHash)
    requires MayAct(c, system, action)
    ensures Enabled(c, hash, BallotOf(system, hash), EventOf(action, hash))
    ensures BallotOf(Act(c, system, action), hash) == Next(c, hash, BallotOf(system, hash), EventOf(action, hash))
  {
    match action {
      case OfTransaction(p, h, coins) =>
        var node := system.nodes[p];
        SentInElection(c.Who(p), coins, node.ElectionOf(h), FirstVote(p, h, Zero), h);
        StoreIsMove(system, p, node.seen, h, OnTransaction(c.Who(p), coins, node.ElectionOf(h), h), hash);
      case OfVote(p, vote, coins) =>
        var node := system.nodes[p];
        var outcome := OnVote(c.Who(p), coins, node.ElectionOf(vote.election), vote);
        if Accepts(c.Who(p), coins, node.ElectionOf(vote.election), vote) {
          SentInElection(c.Who(p), coins, node.ElectionOf(vote.election), vote, vote.election);
          StoreIsMove(system, p, node.seen + {vote}, vote.election, outcome, hash);
        } else {
          SeenOnly(c, system, p, vote, coins, hash);
        }
      case OfForgery(vote) =>
        ForgeryInElection(system, vote, hash);
    }
  }

  // The other way round: any event of an election is an action of the network.
  function ActionOf(event: Event, hash: BlockHash): Action
    requires !event.Idle?
  {
    match event
    case Transaction(p, coins) => OfTransaction(p, hash, coins)
    case Deliver(p, vote, coins) => OfVote(p, vote, coins)
    case Forge(vote) => OfForgery(vote)
  }

  lemma StepIsAct(c: Committee, system: System, event: Event, hash: BlockHash)
    requires !event.Idle? && Enabled(c, hash, BallotOf(system, hash), event)
    ensures MayAct(c, system, ActionOf(event, hash))
    ensures BallotOf(Act(c, system, ActionOf(event, hash)), hash) == Next(c, hash, BallotOf(system, hash), event)
  {
    hide LogOf;
    assert EventOf(ActionOf(event, hash), hash) == event;
    ActIsStep(c, system, ActionOf(event, hash), hash);
  }

  // A vote that is not accepted leaves a trace in no election.
  lemma SeenOnly(c: Committee, system: System, p: NodeId, vote: Vote, coins: Coins, hash: BlockHash)
    requires p in system.nodes && Readable(system.nodes[p].ElectionOf(vote.election), vote)
    requires !Accepts(c.Who(p), coins, system.nodes[p].ElectionOf(vote.election), vote)
    ensures
      BallotOf(Broadcast(system, p, NodeOnVote(c.Who(p), coins, system.nodes[p], vote)), hash) == BallotOf(system, hash)
    ensures p in BallotOf(system, hash).locals
    ensures vote.election == hash ==>
      Move(BallotOf(system, hash), p, OnVote(c.Who(p), coins, system.nodes[p].ElectionOf(vote.election), vote))
      == BallotOf(system, hash)
  {
    var ballot := BallotOf(system, hash);
    var outcome := Outcome(ballot.locals[p].election, [], None);
    BroadcastBallot(system, p, NodeOnVote(c.Who(p), coins, system.nodes[p], vote), outcome, hash);
    assert ballot.locals[p].After(outcome) == ballot.locals[p];
    assert ballot.locals[p := ballot.locals[p]] == ballot.locals;
    assert Sent(outcome) == {};
    assert (set v | v in outcome.sent && v.election == hash) == {};
  }

  lemma ForgeryInElection(system: System, vote: Vote, hash: BlockHash)
    ensures
      BallotOf(system.(sent := system.sent + {vote}), hash)
      == if vote.election == hash then BallotOf(system, hash).(sent := BallotOf(system, hash).sent + {vote})
         else BallotOf(system, hash)
  {
    var after := system.(sent := system.sent + {vote});
    assert BallotOf(after, hash).locals == BallotOf(system, hash).locals;
    assert BallotOf(after, hash).sent
        == if vote.election == hash then BallotOf(system, hash).sent + {vote} else BallotOf(system, hash).sent;
  }

  // ----- Runs -------------------------------------------------------------------

  ghost predicate Acts(c: Committee, before: System, after: System) {
    exists action :: MayAct(c, before, action) && after == Act(c, before, action)
  }

  // Any number of actions in any order, from a network that has done nothing.
  ghost predicate IsRun(c: Committee, run: seq<System>) {
    && |run| > 0
    && (exists running :: c.Honest() <= running <= c.nodes && run[0] == NewSystem(running))
    && forall i | 0 <= i < |run| - 1 :: Acts(c, run[i], run[i + 1])
  }

  lemma {:induction false} RunInv(c: Committee, run: seq<System>, i: nat, hash: BlockHash)
    requires c.Fits() && IsRun(c, run) && i < |run|
    ensures BallotInv(c, hash, BallotOf(run[i], hash))
  {
    hide BallotInv, Enabled, Next, Act, MayAct;
    if i == 0 {
      var running :| c.Honest() <= running <= c.nodes && run[0] == NewSystem(running);
      assert BallotOf(run[0], hash) == NewBallot(running);
      NewBallotInv(c, hash, running);
    } else {
      RunInv(c, run, i - 1, hash);
      assert Acts(c, run[i - 1], run[i - 1 + 1]);
      var action :| MayAct(c, run[i - 1], action) && run[i] == Act(c, run[i - 1], action);
      ActIsStep(c, run[i - 1], action, hash);
      StepKeeps(c, hash, BallotOf(run[i - 1], hash), EventOf(action, hash));
    }
  }

  lemma {:induction false} RunGrows(c: Committee, run: seq<System>, i: nat, j: nat, hash: BlockHash)
    requires c.Fits() && IsRun(c, run) && i <= j < |run|
    ensures BallotGrows(BallotOf(run[i], hash), BallotOf(run[j], hash))
    decreases j
  {
    hide BallotInv, Enabled, Next, Act, MayAct, BallotGrows;
    if i == j {
      GrowsReflexive(BallotOf(run[i], hash));
    } else {
      RunGrows(c, run, i, j - 1, hash);
      RunInv(c, run, j - 1, hash);
      assert Acts(c, run[j - 1], run[j - 1 + 1]);
      var action :| MayAct(c, run[j - 1], action) && run[j] == Act(c, run[j - 1], action);
      ActIsStep(c, run[j - 1], action, hash);
      StepKeeps(c, hash, BallotOf(run[j - 1], hash), EventOf(action, hash));
      BallotGrowsTransitive(BallotOf(run[i], hash), BallotOf(run[j - 1], hash), BallotOf(run[j], hash));
    }
  }

  lemma GrowsReflexive(ballot: Ballot)
    ensures BallotGrows(ballot, ballot)
  {}

  lemma BallotGrowsTransitive(a: Ballot, b: Ballot, d: Ballot)
    requires BallotGrows(a, b) && BallotGrows(b, d)
    ensures BallotGrows(a, d)
  {
    forall p | p in a.locals ensures LocalGrows(a.locals[p], d.locals[p]) {
      assert LocalGrows(a.locals[p], b.locals[p]) && LocalGrows(b.locals[p], d.locals[p]);
      GrowsTransitive(a.locals[p].election, b.locals[p].election, d.locals[p].election);
    }
  }

  // What the honest nodes know of one election at one time.
  function HonestBallot(c: Committee, system: System, hash: BlockHash): Ballot {
    OnlyHonest(c, BallotOf(system, hash))
  }

  lemma HonestAt(c: Committee, run: seq<System>, i: nat, hash: BlockHash)
    requires c.Fits() && IsRun(c, run) && i < |run|
    ensures HonestInv(c, hash, HonestBallot(c, run[i], hash))
    ensures HonestBallot(c, run[i], hash).locals.Keys == c.Honest()
    ensures forall p | p in c.Honest() ::
      (p in run[i].nodes && HonestBallot(c, run[i], hash).locals[p] == LocalOf(run[i].nodes[p], hash))
  {
    RunInv(c, run, i, hash);
    HonestEyes(c, hash, BallotOf(run[i], hash));
  }
}
