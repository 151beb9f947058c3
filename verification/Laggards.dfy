/** Which nodes of the simulator fall behind, and why the others still agree with them. */
module Laggards {
  import opened Basics
  import opened Rounds

  // ----- Locks on One -----------------------------------------------------------

  // Two rounds running in which a quorum has been heard saying 1.
  ghost predicate Lock(votes: map<(nat, nat), Vector>, p: nat) {
    && p > 0
    && |Holders(votes, p - 1, 1)| >= QUORUM
    && |Holders(votes, p, 1)| >= QUORUM
  }

  // Why an honest node says 1 in a round: a quorum of ones in the round before,
  // or a lock earlier on.
  ghost predicate Grounds(votes: map<(nat, nat), Vector>, r: nat) {
    r > 0 && (|Holders(votes, r - 1, 1)| >= QUORUM || exists p: nat :: p < r && Lock(votes, p))
  }

  predicate Says(votes: map<(nat, nat), Vector>, i: nat, r: nat, value: int) {
    (i, r) in votes && value in votes[(i, r)]
  }

  ghost predicate OnesGrounded(s: Simulation) {
    forall i: nat, r: nat {:trigger Says(s.votes, i, r, 1)} ::
      i < NUMBER_OF_HONEST_NODES && r > 0 && Says(s.votes, i, r, 1) ==> Grounds(s.votes, r)
  }

  // A node records quorums of the rounds it has left.
  ghost predicate QuorumsPast(s: Simulation)
    requires Wired(s)
  {
    forall i: nat | i < NUMBER_OF_HONEST_NODES ::
      (forall r | r in s.oneQuorum[i] :: r < s.nodes[i]) && (forall r | r in s.zeroQuorum[i] :: r < s.nodes[i])
  }

  ghost predicate Base(s: Simulation, k: nat, t: nat) {
    Inv(s, k, t) && OnesGrounded(s) && QuorumsPast(s)
  }

  lemma LockStays(before: map<(nat, nat), Vector>, after: map<(nat, nat), Vector>, p: nat)
    requires Extends(before, after) && Lock(before, p)
    ensures Lock(after, p)
  {
    hide Holders, Extends;
    HoldersStay(before, after, p - 1, 1);
    HoldersStay(before, after, p, 1);
  }

  lemma GroundsStay(before: map<(nat, nat), Vector>, after: map<(nat, nat), Vector>, r: nat)
    requires Extends(before, after) && Grounds(before, r)
    ensures Grounds(after, r)
  {
    hide Holders, Extends, Lock;
    HoldersStay(before, after, r - 1, 1);
    if p: nat :| p < r && Lock(before, p) {
      LockStays(before, after, p);
    }
  }

  // A decision for 1 rests on a lock, in a round the node has left; one for 0
  // on a quorum of zeros.
  lemma DecisionRests(s: Simulation, i: nat)
    requires Wired(s) && QuorumsOk(s) && DecidedOk(s) && QuorumsPast(s) && i in s.decided
    ensures i < NUMBER_OF_HONEST_NODES && (s.decided[i] == 0 || s.decided[i] == 1)
    ensures s.decided[i] == 1 ==> exists p: nat :: p < s.nodes[i] && Lock(s.votes, p)
    ensures s.decided[i] == 0 ==> exists q: nat :: 0 < q < s.nodes[i] && |Holders(s.votes, q, 0)| >= QUORUM
  {
    hide Holders;
    assert Backed(s, s.zeroQuorum[i], 0) && Backed(s, s.oneQuorum[i], 1);
    var r: nat :| Decision(s, i, s.decided[i], r);
    var quorums := QuorumsFor(s, i, s.decided[i]);
    assert r in quorums && r - 1 in quorums;
    hide Wired;
    if s.decided[i] == 1 {
      assert Lock(s.votes, r);
    }
  }

  // ----- Turns keep the base ---------------------------------------------------------

  lemma AdvanceKeepsPast(s: Simulation, i: nat, zeros: nat, ones: nat)
    requires Wired(s) && i < NUMBER_OF_HONEST_NODES && QuorumsPast(s)
    ensures QuorumsPast(Advance(s, i, s.nodes[i], zeros, ones))
  {
    AdvanceVotes(s, i, s.nodes[i], zeros, ones);
    AdvanceRecords(s, i, s.nodes[i], zeros, ones);
    hide Advance;
  }

  lemma AdvanceKeepsGrounded(s: Simulation, i: nat, k: nat)
    requires Base(s, k, i) && i < NUMBER_OF_HONEST_NODES
    ensures
      var r := s.nodes[i];
      OnesGrounded(Advance(s, i, r, Count(s, i, r, 0, NUMBER_OF_NODES), Count(s, i, r, 1, NUMBER_OF_NODES)))
  {
    var r := s.nodes[i];
    var zeros, ones := Count(s, i, r, 0, NUMBER_OF_NODES), Count(s, i, r, 1, NUMBER_OF_NODES);
    var after := Advance(s, i, r, zeros, ones);
    CountIsBacked(s, i, r, 1);
    AdvanceVotes(s, i, r, zeros, ones);
    AdvanceKeepsVotes(s, i, k, zeros, ones);
    if i in s.decided {
      DecisionRests(s, i);
    }
    hide Inv, Wired, Advance, Count, Holders, Extends, Lock, QuorumsPast;
    assert ones >= QUORUM ==> Grounds(s.votes, r + 1);
    forall j: nat, q: nat | j < NUMBER_OF_HONEST_NODES && q > 0 && Says(after.votes, j, q, 1)
      ensures Grounds(after.votes, q)
    {
      if (j, q) == (i, r + 1) {
        assert 1 !in Uniform(0);
        assert Grounds(s.votes, q);
      } else {
        assert Says(s.votes, j, q, 1);
      }
      GroundsStay(s.votes, after.votes, q);
    }
  }

  lemma ReceiveKeepsBase(s: Simulation, i: nat, k: nat)
    requires Base(s, k, i) && i < NUMBER_OF_HONEST_NODES
    ensures Base(Receive(s, s.nodes[i]), k, i + 1)
  {
    ReceiveKeeps(s, i, k);
    var after := Receive(s, s.nodes[i]);
    forall j: nat, q: nat | j < NUMBER_OF_HONEST_NODES && q > 0 && Says(after.votes, j, q, 1)
      ensures Grounds(after.votes, q)
    {
      FilledConsistent(s.votes[(j, q)]);
      assert Says(s.votes, j, q, 1);
      GroundsStay(s.votes, after.votes, q);
    }
  }

  lemma TurnKeepsBase(s: Simulation, i: nat, k: nat)
    requires Base(s, k, i) && i < NUMBER_OF_HONEST_NODES
    ensures Base(Turn(s, i), k, i + 1)
  {
    var r := s.nodes[i];
    var zeros, ones := Count(s, i, r, 0, NUMBER_OF_NODES), Count(s, i, r, 1, NUMBER_OF_NODES);
    TurnKeeps(s, i, k);
    AdvanceKeepsGrounded(s, i, k);
    AdvanceKeepsPast(s, i, zeros, ones);
    ReceiveKeepsBase(s, i, k);
    hide VotesOk, QuorumsOk, DecidedOk, Paced, OnesGrounded, QuorumsPast, Advance, Receive, Count;
  }

  // The base between the honest turns and the next pass.
  ghost predicate RoundingBase(s: Simulation, k: nat, b: nat) {
    RoundingInv(s, k, b) && OnesGrounded(s) && QuorumsPast(s)
  }

  lemma MisbehaveKeepsBase(s: Simulation, choice: int, k: nat)
    requires RoundingBase(s, k, 0) && IsChoice(choice)
    ensures VotePresent(s, NUMBER_OF_HONEST_NODES)
    ensures RoundingBase(Misbehave(s, 0, choice), k, 1)
  {
    hide VotesOk, QuorumsOk, DecidedOk, Holders, Lock, Extends, Grounds;
    MisbehaveKeeps(s, 0, choice, k);
    var after := Misbehave(s, 0, choice);
    forall j: nat, q: nat | j < NUMBER_OF_HONEST_NODES && q > 0 && Says(after.votes, j, q, 1)
      ensures Grounds(after.votes, q)
    {
      assert Says(s.votes, j, q, 1);
      GroundsStay(s.votes, after.votes, q);
    }
  }

  // ----- Agreement from the lock ---------------------------------------------------------

  // Once node i is past a lock it says 1 for ever.
  ghost predicate LockBinds(s: Simulation, i: nat) {
    forall p: nat, r: nat {:trigger Lock(s.votes, p), Says(s.votes, i, r, 1)} ::
      Lock(s.votes, p) && r > p && (i, r) in s.votes ==> Says(s.votes, i, r, 1)
  }

  lemma Exclusive(s: Simulation, r: nat)
    requires VotesOk(s)
    ensures |Holders(s.votes, r, 0)| + |Holders(s.votes, r, 1)| <= NUMBER_OF_NODES
  {
    HoldersDisjoint(s, r);
    hide VotesOk, Holders, Below;
    SubsetSize(Holders(s.votes, r, 0) + Holders(s.votes, r, 1), Below(NUMBER_OF_NODES));
  }

  // A quorum has an honest member.
  lemma HonestHolder(s: Simulation, r: nat, value: int) returns (i: nat)
    requires |Holders(s.votes, r, value)| >= QUORUM
    ensures i < NUMBER_OF_HONEST_NODES && Says(s.votes, i, r, value)
  {
    if forall j | j in Holders(s.votes, r, value) :: j == 3 {
      SubsetSize(Holders(s.votes, r, value), {3});
      assert false;
    }
    i :| i in Holders(s.votes, r, value) && i != 3;
  }

  // A quorum without nodes 1 and 2 is none.
  lemma TwoMissing(s: Simulation, r: nat, value: int)
    requires 1 !in Holders(s.votes, r, value) && 2 !in Holders(s.votes, r, value)
    ensures |Holders(s.votes, r, value)| < QUORUM
  {
    SubsetSize(Holders(s.votes, r, value), {0, 3});
  }

  // A lock rules out quorums of zeros in its own round and in all that follow.
  lemma NoZerosPastLock(s: Simulation, p: nat, q: nat)
    requires VotesOk(s) && LockBinds(s, 1) && LockBinds(s, 2)
    requires Lock(s.votes, p) && q >= p
    ensures |Holders(s.votes, q, 0)| < QUORUM
  {
    if q == p {
      Exclusive(s, p);
    } else {
      forall i | i == 1 || i == 2 ensures i !in Holders(s.votes, q, 0) {
        if (i, q) in s.votes {
          assert Says(s.votes, i, q, 1);
          assert Consistent(s.votes[(i, q)]);
        }
      }
      TwoMissing(s, q, 0);
    }
  }

  // After a quorum of zeros no honest node says 1.
  lemma {:induction false} NoOnesAfter(s: Simulation, q: nat, i: nat, r: nat)
    requires VotesOk(s) && OnesGrounded(s) && LockBinds(s, 1) && LockBinds(s, 2)
    requires |Holders(s.votes, q, 0)| >= QUORUM && r > q && i < NUMBER_OF_HONEST_NODES
    ensures !Says(s.votes, i, r, 1)
    decreases r
  {
    hide VotesOk, LockBinds, Holders;
    if Says(s.votes, i, r, 1) {
      Exclusive(s, q);
      var p: nat;
      if |Holders(s.votes, r - 1, 1)| >= QUORUM {
        p := r - 1;
      } else {
        p :| p < r && Lock(s.votes, p);
        if p < q {
          NoZerosPastLock(s, p, q);
        }
      }
      var j := HonestHolder(s, p, 1);
      NoOnesAfter(s, q, j, p);
      assert false;
    }
  }

  lemma LockAgainstZeros(s: Simulation, p: nat, q: nat)
    requires VotesOk(s) && OnesGrounded(s) && LockBinds(s, 1) && LockBinds(s, 2)
    requires Lock(s.votes, p)
    ensures |Holders(s.votes, q, 0)| < QUORUM
  {
    hide VotesOk, OnesGrounded, LockBinds, Holders;
    if q >= p {
      NoZerosPastLock(s, p, q);
    } else if |Holders(s.votes, q, 0)| >= QUORUM {
      var j := HonestHolder(s, p, 1);
      NoOnesAfter(s, q, j, p);
    }
  }

  ghost predicate Agree(decided: map<nat, int>) {
    forall i, j | i in decided && j in decided :: decided[i] == decided[j]
  }

  // If locks bind nodes 1 and 2, all decisions agree.
  lemma LockAgreement(s: Simulation, k: nat, t: nat)
    requires Base(s, k, t) && LockBinds(s, 1) && LockBinds(s, 2)
    ensures Agree(s.decided)
  {
    hide VotesOk, LockBinds, Holders, Lock, OnesGrounded, Decision, Wired;
    forall i, j | i in s.decided && j in s.decided && s.decided[i] == 1 ensures s.decided[j] == 1 {
      DecisionRests(s, i);
      DecisionRests(s, j);
      var p: nat :| Lock(s.votes, p);
      if s.decided[j] == 0 {
        var q: nat :| |Holders(s.votes, q, 0)| >= QUORUM;
        LockAgainstZeros(s, p, q);
      }
    }
    forall i, j | i in s.decided && j in s.decided ensures s.decided[i] == s.decided[j] {
      DecisionRests(s, i);
      DecisionRests(s, j);
    }
  }

  // ----- Rounds in which each sender says one thing to all ---------------------------------

  ghost predicate Plain(v: Vector) {
    |v| == NUMBER_OF_NODES && forall x | 0 <= x < |v| :: v[x] == v[0]
  }

  // From round m on nothing honest is delayed; byzantine votes never differ.
  ghost predicate PlainFrom(votes: map<(nat, nat), Vector>, m: nat) {
    forall key {:trigger votes[key]} | key in votes && (key.1 >= m || key.0 >= NUMBER_OF_HONEST_NODES) ::
      Plain(votes[key]) && (key.0 < NUMBER_OF_HONEST_NODES ==> votes[key][0] != -1)
  }

  lemma PlainHolder(s: Simulation, i: nat, r: nat, value: int, m: nat, j: nat)
    requires Wired(s) && PlainFrom(s.votes, m) && i < NUMBER_OF_NODES && j < NUMBER_OF_NODES && r >= m
    ensures j in Holders(s.votes, r, value) <==> (j, r) in s.votes && s.votes[(j, r)][i] == value
  {
    if (j, r) in s.votes {
      assert Plain(s.votes[(j, r)]);
      assert s.votes[(j, r)][i] in s.votes[(j, r)];
    }
  }

  function Part(senders: set<nat>, n: nat): set<nat> { set j | j in senders && j < n }

  lemma PartGrows(senders: set<nat>, n: nat)
    ensures |Part(senders, n + 1)| == |Part(senders, n)| + if n in senders then 1 else 0
  {
    assert Part(senders, n + 1) == Part(senders, n) + if n in senders then {n} else {};
  }

  lemma {:induction false} CountIsPart(s: Simulation, i: nat, r: nat, value: int, m: nat, n: nat)
    requires Wired(s) && s.excluded == [] && PlainFrom(s.votes, m)
    requires i < NUMBER_OF_NODES && r >= m && n <= NUMBER_OF_NODES
    ensures Count(s, i, r, value, n) == |Part(Holders(s.votes, r, value), n)|
  {
    hide PlainFrom, Holders, Part, Wired;
    if n == 0 {
      assert Part(Holders(s.votes, r, value), 0) == {} by { EmptyPart(Holders(s.votes, r, value)); }
    } else {
      CountIsPart(s, i, r, value, m, n - 1);
      PlainHolder(s, i, r, value, m, n - 1);
      PartGrows(Holders(s.votes, r, value), n - 1);
    }
  }

  lemma EmptyPart(senders: set<nat>)
    ensures Part(senders, 0) == {}
  {}

  lemma CountIsHolders(s: Simulation, i: nat, r: nat, value: int, m: nat)
    requires Wired(s) && s.excluded == [] && PlainFrom(s.votes, m) && i < NUMBER_OF_NODES && r >= m
    ensures Count(s, i, r, value, NUMBER_OF_NODES) == |Holders(s.votes, r, value)|
  {
    CountIsPart(s, i, r, value, m, NUMBER_OF_NODES);
    assert Part(Holders(s.votes, r, value), NUMBER_OF_NODES) == Holders(s.votes, r, value);
  }

  lemma ReceiveNothing(s: Simulation, r: nat, m: nat)
    requires Wired(s) && PlainFrom(s.votes, m) && r >= m
    ensures Receive(s, r) == s
  {
    forall key | key in s.votes && key.1 == r && key.0 < NUMBER_OF_HONEST_NODES ensures Filled(s.votes[key]) == s.votes[key] {
      assert Plain(s.votes[key]);
    }
    assert Receive(s, r).votes == s.votes;
  }

  // All honest nodes have voted in the round.
  ghost predicate Complete(s: Simulation, r: nat)
    requires Wired(s)
  {
    forall j: nat | j < NUMBER_OF_HONEST_NODES :: s.nodes[j] >= r
  }

  lemma HonestSpeak(s: Simulation, r: nat, m: nat, j: nat)
    requires VotesOk(s) && PlainFrom(s.votes, m) && r >= m && Complete(s, r) && j < NUMBER_OF_HONEST_NODES
    ensures j in Holders(s.votes, r, 0) + Holders(s.votes, r, 1)
  {
    var v := s.votes[(j, r)];
    assert Consistent(v) && v[0] in v;
  }

  lemma CompleteIsHeard(s: Simulation, r: nat, m: nat)
    requires VotesOk(s) && PlainFrom(s.votes, m) && r >= m && Complete(s, r)
    ensures |Holders(s.votes, r, 0)| + |Holders(s.votes, r, 1)| >= QUORUM
  {
    hide VotesOk, PlainFrom, Holders, Complete, Wired;
    HonestSpeak(s, r, m, 0);
    HonestSpeak(s, r, m, 1);
    HonestSpeak(s, r, m, 2);
    var speakers := Holders(s.votes, r, 0) + Holders(s.votes, r, 1);
    SubsetSize({0, 1, 2}, speakers);
    assert |{0, 1, 2}| == 3;
  }

  // A turn in a plain round advances on a quorum of senders, and else changes nothing.
  lemma PlainTurn(s: Simulation, i: nat, k: nat, m: nat)
    requires Inv(s, k, i) && PlainFrom(s.votes, m) && i < NUMBER_OF_HONEST_NODES && s.nodes[i] >= m
    ensures
      var r := s.nodes[i];
      var zeros, ones := |Holders(s.votes, r, 0)|, |Holders(s.votes, r, 1)|;
      && Turn(s, i) == (if zeros + ones >= QUORUM then Advance(s, i, r, zeros, ones) else s)
      && (Complete(s, r) ==> zeros + ones >= QUORUM)
  {
    var r := s.nodes[i];
    hide VotesOk, QuorumsOk, DecidedOk, Holders, Count, PlainFrom, Advance, Receive;
    CountIsHolders(s, i, r, 0, m);
    CountIsHolders(s, i, r, 1, m);
    ReceiveNothing(s, r, m);
    if Complete(s, r) {
      CompleteIsHeard(s, r, m);
    }
  }

  lemma UniformPlain(votes: map<(nat, nat), Vector>, m: nat, i: nat, r: nat, value: int)
    requires PlainFrom(votes, m) && (i < NUMBER_OF_HONEST_NODES ==> value != -1)
    ensures PlainFrom(votes[(i, r) := Uniform(value)], m)
  {}

  lemma OtherRow(votes: map<(nat, nat), Vector>, i: nat, q: nat, v: Vector, r: nat, value: int)
    requires r != q
    ensures Holders(votes[(i, q) := v], r, value) == Holders(votes, r, value)
  {}

  lemma EarlierLock(votes: map<(nat, nat), Vector>, i: nat, q: nat, v: Vector, p: nat)
    requires p < q
    ensures Lock(votes[(i, q) := v], p) <==> Lock(votes, p)
  {
    OtherRow(votes, i, q, v, p, 1);
    if p > 0 {
      OtherRow(votes, i, q, v, p - 1, 1);
    }
  }

  // ----- In step: nobody misses an honest vote -----------------------------------------------

  function Turned(s: Simulation, i: nat, t: nat): int
    requires Wired(s) && i < NUMBER_OF_HONEST_NODES
  {
    var r: int := s.nodes[i];
    if i < t then r - 1 else r
  }

  // After t turns of a pass the nodes are level, or node 0 is one round behind.
  ghost predicate Level(s: Simulation, t: nat, m: nat)
    requires Wired(s)
  {
    && m <= 1
    && Turned(s, 0, t) + 1 - m == Turned(s, 1, t) == Turned(s, 2, t)
    && forall i: nat | i < NUMBER_OF_HONEST_NODES :: s.nodes[i] >= m
  }

  // An honest vote past round 1 is a 1 exactly when the round before has a
  // quorum of ones.
  ghost predicate Follows(s: Simulation) {
    forall i: nat, r: nat {:trigger Says(s.votes, i, r, 1)} | i < NUMBER_OF_HONEST_NODES && r > 1 && (i, r) in s.votes ::
      Says(s.votes, i, r, 1) <==> |Holders(s.votes, r - 1, 1)| >= QUORUM
  }

  ghost predicate InStep(s: Simulation, t: nat, m: nat) {
    Wired(s) && PlainFrom(s.votes, m) && Level(s, t, m) && Follows(s)
  }

  lemma AllSay(s: Simulation, r: nat, value: int)
    requires forall j: nat | j < NUMBER_OF_HONEST_NODES :: Says(s.votes, j, r, value)
    ensures |Holders(s.votes, r, value)| >= QUORUM
  {
    assert Says(s.votes, 0, r, value) && Says(s.votes, 1, r, value) && Says(s.votes, 2, r, value);
    SubsetSize({0, 1, 2}, Holders(s.votes, r, value));
  }

  lemma {:induction false} FollowersBound(s: Simulation, t: nat, m: nat, i: nat, p: nat, r: nat)
    requires VotesOk(s) && InStep(s, t, m) && i < NUMBER_OF_HONEST_NODES
    requires Lock(s.votes, p) && r > p && (i, r) in s.votes
    ensures Says(s.votes, i, r, 1)
    decreases r
  {
    if r > p + 1 {
      var q: nat := r - 1;
      forall j: nat | j < NUMBER_OF_HONEST_NODES ensures Says(s.votes, j, q, 1) {
        assert (j, q) in s.votes;
        FollowersBound(s, t, m, j, p, q);
      }
      hide VotesOk, Holders, Lock, PlainFrom, Level;
      AllSay(s, q, 1);
    }
  }

  lemma InStepBinds(s: Simulation, t: nat, m: nat, i: nat)
    requires VotesOk(s) && InStep(s, t, m) && i < NUMBER_OF_HONEST_NODES
    ensures LockBinds(s, i)
  {
    forall p: nat, r: nat | Lock(s.votes, p) && r > p && (i, r) in s.votes ensures Says(s.votes, i, r, 1) {
      FollowersBound(s, t, m, i, p, r);
    }
  }

  // A decided node says what the others will, too.
  lemma DecidedOneFollows(s: Simulation, m: nat, i: nat, p: nat)
    requires VotesOk(s) && InStep(s, i, m) && i < NUMBER_OF_HONEST_NODES
    requires p < s.nodes[i] && Lock(s.votes, p)
    ensures |Holders(s.votes, s.nodes[i], 1)| >= QUORUM
  {
    var r := s.nodes[i];
    forall j: nat | j < NUMBER_OF_HONEST_NODES ensures Says(s.votes, j, r, 1) {
      assert (j, r) in s.votes;
      FollowersBound(s, i, m, j, p, r);
    }
    hide VotesOk, InStep, Holders;
    AllSay(s, r, 1);
  }

  lemma DecidedFollows(s: Simulation, k: nat, m: nat, i: nat)
    requires Base(s, k, i) && InStep(s, i, m) && i in s.decided && i < NUMBER_OF_HONEST_NODES
    ensures s.decided[i] == 1 <==> |Holders(s.votes, s.nodes[i], 1)| >= QUORUM
    ensures s.decided[i] == 0 || s.decided[i] == 1
  {
    hide VotesOk, InStep, Holders, Lock, OnesGrounded, Paced, LockBinds, Says;
    var r := s.nodes[i];
    DecisionRests(s, i);
    InStepBinds(s, i, m, 1);
    InStepBinds(s, i, m, 2);
    hide QuorumsOk, DecidedOk, QuorumsPast;
    if s.decided[i] == 1 {
      var p: nat :| p < r && Lock(s.votes, p);
      DecidedOneFollows(s, m, i, p);
    } else if |Holders(s.votes, r, 1)| >= QUORUM {
      var q: nat :| 0 < q < r && |Holders(s.votes, q, 0)| >= QUORUM;
      var j := HonestHolder(s, r, 1);
      NoOnesAfter(s, q, j, r);
    }
  }

  // One more honest vote, in the round after the caster's, that follows.
  lemma FollowsMore(s: Simulation, after: Simulation, i: nat, value: int)
    requires VotesOk(s) && Follows(s) && i < NUMBER_OF_HONEST_NODES && (value == 0 || value == 1)
    requires forall j: nat | j < NUMBER_OF_HONEST_NODES :: s.nodes[j] <= s.nodes[i] + 1
    requires after.votes == s.votes[(i, s.nodes[i] + 1) := Uniform(value)]
    requires value == 1 <==> |Holders(s.votes, s.nodes[i], 1)| >= QUORUM
    ensures Follows(after)
  {
    var r := s.nodes[i];
    forall j: nat, q: nat {:trigger Says(after.votes, j, q, 1)} | j < NUMBER_OF_HONEST_NODES && q > 1 && (j, q) in after.votes
      ensures Says(after.votes, j, q, 1) <==> |Holders(after.votes, q - 1, 1)| >= QUORUM
    {
      assert q - 1 != r + 1;
      OtherRow(s.votes, i, r + 1, Uniform(value), q - 1, 1);
      assert 1 in Uniform(value) <==> value == 1 by { assert Uniform(value)[0] == value; }
      if (j, q) != (i, r + 1) {
        assert Says(after.votes, j, q, 1) <==> Says(s.votes, j, q, 1);
      }
    }
  }

  lemma LevelComplete(s: Simulation, i: nat, m: nat)
    requires Wired(s) && Level(s, i, m) && i < NUMBER_OF_HONEST_NODES
    ensures Complete(s, s.nodes[i]) && s.nodes[i] >= m
    ensures forall j: nat | j < NUMBER_OF_HONEST_NODES :: s.nodes[j] <= s.nodes[i] + 1
  {}

  lemma LevelAdvances(s: Simulation, after: Simulation, i: nat, m: nat)
    requires Wired(s) && Wired(after) && Level(s, i, m) && i < NUMBER_OF_HONEST_NODES
    requires after.nodes == s.nodes[i := s.nodes[i] + 1]
    ensures Level(after, i + 1, m)
  {}

  // What the turn of a node in step amounts to.
  lemma InStepAdvances(s: Simulation, i: nat, k: nat, m: nat) returns (value: int)
    requires Base(s, k, i) && InStep(s, i, m) && i < NUMBER_OF_HONEST_NODES
    ensures Turn(s, i).votes == s.votes[(i, s.nodes[i] + 1) := Uniform(value)]
    ensures Turn(s, i).nodes == s.nodes[i := s.nodes[i] + 1]
    ensures (value == 0 || value == 1) && (value == 1 <==> |Holders(s.votes, s.nodes[i], 1)| >= QUORUM)
  {
    hide VotesOk, Holders, OnesGrounded, Paced, QuorumsOk, DecidedOk, QuorumsPast, Advance, Complete, Level, Turn,
      Follows, PlainFrom;
    var r := s.nodes[i];
    var zeros, ones := |Holders(s.votes, r, 0)|, |Holders(s.votes, r, 1)|;
    LevelComplete(s, i, m);
    PlainTurn(s, i, k, m);
    AdvanceVotes(s, i, r, zeros, ones);
    value := if i in s.decided then s.decided[i] else if ones >= QUORUM then 1 else 0;
    if i in s.decided {
      DecidedFollows(s, k, m, i);
    }
  }

  lemma InStepTurn(s: Simulation, i: nat, k: nat, m: nat)
    requires Base(s, k, i) && InStep(s, i, m) && i < NUMBER_OF_HONEST_NODES
    ensures InStep(Turn(s, i), i + 1, m)
  {
    hide QuorumsOk, DecidedOk, OnesGrounded, QuorumsPast, Turn, Holders, Paced, Follows, PlainFrom, VotesOk, Level;
    var value := InStepAdvances(s, i, k, m);
    LevelComplete(s, i, m);
    LevelAdvances(s, Turn(s, i), i, m);
    UniformPlain(s.votes, m, i, s.nodes[i] + 1, value);
    FollowsMore(s, Turn(s, i), i, value);
  }

  // ----- Node 1 behind: nodes 1 and 2 miss no honest vote, node 0 may --------------------------

  // Node i, past a lock, has decided 1; while undecided it has recorded every
  // quorum of ones there is; and locks bind it.
  ghost predicate NodeBound(s: Simulation, i: nat)
    requires Wired(s) && i < NUMBER_OF_HONEST_NODES
  {
    && (forall p: nat | Lock(s.votes, p) && p < s.nodes[i] :: i in s.decided && s.decided[i] == 1)
    && (i !in s.decided ==>
          forall r: nat | r < s.nodes[i] && |Holders(s.votes, r, 1)| >= QUORUM :: r in s.oneQuorum[i])
    && LockBinds(s, i)
  }

  ghost predicate Behind(s: Simulation, t: nat)
    requires Wired(s)
  {
    && s.nodes[2] == (if t == 2 then s.nodes[1] else s.nodes[1] + 1)
    && (if t == 1 then s.nodes[1] + 1 <= s.nodes[0] <= s.nodes[1] + 2 else s.nodes[1] <= s.nodes[0] <= s.nodes[1] + 1)
  }

  ghost predicate OneBehind(s: Simulation, t: nat) {
    Wired(s) && PlainFrom(s.votes, 0) && Behind(s, t) && NodeBound(s, 1) && NodeBound(s, 2)
  }

  // A vote of another node, in a round that node i has not left, changes nothing.
  lemma OtherVoteBinds(s: Simulation, after: Simulation, j: nat, q: nat, v: Vector, i: nat)
    requires VotesOk(s) && Wired(after) && i < NUMBER_OF_HONEST_NODES && NodeBound(s, i)
    requires j != i && q >= s.nodes[i] && after.votes == s.votes[(j, q) := v]
    requires after.nodes[i] == s.nodes[i] && after.oneQuorum[i] == s.oneQuorum[i]
    requires i in s.decided ==> i in after.decided && after.decided[i] == s.decided[i]
    ensures NodeBound(after, i)
  {
    hide Lock, Holders;
    forall p: nat | p < q && Lock(after.votes, p) ensures Lock(s.votes, p) {
      EarlierLock(s.votes, j, q, v, p);
    }
    forall r: nat | r < s.nodes[i] ensures Holders(after.votes, r, 1) == Holders(s.votes, r, 1) {
      OtherRow(s.votes, j, q, v, r, 1);
    }
    forall p: nat, r: nat | Lock(after.votes, p) && r > p && (i, r) in after.votes ensures Says(after.votes, i, r, 1) {
      assert (i, r) in s.votes && Lock(s.votes, p);
      assert Says(s.votes, i, r, 1);
    }
  }

  lemma ZeroSeesNoOnes(s: Simulation, k: nat, t: nat, i: nat)
    requires Base(s, k, t) && LockBinds(s, 1) && LockBinds(s, 2)
    requires i in s.decided && i < NUMBER_OF_HONEST_NODES && |Holders(s.votes, s.nodes[i], 1)| >= QUORUM
    ensures s.decided[i] == 1
  {
    hide VotesOk, Holders, Lock, OnesGrounded, Paced, LockBinds, Says;
    DecisionRests(s, i);
    hide QuorumsOk, DecidedOk, QuorumsPast;
    if s.decided[i] == 0 {
      var q: nat :| 0 < q < s.nodes[i] && |Holders(s.votes, q, 0)| >= QUORUM;
      var j := HonestHolder(s, s.nodes[i], 1);
      NoOnesAfter(s, q, j, s.nodes[i]);
    }
  }

  // A lock that node i has passed, or hears now, has made it decide 1, or will.
  lemma BoundByLock(s: Simulation, k: nat, t: nat, i: nat, p: nat)
    requires Base(s, k, t) && (i == 1 || i == 2) && NodeBound(s, 1) && NodeBound(s, 2)
    requires Lock(s.votes, p) && p <= s.nodes[i]
    ensures i in s.decided ==> s.decided[i] == 1
    ensures i !in s.decided ==>
      p == s.nodes[i] && p > 0 && |Holders(s.votes, p, 1)| >= QUORUM && p - 1 in s.oneQuorum[i]
  {
    var r := s.nodes[i];
    assert p > 0 && |Holders(s.votes, p, 1)| >= QUORUM && |Holders(s.votes, p - 1, 1)| >= QUORUM;
    hide Holders, OnesGrounded, LockBinds, VotesOk, QuorumsOk, DecidedOk, Paced, QuorumsPast, Lock;
    if p == r {
      if i in s.decided {
        ZeroSeesNoOnes(s, k, t, i);
      } else {
        var q: nat := p - 1;
        assert q in s.oneQuorum[i];
      }
    }
  }

  // What node i, bound so far, has decided after a turn in a round it hears whole.
  lemma BoundDecides(s: Simulation, k: nat, i: nat, zeros: nat, p: nat)
    requires Base(s, k, i) && (i == 1 || i == 2) && NodeBound(s, 1) && NodeBound(s, 2)
    requires Lock(s.votes, p) && p <= s.nodes[i]
    ensures
      var ones := |Holders(s.votes, s.nodes[i], 1)|;
      var after := Advance(s, i, s.nodes[i], zeros, ones);
      && i in after.decided && after.decided[i] == 1
      && (if i in s.decided then s.decided[i] == 1 else ones >= QUORUM)
  {
    BoundByLock(s, k, i, i, p);
    AdvanceRecords(s, i, s.nodes[i], zeros, |Holders(s.votes, s.nodes[i], 1)|);
    hide Base, Advance, Holders, Lock, NodeBound, Wired;
  }

  lemma OwnVoteLockBinds(s: Simulation, after: Simulation, i: nat, v: Vector)
    requires VotesOk(s) && LockBinds(s, i) && i < NUMBER_OF_HONEST_NODES && |v| == NUMBER_OF_NODES
    requires after.votes == s.votes[(i, s.nodes[i] + 1) := v]
    requires forall p: nat | p <= s.nodes[i] && Lock(s.votes, p) :: v[0] == 1
    ensures LockBinds(after, i)
  {
    hide Lock, Holders;
    var r := s.nodes[i];
    forall p: nat, q: nat | Lock(after.votes, p) && q > p && (i, q) in after.votes ensures Says(after.votes, i, q, 1) {
      assert q <= r + 1;
      EarlierLock(s.votes, i, r + 1, v, p);
      if q == r + 1 {
        assert v[0] in v;
      } else {
        assert Says(s.votes, i, q, 1);
      }
    }
  }

  lemma OwnRecords(s: Simulation, i: nat, zeros: nat)
    requires Wired(s) && i < NUMBER_OF_HONEST_NODES && NodeBound(s, i)
    ensures
      var r := s.nodes[i];
      var after := Advance(s, i, r, zeros, |Holders(s.votes, r, 1)|);
      i !in after.decided ==>
        forall q: nat | q <= r && |Holders(after.votes, q, 1)| >= QUORUM :: q in after.oneQuorum[i]
  {
    var r := s.nodes[i];
    var ones := |Holders(s.votes, r, 1)|;
    hide Advance, Holders, Lock, LockBinds;
    AdvanceVotes(s, i, r, zeros, ones);
    AdvanceRecords(s, i, r, zeros, ones);
    var after := Advance(s, i, r, zeros, ones);
    forall q: nat | q <= r ensures Holders(after.votes, q, 1) == Holders(s.votes, q, 1) {
      OtherRow(s.votes, i, r + 1, after.votes[(i, r + 1)], q, 1);
    }
  }

  lemma EarlierLocks(votes: map<(nat, nat), Vector>, i: nat, q: nat, v: Vector)
    ensures forall p: nat {:trigger Lock(votes[(i, q) := v], p)} | p < q :: Lock(votes[(i, q) := v], p) ==> Lock(votes, p)
  {
    hide Lock;
    forall p: nat {:trigger Lock(votes[(i, q) := v], p)} | p < q ensures Lock(votes[(i, q) := v], p) ==> Lock(votes, p) {
      EarlierLock(votes, i, q, v, p);
    }
  }

  lemma OwnDecides(s: Simulation, k: nat, i: nat, zeros: nat)
    requires Base(s, k, i) && (i == 1 || i == 2) && NodeBound(s, 1) && NodeBound(s, 2)
    ensures
      var after := Advance(s, i, s.nodes[i], zeros, |Holders(s.votes, s.nodes[i], 1)|);
      forall p: nat {:trigger Lock(s.votes, p)} | p <= s.nodes[i] && Lock(s.votes, p) ::
        && i in after.decided && after.decided[i] == 1
        && (if i in s.decided then s.decided[i] == 1 else |Holders(s.votes, s.nodes[i], 1)| >= QUORUM)
  {
    var r := s.nodes[i];
    var ones := |Holders(s.votes, r, 1)|;
    var after := Advance(s, i, r, zeros, ones);
    hide Base, Advance, Holders, Lock, NodeBound, Wired;
    forall p: nat {:trigger Lock(s.votes, p)} | p <= r && Lock(s.votes, p)
      ensures i in after.decided && after.decided[i] == 1 && if i in s.decided then s.decided[i] == 1 else ones >= QUORUM
    {
      BoundDecides(s, k, i, zeros, p);
    }
  }

  lemma OwnVoteBinds(s: Simulation, k: nat, i: nat, zeros: nat)
    requires Base(s, k, i) && (i == 1 || i == 2) && NodeBound(s, 1) && NodeBound(s, 2)
    ensures NodeBound(Advance(s, i, s.nodes[i], zeros, |Holders(s.votes, s.nodes[i], 1)|), i)
  {
    hide VotesOk, OnesGrounded, QuorumsPast, QuorumsOk, DecidedOk, Paced, Advance, Holders, Lock, LockBinds;
    var r := s.nodes[i];
    var ones := |Holders(s.votes, r, 1)|;
    var after := Advance(s, i, r, zeros, ones);
    var value := if i in s.decided then s.decided[i] else if ones >= QUORUM then 1 else 0;
    AdvanceVotes(s, i, r, zeros, ones);
    OwnRecords(s, i, zeros);
    OwnDecides(s, k, i, zeros);
    OwnVoteLockBinds(s, after, i, Uniform(value));
    EarlierLocks(s.votes, i, r + 1, Uniform(value));
    hide Base;
  }

  lemma BehindComplete(s: Simulation, i: nat)
    requires Wired(s) && Behind(s, i) && i < NUMBER_OF_HONEST_NODES
    ensures Complete(s, s.nodes[i]) || (i == 0 && s.nodes[0] > s.nodes[1])
    ensures s.nodes[1] <= s.nodes[i] + 1 && s.nodes[2] <= s.nodes[i] + 1
  {}

  lemma BehindAdvances(s: Simulation, after: Simulation, i: nat)
    requires Wired(s) && Wired(after) && Behind(s, i) && i < NUMBER_OF_HONEST_NODES
    requires after.nodes == s.nodes[i := s.nodes[i] + 1] || (i == 0 && s.nodes[0] > s.nodes[1] && after.nodes == s.nodes)
    ensures Behind(after, i + 1)
  {}

  // An advance keeps nodes 1 and 2 bound.
  lemma AdvanceBinds(s: Simulation, k: nat, i: nat, zeros: nat, j: nat)
    requires Base(s, k, i) && NodeBound(s, 1) && NodeBound(s, 2) && i < NUMBER_OF_HONEST_NODES && (j == 1 || j == 2)
    requires s.nodes[j] <= s.nodes[i] + 1
    ensures NodeBound(Advance(s, i, s.nodes[i], zeros, |Holders(s.votes, s.nodes[i], 1)|), j)
  {
    hide VotesOk, QuorumsOk, DecidedOk, Paced, OnesGrounded, QuorumsPast, Advance, Holders, NodeBound;
    var r := s.nodes[i];
    var ones := |Holders(s.votes, r, 1)|;
    var after := Advance(s, i, r, zeros, ones);
    if i == j {
      OwnVoteBinds(s, k, i, zeros);
    } else {
      AdvanceVotes(s, i, r, zeros, ones);
      AdvanceRecords(s, i, r, zeros, ones);
      OtherVoteBinds(s, after, i, r + 1, after.votes[(i, r + 1)], j);
    }
  }

  lemma BehindTurn(s: Simulation, i: nat, k: nat)
    requires Base(s, k, i) && OneBehind(s, i) && i < NUMBER_OF_HONEST_NODES
    ensures OneBehind(Turn(s, i), i + 1)
  {
    hide VotesOk, Holders, OnesGrounded, Paced, QuorumsOk, DecidedOk, QuorumsPast, Advance, Complete, Turn, Behind,
      PlainFrom, NodeBound;
    var r := s.nodes[i];
    var zeros, ones := |Holders(s.votes, r, 0)|, |Holders(s.votes, r, 1)|;
    BehindComplete(s, i);
    PlainTurn(s, i, k, 0);
    if zeros + ones >= QUORUM {
      AdvanceVotes(s, i, r, zeros, ones);
      var value := if i in s.decided then s.decided[i] else if ones >= QUORUM then 1 else 0;
      if i in s.decided {
        DecisionRests(s, i);
      }
      UniformPlain(s.votes, 0, i, r + 1, value);
      AdvanceBinds(s, k, i, zeros, 1);
      AdvanceBinds(s, k, i, zeros, 2);
    }
    BehindAdvances(s, Turn(s, i), i);
  }

  // ----- Node 2 behind, the others without a quorum of ones: nobody says 1 again ---------------

  ghost predicate OnesOver(s: Simulation) {
    && Wired(s) && s.nodes[0] > 0 && s.nodes[1] > 0
    && (forall i: nat, r: nat {:trigger Says(s.votes, i, r, 1)} ::
          i < NUMBER_OF_HONEST_NODES && r > 0 && Says(s.votes, i, r, 1) ==> i == 2 && r == 1)
    && (forall i | i in s.decided :: s.decided[i] != 1)
  }

  lemma FewOnesLeft(s: Simulation, r: nat)
    requires OnesOver(s) && r > 0
    ensures |Holders(s.votes, r, 1)| < QUORUM
  {
    assert !Says(s.votes, 0, r, 1) && !Says(s.votes, 1, r, 1);
    SubsetSize(Holders(s.votes, r, 1), {2, 3});
  }

  lemma OnesOverAdvance(s: Simulation, i: nat, zeros: nat, ones: nat)
    requires OnesOver(s) && i < NUMBER_OF_HONEST_NODES && ones <= |Holders(s.votes, s.nodes[i], 1)|
    ensures OnesOver(Advance(s, i, s.nodes[i], zeros, ones))
  {
    var r := s.nodes[i];
    var after := Advance(s, i, r, zeros, ones);
    AdvanceVotes(s, i, r, zeros, ones);
    AdvanceRecords(s, i, r, zeros, ones);
    if r > 0 {
      FewOnesLeft(s, r);
    }
    hide Advance, Holders;
    forall j: nat, q: nat {:trigger Says(after.votes, j, q, 1)} | j < NUMBER_OF_HONEST_NODES && q > 0 && Says(after.votes, j, q, 1)
      ensures j == 2 && q == 1
    {
      assert (j, q) != (i, r + 1) ==> Says(s.votes, j, q, 1);
    }
  }

  lemma OnesOverReceive(s: Simulation, r: nat)
    requires VotesOk(s) && OnesOver(s)
    ensures OnesOver(Receive(s, r))
  {
    var after := Receive(s, r);
    forall j: nat, q: nat {:trigger Says(after.votes, j, q, 1)} | j < NUMBER_OF_HONEST_NODES && q > 0 && Says(after.votes, j, q, 1)
      ensures j == 2 && q == 1
    {
      FilledConsistent(s.votes[(j, q)]);
      assert Says(s.votes, j, q, 1);
    }
  }

  lemma OnesOverTurn(s: Simulation, i: nat, k: nat)
    requires Base(s, k, i) && OnesOver(s) && i < NUMBER_OF_HONEST_NODES
    ensures OnesOver(Turn(s, i))
  {
    hide VotesOk, Holders, OnesGrounded, Paced, QuorumsOk, DecidedOk, QuorumsPast, Advance, Receive, Count, OnesOver;
    var r := s.nodes[i];
    CountIsBacked(s, i, r, 1);
    OnesOverAdvance(s, i, Count(s, i, r, 0, NUMBER_OF_NODES), Count(s, i, r, 1, NUMBER_OF_NODES));
    OnesOverReceive(s, r);
  }

  // ----- One of these, for ever ------------------------------------------------------------------

  ghost predicate Fate(s: Simulation, t: nat) {
    InStep(s, t, 0) || InStep(s, t, 1) || OneBehind(s, t) || OnesOver(s)
  }

  lemma FateTurn(s: Simulation, i: nat, k: nat)
    requires Base(s, k, i) && Fate(s, i) && i < NUMBER_OF_HONEST_NODES
    ensures Fate(Turn(s, i), i + 1)
  {
    hide Base, InStep, OneBehind, OnesOver, Turn;
    if InStep(s, i, 0) {
      InStepTurn(s, i, k, 0);
    } else if InStep(s, i, 1) {
      InStepTurn(s, i, k, 1);
    } else if OneBehind(s, i) {
      BehindTurn(s, i, k);
    } else {
      OnesOverTurn(s, i, k);
    }
  }

  lemma FateAgrees(s: Simulation, k: nat, t: nat)
    requires Base(s, k, t) && Fate(s, t)
    ensures Agree(s.decided)
  {
    hide VotesOk, OnesGrounded, Paced, QuorumsOk, QuorumsPast, LockBinds, Holders, Follows, PlainFrom, Level, Behind, Lock,
      Decision;
    if InStep(s, t, 0) || InStep(s, t, 1) {
      var m := if InStep(s, t, 0) then 0 else 1;
      InStepBinds(s, t, m, 1);
      InStepBinds(s, t, m, 2);
      LockAgreement(s, k, t);
    } else if OneBehind(s, t) {
      LockAgreement(s, k, t);
    }
  }

  // The vote of the byzantine node between two passes.
  lemma InStepMisbehave(s: Simulation, choice: int, k: nat, m: nat)
    requires RoundingInv(s, k, 0) && InStep(s, 3, m) && VotePresent(s, 3)
    ensures InStep(Misbehave(s, 0, choice), 0, m)
  {
    hide QuorumsOk, DecidedOk, Holders, PlainFrom, Consistent, Uniform;
    var after := Misbehave(s, 0, choice);
    UniformPlain(s.votes, m, 3, k + 1, choice);
    forall j: nat, q: nat {:trigger Says(after.votes, j, q, 1)} | j < NUMBER_OF_HONEST_NODES && q > 1 && (j, q) in after.votes
      ensures Says(after.votes, j, q, 1) <==> |Holders(after.votes, q - 1, 1)| >= QUORUM
    {
      OtherRow(s.votes, 3, k + 1, Uniform(choice), q - 1, 1);
      assert Says(after.votes, j, q, 1) <==> Says(s.votes, j, q, 1);
    }
  }

  lemma BehindMisbehave(s: Simulation, choice: int, k: nat)
    requires RoundingInv(s, k, 0) && OneBehind(s, 3) && VotePresent(s, 3)
    ensures OneBehind(Misbehave(s, 0, choice), 0)
  {
    hide QuorumsOk, DecidedOk, PlainFrom, NodeBound, VotesOk, Uniform;
    var after := Misbehave(s, 0, choice);
    UniformPlain(s.votes, 0, 3, k + 1, choice);
    OtherVoteBinds(s, after, 3, k + 1, Uniform(choice), 1);
    OtherVoteBinds(s, after, 3, k + 1, Uniform(choice), 2);
  }

  lemma OnesOverMisbehave(s: Simulation, choice: int)
    requires OnesOver(s) && VotePresent(s, 3)
    ensures OnesOver(Misbehave(s, 0, choice))
  {
    var after := Misbehave(s, 0, choice);
    assert forall j: nat, q: nat {:trigger Says(after.votes, j, q, 1)} ::
      j < NUMBER_OF_HONEST_NODES && Says(after.votes, j, q, 1) ==> Says(s.votes, j, q, 1);
  }

  lemma FateMisbehave(s: Simulation, choice: int, k: nat)
    requires RoundingInv(s, k, 0) && Fate(s, 3) && VotePresent(s, 3)
    ensures Fate(Misbehave(s, 0, choice), 0)
  {
    hide RoundingInv, InStep, OneBehind, OnesOver, Misbehave;
    if InStep(s, 3, 0) {
      InStepMisbehave(s, choice, k, 0);
    } else if InStep(s, 3, 1) {
      InStepMisbehave(s, choice, k, 1);
    } else if OneBehind(s, 3) {
      BehindMisbehave(s, choice, k);
    } else {
      OnesOverMisbehave(s, choice);
    }
  }
}
