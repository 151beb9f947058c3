/** The round simulator: one consensus instance, node turn by node turn. */
module Rounds {
  import opened Basics

  const NUMBER_OF_NODES: nat := 4
  const NUMBER_OF_BYZANTINE_NODES: nat := (NUMBER_OF_NODES - 1) / 3
  const NUMBER_OF_HONEST_NODES: nat := NUMBER_OF_NODES - NUMBER_OF_BYZANTINE_NODES
  const QUORUM: nat := NUMBER_OF_BYZANTINE_NODES * 2 + 1

  // What a sender has said in a round, receiver by receiver: 0, 1, or -1 for
  // not yet delivered.
  type Vector = seq<int>

  datatype Simulation = Simulation(
    votes: map<(nat, nat), Vector>,
    nodes: map<nat, nat>,
    zeroQuorum: map<nat, seq<nat>>,
    oneQuorum: map<nat, seq<nat>>,
    decided: map<nat, int>,
    excluded: seq<nat>)

  predicate IsVector(v: Vector) {
    |v| == NUMBER_OF_NODES && forall x | x in v :: x == -1 || x == 0 || x == 1
  }

  function Uniform(value: int): Vector { seq(NUMBER_OF_NODES, _ => value) }

  // The lookups of the source find what they look for.
  predicate Wired(s: Simulation) {
    && (forall i: nat | i < NUMBER_OF_NODES :: i in s.nodes)
    && (forall i: nat | i < NUMBER_OF_HONEST_NODES :: i in s.zeroQuorum && i in s.oneQuorum)
    && (forall key | key in s.votes :: |s.votes[key]| == NUMBER_OF_NODES)
  }

  // How many of the first n senders have told node i the value in round r.
  function Count(s: Simulation, i: nat, r: nat, value: int, n: nat): nat
    requires Wired(s) && i < NUMBER_OF_NODES
  {
    if n == 0 then 0
    else
      Count(s, i, r, value, n - 1)
      + if (n - 1, r) in s.votes && s.votes[(n - 1, r)][i] == value && n - 1 !in s.excluded then 1 else 0
  }

  // Delayed entries arrive: with the value other receivers already have, and 0
  // when nobody has a 1.
  function Filled(v: Vector): Vector {
    seq(|v|, x requires 0 <= x < |v| => if v[x] == -1 then (if 1 in v then 1 else 0) else v[x])
  }

  function Receive(s: Simulation, r: nat): (s': Simulation)
    requires Wired(s)
    ensures Wired(s')
  {
    s.(votes := map key | key in s.votes ::
      if key.1 == r && key.0 < NUMBER_OF_HONEST_NODES then Filled(s.votes[key]) else s.votes[key])
  }

  function Advance(s: Simulation, i: nat, r: nat, zeros: nat, ones: nat): (s': Simulation)
    requires Wired(s) && i < NUMBER_OF_HONEST_NODES
    ensures Wired(s')
  {
    if i in s.decided then
      s.(votes := s.votes[(i, r + 1) := Uniform(s.decided[i])], nodes := s.nodes[i := r + 1])
    else if ones >= QUORUM then
      s.(
        votes := s.votes[(i, r + 1) := Uniform(1)],
        nodes := s.nodes[i := r + 1],
        oneQuorum := s.oneQuorum[i := s.oneQuorum[i] + [r]],
        decided := if r != 0 && r - 1 in s.oneQuorum[i] then s.decided[i := 1] else s.decided)
    else if zeros >= QUORUM then
      s.(
        votes := s.votes[(i, r + 1) := Uniform(0)],
        nodes := s.nodes[i := r + 1],
        zeroQuorum := s.zeroQuorum[i := s.zeroQuorum[i] + [r]],
        decided := if r != 0 && r - 1 in s.zeroQuorum[i] then s.decided[i := 0] else s.decided)
    else
      s.(votes := s.votes[(i, r + 1) := Uniform(0)], nodes := s.nodes[i := r + 1])
  }

  // One honest node's turn: advance on a quorum of delivered votes, or let the
  // delayed honest votes of its round arrive.
  function Turn(s: Simulation, i: nat): (s': Simulation)
    requires Wired(s) && i < NUMBER_OF_HONEST_NODES
    ensures Wired(s')
  {
    var r := s.nodes[i];
    var zeros, ones := Count(s, i, r, 0, NUMBER_OF_NODES), Count(s, i, r, 1, NUMBER_OF_NODES);
    if zeros + ones >= QUORUM then Advance(s, i, r, zeros, ones) else Receive(s, r)
  }

  function Turns(s: Simulation, n: nat): (s': Simulation)
    requires Wired(s) && n <= NUMBER_OF_HONEST_NODES
    ensures Wired(s')
  {
    if n == 0 then s else Turn(Turns(s, n - 1), n - 1)
  }

  lemma ThreeTurns(s: Simulation)
    requires Wired(s)
    ensures Turns(s, 0) == s
    ensures Turns(s, 1) == Turn(s, 0)
    ensures Turns(s, 2) == Turn(Turn(s, 0), 1)
    ensures Turns(s, 3) == Turn(Turn(Turn(s, 0), 1), 2)
  {
    hide Turn;
  }

  // A byzantine node says one thing to everybody, and is excluded once caught
  // saying two.
  predicate VotePresent(s: Simulation, i: nat)
    requires Wired(s) && i < NUMBER_OF_NODES
  {
    (i, s.nodes[i]) in s.votes
  }

  function Exclude(excluded: seq<nat>, i: nat, v: Vector): seq<nat> {
    if 1 in v && 0 in v then excluded + [i] else excluded
  }

  function Misbehave(s: Simulation, b: nat, choice: int): (s': Simulation)
    requires Wired(s) && b < NUMBER_OF_BYZANTINE_NODES && VotePresent(s, NUMBER_OF_HONEST_NODES + b)
    ensures Wired(s')
  {
    var i := NUMBER_OF_HONEST_NODES + b;
    var r := s.nodes[i];
    s.(
      votes := s.votes[(i, r + 1) := Uniform(choice)],
      nodes := s.nodes[i := r + 1],
      excluded := Exclude(s.excluded, i, s.votes[(i, r)]))
  }

  // ----- The invariant ----------------------------------------------------------

  ghost predicate Consistent(v: Vector) {
    IsVector(v) && !(0 in v && 1 in v)
  }

  // A vote stands for every round up to a node's current one and for no other,
  // and nobody is heard saying both 0 and 1.
  ghost predicate VotesOk(s: Simulation) {
    && Wired(s)
    && (forall i: nat, r: nat :: (i, r) in s.votes <==> i < NUMBER_OF_NODES && r <= s.nodes[i])
    && (forall key | key in s.votes :: Consistent(s.votes[key]))
  }

  // The senders heard saying a value in a round.
  function Holders(votes: map<(nat, nat), Vector>, r: nat, value: int): set<nat> {
    set j: nat | j < NUMBER_OF_NODES && (j, r) in votes && value in votes[(j, r)]
  }

  ghost predicate Backed(s: Simulation, quorums: seq<nat>, value: int) {
    forall k | 0 <= k < |quorums| :: |Holders(s.votes, quorums[k], value)| >= QUORUM
  }

  ghost predicate QuorumsOk(s: Simulation)
    requires Wired(s)
  {
    forall i: nat | i < NUMBER_OF_HONEST_NODES ::
      Backed(s, s.zeroQuorum[i], 0) && Backed(s, s.oneQuorum[i], 1)
  }

  function QuorumsFor(s: Simulation, i: nat, value: int): seq<nat>
    requires Wired(s) && i < NUMBER_OF_HONEST_NODES
  {
    if value == 1 then s.oneQuorum[i] else s.zeroQuorum[i]
  }

  // A decision rests on quorums of its value in two rounds running, the later
  // of which is the last one recorded.
  ghost predicate Decision(s: Simulation, i: nat, value: int, r: nat)
    requires Wired(s) && i < NUMBER_OF_HONEST_NODES
  {
    var quorums := QuorumsFor(s, i, value);
    && i in s.decided && s.decided[i] == value
    && r > 0 && |quorums| > 0 && quorums[|quorums| - 1] == r && r - 1 in quorums
  }

  ghost predicate DecidedOk(s: Simulation)
    requires Wired(s)
  {
    forall i | i in s.decided ::
      i < NUMBER_OF_HONEST_NODES && (s.decided[i] == 0 || s.decided[i] == 1) && exists r :: Decision(s, i, s.decided[i], r)
  }

  // After k whole iterations and the turns of the first t honest nodes in the
  // next: a byzantine node stands at round k, and nobody is further ahead than
  // the turns had allow.
  ghost predicate Paced(s: Simulation, k: nat, t: nat)
    requires Wired(s)
  {
    && (forall i: nat | i < NUMBER_OF_HONEST_NODES :: s.nodes[i] <= if i < t then k + 1 else k)
    && (forall i: nat | NUMBER_OF_HONEST_NODES <= i < NUMBER_OF_NODES :: s.nodes[i] == k)
  }

  ghost predicate Inv(s: Simulation, k: nat, t: nat) {
    && Wired(s)
    && VotesOk(s)
    && s.excluded == []
    && QuorumsOk(s)
    && DecidedOk(s)
    && Paced(s, k, t)
  }

  // What has been delivered stays as it was.
  ghost predicate Extends(before: map<(nat, nat), Vector>, after: map<(nat, nat), Vector>) {
    forall key | key in before ::
      && key in after && |after[key]| == |before[key]|
      && forall x | 0 <= x < |before[key]| && before[key][x] != -1 :: after[key][x] == before[key][x]
  }

  // ----- Steps keep it ------------------------------------------------------------

  lemma HoldersStay(before: map<(nat, nat), Vector>, after: map<(nat, nat), Vector>, r: nat, value: int)
    requires Extends(before, after) && value != -1
    ensures Holders(before, r, value) <= Holders(after, r, value)
    ensures |Holders(before, r, value)| <= |Holders(after, r, value)|
  {
    forall j | j in Holders(before, r, value) ensures j in Holders(after, r, value) {
      var x :| 0 <= x < |before[(j, r)]| && before[(j, r)][x] == value;
      assert after[(j, r)][x] == value;
    }
    assert Holders(after, r, value) == Holders(before, r, value) + (Holders(after, r, value) - Holders(before, r, value));
  }

  lemma BackedStays(before: Simulation, after: Simulation, quorums: seq<nat>, value: int)
    requires Backed(before, quorums, value) && Extends(before.votes, after.votes) && value != -1
    ensures Backed(after, quorums, value)
  {
    forall k | 0 <= k < |quorums| ensures |Holders(after.votes, quorums[k], value)| >= QUORUM {
      HoldersStay(before.votes, after.votes, quorums[k], value);
    }
  }

  // Every vote counted has a holder behind it.
  lemma {:induction false} CountHasHolders(s: Simulation, i: nat, r: nat, value: int, n: nat)
    requires Wired(s) && i < NUMBER_OF_NODES && n <= NUMBER_OF_NODES
    ensures Count(s, i, r, value, n) <= |set j | j in Holders(s.votes, r, value) && j < n|
  {
    if n > 0 {
      CountHasHolders(s, i, r, value, n - 1);
      var before := set j | j in Holders(s.votes, r, value) && j < n - 1;
      var after := set j | j in Holders(s.votes, r, value) && j < n;
      if n - 1 in Holders(s.votes, r, value) {
        assert after == before + {n - 1};
      } else {
        assert after == before;
        assert (n - 1, r) in s.votes ==> s.votes[(n - 1, r)][i] in s.votes[(n - 1, r)];
      }
    }
  }

  lemma CountIsBacked(s: Simulation, i: nat, r: nat, value: int)
    requires Wired(s) && i < NUMBER_OF_NODES
    ensures Count(s, i, r, value, NUMBER_OF_NODES) <= |Holders(s.votes, r, value)|
  {
    CountHasHolders(s, i, r, value, NUMBER_OF_NODES);
    assert (set j | j in Holders(s.votes, r, value) && j < NUMBER_OF_NODES) == Holders(s.votes, r, value);
  }

  lemma FilledConsistent(v: Vector)
    requires Consistent(v)
    ensures Consistent(Filled(v))
    ensures forall x | 0 <= x < |v| && v[x] != -1 :: Filled(v)[x] == v[x]
    ensures 1 in Filled(v) <==> 1 in v
  {
    var w := Filled(v);
    forall x | 0 <= x < |w| ensures w[x] == 0 || w[x] == 1 {
      assert v[x] in v;
    }
    if 1 in v {
      var y :| 0 <= y < |v| && v[y] == 1;
      assert w[y] == 1;
    }
  }

  lemma ReceiveKeeps(s: Simulation, i: nat, k: nat)
    requires Inv(s, k, i) && i < NUMBER_OF_HONEST_NODES
    ensures Inv(Receive(s, s.nodes[i]), k, i + 1)
    ensures Extends(s.votes, Receive(s, s.nodes[i]).votes)
  {
    var after := Receive(s, s.nodes[i]);
    forall key | key in s.votes ensures Consistent(after.votes[key]) && |after.votes[key]| == |s.votes[key]| {
      FilledConsistent(s.votes[key]);
    }
    assert Extends(s.votes, after.votes) by {
      forall key | key in s.votes {
        FilledConsistent(s.votes[key]);
      }
    }
    forall j: nat | j < NUMBER_OF_HONEST_NODES ensures Backed(after, s.zeroQuorum[j], 0) && Backed(after, s.oneQuorum[j], 1) {
      BackedStays(s, after, s.zeroQuorum[j], 0);
      BackedStays(s, after, s.oneQuorum[j], 1);
    }
    DecidedStays(s, after);
  }

  lemma DecidedStays(before: Simulation, after: Simulation)
    requires Wired(before) && Wired(after) && DecidedOk(before)
    requires before.decided == after.decided
    requires forall i | i in before.decided && i < NUMBER_OF_HONEST_NODES ::
      before.zeroQuorum[i] == after.zeroQuorum[i] && before.oneQuorum[i] == after.oneQuorum[i]
    ensures DecidedOk(after)
  {
    hide Wired;
    forall i | i in after.decided ensures exists r :: Decision(after, i, after.decided[i], r) {
      var r :| Decision(before, i, before.decided[i], r);
      assert Decision(after, i, after.decided[i], r);
    }
  }

  // Advancing adds one vote, of the decided value if there is one, and
  // otherwise of One on a quorum of ones and of Zero without.
  lemma AdvanceVotes(s: Simulation, i: nat, r: nat, zeros: nat, ones: nat)
    requires Wired(s) && i < NUMBER_OF_HONEST_NODES
    ensures
      var value := if i in s.decided then s.decided[i] else if ones >= QUORUM then 1 else 0;
      var after := Advance(s, i, r, zeros, ones);
      && after.votes == s.votes[(i, r + 1) := Uniform(value)]
      && after.nodes == s.nodes[i := r + 1]
      && after.excluded == s.excluded
  {}

  // It records at most one quorum, and decides on the second of two running.
  lemma AdvanceRecords(s: Simulation, i: nat, r: nat, zeros: nat, ones: nat)
    requires Wired(s) && i < NUMBER_OF_HONEST_NODES
    ensures
      var after := Advance(s, i, r, zeros, ones);
      var one, zero := i !in s.decided && ones >= QUORUM, i !in s.decided && ones < QUORUM && zeros >= QUORUM;
      && after.oneQuorum == (if one then s.oneQuorum[i := s.oneQuorum[i] + [r]] else s.oneQuorum)
      && after.zeroQuorum == (if zero then s.zeroQuorum[i := s.zeroQuorum[i] + [r]] else s.zeroQuorum)
      && after.decided == (if one && r != 0 && r - 1 in s.oneQuorum[i] then s.decided[i := 1]
                           else if zero && r != 0 && r - 1 in s.zeroQuorum[i] then s.decided[i := 0]
                           else s.decided)
  {}

  lemma AdvanceKeepsVotes(s: Simulation, i: nat, k: nat, zeros: nat, ones: nat)
    requires Inv(s, k, i) && i < NUMBER_OF_HONEST_NODES
    ensures
      var after := Advance(s, i, s.nodes[i], zeros, ones);
      VotesOk(after) && after.excluded == [] && Paced(after, k, i + 1) && Extends(s.votes, after.votes)
  {
    hide Advance, QuorumsOk, Decision;
    var r := s.nodes[i];
    AdvanceVotes(s, i, r, zeros, ones);
    assert (i, r + 1) !in s.votes;
    assert forall value :: value == 0 || value == 1 ==> Consistent(Uniform(value));
  }

  lemma AdvanceKeepsQuorums(s: Simulation, i: nat, k: nat)
    requires Inv(s, k, i) && i < NUMBER_OF_HONEST_NODES
    ensures
      var r := s.nodes[i];
      QuorumsOk(Advance(s, i, r, Count(s, i, r, 0, NUMBER_OF_NODES), Count(s, i, r, 1, NUMBER_OF_NODES)))
  {
    hide VotesOk, DecidedOk, Paced, Advance, Holders, Count, Extends;
    var r := s.nodes[i];
    var zeros, ones := Count(s, i, r, 0, NUMBER_OF_NODES), Count(s, i, r, 1, NUMBER_OF_NODES);
    var after := Advance(s, i, r, zeros, ones);
    AdvanceKeepsVotes(s, i, k, zeros, ones);
    AdvanceRecords(s, i, r, zeros, ones);
    CountIsBacked(s, i, r, 0);
    CountIsBacked(s, i, r, 1);
    HoldersStay(s.votes, after.votes, r, 0);
    HoldersStay(s.votes, after.votes, r, 1);
    forall j: nat | j < NUMBER_OF_HONEST_NODES ensures Backed(after, after.zeroQuorum[j], 0) && Backed(after, after.oneQuorum[j], 1) {
      BackedStays(s, after, s.zeroQuorum[j], 0);
      BackedStays(s, after, s.oneQuorum[j], 1);
    }
  }

  // An earlier decision still stands.
  lemma AdvanceKeepsDecision(s: Simulation, i: nat, r: nat, zeros: nat, ones: nat, j: nat, q: nat)
    requires Wired(s) && i < NUMBER_OF_HONEST_NODES && j < NUMBER_OF_HONEST_NODES
    requires j in s.decided && Decision(s, j, s.decided[j], q)
    ensures var after := Advance(s, i, r, zeros, ones);
      j in after.decided && after.decided[j] == s.decided[j] && Decision(after, j, s.decided[j], q)
  {
    AdvanceRecords(s, i, r, zeros, ones);
    hide Advance, Wired;
  }

  // A new one rests on the quorum just recorded.
  lemma AdvanceDecides(s: Simulation, i: nat, r: nat, zeros: nat, ones: nat, j: nat)
    requires Wired(s) && i < NUMBER_OF_HONEST_NODES && j !in s.decided
    requires j in Advance(s, i, r, zeros, ones).decided
    ensures var after := Advance(s, i, r, zeros, ones);
      && j == i && (after.decided[j] == 0 || after.decided[j] == 1)
      && Decision(after, j, after.decided[j], r)
  {
    AdvanceRecords(s, i, r, zeros, ones);
    hide Advance, Wired;
  }

  lemma AdvanceDecision(s: Simulation, i: nat, r: nat, zeros: nat, ones: nat, j: nat)
    requires Wired(s) && DecidedOk(s) && i < NUMBER_OF_HONEST_NODES
    ensures var after := Advance(s, i, r, zeros, ones);
      j in after.decided ==>
        && j < NUMBER_OF_HONEST_NODES && (after.decided[j] == 0 || after.decided[j] == 1)
        && exists q :: Decision(after, j, after.decided[j], q)
  {
    hide Advance, Wired, Decision;
    if j in s.decided {
      var q: nat :| Decision(s, j, s.decided[j], q);
      AdvanceKeepsDecision(s, i, r, zeros, ones, j, q);
    } else if j in Advance(s, i, r, zeros, ones).decided {
      AdvanceDecides(s, i, r, zeros, ones, j);
    }
  }

  lemma AdvanceKeepsDecided(s: Simulation, i: nat, k: nat, zeros: nat, ones: nat)
    requires Inv(s, k, i) && i < NUMBER_OF_HONEST_NODES
    ensures DecidedOk(Advance(s, i, s.nodes[i], zeros, ones))
  {
    var after := Advance(s, i, s.nodes[i], zeros, ones);
    forall j | j in after.decided
      ensures j < NUMBER_OF_HONEST_NODES && (after.decided[j] == 0 || after.decided[j] == 1)
      ensures exists q :: Decision(after, j, after.decided[j], q)
    {
      AdvanceDecision(s, i, s.nodes[i], zeros, ones, j);
      hide Advance, Decision;
    }
    hide Advance, Decision;
  }

  // An honest turn keeps the invariant and forgets nothing delivered.
  lemma TurnKeeps(s: Simulation, i: nat, k: nat)
    requires Inv(s, k, i) && i < NUMBER_OF_HONEST_NODES
    ensures Inv(Turn(s, i), k, i + 1)
    ensures Extends(s.votes, Turn(s, i).votes)
  {
    hide VotesOk, QuorumsOk, DecidedOk, Paced, Advance, Receive, Extends, Count;
    var r := s.nodes[i];
    var zeros, ones := Count(s, i, r, 0, NUMBER_OF_NODES), Count(s, i, r, 1, NUMBER_OF_NODES);
    AdvanceKeepsVotes(s, i, k, zeros, ones);
    AdvanceKeepsQuorums(s, i, k);
    AdvanceKeepsDecided(s, i, k, zeros, ones);
    ReceiveKeeps(s, i, k);
  }

  lemma ExtendsReflexive(a: map<(nat, nat), Vector>)
    ensures Extends(a, a)
  {}

  lemma ExtendsTransitive(a: map<(nat, nat), Vector>, b: map<(nat, nat), Vector>, c: map<(nat, nat), Vector>)
    requires Extends(a, b) && Extends(b, c)
    ensures Extends(a, c)
  {
    forall key | key in a
      ensures key in c && |c[key]| == |a[key]| && forall x | 0 <= x < |a[key]| && a[key][x] != -1 :: c[key][x] == a[key][x]
    {
      assert key in b;
    }
  }

  lemma {:induction false} TurnsKeep(s: Simulation, n: nat, k: nat)
    requires Inv(s, k, 0) && n <= NUMBER_OF_HONEST_NODES
    ensures Inv(Turns(s, n), k, n)
    ensures Extends(s.votes, Turns(s, n).votes)
  {
    hide VotesOk, QuorumsOk, DecidedOk, Paced, Turn, Extends;
    if n == 0 {
      assert Extends(s.votes, s.votes) by { ExtendsReflexive(s.votes); }
    } else {
      TurnsKeep(s, n - 1, k);
      TurnKeeps(Turns(s, n - 1), n - 1, k);
      ExtendsTransitive(s.votes, Turns(s, n - 1).votes, Turns(s, n).votes);
    }
  }

  // The byzantine nodes below b have moved on to round k + 1.
  ghost predicate Rounding(s: Simulation, k: nat, b: nat)
    requires Wired(s)
  {
    && (forall i: nat | i < NUMBER_OF_HONEST_NODES :: s.nodes[i] <= k + 1)
    && (forall i: nat | NUMBER_OF_HONEST_NODES <= i < NUMBER_OF_NODES ::
          s.nodes[i] == if i < NUMBER_OF_HONEST_NODES + b then k + 1 else k)
  }

  ghost predicate RoundingInv(s: Simulation, k: nat, b: nat) {
    Wired(s) && VotesOk(s) && s.excluded == [] && QuorumsOk(s) && DecidedOk(s) && Rounding(s, k, b)
  }

  predicate IsChoice(value: int) { value == -1 || value == 0 || value == 1 }

  lemma MisbehaveKeeps(s: Simulation, b: nat, choice: int, k: nat)
    requires RoundingInv(s, k, b) && b < NUMBER_OF_BYZANTINE_NODES && IsChoice(choice)
    ensures VotePresent(s, NUMBER_OF_HONEST_NODES + b)
    ensures RoundingInv(Misbehave(s, b, choice), k, b + 1)
    ensures Extends(s.votes, Misbehave(s, b, choice).votes)
  {
    var i := NUMBER_OF_HONEST_NODES + b;
    var after := Misbehave(s, b, choice);
    assert (i, s.nodes[i] + 1) !in s.votes;
    assert Consistent(after.votes[(i, s.nodes[i] + 1)]);
    forall j: nat | j < NUMBER_OF_HONEST_NODES ensures Backed(after, s.zeroQuorum[j], 0) && Backed(after, s.oneQuorum[j], 1) {
      BackedStays(s, after, s.zeroQuorum[j], 0);
      BackedStays(s, after, s.oneQuorum[j], 1);
    }
    DecidedStays(s, after);
  }

  // The byzantine part of an iteration.
  ghost function Misbehaviour(s: Simulation, choices: seq<int>, b: nat, k: nat): (s': Simulation)
    requires RoundingInv(s, k, 0) && b <= NUMBER_OF_BYZANTINE_NODES
    requires |choices| == NUMBER_OF_BYZANTINE_NODES && forall x | x in choices :: IsChoice(x)
    ensures RoundingInv(s', k, b) && Extends(s.votes, s'.votes)
  {
    if b == 0 then s
    else
      var before := Misbehaviour(s, choices, b - 1, k);
      MisbehaveKeeps(before, b - 1, choices[b - 1], k);
      ExtendsTransitive(s.votes, before.votes, Misbehave(before, b - 1, choices[b - 1]).votes);
      Misbehave(before, b - 1, choices[b - 1])
  }

  predicate AreChoices(choices: seq<int>) {
    |choices| == NUMBER_OF_BYZANTINE_NODES && forall x | x in choices :: IsChoice(x)
  }

  ghost function Iteration(s: Simulation, choices: seq<int>, k: nat): (s': Simulation)
    requires Inv(s, k, 0) && AreChoices(choices)
    ensures Inv(s', k + 1, 0) && Extends(s.votes, s'.votes)
  {
    TurnsKeep(s, NUMBER_OF_HONEST_NODES, k);
    var middle := Turns(s, NUMBER_OF_HONEST_NODES);
    var after := Misbehaviour(middle, choices, NUMBER_OF_BYZANTINE_NODES, k);
    ExtendsTransitive(s.votes, middle.votes, after.votes);
    after
  }

  // There is one byzantine node.
  lemma OneMisbehaves(s: Simulation, choices: seq<int>, k: nat)
    requires RoundingInv(s, k, 0) && AreChoices(choices)
    ensures VotePresent(s, NUMBER_OF_HONEST_NODES)
    ensures Misbehaviour(s, choices, NUMBER_OF_BYZANTINE_NODES, k) == Misbehave(s, 0, choices[0])
  {
    hide VotesOk, QuorumsOk, DecidedOk, Rounding, Misbehave;
    MisbehaveKeeps(s, 0, choices[0], k);
    assert Misbehaviour(s, choices, 0, k) == s;
  }

  // ----- Openings and runs -------------------------------------------------------

  // The opening votes: an honest node's value, delivered to some and delayed to
  // the others; a byzantine node's choice, the same for all.
  predicate IsOpening(opening: seq<Vector>) {
    && |opening| == NUMBER_OF_NODES
    && (forall i | 0 <= i < NUMBER_OF_HONEST_NODES ::
          |opening[i]| == NUMBER_OF_NODES
          && ((forall x | x in opening[i] :: x == -1 || x == 0) || (forall x | x in opening[i] :: x == -1 || x == 1)))
    && (forall i | NUMBER_OF_HONEST_NODES <= i < NUMBER_OF_NODES ::
          opening[i] == Uniform(-1) || opening[i] == Uniform(0) || opening[i] == Uniform(1))
  }

  function Below(n: nat): (r: set<nat>)
    ensures |r| == n && forall i: nat :: i in r <==> i < n
  {
    if n == 0 then {} else Below(n - 1) + {n - 1}
  }

  function OpeningVotes(opening: seq<Vector>, n: nat): (votes: map<(nat, nat), Vector>)
    requires n <= |opening|
    ensures forall i: nat, q: nat :: (i, q) in votes <==> i < n && q == 0
    ensures forall i: nat | i < n :: votes[(i, 0)] == opening[i]
  {
    if n == 0 then map[] else OpeningVotes(opening, n - 1)[(n - 1, 0) := opening[n - 1]]
  }

  function AtRoundZero(n: nat): (nodes: map<nat, nat>)
    ensures forall i: nat :: i in nodes <==> i < n
    ensures forall i | i in nodes :: nodes[i] == 0
  {
    if n == 0 then map[] else AtRoundZero(n - 1)[n - 1 := 0]
  }

  function NoQuorums(n: nat): (quorums: map<nat, seq<nat>>)
    ensures forall i: nat :: i in quorums <==> i < n
    ensures forall i | i in quorums :: quorums[i] == []
  {
    if n == 0 then map[] else NoQuorums(n - 1)[n - 1 := []]
  }

  function Start(opening: seq<Vector>): Simulation
    requires |opening| == NUMBER_OF_NODES
  {
    Simulation(
      OpeningVotes(opening, NUMBER_OF_NODES),
      AtRoundZero(NUMBER_OF_NODES),
      NoQuorums(NUMBER_OF_HONEST_NODES),
      NoQuorums(NUMBER_OF_HONEST_NODES),
      map[],
      [])
  }

  lemma OpeningConsistent(opening: seq<Vector>, i: nat)
    requires IsOpening(opening) && i < NUMBER_OF_NODES
    ensures Consistent(opening[i])
  {
    assert i < NUMBER_OF_HONEST_NODES || forall x | x in opening[i] :: x == opening[i][0];
  }

  lemma StartVotes(opening: seq<Vector>)
    requires IsOpening(opening)
    ensures VotesOk(Start(opening))
  {
    hide Consistent, OpeningVotes, AtRoundZero, NoQuorums;
    var s := Start(opening);
    forall key | key in s.votes ensures Consistent(s.votes[key]) && |s.votes[key]| == NUMBER_OF_NODES {
      OpeningConsistent(opening, key.0);
      ConsistentLength(s.votes[key]);
    }
  }

  lemma ConsistentLength(v: Vector)
    requires Consistent(v)
    ensures |v| == NUMBER_OF_NODES
  {}

  lemma StartInv(opening: seq<Vector>)
    requires IsOpening(opening)
    ensures Inv(Start(opening), 0, 0)
  {
    hide Consistent, OpeningVotes, AtRoundZero, NoQuorums, Holders;
    StartVotes(opening);
  }

  ghost predicate AreSchedules(schedule: seq<seq<int>>) {
    forall choices | choices in schedule :: AreChoices(choices)
  }

  // The state at the top of the loop after one iteration per entry.
  ghost function LoopTop(opening: seq<Vector>, schedule: seq<seq<int>>): (s: Simulation)
    requires IsOpening(opening) && AreSchedules(schedule)
    ensures Inv(s, |schedule|, 0)
  {
    if schedule == [] then
      StartInv(opening);
      Start(opening)
    else
      var n := |schedule| - 1;
      Iteration(LoopTop(opening, schedule[..n]), schedule[n], n)
  }

  // The state after some of the passes of a schedule.
  ghost function TopAfter(opening: seq<Vector>, schedule: seq<seq<int>>, n: nat): (s: Simulation)
    requires IsOpening(opening) && AreSchedules(schedule) && n <= |schedule|
    ensures Inv(s, n, 0) && Wired(s)
    ensures n == 0 ==> s == Start(opening)
    ensures n == |schedule| ==> s == LoopTop(opening, schedule)
  {
    hide Inv, Iteration;
    assert schedule[..|schedule|] == schedule;
    LoopTop(opening, schedule[..n])
  }

  // In the pass that follows, the state after the turns of the first t nodes.
  ghost function During(opening: seq<Vector>, schedule: seq<seq<int>>, n: nat, t: nat): (s: Simulation)
    requires IsOpening(opening) && AreSchedules(schedule) && n <= |schedule| && t <= NUMBER_OF_HONEST_NODES
    ensures Inv(s, n, t) && Wired(s)
  {
    TurnsKeep(TopAfter(opening, schedule, n), t, n);
    Turns(TopAfter(opening, schedule, n), t)
  }

  // The honest turns of this pass leave every honest node decided.
  ghost predicate ConcludesAfter(opening: seq<Vector>, schedule: seq<seq<int>>, n: nat)
    requires IsOpening(opening) && AreSchedules(schedule) && n <= |schedule|
  {
    |During(opening, schedule, n, NUMBER_OF_HONEST_NODES).decided| == NUMBER_OF_HONEST_NODES
  }

  // The pass in which the instance ends.
  ghost predicate FirstConclusion(opening: seq<Vector>, schedule: seq<seq<int>>, n: nat)
    requires IsOpening(opening) && AreSchedules(schedule) && n <= |schedule|
  {
    ConcludesAfter(opening, schedule, n) && forall k: nat | k < n :: !ConcludesAfter(opening, schedule, k)
  }

  // Over a longer schedule, what was delivered is still there, unchanged.
  lemma {:induction false} DeliveredStays(opening: seq<Vector>, schedule: seq<seq<int>>, n: nat)
    requires IsOpening(opening) && AreSchedules(schedule) && n <= |schedule|
    ensures Extends(LoopTop(opening, schedule[..n]).votes, LoopTop(opening, schedule).votes)
    decreases |schedule| - n
  {
    hide Iteration, Inv, Extends;
    if n == |schedule| {
      assert schedule[..n] == schedule;
      ExtendsReflexive(LoopTop(opening, schedule).votes);
    } else {
      var next := schedule[..n + 1];
      assert next[..|next| - 1] == schedule[..n];
      var before := LoopTop(opening, schedule[..n]);
      assert LoopTop(opening, next) == Iteration(before, schedule[n], n);
      DeliveredStays(opening, schedule, n + 1);
      ExtendsTransitive(before.votes, LoopTop(opening, next).votes, LoopTop(opening, schedule).votes);
    }
  }

  // ----- Quorum exclusion ----------------------------------------------------------

  // No two honest nodes record quorums of both values for one round.
  lemma QuorumExclusion(s: Simulation, k: nat, t: nat, i: nat, j: nat, r: nat)
    requires Inv(s, k, t) && i < NUMBER_OF_HONEST_NODES && j < NUMBER_OF_HONEST_NODES
    ensures !(r in s.oneQuorum[i] && r in s.zeroQuorum[j])
  {
    hide DecidedOk, Paced, VotesOk, Below, Holders;
    HoldersDisjoint(s, r);
    SubsetSize(Holders(s.votes, r, 0) + Holders(s.votes, r, 1), Below(NUMBER_OF_NODES));
    assert Backed(s, s.oneQuorum[i], 1) && Backed(s, s.zeroQuorum[j], 0);
  }

  lemma HoldersDisjoint(s: Simulation, r: nat)
    requires VotesOk(s)
    ensures Holders(s.votes, r, 0) !! Holders(s.votes, r, 1)
    ensures Holders(s.votes, r, 0) + Holders(s.votes, r, 1) <= Below(NUMBER_OF_NODES)
  {
    forall x | x in Holders(s.votes, r, 1) ensures x !in Holders(s.votes, r, 0) {
      assert Consistent(s.votes[(x, r)]);
    }
  }

  // Opposite decisions are never taken in the same round or in adjacent ones.
  lemma OppositeDecisionsApart(s: Simulation, k: nat, t: nat, i: nat, p: nat, j: nat, q: nat)
    requires Inv(s, k, t) && i < NUMBER_OF_HONEST_NODES && j < NUMBER_OF_HONEST_NODES
    requires Decision(s, i, 1, p) && Decision(s, j, 0, q)
    ensures p > q + 1 || q > p + 1
  {
    hide VotesOk, QuorumsOk, DecidedOk, Paced;
    QuorumExclusion(s, k, t, i, j, p);
    QuorumExclusion(s, k, t, i, j, p - 1);
    QuorumExclusion(s, k, t, i, j, q);
    QuorumExclusion(s, k, t, i, j, q - 1);
  }

  // At no point of any run are both kinds of quorum recorded for one round, nor
  // opposite decisions taken in the same round or in adjacent ones.
  lemma ExclusionAlways(opening: seq<Vector>, schedule: seq<seq<int>>, n: nat, t: nat, i: nat, j: nat)
    requires IsOpening(opening) && AreSchedules(schedule) && n <= |schedule| && t <= NUMBER_OF_HONEST_NODES
    requires i < NUMBER_OF_HONEST_NODES && j < NUMBER_OF_HONEST_NODES
    ensures var s := During(opening, schedule, n, t);
      && (forall r | r in s.oneQuorum[i] :: r !in s.zeroQuorum[j])
      && (forall p: nat, q: nat | Decision(s, i, 1, p) && Decision(s, j, 0, q) :: p > q + 1 || q > p + 1)
  {
    var s := During(opening, schedule, n, t);
    hide Inv, Decision, During;
    forall r | r in s.oneQuorum[i] ensures r !in s.zeroQuorum[j] {
      QuorumExclusion(s, n, t, i, j, r);
    }
    forall p: nat, q: nat | Decision(s, i, 1, p) && Decision(s, j, 0, q) ensures p > q + 1 || q > p + 1 {
      OppositeDecisionsApart(s, n, t, i, p, j, q);
    }
  }

  // ----- Validity of Zero -------------------------------------------------------------

  // No honest node has ever said 1, recorded a quorum of ones, or decided 1.
  ghost predicate NoHonestOne(s: Simulation) {
    && (forall key | key in s.votes && key.0 < NUMBER_OF_HONEST_NODES :: 1 !in s.votes[key])
    && (forall i: nat | i < NUMBER_OF_HONEST_NODES && i in s.oneQuorum :: s.oneQuorum[i] == [])
    && (forall i | i in s.decided :: s.decided[i] != 1)
  }

  lemma FewOnes(s: Simulation, i: nat, r: nat)
    requires Wired(s) && NoHonestOne(s) && i < NUMBER_OF_HONEST_NODES
    ensures Count(s, i, r, 1, NUMBER_OF_NODES) < QUORUM
  {
    CountIsBacked(s, i, r, 1);
    var byzantine := Below(NUMBER_OF_NODES) - Below(NUMBER_OF_HONEST_NODES);
    SubsetSize(Below(NUMBER_OF_HONEST_NODES), Below(NUMBER_OF_NODES));
    assert |byzantine| == NUMBER_OF_BYZANTINE_NODES;
    SubsetSize(Holders(s.votes, r, 1), byzantine);
  }

  lemma TurnKeepsZero(s: Simulation, i: nat, k: nat)
    requires Inv(s, k, i) && NoHonestOne(s) && i < NUMBER_OF_HONEST_NODES
    ensures NoHonestOne(Turn(s, i))
  {
    hide VotesOk, QuorumsOk, Paced, Advance, Count;
    var r := s.nodes[i];
    var zeros, ones := Count(s, i, r, 0, NUMBER_OF_NODES), Count(s, i, r, 1, NUMBER_OF_NODES);
    FewOnes(s, i, r);
    AdvanceVotes(s, i, r, zeros, ones);
    AdvanceRecords(s, i, r, zeros, ones);
    assert 1 !in Uniform(0);
  }

  lemma {:induction false} TurnsKeepZero(s: Simulation, n: nat, k: nat)
    requires Inv(s, k, 0) && NoHonestOne(s) && n <= NUMBER_OF_HONEST_NODES
    ensures NoHonestOne(Turns(s, n))
  {
    hide VotesOk, QuorumsOk, DecidedOk, Paced, Turn, NoHonestOne;
    if n > 0 {
      TurnsKeepZero(s, n - 1, k);
      TurnsKeep(s, n - 1, k);
      TurnKeepsZero(Turns(s, n - 1), n - 1, k);
    }
  }

  lemma {:induction false} MisbehaviourKeepsZero(s: Simulation, choices: seq<int>, b: nat, k: nat)
    requires RoundingInv(s, k, 0) && b <= NUMBER_OF_BYZANTINE_NODES && AreChoices(choices) && NoHonestOne(s)
    ensures NoHonestOne(Misbehaviour(s, choices, b, k))
  {
    if b > 0 {
      hide RoundingInv, Extends, NoHonestOne, Misbehave;
      var before := Misbehaviour(s, choices, b - 1, k);
      MisbehaviourKeepsZero(s, choices, b - 1, k);
      MisbehaveKeeps(before, b - 1, choices[b - 1], k);
      MisbehaveKeepsZero(before, b - 1, choices[b - 1]);
    }
  }

  lemma MisbehaveKeepsZero(s: Simulation, b: nat, choice: int)
    requires Wired(s) && b < NUMBER_OF_BYZANTINE_NODES && VotePresent(s, NUMBER_OF_HONEST_NODES + b)
    requires NoHonestOne(s)
    ensures NoHonestOne(Misbehave(s, b, choice))
  {
    hide Uniform;
  }

  // If no honest opening vote is a 1, no honest node ever votes or decides 1.
  lemma {:induction false} ZeroValidity(opening: seq<Vector>, schedule: seq<seq<int>>)
    requires IsOpening(opening) && AreSchedules(schedule)
    requires forall i | 0 <= i < NUMBER_OF_HONEST_NODES :: 1 !in opening[i]
    ensures NoHonestOne(LoopTop(opening, schedule))
  {
    if schedule != [] {
      hide Inv, NoHonestOne, Misbehaviour;
      var n := |schedule| - 1;
      var before := LoopTop(opening, schedule[..n]);
      ZeroValidity(opening, schedule[..n]);
      IterationKeepsZero(before, schedule[n], n);
    }
  }

  lemma IterationKeepsZero(s: Simulation, choices: seq<int>, k: nat)
    requires Inv(s, k, 0) && AreChoices(choices) && NoHonestOne(s)
    ensures NoHonestOne(Iteration(s, choices, k))
  {
    hide VotesOk, QuorumsOk, DecidedOk, Misbehaviour, NoHonestOne, Turns;
    TurnsKeep(s, NUMBER_OF_HONEST_NODES, k);
    TurnsKeepZero(s, NUMBER_OF_HONEST_NODES, k);
    MisbehaviourKeepsZero(Turns(s, NUMBER_OF_HONEST_NODES), choices, NUMBER_OF_BYZANTINE_NODES, k);
  }

  // The same at every point of a run.
  lemma ZeroValidityAlways(opening: seq<Vector>, schedule: seq<seq<int>>, n: nat, t: nat)
    requires IsOpening(opening) && AreSchedules(schedule) && n <= |schedule| && t <= NUMBER_OF_HONEST_NODES
    requires forall i | 0 <= i < NUMBER_OF_HONEST_NODES :: 1 !in opening[i]
    ensures NoHonestOne(During(opening, schedule, n, t))
  {
    hide Inv, NoHonestOne, Turns;
    ZeroValidity(opening, schedule[..n]);
    TurnsKeepZero(TopAfter(opening, schedule, n), t, n);
  }
}
