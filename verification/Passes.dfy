/** What each turn and each pass of the simulator does, entry by entry. */
module Passes {
  import opened Basics
  import opened Rounds
  import opened Laggards
  import opened Openings

  // The senders a node has heard say a value in a round.
  function Telling(s: Simulation, i: nat, r: nat, value: int): set<nat>
    requires Wired(s) && i < NUMBER_OF_NODES
  {
    set j: nat | j < NUMBER_OF_NODES && (j, r) in s.votes && s.votes[(j, r)][i] == value
  }

  lemma {:induction false} CountIsTelling(s: Simulation, i: nat, r: nat, value: int, n: nat)
    requires Wired(s) && s.excluded == [] && i < NUMBER_OF_NODES && n <= NUMBER_OF_NODES
    ensures Count(s, i, r, value, n) == |Part(Telling(s, i, r, value), n)|
  {
    hide Part, Wired;
    if n == 0 {
      EmptyPart(Telling(s, i, r, value));
    } else {
      CountIsTelling(s, i, r, value, n - 1);
      PartGrows(Telling(s, i, r, value), n - 1);
    }
  }

  lemma TellingCounts(s: Simulation, i: nat, r: nat, value: int)
    requires Wired(s) && s.excluded == [] && i < NUMBER_OF_NODES
    ensures Count(s, i, r, value, NUMBER_OF_NODES) == |Telling(s, i, r, value)|
  {
    CountIsTelling(s, i, r, value, NUMBER_OF_NODES);
    assert Part(Telling(s, i, r, value), NUMBER_OF_NODES) == Telling(s, i, r, value);
  }

  predicate Says4(v: Vector, value: int) {
    |v| == NUMBER_OF_NODES && forall x | 0 <= x < |v| :: v[x] == value
  }

  // A node that has heard a quorum of senders tells all the value it has decided,
  // or else 1 on a quorum of ones and 0 without.  Undecided it records a quorum of
  // one value, and decides it if it has recorded one in the round before.
  ghost predicate Advanced(s: Simulation, s': Simulation, i: nat)
    requires Wired(s) && Wired(s') && i < NUMBER_OF_HONEST_NODES
  {
    var r := s.nodes[i];
    var zero, one := |Telling(s, i, r, 0)| >= QUORUM, |Telling(s, i, r, 1)| >= QUORUM;
    && s'.nodes == s.nodes[i := r + 1]
    && s'.votes.Keys == s.votes.Keys + {(i, r + 1)}
    && Says4(s'.votes[(i, r + 1)], if i in s.decided then s.decided[i] else if one then 1 else 0)
    && (forall key | key in s.votes && key != (i, r + 1) :: s'.votes[key] == s.votes[key])
    && s'.oneQuorum == (if i !in s.decided && one then s.oneQuorum[i := s.oneQuorum[i] + [r]] else s.oneQuorum)
    && s'.zeroQuorum == (if i !in s.decided && zero then s.zeroQuorum[i := s.zeroQuorum[i] + [r]] else s.zeroQuorum)
    && s'.decided == (if i !in s.decided && one && r > 0 && r - 1 in s.oneQuorum[i] then s.decided[i := 1]
                      else if i !in s.decided && zero && r > 0 && r - 1 in s.zeroQuorum[i] then s.decided[i := 0]
                      else s.decided)
  }

  // One that has not heard a quorum receives what honest senders have delayed in
  // its round: each entry is 1 if the sender has told somebody 1, and else 0.
  ghost predicate Received(s: Simulation, s': Simulation, r: nat) {
    && s'.nodes == s.nodes && s'.decided == s.decided
    && s'.oneQuorum == s.oneQuorum && s'.zeroQuorum == s.zeroQuorum
    && s'.votes.Keys == s.votes.Keys
    && forall key: (nat, nat) | key in s.votes ::
         && |s'.votes[key]| == |s.votes[key]|
         && forall x | 0 <= x < |s.votes[key]| ::
              s'.votes[key][x] == if key.1 == r && key.0 < NUMBER_OF_HONEST_NODES && s.votes[key][x] == -1
                                  then (if 1 in s.votes[key] then 1 else 0) else s.votes[key][x]
  }

  lemma NotBoth(s: Simulation, i: nat, r: nat)
    requires Wired(s) && i < NUMBER_OF_NODES
    ensures |Telling(s, i, r, 0)| + |Telling(s, i, r, 1)| <= NUMBER_OF_NODES
  {
    var zeros, ones := Telling(s, i, r, 0), Telling(s, i, r, 1);
    assert zeros !! ones && zeros + ones <= Below(NUMBER_OF_NODES);
    hide Telling, Below;
    SubsetSize(zeros + ones, Below(NUMBER_OF_NODES));
  }

  lemma AdvanceAdvances(s: Simulation, i: nat)
    requires Wired(s) && i < NUMBER_OF_HONEST_NODES
    ensures var r := s.nodes[i];
      Advanced(s, Advance(s, i, r, |Telling(s, i, r, 0)|, |Telling(s, i, r, 1)|), i)
  {
    hide Advance, Telling;
    var r := s.nodes[i];
    var zeros, ones := |Telling(s, i, r, 0)|, |Telling(s, i, r, 1)|;
    NotBoth(s, i, r);
    AdvanceVotes(s, i, r, zeros, ones);
    AdvanceRecords(s, i, r, zeros, ones);
  }

  lemma TurnExactly(s: Simulation, i: nat)
    requires Wired(s) && s.excluded == [] && i < NUMBER_OF_HONEST_NODES
    ensures
      var r := s.nodes[i];
      if |Telling(s, i, r, 0)| + |Telling(s, i, r, 1)| >= QUORUM then Advanced(s, Turn(s, i), i)
      else Received(s, Turn(s, i), r)
  {
    hide Advance, Receive, Count, Telling, Advanced, Received;
    var r := s.nodes[i];
    TellingCounts(s, i, r, 0);
    TellingCounts(s, i, r, 1);
    AdvanceAdvances(s, i);
    ReceiveReceives(s, r);
  }

  lemma ReceiveReceives(s: Simulation, r: nat)
    requires Wired(s)
    ensures Received(s, Receive(s, r), r)
  {}

  // ----- Every turn and pass of every run ------------------------------------------

  // From one turn to the next.
  lemma TurnExactlyAlways(opening: seq<Vector>, schedule: seq<seq<int>>, n: nat, i: nat)
    requires IsOpening(opening) && AreSchedules(schedule) && n <= |schedule| && i < NUMBER_OF_HONEST_NODES
    ensures
      var s, s' := During(opening, schedule, n, i), During(opening, schedule, n, i + 1);
      var r := s.nodes[i];
      if |Telling(s, i, r, 0)| + |Telling(s, i, r, 1)| >= QUORUM then Advanced(s, s', i) else Received(s, s', r)
  {
    hide VotesOk, QuorumsOk, DecidedOk, Paced, Turn, Telling, Advanced, Received, Wired;
    TurnExactly(During(opening, schedule, n, i), i);
  }

  // From one pass to the next the byzantine node tells all its choice.
  ghost predicate ByzantineVoted(s: Simulation, s': Simulation, choice: int)
    requires Wired(s) && Wired(s')
  {
    var r := s.nodes[3] + 1;
    && s'.nodes == s.nodes[3 := r]
    && s'.votes.Keys == s.votes.Keys + {(3, r)} && Says4(s'.votes[(3, r)], choice)
    && (forall key | key in s.votes && key != (3, r) :: s'.votes[key] == s.votes[key])
    && s'.oneQuorum == s.oneQuorum && s'.zeroQuorum == s.zeroQuorum && s'.decided == s.decided
  }

  lemma PassExactlyAlways(opening: seq<Vector>, schedule: seq<seq<int>>, n: nat)
    requires IsOpening(opening) && AreSchedules(schedule) && n < |schedule|
    ensures schedule[n] != []
    ensures ByzantineVoted(During(opening, schedule, n, 3), TopAfter(opening, schedule, n + 1), schedule[n][0])
  {
    hide VotesOk, QuorumsOk, DecidedOk, Paced, Iteration, Turns;
    var next := schedule[..n + 1];
    assert next[..n] == schedule[..n] && AreChoices(schedule[n]);
    IterationEnds(TopAfter(opening, schedule, n), schedule[n], n);
    assert TopAfter(opening, schedule, n + 1) == Iteration(TopAfter(opening, schedule, n), schedule[n], n);
  }
}
