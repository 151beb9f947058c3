/** What the opening votes decide: exactly when the simulator's decisions must agree. */
module Openings {
  import opened Rounds
  import opened Laggards

  // ----- What a node hears at the start -------------------------------------------

  predicate Sized(opening: seq<Vector>) {
    |opening| == NUMBER_OF_NODES && forall j | 0 <= j < NUMBER_OF_NODES :: |opening[j]| == NUMBER_OF_NODES
  }

  // How many of the first n senders have told node i the value at the start.
  function Told(opening: seq<Vector>, i: nat, value: int, n: nat): nat
    requires Sized(opening) && i < NUMBER_OF_NODES && n <= NUMBER_OF_NODES
  {
    if n == 0 then 0
    else Told(opening, i, value, n - 1) + if opening[n - 1][i] == value then 1 else 0
  }

  function Ones(opening: seq<Vector>, i: nat): nat
    requires Sized(opening) && i < NUMBER_OF_NODES
  {
    Told(opening, i, 1, NUMBER_OF_NODES)
  }

  function Heard(opening: seq<Vector>, i: nat): nat
    requires Sized(opening) && i < NUMBER_OF_NODES
  {
    Told(opening, i, 0, NUMBER_OF_NODES) + Ones(opening, i)
  }

  lemma OpeningSized(opening: seq<Vector>)
    requires IsOpening(opening)
    ensures Sized(opening)
  {}

  // Node 2 alone does not hear a quorum in the first pass, and a node ahead of
  // it hears a quorum of ones.
  predicate MayDisagree(opening: seq<Vector>)
    requires IsOpening(opening)
  {
    OpeningSized(opening);
    && Heard(opening, 0) >= QUORUM
    && Heard(opening, 1) >= QUORUM
    && Heard(opening, 2) < QUORUM
    && (Ones(opening, 0) >= QUORUM || Ones(opening, 1) >= QUORUM)
  }

  // ----- The first pass ---------------------------------------------------------------

  function FirstVote(opening: seq<Vector>, i: nat): int
    requires Sized(opening) && i < NUMBER_OF_NODES
  {
    if Ones(opening, i) >= QUORUM then 1 else 0
  }

  // The votes of the first t nodes to leave round 0, on what they heard at the start.
  ghost predicate EarlyVotes(votes: map<(nat, nat), Vector>, opening: seq<Vector>, t: nat)
    requires Sized(opening) && t <= NUMBER_OF_HONEST_NODES
  {
    && (forall j: nat | j < NUMBER_OF_NODES :: (j, 0) in votes && votes[(j, 0)] == opening[j])
    && (forall i: nat | i < t :: (i, 1) in votes && votes[(i, 1)] == Uniform(FirstVote(opening, i)))
    && (forall key | key in votes :: key.0 < NUMBER_OF_NODES && (key.1 == 0 || (key.1 == 1 && key.0 < t)))
  }

  // The first t nodes have left round 0.
  ghost predicate Early(s: Simulation, opening: seq<Vector>, t: nat) {
    && Sized(opening) && t <= NUMBER_OF_HONEST_NODES
    && Wired(s) && s.excluded == [] && s.decided == map[]
    && (forall i: nat | i < NUMBER_OF_NODES :: s.nodes[i] == if i < t then 1 else 0)
    && EarlyVotes(s.votes, opening, t)
    && (forall i: nat | t <= i < NUMBER_OF_HONEST_NODES :: s.zeroQuorum[i] == [] && s.oneQuorum[i] == [])
  }

  lemma StartEarly(opening: seq<Vector>)
    requires IsOpening(opening)
    ensures Early(Start(opening), opening, 0)
  {
    StartInv(opening);
    hide VotesOk, QuorumsOk, DecidedOk, OpeningVotes, AtRoundZero, NoQuorums;
  }

  lemma {:induction false} EarlyCount(s: Simulation, opening: seq<Vector>, t: nat, i: nat, value: int, n: nat)
    requires Early(s, opening, t) && i < NUMBER_OF_NODES && n <= NUMBER_OF_NODES
    ensures Count(s, i, 0, value, n) == Told(opening, i, value, n)
  {
    if n > 0 {
      EarlyCount(s, opening, t, i, value, n - 1);
    }
  }

  lemma EarlyVotesMore(votes: map<(nat, nat), Vector>, opening: seq<Vector>, t: nat)
    requires Sized(opening) && t < NUMBER_OF_HONEST_NODES && EarlyVotes(votes, opening, t)
    ensures EarlyVotes(votes[(t, 1) := Uniform(FirstVote(opening, t))], opening, t + 1)
  {
    hide FirstVote, Uniform;
  }

  lemma EarlyAdvance(s: Simulation, opening: seq<Vector>, t: nat, zeros: nat)
    requires Early(s, opening, t) && t < NUMBER_OF_HONEST_NODES
    ensures Early(Advance(s, t, 0, zeros, Ones(opening, t)), opening, t + 1)
  {
    hide Told, Ones, Advance, Uniform, EarlyVotes;
    var ones := Ones(opening, t);
    AdvanceVotes(s, t, 0, zeros, ones);
    AdvanceRecords(s, t, 0, zeros, ones);
    EarlyVotesMore(s.votes, opening, t);
  }

  lemma EarlyTurn(s: Simulation, opening: seq<Vector>, t: nat)
    requires Early(s, opening, t) && t < NUMBER_OF_HONEST_NODES
    ensures if Heard(opening, t) >= QUORUM then Early(Turn(s, t), opening, t + 1) else Turn(s, t) == Receive(s, 0)
  {
    EarlyCount(s, opening, t, t, 0, NUMBER_OF_NODES);
    EarlyCount(s, opening, t, t, 1, NUMBER_OF_NODES);
    EarlyAdvance(s, opening, t, Told(opening, t, 0, NUMBER_OF_NODES));
    assert s.nodes[t] == 0;
    hide Early, Told, Count, Advance, Receive;
  }

  lemma UniformIsPlain(value: int)
    ensures Plain(Uniform(value)) && Uniform(value)[0] == value
  {}

  lemma EarlyPlain(s: Simulation, opening: seq<Vector>, t: nat)
    requires IsOpening(opening) && Early(s, opening, t)
    ensures PlainFrom(s.votes, 1)
  {
    hide Told, Uniform, Plain;
    forall key: (nat, nat) {:trigger s.votes[key]} | key in s.votes && (key.1 >= 1 || key.0 >= NUMBER_OF_HONEST_NODES)
      ensures Plain(s.votes[key]) && (key.0 < NUMBER_OF_HONEST_NODES ==> s.votes[key][0] != -1)
    {
      if key.1 == 0 {
        assert s.votes[key] == opening[3];
      } else {
        assert s.votes[key] == Uniform(FirstVote(opening, key.0));
      }
      UniformIsPlain(-1);
      UniformIsPlain(0);
      UniformIsPlain(1);
    }
  }

  // Once the delayed votes have arrived, round 0 is plain.
  lemma ReceivedPlain(s: Simulation, opening: seq<Vector>, t: nat)
    requires IsOpening(opening) && Early(s, opening, t)
    ensures PlainFrom(Receive(s, 0).votes, 0)
  {
    var after := Receive(s, 0);
    EarlyPlain(s, opening, t);
    hide Told, Uniform, Plain, Filled;
    forall key: (nat, nat) {:trigger after.votes[key]} | key in after.votes
      ensures Plain(after.votes[key]) && (key.0 < NUMBER_OF_HONEST_NODES ==> after.votes[key][0] != -1)
    {
      if key.1 == 0 && key.0 < NUMBER_OF_HONEST_NODES {
        assert s.votes[key] == opening[key.0];
        OpeningFills(opening[key.0]);
      } else {
        assert after.votes[key] == s.votes[key];
      }
    }
  }

  lemma OpeningFills(v: Vector)
    requires |v| == NUMBER_OF_NODES
    requires (forall x | x in v :: x == -1 || x == 0) || (forall x | x in v :: x == -1 || x == 1)
    ensures Plain(Filled(v)) && Filled(v)[0] != -1
    ensures Filled(v) == Uniform(if 1 in v then 1 else 0)
  {
    assert forall x | 0 <= x < |v| :: v[x] in v;
  }

  lemma NodeZeroWaits(s: Simulation, opening: seq<Vector>)
    requires IsOpening(opening) && Early(s, opening, 0)
    ensures InStep(Receive(s, 0), 1, 0)
  {
    ReceivedPlain(s, opening, 0);
    hide PlainFrom, Holders;
  }

  lemma NodeOneWaits(s: Simulation, opening: seq<Vector>)
    requires IsOpening(opening) && Early(s, opening, 1)
    ensures OneBehind(Receive(s, 0), 2)
  {
    ReceivedPlain(s, opening, 1);
    var after := Receive(s, 0);
    hide PlainFrom, Holders;
    assert forall i: nat, r: nat | r > 1 :: (i, r) !in after.votes;
    assert LockBinds(after, 1) && LockBinds(after, 2);
  }

  lemma NodeTwoWaits(s: Simulation, opening: seq<Vector>)
    requires IsOpening(opening) && Early(s, opening, 2)
    requires Ones(opening, 0) < QUORUM && Ones(opening, 1) < QUORUM
    ensures OnesOver(Receive(s, 0))
  {
    var after := Receive(s, 0);
    assert Wired(after) && after.nodes[0] > 0 && after.nodes[1] > 0;
    forall i: nat, r: nat | r > 0 && (i, r) in s.votes ensures !Says(after.votes, i, r, 1) {
      SaidEarly(s, opening, i, r);
    }
  }

  lemma SaidEarly(s: Simulation, opening: seq<Vector>, i: nat, r: nat)
    requires Early(s, opening, 2) && (i, r) in s.votes && r > 0
    requires Ones(opening, 0) < QUORUM && Ones(opening, 1) < QUORUM
    ensures 1 !in Receive(s, 0).votes[(i, r)]
  {
    hide Told, Filled;
    assert i == 0 || i == 1;
    assert Receive(s, 0).votes[(i, r)] == s.votes[(i, r)] == Uniform(0);
    assert 1 !in Uniform(0);
  }

  lemma NobodyWaits(s: Simulation, opening: seq<Vector>)
    requires IsOpening(opening) && Early(s, opening, 3)
    ensures InStep(s, 3, 1)
  {
    EarlyPlain(s, opening, 3);
    hide Told, Holders, PlainFrom;
  }

  lemma StartBase(opening: seq<Vector>)
    requires IsOpening(opening)
    ensures Base(Start(opening), 0, 0)
  {
    StartInv(opening);
    StartEarly(opening);
    hide VotesOk, QuorumsOk, DecidedOk, Paced, Start, Told;
  }

  lemma BaseWired(s: Simulation, k: nat, t: nat)
    requires Base(s, k, t)
    ensures Wired(s)
  {}

  lemma EarlyWired(s: Simulation, opening: seq<Vector>, t: nat)
    requires Early(s, opening, t)
    ensures Wired(s)
  {}

  // The fate of the run after the last honest turn of the first pass.
  lemma LateFate(a: Simulation, opening: seq<Vector>)
    requires IsOpening(opening) && Early(a, opening, 2) && !MayDisagree(opening)
    requires Heard(opening, 0) >= QUORUM && Heard(opening, 1) >= QUORUM
    ensures Fate(Turn(a, 2), 3)
  {
    hide Early, InStep, OneBehind, OnesOver, Turn, Heard, Ones, Receive, IsOpening, Wired, Sized;
    OpeningSized(opening);
    EarlyWired(a, opening, 2);
    EarlyTurn(a, opening, 2);
    if Heard(opening, 2) < QUORUM {
      NodeTwoWaits(a, opening);
    } else {
      NobodyWaits(Turn(a, 2), opening);
    }
  }

  lemma MiddleFate(a: Simulation, opening: seq<Vector>)
    requires IsOpening(opening) && Early(a, opening, 1) && !MayDisagree(opening) && Base(a, 0, 1)
    requires Heard(opening, 0) >= QUORUM
    ensures Fate(Turn(Turn(a, 1), 2), 3)
  {
    hide Base, Early, InStep, OneBehind, OnesOver, Turn, Heard, Ones, Receive, IsOpening, Wired, Sized, MayDisagree;
    OpeningSized(opening);
    EarlyWired(a, opening, 1);
    EarlyTurn(a, opening, 1);
    if Heard(opening, 1) < QUORUM {
      NodeOneWaits(a, opening);
      TurnKeepsBase(a, 1, 0);
      FateTurn(Turn(a, 1), 2, 0);
    } else {
      LateFate(Turn(a, 1), opening);
    }
  }

  lemma ThreeBase(s: Simulation)
    requires Wired(s) && Base(s, 0, 0)
    ensures Base(Turn(s, 0), 0, 1) && Base(Turn(Turn(s, 0), 1), 0, 2) && Base(Turn(Turn(Turn(s, 0), 1), 2), 0, 3)
  {
    hide Base, Turn, Wired;
    TurnKeepsBase(s, 0, 0);
    TurnKeepsBase(Turn(s, 0), 1, 0);
    TurnKeepsBase(Turn(Turn(s, 0), 1), 2, 0);
  }

  lemma EarliestFate(s: Simulation, opening: seq<Vector>)
    requires IsOpening(opening) && Early(s, opening, 0) && Sized(opening) && Heard(opening, 0) < QUORUM
    requires Wired(s) && Base(s, 0, 0)
    ensures Fate(Turn(Turn(Turn(s, 0), 1), 2), 3)
  {
    hide Base, Early, InStep, OneBehind, OnesOver, Turn, Heard, Receive, IsOpening, Wired, Sized;
    ThreeBase(s);
    EarlyTurn(s, opening, 0);
    NodeZeroWaits(s, opening);
    FateTurn(Turn(s, 0), 1, 0);
    FateTurn(Turn(Turn(s, 0), 1), 2, 0);
  }

  // The base and the fate after the honest turns of the first pass.
  lemma FirstPass(s: Simulation, opening: seq<Vector>)
    requires IsOpening(opening) && !MayDisagree(opening)
    requires Wired(s) && Base(s, 0, 0) && Early(s, opening, 0)
    ensures Base(Turns(s, 3), 0, 3) && Fate(Turns(s, 3), 3)
  {
    hide Base, Early, Fate, Turn, Turns, Heard, IsOpening, Wired, Sized, MayDisagree;
    OpeningSized(opening);
    ThreeBase(s);
    ThreeTurns(s);
    if Heard(opening, 0) < QUORUM {
      EarliestFate(s, opening);
    } else {
      EarlyTurn(s, opening, 0);
      MiddleFate(Turn(s, 0), opening);
    }
  }

  // ----- Every pass after it --------------------------------------------------------------

  lemma {:induction false} TurnsFate(s: Simulation, k: nat, n: nat)
    requires Base(s, k, 0) && Fate(s, 0) && n <= NUMBER_OF_HONEST_NODES
    ensures Base(Turns(s, n), k, n) && Fate(Turns(s, n), n)
  {
    hide Base, Fate, Wired, Turn;
    BaseWired(s, k, 0);
    if n > 0 {
      TurnsFate(s, k, n - 1);
      TurnKeepsBase(Turns(s, n - 1), n - 1, k);
      FateTurn(Turns(s, n - 1), n - 1, k);
    }
  }

  lemma PassEnds(s: Simulation, k: nat)
    requires Base(s, k, 3)
    ensures RoundingBase(s, k, 0)
  {
    hide VotesOk, QuorumsOk, DecidedOk, OnesGrounded, QuorumsPast;
  }

  lemma PassBegins(s: Simulation, k: nat)
    requires RoundingBase(s, k, 1)
    ensures Base(s, k + 1, 0)
  {
    hide VotesOk, QuorumsOk, DecidedOk, OnesGrounded, QuorumsPast;
  }

  lemma RoundingOf(s: Simulation, k: nat, b: nat)
    requires RoundingBase(s, k, b)
    ensures RoundingInv(s, k, b)
  {}

  lemma MisbehaveFate(middle: Simulation, choice: int, k: nat)
    requires Base(middle, k, 3) && Fate(middle, 3) && IsChoice(choice)
    ensures Wired(middle) && VotePresent(middle, NUMBER_OF_HONEST_NODES)
    ensures Base(Misbehave(middle, 0, choice), k + 1, 0) && Fate(Misbehave(middle, 0, choice), 0)
  {
    BaseWired(middle, k, 3);
    hide Base, Fate, RoundingBase, RoundingInv, VotePresent, Wired, Misbehave;
    PassEnds(middle, k);
    RoundingOf(middle, k, 0);
    MisbehaveKeepsBase(middle, choice, k);
    FateMisbehave(middle, choice, k);
    PassBegins(Misbehave(middle, 0, choice), k);
  }

  // From the honest turns of one pass to the top of the next.
  lemma NextTop(s: Simulation, choices: seq<int>, k: nat)
    requires Inv(s, k, 0) && AreChoices(choices)
    requires Base(Turns(s, 3), k, 3) && Fate(Turns(s, 3), 3)
    ensures Base(Iteration(s, choices, k), k + 1, 0) && Fate(Iteration(s, choices, k), 0)
    ensures Iteration(s, choices, k).decided == Turns(s, 3).decided
  {
    assert Wired(s) && IsChoice(choices[0]);
    hide Inv, VotePresent, Wired, Misbehave, IsChoice, Turns, Iteration, Base, Fate, AreChoices;
    IterationEnds(s, choices, k);
    MisbehaveFate(Turns(s, 3), choices[0], k);
  }

  ghost predicate Misbehaves(middle: Simulation, choice: int, after: Simulation) {
    && Wired(middle) && VotePresent(middle, NUMBER_OF_HONEST_NODES)
    && after == Misbehave(middle, 0, choice) && after.decided == middle.decided
  }

  lemma IterationEnds(s: Simulation, choices: seq<int>, k: nat)
    requires Inv(s, k, 0) && AreChoices(choices)
    ensures Misbehaves(Turns(s, 3), choices[0], Iteration(s, choices, k))
  {
    hide VotesOk, QuorumsOk, DecidedOk, Turns, Misbehaviour;
    TurnsKeep(s, 3, k);
    assert RoundingInv(Turns(s, 3), k, 0);
    OneMisbehaves(Turns(s, 3), choices, k);
  }

  lemma {:induction false} TurnsHaveFate(opening: seq<Vector>, schedule: seq<seq<int>>)
    requires IsOpening(opening) && AreSchedules(schedule) && !MayDisagree(opening)
    ensures Base(Turns(LoopTop(opening, schedule), 3), |schedule|, 3) && Fate(Turns(LoopTop(opening, schedule), 3), 3)
  {
    if schedule == [] {
      StartBase(opening);
      StartEarly(opening);
      BaseWired(Start(opening), 0, 0);
      hide Inv, Base, Fate, Turns, IsOpening, MayDisagree, Sized, Early, Wired, Start;
      FirstPass(Start(opening), opening);
    } else {
      var n := |schedule| - 1;
      TurnsHaveFate(opening, schedule[..n]);
      hide Inv, Base, Fate, Iteration, Turns, IsOpening, MayDisagree, Sized;
      NextTop(LoopTop(opening, schedule[..n]), schedule[n], n);
      TurnsFate(LoopTop(opening, schedule), n + 1, 3);
    }
  }

  // Unless node 2 alone waits behind a quorum of ones, all decisions agree, in
  // every pass of every run.
  lemma DecisionsAgree(opening: seq<Vector>, schedule: seq<seq<int>>, n: nat)
    requires IsOpening(opening) && !MayDisagree(opening)
    requires AreSchedules(schedule) && n <= |schedule|
    ensures Agree(During(opening, schedule, n, NUMBER_OF_HONEST_NODES).decided)
  {
    hide VotesOk, QuorumsOk, DecidedOk, Paced, Base, Fate, Turns, Agree, LoopTop, MayDisagree, IsOpening, Sized;
    TurnsHaveFate(opening, schedule[..n]);
    AgreeOf(Turns(LoopTop(opening, schedule[..n]), 3), n);
  }

  lemma AgreeOf(s: Simulation, k: nat)
    requires Base(s, k, 3) && Fate(s, 3)
    ensures Agree(s.decided)
  {
    FateAgrees(s, k, 3);
  }
}
