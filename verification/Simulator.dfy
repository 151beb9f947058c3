/** The simulator as a program: one object, updated in place through nested loops. */
module Simulator {
  import opened Basics
  import opened Rounds
  import opened Laggards
  import opened Openings

  class Instance {
    var votes: map<(nat, nat), Vector>
    var nodes: map<nat, nat>
    var zeroQuorum: map<nat, seq<nat>>
    var oneQuorum: map<nat, seq<nat>>
    var decided: map<nat, int>
    var excluded: seq<nat>

    function Contents(): Simulation
      reads this
    {
      Simulation(votes, nodes, zeroQuorum, oneQuorum, decided, excluded)
    }

    // An honest node's opening vote: its value where delivered, -1 elsewhere.
    static method HonestOpening(value: int, delivered: seq<bool>) returns (v: Vector)
      requires |delivered| == NUMBER_OF_NODES
      ensures IsHonestOpening(v, value, delivered)
    {
      v := [];
      for x := 0 to NUMBER_OF_NODES
        invariant |v| == x
        invariant forall y | 0 <= y < x :: v[y] == if delivered[y] then value else -1
      {
        v := v + [if delivered[x] then value else -1];
      }
    }

    // A byzantine vector: one choice for every receiver.
    static method ByzantineVector(choice: int) returns (v: Vector)
      ensures v == Uniform(choice)
    {
      v := [];
      for x := 0 to NUMBER_OF_NODES
        invariant |v| == x
        invariant forall y | 0 <= y < x :: v[y] == choice
      {
        v := v + [choice];
      }
    }

    static method DrawOpening(honest: seq<int>, delivered: seq<seq<bool>>, byzantine: seq<int>)
      returns (opening: seq<Vector>)
      requires |honest| == |delivered| == NUMBER_OF_HONEST_NODES && |byzantine| == NUMBER_OF_BYZANTINE_NODES
      requires forall i | 0 <= i < |honest| :: (honest[i] == 0 || honest[i] == 1) && |delivered[i]| == NUMBER_OF_NODES
      requires forall b | 0 <= b < |byzantine| :: IsChoice(byzantine[b])
      ensures IsOpening(opening)
      ensures forall i, x | 0 <= i < NUMBER_OF_HONEST_NODES && 0 <= x < NUMBER_OF_NODES ::
        opening[i][x] == if delivered[i][x] then honest[i] else -1
      ensures forall b | 0 <= b < NUMBER_OF_BYZANTINE_NODES :: opening[NUMBER_OF_HONEST_NODES + b] == Uniform(byzantine[b])
    {
      opening := [];
      for i := 0 to NUMBER_OF_HONEST_NODES
        invariant |opening| == i
        invariant forall j | 0 <= j < i :: IsHonestOpening(opening[j], honest[j], delivered[j])
      {
        var v := HonestOpening(honest[i], delivered[i]);
        opening := opening + [v];
      }
      for b := 0 to NUMBER_OF_BYZANTINE_NODES
        invariant |opening| == NUMBER_OF_HONEST_NODES + b
        invariant forall j | 0 <= j < NUMBER_OF_HONEST_NODES :: IsHonestOpening(opening[j], honest[j], delivered[j])
        invariant forall c | 0 <= c < b :: opening[NUMBER_OF_HONEST_NODES + c] == Uniform(byzantine[c])
      {
        var v := ByzantineVector(byzantine[b]);
        opening := opening + [v];
      }
      forall i | NUMBER_OF_HONEST_NODES <= i < NUMBER_OF_NODES
        ensures opening[i] == Uniform(-1) || opening[i] == Uniform(0) || opening[i] == Uniform(1)
      {
        var b := i - NUMBER_OF_HONEST_NODES;
        assert IsChoice(byzantine[b]) && opening[NUMBER_OF_HONEST_NODES + b] == Uniform(byzantine[b]);
      }
    }

    constructor (opening: seq<Vector>)
      requires IsOpening(opening)
      ensures Contents() == Start(opening)
    {
      votes, nodes, zeroQuorum, oneQuorum, decided, excluded := map[], map[], map[], map[], map[], [];
      new;
      InsertHonest(opening);
      InsertByzantine(opening);
    }

    // Initial honest votes.
    method InsertHonest(opening: seq<Vector>)
      requires |opening| == NUMBER_OF_NODES
      requires votes == map[] && nodes == map[] && zeroQuorum == map[] && oneQuorum == map[]
      modifies this`votes, this`nodes, this`zeroQuorum, this`oneQuorum
      ensures votes == OpeningVotes(opening, NUMBER_OF_HONEST_NODES) && nodes == AtRoundZero(NUMBER_OF_HONEST_NODES)
      ensures zeroQuorum == oneQuorum == NoQuorums(NUMBER_OF_HONEST_NODES)
    {
      for i := 0 to NUMBER_OF_HONEST_NODES
        invariant votes == OpeningVotes(opening, i) && nodes == AtRoundZero(i)
        invariant zeroQuorum == oneQuorum == NoQuorums(i)
      {
        votes := votes[(i, 0) := opening[i]];
        nodes := nodes[i := 0];
        zeroQuorum := zeroQuorum[i := []];
        oneQuorum := oneQuorum[i := []];
      }
    }

    // Initial byzantine votes.
    method InsertByzantine(opening: seq<Vector>)
      requires |opening| == NUMBER_OF_NODES
      requires votes == OpeningVotes(opening, NUMBER_OF_HONEST_NODES) && nodes == AtRoundZero(NUMBER_OF_HONEST_NODES)
      modifies this`votes, this`nodes
      ensures votes == OpeningVotes(opening, NUMBER_OF_NODES) && nodes == AtRoundZero(NUMBER_OF_NODES)
    {
      for b := 0 to NUMBER_OF_BYZANTINE_NODES
        invariant votes == OpeningVotes(opening, NUMBER_OF_HONEST_NODES + b)
        invariant nodes == AtRoundZero(NUMBER_OF_HONEST_NODES + b)
      {
        var i := NUMBER_OF_HONEST_NODES + b;
        votes := votes[(i, 0) := opening[i]];
        nodes := nodes[i := 0];
      }
    }

    // Count the delivered votes of a round for one receiver.
    method CountVotes(i: nat, r: nat) returns (zeros: nat, ones: nat)
      requires Wired(Contents()) && i < NUMBER_OF_HONEST_NODES
      ensures zeros == Count(Contents(), i, r, 0, NUMBER_OF_NODES)
      ensures ones == Count(Contents(), i, r, 1, NUMBER_OF_NODES)
    {
      zeros, ones := 0, 0;
      for j := 0 to NUMBER_OF_NODES
        invariant zeros == Count(Contents(), i, r, 0, j)
        invariant ones == Count(Contents(), i, r, 1, j)
      {
        if (j, r) in votes {
          if votes[(j, r)][i] == 0 && j !in excluded {
            zeros := zeros + 1;
          }
          if votes[(j, r)][i] == 1 && j !in excluded {
            ones := ones + 1;
          }
        }
      }
    }

    // Fill in the entries of a vector still on their way.
    static method Deliver(v: Vector) returns (w: Vector)
      ensures w == Filled(v)
    {
      w := v;
      for x := 0 to |v|
        invariant |w| == |v|
        invariant forall y | 0 <= y < x :: w[y] == Filled(v)[y]
        invariant forall y | x <= y < |v| :: w[y] == v[y]
        invariant 1 in w <==> 1 in v
      {
        ghost var before := w;
        if w[x] == -1 {
          if 1 in w {
            w := w[x := 1];
          } else {
            w := w[x := 0];
          }
          OnesStay(before, w, x);
        }
      }
    }

    // Receive the delayed honest votes of a round.
    method ReceiveDelayed(r: nat)
      requires Wired(Contents())
      modifies this`votes
      ensures Contents() == Receive(old(Contents()), r)
    {
      hide Filled;
      ghost var before := votes;
      for j := 0 to NUMBER_OF_HONEST_NODES
        invariant votes.Keys == before.Keys
        invariant forall key | key in before ::
          votes[key] == if key.1 == r && key.0 < j then Filled(before[key]) else before[key]
      {
        if (j, r) in votes {
          var v := Deliver(votes[(j, r)]);
          votes := votes[(j, r) := v];
        }
      }
      assert votes == Receive(old(Contents()), r).votes;
    }

    // A node with a quorum of votes moves on.
    method AdvanceNode(i: nat, currentRound: nat, zeros: nat, ones: nat)
      requires Wired(Contents()) && i < NUMBER_OF_HONEST_NODES
      modifies this
      ensures Contents() == Advance(old(Contents()), i, currentRound, zeros, ones)
    {
      if i !in decided {
        var one := oneQuorum[i];
        var zero := zeroQuorum[i];
        if ones >= QUORUM {
          one := one + [currentRound];
          oneQuorum := oneQuorum[i := one];
          votes := votes[(i, currentRound + 1) := Uniform(1)];
          if currentRound != 0 {
            if currentRound - 1 in one {
              decided := decided[i := 1];
            }
          }
        } else if zeros >= QUORUM {
          zero := zero + [currentRound];
          zeroQuorum := zeroQuorum[i := zero];
          votes := votes[(i, currentRound + 1) := Uniform(0)];
          if currentRound != 0 {
            if currentRound - 1 in zero {
              decided := decided[i := 0];
            }
          }
        } else {
          votes := votes[(i, currentRound + 1) := Uniform(0)];
        }
      } else {
        var decidedValue := decided[i];
        votes := votes[(i, currentRound + 1) := Uniform(decidedValue)];
      }
      nodes := nodes[i := currentRound + 1];
    }

    method HonestTurn(i: nat)
      requires Wired(Contents()) && i < NUMBER_OF_HONEST_NODES
      modifies this
      ensures Wired(Contents())
      ensures Contents() == Turn(old(Contents()), i)
    {
      hide Count, Advance, Receive;
      var currentRound := nodes[i];
      var zeros, ones := CountVotes(i, currentRound);
      if zeros + ones >= QUORUM {
        AdvanceNode(i, currentRound, zeros, ones);
      } else {
        ReceiveDelayed(currentRound);
      }
    }

    // Advance the honest nodes, one after the other.
    method AdvanceRound()
      requires Wired(Contents())
      modifies this
      ensures Wired(Contents())
      ensures Contents() == Turns(old(Contents()), NUMBER_OF_HONEST_NODES)
    {
      for i := 0 to NUMBER_OF_HONEST_NODES
        invariant Wired(Contents())
        invariant Contents() == Turns(old(Contents()), i)
      {
        HonestTurn(i);
      }
    }

    // New byzantine votes, one choice per byzantine node.
    method ByzantineVotes(choices: seq<int>, ghost k: nat)
      requires RoundingInv(Contents(), k, 0) && AreChoices(choices)
      modifies this
      ensures Contents() == Misbehaviour(old(Contents()), choices, NUMBER_OF_BYZANTINE_NODES, k)
    {
      for b := 0 to NUMBER_OF_BYZANTINE_NODES
        invariant Contents() == Misbehaviour(old(Contents()), choices, b, k)
      {
        MisbehaveKeeps(Contents(), b, choices[b], k);
        var i := NUMBER_OF_HONEST_NODES + b;
        var currentRound := nodes[i];
        var oldVotes := votes[(i, currentRound)];
        excluded := Exclude(excluded, i, oldVotes);
        var byzantineVotes := ByzantineVector(choices[b]);
        votes := votes[(i, currentRound + 1) := byzantineVotes];
        nodes := nodes[i := currentRound + 1];
      }
    }

    // One pass of the main loop.  It ends the instance when every honest node
    // has decided; otherwise the byzantine nodes vote and the next pass follows.
    method Pass(choices: seq<int>, ghost k: nat) returns (concluded: bool)
      requires Inv(Contents(), k, 0) && AreChoices(choices)
      modifies this
      ensures concluded <==> |Turns(old(Contents()), NUMBER_OF_HONEST_NODES).decided| == NUMBER_OF_HONEST_NODES
      ensures concluded ==> Contents() == Turns(old(Contents()), NUMBER_OF_HONEST_NODES)
      ensures !concluded ==> Contents() == Iteration(old(Contents()), choices, k)
    {
      hide VotesOk, QuorumsOk, DecidedOk, Turns, Misbehaviour;
      TurnsKeep(Contents(), NUMBER_OF_HONEST_NODES, k);
      AdvanceRound();
      concluded := |decided| == NUMBER_OF_HONEST_NODES;
      if !concluded {
        ByzantineVotes(choices, k);
      }
    }

    // The pass that follows n others in a run.
    method PassAfter(opening: seq<Vector>, schedule: seq<seq<int>>, n: nat) returns (concluded: bool)
      requires IsOpening(opening) && AreSchedules(schedule) && n < |schedule|
      requires Contents() == TopAfter(opening, schedule, n)
      modifies this
      ensures concluded <==> ConcludesAfter(opening, schedule, n)
      ensures concluded ==> Contents() == During(opening, schedule, n, NUMBER_OF_HONEST_NODES)
      ensures concluded ==> 0 in decided
      ensures !concluded ==> Contents() == TopAfter(opening, schedule, n + 1)
    {
      hide VotesOk, QuorumsOk, DecidedOk, Paced, Turns, Iteration, Start;
      ghost var next := schedule[..n + 1];
      assert next[..n] == schedule[..n];
      ghost var top := TopAfter(opening, schedule, n);
      concluded := Pass(schedule[n], n);
      if concluded {
        FirstHasDecided(top, n);
      }
    }

    // Do all decisions agree with that of node 0?
    method Agreed() returns (agreed: bool)
      requires 0 in decided
      ensures agreed <==> Agree(decided)
    {
      var d := decided[0];
      agreed := forall i | i in decided :: decided[i] == d;
    }

    // Pass after pass, under a schedule of byzantine choices, until every honest
    // node has decided or the schedule ends.
    method Passes(opening: seq<Vector>, schedule: seq<seq<int>>) returns (concluded: bool, passes: nat)
      requires IsOpening(opening) && AreSchedules(schedule) && Contents() == Start(opening)
      modifies this
      ensures passes <= |schedule|
      ensures forall k: nat | k < passes :: !ConcludesAfter(opening, schedule, k)
      ensures !concluded ==> passes == |schedule| && Contents() == LoopTop(opening, schedule)
      ensures concluded ==>
        && passes < |schedule| && ConcludesAfter(opening, schedule, passes) && 0 in decided
        && Contents() == During(opening, schedule, passes, NUMBER_OF_HONEST_NODES)
    {
      hide Inv, Wired, During, Start, IsOpening, TopAfter, LoopTop, ConcludesAfter, AreSchedules;
      concluded, passes := false, 0;
      while passes < |schedule|
        invariant passes <= |schedule|
        invariant forall k: nat | k < passes :: !ConcludesAfter(opening, schedule, k)
        invariant Contents() == TopAfter(opening, schedule, passes)
      {
        concluded := PassAfter(opening, schedule, passes);
        if concluded {
          return;
        }
        passes := passes + 1;
      }
    }

    // A whole instance.  At its end the decisions agree or not.
    method Run(opening: seq<Vector>, schedule: seq<seq<int>>) returns (concluded: bool, agreed: bool, passes: nat)
      requires IsOpening(opening) && AreSchedules(schedule) && Contents() == Start(opening)
      modifies this
      ensures passes <= |schedule|
      ensures forall k: nat | k < passes :: !ConcludesAfter(opening, schedule, k)
      ensures !concluded ==> passes == |schedule| && Contents() == LoopTop(opening, schedule)
      ensures concluded ==>
        && passes < |schedule| && ConcludesAfter(opening, schedule, passes)
        && Contents() == During(opening, schedule, passes, NUMBER_OF_HONEST_NODES)
      ensures agreed <==> concluded && Agree(decided)
      ensures concluded && !MayDisagree(opening) ==> agreed
    {
      hide Inv, Wired, During, Start, TopAfter, LoopTop, ConcludesAfter, AreSchedules, MayDisagree, Agree;
      concluded, passes := Passes(opening, schedule);
      agreed := false;
      if concluded {
        agreed := Agreed();
        if !MayDisagree(opening) {
          DecisionsAgree(opening, schedule, passes);
        }
      }
    }
  }

  // Then there is a first node to compare with.
  lemma FirstHasDecided(s: Simulation, k: nat)
    requires Inv(s, k, 0) && |Turns(s, NUMBER_OF_HONEST_NODES).decided| == NUMBER_OF_HONEST_NODES
    ensures 0 in Turns(s, NUMBER_OF_HONEST_NODES).decided
  {
    hide VotesOk, QuorumsOk, DecidedOk, Paced, Turns;
    TurnsKeep(s, NUMBER_OF_HONEST_NODES, k);
    DecidedAreHonest(Turns(s, NUMBER_OF_HONEST_NODES), k, NUMBER_OF_HONEST_NODES);
    hide Inv, Wired;
    AllOfThem(Turns(s, NUMBER_OF_HONEST_NODES).decided);
  }

  lemma AllOfThem(decided: map<nat, int>)
    requires |decided| == NUMBER_OF_HONEST_NODES && forall i | i in decided :: i < NUMBER_OF_HONEST_NODES
    ensures 0 in decided
  {
    hide Below;
    if 0 !in decided {
      SubsetSize(decided.Keys + {0}, Below(NUMBER_OF_HONEST_NODES));
    }
  }

  lemma DecidedAreHonest(s: Simulation, k: nat, t: nat)
    requires Inv(s, k, t)
    ensures forall i | i in s.decided :: i < NUMBER_OF_HONEST_NODES
  {
    hide VotesOk, QuorumsOk, Paced, Decision;
  }

  predicate IsHonestOpening(v: Vector, value: int, delivered: seq<bool>) {
    |v| == |delivered| && forall x | 0 <= x < |v| :: v[x] == if delivered[x] then value else -1
  }

  lemma OnesStay(before: Vector, after: Vector, x: nat)
    requires x < |before| && before[x] == -1
    requires after == before[x := if 1 in before then 1 else 0]
    ensures 1 in after <==> 1 in before
  {
    if 1 in before {
      assert after[x] == 1;
    }
  }
}
