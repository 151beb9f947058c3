/** A node: all its elections, as a value and as the object that updates them in place. */
module NeroCore {
  import opened Basics
  import opened Votes
  import opened Tallies
  import opened Elections

  datatype Node = Node(
    elections: map<BlockHash, Election>,
    decided: map<BlockHash, Value>,
    seen: set<Vote>,
    outbox: seq<Vote>)
  {
    function ElectionOf(hash: BlockHash): Election {
      if hash in elections then elections[hash] else EMPTY_ELECTION
    }
  }

  const EMPTY_NODE := Node(map[], map[], {}, [])

  // Store what a call made of one election.
  function Store(node: Node, hash: BlockHash, outcome: Outcome): Node {
    node.(
      elections := node.elections[hash := outcome.election],
      decided := if outcome.decided.Some? then node.decided[hash := outcome.decided.value] else node.decided,
      outbox := node.outbox + outcome.sent)
  }

  function NodeOnTransaction(who: Profile, coins: Coins, node: Node, hash: BlockHash): Node {
    Store(node, hash, OnTransaction(who, coins, node.ElectionOf(hash), hash))
  }

  function NodeOnVote(who: Profile, coins: Coins, node: Node, vote: Vote): Node
    requires Readable(node.ElectionOf(vote.election), vote)
  {
    var election := node.ElectionOf(vote.election);
    var node' := node.(seen := node.seen + {vote});
    if Accepts(who, coins, election, vote)
    then Store(node', vote.election, OnVote(who, coins, election, vote))
    else node'
  }

  ghost predicate ElectionKeyed(election: Election) {
    forall r | r in election.state :: Keyed(election.state[r].votes)
  }

  class Core {
    const who: Profile
    var elections: map<BlockHash, Election>
    var decided: map<BlockHash, Value>
    var sentVotes: set<Vote>
    // The votes handed to the network, in order.
    var outbox: seq<Vote>

    // Every vote is filed under its own hash.
    ghost predicate Valid()
      reads this
    {
      forall hash | hash in elections :: ElectionKeyed(elections[hash])
    }

    function Contents(): Node
      reads this
    {
      Node(elections, decided, sentVotes, outbox)
    }

    constructor (who: Profile)
      ensures Valid() && this.who == who && Contents() == EMPTY_NODE
    {
      this.who := who;
      elections, decided, sentVotes, outbox := map[], map[], {}, [];
    }

    method HandleTransaction(hash: BlockHash, coins: Coins)
      requires Valid()
      modifies this
      ensures Valid()
      ensures Contents() == NodeOnTransaction(who, coins, old(Contents()), hash)
    {
      var election := EMPTY_ELECTION;
      var roundState := EMPTY_ROUND;
      if hash in elections {
        election := elections[hash];
        if 0 in election.state {
          roundState := election.state[0];
        }
      }
      if !roundState.voted {
        var ownVote := FirstVote(who.id, hash, coins.first);
        roundState := roundState.Add(ownVote);
        outbox := outbox + [ownVote];
        roundState := roundState.(voted := true);
      }
      election := election.(state := election.state[0 := roundState]);
      elections := elections[hash := election];
    }

    method HandleVote(vote: Vote, coins: Coins)
      requires Valid()
      requires Readable(Contents().ElectionOf(vote.election), vote)
      modifies this
      ensures Valid()
      ensures Contents() == NodeOnVote(who, coins, old(Contents()), vote)
    {
      hide FileVote, Cast, Validate;
      ghost var before := Contents();
      sentVotes := sentVotes + {vote};
      var election := EMPTY_ELECTION;
      var roundState := EMPTY_ROUND;
      if vote.election in elections {
        election := elections[vote.election];
        if vote.round in election.state {
          roundState := election.state[vote.round];
        }
      }
      if vote.Hash() !in roundState.votes {
        var verdict := ValidateVote(vote, coins);
        match verdict {
          case Invalid =>
            return;
          case Pending =>
            // The vote joins a copy of the round, which is not stored.
          case Valid =>
            election := AcceptVote(vote, coins, election);
            election := CastNextVote(vote, coins, election);
            assert outbox == before.outbox + OnVote(who, coins, before.ElectionOf(vote.election), vote).sent;
        }
      }
      elections := elections[vote.election := election];
    }

    // The accepting arm of `handle_vote`: file the vote, and open with an own
    // vote when round 0 has none.
    method AcceptVote(vote: Vote, coins: Coins, before: Election) returns (election: Election)
      requires ElectionKeyed(before)
      modifies this`outbox
      ensures ElectionKeyed(election)
      ensures election == FileVote(who, coins, before, vote).election
      ensures outbox == old(outbox) + FileVote(who, coins, before, vote).sent
    {
      var roundState := before.Round(vote.round);
      if vote.signer == who.id {
        roundState := roundState.(voted := true);
      }
      roundState := roundState.Add(vote);
      if !roundState.voted && vote.round == 0 {
        var ownVote := FirstVote(who.id, vote.election, coins.first);
        roundState := roundState.Add(ownVote);
        outbox := outbox + [ownVote];
        roundState := roundState.(voted := true);
      }
      election := before.(state := before.state[vote.round := roundState]);
    }

    // The rest of that arm: vote in the next round once this one holds a quorum.
    method CastNextVote(vote: Vote, coins: Coins, filed: Election) returns (election: Election)
      requires ElectionKeyed(filed)
      modifies this`outbox, this`decided
      ensures ElectionKeyed(election)
      ensures
        var outcome := Cast(who, coins, vote, filed);
        && election == outcome.election
        && outbox == old(outbox) + outcome.sent
        && decided == if outcome.decided.Some? then old(decided)[vote.election := outcome.decided.value] else old(decided)
    {
      election := filed;
      var roundState := filed.Round(vote.round);
      var nextRound := vote.round + 1;
      var nextRoundState := filed.Round(nextRound);
      if |roundState.votes| >= Quorum(who.f) && !nextRoundState.voted && !filed.isDecided {
        var decision := MakeDecision(who.f, who.byzantine, coins.casting, roundState.tally);
        var proof := Some(roundState.votes.Keys);
        var nextRoundVote := Vote(who.id, nextRound, decision.value, decision.voteType, proof, vote.election);
        nextRoundState := nextRoundState.Add(nextRoundVote).(voted := true);
        outbox := outbox + [nextRoundVote];
        if nextRoundVote.voteType == Decide {
          election := election.(isDecided := true);
          decided := decided[nextRoundVote.election := nextRoundVote.value];
        }
        election := election.(state := election.state[nextRound := nextRoundState]);
      }
    }

    method ValidateVote(vote: Vote, coins: Coins) returns (verdict: Verdict)
      requires Valid()
      requires ProofReadable(Contents().ElectionOf(vote.election), vote)
      ensures verdict == Validate(who, coins, Contents().ElectionOf(vote.election), vote)
      ensures verdict == Pending ==> vote.election in elections
    {
      if vote.round == 0 {
        return if vote.voteType == Commit || vote.voteType == Decide then Verdict.Invalid else Verdict.Valid;
      }
      if vote.election !in elections || vote.round - 1 !in elections[vote.election].state {
        return Verdict.Invalid;
      }
      var view := elections[vote.election].state[vote.round - 1].votes;
      var missing, votes := CollectProof(view, vote.proof.value);
      if missing {
        return Verdict.Pending;
      }
      var tally := FromVotes(votes);
      assert Keyed(Restrict(view, vote.proof.value));
      BatchTally(Restrict(view, vote.proof.value));
      var decision := MakeDecision(who.f, who.byzantine, coins.validating, tally);
      verdict := if decision == vote.Choice() then Verdict.Valid else Verdict.Invalid;
    }
  }

  // The first loop of `validate_vote`: look every proof hash up in the view.
  method CollectProof(view: View, proof: set<NodeId>) returns (missing: bool, votes: set<Vote>)
    ensures missing <==> !(proof <= view.Keys)
    ensures !missing ==> votes == Restrict(view, proof).Values
  {
    hide Restrict;
    votes := {};
    var rest := proof;
    ghost var done: set<NodeId> := {};
    RestrictNone(view);
    while rest != {}
      invariant done + rest == proof && done !! rest
      invariant done <= view.Keys
      invariant votes == Restrict(view, done).Values
      decreases |rest|
    {
      var hash :| hash in rest;
      if hash !in view {
        return true, votes;
      }
      RestrictAdd(view, done, hash);
      votes := votes + {view[hash]};
      done := done + {hash};
      rest := rest - {hash};
    }
    assert done == proof;
    missing := false;
  }

  lemma RestrictNone(view: View)
    ensures Restrict(view, {}).Values == {}
  {}

  lemma RestrictAdd(view: View, proof: set<NodeId>, hash: NodeId)
    requires hash in view
    ensures Restrict(view, proof + {hash}).Values == Restrict(view, proof).Values + {view[hash]}
  {
    var smaller, larger := Restrict(view, proof), Restrict(view, proof + {hash});
    assert larger == smaller[hash := view[hash]];
    forall v | v in smaller.Values ensures v in larger.Values {
      var s :| s in smaller && smaller[s] == v;
      assert s in larger && larger[s] == v;
    }
    assert hash in larger && larger[hash] == view[hash];
  }
}
