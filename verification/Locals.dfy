/** What every node running the code keeps, whatever it receives in one election. */
module Locals {
  import opened Basics
  import opened Votes
  import opened Tallies
  import opened Elections

  // One election as one node knows it: its state, its decision record, and
  // every vote it has broadcast for that election.
  datatype Local = Local(election: Election, decided: Option<Value>, log: seq<Vote>) {
    function After(outcome: Outcome): Local {
      Local(
        outcome.election,
        if outcome.decided.Some? then outcome.decided else decided,
        log + outcome.sent)
    }
  }

  const NEW_LOCAL := Local(EMPTY_ELECTION, None, [])

  // The fault model: a vote past round 0 names a quorum in its proof.
  predicate Proven(f: nat, vote: Vote) {
    vote.round > 0 ==> vote.proof.Some? && |vote.proof.value| >= Quorum(f)
  }

  // What may reach a node: a vote of this election, proven, and genuine if it
  // bears the node's own key.
  predicate Admissible(who: Profile, hash: BlockHash, local: Local, vote: Vote) {
    && vote.election == hash
    && Proven(who.f, vote)
    && (vote.signer == who.id ==> vote.round < |local.log| && local.log[vote.round] == vote)
  }

  // ----- The local invariant ------------------------------------------------

  predicate Belongs(who: Profile, hash: BlockHash, vote: Vote, signer: NodeId, r: nat) {
    && vote.signer == signer && vote.round == r && vote.election == hash
    && Proven(who.f, vote)
    && (r == 0 ==> vote.voteType == InitialVote)
  }

  ghost predicate VotesBelong(who: Profile, hash: BlockHash, view: View, r: nat) {
    forall s | s in view :: Belongs(who, hash, view[s], s, r)
  }

  // Rounds are contiguous from 0; each counts the votes it holds; and while
  // undecided, a node has voted in every round it stores, and in the next one
  // too once a round holds a quorum.
  ghost predicate RoundOk(who: Profile, hash: BlockHash, election: Election, r: nat, busy: Option<nat>)
    requires r in election.state
  {
    var rs := election.state[r];
    && (r > 0 ==> r - 1 in election.state)
    && VotesBelong(who, hash, rs.votes, r)
    && (rs.voted <==> who.id in rs.votes)
    && rs.tally == CastTally(rs.votes)
    && (!election.isDecided ==> rs.voted)
    && (!election.isDecided && |rs.votes| >= Quorum(who.f) && busy != Some(r) ==> r + 1 in election.state)
  }

  ghost predicate RoundsOk(who: Profile, hash: BlockHash, election: Election, busy: Option<nat>) {
    forall r {:trigger RoundOk(who, hash, election, r, busy)} | r in election.state ::
      RoundOk(who, hash, election, r, busy)
  }

  // The k-th vote a node broadcasts is its vote of round k, and stays in its
  // own view; the last one may be a Decide, and then it is the decision.
  ghost predicate LogOk(who: Profile, local: Local) {
    var state := local.election.state;
    && (forall r | r in state && who.id in state[r].votes :: r < |local.log|)
    && (forall k | 0 <= k < |local.log| ::
          k in state && who.id in state[k].votes && state[k].votes[who.id] == local.log[k])
    && (forall k | 0 <= k < |local.log| && local.log[k].voteType == Decide ::
          k == |local.log| - 1 && local.decided == Some(local.log[k].value))
    && (local.election.isDecided <==> local.decided.Some?)
    && (local.election.isDecided ==> |local.log| > 0 && local.log[|local.log| - 1].voteType == Decide)
  }

  // Why a vote stands in an honest view: the decision table, applied to the
  // votes its proof names, gave it.  A node's own vote was cast with the tally
  // that misses Zero Decides, while its own previous vote was no Decide.
  ghost predicate Justified(who: Profile, previous: View, vote: Vote) {
    && vote.proof.Some?
    && vote.proof.value <= previous.Keys
    && |vote.proof.value| >= Quorum(who.f)
    && var basis := Restrict(previous, vote.proof.value);
       if vote.signer == who.id then
         && who.id in basis && basis[who.id].voteType != Decide
         && vote.Choice() == Table(who.f, CastTally(basis))
       else
         vote.Choice() == Table(who.f, TallyOf(basis))
  }

  ghost predicate RoundJustified(who: Profile, election: Election, r: nat)
    requires r in election.state
  {
    r > 0 ==> forall s | s in election.state[r].votes ::
      Justified(who, election.View(r - 1), election.state[r].votes[s])
  }

  ghost predicate AllJustified(who: Profile, election: Election) {
    forall r {:trigger RoundJustified(who, election, r)} | r in election.state ::
      RoundJustified(who, election, r)
  }

  ghost predicate LocalInv(who: Profile, hash: BlockHash, local: Local) {
    BusyInv(who, hash, local, None)
  }

  // The invariant, but for the cast that the busy round may still owe.
  ghost predicate BusyInv(who: Profile, hash: BlockHash, local: Local, busy: Option<nat>) {
    && RoundsOk(who, hash, local.election, busy)
    && LogOk(who, local)
    && (!who.byzantine ==> AllJustified(who, local.election))
  }

  // ----- It is kept -----------------------------------------------------------

  lemma {:induction false} ZeroStored(who: Profile, hash: BlockHash, election: Election, busy: Option<nat>, r: nat)
    requires RoundsOk(who, hash, election, busy) && r in election.state
    ensures 0 in election.state
  {
    if r > 0 {
      assert RoundOk(who, hash, election, r, busy);
      ZeroStored(who, hash, election, busy, r - 1);
    }
  }

  // A node without a vote of its own in round 0 has stored nothing yet.
  lemma UnopenedIsEmpty(who: Profile, hash: BlockHash, local: Local)
    requires LocalInv(who, hash, local)
    requires !local.election.Round(0).voted
    ensures local.election == EMPTY_ELECTION && local.log == []
  {
    var state := local.election.state;
    assert 0 in state ==> RoundOk(who, hash, local.election, 0, None);
    assert 0 !in state;
    forall r | r in state ensures false {
      ZeroStored(who, hash, local.election, None, r);
    }
    assert state == map[];
  }

  // Adding a vote to a view disturbs no justification that rests on it.
  lemma JustifiedStable(who: Profile, previous: View, larger: View, vote: Vote)
    requires Justified(who, previous, vote) && ViewGrows(previous, larger)
    ensures Justified(who, larger, vote)
  {
    RestrictStable(previous, larger, vote.proof.value);
  }

  lemma RoundJustifiedStable(who: Profile, before: Election, after: Election, r: nat)
    requires r in before.state && RoundJustified(who, before, r) && Grows(before, after)
    requires r > 0 ==> r - 1 in before.state
    requires before.state[r].votes == after.state[r].votes
    ensures RoundJustified(who, after, r)
  {
    if r > 0 {
      forall s | s in after.state[r].votes ensures Justified(who, after.View(r - 1), after.state[r].votes[s]) {
        JustifiedStable(who, before.View(r - 1), after.View(r - 1), before.state[r].votes[s]);
      }
    }
  }

  lemma TransactionKeepsLocal(who: Profile, coins: Coins, hash: BlockHash, local: Local)
    requires who.f >= 1
    requires LocalInv(who, hash, local)
    ensures LocalInv(who, hash, local.After(OnTransaction(who, coins, local.election, hash)))
    ensures Grows(local.election, OnTransaction(who, coins, local.election, hash).election)
  {
    var outcome := OnTransaction(who, coins, local.election, hash);
    if local.election.Round(0).voted {
      assert outcome.election == local.election;
      assert local.After(outcome) == local;
    } else {
      UnopenedIsEmpty(who, hash, local);
      OpenedLocal(who, coins, hash, local.decided);
    }
  }

  // A node's first vote, on its own, is a round like any other.
  lemma OwnRound(who: Profile, own: Vote)
    requires own.signer == who.id
    ensures EMPTY_ROUND.Add(own).(voted := true) == RoundState(CastTally(map[who.id := own]), true, map[who.id := own])
  {
    TallyVoteAdds(map[], own);
    EmptyTallies();
  }

  lemma OpenedLocal(who: Profile, coins: Coins, hash: BlockHash, decided: Option<Value>)
    requires who.f >= 1
    requires LogOk(who, Local(EMPTY_ELECTION, decided, []))
    ensures LocalInv(who, hash, Local(EMPTY_ELECTION, decided, []).After(OnTransaction(who, coins, EMPTY_ELECTION, hash)))
  {
    var own := FirstVote(who.id, hash, coins.first);
    OwnRound(who, own);
    OpenedRound(who, hash, own);
  }

  lemma OpenedRound(who: Profile, hash: BlockHash, own: Vote)
    requires who.f >= 1
    requires Belongs(who, hash, own, who.id, 0)
    ensures
      var election := Election(map[0 := RoundState(CastTally(map[who.id := own]), true, map[who.id := own])], false);
      RoundsOk(who, hash, election, None)
  {
    var view: View := map[who.id := own];
    var election := Election(map[0 := RoundState(CastTally(view), true, view)], false);
    assert |view| == 1;
    assert RoundOk(who, hash, election, 0, None);
  }

  // An undecided node that accepts a vote past round 0 has voted in that round.
  lemma AcceptedRound(who: Profile, coins: Coins, hash: BlockHash, local: Local, vote: Vote)
    requires LocalInv(who, hash, local) && Admissible(who, hash, local, vote)
    requires Readable(local.election, vote) && Accepts(who, coins, local.election, vote)
    ensures vote.signer != who.id
    ensures vote.round > 0 ==> vote.round - 1 in local.election.state
    ensures vote.round > 0 && !local.election.isDecided ==> vote.round in local.election.state
  {
    if vote.round > 0 {
      var view := local.election.View(vote.round - 1);
      SubsetSize(vote.proof.value, view.Keys);
      assert RoundOk(who, hash, local.election, vote.round - 1, None);
    }
  }

  lemma FileGrows(who: Profile, coins: Coins, hash: BlockHash, local: Local, vote: Vote)
    requires LocalInv(who, hash, local) && Admissible(who, hash, local, vote)
    requires Readable(local.election, vote) && Accepts(who, coins, local.election, vote)
    ensures Grows(local.election, FileVote(who, coins, local.election, vote).election)
  {
    if Opens(who, local.election, vote) {
      UnopenedIsEmpty(who, hash, local);
    }
  }

  // What filing leaves in the round of the vote.
  lemma FiledRound(who: Profile, coins: Coins, hash: BlockHash, local: Local, vote: Vote)
    requires LocalInv(who, hash, local) && Admissible(who, hash, local, vote)
    requires Readable(local.election, vote) && Accepts(who, coins, local.election, vote)
    ensures
      var before := local.election.View(vote.round);
      var own := FirstVote(who.id, vote.election, coins.first);
      var view := if Opens(who, local.election, vote) then map[vote.signer := vote, who.id := own] else before[vote.signer := vote];
      FileVote(who, coins, local.election, vote).election.Round(vote.round)
      == RoundState(CastTally(view), vote.round == 0 || local.election.Round(vote.round).voted, view)
  {
    AcceptedRound(who, coins, hash, local, vote);
    EmptyTallies();
    if Opens(who, local.election, vote) {
      UnopenedIsEmpty(who, hash, local);
      var own := FirstVote(who.id, vote.election, coins.first);
      TallyVoteAdds(map[], vote);
      TallyVoteAdds(map[vote.signer := vote], own);
      assert map[][vote.signer := vote] == map[vote.signer := vote];
      assert map[vote.signer := vote][who.id := own] == map[vote.signer := vote, who.id := own];
    } else {
      TallyVoteAdds(local.election.View(vote.round), vote);
      assert vote.round in local.election.state ==> RoundOk(who, hash, local.election, vote.round, None);
    }
  }

  lemma FiledRoundOk(who: Profile, coins: Coins, hash: BlockHash, local: Local, vote: Vote)
    requires LocalInv(who, hash, local) && Admissible(who, hash, local, vote)
    requires Readable(local.election, vote) && Accepts(who, coins, local.election, vote)
    ensures RoundOk(who, hash, FileVote(who, coins, local.election, vote).election, vote.round, Some(vote.round))
  {
    hide TallyOf, Signers, Table;
    var before, r := local.election, vote.round;
    AcceptedRound(who, coins, hash, local, vote);
    FiledRound(who, coins, hash, local, vote);
    assert r in before.state ==> RoundOk(who, hash, before, r, None);
  }

  lemma FileKeepsRounds(who: Profile, coins: Coins, hash: BlockHash, local: Local, vote: Vote)
    requires LocalInv(who, hash, local) && Admissible(who, hash, local, vote)
    requires Readable(local.election, vote) && Accepts(who, coins, local.election, vote)
    ensures RoundsOk(who, hash, FileVote(who, coins, local.election, vote).election, Some(vote.round))
  {
    var before, after := local.election, FileVote(who, coins, local.election, vote).election;
    FiledRoundOk(who, coins, hash, local, vote);
    forall r | r in after.state ensures RoundOk(who, hash, after, r, Some(vote.round)) {
      assert r != vote.round ==> RoundOk(who, hash, before, r, None);
    }
  }

  lemma FileKeepsLog(who: Profile, coins: Coins, hash: BlockHash, local: Local, vote: Vote)
    requires who.f >= 1
    requires LocalInv(who, hash, local) && Admissible(who, hash, local, vote)
    requires Readable(local.election, vote) && Accepts(who, coins, local.election, vote)
    ensures LogOk(who, local.After(FileVote(who, coins, local.election, vote)))
  {
    AcceptedRound(who, coins, hash, local, vote);
    if Opens(who, local.election, vote) {
      UnopenedIsEmpty(who, hash, local);
    }
  }

  lemma FileKeepsJustified(who: Profile, coins: Coins, hash: BlockHash, local: Local, vote: Vote)
    requires who.f >= 1 && !who.byzantine
    requires LocalInv(who, hash, local) && Admissible(who, hash, local, vote)
    requires Readable(local.election, vote) && Accepts(who, coins, local.election, vote)
    ensures AllJustified(who, FileVote(who, coins, local.election, vote).election)
  {
    hide Table, TallyOf, Signers;
    var before, after := local.election, FileVote(who, coins, local.election, vote).election;
    AcceptedRound(who, coins, hash, local, vote);
    FileGrows(who, coins, hash, local, vote);
    forall r | r in after.state ensures RoundJustified(who, after, r) {
      if r != vote.round {
        assert RoundOk(who, hash, before, r, None) && RoundJustified(who, before, r);
        RoundJustifiedStable(who, before, after, r);
      } else if r > 0 {
        var previous := before.View(r - 1);
        assert after.View(r - 1) == previous;
        assert r in before.state ==> RoundJustified(who, before, r);
        forall s | s in after.state[r].votes ensures Justified(who, previous, after.state[r].votes[s]) {}
      }
    }
  }

  // Casting from a round that has just changed restores the whole invariant.
  lemma CastKeepsLocal(who: Profile, coins: Coins, hash: BlockHash, local: Local, vote: Vote)
    requires who.f >= 1 && vote.election == hash
    requires vote.round in local.election.state
    requires BusyInv(who, hash, local, Some(vote.round))
    ensures LocalInv(who, hash, local.After(Cast(who, coins, vote, local.election)))
    ensures Grows(local.election, Cast(who, coins, vote, local.election).election)
  {
    var before, r := local.election, vote.round;
    if Casts(who, r, before) {
      CastsIntoNewRound(who, coins, hash, local, vote);
      CastsKeepsRounds(who, coins, hash, local, vote);
      CastsKeepsLog(who, coins, hash, local, vote);
      if !who.byzantine {
        CastsKeepsJustified(who, coins, hash, local, vote);
      }
    } else {
      assert local.After(Cast(who, coins, vote, before)) == local;
      forall q | q in before.state ensures RoundOk(who, hash, before, q, None) {
        assert RoundOk(who, hash, before, q, Some(r));
      }
    }
  }

  // The round a node casts into is new to it.
  lemma CastsIntoNewRound(who: Profile, coins: Coins, hash: BlockHash, local: Local, vote: Vote)
    requires vote.round in local.election.state && vote.election == hash
    requires RoundsOk(who, hash, local.election, Some(vote.round))
    requires LogOk(who, local)
    requires Casts(who, vote.round, local.election)
    ensures vote.round + 1 !in local.election.state
    ensures |local.log| == vote.round + 1
    ensures
      var next := NextVote(who, coins, vote, local.election);
      Cast(who, coins, vote, local.election).election.state
      == local.election.state[vote.round + 1 := RoundState(CastTally(map[who.id := next]), true, map[who.id := next])]
  {
    var before, r := local.election, vote.round;
    var next := NextVote(who, coins, vote, before);
    assert RoundOk(who, hash, before, r, Some(r));
    assert r + 1 in before.state ==> RoundOk(who, hash, before, r + 1, Some(r));
    assert who.id in before.state[r].votes;
    EmptyTallies();
    TallyVoteAdds(map[], next);
  }

  lemma CastsKeepsRounds(who: Profile, coins: Coins, hash: BlockHash, local: Local, vote: Vote)
    requires who.f >= 1
    requires vote.round in local.election.state && vote.election == hash
    requires RoundsOk(who, hash, local.election, Some(vote.round))
    requires LogOk(who, local)
    requires Casts(who, vote.round, local.election)
    ensures RoundsOk(who, hash, Cast(who, coins, vote, local.election).election, None)
  {
    hide TallyOf, Signers, Table, LogOk;
    var before, r := local.election, vote.round;
    var after := Cast(who, coins, vote, before).election;
    CastsIntoNewRound(who, coins, hash, local, vote);
    forall q | q in after.state ensures RoundOk(who, hash, after, q, None) {
      assert q != r + 1 ==> RoundOk(who, hash, before, q, Some(r));
    }
  }

  lemma CastsKeepsLog(who: Profile, coins: Coins, hash: BlockHash, local: Local, vote: Vote)
    requires who.f >= 1
    requires vote.round in local.election.state && vote.election == hash
    requires RoundsOk(who, hash, local.election, Some(vote.round))
    requires LogOk(who, local)
    requires Casts(who, vote.round, local.election)
    ensures LogOk(who, local.After(Cast(who, coins, vote, local.election)))
  {
    CastsIntoNewRound(who, coins, hash, local, vote);
  }

  // The vote a node casts is justified by the view it is cast from.
  lemma NextJustified(who: Profile, coins: Coins, hash: BlockHash, local: Local, vote: Vote)
    requires !who.byzantine
    requires vote.round in local.election.state && vote.election == hash
    requires RoundsOk(who, hash, local.election, Some(vote.round))
    requires LogOk(who, local)
    requires Casts(who, vote.round, local.election)
    ensures Justified(who, local.election.View(vote.round), NextVote(who, coins, vote, local.election))
  {
    var r := vote.round;
    var view := local.election.View(r);
    assert RoundOk(who, hash, local.election, r, Some(r));
    assert Restrict(view, view.Keys) == view;
    assert view[who.id] == local.log[r] && local.log[r].voteType != Decide;
  }

  lemma CastsKeepsJustified(who: Profile, coins: Coins, hash: BlockHash, local: Local, vote: Vote)
    requires who.f >= 1 && !who.byzantine
    requires vote.round in local.election.state && vote.election == hash
    requires RoundsOk(who, hash, local.election, Some(vote.round))
    requires LogOk(who, local) && AllJustified(who, local.election)
    requires Casts(who, vote.round, local.election)
    ensures AllJustified(who, Cast(who, coins, vote, local.election).election)
  {
    hide Justified, LogOk, NextVote;
    var before, r := local.election, vote.round;
    var after := Cast(who, coins, vote, before).election;
    var next := NextVote(who, coins, vote, before);
    CastsIntoNewRound(who, coins, hash, local, vote);
    NextJustified(who, coins, hash, local, vote);
    forall q | q in after.state ensures RoundJustified(who, after, q) {
      if q == r + 1 {
        assert after.state[q].votes == map[who.id := next];
      } else {
        assert RoundOk(who, hash, before, q, Some(r)) && RoundJustified(who, before, q);
        RoundJustifiedStable(who, before, after, q);
      }
    }
  }

  lemma VoteKeepsLocal(who: Profile, coins: Coins, hash: BlockHash, local: Local, vote: Vote)
    requires who.f >= 1
    requires LocalInv(who, hash, local) && Admissible(who, hash, local, vote)
    requires Readable(local.election, vote)
    ensures LocalInv(who, hash, local.After(OnVote(who, coins, local.election, vote)))
    ensures Grows(local.election, OnVote(who, coins, local.election, vote).election)
  {
    if Accepts(who, coins, local.election, vote) {
      AcceptKeepsLocal(who, coins, hash, local, vote);
    } else {
      assert local.After(OnVote(who, coins, local.election, vote)) == local;
    }
  }

  lemma FileKeepsLocal(who: Profile, coins: Coins, hash: BlockHash, local: Local, vote: Vote)
    requires who.f >= 1
    requires LocalInv(who, hash, local) && Admissible(who, hash, local, vote)
    requires Readable(local.election, vote) && Accepts(who, coins, local.election, vote)
    ensures BusyInv(who, hash, local.After(FileVote(who, coins, local.election, vote)), Some(vote.round))
  {
    FileKeepsRounds(who, coins, hash, local, vote);
    FileKeepsLog(who, coins, hash, local, vote);
    if !who.byzantine {
      FileKeepsJustified(who, coins, hash, local, vote);
    }
  }

  lemma AcceptedAfter(who: Profile, coins: Coins, local: Local, vote: Vote)
    requires Readable(local.election, vote) && Accepts(who, coins, local.election, vote)
    ensures
      var filed := FileVote(who, coins, local.election, vote);
      local.After(OnVote(who, coins, local.election, vote)) == local.After(filed).After(Cast(who, coins, vote, filed.election))
  {
    var filed := FileVote(who, coins, local.election, vote);
    var cast := Cast(who, coins, vote, filed.election);
    assert local.log + (filed.sent + cast.sent) == local.log + filed.sent + cast.sent;
  }

  lemma AcceptKeepsLocal(who: Profile, coins: Coins, hash: BlockHash, local: Local, vote: Vote)
    requires who.f >= 1
    requires LocalInv(who, hash, local) && Admissible(who, hash, local, vote)
    requires Readable(local.election, vote) && Accepts(who, coins, local.election, vote)
    ensures LocalInv(who, hash, local.After(OnVote(who, coins, local.election, vote)))
    ensures Grows(local.election, OnVote(who, coins, local.election, vote).election)
  {
    var middle := local.After(FileVote(who, coins, local.election, vote));
    FileGrows(who, coins, hash, local, vote);
    FileKeepsLocal(who, coins, hash, local, vote);
    CastKeepsLocal(who, coins, hash, middle, vote);
    AcceptedAfter(who, coins, local, vote);
    GrowsTransitive(local.election, middle.election, Cast(who, coins, vote, middle.election).election);
  }

  lemma GrowsTransitive(a: Election, b: Election, c: Election)
    requires Grows(a, b) && Grows(b, c)
    ensures Grows(a, c)
  {
    forall r | r in a.state ensures ViewGrows(a.state[r].votes, c.state[r].votes) {
      assert ViewGrows(b.state[r].votes, c.state[r].votes);
    }
  }

  lemma JustifiedInView(who: Profile, hash: BlockHash, local: Local, r: nat, s: NodeId)
    requires LocalInv(who, hash, local) && !who.byzantine
    requires s in local.election.View(r + 1)
    ensures
      var vote := local.election.View(r + 1)[s];
      vote.signer == s && Justified(who, local.election.View(r), vote)
  {
    assert RoundOk(who, hash, local.election, r + 1, None);
    assert RoundJustified(who, local.election, r + 1);
  }

  // ----- What a call adds -----------------------------------------------------

  // Every vote a node has broadcast is its own vote of that round.
  lemma LogBelongs(who: Profile, hash: BlockHash, local: Local, k: nat)
    requires LocalInv(who, hash, local) && k < |local.log|
    ensures Belongs(who, hash, local.log[k], who.id, k)
  {
    assert RoundOk(who, hash, local.election, k, None);
  }

  // The votes in view after a call were in view before it, or arrived or left with it.
  ghost predicate ViewsWithin(before: Election, after: Election, votes: set<Vote>) {
    forall r, s | r in after.state && s in after.state[r].votes ::
      (r in before.state && s in before.state[r].votes && before.state[r].votes[s] == after.state[r].votes[s])
      || after.state[r].votes[s] in votes
  }

  function Sent(outcome: Outcome): set<Vote> {
    set v | v in outcome.sent
  }

  lemma TransactionViews(who: Profile, coins: Coins, election: Election, hash: BlockHash)
    ensures ViewsWithin(election, OnTransaction(who, coins, election, hash).election, Sent(OnTransaction(who, coins, election, hash)))
  {}

  lemma VoteViews(who: Profile, coins: Coins, election: Election, vote: Vote)
    requires Readable(election, vote)
    ensures
      var outcome := OnVote(who, coins, election, vote);
      ViewsWithin(election, outcome.election, Sent(outcome) + {vote})
  {
    if Accepts(who, coins, election, vote) {
      var filed := FileVote(who, coins, election, vote);
      var cast := Cast(who, coins, vote, filed.election);
      assert ViewsWithin(election, filed.election, Sent(filed) + {vote});
      assert ViewsWithin(filed.election, cast.election, Sent(cast));
      assert Sent(OnVote(who, coins, election, vote)) == Sent(filed) + Sent(cast);
    }
  }

  // ----- Final verdicts ---------------------------------------------------------

  // A verdict other than Pending is given for ever exactly when the previous
  // round is at hand.
  lemma FinalVerdict(who: Profile, coins: Coins, coins': Coins, earlier: Election, vote: Vote)
    requires !who.byzantine && Proven(who.f, vote)
    requires Validate(who, coins, earlier, vote) != Pending
    ensures
      (forall later | Grows(earlier, later) :: Validate(who, coins', later, vote) == Validate(who, coins, earlier, vote))
      <==> vote.round == 0 || vote.round - 1 in earlier.state
  {
    if vote.round == 0 || vote.round - 1 in earlier.state {
      forall later | Grows(earlier, later)
        ensures Validate(who, coins', later, vote) == Validate(who, coins, earlier, vote)
      {
        VerdictStable(who, coins, coins', earlier, later, vote);
      }
    } else {
      var later := earlier.(state := earlier.state[vote.round - 1 := EMPTY_ROUND]);
      assert Grows(earlier, later);
      assert !(vote.proof.value <= later.View(vote.round - 1).Keys);
      assert Validate(who, coins', later, vote) == Pending;
    }
  }

  // What a node knows that has seen a quorum open with Zero, and committed.
  ghost function Unanimous(who: Profile, hash: BlockHash, quorum: set<NodeId>): Local {
    var view: View := map s | s in quorum :: FirstVote(s, hash, Zero);
    var own := CommitOn(who.id, hash, quorum);
    var next: View := map[who.id := own];
    Local(
      Election(map[0 := RoundState(CastTally(view), true, view), 1 := RoundState(CastTally(next), true, next)], false),
      None,
      [FirstVote(who.id, hash, Zero), own])
  }

  function CommitOn(signer: NodeId, hash: BlockHash, quorum: set<NodeId>): Vote {
    Vote(signer, 1, Zero, Commit, Some(quorum), hash)
  }

  lemma UnanimousTable(f: nat, hash: BlockHash, quorum: set<NodeId>)
    requires |quorum| == Quorum(f)
    ensures var view: View := map s | s in quorum :: FirstVote(s, hash, Zero);
      && Table(f, TallyOf(view)) == Table(f, CastTally(view)) == Decision(Zero, Commit)
      && view.Keys == quorum && |view| == |quorum|
  {
    var view: View := map s | s in quorum :: FirstVote(s, hash, Zero);
    assert Signers(view, Decision(Zero, InitialVote)) == quorum;
    forall choice | choice != Decision(Zero, InitialVote) ensures Signers(view, choice) == {} {}
    assert view.Keys == quorum;
  }

  lemma UnanimousInv(who: Profile, hash: BlockHash, quorum: set<NodeId>)
    requires who.f > 0 && |quorum| == Quorum(who.f) && who.id in quorum
    ensures LocalInv(who, hash, Unanimous(who, hash, quorum))
  {
    hide Table, TallyOf, Signers, RoundOk, RoundJustified, LogOk;
    UnanimousTable(who.f, hash, quorum);
    UnanimousRounds(who, hash, quorum);
    UnanimousLog(who, hash, quorum);
    var election := Unanimous(who, hash, quorum).election;
    assert election.state.Keys == {0, 1};
    assert RoundJustified(who, election, 0) && RoundJustified(who, election, 1) by {
      UnanimousJustified(who, hash, quorum);
    }
  }

  lemma UnanimousRounds(who: Profile, hash: BlockHash, quorum: set<NodeId>)
    requires who.f > 0 && |quorum| == Quorum(who.f) && who.id in quorum
    ensures var election := Unanimous(who, hash, quorum).election;
      RoundOk(who, hash, election, 0, None) && RoundOk(who, hash, election, 1, None)
  {
    hide Table, TallyOf, Signers;
    UnanimousTable(who.f, hash, quorum);
  }

  lemma UnanimousLog(who: Profile, hash: BlockHash, quorum: set<NodeId>)
    requires who.id in quorum
    ensures LogOk(who, Unanimous(who, hash, quorum))
  {
    hide CastTally;
    var local := Unanimous(who, hash, quorum);
    forall k | 0 <= k < |local.log| ensures
      k in local.election.state && who.id in local.election.state[k].votes
      && local.election.state[k].votes[who.id] == local.log[k]
    {
      assert k == 0 || k == 1;
    }
  }

  lemma UnanimousJustified(who: Profile, hash: BlockHash, quorum: set<NodeId>)
    requires |quorum| == Quorum(who.f) && who.id in quorum
    ensures var election := Unanimous(who, hash, quorum).election;
      RoundJustified(who, election, 0) && RoundJustified(who, election, 1)
  {
    UnanimousTable(who.f, hash, quorum);
    hide Table, TallyOf, Signers, CastTally;
    var view: View := map s | s in quorum :: FirstVote(s, hash, Zero);
    assert Restrict(view, quorum) == view;
    assert Unanimous(who, hash, quorum).election.View(0) == view;
  }

  // The Commit of another node on that quorum is Invalid to a node that has not
  // heard of the election, and Valid to the same node in this later state.
  lemma InvalidThenValid(who: Profile, coins: Coins, hash: BlockHash, quorum: set<NodeId>, other: NodeId)
    requires !who.byzantine && |quorum| == Quorum(who.f)
    requires who.id in quorum && other in quorum && other != who.id
    ensures LocalInv(who, hash, NEW_LOCAL) && LocalInv(who, hash, Unanimous(who, hash, quorum))
    ensures Grows(NEW_LOCAL.election, Unanimous(who, hash, quorum).election)
    ensures var vote := CommitOn(other, hash, quorum);
      && Proven(who.f, vote)
      && Validate(who, coins, NEW_LOCAL.election, vote) == Invalid
      && Validate(who, coins, Unanimous(who, hash, quorum).election, vote) == Valid
  {
    hide Table, TallyOf, Signers, CastTally;
    SubsetSize({who.id, other}, quorum);
    UnanimousInv(who, hash, quorum);
    UnanimousTable(who.f, hash, quorum);
    var view: View := map s | s in quorum :: FirstVote(s, hash, Zero);
    assert Restrict(view, quorum) == view;
    assert Unanimous(who, hash, quorum).election.View(0) == view;
  }
}
