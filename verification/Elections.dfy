/** One election at one node: its rounds, and what a transaction or a vote does to it. */
module Elections {
  import opened Basics
  import opened Votes
  import opened Tallies

  datatype RoundState = RoundState(tally: Tally, voted: bool, votes: View) {
    // File a vote and count it.
    function Add(vote: Vote): RoundState {
      RoundState(tally.TallyVote(vote), voted, votes[vote.Hash() := vote])
    }
  }

  const EMPTY_ROUND := RoundState(EMPTY_TALLY, false, map[])

  datatype Election = Election(state: map<nat, RoundState>, isDecided: bool) {
    function Round(r: nat): RoundState {
      if r in state then state[r] else EMPTY_ROUND
    }

    function View(r: nat): View { Round(r).votes }
  }

  const EMPTY_ELECTION := Election(map[], false)

  // Who runs the code: the fault bound, its own key, and its byzantine flag.
  datatype Profile = Profile(f: nat, id: NodeId, byzantine: bool)

  // The random choices one call may draw: the value of a first vote, and the
  // decisions a byzantine node makes up while validating and while casting.
  datatype Coins = Coins(first: Value, validating: Decision, casting: Decision)

  datatype Verdict = Valid | Invalid | Pending

  // Validating a vote reads its proof once the previous round is stored.
  predicate ProofReadable(election: Election, vote: Vote) {
    vote.round > 0 && vote.round - 1 in election.state ==> vote.proof.Some?
  }

  predicate Received(election: Election, vote: Vote) {
    vote.Hash() in election.View(vote.round)
  }

  predicate Readable(election: Election, vote: Vote) {
    Received(election, vote) || ProofReadable(election, vote)
  }

  function Validate(who: Profile, coins: Coins, election: Election, vote: Vote): Verdict
    requires ProofReadable(election, vote)
  {
    if vote.round == 0 then
      if vote.voteType == Commit || vote.voteType == Decide then Invalid else Valid
    else if vote.round - 1 !in election.state then Invalid
    else
      var view := election.View(vote.round - 1);
      var proof := vote.proof.value;
      if !(proof <= view.Keys) then Pending
      else
        var decision := MakeDecision(who.f, who.byzantine, coins.validating, TallyOf(Restrict(view, proof)));
        if decision == vote.Choice() then Valid else Invalid
  }

  // What a call leaves behind: the election, the votes it broadcasts in order,
  // and the value it records as decided.
  datatype Outcome = Outcome(election: Election, sent: seq<Vote>, decided: Option<Value>)

  function OnTransaction(who: Profile, coins: Coins, election: Election, hash: BlockHash): Outcome {
    var rs := election.Round(0);
    var own := FirstVote(who.id, hash, coins.first);
    var rs' := if rs.voted then rs else rs.Add(own).(voted := true);
    Outcome(election.(state := election.state[0 := rs']), if rs.voted then [] else [own], None)
  }

  predicate Accepts(who: Profile, coins: Coins, election: Election, vote: Vote)
    requires Readable(election, vote)
  {
    !Received(election, vote) && Validate(who, coins, election, vote) == Valid
  }

  function OnVote(who: Profile, coins: Coins, election: Election, vote: Vote): Outcome
    requires Readable(election, vote)
  {
    if Accepts(who, coins, election, vote)
    then
      var filed := FileVote(who, coins, election, vote);
      var cast := Cast(who, coins, vote, filed.election);
      Outcome(cast.election, filed.sent + cast.sent, cast.decided)
    else
      Outcome(election, [], None)
  }

  // A node that has not voted in round 0 opens with its own vote.
  predicate Opens(who: Profile, election: Election, vote: Vote) {
    vote.round == 0 && vote.signer != who.id && !election.Round(0).voted
  }

  // Store an accepted vote.
  function FileVote(who: Profile, coins: Coins, election: Election, vote: Vote): Outcome {
    var rs := election.Round(vote.round);
    var rs1 := rs.(voted := rs.voted || vote.signer == who.id).Add(vote);
    var own := FirstVote(who.id, vote.election, coins.first);
    var opens := Opens(who, election, vote);
    var rs2 := if opens then rs1.Add(own).(voted := true) else rs1;
    Outcome(election.(state := election.state[vote.round := rs2]), if opens then [own] else [], None)
  }

  predicate Casts(who: Profile, round: nat, election: Election) {
    && |election.View(round)| >= Quorum(who.f)
    && !election.Round(round + 1).voted
    && !election.isDecided
  }

  function NextVote(who: Profile, coins: Coins, vote: Vote, election: Election): Vote {
    var rs := election.Round(vote.round);
    var decision := MakeDecision(who.f, who.byzantine, coins.casting, rs.tally);
    Vote(who.id, vote.round + 1, decision.value, decision.voteType, Some(rs.votes.Keys), vote.election)
  }

  // Once a round holds a quorum, vote in the next one.
  function Cast(who: Profile, coins: Coins, vote: Vote, election: Election): Outcome {
    if Casts(who, vote.round, election) then
      var next := NextVote(who, coins, vote, election);
      var rs := election.Round(vote.round + 1).Add(next).(voted := true);
      Outcome(
        Election(election.state[vote.round + 1 := rs], next.voteType == Decide),
        [next],
        if next.voteType == Decide then Some(next.value) else None)
    else
      Outcome(election, [], None)
  }

  // ----- Verdicts are stable ------------------------------------------------

  // A later election state: rounds and votes are only added, the first vote
  // filed under a hash stays, and a decision is final.
  ghost predicate Grows(earlier: Election, later: Election) {
    && earlier.state.Keys <= later.state.Keys
    && (earlier.isDecided ==> later.isDecided)
    && (forall r | r in earlier.state :: ViewGrows(earlier.state[r].votes, later.state[r].votes))
  }

  ghost predicate ViewGrows(earlier: View, later: View) {
    forall s | s in earlier :: s in later && later[s] == earlier[s]
  }

  // An honest verdict other than Pending, given with the previous round at
  // hand, is the verdict of every later state.
  lemma VerdictStable(who: Profile, coins: Coins, coins': Coins, earlier: Election, later: Election, vote: Vote)
    requires !who.byzantine
    requires Grows(earlier, later)
    requires ProofReadable(later, vote)
    requires vote.round == 0 || vote.round - 1 in earlier.state
    requires Validate(who, coins, earlier, vote) != Pending
    ensures Validate(who, coins', later, vote) == Validate(who, coins, earlier, vote)
  {
    if vote.round > 0 {
      RestrictStable(earlier.View(vote.round - 1), later.View(vote.round - 1), vote.proof.value);
    }
  }
}
