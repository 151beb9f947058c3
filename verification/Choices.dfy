/** What a quorum of votes calls for, and that votes are exactly what their proofs call for. */
module Choices {
  import opened Basics
  import opened Votes
  import opened Tallies
  import opened Elections
  import opened Locals
  import opened Ballots
  import opened Safety

  // A Decide of a value is called for by a Decide of it, if such are counted,
  // or by a quorum of Commits.
  predicate CallsToDecide(f: nat, view: View, v: Value, counted: set<Value>) {
    |Signers(view, Commits(v))| >= Quorum(f) || (v in counted && Signers(view, Decides(v)) != {})
  }

  // A Commit is called for by a quorum of first votes, or by any Commit.
  predicate CallsToCommit(f: nat, view: View, v: Value) {
    |Signers(view, Initials(v))| >= Quorum(f) || Signers(view, Commits(v)) != {}
  }

  predicate CallsFor(f: nat, view: View, counted: set<Value>, choice: Decision) {
    match choice.voteType
    case Decide => CallsToDecide(f, view, choice.value, counted)
    case Commit => CallsToCommit(f, view, choice.value) && !CallsToDecide(f, view, choice.value, counted)
    case InitialVote =>
      && !CallsToDecide(f, view, Zero, counted) && !CallsToDecide(f, view, One, counted)
      && !CallsToCommit(f, view, Zero) && !CallsToCommit(f, view, One)
      && (choice.value == Zero <==> |Signers(view, Initials(Zero))| >= SemiQuorum(f))
  }

  const BOTH := {Zero, One}

  // Who casts does not count Zero Decides.
  const CASTING := {One}

  // ----- The table on any tally ---------------------------------------------------

  // Whatever is counted: a Decide of v needs a Decide or a quorum of Commits of
  // v, and a Commit of v a quorum of first votes or a Commit of v.
  lemma TableRests(f: nat, view: View, v: Value)
    ensures Table(f, TallyOf(view)) == Decides(v) ==> CallsToDecide(f, view, v, BOTH)
    ensures Table(f, CastTally(view)) == Decides(v) ==> CallsToDecide(f, view, v, CASTING)
    ensures Table(f, TallyOf(view)) == Commits(v) || Table(f, CastTally(view)) == Commits(v) ==> CallsToCommit(f, view, v)
    ensures CommitClash(f, TallyOf(view)) ==> Table(f, TallyOf(view)) == Table(f, CastTally(view)) == Initials(Zero)
  {
    assert Signers(view, Decides(v)) != {} <==> |Signers(view, Decides(v))| > 0;
    assert Signers(view, Commits(v)) != {} <==> |Signers(view, Commits(v))| > 0;
    assert v.Zero? || v.One?;
  }

  // ----- Views of one voice -----------------------------------------------------------

  // The votes of a round are first votes, or lean to one value, or are locked on it.
  ghost predicate OneVoice(view: View, v: Value) {
    Only(view, ANY_INITIAL) || Only(view, Leaning(v)) || Only(view, Locked(v))
  }

  lemma EmptyCounts(view: View)
    ensures forall choice :: Signers(view, choice) == {} <==> |Signers(view, choice)| == 0
  {
    hide Signers;
  }

  lemma InitialsCallFor(f: nat, view: View, choice: Decision)
    requires Only(view, ANY_INITIAL) && Quorum(f) <= |view| <= TotalNodes(f)
    ensures Table(f, TallyOf(view)) == choice <==> CallsFor(f, view, BOTH, choice)
    ensures Table(f, CastTally(view)) == choice <==> CallsFor(f, view, CASTING, choice)
  {
    OnlyCounts(view, ANY_INITIAL);
    EmptyCounts(view);
    hide Signers;
    assert choice.value.Zero? || choice.value.One?;
  }

  lemma LeaningCallsFor(f: nat, view: View, v: Value, choice: Decision)
    requires Only(view, Leaning(v)) && Quorum(f) <= |view|
    ensures Table(f, TallyOf(view)) == choice <==> CallsFor(f, view, BOTH, choice)
    ensures Table(f, CastTally(view)) == choice <==> CallsFor(f, view, CASTING, choice)
  {
    OnlyCounts(view, Leaning(v));
    EmptyCounts(view);
    hide Signers;
    assert choice.value.Zero? || choice.value.One?;
    assert v.Zero? || v.One?;
  }

  lemma LockedCallsFor(f: nat, view: View, v: Value, choice: Decision)
    requires Only(view, Locked(v)) && Quorum(f) <= |view|
    ensures Table(f, TallyOf(view)) == choice <==> CallsFor(f, view, BOTH, choice)
    ensures Signers(view, Commits(v)) != {} ==>
      (Table(f, CastTally(view)) == choice <==> CallsFor(f, view, CASTING, choice))
  {
    OnlyCounts(view, Locked(v));
    EmptyCounts(view);
    hide Signers;
    assert choice.value.Zero? || choice.value.One?;
    assert v.Zero? || v.One?;
  }

  // ----- Honest views ------------------------------------------------------------------

  lemma OneVoiceAt(c: Committee, hash: BlockHash, ballot: Ballot, p: NodeId, r: nat) returns (v: Value)
    requires c.Fits() && HonestInv(c, hash, ballot) && p in ballot.locals
    ensures OneVoice(ViewAt(ballot, p, r), v)
  {
    hide HonestInv;
    var found := FindFirstCommit(ballot, r + 1);
    v := Zero;
    if found.None? {
      OnlyInitials(c, hash, ballot, r);
      assert Within(ballot, r, ANY_INITIAL);
    } else {
      v := found.value.1;
      var first := found.value.0;
      ValueLock(c, hash, ballot, first, v);
      assert Within(ballot, r, if r == first then Leaning(v) else Locked(v));
    }
  }

  lemma PartOfView(c: Committee, hash: BlockHash, ballot: Ballot, p: NodeId, r: nat, basis: View)
    requires c.Fits() && HonestInv(c, hash, ballot) && p in ballot.locals && ViewGrows(basis, ViewAt(ballot, p, r))
    ensures |basis| <= TotalNodes(c.f)
  {
    hide HonestInv;
    forall s | s in basis ensures s in c.nodes {
      InView(c, hash, ballot, p, r, s);
    }
    SubsetSize(basis.Keys, c.nodes);
  }

  // On a quorum of votes from an honest view the table gives exactly what they
  // call for, to a validator and to the node that casts from them.
  lemma TableIsCalledFor(c: Committee, hash: BlockHash, ballot: Ballot, p: NodeId, r: nat, basis: View, choice: Decision)
    requires c.Fits() && HonestInv(c, hash, ballot) && p in ballot.locals
    requires ViewGrows(basis, ViewAt(ballot, p, r)) && |basis| >= Quorum(c.f)
    ensures Table(c.f, TallyOf(basis)) == choice <==> CallsFor(c.f, basis, BOTH, choice)
    ensures p in basis && basis[p].voteType != Decide ==>
      (Table(c.f, CastTally(basis)) == choice <==> CallsFor(c.f, basis, CASTING, choice))
  {
    hide HonestInv, Table, TallyOf, CastTally, CallsFor;
    var v := OneVoiceAt(c, hash, ballot, p, r);
    PartOfView(c, hash, ballot, p, r, basis);
    OnlyPart(basis, ViewAt(ballot, p, r), v);
    if Only(basis, ANY_INITIAL) {
      InitialsCallFor(c.f, basis, choice);
    } else if Only(basis, Leaning(v)) {
      LeaningCallsFor(c.f, basis, v, choice);
    } else {
      LockedCallsFor(c.f, basis, v, choice);
      if p in basis && basis[p].voteType != Decide {
        assert p in Signers(basis, Commits(v));
      }
    }
  }

  lemma OnlyPart(basis: View, view: View, v: Value)
    requires ViewGrows(basis, view) && OneVoice(view, v)
    ensures OneVoice(basis, v)
  {}

  // A vote past round 0 in an honest view is exactly what its proof calls for.
  lemma ChoiceExactly(c: Committee, hash: BlockHash, ballot: Ballot, p: NodeId, r: nat, s: NodeId, choice: Decision)
    requires c.Fits() && HonestInv(c, hash, ballot) && p in ballot.locals && s in ViewAt(ballot, p, r + 1)
    ensures
      var vote := ViewAt(ballot, p, r + 1)[s];
      && vote.proof.Some? && vote.proof.value <= ViewAt(ballot, p, r).Keys && |vote.proof.value| >= Quorum(c.f)
      && var basis := Restrict(ViewAt(ballot, p, r), vote.proof.value);
      vote.Choice() == choice <==> CallsFor(c.f, basis, if s == p then CASTING else BOTH, choice)
  {
    hide HonestInv, Table, TallyOf, CastTally, CallsFor;
    var basis := BasisOf(c, hash, ballot, p, r, s);
    assert Restrict(ViewAt(ballot, p, r), basis.Keys) == basis;
    TableIsCalledFor(c, hash, ballot, p, r, basis, choice);
  }

  predicate NoDecides(view: View) {
    forall s | s in view :: view[s].voteType != Decide
  }

  // A Decide that follows on no Decide rests on a quorum of Commits.
  lemma FirstDecideRests(c: Committee, hash: BlockHash, ballot: Ballot, p: NodeId, r: nat, s: NodeId)
    requires c.Fits() && HonestInv(c, hash, ballot) && p in ballot.locals && s in ViewAt(ballot, p, r)
    requires ViewAt(ballot, p, r)[s].voteType == Decide
    requires r > 0 ==> NoDecides(ViewAt(ballot, p, r - 1))
    ensures
      var vote := ViewAt(ballot, p, r)[s];
      && r > 0 && vote.proof.Some?
      && |Signers(Restrict(ViewAt(ballot, p, r - 1), vote.proof.value), Commits(vote.value))| >= Quorum(c.f)
  {
    hide HonestInv;
    InView(c, hash, ballot, p, r, s);
    var vote := ViewAt(ballot, p, r)[s];
    ChoiceExactly(c, hash, ballot, p, r - 1, s, vote.Choice());
    var basis := Restrict(ViewAt(ballot, p, r - 1), vote.proof.value);
    assert Signers(basis, Decides(vote.value)) == {};
  }

  // The verdict of an honest node on any vote with a quorum in its proof, by
  // what it stores of the round before.
  lemma VerdictExactly(c: Committee, hash: BlockHash, ballot: Ballot, q: NodeId, vote: Vote, coins: Coins)
    requires c.Fits() && HonestInv(c, hash, ballot) && q in ballot.locals && Proven(c.f, vote)
    ensures
      var election := ballot.locals[q].election;
      Validate(c.Who(q), coins, election, vote) ==
        if vote.round == 0 then (if vote.voteType == InitialVote then Valid else Invalid)
        else if vote.round - 1 !in election.state then Invalid
        else if !(vote.proof.value <= election.View(vote.round - 1).Keys) then Pending
        else if CallsFor(c.f, Restrict(election.View(vote.round - 1), vote.proof.value), BOTH, vote.Choice()) then Valid
        else Invalid
  {
    hide HonestInv, Table, TallyOf, CallsFor;
    HonestLocal(c, hash, ballot, q);
    if vote.round > 0 && vote.proof.value <= ballot.locals[q].election.View(vote.round - 1).Keys {
      var basis := Restrict(ViewAt(ballot, q, vote.round - 1), vote.proof.value);
      assert basis.Keys == vote.proof.value;
      TableIsCalledFor(c, hash, ballot, q, vote.round - 1, basis, vote.Choice());
    }
  }
}
