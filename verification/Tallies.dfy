/** The two tallies of a round and the decision table that reads them. */
module Tallies {
  import opened Votes

  datatype Tally = Tally(
    zeroVotes: nat,
    zeroCommits: nat,
    oneVotes: nat,
    oneCommits: nat,
    zeroDecides: nat,
    oneDecides: nat)
  {
    function Sum(): nat {
      zeroVotes + zeroCommits + oneVotes + oneCommits + zeroDecides + oneDecides
    }

    // The source's `tally_vote`, branch by branch: its last branch repeats the
    // test for a One Decide, so a Zero Decide leaves every counter alone.
    function TallyVote(vote: Vote): Tally {
      if vote.voteType == InitialVote && vote.value == Zero then this.(zeroVotes := zeroVotes + 1)
      else if vote.voteType == Commit && vote.value == Zero then this.(zeroCommits := zeroCommits + 1)
      else if vote.voteType == InitialVote && vote.value == One then this.(oneVotes := oneVotes + 1)
      else if vote.voteType == Commit && vote.value == One then this.(oneCommits := oneCommits + 1)
      else if vote.voteType == Decide && vote.value == One then this.(oneDecides := oneDecides + 1)
      else if vote.voteType == Decide && vote.value == One then CountZeroDecide()
      else this
    }

    // One more vote, counted under its own value and type: what `from_votes` does.
    function Count(choice: Decision): Tally {
      match choice
      case Decision(Zero, InitialVote) => this.(zeroVotes := zeroVotes + 1)
      case Decision(Zero, Commit) => this.(zeroCommits := zeroCommits + 1)
      case Decision(Zero, Decide) => this.(zeroDecides := zeroDecides + 1)
      case Decision(One, InitialVote) => this.(oneVotes := oneVotes + 1)
      case Decision(One, Commit) => this.(oneCommits := oneCommits + 1)
      case Decision(One, Decide) => this.(oneDecides := oneDecides + 1)
    }

    function CountZeroDecide(): Tally { this.(zeroDecides := zeroDecides + 1) }
  }

  const EMPTY_TALLY := Tally(0, 0, 0, 0, 0, 0)

  // The validated votes of a round, filed under the hash of each vote.
  type View = map<NodeId, Vote>

  ghost predicate Keyed(view: View) {
    forall s | s in view :: view[s].Hash() == s
  }

  function Signers(view: View, choice: Decision): set<NodeId> {
    set s | s in view && view[s].Choice() == choice
  }

  // How many votes of a view carry each choice.
  function TallyOf(view: View): Tally {
    Tally(
      |Signers(view, Decision(Zero, InitialVote))|,
      |Signers(view, Decision(Zero, Commit))|,
      |Signers(view, Decision(One, InitialVote))|,
      |Signers(view, Decision(One, Commit))|,
      |Signers(view, Decision(Zero, Decide))|,
      |Signers(view, Decision(One, Decide))|)
  }

  // What a node sees when it casts: the Zero Decides are missing.
  function CastTally(view: View): Tally {
    TallyOf(view).(zeroDecides := 0)
  }

  // The part of a view that a proof names.
  function Restrict(view: View, proof: set<NodeId>): View {
    map s | s in proof && s in view :: view[s]
  }

  function WithChoice(votes: set<Vote>, choice: Decision): set<Vote> {
    set v | v in votes && v.Choice() == choice
  }

  function TallyOfSet(votes: set<Vote>): Tally {
    Tally(
      |WithChoice(votes, Decision(Zero, InitialVote))|,
      |WithChoice(votes, Decision(Zero, Commit))|,
      |WithChoice(votes, Decision(One, InitialVote))|,
      |WithChoice(votes, Decision(One, Commit))|,
      |WithChoice(votes, Decision(Zero, Decide))|,
      |WithChoice(votes, Decision(One, Decide))|)
  }

  lemma WithChoiceAdd(votes: set<Vote>, vote: Vote, choice: Decision)
    requires vote !in votes
    ensures |WithChoice(votes + {vote}, choice)| == |WithChoice(votes, choice)| + if vote.Choice() == choice then 1 else 0
  {
    if vote.Choice() == choice {
      assert WithChoice(votes + {vote}, choice) == WithChoice(votes, choice) + {vote};
    } else {
      assert WithChoice(votes + {vote}, choice) == WithChoice(votes, choice);
    }
  }

  lemma TallyOfSetAdd(votes: set<Vote>, vote: Vote)
    requires vote !in votes
    ensures TallyOfSet(votes + {vote}) == TallyOfSet(votes).Count(vote.Choice())
  {
    hide WithChoice;
    forall choice {
      WithChoiceAdd(votes, vote, choice);
    }
  }

  lemma TallyOfNoVotes()
    ensures TallyOfSet({}) == EMPTY_TALLY
  {
    forall choice ensures WithChoice({}, choice) == {} {}
  }

  method FromVotes(votes: set<Vote>) returns (tally: Tally)
    ensures tally == TallyOfSet(votes)
  {
    hide TallyOfSet;
    var zeroVotes, zeroCommits, oneVotes, oneCommits, oneDecides, zeroDecides := 0, 0, 0, 0, 0, 0;
    var rest := votes;
    ghost var done: set<Vote> := {};
    TallyOfNoVotes();
    while rest != {}
      invariant done + rest == votes && done !! rest
      invariant TallyOfSet(done) == Tally(zeroVotes, zeroCommits, oneVotes, oneCommits, zeroDecides, oneDecides)
      decreases |rest|
    {
      var vote :| vote in rest;
      TallyOfSetAdd(done, vote);
      if vote.value == Zero && vote.voteType == InitialVote {
        zeroVotes := zeroVotes + 1;
      } else if vote.value == Zero && vote.voteType == Commit {
        zeroCommits := zeroCommits + 1;
      } else if vote.value == Zero && vote.voteType == Decide {
        zeroDecides := zeroDecides + 1;
      } else if vote.value == One && vote.voteType == InitialVote {
        oneVotes := oneVotes + 1;
      } else if vote.value == One && vote.voteType == Commit {
        oneCommits := oneCommits + 1;
      } else if vote.value == One && vote.voteType == Decide {
        oneDecides := oneDecides + 1;
      }
      done := done + {vote};
      rest := rest - {vote};
    }
    assert done == votes;
    tally := Tally(zeroVotes, zeroCommits, oneVotes, oneCommits, zeroDecides, oneDecides);
  }

  // Counting the votes of a view and counting their signers is the same.
  lemma {:induction false} SignersByVote(view: View, choice: Decision)
    requires Keyed(view)
    ensures |WithChoice(view.Values, choice)| == |Signers(view, choice)|
    decreases |view|
  {
    if view == map[] {
      assert WithChoice(view.Values, choice) == {} && Signers(view, choice) == {};
    } else {
      var s :| s in view;
      var smaller := view - {s};
      SignersByVote(smaller, choice);
      assert view.Values == smaller.Values + {view[s]} by {
        forall v | v in view.Values ensures v in smaller.Values + {view[s]} {
          var k :| k in view && view[k] == v;
          assert k == s || (k in smaller && smaller[k] == v);
        }
        assert smaller.Values <= view.Values by {
          forall v | v in smaller.Values ensures v in view.Values {
            var k :| k in smaller && smaller[k] == v;
            assert k in view && view[k] == v;
          }
        }
      }
      assert forall k | k in smaller :: smaller[k].Hash() == k != view[s].Hash();
      WithChoiceAdd(smaller.Values, view[s], choice);
      SignersAdd(smaller, s, view[s], choice);
      assert smaller[s := view[s]] == view;
    }
  }

  lemma BatchTally(view: View)
    requires Keyed(view)
    ensures TallyOfSet(view.Values) == TallyOf(view)
  {
    forall choice {
      SignersByVote(view, choice);
    }
  }

  lemma SignersAdd(view: View, s: NodeId, vote: Vote, choice: Decision)
    requires s !in view
    ensures |Signers(view[s := vote], choice)| == |Signers(view, choice)| + if vote.Choice() == choice then 1 else 0
  {
    var larger := view[s := vote];
    if vote.Choice() == choice {
      assert Signers(larger, choice) == Signers(view, choice) + {s};
    } else {
      assert Signers(larger, choice) == Signers(view, choice);
    }
  }

  lemma TallyOfAdd(view: View, s: NodeId, vote: Vote)
    requires s !in view
    ensures TallyOf(view[s := vote]) == TallyOf(view).Count(vote.Choice())
  {
    hide Signers;
    forall choice {
      SignersAdd(view, s, vote, choice);
    }
  }

  // One incremental step computes the batch tally of the grown view, short of
  // its Zero Decides.
  lemma TallyVoteAdds(view: View, vote: Vote)
    requires vote.signer !in view
    ensures CastTally(view[vote.signer := vote]) == CastTally(view).TallyVote(vote)
  {
    hide TallyOf;
    TallyOfAdd(view, vote.signer, vote);
  }

  lemma EmptyTallies()
    ensures TallyOf(map[]) == EMPTY_TALLY == CastTally(map[])
  {
    forall choice ensures Signers(map[], choice) == {} {}
  }

  // Every vote of a view is counted exactly once by the batch tally.
  lemma {:induction false} TallySum(view: View)
    ensures TallyOf(view).Sum() == |view|
    decreases |view|
  {
    hide TallyOf;
    if view == map[] {
      EmptyTallies();
    } else {
      var s :| s in view;
      var smaller := view - {s};
      TallySum(smaller);
      TallyOfAdd(smaller, s, view[s]);
      assert view == smaller[s := view[s]];
      assert view.Keys == smaller.Keys + {s};
    }
  }

  // ----- The decision table -------------------------------------------------

  // "This should not happen!!!"
  predicate CommitClash(f: nat, tally: Tally) {
    tally.zeroCommits >= SemiQuorum(f) && tally.oneCommits >= SemiQuorum(f)
  }

  // The branches of `make_decision` that an honest node takes, in order.
  function Table(f: nat, tally: Tally): Decision {
    if CommitClash(f, tally) then Decision(Zero, InitialVote)
    else if tally.oneDecides > 0 then Decision(One, Decide)
    else if tally.zeroDecides > 0 then Decision(Zero, Decide)
    else if tally.zeroCommits >= Quorum(f) then Decision(Zero, Decide)
    else if tally.oneCommits >= Quorum(f) then Decision(One, Decide)
    else if tally.zeroVotes >= Quorum(f) || tally.zeroCommits > 0 then Decision(Zero, Commit)
    else if tally.oneVotes >= Quorum(f) || tally.oneCommits > 0 then Decision(One, Commit)
    else if tally.zeroVotes >= SemiQuorum(f) then Decision(Zero, InitialVote)
    else if UndecidedForOne(f, tally) then Decision(One, InitialVote)
    else Decision(Zero, InitialVote)
  }

  predicate UndecidedForOne(f: nat, tally: Tally) {
    && tally.zeroVotes < SemiQuorum(f) && tally.oneVotes < Quorum(f)
    && tally.zeroCommits == 0 && tally.oneCommits == 0
  }

  // The last branch of the table, "Should not be reached!", has this guard: no
  // earlier branch fired.
  predicate FallsThrough(f: nat, tally: Tally) {
    && !CommitClash(f, tally)
    && tally.oneDecides == 0 && tally.zeroDecides == 0
    && tally.zeroCommits < Quorum(f) && tally.oneCommits < Quorum(f)
    && !(tally.zeroVotes >= Quorum(f) || tally.zeroCommits > 0)
    && !(tally.oneVotes >= Quorum(f) || tally.oneCommits > 0)
    && tally.zeroVotes < SemiQuorum(f)
    && !UndecidedForOne(f, tally)
  }

  lemma NeverFallsThrough(f: nat, tally: Tally)
    ensures !FallsThrough(f, tally)
  {}

  // A byzantine node that has counted no One Decide flips coins instead.
  function MakeDecision(f: nat, byzantine: bool, random: Decision, tally: Tally): Decision {
    if byzantine && tally.oneDecides == 0 then random else Table(f, tally)
  }

  // Casting and validating agree on a view exactly when the Zero Decides that
  // the casting tally misses make no difference.
  lemma CastAgreesWithValidate(f: nat, view: View)
    ensures Table(f, CastTally(view)) == Table(f, TallyOf(view))
       <==> (|| Signers(view, Decision(Zero, Decide)) == {}
             || CommitClash(f, TallyOf(view))
             || Signers(view, Decision(One, Decide)) != {}
             || |Signers(view, Decision(Zero, Commit))| >= Quorum(f))
  {
    assert Signers(view, Decision(Zero, Decide)) == {} <==> TallyOf(view).zeroDecides == 0;
    assert Signers(view, Decision(One, Decide)) == {} <==> TallyOf(view).oneDecides == 0;
  }

  lemma RestrictStable(view: View, larger: View, proof: set<NodeId>)
    requires proof <= view.Keys
    requires forall s | s in view :: s in larger && larger[s] == view[s]
    ensures Restrict(larger, proof) == Restrict(view, proof)
    ensures Restrict(view, proof).Keys == proof
  {}
}
