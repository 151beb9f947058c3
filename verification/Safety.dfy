/** Why Nero is safe: quorums of one round pin down what the next rounds can say. */
module Safety {
  import opened Basics
  import opened Votes
  import opened Tallies
  import opened Elections
  import opened Locals
  import opened Ballots

  function Initials(v: Value): Decision { Decision(v, InitialVote) }
  function Commits(v: Value): Decision { Decision(v, Commit) }
  function Decides(v: Value): Decision { Decision(v, Decide) }

  const ANY_INITIAL := {Initials(Zero), Initials(One)}

  function Leaning(v: Value): set<Decision> { {Initials(v), Commits(v)} }

  function Locked(v: Value): set<Decision> { {Commits(v), Decides(v)} }

  // ----- The table on views of known content ----------------------------------

  ghost predicate Only(view: View, choices: set<Decision>) {
    forall s | s in view :: view[s].Choice() in choices
  }

  lemma OnlyCounts(view: View, choices: set<Decision>)
    requires Only(view, choices)
    ensures forall choice | choice !in choices :: Signers(view, choice) == {}
    ensures TallyOf(view).Sum() == |view|
  {
    TallySum(view);
  }

  // A quorum of first votes with at most f against v leans towards v.
  lemma TableLeans(f: nat, view: View, v: Value)
    requires Only(view, ANY_INITIAL) && |view| >= Quorum(f)
    requires |Signers(view, Initials(Other(v)))| <= f
    ensures Table(f, TallyOf(view)) in Leaning(v)
    ensures CastTally(view) == TallyOf(view)
  {
    OnlyCounts(view, ANY_INITIAL);
  }

  lemma TableInitial(f: nat, view: View)
    requires Only(view, ANY_INITIAL) && |view| >= Quorum(f)
    ensures CastTally(view) == TallyOf(view)
    ensures Table(f, TallyOf(view)).voteType != Decide
    ensures forall v :: Table(f, TallyOf(view)) == Commits(v) ==> |Signers(view, Initials(v))| >= Quorum(f)
  {
    OnlyCounts(view, ANY_INITIAL);
  }

  // A quorum leaning towards v commits to it, or decides it.
  lemma TableLocks(f: nat, view: View, v: Value)
    requires Only(view, Leaning(v)) && |view| >= Quorum(f)
    ensures CastTally(view) == TallyOf(view)
    ensures Table(f, TallyOf(view)) in Locked(v)
    ensures Only(view, {Initials(v)}) ==> Table(f, TallyOf(view)) == Commits(v)
    ensures Only(view, {Commits(v)}) ==> Table(f, TallyOf(view)) == Decides(v)
  {
    OnlyCounts(view, Leaning(v));
    if Only(view, {Initials(v)}) {
      OnlyCounts(view, {Initials(v)});
    }
    if Only(view, {Commits(v)}) {
      OnlyCounts(view, {Commits(v)});
    }
  }

  // A quorum locked on v validates nothing but a Decide of v.
  lemma TableDecides(f: nat, view: View, v: Value)
    requires Only(view, Locked(v)) && |view| >= Quorum(f)
    ensures Table(f, TallyOf(view)) == Decides(v)
  {
    OnlyCounts(view, Locked(v));
  }

  // What a node casts from a locked quorum that holds its own Commit: One is
  // decided at once, Zero only when the Commits alone make a quorum.
  lemma CastDecides(f: nat, view: View, v: Value, own: NodeId)
    requires Only(view, Locked(v)) && |view| >= Quorum(f)
    requires own in view && view[own].voteType != Decide
    ensures Table(f, CastTally(view))
         == if v == One || |Signers(view, Commits(Zero))| >= Quorum(f) then Decides(v) else Commits(v)
  {
    OnlyCounts(view, Locked(v));
    assert own in Signers(view, Commits(v));
    if v == One && Signers(view, Decides(One)) == {} {
      assert |Signers(view, Commits(One))| == |view|;
    }
  }

  // ----- Views of a ballot ------------------------------------------------------

  function ViewAt(ballot: Ballot, p: NodeId, r: nat): View
    requires p in ballot.locals
  {
    ballot.locals[p].election.View(r)
  }

  // Every vote of round r in any honest view carries one of the choices.
  ghost predicate Within(ballot: Ballot, r: nat, choices: set<Decision>) {
    forall p | p in ballot.locals :: Only(ViewAt(ballot, p, r), choices)
  }

  ghost predicate HasCommit(ballot: Ballot, r: nat, v: Value) {
    exists p, s :: p in ballot.locals && s in ViewAt(ballot, p, r) && ViewAt(ballot, p, r)[s].Choice() == Commits(v)
  }

  ghost predicate NoCommit(ballot: Ballot, r: nat) {
    forall v :: !HasCommit(ballot, r, v)
  }

  ghost predicate NoCommitBefore(ballot: Ballot, r: nat) {
    forall q: nat | q < r :: NoCommit(ballot, q)
  }

  ghost predicate FirstCommit(ballot: Ballot, r: nat, v: Value) {
    HasCommit(ballot, r, v) && NoCommitBefore(ballot, r)
  }

  // A vote in view is one that was sent, and belongs where it stands.
  lemma InView(c: Committee, hash: BlockHash, ballot: Ballot, p: NodeId, r: nat, s: NodeId)
    requires HonestInv(c, hash, ballot) && p in ballot.locals && s in ViewAt(ballot, p, r)
    ensures var vote := ViewAt(ballot, p, r)[s];
      && vote.signer == s && vote.round == r && vote in ballot.sent && s in c.nodes
      && (s !in ballot.locals ==> s in c.byzantine)
      && (s in ballot.locals ==> r < |ballot.locals[s].log| && ballot.locals[s].log[r] == vote)
      && (r == 0 ==> vote.voteType == InitialVote)
  {
    assert RoundOk(c.Who(p), hash, ballot.locals[p].election, r, None);
    assert ViewsSent(ballot.locals[p].election, ballot.sent);
    assert Genuine(c, hash, ballot, ViewAt(ballot, p, r)[s]);
  }

  // Whoever looks, a signer has cast one vote in a round.
  lemma SameVote(c: Committee, hash: BlockHash, ballot: Ballot, p: NodeId, q: NodeId, r: nat, s: NodeId)
    requires HonestInv(c, hash, ballot) && p in ballot.locals && q in ballot.locals
    requires s in ViewAt(ballot, p, r) && s in ViewAt(ballot, q, r)
    ensures ViewAt(ballot, p, r)[s] == ViewAt(ballot, q, r)[s]
  {
    InView(c, hash, ballot, p, r, s);
    InView(c, hash, ballot, q, r, s);
  }

  lemma HonestLocal(c: Committee, hash: BlockHash, ballot: Ballot, p: NodeId)
    requires HonestInv(c, hash, ballot) && p in ballot.locals
    ensures !c.Who(p).byzantine && LocalInv(c.Who(p), hash, ballot.locals[p])
  {}

  // The votes a vote in view was derived from.
  ghost predicate Basis(c: Committee, ballot: Ballot, p: NodeId, r: nat, s: NodeId, basis: View)
    requires p in ballot.locals && s in ViewAt(ballot, p, r + 1)
  {
    var vote := ViewAt(ballot, p, r + 1)[s];
    && ViewGrows(basis, ViewAt(ballot, p, r))
    && |basis| >= Quorum(c.f)
    && vote.proof == Some(basis.Keys)
    && if s == p then
         p in basis && basis[p].voteType != Decide && vote.Choice() == Table(c.f, CastTally(basis))
       else
         vote.Choice() == Table(c.f, TallyOf(basis))
  }

  lemma BasisOf(c: Committee, hash: BlockHash, ballot: Ballot, p: NodeId, r: nat, s: NodeId) returns (basis: View)
    requires HonestInv(c, hash, ballot) && p in ballot.locals && s in ViewAt(ballot, p, r + 1)
    ensures Basis(c, ballot, p, r, s, basis)
  {
    hide HonestInv;
    HonestLocal(c, hash, ballot, p);
    JustifiedInView(c.Who(p), hash, ballot.locals[p], r, s);
    var vote := ViewAt(ballot, p, r + 1)[s];
    basis := Restrict(ViewAt(ballot, p, r), vote.proof.value);
    assert basis.Keys == vote.proof.value;
  }

  // No signer shows two choices in one round, whoever looks.
  lemma ChoicesDisjoint(c: Committee, hash: BlockHash, ballot: Ballot, r: nat,
                        p: NodeId, a: View, x: Decision, q: NodeId, b: View, y: Decision)
    requires c.Fits()
    requires HonestInv(c, hash, ballot) && p in ballot.locals && q in ballot.locals
    requires ViewGrows(a, ViewAt(ballot, p, r)) && ViewGrows(b, ViewAt(ballot, q, r))
    requires x != y
    ensures |Signers(a, x)| + |Signers(b, y)| <= TotalNodes(c.f)
  {
    hide HonestInv;
    forall s | s in Signers(a, x) ensures s in c.nodes && s !in Signers(b, y) {
      InView(c, hash, ballot, p, r, s);
      if s in b {
        SameVote(c, hash, ballot, p, q, r, s);
      }
    }
    forall s | s in Signers(b, y) ensures s in c.nodes {
      InView(c, hash, ballot, q, r, s);
    }
    SubsetSize(Signers(a, x) + Signers(b, y), c.nodes);
  }

  // ----- Value lock -------------------------------------------------------------

  // Before any Commit, only first votes are about.
  lemma {:induction false} OnlyInitials(c: Committee, hash: BlockHash, ballot: Ballot, r: nat)
    requires c.Fits() && HonestInv(c, hash, ballot)
    requires NoCommitBefore(ballot, r + 1)
    ensures Within(ballot, r, ANY_INITIAL)
  {
    hide HonestInv;
    if r > 0 {
      OnlyInitials(c, hash, ballot, r - 1);
    }
    forall p, s | p in ballot.locals && s in ViewAt(ballot, p, r)
      ensures ViewAt(ballot, p, r)[s].Choice() in ANY_INITIAL
    {
      InitialVoteInView(c, hash, ballot, r, p, s);
    }
  }

  lemma InitialVoteInView(c: Committee, hash: BlockHash, ballot: Ballot, r: nat, p: NodeId, s: NodeId)
    requires c.Fits() && HonestInv(c, hash, ballot) && NoCommit(ballot, r)
    requires r > 0 ==> Within(ballot, r - 1, ANY_INITIAL)
    requires p in ballot.locals && s in ViewAt(ballot, p, r)
    ensures ViewAt(ballot, p, r)[s].Choice() in ANY_INITIAL
  {
    hide HonestInv;
    InView(c, hash, ballot, p, r, s);
    var vote := ViewAt(ballot, p, r)[s];
    if r > 0 {
      var basis := BasisOf(c, hash, ballot, p, r - 1, s);
      assert Only(ViewAt(ballot, p, r - 1), ANY_INITIAL);
      TableInitial(c.f, basis);
      assert !HasCommit(ballot, r, vote.value);
    }
    assert vote.value.Zero? || vote.value.One?;
  }

  // The first Commit settles the value: a quorum of first votes stands behind
  // it, so no other quorum of that round can say otherwise.
  lemma FirstCommitLeans(c: Committee, hash: BlockHash, ballot: Ballot, r: nat, v: Value)
    requires c.Fits() && HonestInv(c, hash, ballot) && FirstCommit(ballot, r, v)
    ensures Within(ballot, r, Leaning(v))
  {
    hide HonestInv;
    var p, s :| p in ballot.locals && s in ViewAt(ballot, p, r) && ViewAt(ballot, p, r)[s].Choice() == Commits(v);
    InView(c, hash, ballot, p, r, s);
    OnlyInitials(c, hash, ballot, r - 1);
    var behind := BasisOf(c, hash, ballot, p, r - 1, s);
    TableInitial(c.f, behind);
    forall q, t | q in ballot.locals && t in ViewAt(ballot, q, r)
      ensures ViewAt(ballot, q, r)[t].Choice() in Leaning(v)
    {
      var basis := BasisOf(c, hash, ballot, q, r - 1, t);
      ChoicesDisjoint(c, hash, ballot, r - 1, p, behind, Initials(v), q, basis, Initials(Other(v)));
      TableLeans(c.f, basis, v);
    }
  }

  lemma LeaningLocks(c: Committee, hash: BlockHash, ballot: Ballot, r: nat, v: Value)
    requires c.Fits() && HonestInv(c, hash, ballot) && Within(ballot, r, Leaning(v))
    ensures Within(ballot, r + 1, Locked(v))
  {
    hide HonestInv;
    var next := r + 1;
    forall p, s | p in ballot.locals && s in ViewAt(ballot, p, next)
      ensures ViewAt(ballot, p, next)[s].Choice() in Locked(v)
    {
      var basis := BasisOf(c, hash, ballot, p, r, s);
      TableLocks(c.f, basis, v);
    }
  }

  // The choice of a vote that rests on a locked round: its validators demand a
  // Decide; its own caster may still commit to Zero.
  lemma LockedVote(c: Committee, hash: BlockHash, ballot: Ballot, r: nat, v: Value, p: NodeId, s: NodeId)
    requires c.Fits() && HonestInv(c, hash, ballot) && Within(ballot, r, Locked(v))
    requires p in ballot.locals && s in ViewAt(ballot, p, r + 1)
    ensures
      var vote := ViewAt(ballot, p, r + 1)[s];
      && vote.Choice() in Locked(v)
      && vote.proof.Some?
      && (vote.Choice() == Decides(v) <==>
          s != p || v == One
          || |Signers(Restrict(ViewAt(ballot, p, r), vote.proof.value), Commits(Zero))| >= Quorum(c.f))
  {
    hide HonestInv;
    var basis := BasisOf(c, hash, ballot, p, r, s);
    assert Restrict(ViewAt(ballot, p, r), basis.Keys) == basis;
    if s == p {
      CastDecides(c.f, basis, v, p);
    } else {
      TableDecides(c.f, basis, v);
    }
  }

  lemma {:induction false} StaysLocked(c: Committee, hash: BlockHash, ballot: Ballot, r: nat, v: Value, q: nat)
    requires c.Fits() && HonestInv(c, hash, ballot) && Within(ballot, r, Locked(v)) && r <= q
    ensures Within(ballot, q, Locked(v))
  {
    hide HonestInv;
    if r < q {
      StaysLocked(c, hash, ballot, r, v, q - 1);
      forall p, s | p in ballot.locals && s in ViewAt(ballot, p, q)
        ensures ViewAt(ballot, p, q)[s].Choice() in Locked(v)
      {
        LockedVote(c, hash, ballot, q - 1, v, p, s);
      }
    }
  }

  // In the round of the first Commit every honest view speaks for its value,
  // and in every later round it holds nothing but Commits and Decides of it.
  lemma ValueLock(c: Committee, hash: BlockHash, ballot: Ballot, r: nat, v: Value)
    requires c.Fits() && HonestInv(c, hash, ballot) && FirstCommit(ballot, r, v)
    ensures Within(ballot, r, Leaning(v))
    ensures forall q: nat | q > r :: Within(ballot, q, Locked(v))
  {
    hide HonestInv;
    FirstCommitLeans(c, hash, ballot, r, v);
    LeaningLocks(c, hash, ballot, r, v);
    forall q: nat | q > r ensures Within(ballot, q, Locked(v)) {
      StaysLocked(c, hash, ballot, r + 1, v, q);
    }
  }

  // What a first Commit says of any one vote in an honest view.
  lemma VoteUnderLock(c: Committee, hash: BlockHash, ballot: Ballot, r: nat, v: Value, p: NodeId, q: nat, s: NodeId)
    requires c.Fits() && HonestInv(c, hash, ballot) && FirstCommit(ballot, r, v)
    requires p in ballot.locals && s in ViewAt(ballot, p, q)
    ensures ViewAt(ballot, p, q)[s].Choice() in
      if q < r then ANY_INITIAL else if q == r then Leaning(v) else Locked(v)
  {
    hide HonestInv;
    if q < r {
      OnlyInitials(c, hash, ballot, q);
      assert Within(ballot, q, ANY_INITIAL);
    } else if q == r {
      FirstCommitLeans(c, hash, ballot, r, v);
      assert Within(ballot, q, Leaning(v));
    } else {
      ValueLock(c, hash, ballot, r, v);
      assert Within(ballot, q, Locked(v));
    }
    assert Only(ViewAt(ballot, p, q), if q < r then ANY_INITIAL else if q == r then Leaning(v) else Locked(v));
  }

  // ----- Agreement ----------------------------------------------------------------

  lemma NoCommitOfEither(ballot: Ballot, r: nat)
    requires !HasCommit(ballot, r, Zero) && !HasCommit(ballot, r, One)
    ensures NoCommit(ballot, r)
  {
    forall v: Value ensures !HasCommit(ballot, r, v) {
      assert v.Zero? || v.One?;
    }
  }

  lemma {:induction false} FindFirstCommit(ballot: Ballot, bound: nat) returns (found: Option<(nat, Value)>)
    ensures found.Some? ==> found.value.0 < bound && FirstCommit(ballot, found.value.0, found.value.1)
    ensures found.None? ==> NoCommitBefore(ballot, bound)
  {
    if bound == 0 {
      found := None;
    } else {
      found := FindFirstCommit(ballot, bound - 1);
      if found.None? {
        if HasCommit(ballot, bound - 1, Zero) {
          found := Some((bound - 1, Zero));
        } else if HasCommit(ballot, bound - 1, One) {
          found := Some((bound - 1, One));
        } else {
          NoCommitOfEither(ballot, bound - 1);
        }
      }
    }
  }

  // A Decide in view comes after a first Commit, and has its value.
  lemma DecideFollowsCommit(c: Committee, hash: BlockHash, ballot: Ballot, p: NodeId, k: nat, s: NodeId)
    returns (first: nat, v: Value)
    requires c.Fits() && HonestInv(c, hash, ballot)
    requires p in ballot.locals && s in ViewAt(ballot, p, k) && ViewAt(ballot, p, k)[s].voteType == Decide
    ensures FirstCommit(ballot, first, v) && first < k
    ensures ViewAt(ballot, p, k)[s].value == v
  {
    hide HonestInv;
    var found := FindFirstCommit(ballot, k + 1);
    if found.None? {
      OnlyInitials(c, hash, ballot, k);
      assert false;
    }
    first, v := found.value.0, found.value.1;
    VoteUnderLock(c, hash, ballot, first, v, p, k, s);
  }

  lemma FirstCommitUnique(ballot: Ballot, r: nat, v: Value, q: nat, w: Value)
    requires FirstCommit(ballot, r, v) && FirstCommit(ballot, q, w)
    ensures r == q
  {
    assert r < q ==> NoCommit(ballot, r);
    assert q < r ==> NoCommit(ballot, q);
  }

  // The decision of a node is the value of its own Decide vote, its last one.
  lemma DecisionInView(c: Committee, hash: BlockHash, ballot: Ballot, p: NodeId) returns (k: nat)
    requires HonestInv(c, hash, ballot) && p in ballot.locals && ballot.locals[p].decided.Some?
    ensures p in ViewAt(ballot, p, k) && ViewAt(ballot, p, k)[p].Choice() == Decides(ballot.locals[p].decided.value)
    ensures k < |ballot.locals[p].log| && ballot.locals[p].log[k].value == ballot.locals[p].decided.value
  {
    var local := ballot.locals[p];
    assert LocalInv(c.Who(p), hash, local);
    k := |local.log| - 1;
  }

  lemma Agreement(c: Committee, hash: BlockHash, ballot: Ballot, p: NodeId, q: NodeId)
    requires c.Fits() && HonestInv(c, hash, ballot)
    requires p in ballot.locals && ballot.locals[p].decided.Some?
    requires q in ballot.locals && ballot.locals[q].decided.Some?
    ensures ballot.locals[p].decided == ballot.locals[q].decided
  {
    hide HonestInv, FirstCommit;
    var k := DecisionInView(c, hash, ballot, p);
    var l := DecisionInView(c, hash, ballot, q);
    var r, v := DecideFollowsCommit(c, hash, ballot, p, k, p);
    var r', v' := DecideFollowsCommit(c, hash, ballot, q, l, q);
    FirstCommitUnique(ballot, r, v, r', v');
    VoteUnderLock(c, hash, ballot, r, v, q, l, q);
  }

  // All Commits in honest views, of whatever rounds, are of one value.
  lemma CommitsAgree(c: Committee, hash: BlockHash, ballot: Ballot, r: nat, v: Value, q: nat, w: Value)
    requires c.Fits() && HonestInv(c, hash, ballot)
    requires HasCommit(ballot, r, v) && HasCommit(ballot, q, w)
    ensures v == w
  {
    hide HonestInv;
    var found := FindFirstCommit(ballot, r + 1);
    assert found.None? ==> NoCommit(ballot, r);
    var p, s :| p in ballot.locals && s in ViewAt(ballot, p, r) && ViewAt(ballot, p, r)[s].Choice() == Commits(v);
    VoteUnderLock(c, hash, ballot, found.value.0, found.value.1, p, r, s);
    var p', s' :| p' in ballot.locals && s' in ViewAt(ballot, p', q) && ViewAt(ballot, p', q)[s'].Choice() == Commits(w);
    VoteUnderLock(c, hash, ballot, found.value.0, found.value.1, p', q, s');
  }

  // ----- Strong validity ------------------------------------------------------------

  ghost predicate HonestOpenWith(ballot: Ballot, v: Value) {
    forall p | p in ballot.locals && |ballot.locals[p].log| > 0 :: ballot.locals[p].log[0].value == v
  }

  lemma LogInView(c: Committee, hash: BlockHash, ballot: Ballot, p: NodeId, k: nat)
    requires HonestInv(c, hash, ballot) && p in ballot.locals && k < |ballot.locals[p].log|
    ensures p in ViewAt(ballot, p, k) && ViewAt(ballot, p, k)[p] == ballot.locals[p].log[k]
  {
    assert LocalInv(c.Who(p), hash, ballot.locals[p]);
  }

  lemma OpeningLeans(c: Committee, hash: BlockHash, ballot: Ballot, v: Value)
    requires c.Fits() && HonestInv(c, hash, ballot) && HonestOpenWith(ballot, v)
    ensures Within(ballot, 1, Leaning(v))
  {
    hide HonestInv;
    forall p, s | p in ballot.locals && s in ViewAt(ballot, p, 1)
      ensures ViewAt(ballot, p, 1)[s].Choice() in Leaning(v)
    {
      var basis := BasisOf(c, hash, ballot, p, 0, s);
      OpeningBasis(c, hash, ballot, v, p, basis);
      TableLeans(c.f, basis, v);
    }
  }

  lemma OpeningBasis(c: Committee, hash: BlockHash, ballot: Ballot, v: Value, p: NodeId, basis: View)
    requires c.Fits() && HonestInv(c, hash, ballot) && HonestOpenWith(ballot, v)
    requires p in ballot.locals && ViewGrows(basis, ViewAt(ballot, p, 0))
    ensures Only(basis, ANY_INITIAL)
    ensures |Signers(basis, Initials(Other(v)))| <= c.f
  {
    hide HonestInv;
    forall t | t in basis
      ensures basis[t].Choice() in ANY_INITIAL
      ensures basis[t].value != v ==> t in c.byzantine
    {
      InView(c, hash, ballot, p, 0, t);
      assert basis[t].value.Zero? || basis[t].value.One?;
    }
    SubsetSize(Signers(basis, Initials(Other(v))), c.byzantine);
  }

  // If the honest first votes agree on v, no honest node ever sees past round
  // 0, casts, or decides anything else, whatever the byzantine nodes send.
  lemma StrongValidity(c: Committee, hash: BlockHash, ballot: Ballot, v: Value)
    requires c.Fits() && HonestInv(c, hash, ballot) && HonestOpenWith(ballot, v)
    ensures Within(ballot, 1, Leaning(v))
    ensures forall r: nat | r > 1 :: Within(ballot, r, Locked(v))
    ensures forall p, k | p in ballot.locals && 0 <= k < |ballot.locals[p].log| :: ballot.locals[p].log[k].value == v
    ensures forall p | p in ballot.locals && ballot.locals[p].decided.Some? :: ballot.locals[p].decided == Some(v)
  {
    hide HonestInv;
    OpeningLeans(c, hash, ballot, v);
    LeaningLocks(c, hash, ballot, 1, v);
    forall r: nat | r > 1 ensures Within(ballot, r, Locked(v)) {
      StaysLocked(c, hash, ballot, 2, v, r);
    }
    forall p, k | p in ballot.locals && 0 <= k < |ballot.locals[p].log| ensures ballot.locals[p].log[k].value == v {
      LogInView(c, hash, ballot, p, k);
      if k > 0 {
        assert Within(ballot, k, if k == 1 then Leaning(v) else Locked(v));
        assert Only(ViewAt(ballot, p, k), if k == 1 then Leaning(v) else Locked(v));
      }
    }
    forall p | p in ballot.locals && ballot.locals[p].decided.Some? ensures ballot.locals[p].decided == Some(v) {
      var k := DecisionInView(c, hash, ballot, p);
    }
  }

  // ----- Bounded decision -------------------------------------------------------------

  // Two rounds after the first Commit of v, exactly these votes are not a
  // Decide of v: those that stand in their own caster's view alone, for Zero,
  // cast from less than a quorum of Commits.
  lemma BoundedDecision(c: Committee, hash: BlockHash, ballot: Ballot, r: nat, v: Value, q: nat, p: NodeId, s: NodeId)
    requires c.Fits() && HonestInv(c, hash, ballot) && FirstCommit(ballot, r, v)
    requires q >= r + 2 && p in ballot.locals && s in ViewAt(ballot, p, q)
    ensures
      var vote := ViewAt(ballot, p, q)[s];
      && vote.proof.Some?
      && (vote.Choice() == Decides(v) <==>
          v == One || s != p
          || |Signers(Restrict(ViewAt(ballot, p, q - 1), vote.proof.value), Commits(Zero))| >= Quorum(c.f))
  {
    hide HonestInv;
    ValueLock(c, hash, ballot, r, v);
    var previous: nat := q - 1;
    assert Within(ballot, previous, Locked(v));
    LockedVote(c, hash, ballot, previous, v, p, s);
  }

  // Unanimous accepted first votes are decided in round 2.
  lemma UnanimityDecides(c: Committee, hash: BlockHash, ballot: Ballot, v: Value)
    requires c.Fits() && HonestInv(c, hash, ballot) && Within(ballot, 0, {Initials(v)})
    ensures Within(ballot, 1, {Commits(v)})
    ensures Within(ballot, 2, {Decides(v)})
  {
    hide HonestInv;
    forall p, s | p in ballot.locals && s in ViewAt(ballot, p, 1) ensures ViewAt(ballot, p, 1)[s].Choice() == Commits(v) {
      var basis := BasisOf(c, hash, ballot, p, 0, s);
      TableLocks(c.f, basis, v);
    }
    forall p, s | p in ballot.locals && s in ViewAt(ballot, p, 2) ensures ViewAt(ballot, p, 2)[s].Choice() == Decides(v) {
      var basis := BasisOf(c, hash, ballot, p, 1, s);
      TableLocks(c.f, basis, v);
    }
  }

  // ----- Dead branches ------------------------------------------------------------------

  // No honest round ever holds Commits of both values.
  lemma NoMixedCommits(c: Committee, hash: BlockHash, ballot: Ballot, p: NodeId, r: nat)
    requires c.Fits() && HonestInv(c, hash, ballot) && p in ballot.locals
    ensures Signers(ViewAt(ballot, p, r), Commits(Zero)) == {} || Signers(ViewAt(ballot, p, r), Commits(One)) == {}
  {
    hide HonestInv;
    var found := FindFirstCommit(ballot, r + 1);
    forall s | s in ViewAt(ballot, p, r) && ViewAt(ballot, p, r)[s].voteType == Commit
      ensures found.Some? && ViewAt(ballot, p, r)[s].value == found.value.1
    {
      if found.Some? {
        VoteUnderLock(c, hash, ballot, found.value.0, found.value.1, p, r, s);
      }
      assert HasCommit(ballot, r, ViewAt(ballot, p, r)[s].value);
      assert found.None? ==> NoCommit(ballot, r);
    }
  }

  // So no tally an honest node casts or validates with reaches the branch that
  // "should not happen".
  lemma NeverClashes(c: Committee, hash: BlockHash, ballot: Ballot, p: NodeId, r: nat, proof: set<NodeId>)
    requires c.Fits() && HonestInv(c, hash, ballot) && p in ballot.locals
    ensures !CommitClash(c.f, ballot.locals[p].election.Round(r).tally)
    ensures !CommitClash(c.f, TallyOf(Restrict(ViewAt(ballot, p, r), proof)))
  {
    var view := ViewAt(ballot, p, r);
    NoMixedCommits(c, hash, ballot, p, r);
    forall v ensures Signers(Restrict(view, proof), Commits(v)) <= Signers(view, Commits(v)) {}
    if r in ballot.locals[p].election.state {
      assert RoundOk(c.Who(p), hash, ballot.locals[p].election, r, None);
      assert ballot.locals[p].election.Round(r).tally == CastTally(view);
    }
  }

  // ----- Cast and validate -----------------------------------------------------------------

  // An honest vote past round 0 reaches an honest node that stores the previous
  // round.  It is Pending exactly when that round lacks a signer of its proof,
  // and otherwise Valid exactly when its proof holds no Zero Decide, or a
  // quorum of Zero Commits as well.
  lemma CastValidateRoundTrip(c: Committee, hash: BlockHash, ballot: Ballot, p: NodeId, k: nat, q: NodeId, coins: Coins)
    requires c.Fits() && HonestInv(c, hash, ballot) && p in ballot.locals && q in ballot.locals
    requires k + 1 < |ballot.locals[p].log| && k in ballot.locals[q].election.state
    ensures
      var vote := ballot.locals[p].log[k + 1];
      && vote.proof.Some? && vote.round == k + 1
      && var verdict := Validate(c.Who(q), coins, ballot.locals[q].election, vote);
      && var basis := Restrict(ViewAt(ballot, p, k), vote.proof.value);
      && (verdict == Pending <==> !(vote.proof.value <= ViewAt(ballot, q, k).Keys))
      && (verdict == Valid <==>
          && vote.proof.value <= ViewAt(ballot, q, k).Keys
          && (|| Signers(basis, Decides(Zero)) == {}
              || |Signers(basis, Commits(Zero))| >= Quorum(c.f)))
  {
    hide HonestInv;
    var vote := ballot.locals[p].log[k + 1];
    HonestLocal(c, hash, ballot, q);
    LogInView(c, hash, ballot, p, k + 1);
    InView(c, hash, ballot, p, k + 1, p);
    var basis := BasisOf(c, hash, ballot, p, k, p);
    assert Restrict(ViewAt(ballot, p, k), vote.proof.value) == basis;
    if vote.proof.value <= ViewAt(ballot, q, k).Keys {
      SameBasis(c, hash, ballot, p, q, k, basis);
      CastAgreesWithValidate(c.f, basis);
      NeverClashes(c, hash, ballot, p, k, basis.Keys);
      OneValueDecided(c, hash, ballot, p, k, basis);
    }
  }

  lemma SameBasis(c: Committee, hash: BlockHash, ballot: Ballot, p: NodeId, q: NodeId, k: nat, basis: View)
    requires HonestInv(c, hash, ballot) && p in ballot.locals && q in ballot.locals
    requires ViewGrows(basis, ViewAt(ballot, p, k)) && basis.Keys <= ViewAt(ballot, q, k).Keys
    ensures Restrict(ViewAt(ballot, q, k), basis.Keys) == basis
  {
    hide HonestInv;
    forall s | s in basis ensures ViewAt(ballot, q, k)[s] == basis[s] {
      SameVote(c, hash, ballot, p, q, k, s);
    }
  }

  lemma OneValueDecided(c: Committee, hash: BlockHash, ballot: Ballot, p: NodeId, k: nat, basis: View)
    requires c.Fits() && HonestInv(c, hash, ballot) && p in ballot.locals
    requires ViewGrows(basis, ViewAt(ballot, p, k))
    ensures Signers(basis, Decides(Zero)) == {} || Signers(basis, Decides(One)) == {}
  {
    hide HonestInv;
    if Signers(basis, Decides(Zero)) != {} {
      var s :| s in Signers(basis, Decides(Zero));
      var first, v := DecideFollowsCommit(c, hash, ballot, p, k, s);
      forall t | t in basis && basis[t].voteType == Decide ensures basis[t].value == v {
        VoteUnderLock(c, hash, ballot, first, v, p, k, t);
      }
    }
  }
}
