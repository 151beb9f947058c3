/** The promises of the consensus, for every run of the network. */
module Theorems {
  import opened Basics
  import opened Votes
  import opened Tallies
  import opened Elections
  import opened Locals
  import opened Ballots
  import opened Safety
  import opened Network

  ghost predicate At(c: Committee, run: seq<System>, i: nat) {
    c.Fits() && IsRun(c, run) && i < |run|
  }

  ghost predicate HonestAtTime(c: Committee, run: seq<System>, i: nat, p: NodeId) {
    At(c, run, i) && p in c.Honest() && p in run[i].nodes
  }

  lemma Later(c: Committee, run: seq<System>, i: nat, j: nat, p: NodeId, hash: BlockHash)
    requires HonestAtTime(c, run, i, p) && At(c, run, j) && i <= j
    ensures p in run[j].nodes
    ensures LocalGrows(LocalOf(run[i].nodes[p], hash), LocalOf(run[j].nodes[p], hash))
  {
    hide BallotInv, HonestInv, IsRun, LocalGrows, LocalOf;
    HonestAt(c, run, i, hash);
    HonestAt(c, run, j, hash);
    RunGrows(c, run, i, j, hash);
    assert p in BallotOf(run[i], hash).locals;
  }

  // No two honest nodes ever record different values for an election, whenever
  // either of them does.
  lemma AgreementAlways(c: Committee, run: seq<System>, i: nat, p: NodeId, j: nat, q: NodeId, hash: BlockHash)
    requires HonestAtTime(c, run, i, p) && hash in run[i].nodes[p].decided
    requires HonestAtTime(c, run, j, q) && hash in run[j].nodes[q].decided
    ensures run[i].nodes[p].decided[hash] == run[j].nodes[q].decided[hash]
  {
    hide BallotInv, HonestInv, IsRun;
    var last := if i <= j then j else i;
    Later(c, run, i, last, p, hash);
    Later(c, run, j, last, q, hash);
    HonestAt(c, run, last, hash);
    Agreement(c, hash, HonestBallot(c, run[last], hash), p, q);
  }

  // Over the whole run, honest views hold Commits of one value only.
  lemma OneValueCommitted(c: Committee, run: seq<System>, i: nat, r: nat, v: Value, j: nat, q: nat, w: Value, hash: BlockHash)
    requires At(c, run, i) && HasCommit(HonestBallot(c, run[i], hash), r, v)
    requires At(c, run, j) && HasCommit(HonestBallot(c, run[j], hash), q, w)
    ensures v == w
  {
    hide BallotInv, HonestInv, IsRun, HasCommit;
    var last := if i <= j then j else i;
    CommitPersists(c, run, i, last, r, v, hash);
    CommitPersists(c, run, j, last, q, w, hash);
    HonestAt(c, run, last, hash);
    CommitsAgree(c, hash, HonestBallot(c, run[last], hash), r, v, q, w);
  }

  lemma CommitPersists(c: Committee, run: seq<System>, i: nat, j: nat, r: nat, v: Value, hash: BlockHash)
    requires At(c, run, i) && At(c, run, j) && i <= j
    requires HasCommit(HonestBallot(c, run[i], hash), r, v)
    ensures HasCommit(HonestBallot(c, run[j], hash), r, v)
  {
    hide BallotInv, HonestInv, IsRun;
    HonestAt(c, run, i, hash);
    HonestAt(c, run, j, hash);
    var before, after := HonestBallot(c, run[i], hash), HonestBallot(c, run[j], hash);
    var p, s :| p in before.locals && s in ViewAt(before, p, r) && ViewAt(before, p, r)[s].Choice() == Commits(v);
    Later(c, run, i, j, p, hash);
    assert ViewGrows(ViewAt(before, p, r), ViewAt(after, p, r));
    assert s in ViewAt(after, p, r) && ViewAt(after, p, r)[s].Choice() == Commits(v);
  }

  // At any time, the first Commit in honest views locks the value from there on.
  lemma ValueLockAlways(c: Committee, run: seq<System>, i: nat, hash: BlockHash, r: nat, v: Value)
    requires At(c, run, i) && FirstCommit(HonestBallot(c, run[i], hash), r, v)
    ensures Within(HonestBallot(c, run[i], hash), r, Leaning(v))
    ensures forall q: nat | q > r :: Within(HonestBallot(c, run[i], hash), q, Locked(v))
  {
    hide BallotInv, HonestInv, IsRun;
    HonestAt(c, run, i, hash);
    ValueLock(c, hash, HonestBallot(c, run[i], hash), r, v);
  }

  // If every honest first vote of the election so far is v, every honest vote
  // and every honest decision so far is v.
  lemma StrongValidityAlways(c: Committee, run: seq<System>, i: nat, hash: BlockHash, v: Value)
    requires At(c, run, i)
    requires forall p | p in c.Honest() && p in run[i].nodes ::
      var log := LogOf(run[i].nodes[p].outbox, hash); log != [] ==> log[0].value == v
    ensures forall p | p in c.Honest() ::
      p in run[i].nodes
      && (forall vote | vote in LogOf(run[i].nodes[p].outbox, hash) :: vote.value == v)
      && (hash in run[i].nodes[p].decided ==> run[i].nodes[p].decided[hash] == v)
  {
    hide BallotInv, HonestInv, IsRun;
    HonestAt(c, run, i, hash);
    var ballot := HonestBallot(c, run[i], hash);
    StrongValidity(c, hash, ballot, v);
    forall p | p in c.Honest()
      ensures p in run[i].nodes
      ensures forall vote | vote in LogOf(run[i].nodes[p].outbox, hash) :: vote.value == v
      ensures hash in run[i].nodes[p].decided ==> run[i].nodes[p].decided[hash] == v
    {
      assert ballot.locals[p] == LocalOf(run[i].nodes[p], hash);
    }
  }

  // At any time, two rounds after the first Commit of v and later, a vote in an
  // honest view is a Decide of v, but for the votes for Zero that their caster
  // alone has in view, cast from less than a quorum of Commits.
  lemma BoundedDecisionAlways(c: Committee, run: seq<System>, i: nat, hash: BlockHash, r: nat, v: Value,
                              q: nat, p: NodeId, s: NodeId)
    requires HonestAtTime(c, run, i, p)
    requires FirstCommit(HonestBallot(c, run[i], hash), r, v) && q >= r + 2
    requires s in run[i].nodes[p].ElectionOf(hash).View(q)
    ensures
      var election := run[i].nodes[p].ElectionOf(hash);
      var vote := election.View(q)[s];
      && vote.proof.Some?
      && (vote.Choice() == Decides(v) <==>
          v == One || s != p
          || |Signers(Restrict(election.View(q - 1), vote.proof.value), Commits(Zero))| >= Quorum(c.f))
  {
    hide BallotInv, HonestInv, IsRun, FirstCommit;
    HonestAt(c, run, i, hash);
    BoundedDecision(c, hash, HonestBallot(c, run[i], hash), r, v, q, p, s);
  }

  // If all first votes accepted so far by honest nodes are v, every vote of
  // round 1 is a Commit and every vote of round 2 a Decide of v.
  lemma UnanimityAlways(c: Committee, run: seq<System>, i: nat, hash: BlockHash, v: Value)
    requires At(c, run, i) && Within(HonestBallot(c, run[i], hash), 0, {Initials(v)})
    ensures Within(HonestBallot(c, run[i], hash), 1, {Commits(v)})
    ensures Within(HonestBallot(c, run[i], hash), 2, {Decides(v)})
  {
    hide BallotInv, HonestInv, IsRun, Within;
    HonestAt(c, run, i, hash);
    UnanimityDecides(c, hash, HonestBallot(c, run[i], hash), v);
  }

  // What an honest node makes, at any time, of a vote another has cast by then.
  lemma RoundTripAlways(c: Committee, run: seq<System>, i: nat, hash: BlockHash, p: NodeId, k: nat, q: NodeId, coins: Coins)
    requires HonestAtTime(c, run, i, p) && HonestAtTime(c, run, i, q)
    requires k + 1 < |LogOf(run[i].nodes[p].outbox, hash)|
    requires k in run[i].nodes[q].ElectionOf(hash).state
    ensures
      var vote := LogOf(run[i].nodes[p].outbox, hash)[k + 1];
      && vote.proof.Some? && vote.round == k + 1
      && var verdict := Validate(c.Who(q), coins, run[i].nodes[q].ElectionOf(hash), vote);
      && var basis := Restrict(run[i].nodes[p].ElectionOf(hash).View(k), vote.proof.value);
      && (verdict == Pending <==> !(vote.proof.value <= run[i].nodes[q].ElectionOf(hash).View(k).Keys))
      && (verdict == Valid <==>
          && vote.proof.value <= run[i].nodes[q].ElectionOf(hash).View(k).Keys
          && (|| Signers(basis, Decides(Zero)) == {}
              || |Signers(basis, Commits(Zero))| >= Quorum(c.f)))
  {
    hide BallotInv, HonestInv, IsRun;
    HonestAt(c, run, i, hash);
    CastValidateRoundTrip(c, hash, HonestBallot(c, run[i], hash), p, k, q, coins);
  }

  // A decision is recorded once and for all, exactly with the election's flag,
  // and is the value of the node's last own vote, its only Decide.
  lemma DecisionRecord(c: Committee, run: seq<System>, i: nat, j: nat, p: NodeId, hash: BlockHash)
    requires HonestAtTime(c, run, i, p) && At(c, run, j) && i <= j
    ensures p in run[j].nodes
    ensures var node, later := run[i].nodes[p], run[j].nodes[p];
      var log := LogOf(node.outbox, hash);
      && (hash in node.decided <==> node.ElectionOf(hash).isDecided)
      && (hash in node.decided ==>
          && hash in later.decided && later.decided[hash] == node.decided[hash]
          && log != [] && log[|log| - 1].Choice() == Decides(node.decided[hash]))
      && (forall k | 0 <= k < |log| && log[k].voteType == Decide :: hash in node.decided && k == |log| - 1)
  {
    hide BallotInv, HonestInv, IsRun;
    Later(c, run, i, j, p, hash);
    NodeLocal(c, run, i, p, hash);
  }

  lemma NodeLocal(c: Committee, run: seq<System>, i: nat, p: NodeId, hash: BlockHash)
    requires At(c, run, i) && p in run[i].nodes
    ensures LocalInv(c.Who(p), hash, LocalOf(run[i].nodes[p], hash))
  {
    RunInv(c, run, i, hash);
    assert p in BallotOf(run[i], hash).locals;
  }

  // Vote-once: the k-th vote a node broadcasts in an election is its own vote of
  // round k, kept in its own view.  This holds of every node running the code,
  // byzantine ones included.
  lemma VoteOnce(c: Committee, run: seq<System>, i: nat, p: NodeId, hash: BlockHash, k: nat)
    requires At(c, run, i) && p in run[i].nodes
    requires k < |LogOf(run[i].nodes[p].outbox, hash)|
    ensures var vote := LogOf(run[i].nodes[p].outbox, hash)[k];
      && vote.signer == p && vote.round == k && vote.election == hash
      && (k > 0 ==> vote.proof.Some? && |vote.proof.value| >= Quorum(c.f))
      && p in run[i].nodes[p].ElectionOf(hash).View(k)
      && run[i].nodes[p].ElectionOf(hash).View(k)[p] == vote
  {
    hide BallotInv, HonestInv, IsRun;
    NodeLocal(c, run, i, p, hash);
    LogBelongs(c.Who(p), hash, LocalOf(run[i].nodes[p], hash), k);
  }

  // The rounds a node stores: contiguous from 0, marked as voted exactly when
  // they hold its own vote; and while undecided it has voted in all of them,
  // and past each that holds a quorum.
  lemma RoundDiscipline(c: Committee, run: seq<System>, i: nat, p: NodeId, hash: BlockHash, r: nat)
    requires At(c, run, i) && p in run[i].nodes && r in run[i].nodes[p].ElectionOf(hash).state
    ensures var election := run[i].nodes[p].ElectionOf(hash);
      && (forall q: nat | q <= r :: q in election.state)
      && (election.Round(r).voted <==> p in election.View(r))
      && (election.Round(r).voted <==> r < |LogOf(run[i].nodes[p].outbox, hash)|)
      && (!election.isDecided ==> election.Round(r).voted)
      && (!election.isDecided && |election.View(r)| >= Quorum(c.f) ==> election.Round(r + 1).voted)
  {
    hide BallotInv, HonestInv, IsRun;
    NodeLocal(c, run, i, p, hash);
    var local := LocalOf(run[i].nodes[p], hash);
    forall q: nat | q <= r ensures q in local.election.state {
      RoundsBelow(c.Who(p), hash, local.election, r, q);
    }
    assert RoundOk(c.Who(p), hash, local.election, r, None);
    assert r + 1 in local.election.state ==> RoundOk(c.Who(p), hash, local.election, r + 1, None);
  }

  lemma {:induction false} RoundsBelow(who: Profile, hash: BlockHash, election: Election, r: nat, q: nat)
    requires RoundsOk(who, hash, election, None) && r in election.state && q <= r
    ensures q in election.state
  {
    if q < r {
      assert RoundOk(who, hash, election, r, None);
      RoundsBelow(who, hash, election, r - 1, q);
    }
  }

  // The tally kept vote by vote is the batch tally of the stored votes without
  // its Zero Decides, and misses nothing else.
  lemma TallyRefinesBatch(c: Committee, run: seq<System>, i: nat, p: NodeId, hash: BlockHash, r: nat)
    requires At(c, run, i) && p in run[i].nodes && r in run[i].nodes[p].ElectionOf(hash).state
    ensures var rs := run[i].nodes[p].ElectionOf(hash).state[r];
      && rs.tally == TallyOf(rs.votes).(zeroDecides := 0)
      && TallyOfSet(rs.votes.Values) == TallyOf(rs.votes)
      && rs.tally.Sum() + |Signers(rs.votes, Decides(Zero))| == |rs.votes|
  {
    hide BallotInv, HonestInv, IsRun;
    NodeLocal(c, run, i, p, hash);
    var election := run[i].nodes[p].ElectionOf(hash);
    assert RoundOk(c.Who(p), hash, election, r, None);
    TallySum(election.state[r].votes);
    BatchTally(election.state[r].votes);
  }

  // A verdict other than Pending, given with the previous round at hand, is
  // given for ever.
  lemma VerdictIsFinal(c: Committee, run: seq<System>, i: nat, j: nat, p: NodeId, vote: Vote, coins: Coins, coins': Coins)
    requires HonestAtTime(c, run, i, p) && HonestAtTime(c, run, j, p) && i <= j
    requires vote in run[i].sent
    requires vote.round > 0 ==> vote.round - 1 in run[i].nodes[p].ElectionOf(vote.election).state
    ensures vote.round > 0 ==> vote.proof.Some?
    ensures
      var verdict := Validate(c.Who(p), coins, run[i].nodes[p].ElectionOf(vote.election), vote);
      verdict == Pending || Validate(c.Who(p), coins', run[j].nodes[p].ElectionOf(vote.election), vote) == verdict
  {
    hide BallotInv, HonestInv, IsRun;
    Later(c, run, i, j, p, vote.election);
    SentIsProven(c, run, i, vote);
    var earlier, later := run[i].nodes[p].ElectionOf(vote.election), run[j].nodes[p].ElectionOf(vote.election);
    if Validate(c.Who(p), coins, earlier, vote) != Pending {
      VerdictStable(c.Who(p), coins, coins', earlier, later, vote);
    }
  }

  lemma SentIsProven(c: Committee, run: seq<System>, i: nat, vote: Vote)
    requires At(c, run, i) && vote in run[i].sent
    ensures Proven(c.f, vote)
  {
    RunInv(c, run, i, vote.election);
    assert vote in BallotOf(run[i], vote.election).sent;
    assert Genuine(c, vote.election, BallotOf(run[i], vote.election), vote);
  }

  // Neither of the two branches marked as unreachable is ever taken: not with
  // the tally an honest node casts from, nor with any it validates a proof by.
  lemma DeadBranches(c: Committee, run: seq<System>, i: nat, p: NodeId, hash: BlockHash, r: nat, proof: set<NodeId>)
    requires HonestAtTime(c, run, i, p)
    ensures var round := run[i].nodes[p].ElectionOf(hash).Round(r);
      forall tally | tally == round.tally || tally == TallyOf(Restrict(round.votes, proof)) ::
        !CommitClash(c.f, tally) && !FallsThrough(c.f, tally)
  {
    hide BallotInv, HonestInv, IsRun;
    HonestAt(c, run, i, hash);
    NeverClashes(c, hash, HonestBallot(c, run[i], hash), p, r, proof);
  }
}
