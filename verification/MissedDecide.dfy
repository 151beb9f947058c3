/** A fault-free run in which a node misses a Zero Decide and commits once more. */
module MissedDecide {
  import opened Basics
  import opened Votes
  import opened Tallies
  import opened Elections
  import opened Locals
  import opened Ballots
  import opened Safety
  import opened Network

  const FOUR := Committee(1, {0, 1, 2, 3}, {})

  // ----- Ballots that come about in runs of the network ---------------------------

  ghost predicate Shows(c: Committee, run: seq<System>, hash: BlockHash, ballot: Ballot) {
    IsRun(c, run) && BallotOf(run[|run| - 1], hash) == ballot
  }

  ghost predicate Reachable(c: Committee, hash: BlockHash, ballot: Ballot) {
    exists run :: Shows(c, run, hash, ballot)
  }

  lemma ReachStart(c: Committee, hash: BlockHash)
    ensures Reachable(c, hash, NewBallot(c.nodes))
  {
    var run := [NewSystem(c.nodes)];
    assert BallotOf(run[0], hash) == NewBallot(c.nodes);
    assert Shows(c, run, hash, NewBallot(c.nodes));
  }

  lemma ReachNext(c: Committee, hash: BlockHash, ballot: Ballot, event: Event)
    requires Reachable(c, hash, ballot) && Enabled(c, hash, ballot, event) && !event.Idle?
    ensures Reachable(c, hash, Next(c, hash, ballot, event))
  {
    hide Enabled, Next, BallotOf, MayAct, Act;
    var run :| Shows(c, run, hash, ballot);
    var system, action := run[|run| - 1], ActionOf(event, hash);
    StepIsAct(c, system, event, hash);
    var longer := run + [Act(c, system, action)];
    forall i | 0 <= i < |longer| - 1 ensures Acts(c, longer[i], longer[i + 1]) {
      if i < |run| - 1 {
        assert Acts(c, run[i], run[i + 1]);
      }
    }
    assert Shows(c, longer, hash, Next(c, hash, ballot, event));
  }

  lemma ReachableInv(c: Committee, hash: BlockHash, ballot: Ballot)
    requires c.Fits() && Reachable(c, hash, ballot)
    ensures BallotInv(c, hash, ballot)
  {
    var run :| Shows(c, run, hash, ballot);
    hide IsRun, BallotInv, BallotOf;
    RunInv(c, run, |run| - 1, hash);
  }

  // ----- A node told by the votes it has filed ---------------------------------------

  const COINS := Coins(Zero, Decision(Zero, InitialVote), Decision(Zero, InitialVote))

  function Who(id: NodeId): Profile { Profile(1, id, false) }

  // The state of a round after filing these votes, one of them its own.
  function Filed(votes: seq<Vote>): RoundState {
    if votes == [] then RoundState(EMPTY_TALLY, true, map[])
    else Filed(votes[..|votes| - 1]).Add(votes[|votes| - 1])
  }

  function Rounds(rows: seq<seq<Vote>>): map<nat, RoundState> {
    map r: nat | r < |rows| :: Filed(rows[r])
  }

  lemma RoundsAre(rows: seq<seq<Vote>>, r: nat)
    ensures r in Rounds(rows) <==> r < |rows|
    ensures r < |rows| ==> Rounds(rows)[r] == Filed(rows[r])
  {
    hide Filed;
  }

  lemma RoundsUpdate(rows: seq<seq<Vote>>, r: nat, row: seq<Vote>)
    requires r < |rows|
    ensures Rounds(rows)[r := Filed(row)] == Rounds(rows[r := row])
  {
    hide Filed;
  }

  lemma RoundsPush(rows: seq<seq<Vote>>, row: seq<Vote>)
    ensures Rounds(rows)[|rows| := Filed(row)] == Rounds(rows + [row])
  {
    hide Filed;
  }

  // What a node knows that has filed rows[r] in round r and sent these votes.
  function Knows(rows: seq<seq<Vote>>, log: seq<Vote>, decided: Option<Value>): Local {
    Local(Election(Rounds(rows), decided.Some?), decided, log)
  }

  function Keep(row: seq<Vote>, vote: Vote): seq<Vote> { row + [vote] }

  lemma FiledKeep(row: seq<Vote>, vote: Vote)
    ensures Filed(Keep(row, vote)) == Filed(row).Add(vote)
    ensures Filed(row).voted
  {
    assert Keep(row, vote)[..|row|] == row;
  }

  // A vote that stands up to the previous row.
  ghost predicate Stands(rows: seq<seq<Vote>>, vote: Vote) {
    && vote.round < |rows|
    && vote.signer !in Filed(rows[vote.round]).votes
    && if vote.round == 0 then vote.voteType == InitialVote
       else
         && vote.proof.Some?
         && vote.proof.value <= Filed(rows[vote.round - 1]).votes.Keys
         && Table(1, TallyOf(Restrict(Filed(rows[vote.round - 1]).votes, vote.proof.value))) == vote.Choice()
  }

  lemma StandsIsAccepted(id: NodeId, rows: seq<seq<Vote>>, log: seq<Vote>, decided: Option<Value>, vote: Vote)
    requires Stands(rows, vote)
    ensures Readable(Knows(rows, log, decided).election, vote)
    ensures Accepts(Who(id), COINS, Knows(rows, log, decided).election, vote)
  {
    hide Filed, Table;
  }

  // Filing one more vote, no cast being due.
  lemma JustFiles(id: NodeId, rows: seq<seq<Vote>>, log: seq<Vote>, vote: Vote)
    requires Stands(rows, vote) && vote.signer != id
    requires vote.round + 1 < |rows| || |Filed(rows[vote.round]).votes| + 1 < Quorum(1)
    ensures Readable(Knows(rows, log, None).election, vote)
    ensures Knows(rows, log, None).After(OnVote(Who(id), COINS, Knows(rows, log, None).election, vote))
         == Knows(rows[vote.round := Keep(rows[vote.round], vote)], log, None)
  {
    var election, row := Knows(rows, log, None).election, rows[vote.round];
    StandsIsAccepted(id, rows, log, None, vote);
    FiledKeep(row, vote);
    RoundsAre(rows, vote.round);
    RoundsAre(rows, vote.round + 1);
    RoundsUpdate(rows, vote.round, Keep(row, vote));
    if vote.round + 1 < |rows| {
      FiledKeep(rows[vote.round + 1], vote);
    }
    assert vote.round + 1 < |rows| ==> election.Round(vote.round + 1).voted;
    var after := Knows(rows[vote.round := Keep(row, vote)], log, None);
    assert after.election == election.(state := election.state[vote.round := Filed(Keep(row, vote))]);
    hide Filed, Accepts, Stands, Rounds, Knows;
    FilesElection(id, election, vote, Filed(Keep(row, vote)));
    FilesOnly(id, Local(election, None, log), vote, Filed(Keep(row, vote)));
  }

  lemma FilesOnly(id: NodeId, local: Local, vote: Vote, filed: RoundState)
    requires Readable(local.election, vote) && Accepts(Who(id), COINS, local.election, vote)
    requires FileVote(Who(id), COINS, local.election, vote)
          == Outcome(local.election.(state := local.election.state[vote.round := filed]), [], None)
    requires |filed.votes| < Quorum(1) || local.election.Round(vote.round + 1).voted
    ensures local.After(OnVote(Who(id), COINS, local.election, vote))
         == local.(election := local.election.(state := local.election.state[vote.round := filed]))
  {
    hide Accepts, FileVote;
  }

  // The election after filing a vote in a round with an own vote.
  lemma FilesElection(id: NodeId, election: Election, vote: Vote, filed: RoundState)
    requires vote.signer != id && election.Round(vote.round).voted
    requires filed == election.Round(vote.round).Add(vote)
    ensures FileVote(Who(id), COINS, election, vote)
         == Outcome(election.(state := election.state[vote.round := filed]), [], None)
  {
  }

  // Filing the vote that makes a quorum of the last row, and voting next.
  lemma FilesAndCasts(id: NodeId, rows: seq<seq<Vote>>, log: seq<Vote>, vote: Vote, next: Vote)
    requires Stands(rows, vote) && vote.signer != id
    requires vote.round + 1 == |rows| && |Filed(rows[vote.round]).votes| + 1 == Quorum(1)
    requires
      var filed := Filed(rows[vote.round]).Add(vote);
      && next.signer == id && next.round == vote.round + 1 && next.election == vote.election
      && next.Choice() == Table(1, filed.tally)
      && next.proof == Some(filed.votes.Keys)
    ensures Readable(Knows(rows, log, None).election, vote)
    ensures Knows(rows, log, None).After(OnVote(Who(id), COINS, Knows(rows, log, None).election, vote))
         == Knows(
              rows[vote.round := Keep(rows[vote.round], vote)] + [[next]],
              log + [next],
              if next.voteType == Decide then Some(next.value) else None)
  {
    var election, row := Knows(rows, log, None).election, rows[vote.round];
    StandsIsAccepted(id, rows, log, None, vote);
    FiledKeep(row, vote);
    FiledKeep([], next);
    assert Keep([], next) == [next];
    assert Filed([]) == RoundState(EMPTY_TALLY, true, map[]);
    RoundsAre(rows, vote.round);
    RoundsAre(rows, vote.round + 1);
    var rows' := rows[vote.round := Keep(row, vote)];
    RoundsUpdate(rows, vote.round, Keep(row, vote));
    RoundsPush(rows', [next]);
    hide Filed, Accepts, Stands, Rounds, Table;
    FilesElection(id, election, vote, Filed(Keep(row, vote)));
    var filed := FileVote(Who(id), COINS, election, vote).election;
    CastsElection(id, filed, vote, next, Filed([next]));
    assert |rows'| == vote.round + 1;
  }

  // The election after casting from a round into an empty one.
  lemma CastsElection(id: NodeId, election: Election, vote: Vote, next: Vote, cast: RoundState)
    requires Casts(Who(id), vote.round, election) && vote.round + 1 !in election.state && !election.isDecided
    requires next == NextVote(Who(id), COINS, vote, election)
    requires cast == EMPTY_ROUND.Add(next).(voted := true)
    ensures Cast(Who(id), COINS, vote, election)
         == Outcome(
              Election(election.state[vote.round + 1 := cast], next.voteType == Decide),
              [next],
              if next.voteType == Decide then Some(next.value) else None)
  {
  }

  // ----- Rows of distinct signers -------------------------------------------------------

  ghost predicate Distinct(row: seq<Vote>) {
    forall i, j | 0 <= i < j < |row| :: row[i].signer != row[j].signer
  }

  // The view holds these votes under their signers, and no others.
  ghost predicate Holds(view: View, row: seq<Vote>) {
    && |view| == |row|
    && view.Keys == SignersOf(row)
    && forall v | v in row :: v.signer in view && view[v.signer] == v
  }

  lemma {:induction false} FiledHolds(row: seq<Vote>)
    requires Distinct(row)
    ensures Holds(Filed(row).votes, row)
  {
    if row != [] {
      var rest, last := row[..|row| - 1], row[|row| - 1];
      assert Distinct(rest);
      FiledHolds(rest);
      assert Filed(row) == Filed(rest).Add(last);
      hide Filed, Holds;
      LastDiffers(rest, last, row);
      HoldsMore(Filed(rest).votes, rest, last);
      assert rest + [last] == row;
    }
  }

  lemma HoldsMore(view: View, rest: seq<Vote>, last: Vote)
    requires Holds(view, rest) && last.signer !in SignersOf(rest)
    ensures Holds(view[last.signer := last], rest + [last])
  {
    SignersOfMore(rest, last);
    var more := view[last.signer := last];
    assert |more| == |view| + 1 && more.Keys == view.Keys + {last.signer};
    forall v | v in rest + [last] ensures v.signer in more && more[v.signer] == v {
      if v in rest {
        assert v.signer in SignersOf(rest);
      }
    }
    hide SignersOf;
  }

  lemma SignersOfMore(rest: seq<Vote>, last: Vote)
    ensures SignersOf(rest + [last]) == SignersOf(rest) + {last.signer}
  {}

  lemma LastDiffers(rest: seq<Vote>, last: Vote, row: seq<Vote>)
    requires row == rest + [last] && Distinct(row)
    ensures last.signer !in SignersOf(rest)
  {
    forall v | v in rest ensures v.signer != last.signer {
      var i :| 0 <= i < |rest| && rest[i] == v;
      assert row[i] == v && row[|rest|] == last;
    }
  }

  function SignersOf(row: seq<Vote>): set<NodeId> { set v | v in row :: v.signer }

  lemma FiledThree(a: Vote, b: Vote, d: Vote)
    requires Distinct([a, b, d])
    ensures Filed([a, b, d]).votes == map[a.signer := a, b.signer := b, d.signer := d]
    ensures Filed([a, b, d]).votes.Keys == {a.signer, b.signer, d.signer}
    ensures Filed([a, b, d]).tally == EMPTY_TALLY.TallyVote(a).TallyVote(b).TallyVote(d)
  {
    assert [a, b, d] == Keep(Keep(Keep([], a), b), d);
    FiledKeep(Keep(Keep([], a), b), d);
    FiledKeep(Keep([], a), b);
    FiledKeep([], a);
  }

  // The batch tally of the three votes a proof names.
  lemma ProvenByThree(view: View, a: Vote, b: Vote, d: Vote)
    requires Distinct([a, b, d])
    requires forall v | v in [a, b, d] :: v.signer in view && view[v.signer] == v
    ensures {a.signer, b.signer, d.signer} <= view.Keys
    ensures TallyOf(Restrict(view, {a.signer, b.signer, d.signer}))
         == EMPTY_TALLY.Count(a.Choice()).Count(b.Choice()).Count(d.Choice())
  {
    assert a in [a, b, d] && b in [a, b, d] && d in [a, b, d];
    assert [a, b, d][0].signer != [a, b, d][1].signer && [a, b, d][0].signer != [a, b, d][2].signer
        && [a, b, d][1].signer != [a, b, d][2].signer;
    assert Restrict(view, {a.signer, b.signer, d.signer}) == map[a.signer := a][b.signer := b][d.signer := d];
    hide TallyOf;
    EmptyTallies();
    TallyOfAdd(map[], a.signer, a);
    TallyOfAdd(map[a.signer := a], b.signer, b);
    TallyOfAdd(map[a.signer := a][b.signer := b], d.signer, d);
  }

  // ----- What a node makes of one vote ----------------------------------------------------

  ghost predicate Hears(id: NodeId, rows: seq<seq<Vote>>, log: seq<Vote>, vote: Vote,
                        rows': seq<seq<Vote>>, log': seq<Vote>, decided: Option<Value>) {
    var local := Knows(rows, log, None);
    && Readable(local.election, vote)
    && local.After(OnVote(Who(id), COINS, local.election, vote)) == Knows(rows', log', decided)
  }

  // A vote that follows from three votes of the previous row.
  ghost predicate Follows(rows: seq<seq<Vote>>, vote: Vote, basis: seq<Vote>) {
    && |basis| == 3 && Distinct(basis)
    && vote.round < |rows|
    && Distinct(rows[vote.round]) && (forall v | v in rows[vote.round] :: v.signer != vote.signer)
    && if vote.round == 0 then vote.voteType == InitialVote
       else
         && Distinct(rows[vote.round - 1])
         && (forall v | v in basis :: v in rows[vote.round - 1])
         && vote.proof.Some? && vote.proof.value == {basis[0].signer, basis[1].signer, basis[2].signer}
         && vote.Choice()
         == Table(1, EMPTY_TALLY.Count(basis[0].Choice()).Count(basis[1].Choice()).Count(basis[2].Choice()))
  }

  lemma FollowsStands(rows: seq<seq<Vote>>, vote: Vote, basis: seq<Vote>)
    requires Follows(rows, vote, basis)
    ensures Stands(rows, vote)
    ensures |Filed(rows[vote.round]).votes| == |rows[vote.round]|
  {
    hide Filed, Table, TallyOf, Restrict;
    var row := rows[vote.round];
    FiledHolds(row);
    if vote.round > 0 {
      FiledHolds(rows[vote.round - 1]);
      assert basis == [basis[0], basis[1], basis[2]];
      ProvenByThree(Filed(rows[vote.round - 1]).votes, basis[0], basis[1], basis[2]);
    }
  }

  // The rows with one more vote filed.
  ghost predicate OneMore(rows: seq<seq<Vote>>, vote: Vote, rows': seq<seq<Vote>>) {
    && vote.round < |rows| == |rows'|
    && rows'[vote.round] == rows[vote.round] + [vote]
    && forall r | 0 <= r < |rows| && r != vote.round :: rows'[r] == rows[r]
  }

  lemma HearsMore(id: NodeId, rows: seq<seq<Vote>>, log: seq<Vote>, vote: Vote, basis: seq<Vote>, rows': seq<seq<Vote>>)
    requires Follows(rows, vote, basis) && vote.signer != id
    requires vote.round + 1 < |rows| || |rows[vote.round]| < 2
    requires OneMore(rows, vote, rows')
    ensures Hears(id, rows, log, vote, rows', log, None)
  {
    hide Stands;
    FollowsStands(rows, vote, basis);
    JustFiles(id, rows, log, vote);
    assert rows' == rows[vote.round := Keep(rows[vote.round], vote)];
  }

  lemma HearsAndCasts(id: NodeId, rows: seq<seq<Vote>>, log: seq<Vote>, vote: Vote, basis: seq<Vote>, next: Vote,
                      rows': seq<seq<Vote>>, cast: seq<seq<Vote>>, log': seq<Vote>)
    requires cast == rows' + [[next]] && log' == log + [next]
    requires Follows(rows, vote, basis) && vote.signer != id
    requires vote.round + 1 == |rows| && |rows[vote.round]| == 2
    requires
      var a, b := rows[vote.round][0], rows[vote.round][1];
      && next.signer == id && next.round == vote.round + 1 && next.election == vote.election
      && next.Choice() == Table(1, EMPTY_TALLY.TallyVote(a).TallyVote(b).TallyVote(vote))
      && next.proof.Some? && next.proof.value == {a.signer, b.signer, vote.signer}
    requires OneMore(rows, vote, rows')
    ensures Hears(id, rows, log, vote, cast, log', if next.voteType == Decide then Some(next.value) else None)
  {
    hide Stands, Table;
    var row := rows[vote.round];
    FollowsStands(rows, vote, basis);
    assert Keep(row, vote) == [row[0], row[1], vote];
    FiledThree(row[0], row[1], vote);
    FiledKeep(row, vote);
    FilesAndCasts(id, rows, log, vote, next);
    assert rows' == rows[vote.round := Keep(row, vote)];
  }

  // ----- The votes of the run ----------------------------------------------------------------

  // Nodes 0, 1 and 2 open with Zero, node 3 with One.
  function Z(p: NodeId): Vote { FirstVote(p, 0, Zero) }
  const O := FirstVote(3, 0, One)

  // Nodes 0, 1 and 2 see the three Zeros and commit; node 3 does not.
  function K(p: NodeId): Vote { Vote(p, 1, Zero, Commit, Some({0, 1, 2}), 0) }
  const I := Vote(3, 1, Zero, InitialVote, Some({0, 1, 3}), 0)

  // Node 0 sees three Commits and decides; nodes 1 and 2 see two.
  const D := Vote(0, 2, Zero, Decide, Some({0, 1, 2}), 0)
  const C1 := Vote(1, 2, Zero, Commit, Some({0, 1, 3}), 0)
  const C2 := Vote(2, 2, Zero, Commit, Some({0, 2, 3}), 0)

  // Node 1 sees the Decide and two Commits, and commits once more.
  const AGAIN := Vote(1, 3, Zero, Commit, Some({0, 1, 2}), 0)

  const ZEROS := [Z(0), Z(1), Z(2)]

  lemma NodeThree()
    ensures Hears(3, [[O]], [O], Z(0), [[O, Z(0)]], [O], None)
    ensures Hears(3, [[O, Z(0)]], [O], Z(1), [[O, Z(0), Z(1)], [I]], [O, I], None)
  {
    hide Hears;
    HearsMore(3, [[O]], [O], Z(0), ZEROS, [[O, Z(0)]]);
    HearsAndCasts(3, [[O, Z(0)]], [O], Z(1), ZEROS, I, [[O, Z(0), Z(1)]], [[O, Z(0), Z(1)], [I]], [O, I]);
  }

  lemma NodeZeroCommits()
    ensures Hears(0, [[Z(0)]], [Z(0)], Z(1), [[Z(0), Z(1)]], [Z(0)], None)
    ensures Hears(0, [[Z(0), Z(1)]], [Z(0)], Z(2), [ZEROS, [K(0)]], [Z(0), K(0)], None)
  {
    hide Hears;
    HearsMore(0, [[Z(0)]], [Z(0)], Z(1), ZEROS, [[Z(0), Z(1)]]);
    HearsAndCasts(0, [[Z(0), Z(1)]], [Z(0)], Z(2), ZEROS, K(0), [ZEROS], [ZEROS, [K(0)]], [Z(0), K(0)]);
  }

  lemma NodeZeroDecides()
    ensures Hears(0, [ZEROS, [K(0)]], [Z(0), K(0)], K(1), [ZEROS, [K(0), K(1)]], [Z(0), K(0)], None)
    ensures Hears(0, [ZEROS, [K(0), K(1)]], [Z(0), K(0)], K(2),
                  [ZEROS, [K(0), K(1), K(2)], [D]], [Z(0), K(0), D], Some(Zero))
  {
    hide Hears;
    HearsMore(0, [ZEROS, [K(0)]], [Z(0), K(0)], K(1), ZEROS, [ZEROS, [K(0), K(1)]]);
    HearsAndCasts(0, [ZEROS, [K(0), K(1)]], [Z(0), K(0)], K(2), ZEROS, D,
                  [ZEROS, [K(0), K(1), K(2)]], [ZEROS, [K(0), K(1), K(2)], [D]], [Z(0), K(0), D]);
  }

  // Node 1 or 2, of which the other is q.
  lemma NodeCommits(p: NodeId, q: NodeId)
    requires (p == 1 && q == 2) || (p == 2 && q == 1)
    ensures Hears(p, [[Z(p)]], [Z(p)], Z(0), [[Z(p), Z(0)]], [Z(p)], None)
    ensures Hears(p, [[Z(p), Z(0)]], [Z(p)], Z(q), [[Z(p), Z(0), Z(q)], [K(p)]], [Z(p), K(p)], None)
    ensures Hears(p, [[Z(p), Z(0), Z(q)], [K(p)]], [Z(p), K(p)], O,
                  [[Z(p), Z(0), Z(q), O], [K(p)]], [Z(p), K(p)], None)
  {
    hide Hears;
    HearsMore(p, [[Z(p)]], [Z(p)], Z(0), ZEROS, [[Z(p), Z(0)]]);
    HearsAndCasts(p, [[Z(p), Z(0)]], [Z(p)], Z(q), ZEROS, K(p),
                  [[Z(p), Z(0), Z(q)]], [[Z(p), Z(0), Z(q)], [K(p)]], [Z(p), K(p)]);
    HearsMore(p, [[Z(p), Z(0), Z(q)], [K(p)]], [Z(p), K(p)], O, ZEROS, [[Z(p), Z(0), Z(q), O], [K(p)]]);
  }

  function Row(p: NodeId, q: NodeId): seq<Vote> { [Z(p), Z(0), Z(q), O] }

  function C(p: NodeId): Vote { if p == 1 then C1 else C2 }

  lemma NodeCommitsAgain(p: NodeId, q: NodeId)
    requires (p == 1 && q == 2) || (p == 2 && q == 1)
    ensures Hears(p, [Row(p, q), [K(p)]], [Z(p), K(p)], K(0), [Row(p, q), [K(p), K(0)]], [Z(p), K(p)], None)
    ensures Hears(p, [Row(p, q), [K(p), K(0)]], [Z(p), K(p)], I,
                  [Row(p, q), [K(p), K(0), I], [C(p)]], [Z(p), K(p), C(p)], None)
  {
    hide Hears;
    HearsMore(p, [Row(p, q), [K(p)]], [Z(p), K(p)], K(0), ZEROS, [Row(p, q), [K(p), K(0)]]);
    HearsAndCasts(p, [Row(p, q), [K(p), K(0)]], [Z(p), K(p)], I, [Z(0), Z(1), O], C(p),
                  [Row(p, q), [K(p), K(0), I]], [Row(p, q), [K(p), K(0), I], [C(p)]], [Z(p), K(p), C(p)]);
  }

  const COMMITS := [K(1), K(0), I, K(2)]

  lemma NodeOneMisses()
    ensures Hears(1, [Row(1, 2), [K(1), K(0), I], [C1]], [Z(1), K(1), C1], K(2),
                  [Row(1, 2), COMMITS, [C1]], [Z(1), K(1), C1], None)
    ensures Hears(1, [Row(1, 2), COMMITS, [C1]], [Z(1), K(1), C1], D,
                  [Row(1, 2), COMMITS, [C1, D]], [Z(1), K(1), C1], None)
    ensures Hears(1, [Row(1, 2), COMMITS, [C1, D]], [Z(1), K(1), C1], C2,
                  [Row(1, 2), COMMITS, [C1, D, C2], [AGAIN]], [Z(1), K(1), C1, AGAIN], None)
  {
    hide Hears;
    var log := [Z(1), K(1), C1];
    HearsMore(1, [Row(1, 2), [K(1), K(0), I], [C1]], log, K(2), ZEROS, [Row(1, 2), COMMITS, [C1]]);
    HearsMore(1, [Row(1, 2), COMMITS, [C1]], log, D, [K(0), K(1), K(2)], [Row(1, 2), COMMITS, [C1, D]]);
    HearsAndCasts(1, [Row(1, 2), COMMITS, [C1, D]], log, C2, [K(0), K(2), I], AGAIN,
                  [Row(1, 2), COMMITS, [C1, D, C2]], [Row(1, 2), COMMITS, [C1, D, C2], [AGAIN]],
                  [Z(1), K(1), C1, AGAIN]);
  }

  // ----- The run -------------------------------------------------------------------------------

  // A ballot of the four nodes that can come about, with what each knows.
  ghost predicate Stage(ballot: Ballot, locals: seq<Local>) {
    && Reachable(FOUR, 0, ballot)
    && ballot.locals.Keys == {0, 1, 2, 3}
    && |locals| == 4
    && forall p: nat | p < 4 :: ballot.locals[p] == locals[p]
  }

  // A node receives the transaction and opens.
  lemma Opens(before: Ballot, locals: seq<Local>, p: NodeId, coin: Value) returns (after: Ballot)
    requires Stage(before, locals) && p < 4 && locals[p] == NEW_LOCAL
    ensures Stage(after, locals[p := Knows([[FirstVote(p, 0, coin)]], [FirstVote(p, 0, coin)], None)])
  {
    hide Reachable;
    var coins := COINS.(first := coin);
    var own := FirstVote(p, 0, coin);
    after := Next(FOUR, 0, before, Transaction(p, coins));
    ReachNext(FOUR, 0, before, Transaction(p, coins));
    OpeningKnows(p, coin);
    assert FOUR.Who(p) == Who(p);
  }

  lemma OpeningKnows(p: NodeId, coin: Value)
    ensures var own := FirstVote(p, 0, coin);
      NEW_LOCAL.After(OnTransaction(Who(p), COINS.(first := coin), EMPTY_ELECTION, 0)) == Knows([[own]], [own], None)
  {
    var own := FirstVote(p, 0, coin);
    FiledKeep([], own);
    assert Keep([], own) == [own];
    assert Rounds([[own]]) == map[0 := Filed([own])];
  }

  // A node receives a vote another one has sent.
  lemma Receives(before: Ballot, locals: seq<Local>, p: NodeId, rows: seq<seq<Vote>>, log: seq<Vote>, vote: Vote,
                 rows': seq<seq<Vote>>, log': seq<Vote>, decided: Option<Value>, locals': seq<Local>)
    returns (after: Ballot)
    requires Stage(before, locals) && p < 4 && locals[p] == Knows(rows, log, None)
    requires locals' == locals[p := Knows(rows', log', decided)]
    requires vote.signer < 4 && vote in locals[vote.signer].log
    requires Hears(p, rows, log, vote, rows', log', decided)
    ensures Stage(after, locals')
  {
    hide Reachable, BallotInv, Rounds, Accepts, FileVote, Cast;
    assert vote in before.sent by {
      ReachableInv(FOUR, 0, before);
      SentIfLogged(before, vote);
    }
    after := Next(FOUR, 0, before, Deliver(p, vote, COINS));
    ReachNext(FOUR, 0, before, Deliver(p, vote, COINS));
    assert FOUR.Who(p) == Who(p);
  }

  lemma SentIfLogged(ballot: Ballot, vote: Vote)
    requires BallotInv(FOUR, 0, ballot) && vote.signer in ballot.locals && vote in ballot.locals[vote.signer].log
    ensures vote in ballot.sent
  {
    assert LogSent(ballot.locals[vote.signer], ballot.sent);
  }

  lemma AllOpen() returns (ballot: Ballot)
    ensures Stage(ballot, [
      Knows([[Z(0)]], [Z(0)], None), Knows([[Z(1)]], [Z(1)], None),
      Knows([[Z(2)]], [Z(2)], None), Knows([[O]], [O], None)])
  {
    hide Reachable, Knows;
    var start := [NEW_LOCAL, NEW_LOCAL, NEW_LOCAL, NEW_LOCAL];
    ballot := NewBallot(FOUR.nodes);
    ReachStart(FOUR, 0);
    assert Stage(ballot, start);
    var zero, one := Knows([[Z(0)]], [Z(0)], None), Knows([[Z(1)]], [Z(1)], None);
    var two, three := Knows([[Z(2)]], [Z(2)], None), Knows([[O]], [O], None);
    hide Stage;
    ballot := Opens(ballot, start, 0, Zero);
    ballot := Opens(ballot, start[0 := zero], 1, Zero);
    ballot := Opens(ballot, start[0 := zero][1 := one], 2, Zero);
    ballot := Opens(ballot, start[0 := zero][1 := one][2 := two], 3, One);
    assert start[0 := zero][1 := one][2 := two][3 := three] == [zero, one, two, three];
  }

  // What the nodes know once they have voted in round 1.
  const ZERO_COMMITTED := Knows([ZEROS, [K(0)]], [Z(0), K(0)], None)
  const THREE_VOTED := Knows([[O, Z(0), Z(1)], [I]], [O, I], None)
  function Committed(p: NodeId, q: NodeId): Local { Knows([Row(p, q), [K(p)]], [Z(p), K(p)], None) }

  lemma ZeroCommits(before: Ballot, locals: seq<Local>) returns (after: Ballot)
    requires |locals| == 4 && Stage(before, locals) && locals[0] == Knows([[Z(0)]], [Z(0)], None)
    requires Z(1) in locals[1].log && Z(2) in locals[2].log
    ensures Stage(after, locals[0 := ZERO_COMMITTED])
  {
    hide Stage, Hears, Rounds;
    NodeZeroCommits();
    var heard := locals[0 := Knows([[Z(0), Z(1)]], [Z(0)], None)];
    after := Receives(before, locals, 0, [[Z(0)]], [Z(0)], Z(1), [[Z(0), Z(1)]], [Z(0)], None, heard);
    after := Receives(after, heard, 0, [[Z(0), Z(1)]], [Z(0)], Z(2), [ZEROS, [K(0)]], [Z(0), K(0)], None,
                      locals[0 := ZERO_COMMITTED]);
  }

  lemma MiddleCommits(before: Ballot, locals: seq<Local>, p: NodeId, q: NodeId) returns (after: Ballot)
    requires |locals| == 4 && Stage(before, locals)
    requires (p == 1 && q == 2) || (p == 2 && q == 1)
    requires locals[p] == Knows([[Z(p)]], [Z(p)], None)
    requires Z(0) in locals[0].log && Z(q) in locals[q].log && O in locals[3].log
    ensures Stage(after, locals[p := Committed(p, q)])
  {
    hide Stage, Hears, Rounds;
    NodeCommits(p, q);
    var first := locals[p := Knows([[Z(p), Z(0)]], [Z(p)], None)];
    var second := locals[p := Knows([[Z(p), Z(0), Z(q)], [K(p)]], [Z(p), K(p)], None)];
    after := Receives(before, locals, p, [[Z(p)]], [Z(p)], Z(0), [[Z(p), Z(0)]], [Z(p)], None, first);
    after := Receives(after, first, p, [[Z(p), Z(0)]], [Z(p)], Z(q),
                      [[Z(p), Z(0), Z(q)], [K(p)]], [Z(p), K(p)], None, second);
    after := Receives(after, second, p, [[Z(p), Z(0), Z(q)], [K(p)]], [Z(p), K(p)], O,
                      [Row(p, q), [K(p)]], [Z(p), K(p)], None, locals[p := Committed(p, q)]);
  }

  lemma ThreeVotes(before: Ballot, locals: seq<Local>) returns (after: Ballot)
    requires |locals| == 4 && Stage(before, locals)
    requires locals[3] == Knows([[O]], [O], None) && Z(0) in locals[0].log && Z(1) in locals[1].log
    ensures Stage(after, locals[3 := THREE_VOTED])
  {
    hide Stage, Hears, Rounds;
    NodeThree();
    var heard := locals[3 := Knows([[O, Z(0)]], [O], None)];
    after := Receives(before, locals, 3, [[O]], [O], Z(0), [[O, Z(0)]], [O], None, heard);
    after := Receives(after, heard, 3, [[O, Z(0)]], [O], Z(1), [[O, Z(0), Z(1)], [I]], [O, I], None,
                      locals[3 := THREE_VOTED]);
  }

  const ZERO_DECIDED := Knows([ZEROS, [K(0), K(1), K(2)], [D]], [Z(0), K(0), D], Some(Zero))

  lemma ZeroDecides(before: Ballot, locals: seq<Local>) returns (after: Ballot)
    requires |locals| == 4 && Stage(before, locals) && locals[0] == ZERO_COMMITTED
    requires K(1) in locals[1].log && K(2) in locals[2].log
    ensures Stage(after, locals[0 := ZERO_DECIDED])
  {
    hide Stage, Hears, Rounds;
    NodeZeroDecides();
    var log := [Z(0), K(0)];
    var heard := locals[0 := Knows([ZEROS, [K(0), K(1)]], log, None)];
    after := Receives(before, locals, 0, [ZEROS, [K(0)]], log, K(1), [ZEROS, [K(0), K(1)]], log, None, heard);
    after := Receives(after, heard, 0, [ZEROS, [K(0), K(1)]], log, K(2),
                      [ZEROS, [K(0), K(1), K(2)], [D]], [Z(0), K(0), D], Some(Zero), locals[0 := ZERO_DECIDED]);
  }

  function CommittedAgain(p: NodeId, q: NodeId): Local {
    Knows([Row(p, q), [K(p), K(0), I], [C(p)]], [Z(p), K(p), C(p)], None)
  }

  lemma MiddleCommitsAgain(before: Ballot, locals: seq<Local>, p: NodeId, q: NodeId) returns (after: Ballot)
    requires |locals| == 4 && Stage(before, locals)
    requires (p == 1 && q == 2) || (p == 2 && q == 1)
    requires locals[p] == Committed(p, q) && K(0) in locals[0].log && I in locals[3].log
    ensures Stage(after, locals[p := CommittedAgain(p, q)])
  {
    hide Stage, Hears, Rounds;
    NodeCommitsAgain(p, q);
    var log := [Z(p), K(p)];
    var heard := locals[p := Knows([Row(p, q), [K(p), K(0)]], log, None)];
    after := Receives(before, locals, p, [Row(p, q), [K(p)]], log, K(0), [Row(p, q), [K(p), K(0)]], log, None, heard);
    after := Receives(after, heard, p, [Row(p, q), [K(p), K(0)]], log, I,
                      [Row(p, q), [K(p), K(0), I], [C(p)]], [Z(p), K(p), C(p)], None,
                      locals[p := CommittedAgain(p, q)]);
  }

  const ONE_AGAIN := Knows([Row(1, 2), COMMITS, [C1, D, C2], [AGAIN]], [Z(1), K(1), C1, AGAIN], None)

  lemma OneMisses(before: Ballot, locals: seq<Local>) returns (after: Ballot)
    requires |locals| == 4 && Stage(before, locals) && locals[1] == CommittedAgain(1, 2)
    requires D in locals[0].log && K(2) in locals[2].log && C2 in locals[2].log
    ensures Stage(after, locals[1 := ONE_AGAIN])
  {
    hide Stage, Hears, Rounds;
    NodeOneMisses();
    var log := [Z(1), K(1), C1];
    var first := locals[1 := Knows([Row(1, 2), COMMITS, [C1]], log, None)];
    var second := locals[1 := Knows([Row(1, 2), COMMITS, [C1, D]], log, None)];
    after := Receives(before, locals, 1, [Row(1, 2), [K(1), K(0), I], [C1]], log, K(2),
                      [Row(1, 2), COMMITS, [C1]], log, None, first);
    after := Receives(after, first, 1, [Row(1, 2), COMMITS, [C1]], log, D,
                      [Row(1, 2), COMMITS, [C1, D]], log, None, second);
    after := Receives(after, second, 1, [Row(1, 2), COMMITS, [C1, D]], log, C2,
                      [Row(1, 2), COMMITS, [C1, D, C2], [AGAIN]], [Z(1), K(1), C1, AGAIN], None,
                      locals[1 := ONE_AGAIN]);
  }

  lemma TheRun() returns (ballot: Ballot)
    ensures Stage(ballot, [ZERO_DECIDED, ONE_AGAIN, CommittedAgain(2, 1), THREE_VOTED])
  {
    hide Stage, Rounds;
    var l0 := [Knows([[Z(0)]], [Z(0)], None), Knows([[Z(1)]], [Z(1)], None),
               Knows([[Z(2)]], [Z(2)], None), Knows([[O]], [O], None)];
    ballot := AllOpen();
    var l1, l2 := l0[0 := ZERO_COMMITTED], l0[0 := ZERO_COMMITTED][1 := Committed(1, 2)];
    ballot := ZeroCommits(ballot, l0);
    ballot := MiddleCommits(ballot, l1, 1, 2);
    ballot := MiddleCommits(ballot, l2, 2, 1);
    var l3 := l2[2 := Committed(2, 1)];
    ballot := ThreeVotes(ballot, l3);
    var l4 := l3[3 := THREE_VOTED];
    ballot := ZeroDecides(ballot, l4);
    var l5 := l4[0 := ZERO_DECIDED];
    ballot := MiddleCommitsAgain(ballot, l5, 1, 2);
    var l6 := l5[1 := CommittedAgain(1, 2)];
    ballot := MiddleCommitsAgain(ballot, l6, 2, 1);
    var l7 := l6[2 := CommittedAgain(2, 1)];
    ballot := OneMisses(ballot, l7);
    assert l7[1 := ONE_AGAIN] == [ZERO_DECIDED, ONE_AGAIN, CommittedAgain(2, 1), THREE_VOTED];
  }

  lemma ViewOf(rows: seq<seq<Vote>>, log: seq<Vote>, decided: Option<Value>, r: nat)
    requires r < |rows|
    ensures Knows(rows, log, decided).election.View(r) == Filed(rows[r]).votes
  {
    RoundsAre(rows, r);
  }

  // The last two rounds of node 1.
  lemma OneSees()
    ensures ONE_AGAIN.election.View(2) == map[0 := D, 1 := C1, 2 := C2]
    ensures ONE_AGAIN.election.View(3) == map[1 := AGAIN]
    ensures ONE_AGAIN.log == [Z(1), K(1), C1, AGAIN]
  {
    hide Rounds;
    var rows := [Row(1, 2), COMMITS, [C1, D, C2], [AGAIN]];
    ViewOf(rows, [Z(1), K(1), C1, AGAIN], None, 2);
    ViewOf(rows, [Z(1), K(1), C1, AGAIN], None, 3);
    FiledThree(C1, D, C2);
    FiledKeep([], AGAIN);
    assert Keep([], AGAIN) == [AGAIN];
  }

  lemma FirstCommitIsZero(ballot: Ballot)
    requires HonestInv(FOUR, 0, ballot) && 0 in ballot.locals && ballot.locals[0] == ZERO_DECIDED
    ensures FirstCommit(ballot, 1, Zero)
  {
    hide HonestInv, Rounds;
    ViewOf([ZEROS, [K(0), K(1), K(2)], [D]], [Z(0), K(0), D], Some(Zero), 1);
    FiledThree(K(0), K(1), K(2));
    assert ViewAt(ballot, 0, 1)[0].Choice() == Commits(Zero);
    forall p, s | p in ballot.locals && s in ViewAt(ballot, p, 0) ensures ViewAt(ballot, p, 0)[s].voteType == InitialVote {
      InView(FOUR, 0, ballot, p, 0, s);
    }
  }

  // The last vote is Invalid, unless votes that its proof names are missing.
  ghost predicate Rejects(election: Election, who: Profile, coins: Coins) {
    && ProofReadable(election, AGAIN)
    && (AGAIN.proof.value <= election.View(2).Keys ==> Validate(who, coins, election, AGAIN) == Invalid)
  }

  // Whoever knows the three votes its proof names rejects the last vote.
  lemma RejectedByAll(ballot: Ballot, q: NodeId, coins: Coins)
    requires FOUR.Fits() && HonestInv(FOUR, 0, ballot)
    requires 1 in ballot.locals && ballot.locals[1] == ONE_AGAIN
    requires q in ballot.locals && 2 in ballot.locals[q].election.state
    ensures Rejects(ballot.locals[q].election, FOUR.Who(q), coins)
  {
    OneSees();
    hide HonestInv, Rounds, Validate;
    CastValidateRoundTrip(FOUR, 0, ballot, 1, 2, q, coins);
    var view := map[0 := D, 1 := C1, 2 := C2];
    assert Restrict(view, {0, 1, 2}) == view;
    assert 0 in Signers(view, Decides(Zero));
    assert Signers(view, Commits(Zero)) == {1, 2};
  }

  // Node 1 has the Decide of node 0 in view in round 2, commits all the same in
  // round 3, and is rejected.
  ghost predicate MissesDecide(ballot: Ballot) {
    && FirstCommit(ballot, 1, Zero)
    && 1 in ballot.locals && 0 in ViewAt(ballot, 1, 2) && ViewAt(ballot, 1, 2)[0].Choice() == Decides(Zero)
    && 1 in ViewAt(ballot, 1, 3) && ViewAt(ballot, 1, 3)[1] == AGAIN
    && (forall q, coins | q in ballot.locals && 2 in ballot.locals[q].election.state ::
          Rejects(ballot.locals[q].election, FOUR.Who(q), coins))
  }

  lemma EndMisses(ballot: Ballot)
    requires FOUR.Fits() && HonestInv(FOUR, 0, ballot)
    requires 0 in ballot.locals && ballot.locals[0] == ZERO_DECIDED
    requires 1 in ballot.locals && ballot.locals[1] == ONE_AGAIN
    ensures MissesDecide(ballot)
  {
    hide Rounds, HonestInv, FirstCommit, Knows, Rejects;
    OneSees();
    FirstCommitIsZero(ballot);
    forall q, coins | q in ballot.locals && 2 in ballot.locals[q].election.state
      ensures Rejects(ballot.locals[q].election, FOUR.Who(q), coins)
    {
      RejectedByAll(ballot, q, coins);
    }
  }

  // Without any fault: a run of the network of four honest nodes at whose end
  // the first Commit is a Zero of round 1, and in round 3, when every vote should
  // be a Decide, node 1 has the Decide of node 0 in view and yet commits.  What it
  // sends is Invalid wherever its proof is known.
  lemma CommitsTwoRoundsAfterCommit() returns (run: seq<System>)
    ensures FOUR.Fits() && FOUR.byzantine == {} && IsRun(FOUR, run)
    ensures AGAIN.round == 3 && AGAIN.Choice() == Commits(Zero)
    ensures MissesDecide(HonestBallot(FOUR, run[|run| - 1], 0))
  {
    hide Stage, HonestInv, MissesDecide, IsRun, BallotOf;
    var ballot := TheRun();
    FourFits();
    EndOfRun(ballot);
    EndMisses(ballot);
    run :| Shows(FOUR, run, 0, ballot);
    AllHonest(ballot);
  }

  lemma AllHonest(ballot: Ballot)
    requires HonestInv(FOUR, 0, ballot)
    ensures OnlyHonest(FOUR, ballot) == ballot
  {
    assert OnlyHonest(FOUR, ballot).locals == ballot.locals;
  }

  lemma EndOfRun(ballot: Ballot)
    requires FOUR.Fits() && Stage(ballot, [ZERO_DECIDED, ONE_AGAIN, CommittedAgain(2, 1), THREE_VOTED])
    ensures Reachable(FOUR, 0, ballot) && HonestInv(FOUR, 0, ballot)
    ensures 0 in ballot.locals && ballot.locals[0] == ZERO_DECIDED
    ensures 1 in ballot.locals && ballot.locals[1] == ONE_AGAIN
  {
    hide Reachable, BallotInv, Knows;
    FourFits();
    ReachableInv(FOUR, 0, ballot);
  }

  lemma FourFits()
    ensures FOUR.Fits() && FOUR.Honest() == FOUR.nodes
  {
    assert |FOUR.nodes| == TotalNodes(1);
  }
}
