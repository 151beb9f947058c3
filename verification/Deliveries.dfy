/** What a delivery does to a node, told by its views and its broadcasts alone. */
module Deliveries {
  import opened Basics
  import opened Votes
  import opened Tallies
  import opened Elections
  import opened Locals
  import opened Ballots
  import opened NeroCore
  import opened Safety
  import opened Choices
  import opened Network
  import opened Theorems

  function Opening(p: NodeId, hash: BlockHash, coin: Value): Vote {
    Vote(p, 0, coin, InitialVote, None, hash)
  }

  // A byzantine node flips a coin, unless it has a One Decide in view: then it
  // decides One, or is thrown by Commits of both values.
  predicate Flips(f: nat, view: View, coin: Decision, choice: Decision) {
    if Signers(view, Decides(One)) == {} then choice == coin
    else if |Signers(view, Commits(Zero))| >= SemiQuorum(f) && |Signers(view, Commits(One))| >= SemiQuorum(f)
    then choice == Initials(Zero)
    else choice == Decides(One)
  }

  // The node stores the vote.  Without a vote of its own in round 0 it opens
  // with one when another's reaches it.
  function ViewWith(who: Profile, coins: Coins, vote: Vote, e: Election): View {
    var view := e.View(vote.round)[vote.signer := vote];
    if OpensOn(who, vote, e) then view[who.id := Opening(who.id, vote.election, coins.first)] else view
  }

  predicate OpensOn(who: Profile, vote: Vote, e: Election) {
    vote.round == 0 && vote.signer != who.id && who.id !in e.View(0)
  }

  // It votes in the next round when the view has come to a quorum, it has no
  // vote of its own there, and it is undecided.
  predicate VotesOn(who: Profile, coins: Coins, vote: Vote, e: Election) {
    |ViewWith(who, coins, vote, e)| >= Quorum(who.f) && who.id !in e.View(vote.round + 1) && !e.isDecided
  }

  // That vote: its own, in the next round, with the whole view for its proof.
  predicate VotesFrom(who: Profile, coins: Coins, vote: Vote, view: View, next: Vote) {
    && next.signer == who.id && next.round == vote.round + 1 && next.election == vote.election
    && next.proof == Some(view.Keys)
    && (who.byzantine ==> Flips(who.f, view, coins.casting, next.Choice()))
  }

  // All that storing a vote makes of the election, of the broadcasts and of the
  // record of decisions.
  ghost predicate Stored(who: Profile, coins: Coins, vote: Vote, e: Election, e': Election, sent: seq<Vote>,
                         decided: Option<Value>) {
    var r, view := vote.round, ViewWith(who, coins, vote, e);
    var opening := if OpensOn(who, vote, e) then [Opening(who.id, vote.election, coins.first)] else [];
    && e'.View(r) == view
    && (forall q: nat | q != r && q != r + 1 :: e'.View(q) == e.View(q))
    && if VotesOn(who, coins, vote, e) then
         && |sent| == |opening| + 1 && sent[..|opening|] == opening
         && var next := sent[|opening|];
         && VotesFrom(who, coins, vote, view, next)
         && e'.View(r + 1) == e.View(r + 1)[who.id := next]
         && decided == (if next.voteType == Decide then Some(next.value) else None)
         && (e'.isDecided <==> next.voteType == Decide)
       else
         sent == opening && e'.View(r + 1) == e.View(r + 1) && decided == None && e'.isDecided == e.isDecided
  }

  // ----- One election ------------------------------------------------------------

  lemma FlipsOf(who: Profile, coins: Coins, view: View)
    requires who.byzantine
    ensures Flips(who.f, view, coins.casting, MakeDecision(who.f, who.byzantine, coins.casting, CastTally(view)))
  {
    assert Signers(view, Decides(One)) == {} <==> |Signers(view, Decides(One))| == 0;
  }

  // The flags a node keeps say whether its own vote is in view.
  ghost predicate Flagged(who: Profile, e: Election, r: nat) {
    (e.Round(r).voted <==> who.id in e.View(r)) && e.Round(r).tally == CastTally(e.View(r))
  }

  lemma FileIsStored(who: Profile, coins: Coins, e: Election, vote: Vote)
    requires Flagged(who, e, vote.round) && vote.signer !in e.View(vote.round)
    ensures
      var filed := FileVote(who, coins, e, vote);
      && filed.election.View(vote.round) == ViewWith(who, coins, vote, e)
      && (forall q: nat | q != vote.round :: filed.election.Round(q) == e.Round(q))
      && filed.sent == (if OpensOn(who, vote, e) then [Opening(who.id, vote.election, coins.first)] else [])
      && filed.election.Round(vote.round).tally == CastTally(ViewWith(who, coins, vote, e))
      && filed.election.isDecided == e.isDecided
  {
    var view := e.View(vote.round);
    TallyVoteAdds(view, vote);
    if OpensOn(who, vote, e) {
      TallyVoteAdds(view[vote.signer := vote], Opening(who.id, vote.election, coins.first));
    }
    hide TallyOf, CastTally;
  }

  lemma CastIsStored(who: Profile, coins: Coins, filed: Election, vote: Vote, view: View)
    requires Flagged(who, filed, vote.round + 1) && filed.View(vote.round) == view
    requires filed.Round(vote.round).tally == CastTally(view)
    ensures
      var cast := Cast(who, coins, vote, filed);
      && (forall q: nat | q != vote.round + 1 :: cast.election.Round(q) == filed.Round(q))
      && if |view| >= Quorum(who.f) && who.id !in filed.View(vote.round + 1) && !filed.isDecided then
           && |cast.sent| == 1 && VotesFrom(who, coins, vote, view, cast.sent[0])
           && cast.election.View(vote.round + 1) == filed.View(vote.round + 1)[who.id := cast.sent[0]]
           && cast.decided == (if cast.sent[0].voteType == Decide then Some(cast.sent[0].value) else None)
           && (cast.election.isDecided <==> cast.sent[0].voteType == Decide)
         else cast == Outcome(filed, [], None)
  {
    if who.byzantine {
      FlipsOf(who, coins, view);
    }
    hide MakeDecision, CastTally, Flips;
  }

  // A vote that is news and judged Valid is stored; any other changes nothing.
  lemma OnVoteStores(who: Profile, coins: Coins, e: Election, vote: Vote)
    requires ProofReadable(e, vote) && Flagged(who, e, vote.round) && Flagged(who, e, vote.round + 1)
    ensures
      var outcome := OnVote(who, coins, e, vote);
      if vote.signer !in e.View(vote.round) && Validate(who, coins, e, vote) == Valid
      then Stored(who, coins, vote, e, outcome.election, outcome.sent, outcome.decided)
      else outcome == Outcome(e, [], None)
  {
    hide Validate, FileVote, Cast, CastTally, VotesFrom;
    if vote.signer !in e.View(vote.round) && Validate(who, coins, e, vote) == Valid {
      var filed := FileVote(who, coins, e, vote);
      FileIsStored(who, coins, e, vote);
      CastIsStored(who, coins, filed.election, vote, ViewWith(who, coins, vote, e));
    }
  }

  // A transaction opens the election with an own vote, unless there is one.
  lemma OnTransactionOpens(who: Profile, coins: Coins, e: Election, hash: BlockHash)
    requires Flagged(who, e, 0)
    ensures
      var outcome := OnTransaction(who, coins, e, hash);
      var own := Opening(who.id, hash, coins.first);
      && outcome.election.View(0) == (if who.id in e.View(0) then e.View(0) else e.View(0)[who.id := own])
      && outcome.sent == (if who.id in e.View(0) then [] else [own])
      && (forall q: nat | q > 0 :: outcome.election.View(q) == e.View(q))
      && outcome.decided == None && outcome.election.isDecided == e.isDecided
  {}

  // ----- One node ------------------------------------------------------------------

  // Other elections are left alone.
  ghost predicate OthersAlone(before: Node, after: Node, hash: BlockHash) {
    forall other | other != hash ::
      && after.ElectionOf(other) == before.ElectionOf(other)
      && (other in after.decided <==> other in before.decided)
      && (other in before.decided ==> after.decided[other] == before.decided[other])
  }

  // Of the election, exactly this decision is recorded, or none.
  ghost predicate Records(before: Node, after: Node, hash: BlockHash, decided: Option<Value>) {
    if decided.Some? then hash in after.decided && after.decided[hash] == decided.value
    else (hash in after.decided <==> hash in before.decided)
         && (hash in before.decided ==> after.decided[hash] == before.decided[hash])
  }

  // What a delivered vote makes of the node, with these broadcasts and this record.
  ghost predicate Handled(who: Profile, coins: Coins, vote: Vote, before: Node, after: Node,
                          sent: seq<Vote>, decided: Option<Value>)
    requires ProofReadable(before.ElectionOf(vote.election), vote)
  {
    var e, e' := before.ElectionOf(vote.election), after.ElectionOf(vote.election);
    && after.seen == before.seen + {vote}
    && after.outbox == before.outbox + sent
    && OthersAlone(before, after, vote.election)
    && Records(before, after, vote.election, decided)
    && if vote.signer !in e.View(vote.round) && Validate(who, coins, e, vote) == Valid
       then Stored(who, coins, vote, e, e', sent, decided)
       else e' == e && sent == [] && decided == None
  }

  lemma StoreIsLocal(node: Node, hash: BlockHash, outcome: Outcome)
    ensures
      var after := Store(node, hash, outcome);
      && after.seen == node.seen && after.outbox == node.outbox + outcome.sent
      && after.ElectionOf(hash) == outcome.election
      && OthersAlone(node, after, hash) && Records(node, after, hash, outcome.decided)
  {}

  lemma NodeHandles(who: Profile, coins: Coins, before: Node, vote: Vote)
    requires ProofReadable(before.ElectionOf(vote.election), vote)
    requires Flagged(who, before.ElectionOf(vote.election), vote.round)
    requires Flagged(who, before.ElectionOf(vote.election), vote.round + 1)
    ensures
      var outcome := OnVote(who, coins, before.ElectionOf(vote.election), vote);
      Handled(who, coins, vote, before, NodeOnVote(who, coins, before, vote), outcome.sent, outcome.decided)
  {
    hide Validate, OnVote, Stored, Store, OthersAlone, Records;
    var e := before.ElectionOf(vote.election);
    var outcome := OnVote(who, coins, e, vote);
    OnVoteStores(who, coins, e, vote);
    var seen := before.(seen := before.seen + {vote});
    StoreIsLocal(seen, vote.election, outcome);
    SeenAlone(before, seen, NodeOnVote(who, coins, before, vote), vote.election, outcome.decided);
  }

  lemma SeenAlone(before: Node, seen: Node, after: Node, hash: BlockHash, decided: Option<Value>)
    requires seen == before.(seen := seen.seen)
    ensures OthersAlone(seen, after, hash) ==> OthersAlone(before, after, hash)
    ensures Records(seen, after, hash, decided) ==> Records(before, after, hash, decided)
    ensures after == seen ==> OthersAlone(before, after, hash) && Records(before, after, hash, None)
  {}

  lemma FlaggedInRun(c: Committee, run: seq<System>, i: nat, p: NodeId, hash: BlockHash, r: nat)
    requires At(c, run, i) && p in run[i].nodes
    ensures Flagged(c.Who(p), run[i].nodes[p].ElectionOf(hash), r)
  {
    hide BallotInv, HonestInv, IsRun;
    NodeLocal(c, run, i, p, hash);
    var e := LocalOf(run[i].nodes[p], hash).election;
    EmptyTallies();
    if r in e.state {
      assert RoundOk(c.Who(p), hash, e, r, None);
    }
  }

  // ----- Any step of any run ---------------------------------------------------------

  lemma RunExtends(c: Committee, run: seq<System>, i: nat, action: Action)
    requires At(c, run, i) && MayAct(c, run[i], action)
    ensures At(c, run[..i + 1] + [Act(c, run[i], action)], i + 1)
  {
    hide MayAct, Act;
    var longer := run[..i + 1] + [Act(c, run[i], action)];
    forall k | 0 <= k < |longer| - 1 ensures Acts(c, longer[k], longer[k + 1]) {
      assert k < i ==> Acts(c, run[k], run[k + 1]);
    }
  }

  // Whenever a sent vote is delivered: a vote that is news to the node and judged
  // Valid is stored, with all that follows, and any other leaves only a trace.
  // No other node, and no other election, is touched.
  lemma VoteDelivered(c: Committee, run: seq<System>, i: nat, p: NodeId, vote: Vote, coins: Coins)
    returns (sent: seq<Vote>, decided: Option<Value>)
    requires At(c, run, i) && p in run[i].nodes && vote in run[i].sent
    ensures MayAct(c, run[i], OfVote(p, vote, coins)) && ProofReadable(run[i].nodes[p].ElectionOf(vote.election), vote)
    ensures
      var system := Act(c, run[i], OfVote(p, vote, coins));
      && system.nodes.Keys == run[i].nodes.Keys
      && (forall q | q in run[i].nodes && q != p :: system.nodes[q] == run[i].nodes[q])
      && system.sent == run[i].sent + (set v | v in sent)
      && Handled(c.Who(p), coins, vote, run[i].nodes[p], system.nodes[p], sent, decided)
  {
    hide BallotInv, HonestInv, IsRun, OnVote, Handled;
    SentIsProven(c, run, i, vote);
    FlaggedInRun(c, run, i, p, vote.election, vote.round);
    FlaggedInRun(c, run, i, p, vote.election, vote.round + 1);
    var node := run[i].nodes[p];
    NodeHandles(c.Who(p), coins, node, vote);
    var outcome := OnVote(c.Who(p), coins, node.ElectionOf(vote.election), vote);
    sent, decided := outcome.sent, outcome.decided;
    HandledOutbox(c.Who(p), coins, vote, node, NodeOnVote(c.Who(p), coins, node, vote), sent, decided);
  }

  lemma HandledOutbox(who: Profile, coins: Coins, vote: Vote, before: Node, after: Node,
                      sent: seq<Vote>, decided: Option<Value>)
    requires ProofReadable(before.ElectionOf(vote.election), vote)
    requires Handled(who, coins, vote, before, after, sent, decided)
    ensures after.outbox == before.outbox + sent && after.outbox[|before.outbox|..] == sent
  {}

  lemma HandledCasts(who: Profile, coins: Coins, vote: Vote, before: Node, after: Node,
                     sent: seq<Vote>, decided: Option<Value>)
    requires ProofReadable(before.ElectionOf(vote.election), vote)
    requires Handled(who, coins, vote, before, after, sent, decided)
    requires vote.signer !in before.ElectionOf(vote.election).View(vote.round)
    requires Validate(who, coins, before.ElectionOf(vote.election), vote) == Valid
    requires VotesOn(who, coins, vote, before.ElectionOf(vote.election))
    ensures
      var e' := after.ElectionOf(vote.election);
      && e'.View(vote.round) == ViewWith(who, coins, vote, before.ElectionOf(vote.election))
      && who.id in e'.View(vote.round + 1)
      && e'.View(vote.round + 1)[who.id].proof == Some(e'.View(vote.round).Keys)
  {
    hide Validate, ViewWith, VotesOn;
  }

  // The vote an honest node casts upon a delivery is what its view calls for.
  lemma HonestVoteCalledFor(c: Committee, run: seq<System>, i: nat, p: NodeId, vote: Vote, coins: Coins, choice: Decision)
    requires HonestAtTime(c, run, i, p) && vote in run[i].sent
    requires MayAct(c, run[i], OfVote(p, vote, coins)) && ProofReadable(run[i].nodes[p].ElectionOf(vote.election), vote)
    requires
      var e := run[i].nodes[p].ElectionOf(vote.election);
      && vote.signer !in e.View(vote.round) && Validate(c.Who(p), coins, e, vote) == Valid
      && VotesOn(c.Who(p), coins, vote, e)
    ensures
      var after := Act(c, run[i], OfVote(p, vote, coins)).nodes;
      var view := ViewWith(c.Who(p), coins, vote, run[i].nodes[p].ElectionOf(vote.election));
      && p in after && p in after[p].ElectionOf(vote.election).View(vote.round + 1)
      && (after[p].ElectionOf(vote.election).View(vote.round + 1)[p].Choice() == choice
          <==> CallsFor(c.f, view, CASTING, choice))
  {
    hide BallotInv, HonestInv, IsRun, Validate, MayAct, Act, CallsFor, Handled, VotesOn, ViewWith;
    var sent, decided := VoteDelivered(c, run, i, p, vote, coins);
    var action := OfVote(p, vote, coins);
    var longer := run[..i + 1] + [Act(c, run[i], action)];
    HandledCasts(c.Who(p), coins, vote, run[i].nodes[p], longer[i + 1].nodes[p], sent, decided);
    RunExtends(c, run, i, action);
    ChoiceExactlyAlways(c, longer, i + 1, vote.election, p, vote.round, p, choice);
    var view := ViewWith(c.Who(p), coins, vote, run[i].nodes[p].ElectionOf(vote.election));
    assert Restrict(view, view.Keys) == view;
  }

  // Another's first vote reaching a node that has not opened is stored beside the
  // node's own, which is then all the node has broadcast in the election.
  lemma FirstVoteOpens(c: Committee, run: seq<System>, i: nat, p: NodeId, vote: Vote, coins: Coins)
    requires At(c, run, i) && p in run[i].nodes && vote in run[i].sent
    requires vote.round == 0 && vote.voteType == InitialVote && vote.signer != p
    requires p !in run[i].nodes[p].ElectionOf(vote.election).View(0)
    ensures MayAct(c, run[i], OfVote(p, vote, coins))
    ensures
      var own := Opening(p, vote.election, coins.first);
      var after := Act(c, run[i], OfVote(p, vote, coins)).nodes;
      && p in after
      && after[p].ElectionOf(vote.election).View(0) == map[vote.signer := vote, p := own]
      && after[p].outbox == run[i].nodes[p].outbox + [own]
      && LogOf(after[p].outbox, vote.election) == [own]
  {
    hide BallotInv, HonestInv, IsRun, MayAct, Act;
    var hash, node := vote.election, run[i].nodes[p];
    var sent, decided := VoteDelivered(c, run, i, p, vote, coins);
    Unopened(c, run, i, p, hash);
    var own := Opening(p, hash, coins.first);
    assert c.f >= 1;
    assert ViewWith(c.Who(p), coins, vote, node.ElectionOf(hash)) == map[vote.signer := vote, p := own];
    LogOfConcat(node.outbox, [own], hash);
    LogOfSame([own], hash);
  }

  lemma Unopened(c: Committee, run: seq<System>, i: nat, p: NodeId, hash: BlockHash)
    requires At(c, run, i) && p in run[i].nodes && p !in run[i].nodes[p].ElectionOf(hash).View(0)
    ensures run[i].nodes[p].ElectionOf(hash) == EMPTY_ELECTION && LogOf(run[i].nodes[p].outbox, hash) == []
  {
    hide BallotInv, HonestInv, IsRun;
    NodeLocal(c, run, i, p, hash);
    FlaggedInRun(c, run, i, p, hash, 0);
    UnopenedIsEmpty(c.Who(p), hash, LocalOf(run[i].nodes[p], hash));
  }

  // A transaction makes a node that has not opened do so, and is otherwise without
  // effect.  No other node, and no other election, is touched.
  lemma TransactionDelivered(c: Committee, run: seq<System>, i: nat, p: NodeId, hash: BlockHash, coins: Coins)
    requires At(c, run, i) && p in run[i].nodes
    ensures
      var system := Act(c, run[i], OfTransaction(p, hash, coins));
      var own := Opening(p, hash, coins.first);
      var before, opens := run[i].nodes[p], p !in run[i].nodes[p].ElectionOf(hash).View(0);
      && system.nodes.Keys == run[i].nodes.Keys
      && (forall q | q in run[i].nodes && q != p :: system.nodes[q] == run[i].nodes[q])
      && system.sent == run[i].sent + (if opens then {own} else {})
      && var after := system.nodes[p];
      && after.seen == before.seen && after.outbox == before.outbox + (if opens then [own] else [])
      && OthersAlone(before, after, hash) && Records(before, after, hash, None)
      && (opens ==> after.ElectionOf(hash).View(0) == map[p := own] && LogOf(after.outbox, hash) == [own])
      && (!opens ==> after.ElectionOf(hash).View(0) == before.ElectionOf(hash).View(0))
      && (forall q: nat | q > 0 :: after.ElectionOf(hash).View(q) == before.ElectionOf(hash).View(q))
  {
    hide BallotInv, HonestInv, IsRun, OnTransaction, Store, OthersAlone, Records, LogOf;
    var node := run[i].nodes[p];
    FlaggedInRun(c, run, i, p, hash, 0);
    OnTransactionOpens(c.Who(p), coins, node.ElectionOf(hash), hash);
    var outcome := OnTransaction(c.Who(p), coins, node.ElectionOf(hash), hash);
    StoreIsLocal(node, hash, outcome);
    var own := Opening(p, hash, coins.first);
    if p !in node.ElectionOf(hash).View(0) {
      Unopened(c, run, i, p, hash);
      LogOfConcat(node.outbox, [own], hash);
      LogOfSame([own], hash);
    }
  }

  // ----- Choices and verdicts, at any time of any run ----------------------------------

  // A vote past round 0 in an honest view is exactly what the votes its proof
  // names call for: a Decide on a Decide or a quorum of Commits, a Commit on a
  // quorum of first votes or any Commit, and a first vote for the rest.
  lemma ChoiceExactlyAlways(c: Committee, run: seq<System>, i: nat, hash: BlockHash, p: NodeId, r: nat, s: NodeId,
                            choice: Decision)
    requires HonestAtTime(c, run, i, p) && s in run[i].nodes[p].ElectionOf(hash).View(r + 1)
    ensures
      var view, vote := run[i].nodes[p].ElectionOf(hash).View(r), run[i].nodes[p].ElectionOf(hash).View(r + 1)[s];
      && vote.proof.Some? && vote.proof.value <= view.Keys && |vote.proof.value| >= Quorum(c.f)
      && (vote.Choice() == choice <==>
          CallsFor(c.f, Restrict(view, vote.proof.value), if s == p then CASTING else BOTH, choice))
  {
    hide BallotInv, HonestInv, IsRun, CallsFor;
    HonestAt(c, run, i, hash);
    ChoiceExactly(c, hash, HonestBallot(c, run[i], hash), p, r, s, choice);
  }

  lemma FirstDecideRestsAlways(c: Committee, run: seq<System>, i: nat, hash: BlockHash, p: NodeId, r: nat, s: NodeId)
    requires HonestAtTime(c, run, i, p) && s in run[i].nodes[p].ElectionOf(hash).View(r)
    requires run[i].nodes[p].ElectionOf(hash).View(r)[s].voteType == Decide
    requires r > 0 ==> NoDecides(run[i].nodes[p].ElectionOf(hash).View(r - 1))
    ensures
      var vote := run[i].nodes[p].ElectionOf(hash).View(r)[s];
      && r > 0 && vote.proof.Some?
      && |Signers(Restrict(run[i].nodes[p].ElectionOf(hash).View(r - 1), vote.proof.value), Commits(vote.value))| >= Quorum(c.f)
  {
    hide BallotInv, HonestInv, IsRun;
    HonestAt(c, run, i, hash);
    FirstDecideRests(c, hash, HonestBallot(c, run[i], hash), p, r, s);
  }

  // The verdict of an honest node on any vote that was sent.
  lemma VerdictExactlyAlways(c: Committee, run: seq<System>, i: nat, p: NodeId, vote: Vote, coins: Coins)
    requires HonestAtTime(c, run, i, p) && vote in run[i].sent
    ensures vote.round > 0 ==> vote.proof.Some?
    ensures
      var election := run[i].nodes[p].ElectionOf(vote.election);
      Validate(c.Who(p), coins, election, vote) ==
        if vote.round == 0 then (if vote.voteType == InitialVote then Valid else Invalid)
        else if vote.round - 1 !in election.state then Invalid
        else if !(vote.proof.value <= election.View(vote.round - 1).Keys) then Pending
        else if CallsFor(c.f, Restrict(election.View(vote.round - 1), vote.proof.value), BOTH, vote.Choice()) then Valid
        else Invalid
  {
    hide BallotInv, HonestInv, IsRun, CallsFor, Validate;
    SentIsProven(c, run, i, vote);
    HonestAt(c, run, i, vote.election);
    VerdictExactly(c, vote.election, HonestBallot(c, run[i], vote.election), p, vote, coins);
  }

  // That of a byzantine node.
  lemma VerdictOfByzantine(who: Profile, coins: Coins, e: Election, vote: Vote)
    requires who.byzantine && (vote.round > 0 ==> vote.proof.Some?)
    ensures
      Validate(who, coins, e, vote) ==
        if vote.round == 0 then (if vote.voteType == InitialVote then Valid else Invalid)
        else if vote.round - 1 !in e.state then Invalid
        else if !(vote.proof.value <= e.View(vote.round - 1).Keys) then Pending
        else if Flips(who.f, Restrict(e.View(vote.round - 1), vote.proof.value), coins.validating, vote.Choice()) then Valid
        else Invalid
  {
    if vote.round > 0 {
      var basis := Restrict(e.View(vote.round - 1), vote.proof.value);
      assert Signers(basis, Decides(One)) == {} <==> |Signers(basis, Decides(One))| == 0;
      hide Signers, Restrict;
    }
  }
}
