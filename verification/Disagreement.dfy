/** Runs of the simulator in which honest nodes decide differently, and when there are such. */
module Disagreement {
  import opened Rounds
  import opened Laggards
  import opened Openings

  // A simulation in which each sender has told every receiver the same: row r
  // holds what the senders have said in round r.
  datatype Look = Look(
    nodes: seq<nat>,
    rows: seq<seq<int>>,
    zeros: seq<seq<nat>>,
    ones: seq<seq<nat>>,
    decided: map<nat, int>)

  const ABSENT := -2

  ghost predicate IsLook(l: Look) {
    && |l.nodes| == NUMBER_OF_NODES && |l.zeros| == |l.ones| == NUMBER_OF_HONEST_NODES
    && (forall r | 0 <= r < |l.rows| :: |l.rows[r]| == NUMBER_OF_NODES)
  }

  ghost predicate RowOf(votes: map<(nat, nat), Vector>, r: nat, row: seq<int>)
    requires |row| == NUMBER_OF_NODES
  {
    forall j: nat | j < NUMBER_OF_NODES ::
      if row[j] == ABSENT then (j, r) !in votes else (j, r) in votes && votes[(j, r)] == Uniform(row[j])
  }

  ghost predicate Row(s: Simulation, r: nat, row: seq<int>)
    requires |row| == NUMBER_OF_NODES
  {
    RowOf(s.votes, r, row)
  }

  ghost predicate Stands(s: Simulation, l: Look) {
    && IsLook(l) && Wired(s) && s.excluded == [] && s.decided == l.decided
    && (forall i: nat | i < NUMBER_OF_NODES :: s.nodes[i] == l.nodes[i])
    && (forall i: nat | i < NUMBER_OF_HONEST_NODES :: s.zeroQuorum[i] == l.zeros[i] && s.oneQuorum[i] == l.ones[i])
  }

  ghost predicate Looks(s: Simulation, l: Look) {
    && Stands(s, l)
    && (forall r: nat | r < |l.rows| :: Row(s, r, l.rows[r]))
  }

  function Tally(row: seq<int>, value: int): nat
    requires |row| == NUMBER_OF_NODES
  {
    (if row[0] == value then 1 else 0) + (if row[1] == value then 1 else 0)
    + (if row[2] == value then 1 else 0) + (if row[3] == value then 1 else 0)
  }

  lemma CountRow(s: Simulation, i: nat, r: nat, row: seq<int>, value: int)
    requires Wired(s) && i < NUMBER_OF_HONEST_NODES && s.excluded == []
    requires |row| == NUMBER_OF_NODES && Row(s, r, row) && value != ABSENT
    ensures Count(s, i, r, value, NUMBER_OF_NODES) == Tally(row, value)
  {
    assert Count(s, i, r, value, 0) == 0;
    assert Count(s, i, r, value, 1) == if row[0] == value then 1 else 0;
    assert Count(s, i, r, value, 2) == Count(s, i, r, value, 1) + if row[1] == value then 1 else 0;
    assert Count(s, i, r, value, 3) == Count(s, i, r, value, 2) + if row[2] == value then 1 else 0;
  }

  // The turn of an honest node that sees a quorum, on looks.
  ghost predicate SeesQuorum(l: Look, i: nat) {
    && IsLook(l) && i < NUMBER_OF_HONEST_NODES && l.nodes[i] + 1 < |l.rows|
    && Tally(l.rows[l.nodes[i]], 0) + Tally(l.rows[l.nodes[i]], 1) >= QUORUM
  }

  ghost function Spoken(l: Look, i: nat, value: int): Look
    requires IsLook(l) && i < NUMBER_OF_NODES && l.nodes[i] + 1 < |l.rows|
  {
    var r := l.nodes[i] + 1;
    l.(nodes := l.nodes[i := r], rows := l.rows[r := l.rows[r][i := value]])
  }

  ghost function LookTurn(l: Look, i: nat): Look
    requires SeesQuorum(l, i)
  {
    var r := l.nodes[i];
    if i in l.decided then Spoken(l, i, l.decided[i])
    else if Tally(l.rows[r], 1) >= QUORUM then
      Spoken(l, i, 1).(
        ones := l.ones[i := l.ones[i] + [r]],
        decided := if r != 0 && r - 1 in l.ones[i] then l.decided[i := 1] else l.decided)
    else if Tally(l.rows[r], 0) >= QUORUM then
      Spoken(l, i, 0).(
        zeros := l.zeros[i := l.zeros[i] + [r]],
        decided := if r != 0 && r - 1 in l.zeros[i] then l.decided[i := 0] else l.decided)
    else Spoken(l, i, 0)
  }

  lemma SpokenRows(s: Simulation, s': Simulation, l: Look, i: nat, value: int)
    requires Looks(s, l) && i < NUMBER_OF_NODES && l.nodes[i] + 1 < |l.rows| && value != ABSENT
    requires s'.votes == s.votes[(i, l.nodes[i] + 1) := Uniform(value)]
    ensures IsLook(Spoken(l, i, value))
    ensures forall r: nat | r < |l.rows| :: Row(s', r, Spoken(l, i, value).rows[r])
  {
    forall r: nat | r < |l.rows| ensures Row(s', r, Spoken(l, i, value).rows[r]) {
      assert Row(s, r, l.rows[r]);
    }
  }

  // Nobody has decided to be absent.
  ghost predicate Speaking(l: Look) {
    forall i | i in l.decided :: l.decided[i] != ABSENT
  }

  lemma TurnAdvances(s: Simulation, l: Look, i: nat)
    requires Looks(s, l) && SeesQuorum(l, i)
    ensures Wired(s)
    ensures Turn(s, i) == Advance(s, i, l.nodes[i], Tally(l.rows[l.nodes[i]], 0), Tally(l.rows[l.nodes[i]], 1))
  {
    var r := l.nodes[i];
    assert Row(s, r, l.rows[r]);
    CountRow(s, i, r, l.rows[r], 0);
    CountRow(s, i, r, l.rows[r], 1);
    hide Row, Tally, Advance, Count;
  }

  lemma AdvanceStands(s: Simulation, l: Look, i: nat)
    requires Stands(s, l) && SeesQuorum(l, i)
    ensures Stands(Advance(s, i, l.nodes[i], Tally(l.rows[l.nodes[i]], 0), Tally(l.rows[l.nodes[i]], 1)), LookTurn(l, i))
  {
    hide Tally, Advance, Row, RowOf, Uniform;
    var r := l.nodes[i];
    var zeros, ones := Tally(l.rows[r], 0), Tally(l.rows[r], 1);
    AdvanceVotes(s, i, r, zeros, ones);
    AdvanceRecords(s, i, r, zeros, ones);
  }

  lemma LooksTurn(s: Simulation, l: Look, i: nat)
    requires Looks(s, l) && SeesQuorum(l, i) && Speaking(l)
    ensures Looks(Turn(s, i), LookTurn(l, i))
  {
    var r := l.nodes[i];
    var zeros, ones := Tally(l.rows[r], 0), Tally(l.rows[r], 1);
    TurnAdvances(s, l, i);
    AdvanceStands(s, l, i);
    hide Row, Tally, Advance, Count, Turn, Wired;
    AdvanceVotes(s, i, r, zeros, ones);
    var value := if i in s.decided then s.decided[i] else if ones >= QUORUM then 1 else 0;
    SpokenRows(s, Advance(s, i, r, zeros, ones), l, i, value);
    assert LookTurn(l, i).rows == Spoken(l, i, value).rows;
    hide Stands, SeesQuorum;
  }

  lemma LooksMisbehave(s: Simulation, l: Look, choice: int)
    requires Looks(s, l) && IsChoice(choice) && VotePresent(s, NUMBER_OF_HONEST_NODES)
    requires Consistent(s.votes[(3, s.nodes[3])]) && l.nodes[3] + 1 < |l.rows|
    ensures Looks(Misbehave(s, 0, choice), Spoken(l, 3, choice))
  {
    hide Row, Uniform;
    SpokenRows(s, Misbehave(s, 0, choice), l, 3, choice);
  }

  ghost predicate LookTurns(l: Look, a: Look, b: Look, d: Look) {
    && SeesQuorum(l, 0) && LookTurn(l, 0) == a
    && SeesQuorum(a, 1) && LookTurn(a, 1) == b
    && SeesQuorum(b, 2) && LookTurn(b, 2) == d
    && Speaking(l) && Speaking(a) && Speaking(b)
  }

  lemma LooksTurns(s: Simulation, l: Look, a: Look, b: Look, d: Look)
    requires Looks(s, l) && LookTurns(l, a, b, d)
    ensures Wired(s) && Looks(Turns(s, 3), d)
  {
    hide Looks, LookTurn, Turn, SeesQuorum, Wired, Speaking;
    LooksWired(s, l);
    LooksTurn(s, l, 0);
    LooksTurn(Turn(s, 0), a, 1);
    LooksTurn(Turn(Turn(s, 0), 1), b, 2);
    ThreeTurns(s);
  }

  lemma LooksWired(s: Simulation, l: Look)
    requires Looks(s, l)
    ensures Wired(s)
  {}

  lemma LooksDecided(s: Simulation, l: Look)
    requires Looks(s, l)
    ensures s.decided == l.decided
  {}

  // A whole pass, ended by a byzantine choice, on looks.
  lemma LooksIteration(s: Simulation, d: Look, choice: int, k: nat)
    requires Inv(s, k, 0) && IsChoice(choice) && Looks(Turns(s, 3), d)
    requires IsLook(d) && d.nodes[3] + 1 < |d.rows|
    ensures AreChoices([choice]) && Looks(Iteration(s, [choice], k), Spoken(d, 3, choice))
  {
    hide Looks, Turns, VotesOk, QuorumsOk, DecidedOk, Misbehave, Misbehaviour;
    IterationEnds(s, [choice], k);
    TurnsKeep(s, 3, k);
    ByzantineConsistent(Turns(s, 3), k);
    LooksMisbehave(Turns(s, 3), d, choice);
  }

  lemma ByzantineConsistent(s: Simulation, k: nat)
    requires Inv(s, k, 3) && VotePresent(s, NUMBER_OF_HONEST_NODES)
    ensures Consistent(s.votes[(3, s.nodes[3])])
  {}

  // ----- The run --------------------------------------------------------------------

  const SILENT := [-2, -2, -2, -2]

  // What the run depends on: what the senders are heard saying in round 0 once
  // all is delivered; the votes of nodes 0 and 1 and the byzantine one in round
  // 1, two of them ones; and what nodes 0 and 1 have recorded of round 0.
  datatype Setting = Setting(
    row: seq<int>, x: int, y: int, z: int,
    zeros0: seq<nat>, zeros1: seq<nat>, ones0: seq<nat>, ones1: seq<nat>)

  ghost predicate IsSetting(c: Setting) {
    && |c.row| == NUMBER_OF_NODES && Tally(c.row, 1) >= QUORUM
    && (c.x == 0 || c.x == 1) && (c.y == 0 || c.y == 1) && (c.z == 0 || c.z == 1) && c.x + c.y + c.z == 2
    && 1 !in c.zeros0 && 1 !in c.zeros1
  }

  // Nodes 0 and 1 have left round 0; node 2 has just received it whole.
  ghost function Waited(c: Setting): Look {
    Look([1, 1, 0, 0], [c.row, [c.x, c.y, -2, -2], SILENT, SILENT, SILENT],
         [c.zeros0, c.zeros1, []], [c.ones0, c.ones1, []], map[])
  }

  // After the first pass.
  ghost function First(c: Setting): Look {
    Waited(c).(nodes := [1, 1, 0, 1], rows := [c.row, [c.x, c.y, -2, c.z], SILENT, SILENT, SILENT])
  }

  // After the second: nodes 0 and 1 fall back to 0, and node 2 sees a quorum of
  // ones in round 0.
  ghost function Second(c: Setting): Look {
    Look([2, 2, 1, 2], [c.row, [c.x, c.y, 1, c.z], [0, 0, -2, 0], SILENT, SILENT],
         [c.zeros0, c.zeros1, []], [c.ones0, c.ones1, [0]], map[])
  }

  // After the third: node 2 sees a second quorum of ones and decides 1; the
  // others see a quorum of zeros.
  ghost function Third(c: Setting): Look {
    Look([3, 3, 2, 3], [c.row, [c.x, c.y, 1, c.z], [0, 0, 1, 0], [0, 0, -2, 0], SILENT],
         [c.zeros0 + [2], c.zeros1 + [2], []], [c.ones0, c.ones1, [0, 1]], map[2 := 1])
  }

  // Between the turns of the second pass.
  ghost function SecondA(c: Setting): Look {
    First(c).(nodes := [2, 1, 0, 1], rows := [c.row, [c.x, c.y, -2, c.z], [0, -2, -2, -2], SILENT, SILENT])
  }

  ghost function SecondB(c: Setting): Look {
    First(c).(nodes := [2, 2, 0, 1], rows := [c.row, [c.x, c.y, -2, c.z], [0, 0, -2, -2], SILENT, SILENT])
  }

  ghost function SecondC(c: Setting): Look {
    Second(c).(nodes := [2, 2, 1, 1], rows := [c.row, [c.x, c.y, 1, c.z], [0, 0, -2, -2], SILENT, SILENT])
  }

  lemma SecondOpens(c: Setting)
    requires IsSetting(c)
    ensures SeesQuorum(First(c), 0) && LookTurn(First(c), 0) == SecondA(c)
    ensures SeesQuorum(SecondA(c), 1) && LookTurn(SecondA(c), 1) == SecondB(c)
  {
    var a := LookTurn(First(c), 0);
    assert a.rows[2] == [0, -2, -2, -2];
    assert a.nodes == [2, 1, 0, 1] && a.rows == SecondA(c).rows;
    var b := LookTurn(SecondA(c), 1);
    assert b.rows[2] == [0, 0, -2, -2];
    assert b.nodes == [2, 2, 0, 1] && b.rows == SecondB(c).rows;
  }

  lemma SecondEnds(c: Setting)
    requires IsSetting(c)
    ensures SeesQuorum(SecondB(c), 2) && LookTurn(SecondB(c), 2) == SecondC(c)
    ensures IsLook(SecondC(c)) && Spoken(SecondC(c), 3, 0) == Second(c)
  {
    var d := LookTurn(SecondB(c), 2);
    assert d.ones[2] == [0] && d.rows[1] == [c.x, c.y, 1, c.z];
    assert d.nodes == [2, 2, 1, 1] && d.rows == SecondC(c).rows && d.ones == SecondC(c).ones;
    var e := Spoken(SecondC(c), 3, 0);
    assert e.rows[2] == [0, 0, -2, 0];
    assert e.nodes == [2, 2, 1, 2] && e.rows == Second(c).rows;
  }

  // Between the turns of the third.
  ghost function ThirdA(c: Setting): Look {
    Second(c).(
      nodes := [3, 2, 1, 2], rows := [c.row, [c.x, c.y, 1, c.z], [0, 0, -2, 0], [0, -2, -2, -2], SILENT],
      zeros := [c.zeros0 + [2], c.zeros1, []])
  }

  ghost function ThirdB(c: Setting): Look {
    Second(c).(
      nodes := [3, 3, 1, 2], rows := [c.row, [c.x, c.y, 1, c.z], [0, 0, -2, 0], [0, 0, -2, -2], SILENT],
      zeros := [c.zeros0 + [2], c.zeros1 + [2], []])
  }

  ghost function ThirdC(c: Setting): Look {
    Third(c).(nodes := [3, 3, 2, 2], rows := [c.row, [c.x, c.y, 1, c.z], [0, 0, 1, 0], [0, 0, -2, -2], SILENT])
  }

  lemma ThirdOpens(c: Setting)
    requires IsSetting(c)
    ensures SeesQuorum(Second(c), 0) && LookTurn(Second(c), 0) == ThirdA(c)
    ensures SeesQuorum(ThirdA(c), 1) && LookTurn(ThirdA(c), 1) == ThirdB(c)
  {
    var a := LookTurn(Second(c), 0);
    assert a.rows[3] == [0, -2, -2, -2];
    assert a.nodes == [3, 2, 1, 2] && a.rows == ThirdA(c).rows && a.zeros == ThirdA(c).zeros;
    var b := LookTurn(ThirdA(c), 1);
    assert b.rows[3] == [0, 0, -2, -2];
    assert b.nodes == [3, 3, 1, 2] && b.rows == ThirdB(c).rows && b.zeros == ThirdB(c).zeros;
  }

  lemma ThirdEnds(c: Setting)
    requires IsSetting(c)
    ensures SeesQuorum(ThirdB(c), 2) && LookTurn(ThirdB(c), 2) == ThirdC(c)
    ensures IsLook(ThirdC(c)) && Spoken(ThirdC(c), 3, 0) == Third(c)
  {
    var d := LookTurn(ThirdB(c), 2);
    assert d.ones[2] == [0, 1] && d.rows[2] == [0, 0, 1, 0];
    assert d.nodes == [3, 3, 2, 2] && d.rows == ThirdC(c).rows && d.ones == ThirdC(c).ones;
    var e := Spoken(ThirdC(c), 3, 0);
    assert e.rows[3] == [0, 0, -2, 0];
    assert e.nodes == [3, 3, 2, 3] && e.rows == Third(c).rows;
  }

  // In the fourth pass nodes 0 and 1 see their second quorum of zeros, and
  // decide 0.
  lemma FourthTurns(c: Setting) returns (a: Look, b: Look, d: Look)
    requires IsSetting(c)
    ensures LookTurns(Third(c), a, b, d) && d.decided == map[0 := 0, 1 := 0, 2 := 1]
  {
    a := LookTurn(Third(c), 0);
    assert a.decided == map[0 := 0, 2 := 1];
    assert a.nodes == [4, 3, 2, 3] && a.rows[3] == [0, 0, -2, 0] && a.rows[2] == [0, 0, 1, 0] && a.zeros[1] == c.zeros1 + [2];
    b := LookTurn(a, 1);
    assert b.decided == map[0 := 0, 1 := 0, 2 := 1];
    assert b.nodes == [4, 4, 2, 3] && b.rows[2] == [0, 0, 1, 0];
    d := LookTurn(b, 2);
  }

  // ----- From the opening to the setting ------------------------------------------------

  // What all will have heard a sender say in round 0.
  function Delivered(v: Vector): int
    requires |v| == NUMBER_OF_NODES
  {
    if 1 in v then 1 else 0
  }

  ghost function SettingOf(opening: seq<Vector>, s: Simulation): Setting
    requires Sized(opening) && Wired(s)
  {
    var x, y := FirstVote(opening, 0), FirstVote(opening, 1);
    Setting(
      [Delivered(opening[0]), Delivered(opening[1]), Delivered(opening[2]), opening[3][0]],
      x, y, if x + y == 2 then 0 else 1,
      s.zeroQuorum[0], s.zeroQuorum[1], s.oneQuorum[0], s.oneQuorum[1])
  }

  // Who hears a 1 hears it of a sender that all will hear say 1.
  lemma OnesDelivered(opening: seq<Vector>, i: nat)
    requires Sized(opening) && i < NUMBER_OF_NODES && (forall x | 0 <= x < NUMBER_OF_NODES :: opening[3][x] == opening[3][0])
    ensures Ones(opening, i)
         <= Tally([Delivered(opening[0]), Delivered(opening[1]), Delivered(opening[2]), opening[3][0]], 1)
  {
    assert Told(opening, i, 1, 0) == 0;
    assert Told(opening, i, 1, 1) == if opening[0][i] == 1 then 1 else 0;
    assert Told(opening, i, 1, 2) == Told(opening, i, 1, 1) + if opening[1][i] == 1 then 1 else 0;
    assert Told(opening, i, 1, 3) == Told(opening, i, 1, 2) + if opening[2][i] == 1 then 1 else 0;
  }

  lemma IsSettingOf(opening: seq<Vector>, s: Simulation)
    requires IsOpening(opening) && MayDisagree(opening) && Sized(opening)
    requires Wired(s) && QuorumsPast(s) && s.nodes[0] == 1 && s.nodes[1] == 1
    ensures IsSetting(SettingOf(opening, s))
  {
    OnesDelivered(opening, 0);
    OnesDelivered(opening, 1);
    hide Told, Tally, Delivered;
  }

  lemma ReceivedVotes(s: Simulation, opening: seq<Vector>)
    requires IsOpening(opening) && Early(s, opening, 2)
    ensures var votes := Receive(s, 0).votes;
      && (forall j: nat | j < NUMBER_OF_HONEST_NODES :: (j, 0) in votes && votes[(j, 0)] == Uniform(Delivered(opening[j])))
      && (3, 0) in votes && votes[(3, 0)] == Uniform(opening[3][0]) && opening[3][0] != ABSENT
  {
    hide Told, Filled, Uniform;
    var votes := Receive(s, 0).votes;
    ByzantineOpening(opening);
    forall j: nat | j < NUMBER_OF_HONEST_NODES ensures (j, 0) in votes && votes[(j, 0)] == Uniform(Delivered(opening[j])) {
      OpeningFills(opening[j]);
    }
  }

  lemma ByzantineOpening(opening: seq<Vector>)
    requires IsOpening(opening)
    ensures |opening[3]| == NUMBER_OF_NODES && opening[3] == Uniform(opening[3][0]) && IsChoice(opening[3][0])
  {
    assert Uniform(-1)[0] == -1 && Uniform(0)[0] == 0 && Uniform(1)[0] == 1;
  }

  lemma ReceivedRow(s: Simulation, opening: seq<Vector>)
    requires IsOpening(opening) && Early(s, opening, 2)
    ensures RowOf(Receive(s, 0).votes, 0, SettingOf(opening, s).row)
  {
    hide Receive, EarlyVotes, IsOpening, Uniform, Told;
    ReceivedVotes(s, opening);
  }

  lemma LaterRows(s: Simulation, opening: seq<Vector>)
    requires Early(s, opening, 2)
    ensures RowOf(Receive(s, 0).votes, 1, [FirstVote(opening, 0), FirstVote(opening, 1), -2, -2])
    ensures forall r: nat | r > 1 :: RowOf(Receive(s, 0).votes, r, SILENT)
  {
    hide Uniform, Told, Ones, Filled;
  }

  lemma WaitedRows(s: Simulation, opening: seq<Vector>)
    requires IsOpening(opening) && Early(s, opening, 2)
    ensures forall r: nat | r < 5 :: Row(Receive(s, 0), r, Waited(SettingOf(opening, s)).rows[r])
  {
    hide RowOf, Receive, EarlyVotes, IsOpening, FirstVote, Delivered, Uniform;
    ReceivedRow(s, opening);
    LaterRows(s, opening);
  }

  // Node 2 lags behind the first pass.
  lemma NodeTwoLags(opening: seq<Vector>) returns (c: Setting)
    requires IsOpening(opening) && MayDisagree(opening)
    ensures IsSetting(c)
    ensures Wired(Start(opening)) && Looks(Turns(Start(opening), 3), Waited(c))
  {
    hide Turn, Turns, Heard, Ones, Receive, Start, Wired, Base, Early, Looks, IsSetting, EarlyVotes;
    var s := Start(opening);
    OpeningSized(opening);
    StartBase(opening);
    BaseWired(s, 0, 0);
    StartEarly(opening);
    EarlyTurn(s, opening, 0);
    EarlyTurn(Turn(s, 0), opening, 1);
    var b := Turn(Turn(s, 0), 1);
    EarlyTurn(b, opening, 2);
    ThreeBase(s);
    ThreeTurns(s);
    EarlyWired(b, opening, 2);
    c := SettingOf(opening, b);
    LaggardLooks(b, opening);
  }

  lemma LaggardLooks(b: Simulation, opening: seq<Vector>)
    requires IsOpening(opening) && MayDisagree(opening) && Base(b, 0, 2) && Early(b, opening, 2)
    ensures IsSetting(SettingOf(opening, b)) && Looks(Receive(b, 0), Waited(SettingOf(opening, b)))
  {
    hide VotesOk, QuorumsOk, DecidedOk, OnesGrounded, Paced, EarlyVotes, IsOpening, Receive, MayDisagree, Row;
    IsSettingOf(opening, b);
    WaitedRows(b, opening);
    hide IsSetting, FirstVote, Delivered;
    ReceiveStands(b);
  }

  lemma ReceiveStands(b: Simulation)
    requires Wired(b)
    ensures var after := Receive(b, 0);
      && after.nodes == b.nodes && after.decided == b.decided && after.excluded == b.excluded
      && after.zeroQuorum == b.zeroQuorum && after.oneQuorum == b.oneQuorum
  {}

  lemma WaitedSpeaks(c: Setting)
    requires IsSetting(c)
    ensures IsLook(Waited(c)) && Spoken(Waited(c), 3, c.z) == First(c)
  {
    var e := Spoken(Waited(c), 3, c.z);
    assert e.rows[1] == [c.x, c.y, -2, c.z];
    assert e.nodes == [1, 1, 0, 1] && e.rows == First(c).rows;
  }

  // One pass, on looks.
  lemma PassLooks(s: Simulation, l: Look, a: Look, b: Look, d: Look, k: nat)
    requires Looks(s, l) && Inv(s, k, 0) && LookTurns(l, a, b, d)
    requires IsLook(d) && d.nodes[3] + 1 < |d.rows|
    ensures Wired(s) && Turns(s, 3).decided == d.decided
    ensures AreChoices([0]) && Looks(Iteration(s, [0], k), Spoken(d, 3, 0))
  {
    hide Looks, LookTurns, Turns, VotesOk, QuorumsOk, DecidedOk;
    LooksTurns(s, l, a, b, d);
    LooksDecided(Turns(s, 3), d);
    LooksIteration(s, d, 0, k);
  }

  // ----- When the assertion fails, and when it holds ------------------------------------

  // The four passes: nobody has decided after two, node 2 alone after three.
  lemma FourPasses(opening: seq<Vector>, c: Setting)
    requires IsOpening(opening) && IsSetting(c)
    requires Wired(Start(opening)) && Looks(Turns(Start(opening), 3), Waited(c))
    ensures AreSchedules([[c.z], [0], [0]])
    ensures var schedule := [[c.z], [0], [0]];
      && During(opening, schedule, 0, 3).decided == map[]
      && During(opening, schedule, 1, 3).decided == map[]
      && During(opening, schedule, 2, 3).decided == map[2 := 1]
      && During(opening, schedule, 3, 3).decided == map[0 := 0, 1 := 0, 2 := 1]
  {
    hide Inv, Looks, Turns, Start, Iteration, IsOpening, LookTurns, LoopTop, Spoken, Wired;
    OpeningSized(opening);
    var schedule := [[c.z], [0], [0]];
    TopsOf(opening, c.z);
    var one, two, three := TopAfter(opening, schedule, 1), TopAfter(opening, schedule, 2), TopAfter(opening, schedule, 3);
    LooksDecided(Turns(Start(opening), 3), Waited(c));
    WaitedSpeaks(c);
    LooksIteration(Start(opening), Waited(c), c.z, 0);
    SecondLooks(one, c);
    ThirdLooks(two, c);
    var a, b, d := FourthTurns(c);
    LooksTurns(three, Third(c), a, b, d);
    LooksDecided(Turns(three, 3), d);
  }

  lemma TopsOf(opening: seq<Vector>, z: int)
    requires IsOpening(opening) && IsChoice(z)
    ensures AreSchedules([[z], [0], [0]]) && Inv(Start(opening), 0, 0)
    ensures var schedule := [[z], [0], [0]];
      && TopAfter(opening, schedule, 0) == Start(opening)
      && TopAfter(opening, schedule, 1) == Iteration(Start(opening), [z], 0)
      && TopAfter(opening, schedule, 2) == Iteration(TopAfter(opening, schedule, 1), [0], 1)
      && TopAfter(opening, schedule, 3) == Iteration(TopAfter(opening, schedule, 2), [0], 2)
  {
    hide Inv, Start, Iteration, IsOpening;
    OpeningSized(opening);
    StartInv(opening);
    var schedule := [[z], [0], [0]];
    assert AreSchedules(schedule);
    assert schedule[..1][..0] == [] && schedule[..2][..1] == schedule[..1] && schedule[..3][..2] == schedule[..2];
    assert LoopTop(opening, []) == Start(opening);
  }

  lemma SecondLooks(s: Simulation, c: Setting)
    requires IsSetting(c) && Looks(s, First(c)) && Inv(s, 1, 0)
    ensures Wired(s) && Turns(s, 3).decided == map[]
    ensures AreChoices([0]) && Looks(Iteration(s, [0], 1), Second(c))
  {
    hide Looks, Inv, Turns, Iteration, SeesQuorum, LookTurn, Spoken, IsSetting;
    SecondOpens(c);
    SecondEnds(c);
    PassLooks(s, First(c), SecondA(c), SecondB(c), SecondC(c), 1);
  }

  lemma ThirdLooks(s: Simulation, c: Setting)
    requires IsSetting(c) && Looks(s, Second(c)) && Inv(s, 2, 0)
    ensures Wired(s) && Turns(s, 3).decided == map[2 := 1]
    ensures AreChoices([0]) && Looks(Iteration(s, [0], 2), Third(c))
  {
    hide Looks, Inv, Turns, Iteration, SeesQuorum, LookTurn, Spoken, IsSetting;
    ThirdOpens(c);
    ThirdEnds(c);
    PassLooks(s, Second(c), ThirdA(c), ThirdB(c), ThirdC(c), 2);
  }

  // From any such opening some choices of the byzantine node make the instance
  // end with nodes 0 and 1 deciding 0 and node 2 deciding 1.
  lemma Disagrees(opening: seq<Vector>) returns (schedule: seq<seq<int>>)
    requires IsOpening(opening) && MayDisagree(opening)
    ensures AreSchedules(schedule) && |schedule| == 3 && FirstConclusion(opening, schedule, 3)
    ensures During(opening, schedule, 3, NUMBER_OF_HONEST_NODES).decided == map[0 := 0, 1 := 0, 2 := 1]
  {
    hide Inv, Looks, Turns, Start, IsOpening, IsSetting, MayDisagree, During, AreSchedules, Wired, ConcludesAfter, Waited;
    OpeningSized(opening);
    var c := NodeTwoLags(opening);
    FourPasses(opening, c);
    schedule := [[c.z], [0], [0]];
    NotOver(opening, schedule, 0, map[]);
    NotOver(opening, schedule, 1, map[]);
    NotOver(opening, schedule, 2, map[2 := 1]);
    assert ConcludesAfter(opening, schedule, 3) by { Over(opening, schedule); }
  }

  lemma NotOver(opening: seq<Vector>, schedule: seq<seq<int>>, n: nat, decided: map<nat, int>)
    requires IsOpening(opening) && AreSchedules(schedule) && n <= |schedule|
    requires During(opening, schedule, n, 3).decided == decided && |decided| < 3
    ensures !ConcludesAfter(opening, schedule, n)
  {
    hide Inv, Wired, During, IsOpening, AreSchedules;
  }

  lemma Over(opening: seq<Vector>, schedule: seq<seq<int>>)
    requires IsOpening(opening) && AreSchedules(schedule) && 3 <= |schedule|
    requires During(opening, schedule, 3, 3).decided == map[0 := 0, 1 := 0, 2 := 1]
    ensures ConcludesAfter(opening, schedule, 3)
  {
    hide Inv, Wired, During, IsOpening, AreSchedules;
    assert |map[0 := 0, 1 := 0, 2 := 1]| == 3;
  }

  // The assertion at the end of an instance, for every behaviour from this opening.
  ghost predicate AssertionHolds(opening: seq<Vector>)
    requires IsOpening(opening)
  {
    forall schedule, n: nat {:trigger FirstConclusion(opening, schedule, n)} |
      AreSchedules(schedule) && n <= |schedule| && FirstConclusion(opening, schedule, n) ::
      Agree(During(opening, schedule, n, NUMBER_OF_HONEST_NODES).decided)
  }

  // The decisions agree in every pass, before the end of the instance and after.
  ghost predicate AlwaysAgree(opening: seq<Vector>)
    requires IsOpening(opening)
  {
    forall schedule, n: nat {:trigger During(opening, schedule, n, NUMBER_OF_HONEST_NODES)} |
      AreSchedules(schedule) && n <= |schedule| ::
      Agree(During(opening, schedule, n, NUMBER_OF_HONEST_NODES).decided)
  }

  // Whether decisions can differ is settled by what the nodes hear at the start.
  lemma AgreementExactly(opening: seq<Vector>)
    requires IsOpening(opening)
    ensures AssertionHolds(opening) <==> !MayDisagree(opening)
    ensures AlwaysAgree(opening) <==> !MayDisagree(opening)
  {
    hide IsOpening, MayDisagree, During, FirstConclusion, AreSchedules;
    if MayDisagree(opening) {
      var schedule := Disagrees(opening);
      var decided := During(opening, schedule, 3, NUMBER_OF_HONEST_NODES).decided;
      assert decided[0] != decided[2];
    } else {
      forall schedule, n: nat {:trigger During(opening, schedule, n, NUMBER_OF_HONEST_NODES)} |
        AreSchedules(schedule) && n <= |schedule|
        ensures Agree(During(opening, schedule, n, NUMBER_OF_HONEST_NODES).decided)
      {
        DecisionsAgree(opening, schedule, n);
      }
    }
  }

  // All honest nodes open with 1, two of them delayed for node 2.
  const OPENING: seq<Vector> := [[1, 1, 1, 1], [-1, 1, -1, -1], [1, 1, -1, 1], [1, 1, 1, 1]]

  // Even if every honest opening vote is a 1 the assertion may fail.
  lemma AgreementFails()
    ensures IsOpening(OPENING) && forall i | 0 <= i < NUMBER_OF_HONEST_NODES :: 0 !in OPENING[i]
    ensures MayDisagree(OPENING) && !AssertionHolds(OPENING)
  {
    OnesOpening();
    hide IsOpening, MayDisagree, AssertionHolds, AlwaysAgree;
    AgreementExactly(OPENING);
  }

  lemma OnesOpening()
    ensures IsOpening(OPENING) && MayDisagree(OPENING)
    ensures forall i | 0 <= i < NUMBER_OF_HONEST_NODES :: 0 !in OPENING[i]
  {
    assert OPENING[3] == Uniform(1);
    assert 0 !in OPENING[0] && 0 !in OPENING[1] && 0 !in OPENING[2];
    assert IsOpening(OPENING);
    ToldUnrolled(OPENING, 0);
    ToldUnrolled(OPENING, 1);
    ToldUnrolled(OPENING, 2);
  }

  lemma ToldUnrolled(opening: seq<Vector>, i: nat)
    requires Sized(opening) && i < NUMBER_OF_NODES
    ensures Heard(opening, i) == Tally([opening[0][i], opening[1][i], opening[2][i], opening[3][i]], 0) + Ones(opening, i)
    ensures Ones(opening, i) == Tally([opening[0][i], opening[1][i], opening[2][i], opening[3][i]], 1)
  {
    forall value: int ensures Told(opening, i, value, NUMBER_OF_NODES)
      == Tally([opening[0][i], opening[1][i], opening[2][i], opening[3][i]], value)
    {
      assert Told(opening, i, value, 0) == 0;
      assert Told(opening, i, value, 1) == if opening[0][i] == value then 1 else 0;
      assert Told(opening, i, value, 2) == Told(opening, i, value, 1) + if opening[1][i] == value then 1 else 0;
      assert Told(opening, i, value, 3) == Told(opening, i, value, 2) + if opening[2][i] == value then 1 else 0;
    }
  }
}
