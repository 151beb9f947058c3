/** The committee's voting power: totals, thresholds, and how quorums overlap. */
module Stakes {

  // The ordered map of authorities, as its entries in key order.
  datatype Entry = Entry(name: nat, stake: nat)

  datatype Committee = Committee(authorities: seq<Entry>) {
    predicate Ordered() {
      forall i, j | 0 <= i < j < |authorities| :: authorities[i].name < authorities[j].name
    }

    // The stake of a name, 0 if it is not in the committee.
    function Stake(name: nat): nat {
      StakeIn(authorities, name)
    }

    function OthersStake(myself: nat): seq<Entry> {
      Without(authorities, myself)
    }

    method TotalStake() returns (total: nat)
      ensures total == Total(authorities)
    {
      total := 0;
      for i := 0 to |authorities|
        invariant total == Total(authorities[..i])
      {
        assert authorities[..i + 1][..i] == authorities[..i];
        total := total + authorities[i].stake;
      }
      assert authorities[..|authorities|] == authorities;
    }

    function QuorumThreshold(): nat {
      2 * Total(authorities) / 3 + 1
    }

    function ValidityThreshold(): nat {
      (Total(authorities) + 2) / 3
    }
  }

  function StakeIn(entries: seq<Entry>, name: nat): nat {
    if entries == [] then 0
    else
      var last := entries[|entries| - 1];
      if last.name == name then last.stake else StakeIn(entries[..|entries| - 1], name)
  }

  function Total(entries: seq<Entry>): nat {
    if entries == [] then 0 else Total(entries[..|entries| - 1]) + entries[|entries| - 1].stake
  }

  function Without(entries: seq<Entry>, name: nat): seq<Entry> {
    if entries == [] then []
    else
      var last := entries[|entries| - 1];
      Without(entries[..|entries| - 1], name) + if last.name != name then [last] else []
  }

  // The stake that a set of names holds together.
  function StakeOf(entries: seq<Entry>, names: set<nat>): nat {
    if entries == [] then 0
    else
      var last := entries[|entries| - 1];
      StakeOf(entries[..|entries| - 1], names) + if last.name in names then last.stake else 0
  }

  ghost predicate Distinct(entries: seq<Entry>) {
    forall i, j | 0 <= i < j < |entries| :: entries[i].name != entries[j].name
  }

  lemma {:induction false} StakeOfOne(entries: seq<Entry>, name: nat)
    requires Distinct(entries)
    ensures StakeIn(entries, name) == StakeOf(entries, {name})
    ensures (forall e | e in entries :: e.name != name) ==> StakeOf(entries, {name}) == 0
  {
    if entries != [] {
      var n := |entries| - 1;
      StakeOfOne(entries[..n], name);
      if entries[n].name == name {
        assert forall e | e in entries[..n] :: e.name != name;
      }
    }
  }

  lemma {:induction false} WithoutIsRest(entries: seq<Entry>, name: nat)
    ensures Total(Without(entries, name)) + StakeOf(entries, {name}) == Total(entries)
  {
    if entries != [] {
      var n := |entries| - 1;
      WithoutIsRest(entries[..n], name);
      var rest := Without(entries[..n], name);
      assert (rest + [entries[n]])[..|rest|] == rest && rest + [] == rest;
    }
  }

  // The others' stakes and one's own make up the total.
  lemma OthersAndMyself(c: Committee, myself: nat)
    requires c.Ordered()
    ensures Total(c.OthersStake(myself)) + c.Stake(myself) == Total(c.authorities)
  {
    StakeOfOne(c.authorities, myself);
    WithoutIsRest(c.authorities, myself);
  }

  // The others are all authorities but oneself, in order.
  lemma {:induction false} OthersAreTheRest(entries: seq<Entry>, myself: nat)
    requires Committee(entries).Ordered()
    ensures Committee(Without(entries, myself)).Ordered()
    ensures forall e :: e in Without(entries, myself) <==> e in entries && e.name != myself
  {
    if entries != [] {
      var n := |entries| - 1;
      OthersAreTheRest(entries[..n], myself);
      assert entries == entries[..n] + [entries[n]];
      forall e | e in entries[..n] ensures e.name < entries[n].name {}
      var rest := Without(entries[..n], myself);
      assert forall i | 0 <= i < |rest| :: rest[i] in rest;
    }
  }

  // ----- Thresholds -----------------------------------------------------------------

  // With N = 3f + 1 + k and 0 <= k < 3, a quorum is N - f and f + 1 is enough
  // for validity.
  lemma Thresholds(c: Committee, f: nat, k: nat)
    requires Total(c.authorities) == 3 * f + 1 + k && k < 3
    ensures c.QuorumThreshold() == Total(c.authorities) - f
    ensures c.ValidityThreshold() == f + 1
  {}

  lemma {:induction false} UnionAndIntersection(entries: seq<Entry>, a: set<nat>, b: set<nat>)
    ensures StakeOf(entries, a) + StakeOf(entries, b) == StakeOf(entries, a + b) + StakeOf(entries, a * b)
  {
    if entries != [] {
      UnionAndIntersection(entries[..|entries| - 1], a, b);
    }
  }

  lemma {:induction false} StakeOfBounded(entries: seq<Entry>, names: set<nat>)
    ensures StakeOf(entries, names) <= Total(entries)
  {
    if entries != [] {
      StakeOfBounded(entries[..|entries| - 1], names);
    }
  }

  // Any two quorums share at least the validity threshold of stake.
  lemma QuorumsOverlap(c: Committee, a: set<nat>, b: set<nat>)
    requires StakeOf(c.authorities, a) >= c.QuorumThreshold()
    requires StakeOf(c.authorities, b) >= c.QuorumThreshold()
    ensures StakeOf(c.authorities, a * b) >= c.ValidityThreshold()
  {
    UnionAndIntersection(c.authorities, a, b);
    StakeOfBounded(c.authorities, a + b);
  }

  lemma {:induction false} StakeOfRest(entries: seq<Entry>, names: set<nat>, rest: set<nat>)
    requires forall e | e in entries :: e.name in rest <==> e.name !in names
    ensures StakeOf(entries, names) + StakeOf(entries, rest) == Total(entries)
  {
    if entries != [] {
      var n := |entries| - 1;
      assert entries[n] in entries;
      StakeOfRest(entries[..n], names, rest);
    }
  }

  // The thresholds are as tight as they can be: the faulty may hold f of the
  // stake and the others still reach a quorum, while nobody reaches the
  // validity threshold without one of the others.
  lemma FaultyAreOutvoted(c: Committee, f: nat, k: nat, faulty: set<nat>, others: set<nat>)
    requires Total(c.authorities) == 3 * f + 1 + k && k < 3
    requires StakeOf(c.authorities, faulty) <= f
    requires forall e | e in c.authorities :: e.name in others <==> e.name !in faulty
    ensures StakeOf(c.authorities, others) >= c.QuorumThreshold()
    ensures forall names: set<nat> :: StakeOf(c.authorities, names) >= c.ValidityThreshold() ==>
      exists e :: e in c.authorities && e.name in names && e.name in others
  {
    StakeOfRest(c.authorities, faulty, others);
    Thresholds(c, f, k);
    forall names: set<nat> | StakeOf(c.authorities, names) >= c.ValidityThreshold()
      ensures exists e :: e in c.authorities && e.name in names && e.name in others
    {
      if forall e | e in c.authorities :: e.name in names ==> e.name in faulty {
        StakeOfWithin(c.authorities, names, faulty);
      }
    }
  }

  lemma {:induction false} StakeOfWithin(entries: seq<Entry>, a: set<nat>, b: set<nat>)
    requires forall e | e in entries :: e.name in a ==> e.name in b
    ensures StakeOf(entries, a) <= StakeOf(entries, b)
  {
    if entries != [] {
      var n := |entries| - 1;
      assert entries[n] in entries;
      StakeOfWithin(entries[..n], a, b);
    }
  }

  // ----- 32-bit stakes ------------------------------------------------------------------

  const U32: nat := 0x1_0000_0000

  // The thresholds as 32-bit arithmetic that wraps around computes them.
  function WrappingQuorumThreshold(total: nat): nat { 2 * total % U32 / 3 + 1 }

  function WrappingValidityThreshold(total: nat): nat { (total + 2) % U32 / 3 }

  // They are right exactly for totals below half the 32-bit range, and exactly
  // for all but the two greatest totals.
  lemma ThresholdsFit(c: Committee)
    requires Total(c.authorities) < U32
    ensures WrappingQuorumThreshold(Total(c.authorities)) == c.QuorumThreshold() <==> 2 * Total(c.authorities) < U32
    ensures WrappingValidityThreshold(Total(c.authorities)) == c.ValidityThreshold() <==> Total(c.authorities) + 2 < U32
  {
    var total := Total(c.authorities);
    if 2 * total >= U32 {
      assert 2 * total % U32 == 2 * total - U32;
    }
    if total + 2 >= U32 {
      assert (total + 2) % U32 == total + 2 - U32;
    }
  }
}
