/**
 Reordering the address records of an answer: by preferred ranges, by rotation, or by
 connection time. Each address family is handled on its own slots.
*/
module Balance {
  import opened Wrappers
  import opened Dns
  import opened Addresses
  import opened Cidr
  import opened StableSort
  import opened Query
  import opened Rotation
  import Decimal

  // ---------------------------------------------------------------------------
  // The slots of one family
  // ---------------------------------------------------------------------------

  datatype Target = Target(slot: nat, ip: IpAddr)

  predicate InFamily(data: RData, isA: bool) {
    if isA then data.A? else data.AAAA?
  }

  function AddressOf(data: RData): IpAddr
    requires data.A? || data.AAAA?
  {
    if data.A? then V4(data.v4) else V6(data.v6)
  }

  /** Slots of the family's records, in answer order. */
  function Slots(answers: seq<Record>, isA: bool): (r: seq<nat>)
    ensures forall k :: 0 <= k < |r| ==> r[k] < |answers| && InFamily(answers[r[k]].data, isA)
    ensures forall k, l :: 0 <= k < l < |r| ==> r[k] < r[l]
  {
    if answers == [] then [] else
    var n := |answers| - 1;
    var before := Slots(answers[..n], isA);
    if InFamily(answers[n].data, isA) then before + [n] else before
  }

  /** The family's records, in answer order. */
  function Family(answers: seq<Record>, isA: bool): (r: seq<Record>)
    ensures |r| == |Slots(answers, isA)|
    ensures forall k :: 0 <= k < |r| ==> InFamily(r[k].data, isA)
  {
    Taken(answers, Slots(answers, isA))
  }

  /** The records that are not of the family, in answer order. */
  function Others(answers: seq<Record>, isA: bool): seq<Record> {
    if answers == [] then [] else
    var n := |answers| - 1;
    Others(answers[..n], isA) + if InFamily(answers[n].data, isA) then [] else [answers[n]]
  }

  function TargetsOf(answers: seq<Record>, isA: bool): (r: seq<Target>)
    ensures |r| == |Slots(answers, isA)|
  {
    var slots := Slots(answers, isA);
    seq(|slots|, k requires 0 <= k < |slots| => Target(slots[k], AddressOf(answers[slots[k]].data)))
  }

  method CollectFamily(answers: seq<Record>, isA: bool) returns (targets: seq<Target>)
    ensures targets == TargetsOf(answers, isA)
  {
    targets := [];
    assert answers[..0] == [];
    for i := 0 to |answers|
      invariant targets == TargetsOf(answers[..i], isA)
    {
      assert answers[..i + 1][..i] == answers[..i];
      if InFamily(answers[i].data, isA) {
        targets := targets + [Target(i, AddressOf(answers[i].data))];
      }
    }
    assert answers[..|answers|] == answers;
  }

  // ---------------------------------------------------------------------------
  // Writing the family's slots
  // ---------------------------------------------------------------------------

  /** `answers` with the first `n` of `records` written to the first `n` of `slots`. */
  function Written(answers: seq<Record>, slots: seq<nat>, records: seq<Record>, n: nat): (r: seq<Record>)
    requires n <= |slots| == |records|
    requires forall k :: 0 <= k < |slots| ==> slots[k] < |answers|
    ensures |r| == |answers|
  {
    if n == 0 then answers else Written(answers, slots, records, n - 1)[slots[n - 1] := records[n - 1]]
  }

  /** Slot `slots[k]` gets record `k`. */
  lemma {:induction false} WrittenAt(answers: seq<Record>, slots: seq<nat>, records: seq<Record>, n: nat, k: nat)
    requires k < n <= |slots| == |records|
    requires forall k :: 0 <= k < |slots| ==> slots[k] < |answers|
    requires forall k, l :: 0 <= k < l < |slots| ==> slots[k] < slots[l]
    ensures Written(answers, slots, records, n)[slots[k]] == records[k]
  {
    if k < n - 1 {
      WrittenAt(answers, slots, records, n - 1, k);
    }
  }

  /** Every other slot keeps its own. */
  lemma {:induction false} NotWritten(answers: seq<Record>, slots: seq<nat>, records: seq<Record>, n: nat, i: nat)
    requires n <= |slots| == |records| && i < |answers| && i !in slots
    requires forall k :: 0 <= k < |slots| ==> slots[k] < |answers|
    ensures Written(answers, slots, records, n)[i] == answers[i]
  {
    if n > 0 {
      NotWritten(answers, slots, records, n - 1, i);
    }
  }

  /** The answers with the family's records taken in the given order. */
  function Reordered(answers: seq<Record>, isA: bool, order: seq<nat>): (r: seq<Record>)
    requires Lists(order, |Slots(answers, isA)|)
    ensures |r| == |answers|
  {
    var slots := Slots(answers, isA);
    ListsInRange(order, |slots|);
    Written(answers, slots, Taken(Family(answers, isA), order), |slots|)
  }

  lemma {:induction false} SameShapeSameSlots(a: seq<Record>, b: seq<Record>, isA: bool)
    requires |a| == |b| && forall i :: 0 <= i < |a| ==> InFamily(a[i].data, isA) == InFamily(b[i].data, isA)
    ensures Slots(a, isA) == Slots(b, isA)
  {
    if a != [] {
      SameShapeSameSlots(a[..|a| - 1], b[..|b| - 1], isA);
    }
  }

  lemma {:induction false} NotInFamily(answers: seq<Record>, isA: bool, i: nat)
    requires i < |answers|
    ensures i in Slots(answers, isA) <==> InFamily(answers[i].data, isA)
  {
    var n := |answers| - 1;
    if i < n {
      NotInFamily(answers[..n], isA, i);
    }
  }

  lemma {:induction false} SameOthers(a: seq<Record>, b: seq<Record>, isA: bool)
    requires |a| == |b| && forall i :: 0 <= i < |a| ==> InFamily(a[i].data, isA) == InFamily(b[i].data, isA)
    requires forall i :: 0 <= i < |a| && !InFamily(a[i].data, isA) ==> a[i] == b[i]
    ensures Others(a, isA) == Others(b, isA)
  {
    if a != [] {
      SameOthers(a[..|a| - 1], b[..|b| - 1], isA);
    }
  }

  lemma {:induction false} FamilyAndOthers(answers: seq<Record>, isA: bool)
    ensures multiset(answers) == multiset(Family(answers, isA)) + multiset(Others(answers, isA))
  {
    hide Family, Others, InFamily;
    if answers != [] {
      var n := |answers| - 1;
      FamilyAndOthers(answers[..n], isA);
      OneMoreAnswer(answers, isA);
      assert answers == answers[..n] + [answers[n]];
      assert multiset(answers) == multiset(answers[..n]) + multiset{answers[n]};
    } else {
      NoAnswers(isA);
    }
  }

  lemma NoAnswers(isA: bool)
    ensures Family([], isA) == [] && Others([], isA) == []
  {
  }

  /** The last answer comes last in its part. */
  lemma OneMoreAnswer(answers: seq<Record>, isA: bool)
    requires answers != []
    ensures var n := |answers| - 1; var inFamily := InFamily(answers[n].data, isA);
            && Family(answers, isA) == Family(answers[..n], isA) + (if inFamily then [answers[n]] else [])
            && Others(answers, isA) == Others(answers[..n], isA) + (if inFamily then [] else [answers[n]])
  {
    hide InFamily;
  }

  /** Reordering a family permutes the answers, rearranges the family as asked, and touches no other slot. */
  lemma ReorderedMeaning(answers: seq<Record>, isA: bool, order: seq<nat>)
    requires Lists(order, |Slots(answers, isA)|)
    requires forall k :: 0 <= k < |order| ==> order[k] < |Slots(answers, isA)|
    ensures var r := Reordered(answers, isA, order);
            && multiset(r) == multiset(answers)
            && Slots(r, isA) == Slots(answers, isA)
            && Family(r, isA) == Taken(Family(answers, isA), order)
            && forall i :: 0 <= i < |answers| && !InFamily(answers[i].data, isA) ==> r[i] == answers[i]
  {
    hide Slots, InFamily, Others, Written, Lists, Family, Reordered;
    var r := Reordered(answers, isA, order);
    ReorderedAt(answers, isA, order);
    ReorderedFamily(answers, isA, order);
    TakenPermutes(Family(answers, isA), order);
    SamePermutation(answers, r, isA);
  }

  lemma ReorderedFamily(answers: seq<Record>, isA: bool, order: seq<nat>)
    requires Lists(order, |Slots(answers, isA)|)
    requires forall k :: 0 <= k < |order| ==> order[k] < |Slots(answers, isA)|
    ensures var r := Reordered(answers, isA, order);
            Slots(r, isA) == Slots(answers, isA) && Family(r, isA) == Taken(Family(answers, isA), order)
  {
    hide Slots, InFamily, Written, Reordered;
    var r := Reordered(answers, isA, order);
    ReorderedAt(answers, isA, order);
    SameShapeSameSlots(answers, r, isA);
    var slots := Slots(answers, isA);
    forall k | 0 <= k < |slots| ensures Family(r, isA)[k] == Family(answers, isA)[order[k]] {
      assert r[slots[k]] == Family(answers, isA)[order[k]];
    }
    assert Family(r, isA) == Taken(Family(answers, isA), order);
  }

  lemma SamePermutation(a: seq<Record>, b: seq<Record>, isA: bool)
    requires |a| == |b| && forall i :: 0 <= i < |a| ==> InFamily(a[i].data, isA) == InFamily(b[i].data, isA)
    requires forall i :: 0 <= i < |a| && !InFamily(a[i].data, isA) ==> a[i] == b[i]
    requires multiset(Family(a, isA)) == multiset(Family(b, isA))
    ensures multiset(a) == multiset(b)
  {
    hide InFamily, Others, Family;
    SameOthers(a, b, isA);
    FamilyAndOthers(a, isA);
    FamilyAndOthers(b, isA);
  }

  lemma ReorderedAt(answers: seq<Record>, isA: bool, order: seq<nat>)
    requires Lists(order, |Slots(answers, isA)|)
    requires forall k :: 0 <= k < |order| ==> order[k] < |Slots(answers, isA)|
    ensures var r, slots := Reordered(answers, isA, order), Slots(answers, isA);
            && (forall k :: 0 <= k < |slots| ==> r[slots[k]] == Family(answers, isA)[order[k]])
            && (forall i :: 0 <= i < |answers| && !InFamily(answers[i].data, isA) ==> r[i] == answers[i])
            && (forall i :: 0 <= i < |answers| ==> InFamily(answers[i].data, isA) == InFamily(r[i].data, isA))
  {
    hide Slots, InFamily, Written, Lists, Family;
    var slots, records := Slots(answers, isA), Taken(Family(answers, isA), order);
    Count(order, |slots|);
    forall k | 0 <= k < |slots| ensures Reordered(answers, isA, order)[slots[k]] == Family(answers, isA)[order[k]] {
      WrittenAt(answers, slots, records, |slots|, k);
    }
    forall i | 0 <= i < |answers|
      ensures !InFamily(answers[i].data, isA) ==> Reordered(answers, isA, order)[i] == answers[i]
      ensures InFamily(answers[i].data, isA) == InFamily(Reordered(answers, isA, order)[i].data, isA)
    {
      NotInFamily(answers, isA, i);
      if i in slots {
        var k :| 0 <= k < |slots| && slots[k] == i;
        WrittenAt(answers, slots, records, |slots|, k);
      } else {
        NotWritten(answers, slots, records, |slots|, i);
      }
    }
  }

  /** The identity order changes nothing. */
  lemma ReorderedByIdentity(answers: seq<Record>, isA: bool)
    ensures Reordered(answers, isA, Positions(|Slots(answers, isA)|)) == answers
  {
    hide Slots, InFamily, Written;
    var slots := Slots(answers, isA);
    var r := Reordered(answers, isA, Positions(|slots|));
    ReorderedAt(answers, isA, Positions(|slots|));
    forall i | 0 <= i < |answers| ensures r[i] == answers[i] {
      NotInFamily(answers, isA, i);
      if i in slots {
        var k :| 0 <= k < |slots| && slots[k] == i;
        assert r[slots[k]] == Family(answers, isA)[k];
      }
    }
  }

  // ---------------------------------------------------------------------------
  // Ranks and the three orders
  // ---------------------------------------------------------------------------

  ghost predicate AllValid(cidrs: seq<Cidr>) {
    forall i :: 0 <= i < |cidrs| ==> cidrs[i].Valid()
  }

  /** Index of the first range containing `ip`. */
  function Rank(cidrs: seq<Cidr>, ip: IpAddr): (r: Option<nat>)
    requires AllValid(cidrs)
    ensures r.Some? ==> r.value < |cidrs| && cidrs[r.value].Contains(ip)
    ensures forall j :: 0 <= j < (if r.Some? then r.value else |cidrs|) ==> !cidrs[j].Contains(ip)
  {
    if cidrs == [] then None
    else if cidrs[0].Contains(ip) then Some(0)
    else
      var rest := Rank(cidrs[1..], ip);
      assert forall j :: 1 <= j < |cidrs| ==> cidrs[j] == cidrs[1..][j - 1];
      if rest.Some? then Some(rest.value + 1) else None
  }

  /** The ranks of a list of addresses. */
  function Ranks(cidrs: seq<Cidr>, ips: seq<IpAddr>): (r: seq<Option<nat>>)
    requires AllValid(cidrs)
    ensures |r| == |ips|
  {
    seq(|ips|, k requires 0 <= k < |ips| => Rank(cidrs, ips[k]))
  }

  predicate Uniform(ranks: seq<Option<nat>>) {
    forall k :: 0 <= k < |ranks| ==> ranks[k] == ranks[0]
  }

  /** What the sort compares: a missing rank counts as `last`. */
  function RankKeys(ranks: seq<Option<nat>>, last: nat): (keys: seq<Key>)
    ensures |keys| == |ranks|
  {
    seq(|ranks|, k requires 0 <= k < |ranks| => Some(if ranks[k].Some? then ranks[k].value else last))
  }

  datatype Mode = NoMode | RoundRobin | Speed

  datatype Settings = Settings(enabled: bool, cidrs: seq<Cidr>, mode: Mode, maxAnswers: Option<nat>)

  /** What one pass draws from outside: a random number and the connection times of reachable addresses. */
  datatype Draw = Draw(random: nat, rtt: map<IpAddr, nat>)

  function ConnectTimes(ips: seq<IpAddr>, rtt: map<IpAddr, nat>): (keys: seq<Key>)
    ensures |keys| == |ips|
  {
    seq(|ips|, k requires 0 <= k < |ips| => if ips[k] in rtt then Some(rtt[ips[k]]) else None)
  }

  /** Preferences decide when the ranks differ. */
  predicate Preferred(cidrs: seq<Cidr>, ips: seq<IpAddr>)
    requires AllValid(cidrs)
  {
    cidrs != [] && !Uniform(Ranks(cidrs, ips))
  }

  /** The order in which a family with these addresses is rearranged. */
  function FamilyOrder(s: Settings, ips: seq<IpAddr>, draw: Draw): (order: seq<nat>)
    requires AllValid(s.cidrs)
    ensures |order| == |ips| && forall k :: 0 <= k < |order| ==> order[k] < |ips|
  {
    var n := |ips|;
    if n < 2 then Positions(n)
    else if Preferred(s.cidrs, ips) then StableOrder(RankKeys(Ranks(s.cidrs, ips), |s.cidrs|), n)
    else match s.mode
      case NoMode => Positions(n)
      case RoundRobin => Turns(n, draw.random % n)
      case Speed => StableOrder(ConnectTimes(ips, draw.rtt), n)
  }

  /** Missing ranks sort last whether they are compared as `last` or as missing. */
  lemma RankKeysSortByRank(ranks: seq<Option<nat>>, last: nat)
    requires forall k :: 0 <= k < |ranks| ==> ranks[k].Some? ==> ranks[k].value < last
    ensures StableOrder(RankKeys(ranks, last), |ranks|) == StableOrder(ranks, |ranks|)
  {
    var keys := RankKeys(ranks, last);
    var order := StableOrder(ranks, |ranks|);
    StableOrderSorts(ranks);
    forall i, j | 0 <= i < j < |order| ensures Precedes(keys, order[i], order[j]) {
      assert Precedes(ranks, order[i], order[j]);
    }
    StableOrderSorts(keys);
    StableOrderIsUnique(keys, StableOrder(keys, |keys|), order);
  }

  /** One full turn visits every position once. */
  lemma TurnsList(n: nat, start: nat)
    requires 0 < n
    ensures Lists(Turns(n, start), n)
  {
    var s := start % n;
    var turned := Positions(n)[s..] + Positions(n)[..s];
    forall i | 0 <= i < n ensures Turns(n, start)[i] == turned[i] {
      ModAhead(n, start, i);
    }
    assert Turns(n, start) == turned;
    assert Positions(n) == Positions(n)[..s] + Positions(n)[s..];
  }

  /** Whatever the settings, a family is permuted. */
  lemma FamilyOrderLists(s: Settings, ips: seq<IpAddr>, draw: Draw)
    requires AllValid(s.cidrs)
    ensures Lists(FamilyOrder(s, ips, draw), |ips|)
  {
    hide Ranks, Uniform, Turns, StableOrder, Positions;
    var n := |ips|;
    if n >= 2 {
      if Preferred(s.cidrs, ips) {
        StableOrderSorts(RankKeys(Ranks(s.cidrs, ips), |s.cidrs|));
      } else if s.mode.RoundRobin? {
        TurnsList(n, draw.random % n);
      } else if s.mode.Speed? {
        StableOrderSorts(ConnectTimes(ips, draw.rtt));
      }
    }
  }

  // ---------------------------------------------------------------------------
  // One pass over one family
  // ---------------------------------------------------------------------------

  function Ips(answers: seq<Record>, isA: bool): (r: seq<IpAddr>)
    ensures |r| == |Slots(answers, isA)|
  {
    var family := Family(answers, isA);
    seq(|family|, k requires 0 <= k < |family| => AddressOf(family[k].data))
  }

  function Passed(s: Settings, answers: seq<Record>, isA: bool, draw: Draw): (r: seq<Record>)
    requires AllValid(s.cidrs)
    ensures |r| == |answers|
  {
    var ips := Ips(answers, isA);
    FamilyOrderLists(s, ips, draw);
    Reordered(answers, isA, FamilyOrder(s, ips, draw))
  }

  /** A pass permutes the answers and moves records of the family only. */
  lemma PassKeeps(s: Settings, answers: seq<Record>, isA: bool, draw: Draw)
    requires AllValid(s.cidrs)
    ensures var r := Passed(s, answers, isA, draw);
            && multiset(r) == multiset(answers)
            && Slots(r, isA) == Slots(answers, isA)
            && Family(r, isA) == Taken(Family(answers, isA), FamilyOrder(s, Ips(answers, isA), draw))
            && forall i :: 0 <= i < |answers| && !InFamily(answers[i].data, isA) ==> r[i] == answers[i]
  {
    hide Slots, InFamily, Ips, Reordered, FamilyOrder, Family;
    var ips := Ips(answers, isA);
    FamilyOrderLists(s, ips, draw);
    ReorderedMeaning(answers, isA, FamilyOrder(s, ips, draw));
  }

  /** The family ends up stably sorted by rank when ranks differ, and otherwise unchanged, rotated, or
      stably sorted by connection time as the mode says. */
  lemma PassOrder(s: Settings, answers: seq<Record>, isA: bool, draw: Draw)
    requires AllValid(s.cidrs)
    ensures var family, ips := Family(answers, isA), Ips(answers, isA);
            var n, order, r := |ips|, FamilyOrder(s, ips, draw), Passed(s, answers, isA, draw);
            && (Preferred(s.cidrs, ips) ==> SortsStably(Ranks(s.cidrs, ips), order))
            && (!Preferred(s.cidrs, ips) && s.mode.NoMode? ==> r == answers)
            && (!Preferred(s.cidrs, ips) && s.mode.Speed? && n >= 2 ==> SortsStably(ConnectTimes(ips, draw.rtt), order))
            && (!Preferred(s.cidrs, ips) && s.mode.RoundRobin? && n >= 2 ==>
                  Family(r, isA) == family[draw.random % n..] + family[..draw.random % n])
            && (n < 2 ==> r == answers)
  {
    hide Slots, InFamily, Ips, Family, Reordered, Ranks, Precedes, Positions, Turns;
    var family, ips := Family(answers, isA), Ips(answers, isA);
    var n, ranks := |ips|, Ranks(s.cidrs, ips);
    if Preferred(s.cidrs, ips) {
      RanksBelow(s.cidrs, ips);
      RankKeysSortByRank(ranks, |s.cidrs|);
      StableOrderSorts(ranks);
    } else if s.mode.NoMode? || n < 2 {
      ReorderedByIdentity(answers, isA);
    } else if s.mode.Speed? {
      StableOrderSorts(ConnectTimes(ips, draw.rtt));
    } else {
      PassKeeps(s, answers, isA, draw);
      TurnsTaken(family, draw.random % n);
    }
  }

  lemma RanksBelow(cidrs: seq<Cidr>, ips: seq<IpAddr>)
    requires AllValid(cidrs)
    ensures forall k :: 0 <= k < |ips| ==> Ranks(cidrs, ips)[k].Some? ==> Ranks(cidrs, ips)[k].value < |cidrs|
  {
  }

  lemma TurnsTaken<T>(s: seq<T>, start: nat)
    requires start < |s|
    ensures Taken(s, Turns(|s|, start)) == s[start..] + s[..start]
  {
    var t := Taken(s, Turns(|s|, start));
    forall k | 0 <= k < |s| ensures t[k] == (s[start..] + s[..start])[k] {
      ModAhead(|s|, start, k);
      ModSmall(start, |s|);
    }
  }

  // ---------------------------------------------------------------------------
  // Two passes
  // ---------------------------------------------------------------------------

  /** A pass over one family leaves the other family as it was. */
  lemma PassSparesOther(s: Settings, answers: seq<Record>, isA: bool, draw: Draw)
    requires AllValid(s.cidrs)
    ensures var r := Passed(s, answers, isA, draw);
            Slots(r, !isA) == Slots(answers, !isA) && Family(r, !isA) == Family(answers, !isA)
  {
    hide Slots, Ips, Reordered, FamilyOrder, Family;
    var r, ips := Passed(s, answers, isA, draw), Ips(answers, isA);
    FamilyOrderLists(s, ips, draw);
    ReorderedAt(answers, isA, FamilyOrder(s, ips, draw));
    SameShapeSameSlots(answers, r, !isA);
    SameFamily(answers, r, !isA);
  }

  lemma SameFamily(a: seq<Record>, b: seq<Record>, isA: bool)
    requires |a| == |b| && Slots(a, isA) == Slots(b, isA)
    requires forall i :: 0 <= i < |a| && InFamily(a[i].data, isA) ==> a[i] == b[i]
    ensures Family(a, isA) == Family(b, isA)
  {
    hide InFamily;
  }

  /** Only the family's slots are written. */
  lemma PassWritesSlots(s: Settings, answers: seq<Record>, isA: bool, draw: Draw)
    requires AllValid(s.cidrs)
    ensures forall i :: 0 <= i < |answers| && i !in Slots(answers, isA) ==>
        Passed(s, answers, isA, draw)[i] == answers[i]
  {
    hide Slots, InFamily, Passed;
    PassKeeps(s, answers, isA, draw);
    forall i | 0 <= i < |answers| && i !in Slots(answers, isA)
      ensures Passed(s, answers, isA, draw)[i] == answers[i]
    {
      NotInFamily(answers, isA, i);
    }
  }

  /** Answers are determined by their families and the records of neither. */
  lemma FamiliesDetermine(a: seq<Record>, b: seq<Record>)
    requires |a| == |b|
    requires Slots(a, true) == Slots(b, true) && Family(a, true) == Family(b, true)
    requires Slots(a, false) == Slots(b, false) && Family(a, false) == Family(b, false)
    requires forall i :: 0 <= i < |a| && i !in Slots(a, true) && i !in Slots(a, false) ==> a[i] == b[i]
    ensures a == b
  {
    hide Slots, Family;
    forall i | 0 <= i < |a| ensures a[i] == b[i] {
      if i in Slots(a, true) {
        SameAt(a, b, true, i);
      } else if i in Slots(a, false) {
        SameAt(a, b, false, i);
      }
    }
  }

  lemma SameAt(a: seq<Record>, b: seq<Record>, isA: bool, i: nat)
    requires i < |a| == |b| && Slots(a, isA) == Slots(b, isA) && Family(a, isA) == Family(b, isA)
    requires i in Slots(a, isA)
    ensures a[i] == b[i]
  {
    hide Slots, InFamily;
    var k :| 0 <= k < |Slots(a, isA)| && Slots(a, isA)[k] == i;
    assert Family(a, isA)[k] == a[i];
  }

  /** The passes over A and AAAA records commute. */
  lemma PassesCommute(s: Settings, answers: seq<Record>, a: Draw, aaaa: Draw)
    requires AllValid(s.cidrs)
    ensures Passed(s, Passed(s, answers, true, a), false, aaaa) == Passed(s, Passed(s, answers, false, aaaa), true, a)
  {
    hide Slots, FamilyOrder, Family, InFamily, Passed;
    var x, y := Passed(s, answers, true, a), Passed(s, answers, false, aaaa);
    var xy, yx := Passed(s, x, false, aaaa), Passed(s, y, true, a);
    PassKeeps(s, answers, true, a);
    PassKeeps(s, answers, false, aaaa);
    PassSparesOther(s, answers, true, a);
    PassSparesOther(s, answers, false, aaaa);
    PassKeeps(s, x, false, aaaa);
    PassKeeps(s, y, true, a);
    PassSparesOther(s, x, false, aaaa);
    PassSparesOther(s, y, true, a);
    PassWritesSlots(s, answers, true, a);
    PassWritesSlots(s, answers, false, aaaa);
    PassWritesSlots(s, x, false, aaaa);
    PassWritesSlots(s, y, true, a);
    FamiliesDetermine(xy, yx);
  }

  /** The answer does not depend on anything drawn: there is no mode, or preferences decide. */
  predicate OnlyPreferences(s: Settings, ips: seq<IpAddr>)
    requires AllValid(s.cidrs)
  {
    s.mode.NoMode? || Preferred(s.cidrs, ips) || |ips| < 2
  }

  /** Ranks never decrease, addresses without one coming last. */
  predicate RanksInOrder(cidrs: seq<Cidr>, ips: seq<IpAddr>)
    requires AllValid(cidrs)
  {
    forall i, j :: 0 <= i < j < |ips| ==> !Below(Rank(cidrs, ips[j]), Rank(cidrs, ips[i]))
  }

  lemma UniformInOrder(cidrs: seq<Cidr>, ips: seq<IpAddr>)
    requires AllValid(cidrs) && !Preferred(cidrs, ips)
    ensures RanksInOrder(cidrs, ips)
  {
    hide Rank;
    forall i, j | 0 <= i < j < |ips| ensures !Below(Rank(cidrs, ips[j]), Rank(cidrs, ips[i])) {
      if cidrs == [] {
        NoRanges(cidrs, ips[i]);
      } else {
        assert Ranks(cidrs, ips)[i] == Ranks(cidrs, ips)[0] == Ranks(cidrs, ips)[j];
      }
    }
  }

  lemma NoRanges(cidrs: seq<Cidr>, ip: IpAddr)
    requires cidrs == []
    ensures AllValid(cidrs) && Rank(cidrs, ip).None?
  {
  }

  /** Preferences rearrange a family exactly when its ranks are not in order already. */
  lemma PassKeepsExactly(s: Settings, answers: seq<Record>, isA: bool, draw: Draw)
    requires AllValid(s.cidrs) && OnlyPreferences(s, Ips(answers, isA))
    ensures Passed(s, answers, isA, draw) == answers <==> RanksInOrder(s.cidrs, Ips(answers, isA))
  {
    hide Slots, Reordered, Ranks, Positions, Rank;
    var ips := Ips(answers, isA);
    PassOrder(s, answers, isA, draw);
    if !Preferred(s.cidrs, ips) {
      UniformInOrder(s.cidrs, ips);
    } else if RanksInOrder(s.cidrs, ips) {
      InOrderStays(s, answers, isA, draw);
    } else if Passed(s, answers, isA, draw) == answers {
      UnchangedInOrder(s, answers, isA, draw);
    }
  }

  lemma InOrderStays(s: Settings, answers: seq<Record>, isA: bool, draw: Draw)
    requires AllValid(s.cidrs) && Preferred(s.cidrs, Ips(answers, isA)) && RanksInOrder(s.cidrs, Ips(answers, isA))
    ensures Passed(s, answers, isA, draw) == answers
  {
    hide Slots, Reordered, Positions, Rank, Ips, StableOrder;
    var ips := Ips(answers, isA);
    var ranks := Ranks(s.cidrs, ips);
    RanksBelow(s.cidrs, ips);
    RankKeysSortByRank(ranks, |s.cidrs|);
    AlreadySorted(ranks);
    ReorderedByIdentity(answers, isA);
  }

  lemma UnchangedInOrder(s: Settings, answers: seq<Record>, isA: bool, draw: Draw)
    requires AllValid(s.cidrs) && Preferred(s.cidrs, Ips(answers, isA))
    requires Passed(s, answers, isA, draw) == answers
    ensures RanksInOrder(s.cidrs, Ips(answers, isA))
  {
    hide Slots, Reordered, Positions, Rank, Passed, FamilyOrder, Lists, Family, Ips, RanksInOrder;
    var ips := Ips(answers, isA);
    var order := FamilyOrder(s, ips, draw);
    PassOrder(s, answers, isA, draw);
    PassKeeps(s, answers, isA, draw);
    SortedRanks(s.cidrs, ips, order);
    IpsFollow(answers, answers, isA, order);
  }

  /** Sorting by rank puts the ranks in order. */
  lemma SortedRanks(cidrs: seq<Cidr>, ips: seq<IpAddr>, order: seq<nat>)
    requires AllValid(cidrs) && SortsStably(Ranks(cidrs, ips), order)
    requires forall k :: 0 <= k < |order| ==> order[k] < |ips|
    ensures RanksInOrder(cidrs, Taken(ips, order))
  {
    hide Rank, Lists;
    var ranks := Ranks(cidrs, ips);
    forall i, j | 0 <= i < j < |order|
      ensures !Below(Rank(cidrs, ips[order[j]]), Rank(cidrs, ips[order[i]]))
    {
      assert Precedes(ranks, order[i], order[j]);
    }
  }

  /** Sorting by preference a second time changes nothing. */
  lemma PreferSortIsIdempotent(s: Settings, answers: seq<Record>, isA: bool, first: Draw, second: Draw)
    requires AllValid(s.cidrs) && OnlyPreferences(s, Ips(answers, isA))
    ensures var r := Passed(s, answers, isA, first);
            Passed(s, r, isA, second) == r && OnlyPreferences(s, Ips(r, isA))
  {
    hide Slots, Reordered, Positions, Rank, Passed, FamilyOrder, Lists, Ips, Family, Preferred;
    var ips := Ips(answers, isA);
    var r, order := Passed(s, answers, isA, first), FamilyOrder(s, ips, first);
    PassOrder(s, answers, isA, first);
    PassKeeps(s, answers, isA, first);
    FamilyOrderLists(s, ips, first);
    IpsFollow(answers, r, isA, order);
    if Preferred(s.cidrs, ips) {
      SortedRanks(s.cidrs, ips, order);
      PreferredStays(s.cidrs, ips, order);
      PassKeepsExactly(s, r, isA, second);
    } else {
      PassOrder(s, r, isA, second);
    }
  }

  lemma IpsFollow(answers: seq<Record>, r: seq<Record>, isA: bool, order: seq<nat>)
    requires Slots(r, isA) == Slots(answers, isA)
    requires forall k :: 0 <= k < |order| ==> order[k] < |Slots(answers, isA)|
    requires Family(r, isA) == Taken(Family(answers, isA), order)
    ensures Ips(r, isA) == Taken(Ips(answers, isA), order)
  {
    hide Slots, Family, InFamily;
  }

  /** Rearranging addresses does not make different ranks equal. */
  lemma PreferredStays(cidrs: seq<Cidr>, ips: seq<IpAddr>, order: seq<nat>)
    requires AllValid(cidrs) && Lists(order, |ips|) && Preferred(cidrs, ips)
    requires forall k :: 0 <= k < |order| ==> order[k] < |ips|
    ensures Preferred(cidrs, Taken(ips, order))
  {
    hide Rank, Lists;
    var ranks, after := Ranks(cidrs, ips), Ranks(cidrs, Taken(ips, order));
    if Uniform(after) {
      forall k | 0 <= k < |ranks| ensures ranks[k] == ranks[0] {
        var i := WhereListed(order, |ips|, k);
        var j := WhereListed(order, |ips|, 0);
        assert after[i] == after[0] && after[j] == after[0];
      }
    }
  }

  lemma WhereListed(order: seq<nat>, n: nat, k: nat) returns (i: nat)
    requires Lists(order, n) && k < n
    ensures i < |order| && order[i] == k
  {
    assert Positions(n)[k] == k;
    assert k in Positions(n);
    assert k in multiset(order);
    i :| 0 <= i < |order| && order[i] == k;
  }

  /** Some two of the addresses differ in the first range that has them. */
  ghost predicate RanksDiffer(cidrs: seq<Cidr>, ips: seq<IpAddr>)
    requires AllValid(cidrs)
  {
    exists k, l :: 0 <= k < |ips| && 0 <= l < |ips| && Rank(cidrs, ips[k]) != Rank(cidrs, ips[l])
  }

  lemma PreferredExactly(cidrs: seq<Cidr>, ips: seq<IpAddr>)
    requires AllValid(cidrs)
    ensures Preferred(cidrs, ips) <==> RanksDiffer(cidrs, ips)
  {
    hide Rank;
    var ranks := Ranks(cidrs, ips);
    if cidrs == [] {
      forall k | 0 <= k < |ips| ensures Rank(cidrs, ips[k]).None? {
      }
    }
    if !Uniform(ranks) {
      var k :| 0 <= k < |ranks| && ranks[k] != ranks[0];
      assert Rank(cidrs, ips[k]) != Rank(cidrs, ips[0]);
    }
    if RanksDiffer(cidrs, ips) {
      var k, l :| 0 <= k < |ips| && 0 <= l < |ips| && Rank(cidrs, ips[k]) != Rank(cidrs, ips[l]);
      assert ranks[k] != ranks[l];
    }
  }

  /** After a pass, the addresses stand in the order of the first range that has them, those in none last, if
      they differ in that; otherwise, by connection time, in the order of their times, those without one last. */
  lemma PassSorts(s: Settings, answers: seq<Record>, isA: bool, draw: Draw, i: nat, j: nat)
    requires AllValid(s.cidrs) && i < j < |Ips(answers, isA)|
    ensures var before, after := Ips(answers, isA), Ips(Passed(s, answers, isA, draw), isA);
            && |after| == |before|
            && var r, q := Rank(s.cidrs, after[i]), Rank(s.cidrs, after[j]);
               && (RanksDiffer(s.cidrs, before) && q.Some? ==> r.Some? && r.value <= q.value)
               && (!RanksDiffer(s.cidrs, before) && s.mode.Speed? && after[j] in draw.rtt ==>
                     after[i] in draw.rtt && draw.rtt[after[i]] <= draw.rtt[after[j]])
  {
    hide Slots, Passed, Family, FamilyOrder, Ips, Preferred, Lists, Rank, RanksDiffer;
    var ips, order := Ips(answers, isA), FamilyOrder(s, Ips(answers, isA), draw);
    PreferredExactly(s.cidrs, ips);
    PassOrder(s, answers, isA, draw);
    PassKeeps(s, answers, isA, draw);
    IpsFollow(answers, Passed(s, answers, isA, draw), isA, order);
    hide SortsStably, ConnectTimes, Ranks;
    if Preferred(s.cidrs, ips) {
      RanksSorted(s.cidrs, ips, order, i, j);
    } else if s.mode.Speed? {
      TimesSorted(ips, draw.rtt, order, i, j);
    }
  }

  lemma RanksSorted(cidrs: seq<Cidr>, ips: seq<IpAddr>, order: seq<nat>, i: nat, j: nat)
    requires AllValid(cidrs) && SortsStably(Ranks(cidrs, ips), order) && i < j < |order|
    ensures order[i] < |ips| && order[j] < |ips|
    ensures var r, q := Rank(cidrs, ips[order[i]]), Rank(cidrs, ips[order[j]]);
            q.Some? ==> r.Some? && r.value <= q.value
  {
    hide Rank, Lists;
    assert Precedes(Ranks(cidrs, ips), order[i], order[j]);
  }

  lemma TimesSorted(ips: seq<IpAddr>, rtt: map<IpAddr, nat>, order: seq<nat>, i: nat, j: nat)
    requires SortsStably(ConnectTimes(ips, rtt), order) && i < j < |order|
    ensures order[i] < |ips| && order[j] < |ips|
    ensures ips[order[j]] in rtt ==> ips[order[i]] in rtt && rtt[ips[order[i]]] <= rtt[ips[order[j]]]
  {
    hide Lists;
    assert Precedes(ConnectTimes(ips, rtt), order[i], order[j]);
  }

  // ---------------------------------------------------------------------------
  // The stage
  // ---------------------------------------------------------------------------

  /** The two families a query type names. */
  datatype Families = Families(a: bool, aaaa: bool)

  function FamiliesOf(qtype: RecordType): Option<Families> {
    match qtype
    case TypeA => Some(Families(true, false))
    case TypeAAAA => Some(Families(false, true))
    case TypeANY => Some(Families(true, true))
    case _ => None
  }

  function Truncated(answers: seq<Record>, maxAnswers: Option<nat>): seq<Record> {
    if maxAnswers.Some? && 0 < maxAnswers.value < |answers| then answers[..maxAnswers.value] else answers
  }

  /** What two passes leave. Each flag selects the family of its pass: it does not switch the pass off. */
  function TwoPasses(s: Settings, families: Families, answers: seq<Record>, first: Draw, second: Draw): seq<Record>
    requires AllValid(s.cidrs)
  {
    Passed(s, Passed(s, answers, families.a, first), families.aaaa, second)
  }

  /** The reordering the documentation promises: the queried families, each on its own, drawing in turn. */
  function Promised(s: Settings, families: Families, answers: seq<Record>, first: Draw, second: Draw): seq<Record>
    requires AllValid(s.cidrs)
  {
    var r := if families.a then Passed(s, answers, true, first) else answers;
    if families.aaaa then Passed(s, r, false, if families.a then second else first) else r
  }

  function BalancedAnswers(s: Settings, skip: bool, qtype: RecordType, answers: seq<Record>, first: Draw,
                           second: Draw): seq<Record>
    requires AllValid(s.cidrs)
  {
    var families := FamiliesOf(qtype);
    if !s.enabled || skip || families.None? then answers
    else Truncated(TwoPasses(s, families.value, answers, first, second), s.maxAnswers)
  }

  /** What leaves the stage is the front of the reordered answers, as many as the cap allows, or all of them
      when there is no cap; nothing changes for other types, when balancing is off, or when it is skipped. */
  lemma CapKeepsTheFront(s: Settings, skip: bool, qtype: RecordType, answers: seq<Record>, first: Draw, second: Draw)
    requires AllValid(s.cidrs)
    ensures var r := BalancedAnswers(s, skip, qtype, answers, first, second);
            if s.enabled && !skip && qtype in {TypeA, TypeAAAA, TypeANY} then
              var all := TwoPasses(s, Families(!qtype.TypeAAAA?, !qtype.TypeA?), answers, first, second);
              && r <= all
              && |r| == if s.maxAnswers.None? || s.maxAnswers.value == 0 || |answers| <= s.maxAnswers.value
                        then |answers| else s.maxAnswers.value
            else r == answers
  {
    hide Passed;
    if FamiliesOf(qtype).Some? {
      TwoPassesPermute(s, FamiliesOf(qtype).value, answers, first, second);
    }
  }

  /** The answers before the cap are a permutation of the input in which only address records have moved. */
  lemma TwoPassesPermute(s: Settings, families: Families, answers: seq<Record>, first: Draw, second: Draw)
    requires AllValid(s.cidrs)
    ensures var r := TwoPasses(s, families, answers, first, second);
            && multiset(r) == multiset(answers) && |r| == |answers|
            && forall i :: 0 <= i < |answers| && !IsAddress(answers[i]) ==> r[i] == answers[i]
  {
    hide Slots, Passed, Family, FamilyOrder, Ips;
    PassKeeps(s, answers, families.a, first);
    PassKeeps(s, Passed(s, answers, families.a, first), families.aaaa, second);
  }

  /** An A query and an AAAA query do the same to an answer: both families are reordered. */
  lemma BothFamiliesForAddressQueries(s: Settings, answers: seq<Record>, a: Draw, aaaa: Draw)
    requires AllValid(s.cidrs)
    ensures TwoPasses(s, FamiliesOf(TypeA).value, answers, a, aaaa)
         == TwoPasses(s, FamiliesOf(TypeAAAA).value, answers, aaaa, a)
         == Promised(s, FamiliesOf(TypeANY).value, answers, a, aaaa)
  {
    hide Passed;
    PassesCommute(s, answers, a, aaaa);
  }

  /** An ANY query never reorders the AAAA records. */
  lemma AnyQuerySparesAaaa(s: Settings, answers: seq<Record>, first: Draw, second: Draw)
    requires AllValid(s.cidrs)
    ensures var r := TwoPasses(s, FamiliesOf(TypeANY).value, answers, first, second);
            Slots(r, false) == Slots(answers, false) && Family(r, false) == Family(answers, false)
  {
    hide Slots, Passed, Family;
    PassSparesOther(s, answers, true, first);
    PassSparesOther(s, Passed(s, answers, true, first), true, second);
  }

  /** Whatever is drawn, a pass over the family changes nothing. */
  ghost predicate StaysPut(s: Settings, answers: seq<Record>, isA: bool)
    requires AllValid(s.cidrs)
  {
    forall draw :: Passed(s, answers, isA, draw) == answers
  }

  predicate AllSame<T(==)>(xs: seq<T>) {
    forall k :: 0 <= k < |xs| ==> xs[k] == xs[0]
  }

  /** No mode runs on the family, or it cannot tell the family's members apart. */
  predicate ModeIsHarmless(s: Settings, answers: seq<Record>, isA: bool) {
    match s.mode
    case NoMode => true
    case RoundRobin => AllSame(Family(answers, isA))
    case Speed => AllSame(Ips(answers, isA))
  }

  /** The family is in order already, as far as preferences or the mode go. */
  predicate Undisturbed(s: Settings, answers: seq<Record>, isA: bool)
    requires AllValid(s.cidrs)
  {
    var ips := Ips(answers, isA);
    if Preferred(s.cidrs, ips) then RanksInOrder(s.cidrs, ips) else ModeIsHarmless(s, answers, isA)
  }

  /** Passing over the family again is harmless. */
  predicate OnceIsEnough(s: Settings, answers: seq<Record>, isA: bool)
    requires AllValid(s.cidrs)
  {
    Preferred(s.cidrs, Ips(answers, isA)) || ModeIsHarmless(s, answers, isA)
  }

  /** A pass that leaves its family as it was leaves everything as it was. */
  lemma FamilyKept(s: Settings, answers: seq<Record>, isA: bool, draw: Draw)
    requires AllValid(s.cidrs)
    ensures Passed(s, answers, isA, draw) == answers <==>
            Family(Passed(s, answers, isA, draw), isA) == Family(answers, isA)
  {
    hide Slots, Passed, Family, FamilyOrder, InFamily;
    var r := Passed(s, answers, isA, draw);
    PassKeeps(s, answers, isA, draw);
    PassSparesOther(s, answers, isA, draw);
    PassWritesSlots(s, answers, isA, draw);
    if Family(r, isA) == Family(answers, isA) {
      FamiliesDetermine(r, answers);
    }
  }

  lemma {:induction false} TurnedIsConstant<T>(xs: seq<T>, k: nat)
    requires k < |xs| && xs[1..] + xs[..1] == xs
    ensures xs[k] == xs[0]
    decreases |xs| - k
  {
    assert xs[k] == (xs[1..] + xs[..1])[k];
    if k < |xs| - 1 {
      TurnedIsConstant(xs, k + 1);
    }
  }

  lemma ConstantTurns<T>(xs: seq<T>, start: nat)
    requires AllSame(xs) && start < |xs|
    ensures xs[start..] + xs[..start] == xs
  {
  }

  /** Connection times sort a family whose addresses differ out of its order, for some times. */
  lemma SpeedMoves(s: Settings, answers: seq<Record>, isA: bool, draw: Draw, i: nat, j: nat)
    requires AllValid(s.cidrs) && s.mode.Speed? && !Preferred(s.cidrs, Ips(answers, isA))
    requires i < j < |Ips(answers, isA)|
    requires var keys := ConnectTimes(Ips(answers, isA), draw.rtt); Below(keys[j], keys[i])
    ensures Passed(s, answers, isA, draw) != answers
  {
    hide Slots, Passed, Family, FamilyOrder, Ips, Preferred, Lists;
    var ips := Ips(answers, isA);
    var keys, order := ConnectTimes(ips, draw.rtt), FamilyOrder(s, ips, draw);
    PassOrder(s, answers, isA, draw);
    PassKeeps(s, answers, isA, draw);
    if Passed(s, answers, isA, draw) == answers {
      IpsFollow(answers, answers, isA, order);
      TimesInOrder(ips, draw.rtt, order, i, j);
    }
  }

  lemma TimesInOrder(ips: seq<IpAddr>, rtt: map<IpAddr, nat>, order: seq<nat>, i: nat, j: nat)
    requires SortsStably(ConnectTimes(ips, rtt), order) && i < j < |order| == |ips|
    requires Taken(ips, order) == ips
    ensures !Below(ConnectTimes(ips, rtt)[j], ConnectTimes(ips, rtt)[i])
  {
    hide Lists;
    var keys := ConnectTimes(ips, rtt);
    assert ips[i] == ips[order[i]] && ips[j] == ips[order[j]];
    assert Precedes(keys, order[i], order[j]);
  }

  /** A pass can disturb a family, for some draw, exactly when its ranks are out of order, or when a mode
      runs on it that tells its members apart. */
  lemma StaysPutExactly(s: Settings, answers: seq<Record>, isA: bool)
    requires AllValid(s.cidrs)
    ensures StaysPut(s, answers, isA) <==> Undisturbed(s, answers, isA)
  {
    if Preferred(s.cidrs, Ips(answers, isA)) {
      PreferredStaysExactly(s, answers, isA);
    } else if s.mode.NoMode? {
      NoModeStays(s, answers, isA);
    } else if s.mode.RoundRobin? {
      TurningStaysExactly(s, answers, isA);
    } else {
      SpeedStaysExactly(s, answers, isA);
    }
  }

  lemma PreferredStaysExactly(s: Settings, answers: seq<Record>, isA: bool)
    requires AllValid(s.cidrs) && Preferred(s.cidrs, Ips(answers, isA))
    ensures StaysPut(s, answers, isA) <==> RanksInOrder(s.cidrs, Ips(answers, isA))
  {
    hide Passed, Ips, RanksInOrder, Preferred;
    forall draw ensures Passed(s, answers, isA, draw) == answers <==> RanksInOrder(s.cidrs, Ips(answers, isA)) {
      PassKeepsExactly(s, answers, isA, draw);
    }
    var any := Draw(0, map[]);
    assert StaysPut(s, answers, isA) ==> Passed(s, answers, isA, any) == answers;
  }

  lemma NoModeStays(s: Settings, answers: seq<Record>, isA: bool)
    requires AllValid(s.cidrs) && !Preferred(s.cidrs, Ips(answers, isA)) && s.mode.NoMode?
    ensures StaysPut(s, answers, isA)
  {
    hide Passed, Ips, Preferred, FamilyOrder, Family;
    forall draw ensures Passed(s, answers, isA, draw) == answers {
      PassOrder(s, answers, isA, draw);
    }
  }

  lemma TurningStaysExactly(s: Settings, answers: seq<Record>, isA: bool)
    requires AllValid(s.cidrs) && !Preferred(s.cidrs, Ips(answers, isA)) && s.mode.RoundRobin?
    ensures StaysPut(s, answers, isA) <==> AllSame(Family(answers, isA))
  {
    hide Passed, Ips, Preferred, FamilyOrder, Family;
    var family := Family(answers, isA);
    if AllSame(family) {
      forall draw ensures Passed(s, answers, isA, draw) == answers {
        PassOrder(s, answers, isA, draw);
        if |family| >= 2 {
          ConstantTurns(family, draw.random % |family|);
          FamilyKept(s, answers, isA, draw);
        }
      }
    } else {
      var draw := Draw(1, map[]);
      assert |family| >= 2;
      PassOrder(s, answers, isA, draw);
      FamilyKept(s, answers, isA, draw);
      ModSmall(1, |family|);
      if family[1..] + family[..1] == family {
        forall k | 0 <= k < |family| ensures family[k] == family[0] {
          TurnedIsConstant(family, k);
        }
      }
      assert Passed(s, answers, isA, draw) != answers;
    }
  }

  lemma SpeedStaysExactly(s: Settings, answers: seq<Record>, isA: bool)
    requires AllValid(s.cidrs) && !Preferred(s.cidrs, Ips(answers, isA)) && s.mode.Speed?
    ensures StaysPut(s, answers, isA) <==> AllSame(Ips(answers, isA))
  {
    hide Passed, Ips, Preferred, Family, Reordered, Slots, StableOrder;
    var ips := Ips(answers, isA);
    if AllSame(ips) {
      forall draw ensures Passed(s, answers, isA, draw) == answers {
        SameAddressesStay(s, answers, isA, draw);
      }
    } else {
      var j :| 0 <= j < |ips| && ips[j] != ips[0];
      var draw := Draw(0, map[ips[0] := 2, ips[j] := 1]);
      SpeedMoves(s, answers, isA, draw, 0, j);
      assert Passed(s, answers, isA, draw) != answers;
    }
  }

  lemma SameAddressesStay(s: Settings, answers: seq<Record>, isA: bool, draw: Draw)
    requires AllValid(s.cidrs) && !Preferred(s.cidrs, Ips(answers, isA)) && s.mode.Speed? && AllSame(Ips(answers, isA))
    ensures Passed(s, answers, isA, draw) == answers
  {
    hide Ips, Preferred, Family, Reordered, Slots, StableOrder;
    var ips := Ips(answers, isA);
    AlreadySorted(ConnectTimes(ips, draw.rtt));
    ReorderedByIdentity(answers, isA);
  }

  /** Draw by draw, the answer is the promised one. */
  ghost predicate PromiseKept(s: Settings, families: Families, answers: seq<Record>)
    requires AllValid(s.cidrs)
  {
    forall first, second :: TwoPasses(s, families, answers, first, second) ==
        Promised(s, families, answers, first, second)
  }

  lemma UndisturbedByFamily(s: Settings, a: seq<Record>, b: seq<Record>, isA: bool)
    requires AllValid(s.cidrs) && Slots(a, isA) == Slots(b, isA) && Family(a, isA) == Family(b, isA)
    ensures Undisturbed(s, a, isA) <==> Undisturbed(s, b, isA)
  {
    hide Slots, Family, Preferred, RanksInOrder;
    assert Ips(a, isA) == Ips(b, isA);
  }

  /** The promise is kept for a query of one family exactly when a pass over the other one, which nobody
      asked for, cannot disturb it; for both families, exactly when the left-out AAAA pass could not
      have changed anything and the second A pass cannot either. */
  lemma PromiseKeptExactly(s: Settings, qtype: RecordType, answers: seq<Record>)
    requires AllValid(s.cidrs) && FamiliesOf(qtype).Some?
    ensures PromiseKept(s, FamiliesOf(qtype).value, answers) <==>
            if qtype.TypeA? then Undisturbed(s, answers, false)
            else if qtype.TypeAAAA? then Undisturbed(s, answers, true)
            else Undisturbed(s, answers, false) && OnceIsEnough(s, answers, true)
  {
    hide PromiseKept, Undisturbed, OnceIsEnough;
    match qtype {
      case TypeA => OneFamilyExactly(s, answers, true, false);
      case TypeAAAA => OneFamilyExactly(s, answers, false, true);
      case TypeANY => BothFamiliesExactly(s, answers);
    }
  }

  lemma OneFamilyExactly(s: Settings, answers: seq<Record>, isA: bool, other: bool)
    requires AllValid(s.cidrs) && other == !isA
    ensures PromiseKept(s, Families(isA, other), answers) <==> Undisturbed(s, answers, other)
  {
    hide Passed, Undisturbed, Slots, Family;
    forall first
      ensures StaysPut(s, Passed(s, answers, isA, first), other) <==> Undisturbed(s, answers, other)
    {
      var r := Passed(s, answers, isA, first);
      PassSparesOther(s, answers, isA, first);
      StaysPutExactly(s, r, other);
      UndisturbedByFamily(s, answers, r, other);
    }
    forall first, second
      ensures TwoPasses(s, Families(isA, other), answers, first, second)
           == Passed(s, Passed(s, answers, isA, first), other, second)
      ensures Promised(s, Families(isA, other), answers, first, second) == Passed(s, answers, isA, first)
    {
    }
    if PromiseKept(s, Families(isA, other), answers) {
      var any := Draw(0, map[]);
      forall second ensures Passed(s, Passed(s, answers, isA, any), other, second) == Passed(s, answers, isA, any) {
        assert TwoPasses(s, Families(isA, other), answers, any, second)
            == Promised(s, Families(isA, other), answers, any, second);
      }
      assert StaysPut(s, Passed(s, answers, isA, any), other);
    }
    if Undisturbed(s, answers, other) {
      forall first, second
        ensures TwoPasses(s, Families(isA, other), answers, first, second)
             == Promised(s, Families(isA, other), answers, first, second)
      {
        assert StaysPut(s, Passed(s, answers, isA, first), other);
      }
    }
  }

  lemma BothFamiliesExactly(s: Settings, answers: seq<Record>)
    requires AllValid(s.cidrs)
    ensures PromiseKept(s, Families(true, true), answers) <==>
            Undisturbed(s, answers, false) && OnceIsEnough(s, answers, true)
  {
    hide Passed, Undisturbed, OnceIsEnough, Slots, Family;
    forall first
      ensures var r := Passed(s, answers, true, first);
              && (StaysPut(s, r, false) <==> Undisturbed(s, answers, false))
              && (StaysPut(s, r, true) <==> OnceIsEnough(s, answers, true))
    {
      var r := Passed(s, answers, true, first);
      PassSparesOther(s, answers, true, first);
      StaysPutExactly(s, r, false);
      StaysPutExactly(s, r, true);
      UndisturbedByFamily(s, answers, r, false);
      UndisturbedAfterPass(s, answers, true, first);
    }
    if PromiseKept(s, Families(true, true), answers) {
      var any := Draw(0, map[]);
      var r := Passed(s, answers, true, any);
      forall second ensures Passed(s, r, true, second) == r && Passed(s, r, false, second) == r {
        assert TwoPasses(s, Families(true, true), answers, any, second) ==
            Promised(s, Families(true, true), answers, any, second);
        SamePasses(s, r, second);
      }
      assert StaysPut(s, r, true) && StaysPut(s, r, false);
    }
    if Undisturbed(s, answers, false) && OnceIsEnough(s, answers, true) {
      forall first, second
        ensures TwoPasses(s, Families(true, true), answers, first, second)
             == Promised(s, Families(true, true), answers, first, second)
      {
        var r := Passed(s, answers, true, first);
        assert StaysPut(s, r, true) && StaysPut(s, r, false);
        assert Passed(s, r, true, second) == r == Passed(s, r, false, second);
      }
    }
  }

  /** Passes over different families have the same result only if neither does anything. */
  lemma SamePasses(s: Settings, r: seq<Record>, draw: Draw)
    requires AllValid(s.cidrs) && Passed(s, r, true, draw) == Passed(s, r, false, draw)
    ensures Passed(s, r, true, draw) == r
  {
    hide Passed, Slots, Family;
    PassSparesOther(s, r, false, draw);
    FamilyKept(s, r, true, draw);
  }

  /** After a pass, another one over the same family is harmless exactly when it was before. */
  lemma UndisturbedAfterPass(s: Settings, answers: seq<Record>, isA: bool, draw: Draw)
    requires AllValid(s.cidrs)
    ensures Undisturbed(s, Passed(s, answers, isA, draw), isA) <==> OnceIsEnough(s, answers, isA)
  {
    hide Slots, Reordered, Positions, Rank, Passed, FamilyOrder, Lists, Ips, Family, Preferred;
    var ips := Ips(answers, isA);
    var r, order := Passed(s, answers, isA, draw), FamilyOrder(s, ips, draw);
    PassOrder(s, answers, isA, draw);
    PassKeeps(s, answers, isA, draw);
    FamilyOrderLists(s, ips, draw);
    IpsFollow(answers, r, isA, order);
    if Preferred(s.cidrs, ips) {
      SortedRanks(s.cidrs, ips, order);
      PreferredStays(s.cidrs, ips, order);
    } else {
      UniformStays(s.cidrs, ips, order);
      AllSameTaken(ips, order);
      AllSameTaken(Family(answers, isA), order);
    }
  }

  lemma UniformStays(cidrs: seq<Cidr>, ips: seq<IpAddr>, order: seq<nat>)
    requires AllValid(cidrs) && !Preferred(cidrs, ips)
    requires forall k :: 0 <= k < |order| ==> order[k] < |ips|
    ensures !Preferred(cidrs, Taken(ips, order))
  {
    hide Rank;
    var ranks, after := Ranks(cidrs, ips), Ranks(cidrs, Taken(ips, order));
    assert |after| == |order| && |ranks| == |ips|;
    if cidrs != [] {
      forall k | 0 <= k < |after| ensures after[k] == after[0] {
        assert 0 < |order|;
        assert ranks[order[k]] == ranks[0] == ranks[order[0]];
      }
    }
  }

  lemma AllSameTaken<T>(xs: seq<T>, order: seq<nat>)
    requires Lists(order, |xs|) && forall k :: 0 <= k < |order| ==> order[k] < |xs|
    ensures AllSame(Taken(xs, order)) <==> AllSame(xs)
  {
    hide Lists;
    var taken := Taken(xs, order);
    Count(order, |xs|);
    if AllSame(taken) {
      forall k | 0 <= k < |xs| ensures xs[k] == xs[0] {
        var i := WhereListed(order, |xs|, k);
        var j := WhereListed(order, |xs|, 0);
        assert taken[i] == taken[0] == taken[j];
      }
    }
    if AllSame(xs) {
      forall k | 0 <= k < |taken| ensures taken[k] == taken[0] {
        assert xs[order[k]] == xs[0] == xs[order[0]];
      }
    }
  }

  lemma TwoAaaa(x: Record, y: Record)
    requires x.data.AAAA? && y.data.AAAA?
    ensures Slots([x, y], false) == [0, 1] && Slots([x, y], true) == []
    ensures Ips([x, y], false) == [V6(x.data.v6), V6(y.data.v6)]
  {
    assert [x, y][..1] == [x] && [x][..0] == [];
    assert Slots([x], false) == [0] && Slots([x], true) == [];
  }

  /** In speed mode, an A query reorders the AAAA records that come with the answer, and an ANY query
      leaves them unsorted. */
  lemma SpeedPromiseFails(owner: Name)
    ensures var answers := [Record(owner, 60, AAAA(0)), Record(owner, 60, AAAA(1))];
            var draw := Draw(0, map[V6(0) := 2, V6(1) := 1]);
            SpeedPromiseBroken(Settings(true, [], Speed, None), answers, draw)
  {
    hide Slots, Passed, Family, FamilyOrder, Ips;
    var s := Settings(true, [], Speed, None);
    var answers := [Record(owner, 60, AAAA(0)), Record(owner, 60, AAAA(1))];
    var draw := Draw(0, map[V6(0) := 2, V6(1) := 1]);
    TwoAaaa(answers[0], answers[1]);
    PassOrder(s, answers, true, draw);
    SpeedMoves(s, answers, false, draw, 0, 1);
  }

  /** What the documents call untouched is touched, and what they call sorted is not. */
  predicate SpeedPromiseBroken(s: Settings, answers: seq<Record>, draw: Draw)
    requires AllValid(s.cidrs)
  {
    && TwoPasses(s, FamiliesOf(TypeA).value, answers, draw, draw) != answers
    && Promised(s, FamiliesOf(TypeA).value, answers, draw, draw) == answers
    && TwoPasses(s, FamiliesOf(TypeANY).value, answers, draw, draw) == answers
    && Promised(s, FamiliesOf(TypeANY).value, answers, draw, draw) != answers
  }

  // ---------------------------------------------------------------------------
  // Reordering in place
  // ---------------------------------------------------------------------------

  /** Slot `targets[k].slot` receives the record of `targets[order[k]].slot`. */
  method PermuteFamily(ctx: QueryContext, targets: seq<Target>, order: seq<nat>,
                       ghost isA: bool) returns (changed: bool)
    requires ctx.response.Some? && targets == TargetsOf(ctx.response.value.answers, isA)
    requires Lists(order, |targets|) && forall k :: 0 <= k < |order| ==> order[k] < |targets|
    modifies ctx`response
    ensures ctx.response == Some(WithOrder(old(ctx.response.value), isA, order))
    ensures changed <==> order != Positions(|targets|)
  {
    hide Slots, InFamily, Family, Reordered, Lists, Written;
    var answers := ctx.response.value.answers;
    ghost var slots := Slots(answers, isA);
    Count(order, |targets|);
    if order == Positions(|order|) {
      ReorderedByIdentity(answers, isA);
      return false;
    }
    var records := seq(|order|, k requires 0 <= k < |order| => answers[targets[order[k]].slot]);
    RecordsTaken(answers, isA, order, records);
    NothingWritten(answers, slots, records);
    for k := 0 to |targets|
      invariant ctx.response.Some?
      invariant ctx.response.value == old(ctx.response.value).(answers := Written(answers, slots, records, k))
    {
      var msg := ctx.response.value;
      ctx.response := Some(msg.(answers := msg.answers[targets[k].slot := records[k]]));
      OneMoreWritten(answers, slots, records, k);
    }
    changed := true;
  }

  lemma NothingWritten(answers: seq<Record>, slots: seq<nat>, records: seq<Record>)
    requires |slots| == |records| && forall k :: 0 <= k < |slots| ==> slots[k] < |answers|
    ensures Written(answers, slots, records, 0) == answers
  {
  }

  lemma OneMoreWritten(answers: seq<Record>, slots: seq<nat>, records: seq<Record>, k: nat)
    requires k < |slots| == |records| && forall k :: 0 <= k < |slots| ==> slots[k] < |answers|
    ensures Written(answers, slots, records, k + 1) == Written(answers, slots, records, k)[slots[k] := records[k]]
  {
  }

  lemma RecordsTaken(answers: seq<Record>, isA: bool, order: seq<nat>, records: seq<Record>)
    requires Lists(order, |Slots(answers, isA)|)
    requires forall k :: 0 <= k < |order| ==> order[k] < |Slots(answers, isA)|
    requires |records| == |order|
    requires forall k :: 0 <= k < |order| ==> records[k] == answers[Slots(answers, isA)[order[k]]]
    ensures Reordered(answers, isA, order) == Written(answers, Slots(answers, isA), records, |records|)
  {
    hide Slots, InFamily, Lists, Written;
    assert records == Taken(Family(answers, isA), order);
    Count(order, |Slots(answers, isA)|);
  }

  lemma Count(order: seq<nat>, n: nat)
    requires Lists(order, n)
    ensures |order| == n
  {
  }

  function WithOrder(msg: Message, isA: bool, order: seq<nat>): Message
    requires Lists(order, |Slots(msg.answers, isA)|)
  {
    msg.(answers := Reordered(msg.answers, isA, order))
  }

  /** Shifts the family circularly so that its record `start` comes first. */
  method RotateFamily(ctx: QueryContext, targets: seq<Target>, start: nat, ghost isA: bool)
    requires ctx.response.Some? && targets == TargetsOf(ctx.response.value.answers, isA) && start < |targets|
    requires Lists(Turns(|targets|, start), |targets|)
    modifies ctx`response
    ensures ctx.response == Some(WithOrder(old(ctx.response.value), isA, Turns(|targets|, start)))
  {
    hide Slots;
    var n := |targets|;
    if start == 0 {
      NoTurn(n);
      ReorderedByIdentity(ctx.response.value.answers, isA);
      return;
    }
    var order := seq(n, k requires 0 <= k < n => (k + start) % n);
    assert order == Turns(n, start);
    var _ := PermuteFamily(ctx, targets, order, isA);
  }

  lemma NoTurn(n: nat)
    requires n > 0
    ensures Turns(n, 0) == Positions(n)
  {
    forall k | 0 <= k < n ensures Turns(n, 0)[k] == k {
      ModSmall(k, n);
    }
  }

  class Balance {
    const settings: Settings

    ghost predicate Valid() {
      AllValid(settings.cidrs) && |settings.cidrs| <= Decimal.USIZE_MAX
    }

    constructor (settings: Settings)
      ensures this.settings == settings
    {
      this.settings := settings;
    }

    /** Sorts addresses stably by rank, those in no range last; without ranges nothing moves. */
    method RankIps(ips: seq<IpAddr>) returns (r: seq<IpAddr>)
      requires Valid()
      ensures SortsStably(Ranks(settings.cidrs, ips), RankOrder(settings, ips)) || !settings.enabled
      ensures r == Taken(ips, RankOrder(settings, ips))
    {
      hide Ranks, RankKeys, StableOrder;
      var cidrs, n := settings.cidrs, |ips|;
      if !settings.enabled || cidrs == [] {
        assert Taken(ips, Positions(n)) == ips;
        if cidrs == [] {
          NoRangesSorted(cidrs, ips);
        }
        return ips;
      }
      RanksBelow(cidrs, ips);
      var ranks := Ranks(cidrs, ips);
      RankKeysSortByRank(ranks, Decimal.USIZE_MAX);
      StableOrderSorts(ranks);
      r := Taken(ips, StableOrder(RankKeys(ranks, Decimal.USIZE_MAX), n));
    }

    /** Reorders one family of the response. */
    method BalanceFamily(ctx: QueryContext, isA: bool, draw: Draw)
      requires Valid() && ctx.response.Some?
      modifies ctx`response
      ensures ctx.response == Some(old(ctx.response.value).(
                                answers := Passed(settings, old(ctx.response.value.answers), isA, draw)))
    {
      hide Slots, InFamily, Reordered, RankKeys, ConnectTimes, Turns, Positions, StableOrder, Lists;
      var answers := ctx.response.value.answers;
      var targets := CollectFamily(answers, isA);
      var n := |targets|;
      var ips := seq(n, k requires 0 <= k < n => targets[k].ip);
      assert ips == Ips(answers, isA);
      FamilyOrderLists(settings, ips, draw);
      if n < 2 {
        ReorderedByIdentity(answers, isA);
        return;
      }
      var ranks := Ranks(settings.cidrs, ips);
      if settings.cidrs != [] {
        if !Uniform(ranks) {
          var order := StableOrder(RankKeys(ranks, |settings.cidrs|), n);
          var _ := PermuteFamily(ctx, targets, order, isA);
          return;
        }
      }
      match settings.mode {
        case NoMode =>
          ReorderedByIdentity(answers, isA);
        case RoundRobin =>
          RotateFamily(ctx, targets, draw.random % n, isA);
        case Speed =>
          var order := StableOrder(ConnectTimes(ips, draw.rtt), n);
          var _ := PermuteFamily(ctx, targets, order, isA);
      }
    }

    /** The post-pass over a response; it never answers by itself. */
    method Handle(ctx: QueryContext, first: Draw, second: Draw)
      requires Valid()
      modifies ctx`response
      ensures old(ctx.response).None? ==> ctx.response.None?
      ensures old(ctx.response).Some? ==>
                var msg := old(ctx.response.value);
                ctx.response == Some(msg.(answers :=
                  BalancedAnswers(settings, ctx.skipBalance, ctx.key.qtype, msg.answers, first, second)))
    {
      hide Passed;
      if !settings.enabled || ctx.skipBalance {
        return;
      }
      var families := FamiliesOf(ctx.key.qtype);
      if families.None? {
        return;
      }
      if ctx.response.None? {
        return;
      }
      BalanceFamily(ctx, families.value.a, first);
      BalanceFamily(ctx, families.value.aaaa, second);
      if settings.maxAnswers.Some? {
        var max, response := settings.maxAnswers.value, ctx.response.value;
        if max > 0 && |response.answers| > max {
          ctx.response := Some(response.(answers := response.answers[..max]));
        }
      }
    }
  }

  /** The order in which candidate addresses of an upstream are tried. */
  function RankOrder(s: Settings, ips: seq<IpAddr>): (order: seq<nat>)
    requires AllValid(s.cidrs)
    ensures |order| == |ips| && forall k :: 0 <= k < |order| ==> order[k] < |ips|
  {
    if !s.enabled then Positions(|ips|) else StableOrder(Ranks(s.cidrs, ips), |ips|)
  }

  lemma NoRangesSorted(cidrs: seq<Cidr>, ips: seq<IpAddr>)
    requires cidrs == []
    ensures AllValid(cidrs) && StableOrder(Ranks(cidrs, ips), |ips|) == Positions(|ips|)
    ensures SortsStably(Ranks(cidrs, ips), StableOrder(Ranks(cidrs, ips), |ips|))
  {
    hide StableOrder;
    var ranks := Ranks(cidrs, ips);
    AlreadySorted(ranks);
    StableOrderSorts(ranks);
  }

  // ---------------------------------------------------------------------------
  // Ranking an upstream's addresses
  // ---------------------------------------------------------------------------

  function WithPort(ips: seq<IpAddr>, port: nat): (r: seq<SocketAddr>)
    ensures |r| == |ips|
  {
    seq(|ips|, k requires 0 <= k < |ips| => SocketAddr(ips[k], port))
  }

  lemma WithPortExactly(ips: seq<IpAddr>, port: nat)
    ensures forall a: SocketAddr :: a in WithPort(ips, port) <==> a.ip in ips && a.port == port
  {
    forall a: SocketAddr | a.ip in ips && a.port == port ensures a in WithPort(ips, port) {
      var k :| 0 <= k < |ips| && ips[k] == a.ip;
      assert WithPort(ips, port)[k] == a;
    }
  }

  /** The pool sorts its addresses itself, so ranking the candidates beforehand has no effect on it. */
  lemma RankingDoesNotReachPool(s: Settings, ips: seq<IpAddr>, port: nat)
    requires AllValid(s.cidrs)
    ensures PoolAddresses(WithPort(Taken(ips, RankOrder(s, ips)), port)) == PoolAddresses(WithPort(ips, port))
    ensures forall a: SocketAddr :: a in PoolAddresses(WithPort(ips, port)) <==> a.ip in ips && a.port == port
  {
    hide StableOrder, Ranks, Lists, PoolAddresses;
    WithPortExactly(ips, port);
    PoolAddressesMeaning(WithPort(ips, port));
    var n, order := |ips|, RankOrder(s, ips);
    assert Lists(order, n) by {
      StableOrderSorts(Ranks(s.cidrs, ips));
      hide Positions;
      ListsItself(n);
    }
    var a, b := WithPort(Taken(ips, order), port), WithPort(ips, port);
    forall x ensures x in a <==> x in b {
      if x in a {
        var k :| 0 <= k < |a| && a[k] == x;
        assert b[order[k]] == x;
      }
      if x in b {
        var k :| 0 <= k < |b| && b[k] == x;
        var i := WhereListed(order, n, k);
        assert a[i] == x;
      }
    }
    OrderDoesNotMatter(a, b);
  }

  lemma ListsItself(n: nat)
    ensures Lists(Positions(n), n)
  {
  }
}
