/** The dev / held-out split of each capability's queries, and the scenarios a run selects. Hashes are
    taken as ranks: distinct keys have distinct ranks. */
module DatasetSplit {
  import opened Common
  import opened Sorting

  datatype Half = Dev | HeldOut

  /** One phrasing's kind stands for the phrasing. */
  datatype Query = Query(id: string, phrasings: seq<string>, pin: Option<Half>, split: Half)

  datatype Scenario = Scenario(id: string, domain: string, origin: bool, queries: seq<Query>)

  /** A query's key: its scenario's id and its own. */
  type Key = (string, string)

  type Rank = Key -> nat

  // ---------------------------------------------------------------- who is in the alternation

  function UnpinnedIn(scenario: string, queries: seq<Query>): seq<Key> {
    if queries == [] then []
    else (if queries[0].pin.None? then [(scenario, queries[0].id)] else []) + UnpinnedIn(scenario, queries[1..])
  }

  function Unpinned(scenarios: seq<Scenario>): seq<Key> {
    if scenarios == [] then []
    else UnpinnedIn(scenarios[0].id, scenarios[0].queries) + Unpinned(scenarios[1..])
  }

  ghost predicate Injective(rank: Rank, keys: set<Key>) {
    forall a, b :: a in keys && b in keys && rank(a) == rank(b) ==> a == b
  }

  /** How many of the listed queries rank up to `top`. */
  function UpTo(keyed: seq<Key>, rank: Rank, top: nat): nat {
    if keyed == [] then 0
    else UpTo(keyed[..|keyed| - 1], rank, top) + if rank(keyed[|keyed| - 1]) <= top then 1 else 0
  }

  function HalfAt(place: int): Half {
    if place % 2 == 0 then Dev else HeldOut
  }

  /** A key's half: by how many queries rank up to its own, whatever order they were read in. Queries that
      share a key share the place of the last of them. */
  function HalfOf(keyed: seq<Key>, rank: Rank, key: Key): Half {
    HalfAt(UpTo(keyed, rank, rank(key)) - 1)
  }

  lemma {:induction false} UpToSplits(a: seq<Key>, b: seq<Key>, rank: Rank, top: nat)
    ensures UpTo(a + b, rank, top) == UpTo(a, rank, top) + UpTo(b, rank, top)
    decreases |b|
  {
    if b == [] {
      assert a + b == a;
    } else {
      assert (a + b)[..|a + b| - 1] == a + b[..|b| - 1];
      UpToSplits(a, b[..|b| - 1], rank, top);
    }
  }

  lemma OneUpTo(key: Key, rank: Rank, top: nat)
    ensures UpTo([key], rank, top) == if rank(key) <= top then 1 else 0
  {
    assert [key][..0] == [];
  }

  lemma {:induction false} AllUpTo(keyed: seq<Key>, rank: Rank, top: nat)
    requires forall key :: key in keyed ==> rank(key) <= top
    ensures UpTo(keyed, rank, top) == |keyed|
    decreases |keyed|
  {
    if keyed != [] {
      AllUpTo(keyed[..|keyed| - 1], rank, top);
    }
  }

  /** The count does not depend on the order of the queries. */
  lemma {:induction false} UpToPermutes(a: seq<Key>, b: seq<Key>, rank: Rank, top: nat)
    requires multiset(a) == multiset(b)
    ensures UpTo(a, rank, top) == UpTo(b, rank, top)
    decreases |a|
  {
    assert |a| == |multiset(a)| && |b| == |multiset(b)|;
    if a != [] {
      var before, last := a[..|a| - 1], a[|a| - 1];
      var j := FindSame(a, |a| - 1, b);
      SameWithoutOne(a, |a| - 1, b, j);
      assert before + a[|a|..] == before;
      UpToPermutes(before, Without(b, j), rank, top);
      UpToSplits(b[..j], [last], rank, top);
      UpToSplits(b[..j] + [last], b[j + 1..], rank, top);
      UpToSplits(b[..j], b[j + 1..], rank, top);
      OneUpTo(last, rank, top);
      assert b == b[..j] + [last] + b[j + 1..];
    }
  }

  // ---------------------------------------------------------------- assigning

  predicate RankLeq(rank: Rank, a: Key, b: Key) { rank(a) <= rank(b) }

  function ByRank(rank: Rank): (Key, Key) -> bool {
    (a, b) => RankLeq(rank, a, b)
  }

  lemma ByRankIsAPreorder(rank: Rank)
    ensures TotalPreorder(ByRank(rank))
  {
  }

  /** In rank order, a key's half so far is that of its last index. */
  lemma NextPlace(sorted: seq<Key>, rank: Rank, i: nat, key: Key)
    requires Sorted(ByRank(rank), sorted) && Injective(rank, Elements(sorted)) && i < |sorted|
    requires key in sorted[..i + 1]
    ensures HalfOf(sorted[..i + 1], rank, key) == if key == sorted[i] then HalfAt(i) else HalfOf(sorted[..i], rank, key)
  {
    var upTo := sorted[..i + 1];
    assert upTo[..i] == sorted[..i];
    forall other | other in upTo
      ensures rank(other) <= rank(sorted[i])
    {
      var j :| 0 <= j <= i && sorted[j] == other;
      assert j < i ==> ByRank(rank)(sorted[j], sorted[i]);
    }
    if key == sorted[i] {
      AllUpTo(upTo, rank, rank(key));
    } else {
      assert key in Elements(sorted) && sorted[i] in Elements(sorted);
    }
  }

  lemma NextHalves(sorted: seq<Key>, rank: Rank, i: nat, halves: map<Key, Half>)
    requires Sorted(ByRank(rank), sorted) && Injective(rank, Elements(sorted)) && i < |sorted|
    requires AreHalves(halves, sorted[..i], rank)
    ensures AreHalves(halves[sorted[i] := HalfAt(i)], sorted[..i + 1], rank)
  {
    var next := halves[sorted[i] := HalfAt(i)];
    assert Elements(sorted[..i + 1]) == Elements(sorted[..i]) + {sorted[i]};
    forall key | key in next
      ensures next[key] == HalfOf(sorted[..i + 1], rank, key)
    {
      assert key in Elements(sorted[..i + 1]);
      NextPlace(sorted, rank, i, key);
    }
  }

  ghost predicate AreHalves(halves: map<Key, Half>, keyed: seq<Key>, rank: Rank) {
    halves.Keys == Elements(keyed) && forall key :: key in halves ==> halves[key] == HalfOf(keyed, rank, key)
  }

  lemma HalvesPermute(halves: map<Key, Half>, a: seq<Key>, b: seq<Key>, rank: Rank)
    requires AreHalves(halves, a, rank) && multiset(a) == multiset(b)
    ensures AreHalves(halves, b, rank)
  {
    SameMultisetSameElements(a, b);
    forall key | key in halves
      ensures HalfOf(a, rank, key) == HalfOf(b, rank, key)
    {
      UpToPermutes(a, b, rank, rank(key));
    }
  }

  /** The alternating halves, by key: a later place replaces an earlier one. */
  method Alternate(keyed: seq<Key>, rank: Rank) returns (halves: map<Key, Half>)
    requires Injective(rank, Elements(keyed))
    ensures AreHalves(halves, keyed, rank)
  {
    var sorted := SortBy(ByRank(rank), keyed);
    ByRankIsAPreorder(rank);
    SortBySorts(ByRank(rank), keyed);
    halves := map[];
    for i := 0 to |sorted|
      invariant AreHalves(halves, sorted[..i], rank)
    {
      NextHalves(sorted, rank, i, halves);
      halves := halves[sorted[i] := if i % 2 == 0 then Dev else HeldOut];
    }
    assert sorted[..|sorted|] == sorted;
    HalvesPermute(halves, sorted, keyed, rank);
  }

  function Assigned(scenario: string, query: Query, keyed: seq<Key>, rank: Rank): Query {
    query.(split := if query.pin.Some? then query.pin.value else HalfOf(keyed, rank, (scenario, query.id)))
  }

  /** The same scenarios and queries, each with its half. */
  ghost predicate AreAssigned(scenarios: seq<Scenario>, split: seq<Scenario>, keyed: seq<Key>, rank: Rank) {
    && |split| == |scenarios|
    && forall i :: 0 <= i < |split| ==>
         && split[i].(queries := scenarios[i].queries) == scenarios[i]
         && |split[i].queries| == |scenarios[i].queries|
         && forall j :: 0 <= j < |split[i].queries| ==>
              split[i].queries[j] == Assigned(scenarios[i].id, scenarios[i].queries[j], keyed, rank)
  }

  lemma {:induction false} UnpinnedQueryIsKeyed(scenarios: seq<Scenario>, i: nat, j: nat)
    requires i < |scenarios| && j < |scenarios[i].queries| && scenarios[i].queries[j].pin.None?
    ensures (scenarios[i].id, scenarios[i].queries[j].id) in Unpinned(scenarios)
  {
    if i == 0 {
      UnpinnedQueryIsListed(scenarios[0].id, scenarios[0].queries, j);
    } else {
      UnpinnedQueryIsKeyed(scenarios[1..], i - 1, j);
    }
  }

  lemma {:induction false} UnpinnedQueryIsListed(scenario: string, queries: seq<Query>, j: nat)
    requires j < |queries| && queries[j].pin.None?
    ensures (scenario, queries[j].id) in UnpinnedIn(scenario, queries)
  {
    if j > 0 {
      UnpinnedQueryIsListed(scenario, queries[1..], j - 1);
    }
  }

  /** One capability: alternates its unpinned queries by rank; a pinned query keeps its half. */
  method AssignSplits(scenarios: seq<Scenario>, rank: Rank) returns (split: seq<Scenario>)
    requires Injective(rank, Elements(Unpinned(scenarios)))
    ensures AreAssigned(scenarios, split, Unpinned(scenarios), rank)
  {
    ghost var keyed := Unpinned(scenarios);
    var halves := Alternate(Unpinned(scenarios), rank);
    split := [];
    for i := 0 to |scenarios|
      invariant AreAssigned(scenarios[..i], split, keyed, rank)
    {
      var queries := AssignQueries(scenarios, i, halves, keyed, rank);
      split := split + [scenarios[i].(queries := queries)];
    }
    assert scenarios[..|scenarios|] == scenarios;
  }

  method AssignQueries(scenarios: seq<Scenario>, i: nat, halves: map<Key, Half>, ghost keyed: seq<Key>,
                       ghost rank: Rank)
    returns (queries: seq<Query>)
    requires i < |scenarios| && keyed == Unpinned(scenarios) && AreHalves(halves, keyed, rank)
    ensures |queries| == |scenarios[i].queries|
    ensures forall j :: 0 <= j < |queries| ==>
              queries[j] == Assigned(scenarios[i].id, scenarios[i].queries[j], keyed, rank)
  {
    queries := [];
    for j := 0 to |scenarios[i].queries|
      invariant |queries| == j
      invariant forall n :: 0 <= n < j ==>
                  queries[n] == Assigned(scenarios[i].id, scenarios[i].queries[n], keyed, rank)
    {
      var query := scenarios[i].queries[j];
      var half := Dev;
      if query.pin.Some? {
        half := query.pin.value;
      } else {
        UnpinnedQueryIsKeyed(scenarios, i, j);
        half := halves[(scenarios[i].id, query.id)];
      }
      queries := queries + [query.(split := half)];
    }
  }

  /** Of the queries of a scenario, the unpinned ones are listed, each where it stands. */
  lemma {:induction false} ListedQueryByQuery(scenario: string, queries: seq<Query>, more: seq<Query>, q: Query)
    ensures UnpinnedIn(scenario, queries + more) == UnpinnedIn(scenario, queries) + UnpinnedIn(scenario, more)
    ensures UnpinnedIn(scenario, [q]) == if q.pin == None then [(scenario, q.id)] else []
  {
    UnpinnedInSplits(scenario, queries, more);
  }

  /** ... scenario by scenario. */
  lemma ListedScenarioByScenario(scenarios: seq<Scenario>, more: seq<Scenario>, s: Scenario)
    ensures Unpinned(scenarios + more) == Unpinned(scenarios) + Unpinned(more)
    ensures Unpinned([s]) == UnpinnedIn(s.id, s.queries)
  {
    UnpinnedSplits(scenarios, more);
  }

  lemma {:induction false} UpToCounts(keyed: seq<Key>, rank: Rank, top: nat, places: set<nat>)
    requires forall n: nat :: n in places <==> n < |keyed| && rank(keyed[n]) <= top
    ensures UpTo(keyed, rank, top) == |places|
    decreases |keyed|
  {
    if keyed == [] {
      assert places == {};
    } else {
      var last := |keyed| - 1;
      UpToCounts(keyed[..last], rank, top, places - {last});
      PlaceJoins(places, last, rank(keyed[last]) <= top);
    }
  }

  lemma PlaceJoins(places: set<nat>, last: nat, joins: bool)
    requires last in places <==> joins
    ensures |places| == |places - {last}| + if joins then 1 else 0
  {
    if joins {
      assert places == places - {last} + {last};
    } else {
      assert places == places - {last};
    }
  }

  /** A split file is the file with its halves filled in: a pinned query's is its pin, another's is dev exactly
      when an odd number of the listed queries rank up to it. */
  lemma {:induction false} SplitExactlyAs(scenarios: seq<Scenario>, split: seq<Scenario>, rank: Rank,
                                          i: nat, j: nat, places: set<nat>)
    requires AreAssigned(scenarios, split, Unpinned(scenarios), rank)
    requires i < |scenarios| && j < |scenarios[i].queries|
    requires forall n: nat :: n in places <==>
               n < |Unpinned(scenarios)|
               && rank(Unpinned(scenarios)[n]) <= rank((scenarios[i].id, scenarios[i].queries[j].id))
    ensures |split| == |scenarios| && |split[i].queries| == |scenarios[i].queries|
    ensures split[i].id == scenarios[i].id && split[i].domain == scenarios[i].domain
    ensures split[i].origin == scenarios[i].origin
    ensures var q, was := split[i].queries[j], scenarios[i].queries[j];
            && q.id == was.id && q.phrasings == was.phrasings && q.pin == was.pin
            && (was.pin.Some? ==> q.split == was.pin.value)
            && (was.pin.None? ==> (q.split == Dev <==> |places| % 2 == 1))
  {
    UpToCounts(Unpinned(scenarios), rank, rank((scenarios[i].id, scenarios[i].queries[j].id)), places);
    assert split[i].(queries := scenarios[i].queries) == scenarios[i];
  }

  // ---------------------------------------------------------------- what the split promises

  function InHalf(keyed: seq<Key>, rank: Rank, half: Half): set<Key> {
    set key | key in keyed && HalfOf(keyed, rank, key) == half
  }

  /** What a half gets of `n` queries. */
  function Share(n: nat, half: Half): nat {
    if half == Dev then (n + 1) / 2 else n / 2
  }

  lemma NextShare(n: nat, half: Half)
    ensures Share(n + 1, half) == Share(n, half) + if half == HalfAt(n) then 1 else 0
  {
  }

  lemma {:induction false} SortedHalves(sorted: seq<Key>, rank: Rank, n: nat, half: Half)
    requires NoDuplicates(sorted) && Sorted(ByRank(rank), sorted) && Injective(rank, Elements(sorted)) && n <= |sorted|
    ensures |InHalf(sorted[..n], rank, half)| == Share(n, half)
    decreases n
  {
    if n == 0 {
      assert InHalf(sorted[..n], rank, half) == {};
    } else {
      SortedHalves(sorted, rank, n - 1, half);
      HalfGrows(sorted, rank, n - 1, half);
      NextShare(n - 1, half);
    }
  }

  lemma JoinsItsHalf(sorted: seq<Key>, rank: Rank, i: nat, half: Half, key: Key)
    requires NoDuplicates(sorted) && Sorted(ByRank(rank), sorted) && Injective(rank, Elements(sorted)) && i < |sorted|
    ensures key in InHalf(sorted[..i + 1], rank, half) <==>
              key in InHalf(sorted[..i], rank, half) || (key == sorted[i] && half == HalfAt(i))
  {
    assert key in sorted[..i + 1] <==> key in sorted[..i] || key == sorted[i];
    if key in sorted[..i + 1] {
      NextPlace(sorted, rank, i, key);
    }
  }

  lemma HalfGrows(sorted: seq<Key>, rank: Rank, i: nat, half: Half)
    requires NoDuplicates(sorted) && Sorted(ByRank(rank), sorted) && Injective(rank, Elements(sorted)) && i < |sorted|
    ensures |InHalf(sorted[..i + 1], rank, half)|
            == |InHalf(sorted[..i], rank, half)| + if half == HalfAt(i) then 1 else 0
  {
    forall key
      ensures key in InHalf(sorted[..i + 1], rank, half) <==>
                key in InHalf(sorted[..i], rank, half) || (key == sorted[i] && half == HalfAt(i))
    {
      JoinsItsHalf(sorted, rank, i, half, key);
    }
    assert sorted[i] !in sorted[..i];
    CountJoined(InHalf(sorted[..i], rank, half), InHalf(sorted[..i + 1], rank, half), sorted[i], half == HalfAt(i));
  }

  lemma CountJoined(fewer: set<Key>, more: set<Key>, last: Key, joins: bool)
    requires last !in fewer && forall key :: key in more <==> key in fewer || (key == last && joins)
    ensures |more| == |fewer| + if joins then 1 else 0
  {
    if joins {
      assert more == fewer + {last};
    } else {
      assert more == fewer;
    }
  }

  /** Where no two share a key, dev never has fewer unpinned queries than held-out, and at most one more. */
  lemma TheHalvesDifferByAtMostOne(keyed: seq<Key>, rank: Rank, half: Half)
    requires NoDuplicates(keyed) && Injective(rank, Elements(keyed))
    ensures |InHalf(keyed, rank, half)| == Share(|keyed|, half)
  {
    var sorted := SortBy(ByRank(rank), keyed);
    ByRankIsAPreorder(rank);
    SortBySorts(ByRank(rank), keyed);
    DistinctStaysDistinct(keyed, sorted);
    SortedHalves(sorted, rank, |sorted|, half);
    assert sorted[..|sorted|] == sorted;
    SameHalves(sorted, keyed, rank, half);
  }

  lemma SameHalves(a: seq<Key>, b: seq<Key>, rank: Rank, half: Half)
    requires multiset(a) == multiset(b)
    ensures InHalf(a, rank, half) == InHalf(b, rank, half)
  {
    SameMultisetSameElements(a, b);
    forall key
      ensures key in InHalf(a, rank, half) <==> key in InHalf(b, rank, half)
    {
      UpToPermutes(a, b, rank, rank(key));
      assert key in Elements(a) <==> key in Elements(b);
    }
  }

  lemma NeighboursDiffer(place: int)
    ensures HalfAt(place + 1) != HalfAt(place)
  {
  }

  lemma OneMoreMultiset(keyed: seq<Key>, added: Key)
    ensures multiset(keyed + [added]) == multiset(keyed) + multiset{added}
  {
  }

  /** Adding a query, anywhere, leaves another in its half exactly when that one ranks below it: every
      query that ranks above moves to the other half. */
  lemma AnInsertionKeepsExactlyTheLowerRanked(keyed: seq<Key>, more: seq<Key>, rank: Rank, added: Key, key: Key)
    requires multiset(more) == multiset(keyed) + multiset{added}
    ensures HalfOf(more, rank, key) == HalfOf(keyed, rank, key) <==> rank(key) < rank(added)
  {
    OneMoreMultiset(keyed, added);
    UpToPermutes(more, keyed + [added], rank, rank(key));
    UpToSplits(keyed, [added], rank, rank(key));
    OneUpTo(added, rank, rank(key));
    NeighboursDiffer(UpTo(keyed, rank, rank(key)) - 1);
  }

  /** The split of a query depends on the listed queries alone, not on their order nor on the scenarios
      and files they stand in, and pinned queries have no part in it. */
  lemma FileOrderDoesNotMatter(a: seq<Scenario>, b: seq<Scenario>, splitA: seq<Scenario>, splitB: seq<Scenario>,
                               keyedA: seq<Key>, keyedB: seq<Key>, rank: Rank, i: nat, j: nat, m: nat, n: nat)
    requires AreAssigned(a, splitA, keyedA, rank) && AreAssigned(b, splitB, keyedB, rank)
    requires multiset(keyedA) == multiset(keyedB)
    requires i < |a| && j < |a[i].queries| && m < |b| && n < |b[m].queries|
    requires a[i].id == b[m].id && a[i].queries[j].id == b[m].queries[n].id
    requires a[i].queries[j].pin == b[m].queries[n].pin
    ensures splitA[i].queries[j].split == splitB[m].queries[n].split
  {
    assert splitA[i].queries[j] == Assigned(a[i].id, a[i].queries[j], keyedA, rank);
    assert splitB[m].queries[n] == Assigned(b[m].id, b[m].queries[n], keyedB, rank);
    UpToPermutes(keyedA, keyedB, rank, rank((a[i].id, a[i].queries[j].id)));
  }

  lemma {:induction false} UnpinnedSplits(a: seq<Scenario>, b: seq<Scenario>)
    ensures Unpinned(a + b) == Unpinned(a) + Unpinned(b)
  {
    if a == [] {
      assert a + b == b;
    } else {
      assert (a + b)[1..] == a[1..] + b;
      UnpinnedSplits(a[1..], b);
    }
  }

  lemma {:induction false} UnpinnedInSplits(scenario: string, a: seq<Query>, b: seq<Query>)
    ensures UnpinnedIn(scenario, a + b) == UnpinnedIn(scenario, a) + UnpinnedIn(scenario, b)
  {
    if a == [] {
      assert a + b == b;
    } else {
      assert (a + b)[1..] == a[1..] + b;
      UnpinnedInSplits(scenario, a[1..], b);
    }
  }

  lemma MiddleMultiset(x: seq<Key>, y: seq<Key>, z: seq<Key>)
    ensures multiset(x + (y + z)) == multiset(y) + multiset(x + z)
  {
  }

  lemma UnpinnedFirst(first: Scenario, rest: seq<Scenario>)
    ensures Unpinned([first] + rest) == UnpinnedIn(first.id, first.queries) + Unpinned(rest)
  {
    assert ([first] + rest)[1..] == rest;
  }

  lemma UnpinnedAround(before: seq<Scenario>, s: Scenario, after: seq<Scenario>)
    ensures multiset(Unpinned(before + ([s] + after))) ==
            multiset(UnpinnedIn(s.id, s.queries)) + multiset(Unpinned(before + after))
  {
    var own := UnpinnedIn(s.id, s.queries);
    UnpinnedSplits(before, [s] + after);
    UnpinnedFirst(s, after);
    UnpinnedSplits(before, after);
    MiddleMultiset(Unpinned(before), own, Unpinned(after));
  }

  lemma {:induction false} WithoutScenario(scenarios: seq<Scenario>, j: nat)
    requires j < |scenarios|
    ensures multiset(Unpinned(scenarios)) == multiset(UnpinnedIn(scenarios[j].id, scenarios[j].queries))
                                           + multiset(Unpinned(Without(scenarios, j)))
  {
    var before, s, after := scenarios[..j], scenarios[j], scenarios[j + 1..];
    UnpinnedAround(before, s, after);
    SplitAround(scenarios, j);
  }

  lemma UnpinnedInAround(scenario: string, before: seq<Query>, q: Query, after: seq<Query>)
    ensures multiset(UnpinnedIn(scenario, before + ([q] + after))) ==
            multiset(UnpinnedIn(scenario, [q])) + multiset(UnpinnedIn(scenario, before + after))
  {
    UnpinnedInSplits(scenario, before, [q] + after);
    UnpinnedInSplits(scenario, [q], after);
    UnpinnedInSplits(scenario, before, after);
    MiddleMultiset(UnpinnedIn(scenario, before), UnpinnedIn(scenario, [q]), UnpinnedIn(scenario, after));
  }

  lemma WithoutQuery(scenario: string, queries: seq<Query>, j: nat)
    requires j < |queries|
    ensures multiset(UnpinnedIn(scenario, queries)) == multiset(UnpinnedIn(scenario, [queries[j]]))
                                                     + multiset(UnpinnedIn(scenario, Without(queries, j)))
  {
    assert queries == queries[..j] + ([queries[j]] + queries[j + 1..]);
    UnpinnedInAround(scenario, queries[..j], queries[j], queries[j + 1..]);
  }

  /** Reordering the scenarios of a file lists the same unpinned queries. */
  lemma {:induction false} ScenarioOrderListsTheSame(a: seq<Scenario>, b: seq<Scenario>)
    requires multiset(a) == multiset(b)
    ensures multiset(Unpinned(a)) == multiset(Unpinned(b))
  {
    var whole := (scenarios: seq<Scenario>) => multiset(Unpinned(scenarios));
    var own := (s: Scenario) => multiset(UnpinnedIn(s.id, s.queries));
    forall scenarios, i: nat | i < |scenarios|
      ensures whole(scenarios) == own(scenarios[i]) + whole(Without(scenarios, i))
    {
      WithoutScenario(scenarios, i);
    }
    AddingUpIgnoresOrder(whole, own, a, b);
  }

  /** So does reordering the queries of a scenario. */
  lemma QueryOrderListsTheSame(scenario: string, a: seq<Query>, b: seq<Query>)
    requires multiset(a) == multiset(b)
    ensures multiset(UnpinnedIn(scenario, a)) == multiset(UnpinnedIn(scenario, b))
  {
    var whole := (queries: seq<Query>) => multiset(UnpinnedIn(scenario, queries));
    var own := (query: Query) => multiset(UnpinnedIn(scenario, [query]));
    forall queries, i: nat | i < |queries|
      ensures whole(queries) == own(queries[i]) + whole(Without(queries, i))
    {
      WithoutQuery(scenario, queries, i);
    }
    AddingUpIgnoresOrder(whole, own, a, b);
  }

  /** The same scenarios in the same places, each with its queries in any order. */
  ghost predicate QueriesReordered(a: seq<Scenario>, b: seq<Scenario>) {
    && |a| == |b|
    && forall i :: 0 <= i < |a| ==> a[i].id == b[i].id && multiset(a[i].queries) == multiset(b[i].queries)
  }

  /** A file whose scenarios stand in any order, and their queries too. */
  ghost predicate Reordered(a: seq<Scenario>, b: seq<Scenario>) {
    exists c :: multiset(a) == multiset(c) && QueriesReordered(c, b)
  }

  lemma {:induction false} ReorderedQueriesListTheSame(a: seq<Scenario>, b: seq<Scenario>)
    requires QueriesReordered(a, b)
    ensures multiset(Unpinned(a)) == multiset(Unpinned(b))
  {
    if a != [] {
      ReorderedQueriesListTheSame(a[1..], b[1..]);
      QueryOrderListsTheSame(a[0].id, a[0].queries, b[0].queries);
    }
  }

  lemma {:induction false} AReorderedFileListsTheSame(a: seq<Scenario>, b: seq<Scenario>)
    requires Reordered(a, b)
    ensures multiset(Unpinned(a)) == multiset(Unpinned(b))
  {
    var c :| multiset(a) == multiset(c) && QueriesReordered(c, b);
    ScenarioOrderListsTheSame(a, c);
    ReorderedQueriesListTheSame(c, b);
  }

  /** However a file is reordered, every query gets the same half. */
  lemma AReorderedFileIsSplitAlike(a: seq<Scenario>, b: seq<Scenario>, splitA: seq<Scenario>, splitB: seq<Scenario>,
                                   rank: Rank, i: nat, j: nat, m: nat, n: nat)
    requires Reordered(a, b)
    requires AreAssigned(a, splitA, Unpinned(a), rank) && AreAssigned(b, splitB, Unpinned(b), rank)
    requires i < |a| && j < |a[i].queries| && m < |b| && n < |b[m].queries|
    requires a[i].id == b[m].id && a[i].queries[j].id == b[m].queries[n].id
    requires a[i].queries[j].pin == b[m].queries[n].pin
    ensures splitA[i].queries[j].split == splitB[m].queries[n].split
  {
    AReorderedFileListsTheSame(a, b);
    FileOrderDoesNotMatter(a, b, splitA, splitB, Unpinned(a), Unpinned(b), rank, i, j, m, n);
  }

  // ---------------------------------------------------------------- selection

  /** What a run measures; an empty set of names is all of them. */
  datatype Selection = Selection(
    split: Option<Half>, domains: set<string>, kinds: set<string>, ids: set<string>,
    perCapability: Option<nat>, perDomain: Option<nat>)

  predicate InPool(s: Scenario, sel: Selection) {
    (sel.domains == {} || s.domain in sel.domains) && (sel.ids == {} || s.id in sel.ids)
  }

  function Pool(scenarios: seq<Scenario>, sel: Selection): seq<Scenario> {
    if scenarios == [] then []
    else
      Pool(scenarios[..|scenarios| - 1], sel)
      + if InPool(scenarios[|scenarios| - 1], sel) then [scenarios[|scenarios| - 1]] else []
  }

  /** The documented origin scenarios first, then by the hash of the id. */
  predicate SampleLeq(rank: string -> nat, a: Scenario, b: Scenario) {
    if a.origin != b.origin then a.origin else rank(a.id) <= rank(b.id)
  }

  function SampleOrder(rank: string -> nat): (Scenario, Scenario) -> bool {
    (a, b) => SampleLeq(rank, a, b)
  }

  lemma SampleOrderIsAPreorder(rank: string -> nat)
    ensures TotalPreorder(SampleOrder(rank))
  {
  }

  function InDomain(scenarios: seq<Scenario>, domain: string): nat {
    if scenarios == [] then 0
    else InDomain(scenarios[..|scenarios| - 1], domain) + if scenarios[|scenarios| - 1].domain == domain then 1 else 0
  }

  /** The scenarios with fewer than `cap` of their domain before them in the pool. */
  function Capped(pool: seq<Scenario>, cap: nat): seq<Scenario> {
    if pool == [] then []
    else
      var before, last := pool[..|pool| - 1], pool[|pool| - 1];
      Capped(before, cap) + if InDomain(before, last.domain) < cap then [last] else []
  }

  lemma {:induction false} CappedCount(pool: seq<Scenario>, cap: nat, domain: string)
    ensures InDomain(Capped(pool, cap), domain) == Min(InDomain(pool, domain), cap)
    decreases |pool|
  {
    if pool != [] {
      var before, last := pool[..|pool| - 1], pool[|pool| - 1];
      CappedCount(before, cap, domain);
      if InDomain(before, last.domain) < cap {
        var kept := Capped(before, cap) + [last];
        assert kept[..|kept| - 1] == Capped(before, cap);
      } else {
        assert Capped(pool, cap) == Capped(before, cap);
      }
    }
  }

  /** The per-domain loop: counting the kept ones keeps exactly the first `cap` of each domain. */
  method CapPerDomain(pool: seq<Scenario>, cap: nat) returns (kept: seq<Scenario>)
    ensures kept == Capped(pool, cap)
  {
    kept := [];
    var seen: map<string, nat> := map[];
    for i := 0 to |pool|
      invariant kept == Capped(pool[..i], cap)
      invariant forall domain :: SeenIn(seen, domain) == InDomain(kept, domain)
    {
      var s := pool[i];
      ghost var upTo := pool[..i + 1];
      assert upTo[..|upTo| - 1] == pool[..i];
      CappedCount(pool[..i], cap, s.domain);
      if SeenIn(seen, s.domain) < cap {
        ghost var before := kept;
        kept := kept + [s];
        assert kept[..|kept| - 1] == before;
        seen := seen[s.domain := SeenIn(seen, s.domain) + 1];
      } else {
        assert Capped(upTo, cap) == Capped(pool[..i], cap);
      }
    }
    assert pool[..|pool|] == pool;
  }

  function SeenIn(seen: map<string, nat>, domain: string): nat {
    if domain in seen then seen[domain] else 0
  }

  function KeptPhrasings(phrasings: seq<string>, kinds: set<string>): seq<string> {
    if phrasings == [] then []
    else
      (if kinds == {} || phrasings[0] in kinds then [phrasings[0]] else []) + KeptPhrasings(phrasings[1..], kinds)
  }

  function Asked(queries: seq<Query>, sel: Selection): seq<Query> {
    if queries == [] then []
    else
      var q := queries[0];
      var phrasings := KeptPhrasings(q.phrasings, sel.kinds);
      (if (sel.split.Some? && q.split != sel.split.value) || phrasings == [] then [] else [q.(phrasings := phrasings)])
      + Asked(queries[1..], sel)
  }

  function Trimmed(s: Scenario, sel: Selection): Scenario {
    s.(queries := Asked(s.queries, sel))
  }

  /** The scenarios with a query left, each with only what it asks. */
  function TrimAll(pool: seq<Scenario>, sel: Selection): seq<Scenario> {
    if pool == [] then []
    else
      var last := Trimmed(pool[|pool| - 1], sel);
      TrimAll(pool[..|pool| - 1], sel) + if last.queries == [] then [] else [last]
  }

  function SortedPool(scenarios: seq<Scenario>, sel: Selection, rank: string -> nat): seq<Scenario> {
    SortBy(SampleOrder(rank), Pool(scenarios, sel))
  }

  function Selected(scenarios: seq<Scenario>, sel: Selection, rank: string -> nat): seq<Scenario> {
    var pool := SortedPool(scenarios, sel, rank);
    var kept := if sel.perDomain.Some? then Capped(pool, sel.perDomain.value) else pool;
    TrimAll(if sel.perCapability.Some? then Take(kept, sel.perCapability.value) else kept, sel)
  }

  /** One capability's selection. */
  method Select(scenarios: seq<Scenario>, sel: Selection, rank: string -> nat) returns (out: seq<Scenario>)
    ensures out == Selected(scenarios, sel, rank)
  {
    var pool := SortedPool(scenarios, sel, rank);
    if sel.perDomain.Some? {
      pool := CapPerDomain(pool, sel.perDomain.value);
    }
    if sel.perCapability.Some? {
      pool := Take(pool, sel.perCapability.value);
    }
    out := TrimEach(pool, sel);
  }

  /** The loop over the scenarios: those with a query to ask, with only these. */
  method TrimEach(pool: seq<Scenario>, sel: Selection) returns (out: seq<Scenario>)
    ensures out == TrimAll(pool, sel)
  {
    out := [];
    for i := 0 to |pool|
      invariant out == TrimAll(pool[..i], sel)
    {
      TrimOneMore(pool[..i], pool[i], sel);
      assert pool[..i + 1] == pool[..i] + [pool[i]];
      var queries := Asked(pool[i].queries, sel);
      if queries != [] {
        out := out + [pool[i].(queries := queries)];
      }
    }
    assert pool[..|pool|] == pool;
  }

  // ---------------------------------------------------------------- what the selection promises

  /** The scenarios a run may measure: of the named domains and ids, where any are named. */
  lemma {:induction false} PooledExactlyWhen(scenarios: seq<Scenario>, sel: Selection, s: Scenario)
    ensures s in Pool(scenarios, sel) <==>
              && s in scenarios
              && (sel.domains != {} ==> s.domain in sel.domains)
              && (sel.ids != {} ==> s.id in sel.ids)
    decreases |scenarios|
  {
    if scenarios != [] {
      var before, last := scenarios[..|scenarios| - 1], scenarios[|scenarios| - 1];
      PooledExactlyWhen(before, sel, s);
      assert scenarios == before + [last];
    }
  }

  /** They are taken the documented ones first, and within these and the others by rank. */
  lemma PooledInOrder(scenarios: seq<Scenario>, sel: Selection, rank: string -> nat, i: nat, j: nat)
    requires i < j < |SortedPool(scenarios, sel, rank)|
    ensures var a, b := SortedPool(scenarios, sel, rank)[i], SortedPool(scenarios, sel, rank)[j];
            && (b.origin ==> a.origin)
            && (a.origin == b.origin ==> rank(a.id) <= rank(b.id))
    ensures multiset(SortedPool(scenarios, sel, rank)) == multiset(Pool(scenarios, sel))
  {
    SampleOrderIsAPreorder(rank);
    SortBySorts(SampleOrder(rank), Pool(scenarios, sel));
    assert SampleOrder(rank)(SortedPool(scenarios, sel, rank)[i], SortedPool(scenarios, sel, rank)[j]);
  }

  lemma {:induction false} KeptPhrasingsAreFiltered(phrasings: seq<string>, more: seq<string>, kinds: set<string>)
    ensures KeptPhrasings(phrasings + more, kinds) == KeptPhrasings(phrasings, kinds) + KeptPhrasings(more, kinds)
    ensures forall kind :: KeptPhrasings([kind], kinds) == if kinds == {} || kind in kinds then [kind] else []
  {
    if phrasings == [] {
      assert phrasings + more == more;
    } else {
      assert (phrasings + more)[1..] == phrasings[1..] + more;
      KeptPhrasingsAreFiltered(phrasings[1..], more, kinds);
    }
  }

  /** What is asked of a scenario, query by query: those of the run's half, with the phrasings of its kinds,
      unless none is left. */
  lemma {:induction false} AskedQueryByQuery(queries: seq<Query>, more: seq<Query>, sel: Selection, q: Query)
    ensures Asked(queries + more, sel) == Asked(queries, sel) + Asked(more, sel)
    ensures var kept := KeptPhrasings(q.phrasings, sel.kinds);
            Asked([q], sel) ==
            if (sel.split == None || sel.split == Some(q.split)) && kept != []
            then [Query(q.id, kept, q.pin, q.split)] else []
  {
    if queries == [] {
      assert queries + more == more;
    } else {
      assert (queries + more)[1..] == queries[1..] + more;
      AskedQueryByQuery(queries[1..], more, sel, q);
    }
  }

  function Kept(pool: seq<Scenario>, sel: Selection): seq<Scenario> {
    if sel.perDomain.Some? then Capped(pool, sel.perDomain.value) else pool
  }

  /** The scenario at `i` is selected: fewer than the cap of its domain stand before it, fewer than the cap of
      all were kept before it, and some query of it is asked. */
  ghost predicate IsSelected(pool: seq<Scenario>, sel: Selection, i: nat)
    requires i < |pool|
  {
    && (sel.perDomain.Some? ==> InDomain(pool[..i], pool[i].domain) < sel.perDomain.value)
    && (sel.perCapability.Some? ==> |Kept(pool[..i], sel)| < sel.perCapability.value)
    && Asked(pool[i].queries, sel) != []
  }

  ghost predicate SelectedAt(pool: seq<Scenario>, sel: Selection, out: seq<Scenario>, positions: seq<nat>) {
    && |positions| == |out|
    && (forall n :: 0 <= n < |positions| ==>
          positions[n] < |pool| && out[n] == pool[positions[n]].(queries := Asked(pool[positions[n]].queries, sel)))
    && (forall m, n :: 0 <= m < n < |positions| ==> positions[m] < positions[n])
    && (forall i: nat :: i < |pool| ==> (i in positions <==> IsSelected(pool, sel, i)))
  }

  function Cut(pool: seq<Scenario>, sel: Selection): seq<Scenario> {
    var kept := Kept(pool, sel);
    TrimAll(if sel.perCapability.Some? then Take(kept, sel.perCapability.value) else kept, sel)
  }

  lemma TrimOneMore(kept: seq<Scenario>, last: Scenario, sel: Selection)
    ensures TrimAll(kept + [last], sel) ==
            TrimAll(kept, sel) + if Asked(last.queries, sel) == [] then [] else [Trimmed(last, sel)]
  {
    assert (kept + [last])[..|kept|] == kept;
  }

  lemma KeptOneMore(before: seq<Scenario>, last: Scenario, sel: Selection)
    ensures Kept(before + [last], sel) ==
            Kept(before, sel)
            + if sel.perDomain.Some? && InDomain(before, last.domain) >= sel.perDomain.value then [] else [last]
  {
    assert (before + [last])[..|before|] == before;
  }

  lemma CutOneMore(before: seq<Scenario>, last: Scenario, sel: Selection)
    ensures Cut(before + [last], sel) ==
            Cut(before, sel) + if IsSelected(before + [last], sel, |before|) then [Trimmed(last, sel)] else []
  {
    var kept := Kept(before, sel);
    assert (before + [last])[..|before|] == before;
    KeptOneMore(before, last, sel);
    TrimOneMore(kept, last, sel);
    assert IsSelected(before + [last], sel, |before|) <==>
             && (sel.perDomain.Some? ==> InDomain(before, last.domain) < sel.perDomain.value)
             && (sel.perCapability.Some? ==> |kept| < sel.perCapability.value)
             && Asked(last.queries, sel) != [];
    assert Cut(before, sel) + [] == Cut(before, sel) && kept + [] == kept;
    if sel.perCapability.Some? {
      TakeOneMore(kept, last, sel.perCapability.value);
      assert Take(kept, sel.perCapability.value) + [] == Take(kept, sel.perCapability.value);
    }
  }

  lemma TakeOneMore(kept: seq<Scenario>, last: Scenario, cap: nat)
    ensures Take(kept + [last], cap) == Take(kept, cap) + if |kept| < cap then [last] else []
    ensures |kept| < cap ==> Take(kept, cap) == kept
  {
  }

  ghost predicate CutsAt(pool: seq<Scenario>, sel: Selection, n: nat, out: seq<Scenario>, positions: seq<nat>)
    requires n <= |pool|
  {
    && |positions| == |out|
    && (forall m :: 0 <= m < |positions| ==> positions[m] < n && out[m] == Trimmed(pool[positions[m]], sel))
    && (forall l, m :: 0 <= l < m < |positions| ==> positions[l] < positions[m])
    && (forall i: nat :: i < n ==> (i in positions <==> IsSelected(pool, sel, i)))
  }

  lemma CutsAtNext(pool: seq<Scenario>, sel: Selection, n: nat, out: seq<Scenario>, positions: seq<nat>)
    requires n < |pool| && CutsAt(pool, sel, n, out, positions)
    ensures if IsSelected(pool, sel, n)
            then CutsAt(pool, sel, n + 1, out + [Trimmed(pool[n], sel)], positions + [n])
            else CutsAt(pool, sel, n + 1, out, positions)
  {
  }

  lemma {:induction false} CutAt(pool: seq<Scenario>, sel: Selection, n: nat) returns (positions: seq<nat>)
    requires n <= |pool|
    ensures CutsAt(pool, sel, n, Cut(pool[..n], sel), positions)
    decreases n
  {
    if n == 0 {
      positions := [];
    } else {
      positions := CutAt(pool, sel, n - 1);
      assert pool[..n] == pool[..n - 1] + [pool[n - 1]];
      CutOneMore(pool[..n - 1], pool[n - 1], sel);
      SameSelection(pool, sel, n - 1);
      CutsAtNext(pool, sel, n - 1, Cut(pool[..n - 1], sel), positions);
      if IsSelected(pool, sel, n - 1) {
        positions := positions + [n - 1];
      }
    }
  }

  lemma SameSelection(pool: seq<Scenario>, sel: Selection, i: nat)
    requires i < |pool|
    ensures IsSelected(pool[..i] + [pool[i]], sel, i) <==> IsSelected(pool, sel, i)
  {
    assert (pool[..i] + [pool[i]])[..i] == pool[..i];
  }

  /** The selection, exactly: the selected scenarios of the pool, in its order, each with what it asks. */
  lemma SelectedExactly(scenarios: seq<Scenario>, sel: Selection, rank: string -> nat) returns (positions: seq<nat>)
    ensures SelectedAt(SortedPool(scenarios, sel, rank), sel, Selected(scenarios, sel, rank), positions)
  {
    var pool := SortedPool(scenarios, sel, rank);
    positions := CutAt(pool, sel, |pool|);
    assert pool[..|pool|] == pool;
  }

  lemma {:induction false} InDomainGrows(pool: seq<Scenario>, i: nat, j: nat, domain: string)
    requires i <= j <= |pool|
    ensures InDomain(pool[..i], domain) <= InDomain(pool[..j], domain)
    decreases j
  {
    if i < j {
      assert pool[..j][..j - 1] == pool[..j - 1];
      InDomainGrows(pool, i, j - 1, domain);
    }
  }

  lemma {:induction false} CappedExactlyWhen(pool: seq<Scenario>, cap: nat, s: Scenario)
    ensures s in Capped(pool, cap) <==>
              exists i :: 0 <= i < |pool| && pool[i] == s && InDomain(pool[..i], s.domain) < cap
    decreases |pool|
  {
    if pool != [] {
      var before, last := pool[..|pool| - 1], pool[|pool| - 1];
      CappedExactlyWhen(before, cap, s);
      if i :| 0 <= i < |before| && before[i] == s && InDomain(before[..i], s.domain) < cap {
        assert pool[i] == s && pool[..i] == before[..i];
      }
      if i :| 0 <= i < |pool| && pool[i] == s && InDomain(pool[..i], s.domain) < cap {
        if i < |before| {
          assert before[i] == s && pool[..i] == before[..i];
        } else {
          assert pool[..i] == before;
        }
      }
      if s in Capped(pool, cap) && s !in Capped(before, cap) {
        assert s == last && pool[|pool| - 1] == s;
      }
    }
  }

  lemma {:induction false} TrimmedExactlyWhen(pool: seq<Scenario>, sel: Selection, t: Scenario)
    ensures t in TrimAll(pool, sel) <==> exists s :: s in pool && t == Trimmed(s, sel) && t.queries != []
    decreases |pool|
  {
    if pool != [] {
      var before, last := pool[..|pool| - 1], pool[|pool| - 1];
      TrimmedExactlyWhen(before, sel, t);
      assert forall s :: s in pool <==> s in before || s == last;
    }
  }

  lemma CappingKeepsTheEarlier(pool: seq<Scenario>, cap: nat, i: nat, j: nat)
    requires NoDuplicates(pool) && i < j < |pool| && pool[i].domain == pool[j].domain && pool[j] in Capped(pool, cap)
    ensures pool[i] in Capped(pool, cap)
  {
    CappedExactlyWhen(pool, cap, pool[j]);
    var n :| 0 <= n < |pool| && pool[n] == pool[j] && InDomain(pool[..n], pool[j].domain) < cap;
    InDomainGrows(pool, i, j, pool[i].domain);
    CappedExactlyWhen(pool, cap, pool[i]);
  }

  lemma {:induction false} PoolStaysDistinct(scenarios: seq<Scenario>, sel: Selection)
    requires NoDuplicates(scenarios)
    ensures NoDuplicates(Pool(scenarios, sel)) && forall s :: s in Pool(scenarios, sel) ==> s in scenarios
    decreases |scenarios|
  {
    if scenarios != [] {
      var before, last := scenarios[..|scenarios| - 1], scenarios[|scenarios| - 1];
      PoolStaysDistinct(before, sel);
      assert last !in before;
    }
  }

  lemma SortedPoolStaysDistinct(scenarios: seq<Scenario>, sel: Selection, rank: string -> nat)
    requires NoDuplicates(scenarios)
    ensures NoDuplicates(SortedPool(scenarios, sel, rank))
  {
    PoolStaysDistinct(scenarios, sel);
    SampleOrderIsAPreorder(rank);
    SortBySorts(SampleOrder(rank), Pool(scenarios, sel));
    DistinctStaysDistinct(Pool(scenarios, sel), SortedPool(scenarios, sel, rank));
  }

  /** With a cap per domain and none in all: no scenario ordered before a kept one of its domain is
      dropped, unless none of its queries is asked. */
  lemma {:induction false} NoEarlierScenarioIsDropped(scenarios: seq<Scenario>, sel: Selection, rank: string -> nat,
                                   pool: seq<Scenario>, i: nat, j: nat)
    requires sel.perDomain.Some? && sel.perCapability.None? && NoDuplicates(scenarios)
    requires pool == SortedPool(scenarios, sel, rank)
    requires i < j < |pool| && pool[i].domain == pool[j].domain && pool[j] in Capped(pool, sel.perDomain.value)
    ensures Trimmed(pool[i], sel) in Selected(scenarios, sel, rank) || Asked(pool[i].queries, sel) == []
  {
    SortedPoolStaysDistinct(scenarios, sel, rank);
    CappingKeepsTheEarlier(pool, sel.perDomain.value, i, j);
    TrimmedExactlyWhen(Capped(pool, sel.perDomain.value), sel, Trimmed(pool[i], sel));
  }

  lemma {:induction false} PoolCounts(scenarios: seq<Scenario>, sel: Selection, s: Scenario)
    ensures multiset(Pool(scenarios, sel))[s] == if InPool(s, sel) then multiset(scenarios)[s] else 0
    decreases |scenarios|
  {
    if scenarios != [] {
      var before, last := scenarios[..|scenarios| - 1], scenarios[|scenarios| - 1];
      PoolCounts(before, sel, s);
      assert scenarios == before + [last];
    }
  }

  lemma {:induction false} PoolsAgree(a: seq<Scenario>, b: seq<Scenario>, sel: Selection)
    requires multiset(a) == multiset(b)
    ensures multiset(Pool(a, sel)) == multiset(Pool(b, sel))
  {
    forall s
      ensures multiset(Pool(a, sel))[s] == multiset(Pool(b, sel))[s]
    {
      PoolCounts(a, sel, s);
      PoolCounts(b, sel, s);
    }
  }

  lemma PooledIsListed(scenarios: seq<Scenario>, sel: Selection, s: Scenario)
    requires s in Elements(Pool(scenarios, sel))
    ensures s in scenarios
  {
    PoolCounts(scenarios, sel, s);
    assert s in multiset(Pool(scenarios, sel));
    assert s in multiset(scenarios);
  }

  /** The selection is the same whatever order the scenarios stand in their file. */
  lemma SelectionDoesNotDependOnFileOrder(a: seq<Scenario>, b: seq<Scenario>, sel: Selection, rank: string -> nat)
    requires multiset(a) == multiset(b)
    requires forall s, t :: s in a && t in a && rank(s.id) == rank(t.id) ==> s == t
    ensures Selected(a, sel, rank) == Selected(b, sel, rank)
  {
    PoolsAgree(a, b, sel);
    SortedPoolsAgree(a, b, sel, rank);
  }

  lemma {:induction false} SortedPoolsAgree(a: seq<Scenario>, b: seq<Scenario>, sel: Selection, rank: string -> nat)
    requires multiset(Pool(a, sel)) == multiset(Pool(b, sel))
    requires forall s, t :: s in a && t in a && rank(s.id) == rank(t.id) ==> s == t
    ensures SortedPool(a, sel, rank) == SortedPool(b, sel, rank)
  {
    var order, x, y := SampleOrder(rank), SortedPool(a, sel, rank), SortedPool(b, sel, rank);
    SampleOrderIsAPreorder(rank);
    SortBySorts(order, Pool(a, sel));
    SortBySorts(order, Pool(b, sel));
    forall s, t | s in x && t in x && order(s, t) && order(t, s)
      ensures s == t
    {
      assert s in Elements(x) && t in Elements(x);
      PooledIsListed(a, sel, s);
      PooledIsListed(a, sel, t);
    }
    SortedPermutationsAreEqual(order, x, y);
  }
}
