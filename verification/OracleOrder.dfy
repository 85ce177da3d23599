/** The reordering ceiling: every gold carrier first, stably. What it covers, and exactly when no
    other order of the same pool covers more. */
module OracleOrder {
  import opened Common
  import opened Sorting
  import opened WeightFit

  /** A memory's id, to the turns it carries. */
  type Carriers = map<string, seq<string>>

  predicate Carries(carriers: Carriers, id: string) {
    id in carriers && carriers[id] != []
  }

  function Carrying(carriers: Carriers): string -> bool {
    id => Carries(carriers, id)
  }

  function Not(p: string -> bool): string -> bool {
    id => !p(id)
  }

  /** The same candidates, every carrier first. */
  function Oracle(order: seq<string>, carriers: Carriers): seq<string> {
    Filter(Carrying(carriers), order) + Filter(Not(Carrying(carriers)), order)
  }

  /** The gold turns that the first `depth` ids carry. */
  function Covered(order: seq<string>, gold: set<string>, carriers: Carriers, depth: nat): set<string> {
    gold * FoundIn(Take(order, depth), carriers)
  }

  /** What is reported at a depth; no gold turn at all is never complete. */
  function CoverageAt(order: seq<string>, gold: set<string>, carriers: Carriers, depth: nat): (real, bool) {
    (Recall(order, gold, carriers, depth), gold != {} && Complete(order, gold, carriers, depth))
  }

  /** Recall is the hits' share of the gold; complete means that there is gold and all of it is hit. */
  lemma CoverageIsOfTheHits(hits: set<string>, order: seq<string>, gold: set<string>, carriers: Carriers, depth: nat)
    requires AreHits(hits, order, gold, carriers, depth)
    ensures hits == Covered(order, gold, carriers, depth)
    ensures CoverageAt(order, gold, carriers, depth).1 <==> gold != {} && hits == gold
    ensures CoverageAt(order, gold, carriers, depth).0 == if gold == {} then 0.0 else |hits| as real / |gold| as real
  {
    HitsAreFound(hits, order, gold, carriers, depth);
    CoverageCounts(hits, order, gold, carriers, depth);
  }

  lemma CoveringMoreScoresMore(a: seq<string>, b: seq<string>, gold: set<string>, carriers: Carriers, depth: nat)
    requires Covered(a, gold, carriers, depth) <= Covered(b, gold, carriers, depth)
    ensures CoverageAt(a, gold, carriers, depth).0 <= CoverageAt(b, gold, carriers, depth).0
    ensures CoverageAt(a, gold, carriers, depth).1 ==> CoverageAt(b, gold, carriers, depth).1
  {
    var few, many := Covered(a, gold, carriers, depth), Covered(b, gold, carriers, depth);
    SubsetIsNoLarger(few, many);
    if gold != {} {
      QuotientGrows(|few| as real, |many| as real, |gold| as real);
    }
    if Complete(a, gold, carriers, depth) {
      assert gold == few;
    }
  }

  // ---------------------------------------------------------------- a stable permutation

  lemma {:induction false} FilterKeeps(p: string -> bool, order: seq<string>)
    ensures forall id :: id in Filter(p, order) <==> id in order && p(id)
    ensures |Filter(p, order)| <= |order|
    decreases |order|
  {
    if order != [] {
      var before, last := order[..|order| - 1], order[|order| - 1];
      FilterKeeps(p, before);
      assert order == before + [last];
    }
  }

  lemma {:induction false} FilterSplits(p: string -> bool, order: seq<string>)
    ensures multiset(Filter(p, order)) + multiset(Filter(Not(p), order)) == multiset(order)
    decreases |order|
  {
    if order != [] {
      var before, last := order[..|order| - 1], order[|order| - 1];
      FilterSplits(p, before);
      assert order == before + [last];
    }
  }

  lemma {:induction false} FilterOfUniform(p: string -> bool, s: seq<string>)
    ensures (forall id :: id in s ==> p(id)) ==> Filter(p, s) == s
    ensures (forall id :: id in s ==> !p(id)) ==> Filter(p, s) == []
    decreases |s|
  {
    if s != [] {
      FilterOfUniform(p, s[..|s| - 1]);
      assert s == s[..|s| - 1] + [s[|s| - 1]];
    }
  }

  lemma CarriersOfOracle(p: string -> bool, q: string -> bool, order: seq<string>)
    requires forall id :: q(id) == !p(id)
    ensures Filter(p, Filter(p, order) + Filter(q, order)) == Filter(p, order)
  {
    var a, b := Filter(p, order), Filter(q, order);
    FilterKeeps(p, order);
    FilterKeeps(q, order);
    FilterOfConcat(p, a, b);
    FilterOfUniform(p, a);
    FilterOfUniform(p, b);
  }

  lemma RestOfOracle(p: string -> bool, q: string -> bool, order: seq<string>)
    requires forall id :: q(id) == !p(id)
    ensures Filter(q, Filter(p, order) + Filter(q, order)) == Filter(q, order)
  {
    var a, b := Filter(p, order), Filter(q, order);
    FilterKeeps(p, order);
    FilterKeeps(q, order);
    FilterOfConcat(q, a, b);
    FilterOfUniform(q, a);
    FilterOfUniform(q, b);
  }

  /** A reordering of the pool, which keeps the order within the carriers and within the rest. */
  lemma OracleIsAStablePermutation(order: seq<string>, carriers: Carriers)
    ensures multiset(Oracle(order, carriers)) == multiset(order)
    ensures Filter(Carrying(carriers), Oracle(order, carriers)) == Filter(Carrying(carriers), order)
    ensures Filter(Not(Carrying(carriers)), Oracle(order, carriers)) == Filter(Not(Carrying(carriers)), order)
  {
    FilterSplits(Carrying(carriers), order);
    CarriersOfOracle(Carrying(carriers), Not(Carrying(carriers)), order);
    RestOfOracle(Carrying(carriers), Not(Carrying(carriers)), order);
  }

  /** Every id that carries something comes before every id that does not. */
  lemma CarriersComeFirst(order: seq<string>, carriers: Carriers, i: nat, j: nat)
    requires i < |Oracle(order, carriers)| && j < |Oracle(order, carriers)|
    requires var id := Oracle(order, carriers)[i]; id in carriers && carriers[id] != []
    requires var id := Oracle(order, carriers)[j]; id !in carriers || carriers[id] == []
    ensures i < j
  {
    FilterKeeps(Carrying(carriers), order);
    FilterKeeps(Not(Carrying(carriers)), order);
    var a, b := Filter(Carrying(carriers), order), Filter(Not(Carrying(carriers)), order);
    forall n | 0 <= n < |a|
      ensures Carrying(carriers)(a[n])
    {
      assert a[n] in a;
    }
    forall n | 0 <= n < |b|
      ensures Not(Carrying(carriers))(b[n])
    {
      assert b[n] in b;
    }
  }

  // ---------------------------------------------------------------- at least the order it starts from

  lemma {:induction false} CarriersMoveForward(p: string -> bool, order: seq<string>, i: nat)
    requires i < |order| && p(order[i])
    ensures exists j :: 0 <= j <= i && j < |Filter(p, order)| && Filter(p, order)[j] == order[i]
    decreases |order|
  {
    var before := order[..|order| - 1];
    FilterKeeps(p, before);
    if i < |before| {
      CarriersMoveForward(p, before, i);
      var j :| 0 <= j <= i && j < |Filter(p, before)| && Filter(p, before)[j] == before[i];
      assert Filter(p, order)[j] == order[i];
    } else {
      assert Filter(p, order)[|Filter(p, before)|] == order[i];
    }
  }

  lemma TurnIsFound(order: seq<string>, carriers: Carriers, depth: nat, i: nat, turn: string)
    requires i < |order| && i < depth && order[i] in carriers && turn in carriers[order[i]]
    ensures turn in FoundIn(Take(order, depth), carriers)
  {
    assert Take(order, depth)[i] == order[i];
  }

  /** At every depth the oracle covers every turn the order it starts from does. */
  lemma OracleCoversAtLeastItsStart(order: seq<string>, gold: set<string>, carriers: Carriers, depth: nat)
    ensures Covered(order, gold, carriers, depth) <= Covered(Oracle(order, carriers), gold, carriers, depth)
  {
    var p := Carrying(carriers);
    forall turn | turn in Covered(order, gold, carriers, depth)
      ensures turn in Covered(Oracle(order, carriers), gold, carriers, depth)
    {
      var id :| id in Take(order, depth) && id in carriers && turn in carriers[id];
      var i :| 0 <= i < |Take(order, depth)| && Take(order, depth)[i] == id;
      CarriersMoveForward(p, order, i);
      var j :| 0 <= j <= i && j < |Filter(p, order)| && Filter(p, order)[j] == id;
      assert Oracle(order, carriers)[j] == id;
      TurnIsFound(Oracle(order, carriers), carriers, depth, j, turn);
    }
  }

  // ---------------------------------------------------------------- the ceiling

  /** Of the pool, exactly the ids of `carrying` carry turns, and every turn they carry is gold. What ids
      outside the pool carry does not matter. */
  ghost predicate CarriesGold(order: seq<string>, carriers: Carriers, carrying: set<string>, gold: set<string>) {
    && (forall id :: id in order ==> (Carries(carriers, id) <==> id in carrying))
    && (forall id, turn :: id in order && id in carriers && turn in carriers[id] ==> turn in gold)
  }

  lemma {:induction false} DistinctFilter(p: string -> bool, order: seq<string>)
    requires NoDuplicates(order)
    ensures NoDuplicates(Filter(p, order))
    decreases |order|
  {
    if order != [] {
      var before := order[..|order| - 1];
      DistinctFilter(p, before);
      FilterKeeps(p, before);
      assert order[|order| - 1] !in before;
    }
  }

  lemma CarrierCount(order: seq<string>, carriers: Carriers, carrying: set<string>, gold: set<string>)
    requires NoDuplicates(order) && carrying <= Elements(order) && CarriesGold(order, carriers, carrying, gold)
    ensures |Filter(Carrying(carriers), order)| == |carrying|
    ensures Elements(Filter(Carrying(carriers), order)) == carrying
  {
    var p := Carrying(carriers);
    FilterKeeps(p, order);
    DistinctFilter(p, order);
    forall id
      ensures id in Filter(p, order) <==> id in carrying
    {
      assert id in carrying ==> id in Elements(order);
    }
    assert Elements(Filter(p, order)) == carrying;
    DistinctCount(Filter(p, order));
  }

  /** With room for every carrier of the pool, or a single gold turn to find, the oracle covers whatever any
      order of its pool covers. */
  lemma OracleIsTheCeiling(order: seq<string>, carriers: Carriers, carrying: set<string>, gold: set<string>,
                           depth: nat, other: seq<string>)
    requires NoDuplicates(order) && carrying <= Elements(order) && CarriesGold(order, carriers, carrying, gold)
    requires multiset(other) == multiset(order)
    requires depth == 0 || |carrying| <= depth || |gold| <= 1
    ensures Covered(other, gold, carriers, depth) <= Covered(Oracle(order, carriers), gold, carriers, depth)
  {
    var top := Filter(Carrying(carriers), order);
    var oracle := Oracle(order, carriers);
    CarrierCount(order, carriers, carrying, gold);
    forall turn | turn in Covered(other, gold, carriers, depth)
      ensures turn in Covered(oracle, gold, carriers, depth)
    {
      var id :| id in Take(other, depth) && id in carriers && turn in carriers[id];
      assert id in multiset(other) && id in order;
      assert Carries(carriers, id) && id in Elements(top);
      if |carrying| <= depth {
        var j :| 0 <= j < |top| && top[j] == id;
        assert oracle[j] == id;
        TurnIsFound(oracle, carriers, depth, j, turn);
      } else {
        assert Carries(carriers, top[0]) by {
          assert top[0] in Elements(top) && top[0] in order;
        }
        var first := carriers[top[0]][0];
        assert first in gold && turn in gold;
        OneElement(gold, first, turn);
        assert oracle[0] == top[0];
        TurnIsFound(oracle, carriers, depth, 0, turn);
      }
    }
  }

  lemma OneElement<T>(s: set<T>, x: T, y: T)
    requires |s| <= 1 && x in s && y in s
    ensures x == y
  {
    assert x != y ==> {x, y} <= s;
    assert s == {x, y} + (s - {x, y});
  }

  /** Otherwise some assignment of gold turns to the same carriers lets another order cover more: one
      carrier below the cut carries what all those above it miss. */
  lemma TheCeilingCanBeBeaten(order: seq<string>, carrying: set<string>, gold: set<string>, depth: nat)
    returns (carriers: Carriers, other: seq<string>)
    requires NoDuplicates(order) && carrying <= Elements(order)
    requires 0 < depth < |carrying| && |gold| > 1
    ensures CarriesGold(order, carriers, carrying, gold) && multiset(other) == multiset(order)
    ensures |Covered(other, gold, carriers, depth)| > |Covered(Oracle(order, carriers), gold, carriers, depth)|
  {
    var g :| g in gold;
    var h := SomeOther(gold, g);
    var plain: Carriers := map id | id in carrying :: [g];
    CarrierCount(order, plain, carrying, gold);
    var top := Filter(Carrying(plain), order);
    var below := top[depth];
    carriers := plain[below := [g, h]];
    assert below in Elements(top);
    SameFilter(Carrying(plain), Carrying(carriers), order);
    DistinctFilter(Carrying(plain), order);
    OracleFindsOnly(order, carriers, top, gold, depth, g);
    FilterKeeps(Carrying(plain), order);
    other := MovedToFront(order, below);
    FrontCarrierIsCovered(other, carriers, gold, depth, g, h);
  }

  lemma MovedToFront(order: seq<string>, id: string) returns (other: seq<string>)
    requires id in order
    ensures multiset(other) == multiset(order) && other != [] && other[0] == id
  {
    var i :| 0 <= i < |order| && order[i] == id;
    other := [id] + (order[..i] + order[i + 1..]);
    assert order == order[..i] + [id] + order[i + 1..];
  }

  lemma FrontCarrierIsCovered(other: seq<string>, carriers: Carriers, gold: set<string>, depth: nat,
                              g: string, h: string)
    requires other != [] && depth > 0 && other[0] in carriers && carriers[other[0]] == [g, h]
    requires g in gold && h in gold && g != h
    ensures |Covered(other, gold, carriers, depth)| >= 2
  {
    assert [g, h][0] == g && [g, h][1] == h;
    TurnIsFound(other, carriers, depth, 0, g);
    TurnIsFound(other, carriers, depth, 0, h);
    var covered := Covered(other, gold, carriers, depth);
    assert covered == {g, h} + (covered - {g, h});
  }

  lemma SomeOther<T>(s: set<T>, x: T) returns (y: T)
    requires |s| > 1 && x in s
    ensures y in s && y != x
  {
    assert |s - {x}| == |s| - 1;
    y :| y in s - {x};
  }

  lemma {:induction false} SameFilter(p: string -> bool, q: string -> bool, order: seq<string>)
    requires forall id :: p(id) == q(id)
    ensures Filter(p, order) == Filter(q, order)
    decreases |order|
  {
    if order != [] {
      SameFilter(p, q, order[..|order| - 1]);
    }
  }

  lemma OracleFindsOnly(order: seq<string>, carriers: Carriers, top: seq<string>, gold: set<string>,
                        depth: nat, g: string)
    requires top == Filter(Carrying(carriers), order) && NoDuplicates(top) && depth < |top|
    requires forall id :: id in carriers && id != top[depth] ==> carriers[id] == [g]
    ensures |Covered(Oracle(order, carriers), gold, carriers, depth)| <= 1
  {
    var oracle := Oracle(order, carriers);
    assert Take(oracle, depth) == top[..depth];
    assert Covered(oracle, gold, carriers, depth) <= {g} by {
      forall id | id in top[..depth] && id in carriers
        ensures carriers[id] == [g]
      {
        var j :| 0 <= j < depth && top[j] == id;
      }
    }
    var covered := Covered(oracle, gold, carriers, depth);
    assert {g} == covered + ({g} - covered);
  }

  /** `other` is an order of the same pool that covers more than the oracle. */
  ghost predicate Beats(other: seq<string>, order: seq<string>, gold: set<string>, carriers: Carriers, depth: nat) {
    && multiset(other) == multiset(order)
    && |Covered(other, gold, carriers, depth)| > |Covered(Oracle(order, carriers), gold, carriers, depth)|
  }

  /** No order beats the oracle, whatever gold turns each of the carriers carries. */
  ghost predicate IsCeiling(order: seq<string>, carrying: set<string>, gold: set<string>, depth: nat) {
    forall carriers, other ::
      CarriesGold(order, carriers, carrying, gold) ==> !Beats(other, order, gold, carriers, depth)
  }

  /** The stated ceiling, exactly: it holds if and only if nothing is read, every carrier of the pool fits
      in the depth, or there is at most one gold turn. */
  lemma TheCeilingHoldsExactlyWhen(order: seq<string>, carrying: set<string>, gold: set<string>, depth: nat)
    requires NoDuplicates(order) && carrying <= Elements(order)
    ensures IsCeiling(order, carrying, gold, depth) <==> depth == 0 || |carrying| <= depth || |gold| <= 1
  {
    if depth == 0 || |carrying| <= depth || |gold| <= 1 {
      forall carriers, other | CarriesGold(order, carriers, carrying, gold) && multiset(other) == multiset(order)
        ensures !Beats(other, order, gold, carriers, depth)
      {
        OracleIsTheCeiling(order, carriers, carrying, gold, depth, other);
        SubsetIsNoLarger(Covered(other, gold, carriers, depth),
                         Covered(Oracle(order, carriers), gold, carriers, depth));
      }
    } else {
      var carriers, other := TheCeilingCanBeBeaten(order, carrying, gold, depth);
      assert Beats(other, order, gold, carriers, depth);
    }
  }
}
