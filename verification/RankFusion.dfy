/** Reciprocal-rank fusion of the retrieval arms' rankings, in both places it is written. */
module RankFusion {
  import opened Common
  import opened Sorting

  /** Each arm's name and its ranked ids, best first. */
  type Arms<Id> = seq<(string, seq<Id>)>

  /** What an arm gives the id at a rank, counted from zero. */
  type Gain = (string, nat) -> real

  function Weight(weights: map<string, real>, name: string): real {
    if name in weights then weights[name] else 1.0
  }

  /** An arm's weight over k plus the one-based rank; an unnamed arm weighs one. */
  function RankGain(weights: map<string, real>, k: nat): Gain {
    (name: string, rank: nat) => Weight(weights, name) / (k + rank + 1) as real
  }

  function Ids<Id>(arms: Arms<Id>): set<Id> {
    set arm, id | arm in arms && id in arm.1 :: id
  }

  /** What one arm gives an id, at every rank it has there. */
  function ArmScore<Id(==)>(gain: Gain, name: string, ranked: seq<Id>, id: Id): real {
    if ranked == [] then 0.0
    else
      var before := ranked[..|ranked| - 1];
      ArmScore(gain, name, before, id) + if ranked[|ranked| - 1] == id then gain(name, |before|) else 0.0
  }

  function Score<Id(==)>(gain: Gain, arms: Arms<Id>, id: Id): real {
    if arms == [] then 0.0
    else
      var last := arms[|arms| - 1];
      Score(gain, arms[..|arms| - 1], id) + ArmScore(gain, last.0, last.1, id)
  }

  function Scores<Id(!new, ==)>(gain: Gain, arms: Arms<Id>): Id -> real {
    id => Score(gain, arms, id)
  }

  /** Higher score first, then the lesser id. */
  predicate Ranks<Id(!new)>(leq: (Id, Id) -> bool, score: Id -> real, x: Id, y: Id) {
    score(x) > score(y) || (score(x) == score(y) && leq(x, y))
  }

  function RankOrder<Id(!new)>(leq: (Id, Id) -> bool, score: Id -> real): (Id, Id) -> bool {
    (x, y) => Ranks(leq, score, x, y)
  }

  lemma RankOrderIsTotal<Id(!new)>(leq: (Id, Id) -> bool, score: Id -> real)
    requires TotalOrder(leq)
    ensures TotalOrder(RankOrder(leq, score))
  {
  }

  /** A fusion: every id of any arm once, by summed score and then by id. */
  ghost predicate Fuses<Id(!new)>(leq: (Id, Id) -> bool, gain: Gain, arms: Arms<Id>, fused: seq<Id>) {
    IsListing(RankOrder(leq, Scores(gain, arms)), Ids(arms), fused)
  }

  ghost predicate IsFusion<Id(!new)>(
      leq: (Id, Id) -> bool, arms: Arms<Id>, weights: map<string, real>, k: nat, fused: seq<Id>)
  {
    Fuses(leq, RankGain(weights, k), arms, fused)
  }

  lemma FusionIsUnique<Id(!new)>(leq: (Id, Id) -> bool, gain: Gain, arms: Arms<Id>, a: seq<Id>, b: seq<Id>)
    requires TotalOrder(leq)
    requires Fuses(leq, gain, arms, a) && Fuses(leq, gain, arms, b)
    ensures a == b
  {
    RankOrderIsTotal(leq, Scores(gain, arms));
    ListingIsUnique(RankOrder(leq, Scores(gain, arms)), Ids(arms), a, b);
  }

  ghost function FusionOf<Id(!new)>(leq: (Id, Id) -> bool, arms: Arms<Id>, weights: map<string, real>, k: nat)
    : (fused: seq<Id>)
    requires TotalOrder(leq)
    ensures IsFusion(leq, arms, weights, k, fused)
  {
    var score := Scores(RankGain(weights, k), arms);
    RankOrderIsTotal(leq, score);
    ListingOf(RankOrder(leq, score), Ids(arms))
  }

  // ---------------------------------------------------------------- the accumulating program

  /** The dict the loops fill: the ids met so far, each with its score so far. */
  ghost predicate Accumulates<Id(!new)>(scores: map<Id, real>, gain: Gain, arms: Arms<Id>) {
    scores.Keys == Ids(arms) && forall id :: id in scores ==> scores[id] == Score(gain, arms, id)
  }

  /** The dict once the first `n` ranks of an arm have been added to what `arms` gave. */
  ghost predicate InArm<Id(!new)>(scores: map<Id, real>, gain: Gain, arms: Arms<Id>, name: string,
                                  ranked: seq<Id>, n: nat)
    requires n <= |ranked|
  {
    && scores.Keys == Ids(arms) + Elements(ranked[..n])
    && forall id :: id in scores ==> scores[id] == Score(gain, arms, id) + ArmScore(gain, name, ranked[..n], id)
  }

  function ScoreIn<Id(!new, ==)>(scores: map<Id, real>): Id -> real {
    id => if id in scores then scores[id] else 0.0
  }

  lemma NextRank<Id(!new)>(scores: map<Id, real>, gain: Gain, arms: Arms<Id>, name: string, ranked: seq<Id>, n: nat)
    requires n < |ranked| && InArm(scores, gain, arms, name, ranked, n)
    ensures InArm(scores[ranked[n] := ScoreIn(scores)(ranked[n]) + gain(name, n)], gain, arms, name, ranked, n + 1)
  {
    var id, before, upTo := ranked[n], ranked[..n], ranked[..n + 1];
    assert upTo[..|upTo| - 1] == before && upTo[|upTo| - 1] == id;
    assert Elements(upTo) == Elements(before) + {id};
    if id !in scores {
      assert id !in Elements(before);
      AbsentFromArm(gain, name, before, id);
      AbsentFromArms(gain, arms, id);
    }
  }

  lemma {:induction false} AbsentFromArm<Id>(gain: Gain, name: string, ranked: seq<Id>, id: Id)
    ensures id !in ranked ==> ArmScore(gain, name, ranked, id) == 0.0
    decreases |ranked|
  {
    if ranked != [] {
      AbsentFromArm(gain, name, ranked[..|ranked| - 1], id);
    }
  }

  lemma {:induction false} AbsentFromArms<Id(!new)>(gain: Gain, arms: Arms<Id>, id: Id)
    requires id !in Ids(arms)
    ensures Score(gain, arms, id) == 0.0
    decreases |arms|
  {
    if arms != [] {
      var before, last := arms[..|arms| - 1], arms[|arms| - 1];
      assert last in arms;
      assert id !in Ids(before);
      AbsentFromArms(gain, before, id);
      AbsentFromArm(gain, last.0, last.1, id);
    }
  }

  lemma ArmJoins<Id(!new)>(scores: map<Id, real>, gain: Gain, arms: Arms<Id>, name: string, ranked: seq<Id>)
    requires InArm(scores, gain, arms, name, ranked, |ranked|)
    ensures Accumulates(scores, gain, arms + [(name, ranked)])
  {
    var all := arms + [(name, ranked)];
    assert ranked[..|ranked|] == ranked;
    assert all[..|all| - 1] == arms && all[|all| - 1] == (name, ranked);
    assert Ids(all) == Ids(arms) + Elements(ranked) by {
      assert forall arm :: arm in all <==> arm in arms || arm == (name, ranked);
    }
  }

  /** The inner loop, for one arm of the general fusion. */
  method AddArm<Id(!new, ==)>(before: map<Id, real>, ghost arms: Arms<Id>, weights: map<string, real>, k: nat,
                              name: string, ranked: seq<Id>)
    returns (scores: map<Id, real>)
    requires Accumulates(before, RankGain(weights, k), arms)
    ensures Accumulates(scores, RankGain(weights, k), arms + [(name, ranked)])
  {
    ghost var gain := RankGain(weights, k);
    var weight := Weight(weights, name);
    scores := before;
    for rank := 0 to |ranked|
      invariant InArm(scores, gain, arms, name, ranked, rank)
    {
      var id := ranked[rank];
      NextRank(scores, gain, arms, name, ranked, rank);
      scores := scores[id := ScoreIn(scores)(id) + weight / (k + rank + 1) as real];
    }
    ArmJoins(scores, gain, arms, name, ranked);
  }

  /** Adds every arm into one dict, then sorts it by score and by id. */
  method Fuse<Id(!new, ==)>(leq: (Id, Id) -> bool, arms: Arms<Id>, weights: map<string, real>, k: nat)
    returns (fused: seq<Id>)
    requires TotalOrder(leq)
    ensures IsFusion(leq, arms, weights, k, fused)
  {
    var scores: map<Id, real> := map[];
    for i := 0 to |arms|
      invariant Accumulates(scores, RankGain(weights, k), arms[..i])
    {
      scores := AddArm(scores, arms[..i], weights, k, arms[i].0, arms[i].1);
      assert arms[..i] + [arms[i]] == arms[..i + 1];
    }
    assert arms[..|arms|] == arms;
    RankOrderIsTotal(leq, ScoreIn(scores));
    fused := SortedListing(RankOrder(leq, ScoreIn(scores)), scores.Keys);
    AccumulatedOrderFuses(leq, RankGain(weights, k), arms, scores, fused);
  }

  lemma AccumulatedOrderFuses<Id(!new)>(leq: (Id, Id) -> bool, gain: Gain, arms: Arms<Id>,
                                        scores: map<Id, real>, fused: seq<Id>)
    requires Accumulates(scores, gain, arms)
    requires IsListing(RankOrder(leq, ScoreIn(scores)), scores.Keys, fused)
    ensures Fuses(leq, gain, arms, fused)
  {
    forall id
      ensures ScoreIn(scores)(id) == Scores(gain, arms)(id)
    {
      if id !in scores {
        AbsentFromArms(gain, arms, id);
      }
    }
    SameComparisonsSameListing(leq, ScoreIn(scores), Scores(gain, arms), scores.Keys, fused);
  }

  lemma SameComparisonsSameListing<Id(!new)>(leq: (Id, Id) -> bool, a: Id -> real, b: Id -> real,
                                             keys: set<Id>, listing: seq<Id>)
    requires forall x, y :: a(x) > a(y) <==> b(x) > b(y)
    ensures IsListing(RankOrder(leq, a), keys, listing) <==> IsListing(RankOrder(leq, b), keys, listing)
  {
    forall x, y
      ensures Ranks(leq, a, x, y) <==> Ranks(leq, b, x, y)
    {
      assert a(x) > a(y) <==> b(x) > b(y);
      assert a(y) > a(x) <==> b(y) > b(x);
    }
  }

  // ---------------------------------------------------------------- scores and their order

  /** A higher score comes first, and of equal scores the lesser id. */
  lemma FusedInOrder<Id(!new)>(
      leq: (Id, Id) -> bool, arms: Arms<Id>, weights: map<string, real>, k: nat, fused: seq<Id>, i: nat, j: nat)
    requires IsFusion(leq, arms, weights, k, fused) && i < j < |fused|
    ensures Score(RankGain(weights, k), arms, fused[i]) >= Score(RankGain(weights, k), arms, fused[j])
    ensures Score(RankGain(weights, k), arms, fused[i]) == Score(RankGain(weights, k), arms, fused[j]) ==>
              leq(fused[i], fused[j])
  {
    assert RankOrder(leq, Scores(RankGain(weights, k), arms))(fused[i], fused[j]);
  }

  /** The ids are those of the arms, each once. */
  lemma FusedExactlyOnce<Id(!new)>(
      leq: (Id, Id) -> bool, arms: Arms<Id>, weights: map<string, real>, k: nat, fused: seq<Id>, id: Id)
    requires IsFusion(leq, arms, weights, k, fused)
    ensures id in fused <==> exists arm :: arm in arms && id in arm.1
    ensures forall i, j :: 0 <= i < j < |fused| ==> fused[i] != fused[j]
  {
    assert id in fused <==> id in Elements(fused);
    if arm :| arm in arms && id in arm.1 {
      assert id in Ids(arms);
    }
  }

  /** A score adds up over the arms: of an arm that ranks an id once, its weight, or one if it has none, over
      k plus the rank counted from one; of one that does not rank it, nothing. */
  lemma ScoreAddsUp<Id(!new)>(arms: Arms<Id>, arm: (string, seq<Id>), weights: map<string, real>, k: nat, id: Id)
    ensures Score(RankGain(weights, k), [], id) == 0.0
    ensures id !in arm.1 ==>
              Score(RankGain(weights, k), arms + [arm], id) == Score(RankGain(weights, k), arms, id)
    ensures forall i :: 0 <= i < |arm.1| && arm.1[i] == id && NoDuplicates(arm.1) ==>
              Score(RankGain(weights, k), arms + [arm], id) ==
              Score(RankGain(weights, k), arms, id)
              + (if arm.0 in weights then weights[arm.0] else 1.0) / (k + (i + 1)) as real
  {
    var gain := RankGain(weights, k);
    assert (arms + [arm])[..|arms|] == arms;
    assert Score(gain, arms + [arm], id) == Score(gain, arms, id) + ArmScore(gain, arm.0, arm.1, id);
    AbsentFromArm(gain, arm.0, arm.1, id);
    forall i | 0 <= i < |arm.1| && arm.1[i] == id && NoDuplicates(arm.1)
      ensures ArmScore(gain, arm.0, arm.1, id) == gain(arm.0, i)
    {
      ScoreAtItsRank(gain, arm.0, arm.1, i);
    }
  }

  // ---------------------------------------------------------------- dominance

  /** Each arm that lists `y` lists `x` before it. */
  ghost predicate Leads<Id>(ranked: seq<Id>, x: Id, y: Id) {
    forall j :: 0 <= j < |ranked| && ranked[j] == y ==> exists i :: 0 <= i < j && ranked[i] == x
  }

  /** Positive, and more for an earlier rank. */
  ghost predicate FavoursEarlier(gain: Gain, name: string) {
    forall i: nat, j: nat :: i < j ==> gain(name, i) > gain(name, j) > 0.0
  }

  lemma {:induction false} ScoreAtItsRank<Id>(gain: Gain, name: string, ranked: seq<Id>, i: nat)
    requires NoDuplicates(ranked) && i < |ranked|
    ensures ArmScore(gain, name, ranked, ranked[i]) == gain(name, i)
    decreases |ranked|
  {
    var before := ranked[..|ranked| - 1];
    if i < |before| {
      ScoreAtItsRank(gain, name, before, i);
    } else {
      AbsentFromArm(gain, name, before, ranked[i]);
    }
  }

  lemma LeaderScoresMore<Id(!new)>(gain: Gain, name: string, ranked: seq<Id>, x: Id, y: Id)
    requires NoDuplicates(ranked) && FavoursEarlier(gain, name) && Leads(ranked, x, y)
    ensures ArmScore(gain, name, ranked, x) >= ArmScore(gain, name, ranked, y)
    ensures y in ranked ==> ArmScore(gain, name, ranked, x) > ArmScore(gain, name, ranked, y)
  {
    if y in ranked {
      var j :| 0 <= j < |ranked| && ranked[j] == y;
      var i :| 0 <= i < j && ranked[i] == x;
      ScoreAtItsRank(gain, name, ranked, i);
      ScoreAtItsRank(gain, name, ranked, j);
      assert gain(name, i) > gain(name, j);
    } else {
      AbsentFromArm(gain, name, ranked, y);
      AbsentFromArm(gain, name, ranked, x);
      if x in ranked {
        var i :| 0 <= i < |ranked| && ranked[i] == x;
        ScoreAtItsRank(gain, name, ranked, i);
        assert gain(name, i) > gain(name, i + 1);
      }
    }
  }

  ghost predicate LeadsEverywhere<Id(!new)>(gain: Gain, arms: Arms<Id>, x: Id, y: Id) {
    forall arm {:trigger arm in arms} :: arm in arms ==>
      NoDuplicates(arm.1) && FavoursEarlier(gain, arm.0) && Leads(arm.1, x, y)
  }

  lemma {:induction false} LeaderTotalsMore<Id(!new)>(gain: Gain, arms: Arms<Id>, x: Id, y: Id)
    requires LeadsEverywhere(gain, arms, x, y)
    ensures Score(gain, arms, x) >= Score(gain, arms, y)
    ensures y in Ids(arms) ==> Score(gain, arms, x) > Score(gain, arms, y)
    decreases |arms|
  {
    if arms != [] {
      var before, last := arms[..|arms| - 1], arms[|arms| - 1];
      assert forall arm :: arm in before ==> arm in arms;
      LeaderTotalsMore(gain, before, x, y);
      assert last in arms;
      LeaderScoresMore(gain, last.0, last.1, x, y);
      assert forall arm :: arm in arms <==> arm in before || arm == last;
    }
  }

  lemma LesserDivisor(x: real, a: real, b: real)
    requires x > 0.0 && 0.0 < a < b
    ensures x / a > x / b > 0.0
  {
    var p, q := x / a, x / b;
    assert p * a == x && q * b == x;
    assert q > 0.0;
    assert q * a < q * b;
    assert (p - q) * a > 0.0;
  }

  lemma PositiveWeightFavoursEarlier(weights: map<string, real>, k: nat, name: string)
    requires Weight(weights, name) > 0.0
    ensures FavoursEarlier(RankGain(weights, k), name)
  {
    forall i: nat, j: nat | i < j
      ensures RankGain(weights, k)(name, i) > RankGain(weights, k)(name, j) > 0.0
    {
      LesserDivisor(Weight(weights, name), (k + i + 1) as real, (k + j + 1) as real);
    }
  }

  /** An id ranked earlier than another in every arm that lists the other is fused before it. */
  lemma AheadInEveryArmIsFusedAhead<Id(!new)>(
      leq: (Id, Id) -> bool, arms: Arms<Id>, weights: map<string, real>, k: nat, fused: seq<Id>, i: nat, j: nat)
    requires IsFusion(leq, arms, weights, k, fused)
    requires i < |fused| && j < |fused| && i != j
    requires forall arm {:trigger arm in arms} :: arm in arms ==>
               NoDuplicates(arm.1) && Weight(weights, arm.0) > 0.0 && Leads(arm.1, fused[i], fused[j])
    ensures i < j
  {
    var gain := RankGain(weights, k);
    forall arm | arm in arms
      ensures FavoursEarlier(gain, arm.0)
    {
      PositiveWeightFavoursEarlier(weights, k, arm.0);
    }
    assert fused[j] in Elements(fused);
    LeaderTotalsMore(gain, arms, fused[i], fused[j]);
    assert !RankOrder(leq, Scores(gain, arms))(fused[j], fused[i]);
  }

  // ---------------------------------------------------------------- scaling

  ghost predicate Adds(times: real -> real, x: real, y: real) {
    times(x + y) == times(x) + times(y)
  }

  ghost predicate Additive(times: real -> real) {
    times(0.0) == 0.0 && forall x, y :: Adds(times, x, y)
  }

  lemma {:induction false} ScaledArmScore<Id>(gain: Gain, scaled: Gain, times: real -> real,
                                              name: string, ranked: seq<Id>, id: Id)
    requires Additive(times) && forall rank: nat :: scaled(name, rank) == times(gain(name, rank))
    ensures ArmScore(scaled, name, ranked, id) == times(ArmScore(gain, name, ranked, id))
    decreases |ranked|
  {
    if ranked != [] {
      var before := ranked[..|ranked| - 1];
      ScaledArmScore(gain, scaled, times, name, before, id);
      assert Adds(times, ArmScore(gain, name, before, id), gain(name, |before|));
    }
  }

  lemma {:induction false} ScaledScore<Id(!new)>(gain: Gain, scaled: Gain, times: real -> real, arms: Arms<Id>, id: Id)
    requires Additive(times)
    requires forall arm, rank: nat {:trigger arm in arms, scaled(arm.0, rank)} ::
               arm in arms ==> scaled(arm.0, rank) == times(gain(arm.0, rank))
    ensures Score(scaled, arms, id) == times(Score(gain, arms, id))
    decreases |arms|
  {
    if arms != [] {
      var before, last := arms[..|arms| - 1], arms[|arms| - 1];
      assert last in arms;
      assert forall arm :: arm in before ==> arm in arms;
      ScaledScore(gain, scaled, times, before, id);
      ScaledArmScore(gain, scaled, times, last.0, last.1, id);
      assert Adds(times, Score(gain, before, id), ArmScore(gain, last.0, last.1, id));
    }
  }

  function Times(c: real): real -> real {
    x => c * x
  }

  lemma TimesIsAdditive(c: real)
    ensures Additive(Times(c))
  {
    forall x, y
      ensures Adds(Times(c), x, y)
    {
      assert c * (x + y) == c * x + c * y;
    }
  }

  lemma ScaledComparison(c: real, x: real, y: real)
    requires c > 0.0
    ensures Times(c)(x) > Times(c)(y) <==> x > y
  {
  }

  lemma ScaledGainsFuseTheSame<Id(!new)>(
      leq: (Id, Id) -> bool, gain: Gain, scaled: Gain, c: real, arms: Arms<Id>, fused: seq<Id>)
    requires c > 0.0
    requires forall arm, rank: nat {:trigger arm in arms, scaled(arm.0, rank)} ::
               arm in arms ==> scaled(arm.0, rank) == Times(c)(gain(arm.0, rank))
    ensures Fuses(leq, gain, arms, fused) <==> Fuses(leq, scaled, arms, fused)
  {
    var a, b := Scores(gain, arms), Scores(scaled, arms);
    TimesIsAdditive(c);
    forall x, y
      ensures a(x) > a(y) <==> b(x) > b(y)
    {
      ScaledScore(gain, scaled, Times(c), arms, x);
      ScaledScore(gain, scaled, Times(c), arms, y);
      ScaledComparison(c, a(x), a(y));
    }
    SameComparisonsSameListing(leq, a, b, Ids(arms), fused);
  }

  lemma ScaledQuotient(c: real, w: real, n: real, sw: real)
    requires sw == c * w && n > 0.0
    ensures sw / n == c * (w / n)
  {
  }

  /** Scaling what every arm weighs by the same positive constant changes nothing. */
  lemma ScalingChangesNothing<Id(!new)>(
      leq: (Id, Id) -> bool, arms: Arms<Id>, weights: map<string, real>, scaled: map<string, real>, c: real, k: nat,
      fused: seq<Id>)
    requires c > 0.0
    requires forall arm {:trigger arm in arms} :: arm in arms ==> Weight(scaled, arm.0) == c * Weight(weights, arm.0)
    ensures IsFusion(leq, arms, weights, k, fused) <==> IsFusion(leq, arms, scaled, k, fused)
  {
    var gain, scaledGain := RankGain(weights, k), RankGain(scaled, k);
    forall arm, rank: nat | arm in arms
      ensures scaledGain(arm.0, rank) == Times(c)(gain(arm.0, rank))
    {
      ScaledQuotient(c, Weight(weights, arm.0), (k + rank + 1) as real, Weight(scaled, arm.0));
    }
    ScaledGainsFuseTheSame(leq, gain, scaledGain, c, arms, fused);
  }

  function Scaled(weights: map<string, real>, c: real): map<string, real> {
    map name | name in weights :: c * weights[name]
  }

  lemma ScalingNamedWeights<Id(!new)>(
      leq: (Id, Id) -> bool, arms: Arms<Id>, weights: map<string, real>, c: real, k: nat, fused: seq<Id>)
    requires c > 0.0
    requires forall arm :: arm in arms ==> arm.0 in weights
    ensures IsFusion(leq, arms, weights, k, fused) <==> IsFusion(leq, arms, Scaled(weights, c), k, fused)
  {
    ScalingChangesNothing(leq, arms, weights, Scaled(weights, c), c, k, fused);
  }

  // ---------------------------------------------------------------- the dense benchmark's own fusion

  predicate IntLeq(x: int, y: int) { x <= y }

  function TwoArms(dense: seq<int>, sparse: seq<int>): Arms<int> {
    [("dense", dense), ("sparse", sparse)]
  }

  /** Two arms at weight one, ranks counted from one, the first ten kept. */
  method FuseDense(dense: seq<int>, sparse: seq<int>, k: nat) returns (top: seq<int>)
    ensures exists fused ::
              IsFusion(IntLeq, [("dense", dense), ("sparse", sparse)], map[], k, fused) && top == Take(fused, 10)
  {
    var scores: map<int, real> := map[];
    scores := AddArmFromOne(scores, [], "dense", dense, k);
    scores := AddArmFromOne(scores, [("dense", dense)], "sparse", sparse, k);
    assert [] + [("dense", dense)] + [("sparse", sparse)] == TwoArms(dense, sparse);
    RankOrderIsTotal(IntLeq, ScoreIn(scores));
    var fused := SortedListing(RankOrder(IntLeq, ScoreIn(scores)), scores.Keys);
    AccumulatedOrderFuses(IntLeq, RankGain(map[], k), TwoArms(dense, sparse), scores, fused);
    top := Take(fused, 10);
  }

  method AddArmFromOne(before: map<int, real>, ghost arms: Arms<int>, ghost name: string, arm: seq<int>, k: nat)
    returns (scores: map<int, real>)
    requires Accumulates(before, RankGain(map[], k), arms)
    ensures Accumulates(scores, RankGain(map[], k), arms + [(name, arm)])
  {
    ghost var gain := RankGain(map[], k);
    scores := before;
    var rank := 1;
    while rank <= |arm|
      invariant 1 <= rank <= |arm| + 1
      invariant InArm(scores, gain, arms, name, arm, rank - 1)
    {
      var document := arm[rank - 1];
      NextRank(scores, gain, arms, name, arm, rank - 1);
      assert gain(name, rank - 1) == 1.0 / (k + rank) as real;
      scores := scores[document := ScoreIn(scores)(document) + 1.0 / (k + rank) as real];
      rank := rank + 1;
    }
    ArmJoins(scores, gain, arms, name, arm);
  }

  /** The two implementations agree: at any equal weights the general fusion starts with the ten
      documents the dense benchmark keeps. */
  lemma BothFusionsAgree(dense: seq<int>, sparse: seq<int>, weights: map<string, real>, k: nat,
                         fused: seq<int>, own: seq<int>)
    requires Weight(weights, "dense") == Weight(weights, "sparse") > 0.0
    requires IsFusion(IntLeq, TwoArms(dense, sparse), weights, k, fused)
    requires IsFusion(IntLeq, TwoArms(dense, sparse), map[], k, own)
    ensures Take(own, 10) == Take(fused, 10)
  {
    var arms := TwoArms(dense, sparse);
    ScalingChangesNothing(IntLeq, arms, map[], weights, Weight(weights, "dense"), k, own);
    FusionIsUnique(IntLeq, RankGain(weights, k), arms, own, fused);
  }
}
