/** Exactly when scaling the weights dict leaves every fusion as it is. An arm the weights do not name
    keeps weight one, so scaling the others moves them against it. */
module FusionScaling {
  import opened Sorting
  import opened RankFusion

  function NamesOf<Id>(arms: Arms<Id>): seq<string> {
    seq(|arms|, i requires 0 <= i < |arms| => arms[i].0)
  }

  ghost predicate FusesAlike<Id(!new)>(
      leq: (Id, Id) -> bool, arms: Arms<Id>, weights: map<string, real>, scaled: map<string, real>, k: nat)
  {
    forall fused :: IsFusion(leq, arms, weights, k, fused) <==> IsFusion(leq, arms, scaled, k, fused)
  }

  /** Whatever the arms of these names rank, scaling the weights by `c` fuses it the same. */
  ghost predicate ScalingIsNeutral<Id(!new)>(
      leq: (Id, Id) -> bool, names: seq<string>, weights: map<string, real>, c: real, k: nat)
  {
    forall arms: Arms<Id> :: NamesOf(arms) == names ==> FusesAlike(leq, arms, weights, Scaled(weights, c), k)
  }

  /** Some named arm that weighs anything stands beside an arm that is not named. */
  predicate Mixes(names: seq<string>, weights: map<string, real>) {
    && (exists name :: name in names && name in weights && weights[name] != 0.0)
    && (exists name :: name in names && name !in weights)
  }

  // ---------------------------------------------------------------- when it is neutral

  lemma NamedArm<Id>(arms: Arms<Id>, arm: (string, seq<Id>))
    requires arm in arms
    ensures arm.0 in NamesOf(arms)
  {
    var i :| 0 <= i < |arms| && arms[i] == arm;
    assert NamesOf(arms)[i] == arm.0;
  }

  lemma UnmixedFusesAlike<Id(!new)>(
      leq: (Id, Id) -> bool, arms: Arms<Id>, weights: map<string, real>, c: real, k: nat)
    requires c > 0.0 && (c == 1.0 || !Mixes(NamesOf(arms), weights))
    ensures FusesAlike(leq, arms, weights, Scaled(weights, c), k)
  {
    var names, scaled := NamesOf(arms), Scaled(weights, c);
    var factor := if forall name :: name in names ==> name in weights then c else 1.0;
    forall arm | arm in arms
      ensures Weight(scaled, arm.0) == factor * Weight(weights, arm.0)
    {
      NamedArm(arms, arm);
    }
    forall fused
      ensures IsFusion(leq, arms, weights, k, fused) <==> IsFusion(leq, arms, scaled, k, fused)
    {
      ScalingChangesNothing(leq, arms, weights, scaled, factor, k, fused);
    }
  }

  // ---------------------------------------------------------------- when it is not

  /** Arms of the given names, of which only `a` and `b` rank anything. */
  function TwoRankings<Id>(names: seq<string>, a: string, first: seq<Id>, b: string, second: seq<Id>): (arms: Arms<Id>)
    ensures NamesOf(arms) == names
  {
    seq(|names|, i requires 0 <= i < |names| =>
      (names[i], if names[i] == a then first else if names[i] == b then second else []))
  }

  lemma {:induction false} TwoRankingsScore<Id(!new)>(
      gain: Gain, names: seq<string>, a: string, first: seq<Id>, b: string, second: seq<Id>, id: Id)
    requires NoDuplicates(names) && a != b
    ensures Score(gain, TwoRankings(names, a, first, b, second), id) ==
            (if a in names then ArmScore(gain, a, first, id) else 0.0)
            + if b in names then ArmScore(gain, b, second, id) else 0.0
    decreases |names|
  {
    if names != [] {
      var before, last := names[..|names| - 1], names[|names| - 1];
      var arms := TwoRankings(names, a, first, b, second);
      assert arms[..|arms| - 1] == TwoRankings(before, a, first, b, second);
      assert last !in before;
      TwoRankingsScore(gain, before, a, first, b, second, id);
    }
  }

  /** `count` other ids, then the given ones. */
  function Padded<Id>(ids: nat -> Id, count: nat, last: seq<Id>): seq<Id> {
    seq(count, i requires 0 <= i < count => ids(i + 2)) + last
  }

  ghost predicate Distinct<Id>(ids: nat -> Id) {
    forall i, j :: ids(i) == ids(j) ==> i == j
  }

  lemma PaddedIsDistinct<Id>(ids: nat -> Id, count: nat, last: seq<Id>)
    requires Distinct(ids) && NoDuplicates(last) && forall x :: x in last ==> x == ids(0) || x == ids(1)
    ensures NoDuplicates(Padded(ids, count, last))
  {
    var padded := Padded(ids, count, last);
    forall i, j | 0 <= i < j < |padded|
      ensures padded[i] != padded[j]
    {
      if j >= count {
        assert padded[j] == last[j - count] && last[j - count] in last;
        assert i >= count ==> padded[i] == last[i - count];
      }
    }
  }

  /** The arm `b` ranks id 0 and then id 1, neighbours; the arm `a` lifts one of them. */
  function Contest<Id>(ids: nat -> Id, names: seq<string>, a: string, r: nat, lifted: nat, b: string, m: nat)
    : Arms<Id>
  {
    TwoRankings(names, a, Padded(ids, r, [ids(lifted)]), b, Padded(ids, m, [ids(0), ids(1)]))
  }

  lemma PaddedScore<Id(!new)>(gain: Gain, name: string, ids: nat -> Id, count: nat, last: seq<Id>, i: nat)
    requires Distinct(ids) && NoDuplicates(last) && forall x :: x in last ==> x == ids(0) || x == ids(1)
    requires i < |last|
    ensures ArmScore(gain, name, Padded(ids, count, last), last[i]) == gain(name, count + i)
  {
    PaddedIsDistinct(ids, count, last);
    assert Padded(ids, count, last)[count + i] == last[i];
    ScoreAtItsRank(gain, name, Padded(ids, count, last), count + i);
  }

  lemma NotLiftedScoresNothing<Id(!new)>(gain: Gain, name: string, ids: nat -> Id, count: nat, lifted: nat, at: nat)
    requires Distinct(ids) && at <= 1 && at != lifted
    ensures ArmScore(gain, name, Padded(ids, count, [ids(lifted)]), ids(at)) == 0.0
  {
    AbsentFromArm(gain, name, Padded(ids, count, [ids(lifted)]), ids(at));
  }

  lemma ContestScores<Id(!new)>(
      gain: Gain, ids: nat -> Id, names: seq<string>, a: string, r: nat, lifted: nat, b: string, m: nat, at: nat)
    requires Distinct(ids) && NoDuplicates(names) && a in names && b in names && a != b
    requires at <= 1 && lifted <= 1
    ensures Score(gain, Contest(ids, names, a, r, lifted, b, m), ids(at)) ==
            gain(b, m + at) + if at == lifted then gain(a, r) else 0.0
  {
    var first, second := Padded(ids, r, [ids(lifted)]), Padded(ids, m, [ids(0), ids(1)]);
    assert ArmScore(gain, b, second, ids(at)) == gain(b, m + at) by {
      assert [ids(0), ids(1)][at] == ids(at);
      PaddedScore(gain, b, ids, m, [ids(0), ids(1)], at);
    }
    assert ArmScore(gain, a, first, ids(at)) == if at == lifted then gain(a, r) else 0.0 by {
      if at == lifted {
        PaddedScore(gain, a, ids, r, [ids(lifted)], 0);
      } else {
        NotLiftedScoresNothing(gain, a, ids, r, lifted, at);
      }
    }
    TwoRankingsScore(gain, names, a, first, b, second, ids(at));
  }

  lemma ContestRanksBoth<Id(!new)>(
      ids: nat -> Id, names: seq<string>, a: string, r: nat, lifted: nat, b: string, m: nat, at: nat)
    requires b in names && a != b && at <= 1
    ensures ids(at) in Ids(Contest(ids, names, a, r, lifted, b, m))
  {
    var i :| 0 <= i < |names| && names[i] == b;
    var second := Padded(ids, m, [ids(0), ids(1)]);
    var arm := Contest(ids, names, a, r, lifted, b, m)[i];
    assert arm in Contest(ids, names, a, r, lifted, b, m) && arm == (b, second);
    assert second[m + at] == ids(at);
    assert ids(at) in arm.1;
  }

  /** Two ids that one gain orders one way and the other gain the other way part the fusions. */
  lemma OppositeScoresPartFusions<Id(!new)>(
      leq: (Id, Id) -> bool, arms: Arms<Id>, weights: map<string, real>, scaled: map<string, real>, k: nat,
      x: Id, y: Id)
    requires TotalOrder(leq) && x in Ids(arms) && y in Ids(arms)
    requires Scores(RankGain(weights, k), arms)(x) > Scores(RankGain(weights, k), arms)(y)
    requires Scores(RankGain(scaled, k), arms)(x) < Scores(RankGain(scaled, k), arms)(y)
    ensures !FusesAlike(leq, arms, weights, scaled, k)
  {
    var fused, order := FusionOf(leq, arms, weights, k), RankOrder(leq, Scores(RankGain(weights, k), arms));
    assert x in Elements(fused) && y in Elements(fused);
    var i :| 0 <= i < |fused| && fused[i] == x;
    var j :| 0 <= j < |fused| && fused[j] == y;
    assert forall p, q :: 0 <= p < q < |fused| ==> order(fused[p], fused[q]);
    assert i < j;
    assert !RankOrder(leq, Scores(RankGain(scaled, k), arms))(fused[i], fused[j]);
    assert !IsFusion(leq, arms, scaled, k, fused);
  }

  // ---------------------------------------------------------------- ranks that tell the weights apart

  /** A whole number past `x`. */
  function Past(x: real): (n: nat)
    requires x >= 0.0
    ensures n as real > x
  {
    x.Floor + 1
  }

  lemma ProductExceeds(x: real, y: real, n: real)
    requires x > 0.0 && n > y / x
    ensures x * n > y
  {
    assert x * n > x * (y / x);
  }

  lemma SomeRankLiesIn(low: real, high: real, product: real, k: nat) returns (rank: nat)
    requires (high - low) * product > 1.0 && low * product > k as real
    ensures rank > k && low * product < rank as real < high * product
  {
    assert (high - low) * product == high * product - low * product;
    rank := Past(low * product);
  }

  lemma NextProduct(n: nat)
    requires n > 0
    ensures n * (n + 1) > n
  {
  }

  /** Between the multiples of two weights by some `n * (n + 1)` there is a whole number, past `k`. */
  lemma SomeRankLiesBetween(low: real, high: real, k: nat) returns (n: nat, rank: nat)
    requires 0.0 < low < high
    ensures n > k && rank > k
    ensures low * (n * (n + 1)) as real < rank as real < high * (n * (n + 1)) as real
  {
    var x, y := 1.0 / (high - low), k as real / low;
    n := k + Past(x) + Past(y);
    NextProduct(n);
    ProductExceeds(high - low, 1.0, (n * (n + 1)) as real);
    ProductExceeds(low, k as real, (n * (n + 1)) as real);
    rank := SomeRankLiesIn(low, high, (n * (n + 1)) as real, k);
  }

  /** What lifts an id over its neighbour at one-based ranks `n` and `n + 1`. */
  lemma LiftsExactlyWhen(w: real, n: nat, rank: nat)
    requires n > 0 && rank > 0
    ensures var gap := 1.0 / n as real - 1.0 / (n + 1) as real;
            && (w / rank as real > gap <==> w * (n * (n + 1)) as real > rank as real)
            && (w / rank as real < gap <==> w * (n * (n + 1)) as real < rank as real)
  {
    var gap, lift := 1.0 / n as real - 1.0 / (n + 1) as real, w / rank as real;
    var product := (n * (n + 1)) as real;
    assert gap * product == 1.0 by {
      assert product == n as real * (n + 1) as real;
      assert 1.0 / n as real * product == (n + 1) as real;
      assert 1.0 / (n + 1) as real * product == n as real;
    }
    assert lift * rank as real == w;
    Scaling(lift, gap, product * rank as real);
    assert lift * (product * rank as real) == w * product;
    assert gap * (product * rank as real) == rank as real;
  }

  lemma Scaling(x: real, y: real, z: real)
    requires z > 0.0
    ensures x < y <==> x * z < y * z
    ensures x > y <==> x * z > y * z
  {
  }

  /** The later neighbour's lead over the earlier one. */
  function Lead(gain: Gain, a: string, r: nat, lifted: nat, b: string, m: nat): real {
    gain(b, m + 1) - gain(b, m) + if lifted == 1 then gain(a, r) else -gain(a, r)
  }

  lemma LeadDecides<Id(!new)>(
      gain: Gain, ids: nat -> Id, names: seq<string>, a: string, r: nat, lifted: nat, b: string, m: nat)
    requires Distinct(ids) && NoDuplicates(names) && a in names && b in names && a != b && lifted <= 1
    ensures var score := Scores(gain, Contest(ids, names, a, r, lifted, b, m));
            && (Lead(gain, a, r, lifted, b, m) > 0.0 <==> score(ids(1)) > score(ids(0)))
            && (Lead(gain, a, r, lifted, b, m) < 0.0 <==> score(ids(1)) < score(ids(0)))
  {
    ContestScores(gain, ids, names, a, r, lifted, b, m, 0);
    ContestScores(gain, ids, names, a, r, lifted, b, m, 1);
  }

  function Magnitude(w: real): real {
    if w > 0.0 then w else -w
  }

  /** The arm `a` ranks the later neighbour if it adds to its score, and the earlier if it takes away. */
  function Lifted(w: real): nat {
    if w > 0.0 then 1 else 0
  }

  /** Whether an arm of weight `w` at one-based rank `rank` lifts an id over its neighbour at `n`. */
  ghost predicate Lifts(w: real, n: nat, rank: nat) {
    Magnitude(w) * (n * (n + 1)) as real > rank as real
  }

  ghost predicate FallsShort(w: real, n: nat, rank: nat) {
    Magnitude(w) * (n * (n + 1)) as real < rank as real
  }

  lemma GainsAtRanks(weights: map<string, real>, k: nat, a: string, b: string, n: nat, rank: nat)
    requires n > k && rank > k && b !in weights
    ensures RankGain(weights, k)(b, n - k - 1) == 1.0 / n as real
    ensures RankGain(weights, k)(b, n - k) == 1.0 / (n + 1) as real
    ensures RankGain(weights, k)(a, rank - k - 1) == Weight(weights, a) / rank as real
  {
  }

  lemma LeadExactlyWhen(weights: map<string, real>, k: nat, a: string, b: string, n: nat, rank: nat)
    requires n > k && rank > k && b !in weights
    ensures var w := Weight(weights, a);
            var lead := Lead(RankGain(weights, k), a, rank - k - 1, Lifted(w), b, n - k - 1);
            (lead > 0.0 <==> Lifts(w, n, rank)) && (lead < 0.0 <==> FallsShort(w, n, rank))
  {
    GainsAtRanks(weights, k, a, b, n, rank);
    NegatedQuotient(Weight(weights, a), rank as real);
    LiftsExactlyWhen(Magnitude(Weight(weights, a)), n, rank);
  }

  lemma NegatedQuotient(x: real, y: real)
    requires y != 0.0
    ensures -x / y == -(x / y)
  {
  }

  /** An arm the weights do not name keeps weight one. Beside a named arm that weighs anything it makes
      scaling by any other constant than one change the fusion of some rankings. */
  lemma AnUnnamedArmIsNotScaled<Id(!new)>(
      leq: (Id, Id) -> bool, ids: nat -> Id, names: seq<string>, weights: map<string, real>, c: real, k: nat,
      a: string, b: string)
    returns (arms: Arms<Id>)
    requires TotalOrder(leq) && Distinct(ids) && NoDuplicates(names) && c > 0.0 && c != 1.0
    requires a in names && a in weights && weights[a] != 0.0 && b in names && b !in weights
    ensures NamesOf(arms) == names && !FusesAlike(leq, arms, weights, Scaled(weights, c), k)
  {
    var n, rank, lifted := RanksApart(weights, c, k, a, b);
    var r, m := rank - k - 1, n - k - 1;
    arms := Contest(ids, names, a, r, lifted, b, m);
    LeadDecides(RankGain(weights, k), ids, names, a, r, lifted, b, m);
    LeadDecides(RankGain(Scaled(weights, c), k), ids, names, a, r, lifted, b, m);
    ContestRanksBoth(ids, names, a, r, lifted, b, m, 0);
    ContestRanksBoth(ids, names, a, r, lifted, b, m, 1);
    if Lead(RankGain(weights, k), a, r, lifted, b, m) < 0.0 {
      OppositeScoresPartFusions(leq, arms, weights, Scaled(weights, c), k, ids(0), ids(1));
    } else {
      OppositeScoresPartFusions(leq, arms, weights, Scaled(weights, c), k, ids(1), ids(0));
    }
  }

  lemma NonzeroProduct(x: real, y: real)
    requires x != 0.0 && y != 0.0
    ensures x * y != 0.0
  {
  }

  lemma SameProductSameFactor(c: real, w: real)
    requires w != 0.0 && c * w == w
    ensures c == 1.0
  {
    assert (c - 1.0) * w == 0.0;
    if c != 1.0 {
      NonzeroProduct(c - 1.0, w);
    }
  }

  lemma MagnitudesDiffer(x: real, y: real)
    requires x != y && x != 0.0 && y != 0.0 && (x > 0.0 <==> y > 0.0)
    ensures Magnitude(x) > 0.0 && Magnitude(y) > 0.0 && Magnitude(x) != Magnitude(y) && Lifted(x) == Lifted(y)
  {
  }

  lemma ScaledWeightDiffers(w: real, c: real, sw: real)
    requires w != 0.0 && c > 0.0 && c != 1.0 && sw == c * w
    ensures sw != w && sw != 0.0 && (sw > 0.0 <==> w > 0.0)
  {
    NonzeroProduct(c, w);
    if sw == w {
      SameProductSameFactor(c, w);
    }
  }

  lemma RankTellsApart(w: real, sw: real, k: nat) returns (n: nat, rank: nat)
    requires Magnitude(w) > 0.0 && Magnitude(sw) > 0.0 && Magnitude(w) != Magnitude(sw)
    ensures n > k && rank > k
    ensures (FallsShort(w, n, rank) && Lifts(sw, n, rank)) || (FallsShort(sw, n, rank) && Lifts(w, n, rank))
  {
    if Magnitude(w) < Magnitude(sw) {
      n, rank := SomeRankLiesBetween(Magnitude(w), Magnitude(sw), k);
    } else {
      n, rank := SomeRankLiesBetween(Magnitude(sw), Magnitude(w), k);
    }
  }

  /** Ranks at which the weights and the scaled weights give the neighbours opposite orders. */
  lemma RanksApart(weights: map<string, real>, c: real, k: nat, a: string, b: string)
    returns (n: nat, rank: nat, lifted: nat)
    requires c > 0.0 && c != 1.0 && a in weights && weights[a] != 0.0 && b !in weights
    ensures n > k && rank > k && lifted <= 1
    ensures Apart(RankGain(weights, k), RankGain(Scaled(weights, c), k), a, rank - k - 1, lifted, b, n - k - 1)
  {
    var scaled := Scaled(weights, c);
    var w, sw := Weight(weights, a), Weight(scaled, a);
    ScaledWeightDiffers(w, c, sw);
    MagnitudesDiffer(w, sw);
    n, rank := RankTellsApart(w, sw, k);
    lifted := Lifted(w);
    OppositeLeads(weights, scaled, k, a, b, n, rank);
  }

  ghost predicate Apart(own: Gain, scaled: Gain, a: string, r: nat, lifted: nat, b: string, m: nat) {
    || Lead(own, a, r, lifted, b, m) < 0.0 < Lead(scaled, a, r, lifted, b, m)
    || Lead(scaled, a, r, lifted, b, m) < 0.0 < Lead(own, a, r, lifted, b, m)
  }

  lemma OppositeLeads(weights: map<string, real>, scaled: map<string, real>, k: nat, a: string, b: string,
                      n: nat, rank: nat)
    requires n > k && rank > k && b !in weights && b !in scaled
    requires var w, sw := Weight(weights, a), Weight(scaled, a);
             && Lifted(w) == Lifted(sw)
             && ((FallsShort(w, n, rank) && Lifts(sw, n, rank)) || (FallsShort(sw, n, rank) && Lifts(w, n, rank)))
    ensures Apart(RankGain(weights, k), RankGain(scaled, k), a, rank - k - 1, Lifted(Weight(weights, a)), b, n - k - 1)
  {
    LeadExactlyWhen(weights, k, a, b, n, rank);
    LeadExactlyWhen(scaled, k, a, b, n, rank);
  }

  /** Scaling the weights by a positive constant leaves every fusion of arms with these names as it is if
      and only if the constant is one, or no named arm that weighs anything stands beside an unnamed one. */
  lemma ScalingIsNeutralExactlyWhen<Id(!new)>(
      leq: (Id, Id) -> bool, ids: nat -> Id, names: seq<string>, weights: map<string, real>, c: real, k: nat)
    requires TotalOrder(leq) && Distinct(ids) && NoDuplicates(names) && c > 0.0
    ensures ScalingIsNeutral(leq, names, weights, c, k) <==> c == 1.0 || !Mixes(names, weights)
  {
    if c == 1.0 || !Mixes(names, weights) {
      forall arms: Arms<Id> | NamesOf(arms) == names
        ensures FusesAlike(leq, arms, weights, Scaled(weights, c), k)
      {
        UnmixedFusesAlike(leq, arms, weights, c, k);
      }
    } else {
      var a :| a in names && a in weights && weights[a] != 0.0;
      var b :| b in names && b !in weights;
      var arms := AnUnnamedArmIsNotScaled(leq, ids, names, weights, c, k, a, b);
    }
  }

  /** For positive weights: exactly when the constant is one, every arm is named, or none is. */
  lemma PositiveWeightsScaleExactlyWhen<Id(!new)>(
      leq: (Id, Id) -> bool, ids: nat -> Id, names: seq<string>, weights: map<string, real>, c: real, k: nat)
    requires TotalOrder(leq) && Distinct(ids) && NoDuplicates(names) && c > 0.0
    requires forall name :: name in weights ==> weights[name] > 0.0
    ensures ScalingIsNeutral(leq, names, weights, c, k) <==>
              || c == 1.0
              || (forall name :: name in names ==> name in weights)
              || (forall name :: name in names ==> name !in weights)
  {
    ScalingIsNeutralExactlyWhen(leq, ids, names, weights, c, k);
  }
}
