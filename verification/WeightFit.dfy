/** Scoring a weighting at every depth off one fusion, and the exhaustive fit over the grid. */
module WeightFit {
  import opened Common
  import opened Sorting
  import opened RankFusion

  const GRID: seq<real> := [0.5, 0.75, 1.0, 1.5, 2.0]
  const CONSTANTS: seq<nat> := [1, 60]
  const DEPTHS: set<nat> := {200, 100, 50}

  datatype Question = Question(arms: Arms<string>, gold: set<string>, carriers: map<string, seq<string>>)

  // ---------------------------------------------------------------- rounding to four digits

  /** `round(x, 4)`, ties to even, as a whole number of ten-thousandths. */
  function Rounded(x: real): int {
    var scaled := x * 10000.0;
    var floor := scaled.Floor;
    var rest := scaled - floor as real;
    if rest < 0.5 then floor
    else if rest > 0.5 then floor + 1
    else if floor % 2 == 0 then floor
    else floor + 1
  }

  /** The nearest ten-thousandth, and of two as near the even one. */
  lemma RoundedIsNearest(x: real)
    ensures -0.5 <= Rounded(x) as real - x * 10000.0 <= 0.5
    ensures Rounded(x) as real - x * 10000.0 in {-0.5, 0.5} ==> Rounded(x) % 2 == 0
  {
  }

  lemma RoundingIsMonotone(x: real, y: real)
    requires x <= y
    ensures Rounded(x) <= Rounded(y)
  {
    assert x * 10000.0 <= y * 10000.0;
  }

  // ---------------------------------------------------------------- coverage of one fused order

  function FoundIn(order: seq<string>, carriers: map<string, seq<string>>): set<string> {
    set id, turn | id in order && id in carriers && turn in carriers[id] :: turn
  }

  function Recall(order: seq<string>, gold: set<string>, carriers: map<string, seq<string>>, depth: nat): real {
    if gold == {} then 0.0 else |gold * FoundIn(Take(order, depth), carriers)| as real / |gold| as real
  }

  predicate Complete(order: seq<string>, gold: set<string>, carriers: map<string, seq<string>>, depth: nat) {
    gold <= FoundIn(Take(order, depth), carriers)
  }

  method Coverage(fused: seq<string>, gold: set<string>, carriers: map<string, seq<string>>, depth: nat)
    returns (recall: real, complete: bool)
    ensures recall == Recall(fused, gold, carriers, depth)
    ensures complete == Complete(fused, gold, carriers, depth)
  {
    var found: set<string> := {};
    var top := Take(fused, depth);
    for i := 0 to |top|
      invariant found == FoundIn(top[..i], carriers)
    {
      var turns := if top[i] in carriers then carriers[top[i]] else [];
      assert forall id :: id in top[..i + 1] <==> id in top[..i] || id == top[i];
      found := found + Elements(turns);
    }
    assert top[..|top|] == top;
    var hit := gold * found;
    recall := if gold == {} then 0.0 else |hit| as real / |gold| as real;
    complete := hit == gold;
  }

  /** Of the gold turns, those that one of the first `depth` ids carries. */
  ghost predicate AreHits(hits: set<string>, order: seq<string>, gold: set<string>,
                          carriers: map<string, seq<string>>, depth: nat) {
    forall turn :: turn in hits <==>
      turn in gold
      && exists i :: 0 <= i < depth && i < |order| && order[i] in carriers && turn in carriers[order[i]]
  }

  lemma HitsAreFound(hits: set<string>, order: seq<string>, gold: set<string>,
                     carriers: map<string, seq<string>>, depth: nat)
    requires AreHits(hits, order, gold, carriers, depth)
    ensures hits == gold * FoundIn(Take(order, depth), carriers)
  {
    var top := Take(order, depth);
    forall turn
      ensures turn in hits <==> turn in gold * FoundIn(top, carriers)
    {
      if turn in hits {
        var i :| 0 <= i < depth && i < |order| && order[i] in carriers && turn in carriers[order[i]];
        assert top[i] == order[i];
      }
      if turn in FoundIn(top, carriers) {
        var id :| id in top && id in carriers && turn in carriers[id];
        var i :| 0 <= i < |top| && top[i] == id;
        assert order[i] == id;
      }
    }
  }

  /** Recall is the hits' share of the gold, none of no gold; complete means that all gold is hit. */
  lemma CoverageCounts(hits: set<string>, order: seq<string>, gold: set<string>,
                       carriers: map<string, seq<string>>, depth: nat)
    requires AreHits(hits, order, gold, carriers, depth)
    ensures gold != {} ==> Recall(order, gold, carriers, depth) == |hits| as real / |gold| as real
    ensures gold == {} ==> Recall(order, gold, carriers, depth) == 0.0
    ensures Complete(order, gold, carriers, depth) <==> hits == gold
  {
    HitsAreFound(hits, order, gold, carriers, depth);
  }

  lemma CompleteIsFullRecall(order: seq<string>, gold: set<string>, carriers: map<string, seq<string>>, depth: nat)
    requires gold != {}
    ensures 0.0 <= Recall(order, gold, carriers, depth)
    ensures Complete(order, gold, carriers, depth) ==> Recall(order, gold, carriers, depth) == 1.0
  {
    var hit := gold * FoundIn(Take(order, depth), carriers);
    if Complete(order, gold, carriers, depth) {
      assert hit == gold;
    }
    ShareIsNotNegative(|hit|, |gold|);
  }

  lemma ShareIsNotNegative(part: nat, whole: nat)
    requires whole > 0
    ensures part as real / whole as real >= 0.0
    ensures part == whole ==> part as real / whole as real == 1.0
  {
  }

  lemma DeeperFindsMore(order: seq<string>, gold: set<string>, carriers: map<string, seq<string>>, d: nat, e: nat)
    requires d <= e
    ensures Recall(order, gold, carriers, d) <= Recall(order, gold, carriers, e)
    ensures Complete(order, gold, carriers, d) ==> Complete(order, gold, carriers, e)
  {
    var few, many := gold * FoundIn(Take(order, d), carriers), gold * FoundIn(Take(order, e), carriers);
    assert forall id :: id in Take(order, d) ==> id in Take(order, e);
    assert few <= many;
    assert many == few + (many - few);
    if gold != {} {
      QuotientGrows(|few| as real, |many| as real, |gold| as real);
    }
  }

  // ---------------------------------------------------------------- one weighting, every depth

  /** What a weighting scores at one depth, in ten-thousandths. */
  datatype DepthScore = DepthScore(recall: int, complete: int)

  /** The questions' summed recall, and how many of them are complete. */
  datatype Total = Total(recall: real, complete: nat)

  function Plus(total: Total, fused: seq<string>, q: Question, depth: nat): Total {
    Total(total.recall + Recall(fused, q.gold, q.carriers, depth),
          total.complete + if Complete(fused, q.gold, q.carriers, depth) then 1 else 0)
  }

  /** The totals of one depth, with every question fused afresh for it. */
  ghost function TotalAt(questions: seq<Question>, weights: map<string, real>, k: nat, depth: nat): Total {
    if questions == [] then Total(0.0, 0)
    else
      var q := questions[|questions| - 1];
      StringLeqIsTotalOrder();
      Plus(TotalAt(questions[..|questions| - 1], weights, k, depth), FusionOf(StringLeq, q.arms, weights, k), q, depth)
  }

  function MeanOf(total: Total, n: nat): DepthScore
    requires n > 0
  {
    DepthScore(Rounded(total.recall / n as real), Rounded(total.complete as real / n as real))
  }

  ghost function ScoreAt(questions: seq<Question>, weights: map<string, real>, k: nat, depth: nat): DepthScore
    requires questions != []
  {
    MeanOf(TotalAt(questions, weights, k, depth), |questions|)
  }

  ghost function TotalsOf(questions: seq<Question>, weights: map<string, real>, k: nat): map<nat, Total> {
    map depth | depth in DEPTHS :: TotalAt(questions, weights, k, depth)
  }

  function MeansOf(totals: map<nat, Total>, n: nat): map<nat, DepthScore>
    requires n > 0
  {
    map depth | depth in totals :: MeanOf(totals[depth], n)
  }

  /** Fuses each question once and cuts the result at all depths. */
  method ScoreWeighting(questions: seq<Question>, weights: map<string, real>, k: nat)
    returns (at: map<nat, DepthScore>)
    requires questions != []
    ensures at == MeansOf(TotalsOf(questions, weights, k), |questions|)
  {
    var totals: map<nat, Total> := map depth | depth in DEPTHS :: Total(0.0, 0);
    for i := 0 to |questions|
      invariant totals == TotalsOf(questions[..i], weights, k)
    {
      var q := questions[i];
      StringLeqIsTotalOrder();
      var fused := Fuse(StringLeq, q.arms, weights, k);
      FusionIsUnique(StringLeq, RankGain(weights, k), q.arms, fused, FusionOf(StringLeq, q.arms, weights, k));
      totals := AddQuestion(totals, q, fused);
      NextTotals(totals, questions, i, weights, k, fused);
    }
    assert questions[..|questions|] == questions;
    at := MeansOf(totals, |questions|);
  }

  /** The inner loop: cut one fused order at every depth. */
  method AddQuestion(before: map<nat, Total>, q: Question, fused: seq<string>) returns (totals: map<nat, Total>)
    ensures totals.Keys == before.Keys
    ensures forall depth :: depth in before ==> totals[depth] == Plus(before[depth], fused, q, depth)
  {
    totals := before;
    var left := before.Keys;
    while left != {}
      invariant left <= before.Keys && totals.Keys == before.Keys
      invariant forall depth :: depth in before ==>
                  totals[depth] == if depth in left then before[depth] else Plus(before[depth], fused, q, depth)
      decreases left
    {
      var depth :| depth in left;
      var recall, complete := Coverage(fused, q.gold, q.carriers, depth);
      var total := totals[depth];
      totals := totals[depth := Total(total.recall + recall, total.complete + if complete then 1 else 0)];
      left := left - {depth};
    }
  }

  lemma NextTotals(totals: map<nat, Total>, questions: seq<Question>, i: nat,
                   weights: map<string, real>, k: nat, fused: seq<string>)
    requires i < |questions|
    requires TotalOrder(StringLeq) && fused == FusionOf(StringLeq, questions[i].arms, weights, k)
    requires totals.Keys == DEPTHS
    requires forall depth :: depth in totals ==>
               totals[depth] == Plus(TotalsOf(questions[..i], weights, k)[depth], fused, questions[i], depth)
    ensures totals == TotalsOf(questions[..i + 1], weights, k)
  {
    var next := TotalsOf(questions[..i + 1], weights, k);
    forall depth | depth in totals
      ensures totals[depth] == next[depth]
    {
      NextTotal(questions, i, weights, k, fused, depth);
    }
    SameTotals(totals, next);
  }

  lemma NextTotal(questions: seq<Question>, i: nat, weights: map<string, real>, k: nat, fused: seq<string>, depth: nat)
    requires i < |questions| && depth in DEPTHS
    requires TotalOrder(StringLeq) && fused == FusionOf(StringLeq, questions[i].arms, weights, k)
    ensures TotalsOf(questions[..i + 1], weights, k)[depth] ==
            Plus(TotalsOf(questions[..i], weights, k)[depth], fused, questions[i], depth)
  {
    var upTo := questions[..i + 1];
    assert upTo[..|upTo| - 1] == questions[..i] && upTo[|upTo| - 1] == questions[i];
  }

  lemma SameTotals(a: map<nat, Total>, b: map<nat, Total>)
    requires a.Keys == b.Keys && forall depth :: depth in a ==> a[depth] == b[depth]
    ensures a == b
  {
  }

  lemma {:induction false} DeeperTotalsMore(
      questions: seq<Question>, weights: map<string, real>, k: nat, d: nat, e: nat)
    requires d <= e
    ensures TotalAt(questions, weights, k, d).recall <= TotalAt(questions, weights, k, e).recall
    ensures TotalAt(questions, weights, k, d).complete <= TotalAt(questions, weights, k, e).complete
    decreases |questions|
  {
    if questions != [] {
      var before, q := questions[..|questions| - 1], questions[|questions| - 1];
      DeeperTotalsMore(before, weights, k, d, e);
      StringLeqIsTotalOrder();
      DeeperFindsMore(FusionOf(StringLeq, q.arms, weights, k), q.gold, q.carriers, d, e);
    }
  }

  lemma LargerTotalsLargerMeans(x: Total, y: Total, n: nat)
    requires n > 0 && x.recall <= y.recall && x.complete <= y.complete
    ensures MeanOf(x, n).recall <= MeanOf(y, n).recall && MeanOf(x, n).complete <= MeanOf(y, n).complete
  {
    QuotientGrows(x.recall, y.recall, n as real);
    QuotientGrows(x.complete as real, y.complete as real, n as real);
    RoundingIsMonotone(x.recall / n as real, y.recall / n as real);
    RoundingIsMonotone(x.complete as real / n as real, y.complete as real / n as real);
  }

  /** Reading deeper never scores less. */
  lemma DeeperScoresMore(questions: seq<Question>, weights: map<string, real>, k: nat, d: nat, e: nat)
    requires questions != [] && d <= e
    ensures ScoreAt(questions, weights, k, d).recall <= ScoreAt(questions, weights, k, e).recall
    ensures ScoreAt(questions, weights, k, d).complete <= ScoreAt(questions, weights, k, e).complete
  {
    DeeperTotalsMore(questions, weights, k, d, e);
    LargerTotalsLargerMeans(TotalAt(questions, weights, k, d), TotalAt(questions, weights, k, e), |questions|);
  }

  // ---------------------------------------------------------------- what a weighting scores

  /** What a weighting fuses of a question's arms, in order. */
  ghost function OrderOf(q: Question, weights: map<string, real>, k: nat): seq<string> {
    StringLeqIsTotalOrder();
    FusionOf(StringLeq, q.arms, weights, k)
  }

  ghost predicate AllFound(q: Question, weights: map<string, real>, k: nat, depth: nat) {
    Complete(OrderOf(q, weights, k), q.gold, q.carriers, depth)
  }

  ghost function RecallsOf(questions: seq<Question>, weights: map<string, real>, k: nat, depth: nat): seq<real> {
    seq(|questions|, i requires 0 <= i < |questions| =>
      Recall(OrderOf(questions[i], weights, k), questions[i].gold, questions[i].carriers, depth))
  }

  lemma LastJoins(full: set<nat>, last: nat, joins: bool)
    requires last in full <==> joins
    ensures |full| == |full - {last}| + if joins then 1 else 0
  {
    if joins {
      assert full == full - {last} + {last};
    } else {
      assert full == full - {last};
    }
  }

  lemma {:induction false} FullCount(questions: seq<Question>, weights: map<string, real>, k: nat, depth: nat,
                                     full: set<nat>)
    requires forall i: nat :: i in full <==> i < |questions| && AllFound(questions[i], weights, k, depth)
    ensures TotalAt(questions, weights, k, depth).complete == |full|
    decreases |questions|
  {
    if questions == [] {
      assert full == {};
    } else {
      var n := |questions| - 1;
      FullCount(questions[..n], weights, k, depth, full - {n});
      LastJoins(full, n, AllFound(questions[n], weights, k, depth));
    }
  }

  ghost function RecallOf(q: Question, weights: map<string, real>, k: nat, depth: nat): real {
    Recall(OrderOf(q, weights, k), q.gold, q.carriers, depth)
  }

  lemma OneMoreTotal(before: seq<Question>, q: Question, weights: map<string, real>, k: nat, depth: nat)
    ensures TotalAt(before + [q], weights, k, depth).recall ==
            TotalAt(before, weights, k, depth).recall + RecallOf(q, weights, k, depth)
  {
    assert (before + [q])[..|before|] == before;
  }

  lemma RecallsAddUp(questions: seq<Question>, weights: map<string, real>, k: nat, depth: nat)
    ensures TotalAt(questions, weights, k, depth).recall == Sum(RecallsOf(questions, weights, k, depth))
  {
    var total := (some: seq<Question>) => TotalAt(some, weights, k, depth).recall;
    var own := (q: Question) => RecallOf(q, weights, k, depth);
    forall before, q
      ensures total(before + [q]) == total(before) + own(q)
    {
      OneMoreTotal(before, q, weights, k, depth);
    }
    TotalIsSum(total, own, questions);
    assert Each(own, questions) == RecallsOf(questions, weights, k, depth);
  }

  /** What is reported at a depth: the rounded mean of the questions' recalls, and the rounded share of the
      questions all of whose gold is found. */
  lemma ScoresAreMeans(questions: seq<Question>, weights: map<string, real>, k: nat, depth: nat, full: set<nat>)
    requires questions != [] && depth in DEPTHS
    requires forall i: nat :: i in full <==> i < |questions| && AllFound(questions[i], weights, k, depth)
    ensures var at, n := MeansOf(TotalsOf(questions, weights, k), |questions|), |questions| as real;
            && at.Keys == DEPTHS
            && at[depth].complete == Rounded(|full| as real / n)
            && at[depth].recall == Rounded(Sum(RecallsOf(questions, weights, k, depth)) / n)
  {
    FullCount(questions, weights, k, depth, full);
    RecallsAddUp(questions, weights, k, depth);
  }

  lemma EveryDepthIsScored(questions: seq<Question>, weights: map<string, real>, k: nat)
    requires questions != []
    ensures MeansOf(TotalsOf(questions, weights, k), |questions|).Keys == {50, 100, 200}
  {
    var totals := TotalsOf(questions, weights, k);
    assert totals.Keys == DEPTHS;
  }

  lemma {:induction false} CompleteTotalsAreBelowRecall(
      questions: seq<Question>, weights: map<string, real>, k: nat, depth: nat)
    requires forall q :: q in questions ==> q.gold != {}
    ensures TotalAt(questions, weights, k, depth).complete as real <= TotalAt(questions, weights, k, depth).recall
    decreases |questions|
  {
    if questions != [] {
      var before, q := questions[..|questions| - 1], questions[|questions| - 1];
      CompleteTotalsAreBelowRecall(before, weights, k, depth);
      CompleteIsFullRecall(OrderOf(q, weights, k), q.gold, q.carriers, depth);
    }
  }

  /** Where every question has gold, no more of them are complete than are recalled. */
  lemma CompleteNeverExceedsRecall(questions: seq<Question>, weights: map<string, real>, k: nat, depth: nat)
    requires questions != [] && depth in DEPTHS && forall q :: q in questions ==> q.gold != {}
    ensures var at := MeansOf(TotalsOf(questions, weights, k), |questions|); at[depth].complete <= at[depth].recall
  {
    CompleteTotalsAreBelowRecall(questions, weights, k, depth);
    var total, n := TotalAt(questions, weights, k, depth), |questions| as real;
    QuotientGrows(total.complete as real, total.recall, n);
    RoundingIsMonotone(total.complete as real / n, total.recall / n);
  }

  // ---------------------------------------------------------------- the grid

  /** Every tuple of `n` grid weights, the last varying fastest. */
  function Product(n: nat): seq<seq<real>> {
    if n == 0 then [[]] else ExtendAll(Product(n - 1))
  }

  function ExtendAll(prefixes: seq<seq<real>>): seq<seq<real>> {
    if prefixes == [] then []
    else seq(|GRID|, i requires 0 <= i < |GRID| => prefixes[0] + [GRID[i]]) + ExtendAll(prefixes[1..])
  }

  ghost predicate OnGrid(combination: seq<real>, n: nat) {
    |combination| == n && forall w :: w in combination ==> w in GRID
  }

  lemma {:induction false} ExtendedExactlyWhen(prefixes: seq<seq<real>>, combination: seq<real>)
    ensures combination in ExtendAll(prefixes) <==>
              && combination != []
              && combination[|combination| - 1] in GRID
              && combination[..|combination| - 1] in prefixes
  {
    if prefixes != [] {
      ExtendedExactlyWhen(prefixes[1..], combination);
      var own := seq(|GRID|, i requires 0 <= i < |GRID| => prefixes[0] + [GRID[i]]);
      if combination != [] && combination[|combination| - 1] in GRID
         && combination[..|combination| - 1] == prefixes[0] {
        var i :| 0 <= i < |GRID| && GRID[i] == combination[|combination| - 1];
        assert combination == own[i];
      }
      if combination in own {
        var i :| 0 <= i < |own| && own[i] == combination;
        assert combination[..|combination| - 1] == prefixes[0];
      }
      assert prefixes == [prefixes[0]] + prefixes[1..];
    }
  }

  lemma {:induction false} ProductIsTheGrid(n: nat, combination: seq<real>)
    ensures combination in Product(n) <==> OnGrid(combination, n)
    decreases n
  {
    if n > 0 {
      ExtendedExactlyWhen(Product(n - 1), combination);
      if combination != [] {
        var before, last := combination[..|combination| - 1], combination[|combination| - 1];
        ProductIsTheGrid(n - 1, before);
        assert combination == before + [last];
      }
    }
  }

  /** The last weight varies fastest. */
  lemma {:induction false} ExtendedInOrder(prefixes: seq<seq<real>>, i: nat, j: nat)
    requires i < |prefixes| && j < |GRID|
    ensures |ExtendAll(prefixes)| == |prefixes| * |GRID|
    ensures i * |GRID| + j < |ExtendAll(prefixes)| && ExtendAll(prefixes)[i * |GRID| + j] == prefixes[i] + [GRID[j]]
  {
    if i > 0 {
      ExtendedInOrder(prefixes[1..], i - 1, j);
    } else if |prefixes| > 1 {
      ExtendedInOrder(prefixes[1..], 0, 0);
    }
  }

  function Zip(names: seq<string>, combination: seq<real>): map<string, real>
    requires |names| == |combination|
  {
    if names == [] then map[]
    else Zip(names[..|names| - 1], combination[..|names| - 1])[names[|names| - 1] := combination[|names| - 1]]
  }

  // ---------------------------------------------------------------- the fit

  lemma ZipOneMore(names: seq<string>, combination: seq<real>, name: string, w: real)
    requires |names| == |combination|
    ensures Zip(names + [name], combination + [w]) == Zip(names, combination)[name := w]
    ensures Elements(names + [name]) == Elements(names) + {name}
  {
    assert (names + [name])[..|names|] == names && (combination + [w])[..|names|] == combination;
  }

  /** Each name gets the weight in its place. */
  lemma {:induction false} ZipInPlace(names: seq<string>, combination: seq<real>, i: nat)
    requires |names| == |combination| && NoDuplicates(names) && i < |names|
    ensures names[i] in Zip(names, combination) && Zip(names, combination)[names[i]] == combination[i]
    ensures Zip(names, combination).Keys == Elements(names)
    decreases |names|
  {
    var n := |names| - 1;
    assert names == names[..n] + [names[n]] && combination == combination[..n] + [combination[n]];
    ZipOneMore(names[..n], combination[..n], names[n], combination[n]);
    if n > 0 {
      ZipInPlace(names[..n], combination[..n], if i < n then i else 0);
    }
  }

  datatype Row = Row(k: nat, combination: seq<real>, at: map<nat, DepthScore>)

  function Abs(x: real): real {
    if x < 0.0 then -x else x
  }

  /** How far a weighting is from equal weights. */
  function Deviation(combination: seq<real>): real {
    if combination == [] then 0.0
    else Deviation(combination[..|combination| - 1]) + Abs(combination[|combination| - 1] - 1.0)
  }

  lemma DeviationAddsUp(combination: seq<real>, w: real)
    ensures Deviation([]) == 0.0
    ensures w >= 1.0 ==> Deviation(combination + [w]) == Deviation(combination) + (w - 1.0)
    ensures w < 1.0 ==> Deviation(combination + [w]) == Deviation(combination) + (1.0 - w)
  {
    assert (combination + [w])[..|combination|] == combination;
  }

  function ScoreOf(row: Row, depth: nat): DepthScore {
    if depth in row.at then row.at[depth] else DepthScore(0, 0)
  }

  function GainOver(best: DepthScore, equal: DepthScore): DepthScore {
    DepthScore(best.recall - equal.recall, best.complete - equal.complete)
  }

  /** The sort key: most complete, then most recall, then the lesser constant, then the least deviation. */
  predicate Better(depth: nat, a: Row, b: Row) {
    var x, y := ScoreOf(a, depth), ScoreOf(b, depth);
    if x.complete != y.complete then x.complete > y.complete
    else if x.recall != y.recall then x.recall > y.recall
    else if a.k != b.k then a.k < b.k
    else Deviation(a.combination) <= Deviation(b.combination)
  }

  function BetterAt(depth: nat): (Row, Row) -> bool {
    (a, b) => Better(depth, a, b)
  }

  datatype Fit =
    | NoQuestions
    | UnknownDepth
    | Fitted(arms: seq<string>, equal: Row, best: Row, gain: DepthScore, top: seq<Row>)

  function Names(questions: seq<Question>): set<string> {
    set q, arm | q in questions && arm in q.arms :: arm.0
  }

  /** The arms fitted are those some question has. */
  lemma NamesExactlyWhen(questions: seq<Question>, name: string)
    ensures name in Names(questions) <==>
              exists q, i :: q in questions && 0 <= i < |q.arms| && q.arms[i].0 == name
  {
    if q, arm :| q in questions && arm in q.arms && arm.0 == name {
      var i :| 0 <= i < |q.arms| && q.arms[i] == arm;
    }
    if q, i :| q in questions && 0 <= i < |q.arms| && q.arms[i].0 == name {
      assert q.arms[i] in q.arms;
    }
  }

  /** A grid row: one constant and one weight per arm, scored at every depth. */
  ghost predicate IsRow(questions: seq<Question>, names: seq<string>, row: Row)
    requires questions != []
  {
    && row.k in CONSTANTS
    && OnGrid(row.combination, |names|)
    && row.at == MeansOf(TotalsOf(questions, Zip(names, row.combination), row.k), |questions|)
  }

  ghost predicate Covers(rows: seq<Row>, k: nat, combination: seq<real>) {
    exists row :: row in rows && row.k == k && row.combination == combination
  }

  /** The grid in the order it is scored: for each constant, every combination. */
  function Points(constants: seq<nat>, combinations: seq<seq<real>>): seq<(nat, seq<real>)> {
    if constants == [] then []
    else
      var last := constants[|constants| - 1];
      Points(constants[..|constants| - 1], combinations) + PointsOf(last, combinations)
  }

  function PointsOf(k: nat, combinations: seq<seq<real>>): seq<(nat, seq<real>)> {
    seq(|combinations|, j requires 0 <= j < |combinations| => (k, combinations[j]))
  }

  /** The rows are the points, scored, in their order. */
  ghost predicate AreScored(questions: seq<Question>, names: seq<string>, points: seq<(nat, seq<real>)>, rows: seq<Row>)
    requires questions != []
  {
    && |rows| == |points|
    && forall j :: 0 <= j < |rows| ==>
         IsRow(questions, names, rows[j]) && rows[j].k == points[j].0 && rows[j].combination == points[j].1
  }

  ghost predicate IsScoredGrid(questions: seq<Question>, names: seq<string>, rows: seq<Row>)
    requires questions != []
  {
    AreScored(questions, names, Points(CONSTANTS, Product(|names|)), rows)
  }

  method ScoreGrid(questions: seq<Question>, names: seq<string>) returns (rows: seq<Row>)
    requires questions != []
    ensures IsScoredGrid(questions, names, rows)
  {
    rows := [];
    var combinations := Product(|names|);
    forall combination | combination in combinations
      ensures OnGrid(combination, |names|)
    {
      ProductIsTheGrid(|names|, combination);
    }
    for c := 0 to |CONSTANTS|
      invariant AreScored(questions, names, Points(CONSTANTS[..c], combinations), rows)
    {
      var more := ScoreConstant(questions, names, CONSTANTS[c], combinations);
      assert CONSTANTS[..c + 1][..c] == CONSTANTS[..c];
      MoreRows(questions, names, Points(CONSTANTS[..c], combinations), rows,
               PointsOf(CONSTANTS[c], combinations), more);
      rows := rows + more;
    }
    assert CONSTANTS[..|CONSTANTS|] == CONSTANTS;
  }

  lemma MoreRows(questions: seq<Question>, names: seq<string>, points: seq<(nat, seq<real>)>, rows: seq<Row>,
                 morePoints: seq<(nat, seq<real>)>, more: seq<Row>)
    requires questions != []
    requires AreScored(questions, names, points, rows) && AreScored(questions, names, morePoints, more)
    ensures AreScored(questions, names, points + morePoints, rows + more)
  {
  }

  method ScoreConstant(questions: seq<Question>, names: seq<string>, k: nat, combinations: seq<seq<real>>)
    returns (rows: seq<Row>)
    requires questions != [] && k in CONSTANTS
    requires forall combination :: combination in combinations ==> OnGrid(combination, |names|)
    ensures AreScored(questions, names, PointsOf(k, combinations), rows)
  {
    rows := [];
    for i := 0 to |combinations|
      invariant AreScored(questions, names, PointsOf(k, combinations)[..i], rows)
    {
      var row := ScoreRow(questions, names, k, combinations[i]);
      MoreRows(questions, names, PointsOf(k, combinations)[..i], rows, [(k, combinations[i])], [row]);
      assert PointsOf(k, combinations)[..i + 1] == PointsOf(k, combinations)[..i] + [(k, combinations[i])];
      rows := rows + [row];
    }
    assert PointsOf(k, combinations)[..|combinations|] == PointsOf(k, combinations);
  }

  lemma {:induction false} EveryPointIsListed(
      constants: seq<nat>, combinations: seq<seq<real>>, k: nat, combination: seq<real>)
    requires k in constants && combination in combinations
    ensures (k, combination) in Points(constants, combinations)
    decreases |constants|
  {
    var last := constants[|constants| - 1];
    if k == last {
      var j :| 0 <= j < |combinations| && combinations[j] == combination;
      assert PointsOf(k, combinations)[j] == (k, combination);
    } else {
      EveryPointIsListed(constants[..|constants| - 1], combinations, k, combination);
    }
  }

  /** All combinations are scored for one constant before the next. */
  lemma {:induction false} PointsInOrder(constants: seq<nat>, combinations: seq<seq<real>>, c: nat, j: nat)
    requires c < |constants| && j < |combinations|
    ensures |Points(constants, combinations)| == |constants| * |combinations|
    ensures c * |combinations| + j < |Points(constants, combinations)|
    ensures Points(constants, combinations)[c * |combinations| + j] == (constants[c], combinations[j])
    decreases |constants|
  {
    var n := |constants| - 1;
    if n > 0 {
      PointsInOrder(constants[..n], combinations, if c < n then c else 0, j);
    }
    OneMoreTimes(n, |combinations|);
  }

  lemma OneMoreTimes(n: int, m: int)
    ensures (n + 1) * m == n * m + m
  {
  }

  /** Every point of the grid has its row, and there are no others. */
  lemma TheScoredGridIsWhole(questions: seq<Question>, names: seq<string>, rows: seq<Row>)
    requires questions != [] && IsScoredGrid(questions, names, rows)
    ensures forall row :: row in rows ==> IsRow(questions, names, row)
    ensures forall k, combination :: k in CONSTANTS && OnGrid(combination, |names|) ==> Covers(rows, k, combination)
  {
    var points := Points(CONSTANTS, Product(|names|));
    forall k, combination | k in CONSTANTS && OnGrid(combination, |names|)
      ensures Covers(rows, k, combination)
    {
      ProductIsTheGrid(|names|, combination);
      EveryPointIsListed(CONSTANTS, Product(|names|), k, combination);
      var j :| 0 <= j < |points| && points[j] == (k, combination);
      assert rows[j] in rows;
    }
  }

  /** The grid is scored in one way only. */
  lemma TheScoredGridIsUnique(questions: seq<Question>, names: seq<string>, a: seq<Row>, b: seq<Row>)
    requires questions != [] && IsScoredGrid(questions, names, a) && IsScoredGrid(questions, names, b)
    ensures a == b
  {
    forall j | 0 <= j < |a|
      ensures a[j] == b[j]
    {
      SameRowScores(questions, names, a[j], b[j]);
    }
  }

  method ScoreRow(questions: seq<Question>, names: seq<string>, k: nat, combination: seq<real>) returns (row: Row)
    requires questions != [] && k in CONSTANTS && OnGrid(combination, |names|)
    ensures IsRow(questions, names, row) && row.k == k && row.combination == combination
  {
    var at := ScoreWeighting(questions, Zip(names, combination), k);
    row := Row(k, combination, at);
  }

  function Ones(n: nat): (ones: seq<real>)
    ensures |ones| == n && forall i :: 0 <= i < n ==> ones[i] == 1.0
  {
    seq(n, i => 1.0)
  }

  /** A row of the grid no other row of the grid is better than. */
  ghost predicate Wins(questions: seq<Question>, names: seq<string>, depth: nat, best: Row)
    requires questions != []
  {
    IsRow(questions, names, best) && forall row :: IsRow(questions, names, row) ==> Better(depth, best, row)
  }

  ghost predicate IsEqualWeights(questions: seq<Question>, names: seq<string>, row: Row)
    requires questions != []
  {
    IsRow(questions, names, row) && row.k == 1 && row.combination == Ones(|names|)
  }

  /** The rows as they are reported: the grid, stably sorted by the key. */
  ghost predicate IsRanking(questions: seq<Question>, names: seq<string>, depth: nat, ranked: seq<Row>)
    requires questions != []
  {
    exists rows :: IsScoredGrid(questions, names, rows) && ranked == SortBy(BetterAt(depth), rows)
  }

  /** Scores the whole grid, sorts it, and reports its first rows beside the equal weights at one. */
  method FitWeights(questions: seq<Question>, targetDepth: nat) returns (fit: Fit)
    ensures fit.NoQuestions? <==> questions == []
    ensures fit.UnknownDepth? <==> questions != [] && targetDepth !in DEPTHS
    ensures fit.Fitted? ==>
              && IsListing(StringLeq, Names(questions), fit.arms)
              && Wins(questions, fit.arms, targetDepth, fit.best)
              && IsEqualWeights(questions, fit.arms, fit.equal)
              && targetDepth in fit.best.at && targetDepth in fit.equal.at
              && fit.gain.recall == fit.best.at[targetDepth].recall - fit.equal.at[targetDepth].recall
              && fit.gain.complete == fit.best.at[targetDepth].complete - fit.equal.at[targetDepth].complete
    ensures fit.Fitted? ==>
              exists ranked :: IsRanking(questions, fit.arms, targetDepth, ranked)
                               && ranked != [] && fit.best == ranked[0] && fit.top == Take(ranked, 10)
  {
    if questions == [] {
      return NoQuestions;
    }
    StringLeqIsTotalOrder();
    var names := SortedListing(StringLeq, Names(questions));
    var rows := ScoreGrid(questions, names);
    if targetDepth !in DEPTHS {
      return UnknownDepth;
    }
    fit := BestAndEqual(questions, names, rows, targetDepth);
  }

  method BestAndEqual(questions: seq<Question>, names: seq<string>, rows: seq<Row>, depth: nat)
    returns (fit: Fit)
    requires questions != [] && IsScoredGrid(questions, names, rows)
    ensures fit.Fitted? && fit.arms == names
    ensures Wins(questions, names, depth, fit.best) && IsEqualWeights(questions, names, fit.equal)
    ensures fit.gain == GainOver(ScoreOf(fit.best, depth), ScoreOf(fit.equal, depth))
    ensures exists ranked :: IsRanking(questions, names, depth, ranked)
                             && ranked != [] && fit.best == ranked[0] && fit.top == Take(ranked, 10)
  {
    TheScoredGridIsWhole(questions, names, rows);
    EqualWeightsAreOnTheGrid(|names|);
    assert Covers(rows, 1, Ones(|names|));
    var ranked := RankRows(rows, depth);
    var best := ranked[0];
    BestOfTheGrid(questions, names, rows, best, depth);
    CoversStays(rows, ranked, 1, Ones(|names|));
    var equal := FirstEqual(ranked, |names|);
    assert best in Elements(ranked) && equal in Elements(ranked);
    fit := Fitted(names, equal, best, GainOver(ScoreOf(best, depth), ScoreOf(equal, depth)), Take(ranked, 10));
    assert IsRanking(questions, names, depth, ranked);
  }

  /** The grid in numbers: five weights, and the constants 1 and 60. */
  lemma IsRowExactlyWhen(questions: seq<Question>, names: seq<string>, row: Row)
    requires questions != []
    ensures IsRow(questions, names, row) <==>
              && (row.k == 1 || row.k == 60)
              && |row.combination| == |names|
              && (forall w :: w in row.combination ==> w == 0.5 || w == 0.75 || w == 1.0 || w == 1.5 || w == 2.0)
              && row.at == MeansOf(TotalsOf(questions, Zip(names, row.combination), row.k), |questions|)
  {
    assert CONSTANTS[0] == 1 && CONSTANTS[1] == 60;
    assert GRID[0] == 0.5 && GRID[1] == 0.75 && GRID[2] == 1.0 && GRID[3] == 1.5 && GRID[4] == 2.0;
  }

  lemma EqualWeightsAreOnTheGrid(n: nat)
    ensures 1 in CONSTANTS && OnGrid(Ones(n), n)
  {
    assert CONSTANTS[0] == 1 && GRID[2] == 1.0;
  }

  lemma CoversStays(rows: seq<Row>, ranked: seq<Row>, k: nat, combination: seq<real>)
    requires Covers(rows, k, combination) && Elements(ranked) == Elements(rows)
    ensures Covers(ranked, k, combination)
  {
    var row :| row in rows && row.k == k && row.combination == combination;
    assert row in Elements(rows);
  }

  method RankRows(rows: seq<Row>, depth: nat) returns (ranked: seq<Row>)
    requires rows != []
    ensures ranked == SortBy(BetterAt(depth), rows) && ranked != []
    ensures Elements(ranked) == Elements(rows)
    ensures forall row :: row in rows ==> Better(depth, ranked[0], row)
  {
    BetterIsAPreorder(depth);
    SortBySorts(BetterAt(depth), rows);
    ranked := SortBy(BetterAt(depth), rows);
    ghost var at := FirstOfSortIsEarliestLeast(BetterAt(depth), rows);
    forall row | row in rows
      ensures Better(depth, ranked[0], row)
    {
      assert BetterAt(depth)(ranked[0], row);
    }
  }

  method FirstEqual(ranked: seq<Row>, n: nat) returns (equal: Row)
    requires Covers(ranked, 1, Ones(n))
    ensures equal in ranked && equal.k == 1 && equal.combination == Ones(n)
  {
    ghost var at: nat :| at < |ranked| && ranked[at].k == 1 && ranked[at].combination == Ones(n);
    var i := 0;
    while !(ranked[i].k == 1 && ranked[i].combination == Ones(n))
      invariant 0 <= i <= at
      decreases at - i
    {
      i := i + 1;
    }
    equal := ranked[i];
  }

  lemma BestOfTheGrid(questions: seq<Question>, names: seq<string>, rows: seq<Row>, best: Row, depth: nat)
    requires questions != []
    requires forall row :: row in rows ==> IsRow(questions, names, row)
    requires forall k, combination :: k in CONSTANTS && OnGrid(combination, |names|) ==> Covers(rows, k, combination)
    requires forall row :: row in rows ==> Better(depth, best, row)
    ensures forall row :: IsRow(questions, names, row) ==> Better(depth, best, row)
  {
    forall row | IsRow(questions, names, row)
      ensures Better(depth, best, row)
    {
      assert Covers(rows, row.k, row.combination);
      var own :| own in rows && own.k == row.k && own.combination == row.combination;
      SameRowScores(questions, names, row, own);
    }
  }

  lemma SameRowScores(questions: seq<Question>, names: seq<string>, a: Row, b: Row)
    requires questions != []
    requires IsRow(questions, names, a) && IsRow(questions, names, b)
    requires a.k == b.k && a.combination == b.combination
    ensures a == b
  {
  }

  lemma BetterIsAPreorder(depth: nat)
    ensures TotalPreorder(BetterAt(depth))
  {
  }

  /** The winner against any other row of the grid: more complete; if as complete, more recalled; if that
      ties too, a lesser constant; and then no further from equal weights. */
  lemma TheWinnerComesFirst(questions: seq<Question>, names: seq<string>, depth: nat, best: Row, row: Row)
    requires questions != [] && depth in DEPTHS
    requires Wins(questions, names, depth, best) && IsRow(questions, names, row)
    ensures depth in best.at && depth in row.at
    ensures var a, b := best.at[depth], row.at[depth];
            || a.complete > b.complete
            || (a.complete == b.complete
                && (|| a.recall > b.recall
                    || (a.recall == b.recall
                        && (|| best.k < row.k
                            || (best.k == row.k && Deviation(best.combination) <= Deviation(row.combination))))))
  {
    assert Better(depth, best, row);
  }

  /** The winner is the lexicographic optimum of the whole grid, so it never loses to equal weights on
      completeness, and where it only ties there it does not lose on recall. */
  lemma TheWinnerNeverLosesToEqualWeights(
      questions: seq<Question>, names: seq<string>, depth: nat, best: Row, equal: Row)
    requires questions != [] && depth in DEPTHS
    requires Wins(questions, names, depth, best) && IsEqualWeights(questions, names, equal)
    ensures GainOver(ScoreOf(best, depth), ScoreOf(equal, depth)).complete >= 0
    ensures GainOver(ScoreOf(best, depth), ScoreOf(equal, depth)).complete == 0 ==>
              GainOver(ScoreOf(best, depth), ScoreOf(equal, depth)).recall >= 0
  {
    assert Better(depth, best, equal);
  }
}
