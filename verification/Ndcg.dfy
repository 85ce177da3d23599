/** nDCG of the document ranking, and the de-duplicating loop that supplies the ranking. */
module Ndcg {
  import opened Common
  import opened Sorting

  /** What a hit counts at a rank: one over the base-2 logarithm of the rank plus two. Of it only
      this is used: it is positive and falls from rank to rank. */
  type Discount = nat -> real

  ghost predicate Falls(discount: Discount) {
    (forall i :: discount(i) > 0.0) && forall i, j :: i < j ==> discount(i) > discount(j)
  }

  function Gain(relevant: bool): real {
    if relevant then 1.0 else 0.0
  }

  /** The discounted gains, the first at rank `from`. */
  function Dcg(discount: Discount, hits: seq<bool>, from: nat): real {
    if hits == [] then 0.0
    else Gain(hits[0]) * discount(from) + Dcg(discount, hits[1..], from + 1)
  }

  function Hits<T(==)>(retrieved: seq<T>, relevant: set<T>): seq<bool> {
    seq(|retrieved|, i requires 0 <= i < |retrieved| => retrieved[i] in relevant)
  }

  function All(n: nat): seq<bool> {
    seq(n, i => true)
  }

  function NdcgAt<T(==)>(discount: Discount, retrieved: seq<T>, relevant: set<T>, k: nat): real {
    var best := Dcg(discount, All(Min(|relevant|, k)), 0);
    if best == 0.0 then 0.0 else Dcg(discount, Hits(Take(retrieved, k), relevant), 0) / best
  }

  function Count(hits: seq<bool>): nat {
    if hits == [] then 0 else (if hits[0] then 1 else 0) + Count(hits[1..])
  }

  ghost predicate StartsWithHits(hits: seq<bool>, n: nat) {
    n <= |hits| && forall i :: 0 <= i < n ==> hits[i]
  }

  /** A hit adds its rank's discount, a miss nothing; ranks count from zero. */
  lemma {:induction false} DcgAddsUp(discount: Discount, hits: seq<bool>, from: nat)
    ensures Dcg(discount, [], from) == 0.0
    ensures Dcg(discount, hits + [true], from) == Dcg(discount, hits, from) + discount(from + |hits|)
    ensures Dcg(discount, hits + [false], from) == Dcg(discount, hits, from)
    decreases |hits|
  {
    if hits == [] {
      assert [] + [true] == [true] && [] + [false] == [false];
      assert Dcg(discount, [true][1..], from + 1) == 0.0 && Dcg(discount, [false][1..], from + 1) == 0.0;
    } else {
      assert (hits + [true])[1..] == hits[1..] + [true] && (hits + [false])[1..] == hits[1..] + [false];
      DcgAddsUp(discount, hits[1..], from + 1);
    }
  }

  lemma {:induction false} OneHit(discount: Discount, hits: seq<bool>, i: nat, from: nat)
    requires i < |hits| && forall j :: 0 <= j < |hits| ==> (hits[j] <==> j == i)
    ensures Dcg(discount, hits, from) == discount(from + i)
    decreases |hits|
  {
    if i == 0 {
      NoHits(discount, hits[1..], from + 1);
    } else {
      OneHit(discount, hits[1..], i - 1, from + 1);
    }
  }

  lemma {:induction false} NoHits(discount: Discount, hits: seq<bool>, from: nat)
    requires forall j :: 0 <= j < |hits| ==> !hits[j]
    ensures Dcg(discount, hits, from) == 0.0
    decreases |hits|
  {
    if hits != [] {
      NoHits(discount, hits[1..], from + 1);
    }
  }

  /** A single relevant document scores its rank's discount over the first rank's, and nothing past k. */
  lemma OneRelevantDocument<T>(discount: Discount, retrieved: seq<T>, document: T, k: nat, i: nat)
    requires Falls(discount) && NoDuplicates(retrieved) && i < |retrieved| && retrieved[i] == document
    ensures i < k ==> NdcgAt(discount, retrieved, {document}, k) == discount(i) / discount(0)
    ensures i >= k ==> NdcgAt(discount, retrieved, {document}, k) == 0.0
  {
    var top := Take(retrieved, k);
    var hits := Hits(top, {document});
    if i < k {
      OneHit(discount, hits, i, 0);
      OneHit(discount, All(1), 0, 0);
      assert Min(|{document}|, k) == 1 && discount(0) > 0.0;
    } else {
      NoHits(discount, hits, 0);
      if k > 0 {
        OneHit(discount, All(1), 0, 0);
        assert discount(0) > 0.0;
      }
    }
  }

  lemma {:induction false} IdealIsPositive(discount: Discount, n: nat, from: nat)
    requires Falls(discount)
    ensures Dcg(discount, All(n), from) >= 0.0
    ensures n > 0 ==> Dcg(discount, All(n), from) > 0.0
    decreases n
  {
    if n > 0 {
      assert All(n)[1..] == All(n - 1);
      IdealIsPositive(discount, n - 1, from + 1);
    }
  }

  lemma {:induction false} IdealStartsEarlier(discount: Discount, n: nat, from: nat)
    requires Falls(discount)
    ensures Dcg(discount, All(n), from + 1) <= Dcg(discount, All(n), from)
    ensures n > 0 ==> Dcg(discount, All(n), from + 1) < Dcg(discount, All(n), from)
    decreases n
  {
    if n > 0 {
      assert All(n)[1..] == All(n - 1);
      IdealStartsEarlier(discount, n - 1, from + 1);
      assert discount(from) > discount(from + 1);
    }
  }

  lemma {:induction false} IdealGrows(discount: Discount, m: nat, n: nat, from: nat)
    requires Falls(discount) && m <= n
    ensures Dcg(discount, All(m), from) <= Dcg(discount, All(n), from)
    ensures m < n ==> Dcg(discount, All(m), from) < Dcg(discount, All(n), from)
    decreases m
  {
    if m == 0 {
      IdealIsPositive(discount, n, from);
    } else {
      assert All(m)[1..] == All(m - 1) && All(n)[1..] == All(n - 1);
      IdealGrows(discount, m - 1, n - 1, from + 1);
    }
  }

  /** Hits count most when they come first, and only then. */
  lemma {:induction false} HitsFirstIsIdeal(discount: Discount, hits: seq<bool>, from: nat)
    requires Falls(discount)
    ensures 0.0 <= Dcg(discount, hits, from) <= Dcg(discount, All(Count(hits)), from)
    ensures Dcg(discount, hits, from) == Dcg(discount, All(Count(hits)), from) <==> StartsWithHits(hits, Count(hits))
    decreases |hits|
  {
    if hits != [] {
      var rest := hits[1..];
      var n := Count(rest);
      HitsFirstIsIdeal(discount, rest, from + 1);
      CountIsAtMostLength(rest);
      if hits[0] {
        assert All(n + 1)[1..] == All(n);
        assert discount(from) > 0.0;
        assert StartsWithHits(hits, n + 1) <==> StartsWithHits(rest, n) by {
          assert forall i :: 0 <= i < n && n <= |rest| ==> hits[i + 1] == rest[i];
        }
      } else {
        IdealStartsEarlier(discount, n, from);
        NoHitsStartWithNone(hits, n, rest);
      }
    }
  }

  lemma NoHitsStartWithNone(hits: seq<bool>, n: nat, rest: seq<bool>)
    requires hits != [] && !hits[0] && rest == hits[1..] && n == Count(rest)
    ensures StartsWithHits(hits, n) <==> n == 0
    ensures n == 0 ==> StartsWithHits(rest, n)
  {
  }

  lemma {:induction false} CountIsAtMostLength(hits: seq<bool>)
    ensures Count(hits) <= |hits|
  {
    if hits != [] {
      CountIsAtMostLength(hits[1..]);
    }
  }

  lemma OneMoreDocument<T>(relevant: set<T>, seen: set<T>, x: T)
    requires x !in seen
    ensures |relevant * (seen + {x})| == |relevant * seen| + if x in relevant then 1 else 0
  {
    if x in relevant {
      assert relevant * (seen + {x}) == relevant * seen + {x};
    } else {
      assert relevant * (seen + {x}) == relevant * seen;
    }
  }

  lemma CommonIsNoLarger<T>(a: set<T>, b: set<T>)
    ensures |a * b| <= |a|
  {
    assert a == a * b + (a - b);
  }

  /** A ranking without duplicates hits each relevant document it lists once. */
  lemma {:induction false} HitsAreRelevantDocuments<T>(retrieved: seq<T>, relevant: set<T>)
    requires NoDuplicates(retrieved)
    ensures Count(Hits(retrieved, relevant)) == |relevant * Elements(retrieved)|
    decreases |retrieved|
  {
    if retrieved == [] {
      assert Elements(retrieved) == {};
      assert relevant * {} == {};
    } else {
      var first, rest := retrieved[0], retrieved[1..];
      HitsAreRelevantDocuments(rest, relevant);
      assert Hits(retrieved, relevant)[1..] == Hits(rest, relevant);
      assert first !in Elements(rest);
      assert Elements(retrieved) == Elements(rest) + {first};
      OneMoreDocument(relevant, Elements(rest), first);
    }
  }

  /** nDCG lies between 0 and 1, and is 1 exactly when the first min(|relevant|, k) documents are there
      and all relevant. */
  lemma NdcgIsOneExactlyOnIdealRankings<T>(discount: Discount, retrieved: seq<T>, relevant: set<T>, k: nat)
    requires Falls(discount) && NoDuplicates(Take(retrieved, k)) && relevant != {} && k >= 1
    ensures 0.0 <= NdcgAt(discount, retrieved, relevant, k) <= 1.0
    ensures NdcgAt(discount, retrieved, relevant, k) == 1.0 <==>
              var m := Min(|relevant|, k);
              m <= |retrieved| && forall i :: 0 <= i < m ==> retrieved[i] in relevant
  {
    var top, m := Take(retrieved, k), Min(|relevant|, k);
    var hits := Hits(top, relevant);
    var n := Count(hits);
    HitsAreRelevantDocuments(top, relevant);
    CommonIsNoLarger(relevant, Elements(top));
    CountIsAtMostLength(hits);
    HitsFirstIsIdeal(discount, hits, 0);
    IdealGrows(discount, n, m, 0);
    IdealIsPositive(discount, m, 0);
    var dcg, best := Dcg(discount, hits, 0), Dcg(discount, All(m), 0);
    FractionOfBest(dcg, best);
    if dcg == best {
      assert n == m;
      assert forall i :: 0 <= i < m ==> hits[i] && top[i] == retrieved[i];
    }
    if m <= |retrieved| && forall i :: 0 <= i < m ==> retrieved[i] in relevant {
      assert forall i :: 0 <= i < m ==> hits[i];
      PrefixCounts(hits, m);
    }
  }

  lemma FractionOfBest(x: real, best: real)
    requires 0.0 <= x <= best && best > 0.0
    ensures 0.0 <= x / best <= 1.0
    ensures x / best == 1.0 <==> x == best
  {
  }

  lemma {:induction false} PrefixCounts(hits: seq<bool>, m: nat)
    requires StartsWithHits(hits, m)
    ensures Count(hits) >= m
    decreases m
  {
    if m > 0 {
      assert forall i :: 0 <= i < m - 1 ==> hits[i + 1] == hits[1..][i];
      PrefixCounts(hits[1..], m - 1);
    }
  }

  lemma {:induction false} RepeatsHaveFewerElements<T>(s: seq<T>)
    ensures |Elements(s)| <= |s|
    ensures !NoDuplicates(s) ==> |Elements(s)| < |s|
    decreases |s|
  {
    if s != [] {
      RepeatsHaveFewerElements(s[1..]);
      if s[0] in s[1..] {
        assert Elements(s) == Elements(s[1..]);
      } else {
        assert Elements(s) == Elements(s[1..]) + {s[0]};
      }
    } else {
      assert Elements(s) == {};
    }
  }

  lemma MoreThanBest(x: real, best: real)
    requires x > best > 0.0
    ensures x / best > 1.0
  {
    assert x / best * best == x;
  }

  /** Where the first k documents repeat any, the query they answer, all of them, scores above 1. */
  lemma ADuplicateScoresAboveOne<T>(discount: Discount, retrieved: seq<T>, k: nat)
    requires Falls(discount) && !NoDuplicates(Take(retrieved, k))
    ensures NdcgAt(discount, retrieved, Elements(Take(retrieved, k)), k) > 1.0
  {
    var top := Take(retrieved, k);
    var relevant := Elements(top);
    RepeatsHaveFewerElements(top);
    assert top[0] in relevant;
    assert Hits(top, relevant) == All(|top|);
    IdealIsPositive(discount, |relevant|, 0);
    IdealGrows(discount, |relevant|, |top|, 0);
    MoreThanBest(Dcg(discount, All(|top|), 0), Dcg(discount, All(|relevant|), 0));
  }

  /** nDCG is a fraction for every query, whatever is relevant to it, exactly when the first k documents
      repeat none. */
  lemma NdcgIsAFractionExactlyWithoutRepeats<T(!new)>(discount: Discount, retrieved: seq<T>, k: nat)
    requires Falls(discount)
    ensures (forall relevant: set<T> :: 0.0 <= NdcgAt(discount, retrieved, relevant, k) <= 1.0)
            <==> NoDuplicates(Take(retrieved, k))
  {
    if NoDuplicates(Take(retrieved, k)) {
      forall relevant: set<T>
        ensures 0.0 <= NdcgAt(discount, retrieved, relevant, k) <= 1.0
      {
        if relevant != {} && k >= 1 {
          NdcgIsOneExactlyOnIdealRankings(discount, retrieved, relevant, k);
        } else {
          assert Dcg(discount, All(0), 0) == 0.0;
        }
      }
    } else {
      ADuplicateScoresAboveOne(discount, retrieved, k);
    }
  }

  // ---------------------------------------------------------------- the ranking that is scored

  /** The corpus document a candidate's payload leads to; the empty id maps to nothing. */
  function DocumentOf(corpusOf: map<string, string>, payload: string): string {
    if payload in corpusOf then corpusOf[payload] else ""
  }

  function MappedOf(corpusOf: map<string, string>, candidates: seq<string>): seq<string> {
    if candidates == [] then []
    else
      var id := DocumentOf(corpusOf, candidates[|candidates| - 1]);
      MappedOf(corpusOf, candidates[..|candidates| - 1]) + if id == "" then [] else [id]
  }

  /** A candidate counts for the corpus document its payload names, if that is known and has an id. */
  lemma MappedOneByOne(corpusOf: map<string, string>, candidates: seq<string>, payload: string)
    ensures MappedOf(corpusOf, []) == []
    ensures MappedOf(corpusOf, candidates + [payload]) ==
            MappedOf(corpusOf, candidates)
            + if payload in corpusOf && corpusOf[payload] != "" then [corpusOf[payload]] else []
  {
    assert (candidates + [payload])[..|candidates|] == candidates;
  }

  /** `ranked` lists each document once, where it first appears. */
  ghost predicate FirstAppearances(ranked: seq<string>, mapped: seq<string>) {
    && NoDuplicates(ranked)
    && (forall id :: id in ranked <==> id in mapped)
    && (forall i, j :: 0 <= i < j < |ranked| ==> AppearsFirst(mapped, ranked[i], ranked[j]))
  }

  ghost predicate AppearsFirst(mapped: seq<string>, a: string, b: string) {
    exists n :: 0 <= n < |mapped| && a in mapped[..n] && b !in mapped[..n]
  }

  lemma StillAppearsFirst(mapped: seq<string>, id: string, a: string, b: string)
    requires AppearsFirst(mapped, a, b)
    ensures AppearsFirst(mapped + [id], a, b)
  {
    var n :| 0 <= n < |mapped| && a in mapped[..n] && b !in mapped[..n];
    assert (mapped + [id])[..n] == mapped[..n];
  }

  lemma OneMoreCandidate(ranked: seq<string>, mapped: seq<string>, id: string)
    requires FirstAppearances(ranked, mapped)
    ensures FirstAppearances(if id in ranked then ranked else ranked + [id], mapped + [id])
  {
    var after, all := if id in ranked then ranked else ranked + [id], mapped + [id];
    assert all[..|mapped|] == mapped;
    forall i, j | 0 <= i < j < |after|
      ensures AppearsFirst(all, after[i], after[j])
    {
      if j < |ranked| {
        StillAppearsFirst(mapped, id, ranked[i], ranked[j]);
      } else {
        assert after[i] == ranked[i] && after[i] in mapped && id !in mapped;
        assert after[i] in all[..|mapped|] && id !in all[..|mapped|];
      }
    }
  }

  /** The loop over one query's candidates. */
  method RankDocuments(corpusOf: map<string, string>, candidates: seq<string>)
    returns (ranked: seq<string>, unmapped: nat)
    ensures FirstAppearances(ranked, MappedOf(corpusOf, candidates))
    ensures unmapped + |MappedOf(corpusOf, candidates)| == |candidates|
  {
    ranked, unmapped := [], 0;
    for i := 0 to |candidates|
      invariant FirstAppearances(ranked, MappedOf(corpusOf, candidates[..i]))
      invariant unmapped + |MappedOf(corpusOf, candidates[..i])| == i
    {
      ghost var upTo := candidates[..i + 1];
      assert upTo[..|upTo| - 1] == candidates[..i];
      var id := DocumentOf(corpusOf, candidates[i]);
      if id == "" {
        assert MappedOf(corpusOf, upTo) == MappedOf(corpusOf, candidates[..i]);
        unmapped := unmapped + 1;
      } else {
        OneMoreCandidate(ranked, MappedOf(corpusOf, candidates[..i]), id);
        if id !in ranked {
          ranked := ranked + [id];
        }
      }
    }
    assert candidates[..|candidates|] == candidates;
  }
}
