/** What several components share. */
module Common {
  datatype Option<+T> = None | Some(value: T) {
    function GetOr(default: T): T {
      if Some? then value else default
    }
  }

  function Min(x: int, y: int): int {
    if y < x then y else x
  }

  function Max(x: int, y: int): int {
    if x < y then y else x
  }

  /** The first `n` of them, or all there are. */
  function Take<T>(s: seq<T>, n: nat): seq<T> {
    if n < |s| then s[..n] else s
  }

  function Sum(xs: seq<real>): real {
    if xs == [] then 0.0 else Sum(xs[..|xs| - 1]) + xs[|xs| - 1]
  }

  lemma SumOneMore(xs: seq<real>, x: real)
    ensures Sum(xs + [x]) == Sum(xs) + x
  {
    assert (xs + [x])[..|xs|] == xs;
  }

  function Each<T>(own: T -> real, s: seq<T>): seq<real> {
    seq(|s|, i requires 0 <= i < |s| => own(s[i]))
  }

  /** What each element adds to, whatever came before it, is the sum over the elements. */
  lemma {:induction false} TotalIsSum<T(!new)>(total: seq<T> -> real, own: T -> real, s: seq<T>)
    requires total([]) == 0.0 && forall before, x :: total(before + [x]) == total(before) + own(x)
    ensures total(s) == Sum(Each(own, s))
    decreases |s|
  {
    if s != [] {
      var before, last := s[..|s| - 1], s[|s| - 1];
      TotalIsSum(total, own, before);
      assert s == before + [last] && Each(own, s) == Each(own, before) + [own(last)];
      SumOneMore(Each(own, before), own(last));
    }
  }

  lemma SubsetIsNoLarger<T>(part: set<T>, whole: set<T>)
    requires part <= whole
    ensures |part| <= |whole|
  {
    assert whole == part + (whole - part);
  }

  lemma QuotientGrows(x: real, y: real, n: real)
    requires x <= y && n > 0.0
    ensures x / n <= y / n
  {
  }
}
