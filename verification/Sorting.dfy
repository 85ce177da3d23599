/** Python's `sorted`: a stable sort by an order, and the sorted listing of a set of keys. */
module Sorting {

  ghost predicate TotalPreorder<T(!new)>(leq: (T, T) -> bool) {
    && (forall x, y :: leq(x, y) || leq(y, x))
    && (forall x, y, z :: leq(x, y) && leq(y, z) ==> leq(x, z))
  }

  ghost predicate TotalOrder<T(!new)>(leq: (T, T) -> bool) {
    && TotalPreorder(leq)
    && (forall x, y :: leq(x, y) && leq(y, x) ==> x == y)
  }

  ghost predicate Sorted<T>(leq: (T, T) -> bool, s: seq<T>) {
    forall i, j :: 0 <= i < j < |s| ==> leq(s[i], s[j])
  }

  ghost predicate NoDuplicates<T>(s: seq<T>) {
    forall i, j :: 0 <= i < j < |s| ==> s[i] != s[j]
  }

  function Elements<T>(s: seq<T>): set<T> {
    set x | x in s
  }

  // ---------------------------------------------------------------- the stable sort

  /** Places `x` before everything it is not above: an earlier element stays before its equals. */
  function Insert<T>(leq: (T, T) -> bool, x: T, s: seq<T>): seq<T> {
    if s == [] then [x]
    else if leq(x, s[0]) then [x] + s
    else [s[0]] + Insert(leq, x, s[1..])
  }

  function SortBy<T>(leq: (T, T) -> bool, s: seq<T>): seq<T> {
    if s == [] then [] else Insert(leq, s[0], SortBy(leq, s[1..]))
  }

  lemma {:induction false} InsertPermutes<T>(leq: (T, T) -> bool, x: T, s: seq<T>)
    ensures multiset(Insert(leq, x, s)) == multiset([x] + s)
  {
    if s != [] && !leq(x, s[0]) {
      InsertPermutes(leq, x, s[1..]);
      assert s == [s[0]] + s[1..];
      assert multiset(Insert(leq, x, s)) == multiset([s[0]]) + multiset(Insert(leq, x, s[1..]));
    }
  }

  lemma {:induction false} InsertSorts<T(!new)>(leq: (T, T) -> bool, x: T, s: seq<T>)
    requires TotalPreorder(leq) && Sorted(leq, s)
    ensures Sorted(leq, Insert(leq, x, s))
  {
    if s != [] {
      if leq(x, s[0]) {
        forall y | y in s
          ensures leq(x, y)
        {
          assert leq(s[0], y);
        }
      } else {
        var rest := Insert(leq, x, s[1..]);
        InsertSorts(leq, x, s[1..]);
        InsertPermutes(leq, x, s[1..]);
        forall y | y in rest
          ensures leq(s[0], y)
        {
          assert y in multiset(rest);
          assert y == x || y in s[1..];
        }
      }
    }
  }

  /** Sorting keeps every element and its multiplicity, and puts them in order. */
  lemma {:induction false} SortBySorts<T(!new)>(leq: (T, T) -> bool, s: seq<T>)
    requires TotalPreorder(leq)
    ensures Sorted(leq, SortBy(leq, s))
    ensures multiset(SortBy(leq, s)) == multiset(s)
    ensures |SortBy(leq, s)| == |s|
    ensures Elements(SortBy(leq, s)) == Elements(s)
  {
    if s != [] {
      SortBySorts(leq, s[1..]);
      InsertSorts(leq, s[0], SortBy(leq, s[1..]));
      InsertPermutes(leq, s[0], SortBy(leq, s[1..]));
      assert s == [s[0]] + s[1..];
    }
    SameMultisetSameElements(SortBy(leq, s), s);
  }

  function Filter<T>(p: T -> bool, s: seq<T>): seq<T> {
    if s == [] then []
    else Filter(p, s[..|s| - 1]) + if p(s[|s| - 1]) then [s[|s| - 1]] else []
  }

  lemma {:induction false} FilterOfConcat<T>(p: T -> bool, a: seq<T>, b: seq<T>)
    ensures Filter(p, a + b) == Filter(p, a) + Filter(p, b)
    decreases |b|
  {
    if b == [] {
      assert a + b == a;
    } else {
      assert (a + b)[..|a + b| - 1] == a + b[..|b| - 1];
      FilterOfConcat(p, a, b[..|b| - 1]);
    }
  }

  lemma FilterOfOne<T>(p: T -> bool, x: T)
    ensures Filter(p, [x]) == if p(x) then [x] else []
  {
    assert [x][..0] == [];
  }

  lemma FilterOfFirst<T>(p: T -> bool, x: T, s: seq<T>)
    ensures Filter(p, [x] + s) == (if p(x) then [x] else []) + Filter(p, s)
  {
    FilterOfConcat(p, [x], s);
    FilterOfOne(p, x);
  }

  ghost predicate AllTie<T(!new)>(leq: (T, T) -> bool, p: T -> bool) {
    forall x, y :: p(x) && p(y) ==> leq(x, y)
  }

  lemma FilterSwaps<T>(p: T -> bool, x: T, y: T, s: seq<T>)
    requires !(p(x) && p(y))
    ensures Filter(p, [x] + ([y] + s)) == Filter(p, [y] + ([x] + s))
  {
    FilterOfFirst(p, x, [y] + s);
    FilterOfFirst(p, y, s);
    FilterOfFirst(p, y, [x] + s);
    FilterOfFirst(p, x, s);
  }

  lemma {:induction false} InsertIsStable<T(!new)>(leq: (T, T) -> bool, p: T -> bool, x: T, s: seq<T>)
    requires AllTie(leq, p)
    ensures Filter(p, Insert(leq, x, s)) == Filter(p, [x] + s)
  {
    if s == [] {
      assert [x] + s == [x];
    } else if !leq(x, s[0]) {
      var first, rest := s[0], s[1..];
      InsertIsStable(leq, p, x, rest);
      FilterOfFirst(p, first, Insert(leq, x, rest));
      FilterOfFirst(p, first, [x] + rest);
      FilterSwaps(p, x, first, rest);
      assert s == [first] + rest;
    }
  }

  /** Elements that tie with each other keep their order. */
  lemma {:induction false} SortIsStable<T(!new)>(leq: (T, T) -> bool, p: T -> bool, s: seq<T>)
    requires AllTie(leq, p)
    ensures Filter(p, SortBy(leq, s)) == Filter(p, s)
  {
    if s != [] {
      SortIsStable(leq, p, s[1..]);
      InsertIsStable(leq, p, s[0], SortBy(leq, s[1..]));
      FilterOfFirst(p, s[0], SortBy(leq, s[1..]));
      FilterOfFirst(p, s[0], s[1..]);
      assert s == [s[0]] + s[1..];
    }
  }

  lemma SameMultisetSameElements<T>(s: seq<T>, t: seq<T>)
    requires multiset(s) == multiset(t)
    ensures Elements(s) == Elements(t) && |s| == |t|
  {
    assert |s| == |multiset(s)| && |t| == |multiset(t)|;
    forall x
      ensures x in s <==> x in t
    {
      assert x in s <==> x in multiset(s);
      assert x in t <==> x in multiset(t);
    }
  }

  /** The first element of a stable sort is the earliest of the least elements. */
  lemma {:induction false} FirstOfSortIsEarliestLeast<T(!new)>(leq: (T, T) -> bool, s: seq<T>) returns (at: nat)
    requires TotalPreorder(leq) && s != []
    ensures at < |s| && SortBy(leq, s) != [] && SortBy(leq, s)[0] == s[at]
    ensures forall i :: 0 <= i < |s| ==> leq(s[at], s[i])
    ensures forall i :: 0 <= i < at ==> !leq(s[i], s[at])
  {
    if |s| == 1 {
      assert SortBy(leq, s[1..]) == [];
      at := 0;
    } else {
      var rest := FirstOfSortIsEarliestLeast(leq, s[1..]);
      var least := s[1..][rest];
      if leq(s[0], least) {
        at := 0;
        forall i | 0 <= i < |s|
          ensures leq(s[0], s[i])
        {
          assert i > 0 ==> leq(least, s[1..][i - 1]);
        }
      } else {
        at := rest + 1;
        forall i | 0 <= i < |s|
          ensures leq(s[at], s[i]) && (i < at ==> !leq(s[i], s[at]))
        {
          assert i > 0 ==> s[i] == s[1..][i - 1];
        }
      }
    }
  }

  lemma SortedPermutationsStartAlike<T(!new)>(leq: (T, T) -> bool, s: seq<T>, t: seq<T>)
    requires TotalPreorder(leq) && Sorted(leq, s) && Sorted(leq, t) && s != [] && t != []
    requires Elements(s) == Elements(t)
    ensures leq(s[0], t[0]) && leq(t[0], s[0])
  {
    assert s[0] in Elements(s) && t[0] in Elements(t);
    var i :| 0 <= i < |t| && t[i] == s[0];
    var j :| 0 <= j < |s| && s[j] == t[0];
    assert leq(s[0], s[0]);
  }

  lemma TailMultiset<T>(s: seq<T>)
    requires s != []
    ensures multiset(s[1..]) == multiset(s) - multiset{s[0]}
  {
    assert s == [s[0]] + s[1..];
  }

  function Without<T>(s: seq<T>, i: nat): seq<T>
    requires i < |s|
  {
    s[..i] + s[i + 1..]
  }

  lemma SplitAround<T>(s: seq<T>, i: nat)
    requires i < |s|
    ensures s == s[..i] + ([s[i]] + s[i + 1..]) && Without(s, i) == s[..i] + s[i + 1..]
  {
  }

  lemma WithoutOneMultiset<T>(s: seq<T>, i: nat)
    requires i < |s|
    ensures multiset(s) == multiset(Without(s, i)) + multiset{s[i]}
  {
    assert s == s[..i] + [s[i]] + s[i + 1..];
  }

  lemma CancelOne<T>(a: multiset<T>, b: multiset<T>, x: T)
    requires a + multiset{x} == b + multiset{x}
    ensures a == b
  {
    assert a == a + multiset{x} - multiset{x};
    assert b == b + multiset{x} - multiset{x};
  }

  lemma SameWithoutOne<T>(a: seq<T>, i: nat, b: seq<T>, j: nat)
    requires multiset(a) == multiset(b) && i < |a| && j < |b| && a[i] == b[j]
    ensures multiset(Without(a, i)) == multiset(Without(b, j))
  {
    WithoutOneMultiset(a, i);
    WithoutOneMultiset(b, j);
    CancelOne(multiset(Without(a, i)), multiset(Without(b, j)), b[j]);
  }

  /** An element of one listing, found in another of the same elements. */
  lemma FindSame<T>(a: seq<T>, i: nat, b: seq<T>) returns (j: nat)
    requires multiset(a) == multiset(b) && i < |a|
    ensures j < |b| && b[j] == a[i]
  {
    SameMultisetSameElements(a, b);
    assert a[i] in Elements(b);
    j :| 0 <= j < |b| && b[j] == a[i];
  }

  /** `whole` is what each element has in it, all told. */
  ghost predicate AddsUp<T(!new), K>(whole: seq<T> -> multiset<K>, own: T -> multiset<K>) {
    forall s, i: nat :: i < |s| ==> whole(s) == own(s[i]) + whole(Without(s, i))
  }

  lemma {:induction false} AddingUpIgnoresOrder<T(!new), K>(
      whole: seq<T> -> multiset<K>, own: T -> multiset<K>, a: seq<T>, b: seq<T>)
    requires AddsUp(whole, own) && multiset(a) == multiset(b)
    ensures whole(a) == whole(b)
    decreases |a|
  {
    if a == [] {
      assert |b| == |multiset(b)|;
    } else {
      var j := FindSame(a, 0, b);
      SameWithoutOne(a, 0, b, j);
      AddingUpIgnoresOrder(whole, own, Without(a, 0), Without(b, j));
      assert whole(a) == own(a[0]) + whole(Without(a, 0));
      assert whole(b) == own(b[j]) + whole(Without(b, j));
    }
  }

  /** Where no two elements tie, there is only one sorted arrangement. */
  lemma {:induction false} SortedPermutationsAreEqual<T(!new)>(leq: (T, T) -> bool, s: seq<T>, t: seq<T>)
    requires TotalPreorder(leq) && Sorted(leq, s) && Sorted(leq, t) && multiset(s) == multiset(t)
    requires forall x, y :: x in s && y in s && leq(x, y) && leq(y, x) ==> x == y
    ensures s == t
    decreases |s|
  {
    SameMultisetSameElements(s, t);
    if s != [] {
      SortedPermutationsStartAlike(leq, s, t);
      assert t[0] in Elements(s);
      TailMultiset(s);
      TailMultiset(t);
      SortedPermutationsAreEqual(leq, s[1..], t[1..]);
      assert s == [s[0]] + s[1..] && t == [t[0]] + t[1..];
    }
  }

  // ---------------------------------------------------------------- listings of a set

  /** `listing` is the keys of a dict or set in order, each once. */
  ghost predicate IsListing<T>(leq: (T, T) -> bool, keys: set<T>, listing: seq<T>) {
    NoDuplicates(listing) && Elements(listing) == keys && Sorted(leq, listing)
  }

  lemma DistinctCount<T>(s: seq<T>)
    requires NoDuplicates(s)
    ensures |Elements(s)| == |s|
  {
    if s != [] {
      DistinctCount(s[1..]);
      assert Elements(s) == {s[0]} + Elements(s[1..]);
    } else {
      assert Elements(s) == {};
    }
  }

  /** There is only one sorted listing, whatever order the keys were inserted in. */
  lemma {:induction false} ListingIsUnique<T(!new)>(leq: (T, T) -> bool, keys: set<T>, s: seq<T>, t: seq<T>)
    requires TotalOrder(leq)
    requires IsListing(leq, keys, s) && IsListing(leq, keys, t)
    ensures s == t
    decreases |s|
  {
    DistinctCount(s);
    DistinctCount(t);
    if s != [] {
      assert s[0] in keys && t[0] in keys;
      assert s[0] in t && t[0] in s;
      assert leq(s[0], t[0]) && leq(t[0], s[0]) by {
        ListingStartsWithLeast(leq, keys, s, t[0]);
        ListingStartsWithLeast(leq, keys, t, s[0]);
      }
      ListingTail(leq, keys, s);
      ListingTail(leq, keys, t);
      ListingIsUnique(leq, keys - {s[0]}, s[1..], t[1..]);
      assert s == [s[0]] + s[1..] && t == [t[0]] + t[1..];
    }
  }

  lemma ListingStartsWithLeast<T(!new)>(leq: (T, T) -> bool, keys: set<T>, s: seq<T>, x: T)
    requires TotalOrder(leq) && IsListing(leq, keys, s) && x in keys
    ensures s != [] && leq(s[0], x)
  {
    assert x in Elements(s);
    var i :| 0 <= i < |s| && s[i] == x;
    assert i == 0 ==> leq(x, x);
  }

  lemma ListingTail<T>(leq: (T, T) -> bool, keys: set<T>, s: seq<T>)
    requires IsListing(leq, keys, s) && s != []
    ensures IsListing(leq, keys - {s[0]}, s[1..])
  {
    forall x
      ensures x in s[1..] <==> x in keys && x != s[0]
    {
      if x in s[1..] {
        assert x in Elements(s);
      }
      if x in keys && x != s[0] {
        assert x in Elements(s);
      }
    }
  }

  /** The dict or set, listed: its keys in any order, then sorted. */
  method SortedListing<T(!new, ==)>(leq: (T, T) -> bool, keys: set<T>) returns (listing: seq<T>)
    requires TotalOrder(leq)
    ensures IsListing(leq, keys, listing)
  {
    var items: seq<T> := [];
    var left := keys;
    while left != {}
      invariant NoDuplicates(items)
      invariant left <= keys && Elements(items) == keys - left
      decreases left
    {
      var x :| x in left;
      assert x !in Elements(items);
      assert Elements(items + [x]) == Elements(items) + {x};
      items := items + [x];
      left := left - {x};
    }
    listing := SortBy(leq, items);
    SortBySorts(leq, items);
    DistinctStaysDistinct(items, listing);
  }

  lemma {:induction false} ListingExists<T(!new)>(leq: (T, T) -> bool, keys: set<T>)
    requires TotalOrder(leq)
    ensures exists listing :: IsListing(leq, keys, listing)
    decreases keys
  {
    if keys == {} {
      assert IsListing(leq, keys, []);
    } else {
      var x :| x in keys;
      ListingExists(leq, keys - {x});
      var rest :| IsListing(leq, keys - {x}, rest);
      var listing := SortBy(leq, [x] + rest);
      SortBySorts(leq, [x] + rest);
      assert x !in Elements(rest);
      assert Elements([x] + rest) == {x} + Elements(rest);
      DistinctStaysDistinct([x] + rest, listing);
      assert IsListing(leq, keys, listing);
    }
  }

  /** The sorted listing of a set: the one there is. */
  ghost function ListingOf<T(!new)>(leq: (T, T) -> bool, keys: set<T>): (listing: seq<T>)
    requires TotalOrder(leq)
    ensures IsListing(leq, keys, listing)
  {
    ListingExists(leq, keys);
    var listing :| IsListing(leq, keys, listing);
    listing
  }

  lemma DistinctStaysDistinct<T>(s: seq<T>, t: seq<T>)
    requires NoDuplicates(s) && multiset(s) == multiset(t)
    ensures NoDuplicates(t)
  {
    forall i, j | 0 <= i < j < |t|
      ensures t[i] != t[j]
    {
      if t[i] == t[j] {
        var x := t[i];
        assert t == t[..i] + [x] + t[i + 1..j] + [x] + t[j + 1..];
        assert multiset(t)[x] >= 2;
        OccursOnce(s, x);
        assert false;
      }
    }
  }

  lemma OccursOnce<T>(s: seq<T>, x: T)
    requires NoDuplicates(s)
    ensures multiset(s)[x] <= 1
  {
    if s != [] {
      OccursOnce(s[1..], x);
      assert s == [s[0]] + s[1..];
      if s[0] == x {
        assert x !in s[1..];
        assert x !in multiset(s[1..]);
      }
    }
  }

  // ---------------------------------------------------------------- the order of strings

  /** Python's comparison of strings, by code point. */
  predicate StringLeq(a: string, b: string) {
    if a == [] then true
    else if b == [] then false
    else if a[0] != b[0] then a[0] < b[0]
    else StringLeq(a[1..], b[1..])
  }

  /** One text comes before another exactly when it is a prefix of it, or has the lesser character where they
      first differ. */
  lemma {:induction false} StringLeqExactlyWhen(a: string, b: string)
    ensures StringLeq(a, b) <==>
              a <= b || exists i :: 0 <= i < |a| && i < |b| && a[..i] == b[..i] && a[i] < b[i]
  {
    if a != [] && b != [] {
      StringLeqExactlyWhen(a[1..], b[1..]);
      if a[0] == b[0] {
        assert a == [a[0]] + a[1..] && b == [b[0]] + b[1..];
        if i :| 0 <= i < |a| && i < |b| && a[..i] == b[..i] && a[i] < b[i] {
          assert a[1..][..i - 1] == a[..i][1..] && b[1..][..i - 1] == b[..i][1..];
          assert a[1..][i - 1] < b[1..][i - 1];
        }
        if i :| 0 <= i < |a[1..]| && i < |b[1..]| && a[1..][..i] == b[1..][..i] && a[1..][i] < b[1..][i] {
          assert a[..i + 1] == [a[0]] + a[1..][..i] && b[..i + 1] == [b[0]] + b[1..][..i];
          assert a[i + 1] < b[i + 1];
        }
      } else {
        assert a[0] < b[0] ==> a[..0] == b[..0];
        forall i | 0 < i <= |a| && i <= |b|
          ensures a[..i] != b[..i]
        {
          assert a[..i][0] != b[..i][0];
        }
      }
    }
  }

  lemma StringLeqIsTotalOrder()
    ensures TotalOrder(StringLeq)
  {
    forall x, y
      ensures StringLeq(x, y) || StringLeq(y, x)
      ensures StringLeq(x, y) && StringLeq(y, x) ==> x == y
    {
      StringLeqIsConnected(x, y);
    }
    forall x, y, z | StringLeq(x, y) && StringLeq(y, z)
      ensures StringLeq(x, z)
    {
      StringLeqIsTransitive(x, y, z);
    }
  }

  lemma {:induction false} StringLeqIsConnected(x: string, y: string)
    ensures StringLeq(x, y) || StringLeq(y, x)
    ensures StringLeq(x, y) && StringLeq(y, x) ==> x == y
  {
    if x != [] && y != [] && x[0] == y[0] {
      StringLeqIsConnected(x[1..], y[1..]);
      assert x == [x[0]] + x[1..] && y == [y[0]] + y[1..];
    }
  }

  lemma {:induction false} StringLeqIsTransitive(x: string, y: string, z: string)
    requires StringLeq(x, y) && StringLeq(y, z)
    ensures StringLeq(x, z)
  {
    if x != [] && y != [] && z != [] && x[0] == y[0] == z[0] {
      StringLeqIsTransitive(x[1..], y[1..], z[1..]);
    }
  }
}
