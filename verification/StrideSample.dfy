/** A sample without chance: each category gives rows at even distances. */
module StrideSample {
  import opened Common
  import opened Sorting

  datatype Row = Row(category: string, question: string)

  function InCategory(rows: seq<Row>, category: string): seq<Row> {
    if rows == [] then []
    else
      var last := rows[|rows| - 1];
      InCategory(rows[..|rows| - 1], category) + if last.category == category then [last] else []
  }

  /** The categories in the order they first appear. */
  function Categories(rows: seq<Row>): seq<string> {
    if rows == [] then []
    else
      var before, last := Categories(rows[..|rows| - 1]), rows[|rows| - 1];
      if last.category in before then before else before + [last.category]
  }

  lemma {:induction false} CategoriesAreListedOnce(rows: seq<Row>)
    ensures NoDuplicates(Categories(rows))
    ensures forall category :: category in Categories(rows) <==> InCategory(rows, category) != []
    decreases |rows|
  {
    if rows != [] {
      CategoriesAreListedOnce(rows[..|rows| - 1]);
    }
  }

  // ---------------------------------------------------------------- a category's share

  /** `round(a / b)`, ties to even. */
  function RoundedQuotient(a: nat, b: nat): nat
    requires b > 0
  {
    var q, r := a / b, a % b;
    if 2 * r < b || (2 * r == b && q % 2 == 0) then q else q + 1
  }

  /** How many of a category's `size` rows a sample of `sample` out of `all` takes. */
  function Share(sample: nat, size: nat, all: nat): nat
    requires all > 0
  {
    Max(1, RoundedQuotient(sample * size, all))
  }

  /** The nearest whole number, and of two as near the even one. */
  lemma RoundedIsNearest(a: nat, b: nat)
    requires b > 0
    ensures var distance := RoundedQuotient(a, b) * b - a;
            && 0 - b <= 2 * distance <= b
            && (2 * distance == b || 2 * distance == 0 - b ==> RoundedQuotient(a, b) % 2 == 0)
  {
    var q := a / b;
    assert a == q * b + a % b;
    Distribute(q, 1, b);
  }

  /** A share is the rounded proportion, and one row where that would be none. */
  lemma ShareIsRounded(sample: nat, size: nat, all: nat)
    requires all > 0
    ensures Share(sample, size, all) == RoundedQuotient(sample * size, all) || RoundedQuotient(sample * size, all) == 0
    ensures RoundedQuotient(sample * size, all) == 0 ==> Share(sample, size, all) == 1
  {
  }

  lemma RoundedIsNear(a: nat, b: nat)
    requires b > 0
    ensures a - b < RoundedQuotient(a, b) * b < a + b
  {
    var q := a / b;
    assert a == q * b + a % b;
    Distribute(q, 1, b);
  }

  lemma Distribute(x: int, y: int, z: int)
    ensures (x + y) * z == x * z + y * z
    ensures (x - y) * z == x * z - y * z
  {
  }

  lemma ProductsGrow(x: int, y: int, z: int)
    requires x <= y && z >= 0
    ensures x * z <= y * z
  {
    Distribute(y, x, z);
  }

  lemma LesserFactor(x: int, y: int, z: int)
    requires x * z < y * z && z >= 0
    ensures x < y
  {
    if x >= y {
      ProductsGrow(y, x, z);
    }
  }

  /** A share is within the category, and off its exact proportion by less than one row. */
  lemma ShareIsNear(sample: nat, size: nat, all: nat)
    requires 0 < sample < all && 0 < size
    ensures 1 <= Share(sample, size, all) <= size
    ensures sample * size - all < Share(sample, size, all) * all < sample * size + all
  {
    var rounded := RoundedQuotient(sample * size, all);
    RoundedIsNear(sample * size, all);
    Distribute(all, sample, size);
    ProductsGrow(1, all - sample, size);
    ProductsGrow(1, sample, size);
    Distribute(size, 1, all);
    LesserFactor(rounded, size + 1, all);
  }

  // ---------------------------------------------------------------- striding

  /** `rows[::stride]`. */
  function Strided(rows: seq<Row>, stride: nat): seq<Row>
    requires stride > 0
    decreases |rows|
  {
    if rows == [] then []
    else [rows[0]] + Strided(if stride <= |rows| then rows[stride..] else [], stride)
  }

  function Stride(size: nat, take: nat): (stride: nat)
    requires take > 0
    ensures stride >= 1
  {
    Max(1, size / take)
  }

  function Picked(group: seq<Row>, take: nat): seq<Row>
    requires take > 0
  {
    Take(Strided(group, Stride(|group|, take)), take)
  }

  /** Where the i-th row of a stride stands. */
  function Spot(i: nat, stride: nat): nat {
    i * stride
  }

  lemma {:induction false} StridedAt(rows: seq<Row>, stride: nat, i: nat)
    requires stride > 0
    ensures i < |Strided(rows, stride)| <==> Spot(i, stride) < |rows|
    ensures Spot(i, stride) < |rows| ==> Strided(rows, stride)[i] == rows[Spot(i, stride)]
    decreases |rows|
  {
    if rows != [] && i > 0 {
      var rest := if stride <= |rows| then rows[stride..] else [];
      Distribute(i, 1, stride);
      assert Spot(i, stride) == Spot(i - 1, stride) + stride;
      StridedAt(rest, stride, i - 1);
    }
  }

  lemma StrideFits(size: nat, take: nat, i: nat)
    requires i < take <= size
    ensures Spot(i, Stride(size, take)) < size
  {
    var stride := size / take;
    assert size == stride * take + size % take;
    assert stride >= 1 by {
      LesserFactor(0, stride, take);
    }
    ProductsGrow(i + 1, take, stride);
    Distribute(i, 1, stride);
  }

  lemma StrideReaches(group: seq<Row>, take: nat, i: nat)
    requires i < take <= |group|
    ensures var strided, spot := Strided(group, Stride(|group|, take)), Spot(i, Stride(|group|, take));
            spot < |group| && i < |strided| && strided[i] == group[spot]
  {
    StrideFits(|group|, take, i);
    StridedAt(group, Stride(|group|, take), i);
  }

  /** The stride never runs out early: a category gives exactly its share, evenly spaced. */
  lemma EveryShareIsFilled(group: seq<Row>, take: nat, i: nat)
    requires i < take <= |group|
    ensures |Picked(group, take)| == take
    ensures var spot := Spot(i, Stride(|group|, take));
            spot < |group| && Picked(group, take)[i] == group[spot]
  {
    StrideReaches(group, take, i);
    StrideReaches(group, take, take - 1);
  }

  /** The first row picked is the category's first, and each next one stands as many rows further on as whole
      times the picks go into the category. */
  lemma PicksAreEvenlySpaced(size: nat, take: nat, i: nat)
    requires 0 < take <= size
    ensures var stride := Stride(size, take);
            Spot(0, stride) == 0 && Spot(i + 1, stride) == Spot(i, stride) + size / take
  {
    WholeTimes(size, take);
    Distribute(i, 1, size / take);
  }

  lemma WholeTimes(size: nat, take: nat)
    requires 0 < take <= size
    ensures size / take >= 1
  {
  }

  // ---------------------------------------------------------------- the sample

  function PickAll(rows: seq<Row>, categories: seq<string>, sample: nat): seq<Row>
    requires rows != []
  {
    if categories == [] then []
    else
      var group := InCategory(rows, categories[|categories| - 1]);
      PickAll(rows, categories[..|categories| - 1], sample) + Picked(group, Share(sample, |group|, |rows|))
  }

  function Chosen(rows: seq<Row>, category: string): seq<Row> {
    if category == "" then rows else InCategory(rows, category)
  }

  function Sampled(rows: seq<Row>, category: string, sample: int): seq<Row> {
    var pool := Chosen(rows, category);
    if sample <= 0 || sample >= |pool| then pool else PickAll(pool, Categories(pool), sample)
  }

  /** The dict of the rows by category, and its keys in insertion order. */
  method GroupRows(rows: seq<Row>) returns (names: seq<string>, groups: map<string, seq<Row>>)
    ensures AreGroups(rows, names, groups)
  {
    names, groups := [], map[];
    for i := 0 to |rows|
      invariant AreGroups(rows[..i], names, groups)
    {
      var name := rows[i].category;
      NextGroup(rows[..i], rows[i], names, groups);
      assert rows[..i + 1] == rows[..i] + [rows[i]];
      if name in groups {
        groups := groups[name := groups[name] + [rows[i]]];
      } else {
        names, groups := names + [name], groups[name := [rows[i]]];
      }
    }
    assert rows[..|rows|] == rows;
  }

  /** The rows by category, and the categories in order of first appearance. */
  ghost predicate AreGroups(rows: seq<Row>, names: seq<string>, groups: map<string, seq<Row>>) {
    && names == Categories(rows) && groups.Keys == Elements(names)
    && forall name :: name in groups ==> groups[name] == InCategory(rows, name)
  }

  lemma NextGroup(before: seq<Row>, row: Row, names: seq<string>, groups: map<string, seq<Row>>)
    requires AreGroups(before, names, groups)
    ensures row.category in groups ==>
              AreGroups(before + [row], names, groups[row.category := groups[row.category] + [row]])
    ensures row.category !in groups ==>
              AreGroups(before + [row], names + [row.category], groups[row.category := [row]])
  {
    CategoriesAreListedOnce(before);
    assert (before + [row])[..|before|] == before;
    assert Elements(names + [row.category]) == Elements(names) + {row.category};
    assert row.category !in groups ==> InCategory(before, row.category) == [];
  }

  /** One category, or all of them; a sample no smaller than the rows is all of them too. */
  method Sample(rows: seq<Row>, category: string, sample: int) returns (out: seq<Row>)
    ensures out == Sampled(rows, category, sample)
  {
    var pool := rows;
    if category != "" {
      pool := InCategory(rows, category);
    }
    if sample <= 0 || sample >= |pool| {
      return pool;
    }
    var names, groups := GroupRows(pool);
    out := [];
    for i := 0 to |names|
      invariant out == PickAll(pool, names[..i], sample)
    {
      assert names[i] in Elements(names);
      assert names[..i + 1][..i] == names[..i];
      var group := groups[names[i]];
      out := out + Picked(group, Share(sample, |group|, |pool|));
    }
    assert names[..|names|] == names;
  }

  // ---------------------------------------------------------------- what the sample promises

  function Sizes(rows: seq<Row>, categories: seq<string>): nat {
    if categories == [] then 0
    else
      Sizes(rows, categories[..|categories| - 1]) + |InCategory(rows, categories[|categories| - 1])|
  }

  lemma {:induction false} OneMoreRow(before: seq<Row>, last: Row, categories: seq<string>)
    requires NoDuplicates(categories)
    ensures Sizes(before + [last], categories) ==
            Sizes(before, categories) + if last.category in categories then 1 else 0
    decreases |categories|
  {
    if categories != [] {
      OneMoreRow(before, last, categories[..|categories| - 1]);
      assert (before + [last])[..|before|] == before;
    }
  }

  lemma OneMoreCategory(rows: seq<Row>, categories: seq<string>, category: string)
    ensures Sizes(rows, categories + [category]) == Sizes(rows, categories) + |InCategory(rows, category)|
  {
    assert (categories + [category])[..|categories|] == categories;
  }

  lemma LastRowIsCounted(rows: seq<Row>, before: seq<Row>)
    requires rows != [] && before == rows[..|rows| - 1]
    ensures Sizes(rows, Categories(rows)) == Sizes(before, Categories(before)) + 1
  {
    var last := rows[|rows| - 1];
    assert rows == before + [last];
    CategoriesAreListedOnce(before);
    OneMoreRow(before, last, Categories(before));
    if last.category !in Categories(before) {
      assert InCategory(before, last.category) == [];
      OneMoreCategory(rows, Categories(before), last.category);
    }
  }

  /** A named category is all its rows, in order; no sample size, or one that is no smaller than what there is,
      takes them all. */
  lemma EverythingIsTaken(rows: seq<Row>, category: string, sample: int)
    ensures category == "" && (sample <= 0 || sample >= |rows|) ==> Sampled(rows, category, sample) == rows
    ensures var own := Filter((row: Row) => row.category == category, rows);
            category != "" && (sample <= 0 || sample >= |own|) ==> Sampled(rows, category, sample) == own
  {
    InCategoryIsFiltered(rows, category);
  }

  lemma {:induction false} InCategoryIsFiltered(rows: seq<Row>, category: string)
    ensures InCategory(rows, category) == Filter((row: Row) => row.category == category, rows)
    decreases |rows|
  {
    if rows != [] {
      InCategoryIsFiltered(rows[..|rows| - 1], category);
    }
  }

  /** The categories come in the order they first appear: of two, some beginning of the rows has the first and
      not the second. */
  lemma {:induction false} FirstSeenFirst(rows: seq<Row>, i: nat, j: nat)
    requires i < j < |Categories(rows)|
    ensures exists n :: 0 <= n <= |rows| && (exists row :: row in rows[..n] && row.category == Categories(rows)[i])
                        && forall row :: row in rows[..n] ==> row.category != Categories(rows)[j]
    decreases |rows|
  {
    var before := rows[..|rows| - 1];
    if j < |Categories(before)| {
      FirstSeenFirst(before, i, j);
      var n :| 0 <= n <= |before| && (exists row :: row in before[..n] && row.category == Categories(before)[i])
               && forall row :: row in before[..n] ==> row.category != Categories(before)[j];
      assert rows[..n] == before[..n];
    } else {
      var n := |before|;
      assert rows[..n] == before;
      SeenExactlyWhen(before, Categories(rows)[i]);
      SeenExactlyWhen(before, Categories(rows)[j]);
    }
  }

  lemma {:induction false} SeenExactlyWhen(rows: seq<Row>, category: string)
    ensures category in Categories(rows) <==> exists row :: row in rows && row.category == category
    decreases |rows|
  {
    if rows != [] {
      var before, last := rows[..|rows| - 1], rows[|rows| - 1];
      SeenExactlyWhen(before, category);
      assert rows == before + [last];
    }
  }

  /** Each category adds its own pick after those of the categories before it. */
  lemma PicksFollow(rows: seq<Row>, categories: seq<string>, category: string, sample: nat)
    requires rows != []
    ensures PickAll(rows, [], sample) == []
    ensures var own := Filter((row: Row) => row.category == category, rows);
            PickAll(rows, categories + [category], sample) ==
            PickAll(rows, categories, sample) + Picked(own, Share(sample, |own|, |rows|))
  {
    InCategoryIsFiltered(rows, category);
    assert (categories + [category])[..|categories|] == categories;
  }

  /** The categories split the rows: their sizes add up to all of them. */
  lemma {:induction false} CategoriesSplitTheRows(rows: seq<Row>)
    ensures Sizes(rows, Categories(rows)) == |rows|
    decreases |rows|
  {
    if rows != [] {
      CategoriesSplitTheRows(rows[..|rows| - 1]);
      LastRowIsCounted(rows, rows[..|rows| - 1]);
    }
  }

  /** `picked` rows stand for `size` rows of `categories` categories, each off by less than a row. */
  ghost predicate Near(picked: nat, size: nat, categories: nat, sample: nat, all: nat) {
    && sample * size - categories * (all - 1) <= picked * all
    && picked * all <= sample * size + categories * (all - 1)
  }

  lemma NearStep(picked: nat, size: nat, categories: nat, sample: nat, all: nat, share: nat, more: nat)
    requires all > 0 && Near(picked, size, categories, sample, all)
    requires sample * more - all < share * all < sample * more + all
    ensures Near(picked + share, size + more, categories + 1, sample, all)
  {
    Distribute(picked, share, all);
    Distribute(size, more, sample);
    Distribute(categories, 1, all - 1);
  }

  /** The picked rows against the exact proportion of the categories so far. */
  lemma {:induction false} PickedIsNear(rows: seq<Row>, categories: seq<string>, sample: nat)
    requires 0 < sample < |rows|
    requires forall category :: category in categories ==> InCategory(rows, category) != []
    ensures Near(|PickAll(rows, categories, sample)|, Sizes(rows, categories), |categories|, sample, |rows|)
    decreases |categories|
  {
    if categories != [] {
      var before, name := categories[..|categories| - 1], categories[|categories| - 1];
      var size := |InCategory(rows, name)|;
      PickedIsNear(rows, before, sample);
      ShareIsNear(sample, size, |rows|);
      EveryShareIsFilled(InCategory(rows, name), Share(sample, size, |rows|), 0);
      NearStep(|PickAll(rows, before, sample)|, Sizes(rows, before), |before|, sample, |rows|,
               Share(sample, size, |rows|), size);
    }
  }

  /** Proportional rounding and the one-row minimum move the size of the sample by less than the number
      of categories, and no category is left out. */
  lemma TheSampleIsProportional(rows: seq<Row>, category: string, sample: int, pool: seq<Row>)
    requires pool == Chosen(rows, category) && 0 < sample < |pool|
    ensures sample - |Categories(pool)| < |Sampled(rows, category, sample)| < sample + |Categories(pool)|
    ensures forall name :: name in Categories(pool) ==>
              var group := InCategory(pool, name);
              |group| > 0 && group[0] in Sampled(rows, category, sample)
  {
    CategoriesAreListedOnce(pool);
    CategoriesSplitTheRows(pool);
    assert Categories(pool) != [];
    PickedIsNear(pool, Categories(pool), sample);
    NearIsWithin(|PickAll(pool, Categories(pool), sample)|, sample, |Categories(pool)|, |pool|);
    forall name | name in Categories(pool)
      ensures InCategory(pool, name) != [] && InCategory(pool, name)[0] in PickAll(pool, Categories(pool), sample)
    {
      EveryCategoryIsPicked(pool, Categories(pool), sample, name);
    }
  }

  lemma NearIsWithin(picked: nat, sample: nat, categories: nat, all: nat)
    requires all > 0 && categories > 0 && Near(picked, all, categories, sample, all)
    ensures sample - categories < picked < sample + categories
  {
    Distribute(all, 1, categories);
    Distribute(sample, categories, all);
    LesserFactor(sample - categories, picked, all);
    LesserFactor(picked, sample + categories, all);
  }

  lemma {:induction false} EveryCategoryIsPicked(rows: seq<Row>, categories: seq<string>, sample: nat, name: string)
    requires 0 < sample < |rows| && name in categories && InCategory(rows, name) != []
    ensures InCategory(rows, name)[0] in PickAll(rows, categories, sample)
    decreases |categories|
  {
    var before, last := categories[..|categories| - 1], categories[|categories| - 1];
    if name == last {
      var group := InCategory(rows, name);
      var take := Share(sample, |group|, |rows|);
      ShareIsNear(sample, |group|, |rows|);
      EveryShareIsFilled(group, take, 0);
      assert Picked(group, take)[0] == group[0];
    } else {
      EveryCategoryIsPicked(rows, before, sample, name);
    }
  }
}
