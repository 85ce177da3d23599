/** The OCR character error score: a two-row dynamic program over the shorter text, shown to
    compute the least number of single-character edits between the two texts. */
module EditDistance {
  import opened Common

  const CHARACTER_BUDGET: nat := 12000

  datatype Score =
    | Scored(edits: nat, expectedCharacters: nat, characterErrorRate: real)
    | OverBudget

  function Init(s: string): string
    requires s != []
  {
    s[..|s| - 1]
  }

  function Last(s: string): char
    requires s != []
  {
    s[|s| - 1]
  }

  /** The recurrence the two rows tabulate, on the last characters of both texts. */
  function Distance(a: string, b: string): nat
    decreases |a| + |b|
  {
    if a == [] then |b|
    else if b == [] then |a|
    else
      Min(Min(Distance(Init(a), b) + 1, Distance(a, Init(b)) + 1),
          Distance(Init(a), Init(b)) + if Last(a) == Last(b) then 0 else 1)
  }

  // ---------------------------------------------------------------- bounds and symmetry

  lemma {:induction false} DistanceBounds(a: string, b: string)
    ensures Max(|a|, |b|) - Min(|a|, |b|) <= Distance(a, b) <= Max(|a|, |b|)
    decreases |a| + |b|
  {
    if a != [] && b != [] {
      DistanceBounds(Init(a), b);
      DistanceBounds(a, Init(b));
      DistanceBounds(Init(a), Init(b));
    }
  }

  lemma {:induction false} DistanceIsSymmetric(a: string, b: string)
    ensures Distance(a, b) == Distance(b, a)
    decreases |a| + |b|
  {
    if a != [] && b != [] {
      DistanceIsSymmetric(Init(a), b);
      DistanceIsSymmetric(a, Init(b));
      DistanceIsSymmetric(Init(a), Init(b));
    }
  }

  lemma {:induction false} DistanceIsZeroOnlyOnEqualTexts(a: string, b: string)
    ensures Distance(a, b) == 0 <==> a == b
    decreases |a| + |b|
  {
    if a != [] && b != [] {
      DistanceIsZeroOnlyOnEqualTexts(Init(a), Init(b));
      assert a == Init(a) + [Last(a)] && b == Init(b) + [Last(b)];
    }
  }

  lemma {:induction false} TriangleInequality(a: string, b: string, c: string)
    ensures Distance(a, c) <= Distance(a, b) + Distance(b, c)
    decreases |a| + |b| + |c|
  {
    DistanceBounds(a, b);
    DistanceBounds(b, c);
    DistanceBounds(a, c);
    if a != [] && b != [] && c != [] {
      var removesA, addsB := Distance(a, b) == Distance(Init(a), b) + 1, Distance(a, b) == Distance(a, Init(b)) + 1;
      var removesB, addsC := Distance(b, c) == Distance(Init(b), c) + 1, Distance(b, c) == Distance(b, Init(c)) + 1;
      if removesA {
        TriangleInequality(Init(a), b, c);
      } else if addsC {
        TriangleInequality(a, b, Init(c));
      } else {
        TriangleInequality(if addsB then a else Init(a), Init(b), if removesB then c else Init(c));
      }
    }
  }

  // ---------------------------------------------------------------- edit scripts

  /** An alignment of two texts, read from left to right. */
  datatype Edit = Keep | Insert(c: char) | Delete | Substitute(c: char)

  /** What a script turns `source` into; None when it does not consume exactly `source`. */
  function Apply(script: seq<Edit>, source: string): Option<string> {
    if script == [] then
      if source == [] then Some([]) else None
    else
      var edit, before := script[|script| - 1], script[..|script| - 1];
      if edit.Insert? then
        Extend(Apply(before, source), [edit.c])
      else if source == [] then
        None
      else
        var tail := match edit
          case Keep => [Last(source)]
          case Substitute(c) => [c]
          case _ => [];
        Extend(Apply(before, Init(source)), tail)
  }

  function Extend(text: Option<string>, tail: string): Option<string> {
    if text.Some? then Some(text.value + tail) else None
  }

  function Cost(script: seq<Edit>): nat {
    if script == [] then 0
    else Cost(script[..|script| - 1]) + if script[|script| - 1].Keep? then 0 else 1
  }

  lemma {:induction false} NoScriptIsCheaper(script: seq<Edit>, source: string)
    ensures var target := Apply(script, source);
            target.Some? ==> Distance(source, target.value) <= Cost(script)
  {
    var target := Apply(script, source);
    if script != [] && target.Some? {
      var edit, before := script[|script| - 1], script[..|script| - 1];
      var rest := if edit.Insert? then source else Init(source);
      NoScriptIsCheaper(before, rest);
      var prefix := Apply(before, rest).value;
      if edit.Delete? {
        assert target.value == prefix;
      } else {
        assert Init(target.value) == prefix;
      }
    }
  }

  lemma {:induction false} SomeScriptIsAsCheap(a: string, b: string) returns (script: seq<Edit>)
    ensures Apply(script, a) == Some(b)
    ensures Cost(script) == Distance(a, b)
    decreases |a| + |b|
  {
    if a == [] && b == [] {
      script := [];
    } else {
      var before: seq<Edit>;
      var edit: Edit;
      if b != [] && Distance(a, b) == Distance(a, Init(b)) + 1 {
        before := SomeScriptIsAsCheap(a, Init(b));
        edit := Insert(Last(b));
      } else if a != [] && Distance(a, b) == Distance(Init(a), b) + 1 {
        before := SomeScriptIsAsCheap(Init(a), b);
        edit := Delete;
      } else {
        before := SomeScriptIsAsCheap(Init(a), Init(b));
        edit := if Last(a) == Last(b) then Keep else Substitute(Last(b));
      }
      script := before + [edit];
      assert script[..|script| - 1] == before;
      assert b != [] ==> Init(b) + [Last(b)] == b;
      assert b + [] == b;
    }
  }

  // ---------------------------------------------------------------- single-character edits

  ghost predicate Inserts(x: string, y: string, i: nat) {
    i <= |x| && |y| == |x| + 1 && y[..i] == x[..i] && y[i + 1..] == x[i..]
  }

  ghost predicate Replaces(x: string, y: string, i: nat) {
    i < |x| && |y| == |x| && y[..i] == x[..i] && y[i + 1..] == x[i + 1..]
  }

  /** One insertion, deletion or substitution anywhere in the text. */
  ghost predicate OneEdit(x: string, y: string) {
    exists i: nat :: Inserts(x, y, i) || Inserts(y, x, i) || Replaces(x, y, i)
  }

  /** A run of texts, each one edit away from the one before. */
  ghost predicate IsEditing(texts: seq<string>, a: string, b: string) {
    && texts != []
    && texts[0] == a && texts[|texts| - 1] == b
    && forall i :: 0 <= i < |texts| - 1 ==> OneEdit(texts[i], texts[i + 1])
  }

  lemma {:induction false} SharedSuffixCostsNothing(a: string, b: string, s: string)
    ensures Distance(a + s, b + s) <= Distance(a, b)
    decreases |s|
  {
    if s == [] {
      assert a + s == a && b + s == b;
    } else {
      SharedSuffixCostsNothing(a, b, Init(s));
      assert Init(a + s) == a + Init(s) && Init(b + s) == b + Init(s);
    }
  }

  lemma {:induction false} OneEditIsWithinOne(x: string, y: string)
    requires OneEdit(x, y)
    ensures Distance(x, y) <= 1
  {
    var i: nat :| Inserts(x, y, i) || Inserts(y, x, i) || Replaces(x, y, i);
    if Inserts(x, y, i) {
      InsertionIsWithinOne(x, y, i);
    } else if Inserts(y, x, i) {
      InsertionIsWithinOne(y, x, i);
      DistanceIsSymmetric(x, y);
    } else {
      ReplacementIsWithinOne(x, y, i);
    }
  }

  lemma LastReplacedIsWithinOne(p: string, c: char, d: char)
    ensures Distance(p + [c], p + [d]) <= 1
  {
    assert Init(p + [c]) == p && Init(p + [d]) == p;
    DistanceIsZeroOnlyOnEqualTexts(p, p);
  }

  lemma ReplacementIsWithinOne(x: string, y: string, i: nat)
    requires Replaces(x, y, i)
    ensures Distance(x, y) <= 1
  {
    var p := x[..i];
    LastReplacedIsWithinOne(p, x[i], y[i]);
    SharedSuffixCostsNothing(p + [x[i]], p + [y[i]], x[i + 1..]);
    assert x == p + [x[i]] + x[i + 1..];
    assert y == p + [y[i]] + x[i + 1..];
  }

  lemma InsertionIsWithinOne(x: string, y: string, i: nat)
    requires Inserts(x, y, i)
    ensures Distance(x, y) <= 1
  {
    var p := x[..i];
    assert Init(p + [y[i]]) == p;
    DistanceIsZeroOnlyOnEqualTexts(p, p);
    SharedSuffixCostsNothing(p, p + [y[i]], x[i..]);
    assert x == p + x[i..] && y == p + [y[i]] + x[i..];
  }

  /** However the edits are placed and ordered, they are at least as many as the score says. */
  lemma {:induction false} NoEditingIsShorter(texts: seq<string>, a: string, b: string)
    requires IsEditing(texts, a, b)
    ensures Distance(a, b) <= |texts| - 1
    decreases |texts|
  {
    if |texts| == 1 {
      DistanceIsZeroOnlyOnEqualTexts(a, b);
    } else {
      NoEditingIsShorter(texts[1..], texts[1], b);
      OneEditIsWithinOne(a, texts[1]);
      TriangleInequality(a, texts[1], b);
    }
  }

  /** ... and exactly that many suffice. */
  lemma {:induction false} SomeEditingIsAsShort(a: string, b: string) returns (texts: seq<string>)
    ensures IsEditing(texts, a, b)
    ensures |texts| - 1 == Distance(a, b)
    decreases |a| + |b|
  {
    if a == [] && b == [] {
      texts := [a];
    } else if b != [] && Distance(a, b) == Distance(a, Init(b)) + 1 {
      var before := SomeEditingIsAsShort(a, Init(b));
      assert Inserts(Init(b), b, |b| - 1);
      texts := AppendEdit(a, before, Init(b), b);
    } else if a != [] && Distance(a, b) == Distance(Init(a), b) + 1 {
      var after := SomeEditingIsAsShort(Init(a), b);
      assert Inserts(Init(a), a, |a| - 1);
      texts := PrependEdit(a, after, Init(a), b);
    } else {
      var stem := SomeEditingIsAsShort(Init(a), Init(b));
      texts := AlignLast(a, b, stem);
    }
  }

  lemma AlignLast(a: string, b: string, stem: seq<string>) returns (texts: seq<string>)
    requires a != [] && b != []
    requires IsEditing(stem, Init(a), Init(b))
    ensures IsEditing(texts, a, b)
    ensures |texts| == |stem| + if Last(a) == Last(b) then 0 else 1
  {
    texts := EditingExtends(stem, Init(a), Init(b), Last(b));
    assert b == Init(b) + [Last(b)] && a == Init(a) + [Last(a)];
    if Last(a) != Last(b) {
      var start := Init(a) + [Last(b)];
      assert Replaces(a, start, |a| - 1);
      texts := PrependEdit(a, texts, start, b);
    }
  }

  lemma AppendEdit(a: string, texts: seq<string>, end: string, b: string) returns (r: seq<string>)
    requires IsEditing(texts, a, end)
    requires OneEdit(end, b)
    ensures IsEditing(r, a, b) && |r| == |texts| + 1
  {
    r := texts + [b];
  }

  lemma PrependEdit(a: string, texts: seq<string>, start: string, b: string) returns (r: seq<string>)
    requires IsEditing(texts, start, b)
    requires OneEdit(a, start)
    ensures IsEditing(r, a, b) && |r| == |texts| + 1
  {
    r := [a] + texts;
    forall i | 0 <= i < |r| - 1
      ensures OneEdit(r[i], r[i + 1])
    {
      if i > 0 {
        assert r[i] == texts[i - 1] && r[i + 1] == texts[i - 1 + 1];
      }
    }
  }

  lemma EditingExtends(texts: seq<string>, a: string, b: string, c: char) returns (r: seq<string>)
    requires IsEditing(texts, a, b)
    ensures IsEditing(r, a + [c], b + [c]) && |r| == |texts|
  {
    r := seq(|texts|, i requires 0 <= i < |texts| => texts[i] + [c]);
    forall i | 0 <= i < |r| - 1
      ensures OneEdit(r[i], r[i + 1])
    {
      EditsExtend(texts[i], texts[i + 1], c);
    }
  }

  lemma EditsExtend(x: string, y: string, c: char)
    requires OneEdit(x, y)
    ensures OneEdit(x + [c], y + [c])
  {
    var i: nat :| Inserts(x, y, i) || Inserts(y, x, i) || Replaces(x, y, i);
    if Inserts(x, y, i) {
      assert Inserts(x + [c], y + [c], i) by {
        assert (y + [c])[i + 1..] == y[i + 1..] + [c];
        assert (x + [c])[i..] == x[i..] + [c];
      }
    } else if Inserts(y, x, i) {
      assert Inserts(y + [c], x + [c], i) by {
        assert (x + [c])[i + 1..] == x[i + 1..] + [c];
        assert (y + [c])[i..] == y[i..] + [c];
      }
    } else {
      assert Replaces(x + [c], y + [c], i) by {
        assert (x + [c])[i + 1..] == x[i + 1..] + [c];
        assert (y + [c])[i + 1..] == y[i + 1..] + [c];
      }
    }
  }

  // ---------------------------------------------------------------- the two-row program

  /** Row `row` of the table: the distances from every prefix of `left` to `right[..row]`. */
  ghost predicate IsRow(cells: seq<nat>, left: string, right: string, row: nat)
    requires row <= |right|
  {
    && |cells| <= |left| + 1
    && forall j :: 0 <= j < |cells| ==> cells[j] == Distance(left[..j], right[..row])
  }

  function NextCell(previous: seq<nat>, current: seq<nat>, same: bool): nat
    requires 0 < |current| < |previous|
  {
    Min(Min(current[|current| - 1] + 1, previous[|current|] + 1),
        previous[|current| - 1] + if same then 0 else 1)
  }

  lemma NextCellIsTheDistance(left: string, right: string, row: nat, previous: seq<nat>, current: seq<nat>)
    requires 0 < row <= |right|
    requires |previous| == |left| + 1 && IsRow(previous, left, right, row - 1)
    requires 0 < |current| <= |left| && IsRow(current, left, right, row)
    ensures NextCell(previous, current, left[|current| - 1] == right[row - 1])
         == Distance(left[..|current|], right[..row])
  {
    var column := |current|;
    assert Init(left[..column]) == left[..column - 1];
    assert Init(right[..row]) == right[..row - 1];
    assert previous[column] == Distance(left[..column], right[..row - 1]);
    assert previous[column - 1] == Distance(left[..column - 1], right[..row - 1]);
    assert current[column - 1] == Distance(left[..column - 1], right[..row]);
  }

  /** The inner loop: the row for `right[..row]` from the row before it. */
  method NextRow(left: string, right: string, row: nat, previous: seq<nat>) returns (current: seq<nat>)
    requires 0 < row <= |right|
    requires |previous| == |left| + 1 && IsRow(previous, left, right, row - 1)
    ensures |current| == |left| + 1 && IsRow(current, left, right, row)
  {
    var target := right[row - 1];
    current := [row];
    var column := 0;
    while column < |left|
      invariant 0 <= column <= |left|
      invariant |current| == column + 1 && IsRow(current, left, right, row)
    {
      var source := left[column];
      NextCellIsTheDistance(left, right, row, previous, current);
      current := current + [NextCell(previous, current, source == target)];
      column := column + 1;
    }
  }

  /** Scores `actual` against `expected`, both already reduced to their scored characters. */
  method CharacterErrors(expected: string, actual: string) returns (score: Score)
    ensures score.OverBudget? <==> Max(|expected|, |actual|) > CHARACTER_BUDGET
    ensures score.Scored? ==>
              && score.edits == Distance(expected, actual)
              && score.expectedCharacters == |expected|
              && score.characterErrorRate == Distance(expected, actual) as real / Max(1, |expected|) as real
  {
    var left, right := expected, actual;
    if Max(|left|, |right|) > CHARACTER_BUDGET {
      return OverBudget;
    }
    var denominator := |left|;
    if |left| > |right| {
      left, right := right, left;
    }
    var previous: seq<nat> := seq(|left| + 1, i => i);
    var row := 0;
    while row < |right|
      invariant 0 <= row <= |right|
      invariant |previous| == |left| + 1 && IsRow(previous, left, right, row)
    {
      row := row + 1;
      previous := NextRow(left, right, row, previous);
    }
    assert left[..|left|] == left && right[..|right|] == right;
    DistanceIsSymmetric(left, right);
    var edits := previous[|previous| - 1];
    score := Scored(edits, denominator, edits as real / Max(1, denominator) as real);
  }

  /** What the score means: the edits are the least number that turns one text into the other, none only
      for equal texts, and never more than the longer text has characters. */
  lemma {:induction false} TheScoreIsTheLeastNumberOfEdits(expected: string, actual: string)
    ensures forall script ::
              Apply(script, expected) == Some(actual) ==> Distance(expected, actual) <= Cost(script)
    ensures exists script ::
              Apply(script, expected) == Some(actual) && Cost(script) == Distance(expected, actual)
    ensures forall texts ::
              IsEditing(texts, expected, actual) ==> Distance(expected, actual) <= |texts| - 1
    ensures exists texts ::
              IsEditing(texts, expected, actual) && |texts| - 1 == Distance(expected, actual)
    ensures Distance(expected, actual) == 0 <==> expected == actual
    ensures Distance(expected, actual) <= Max(|expected|, |actual|)
  {
    DistanceIsZeroOnlyOnEqualTexts(expected, actual);
    DistanceBounds(expected, actual);
    forall script | Apply(script, expected) == Some(actual)
      ensures Distance(expected, actual) <= Cost(script)
    {
      NoScriptIsCheaper(script, expected);
    }
    var script := SomeScriptIsAsCheap(expected, actual);
    forall texts | IsEditing(texts, expected, actual)
      ensures Distance(expected, actual) <= |texts| - 1
    {
      NoEditingIsShorter(texts, expected, actual);
    }
    var texts := SomeEditingIsAsShort(expected, actual);
  }
}
