/** What merging repeats computes: for every cell, from what all the repeats listed for it. */
module GateRepeats {
  import opened Common
  import opened Gate

  function MergeAll(repeats: seq<Run>): Result<Measurement, MergeError>
    requires repeats != []
  {
    var last := repeats[|repeats| - 1];
    if |repeats| == 1 then Ok(MeasurementOf(last))
    else
      var before := MergeAll(repeats[..|repeats| - 1]);
      if before.Err? then before else Merged(before.value, MeasurementOf(last))
  }

  /** The accuracies the repeats listed for a cell, in the order they were merged. */
  function Listings(repeats: seq<Run>, k: CellKey): seq<Accuracy> {
    if repeats == [] then []
    else
      var cells := CellsOf(repeats[|repeats| - 1].cells);
      Listings(repeats[..|repeats| - 1], k) + if k in cells then [cells[k].accuracy] else []
  }

  ghost predicate IsLeast(listed: seq<Accuracy>, v: nat) {
    Some(v) in listed && forall w :: Some(w) in listed ==> v <= w
  }

  ghost predicate IsGreatest(listed: seq<Accuracy>, v: nat) {
    Some(v) in listed && forall w :: Some(w) in listed ==> w <= v
  }

  ghost predicate Disagree(listed: seq<Accuracy>) {
    exists a, b :: a in listed && b in listed && a != b
  }

  /** A merged cell: unknown if the first repeat to list it could not say, and otherwise the
      least of what the repeats listed. */
  ghost predicate MeansCell(listed: seq<Accuracy>, cell: Option<Cell>) {
    && (cell.Some? <==> listed != [])
    && (cell.Some? ==>
          if listed[0].None? then cell.value.accuracy == None
          else cell.value.accuracy.Some? && IsLeast(listed, cell.value.accuracy.value))
  }

  /** A noise range: kept exactly when two repeats disagreed, and spanning all they listed. */
  ghost predicate MeansRange(listed: seq<Accuracy>, range: Option<Range>) {
    && (range.Some? <==> Disagree(listed))
    && (range.Some? ==> IsLeast(listed, range.value.lo) && IsGreatest(listed, range.value.hi))
  }

  lemma MergedCellStep(listed: seq<Accuracy>, mine: Option<Cell>, cell: Cell)
    requires MeansCell(listed, mine)
    ensures MeansCell(listed + [cell.accuracy], if Replaces(mine, cell) then Some(cell) else mine)
  {
    var all := listed + [cell.accuracy];
    forall w
      ensures Some(w) in all <==> Some(w) in listed || cell.accuracy == Some(w)
    {
    }
    if listed != [] {
      assert all[0] == listed[0];
    }
  }

  lemma MergedRangeStep(listed: seq<Accuracy>, mine: Cell, range: Option<Range>, value: Accuracy)
    requires MeansCell(listed, Some(mine)) && MeansRange(listed, range)
    ensures mine.accuracy == value ==> MeansRange(listed + [value], range)
    ensures mine.accuracy != value ==> MeansRange(listed + [value], Some(Widen(mine.accuracy, value, range)))
  {
    var all := listed + [value];
    forall a
      ensures a in all <==> a in listed || a == value
    {
    }
    assert mine.accuracy in listed;
    if range.None? {
      forall a | a in listed
        ensures a == mine.accuracy
      {
      }
    }
    if mine.accuracy == value {
      assert forall a :: a in all <==> a in listed;
    } else {
      assert mine.accuracy in all && value in all;
    }
  }

  lemma MergedRunStep(listed: seq<Accuracy>, m: Measurement, cells: map<CellKey, Cell>, k: CellKey)
    requires MeansCell(listed, Get(m.cells, k)) && MeansRange(listed, Get(m.noisy, k))
    ensures var all := listed + if k in cells then [cells[k].accuracy] else [];
            && MeansCell(all, Get(MergeCells(m.cells, cells), k))
            && MeansRange(all, Get(MergeNoise(m, cells), k))
  {
    if k in cells {
      MergedCellStep(listed, Get(m.cells, k), cells[k]);
      if k in m.cells {
        MergedRangeStep(listed, m.cells[k], Get(m.noisy, k), cells[k].accuracy);
      } else {
        assert listed + [cells[k].accuracy] == [cells[k].accuracy];
      }
    } else {
      assert listed + [] == listed;
    }
  }

  /** Folding the repeats in: accuracy and range of every cell, in terms of all its listings. */
  lemma {:induction false} MergedRepeatsMean(repeats: seq<Run>, k: CellKey)
    requires repeats != [] && MergeAll(repeats).Ok?
    ensures MeansCell(Listings(repeats, k), Get(MergeAll(repeats).value.cells, k))
    ensures MeansRange(Listings(repeats, k), Get(MergeAll(repeats).value.noisy, k))
    decreases |repeats|
  {
    var before, last := repeats[..|repeats| - 1], repeats[|repeats| - 1];
    var cells := CellsOf(last.cells);
    if |repeats| == 1 {
      assert Listings(before, k) == [];
      assert Listings(repeats, k) == if k in cells then [cells[k].accuracy] else [];
    } else {
      MergedRepeatsMean(before, k);
      MergedRunStep(Listings(before, k), MergeAll(before).value, cells, k);
    }
  }

  // ---------------------------------------------------------------- the order of the repeats

  predicate Lists(run: Run, k: CellKey, a: Accuracy) {
    k in CellsOf(run.cells) && CellsOf(run.cells)[k].accuracy == a
  }

  lemma {:induction false} ListedByARun(repeats: seq<Run>, k: CellKey, a: Accuracy)
    ensures a in Listings(repeats, k) <==> exists run :: run in repeats && Lists(run, k, a)
    decreases |repeats|
  {
    if repeats != [] {
      var before, last := repeats[..|repeats| - 1], repeats[|repeats| - 1];
      ListedByARun(before, k, a);
      assert repeats == before + [last];
      if a in Listings(before, k) {
        var run :| run in before && Lists(run, k, a);
        assert run in repeats;
      } else if a in Listings(repeats, k) {
        assert last in repeats && Lists(last, k, a);
      }
    }
  }

  lemma {:induction false} MergesExactlyWhen(repeats: seq<Run>)
    requires repeats != []
    ensures MergeAll(repeats).Ok? <==>
              forall run :: run in repeats ==>
                run.selection == repeats[0].selection && run.identities == repeats[0].identities
    ensures MergeAll(repeats).Ok? ==>
              && MergeAll(repeats).value.selection == repeats[0].selection
              && MergeAll(repeats).value.identities == repeats[0].identities
    decreases |repeats|
  {
    if |repeats| > 1 {
      var before, last := repeats[..|repeats| - 1], repeats[|repeats| - 1];
      MergesExactlyWhen(before);
      assert repeats == before + [last];
      assert before[0] == repeats[0];
    } else {
      assert repeats == [repeats[0]];
    }
  }

  lemma {:induction false} SameRunsMergeToo(repeats: seq<Run>, other: seq<Run>)
    requires repeats != [] && multiset(other) == multiset(repeats) && MergeAll(repeats).Ok?
    ensures other != [] && MergeAll(other).Ok?
  {
    assert repeats[0] in multiset(other);
    assert forall run :: run in other ==> run in multiset(repeats);
    MergesExactlyWhen(repeats);
    MergesExactlyWhen(other);
    assert other[0] in other;
  }

  ghost predicate SameCell(a: Measurement, b: Measurement, k: CellKey) {
    && (k in a.cells <==> k in b.cells)
    && (k in a.cells ==> a.cells[k].accuracy == b.cells[k].accuracy)
    && Get(a.noisy, k) == Get(b.noisy, k)
  }

  /** Some repeat measured the cell and some repeat could not. */
  ghost predicate HalfKnown(listed: seq<Accuracy>) {
    None in listed && exists v :: Some(v) in listed
  }

  lemma SameListings(repeats: seq<Run>, other: seq<Run>, k: CellKey)
    requires multiset(other) == multiset(repeats)
    ensures forall a :: a in Listings(other, k) <==> a in Listings(repeats, k)
  {
    forall a
      ensures a in Listings(other, k) <==> a in Listings(repeats, k)
    {
      ListedByARun(repeats, k, a);
      ListedByARun(other, k, a);
      assert forall run :: run in other <==> run in multiset(repeats);
    }
  }

  lemma EqualBounds(a: seq<Accuracy>, b: seq<Accuracy>)
    requires forall x :: x in a <==> x in b
    ensures forall v, w :: IsLeast(a, v) && IsLeast(b, w) ==> v == w
    ensures forall v, w :: IsGreatest(a, v) && IsGreatest(b, w) ==> v == w
    ensures Disagree(a) <==> Disagree(b)
    ensures a == [] <==> b == []
    ensures HalfKnown(a) <==> HalfKnown(b)
  {
    if a != [] {
      assert a[0] in b;
    }
    if b != [] {
      assert b[0] in a;
    }
  }

  lemma {:induction false} OrderDoesNotMatter(repeats: seq<Run>, other: seq<Run>, k: CellKey)
    requires repeats != [] && multiset(other) == multiset(repeats) && MergeAll(repeats).Ok?
    ensures other != [] && MergeAll(other).Ok?
    ensures Get(MergeAll(other).value.noisy, k) == Get(MergeAll(repeats).value.noisy, k)
    ensures !HalfKnown(Listings(repeats, k)) ==> SameCell(MergeAll(other).value, MergeAll(repeats).value, k)
  {
    SameRunsMergeToo(repeats, other);
    MergedRepeatsMean(repeats, k);
    MergedRepeatsMean(other, k);
    SameListings(repeats, other, k);
    var a, b := Listings(other, k), Listings(repeats, k);
    EqualBounds(a, b);
    if a != [] && !HalfKnown(b) {
      assert a[0] in a && b[0] in b;
      if a[0].Some? {
        assert Some(a[0].value) in b;
        assert b[0].Some?;
      } else {
        assert b[0].None?;
      }
    }
  }

  function MoveToFront(repeats: seq<Run>, i: nat): (r: seq<Run>)
    requires i < |repeats|
    ensures multiset(r) == multiset(repeats)
  {
    assert repeats == repeats[..i] + [repeats[i]] + repeats[i + 1..];
    [repeats[i]] + (repeats[..i] + repeats[i + 1..])
  }

  lemma {:induction false} FirstListing(repeats: seq<Run>, k: CellKey)
    requires repeats != [] && k in CellsOf(repeats[0].cells)
    ensures Listings(repeats, k) != []
    ensures Listings(repeats, k)[0] == CellsOf(repeats[0].cells)[k].accuracy
    decreases |repeats|
  {
    if |repeats| > 1 {
      FirstListing(repeats[..|repeats| - 1], k);
    } else {
      assert Listings(repeats[..0], k) == [];
    }
  }

  lemma FrontRunDecides(repeats: seq<Run>, k: CellKey, a: Accuracy) returns (other: seq<Run>)
    requires repeats != [] && MergeAll(repeats).Ok? && a in Listings(repeats, k)
    ensures multiset(other) == multiset(repeats) && other != [] && MergeAll(other).Ok?
    ensures k in MergeAll(other).value.cells
    ensures MergeAll(other).value.cells[k].accuracy.None? <==> a.None?
  {
    ListedByARun(repeats, k, a);
    var run :| run in repeats && Lists(run, k, a);
    var i :| 0 <= i < |repeats| && repeats[i] == run;
    other := MoveToFront(repeats, i);
    SameRunsMergeToo(repeats, other);
    FirstListing(other, k);
    MergedRepeatsMean(other, k);
  }

  ghost predicate MergesTheSame(other: seq<Run>, repeats: seq<Run>, k: CellKey)
    requires repeats != [] && MergeAll(repeats).Ok?
  {
    other != [] && MergeAll(other).Ok? && SameCell(MergeAll(other).value, MergeAll(repeats).value, k)
  }

  lemma HalfKnownDependsOnTheOrder(repeats: seq<Run>, k: CellKey) returns (other: seq<Run>)
    requires repeats != [] && MergeAll(repeats).Ok? && HalfKnown(Listings(repeats, k))
    ensures multiset(other) == multiset(repeats) && !MergesTheSame(other, repeats, k)
  {
    var v :| Some(v) in Listings(repeats, k);
    var unknown := FrontRunDecides(repeats, k, None);
    var known := FrontRunDecides(repeats, k, Some(v));
    other := if MergesTheSame(unknown, repeats, k) then known else unknown;
  }

  /** Merging the repeats in any other order gives the same accuracy and range for a cell exactly when
      it is not the case that some of them measured the cell and others could not. */
  lemma OrderMattersExactlyWhenHalfKnown(repeats: seq<Run>, k: CellKey)
    requires repeats != [] && MergeAll(repeats).Ok?
    ensures (forall other :: multiset(other) == multiset(repeats) ==> MergesTheSame(other, repeats, k))
            <==> !HalfKnown(Listings(repeats, k))
  {
    if HalfKnown(Listings(repeats, k)) {
      var other := HalfKnownDependsOnTheOrder(repeats, k);
    } else {
      forall other | multiset(other) == multiset(repeats)
        ensures MergesTheSame(other, repeats, k)
      {
        OrderDoesNotMatter(repeats, other, k);
      }
    }
  }

  // ---------------------------------------------------------------- repeats among recorded runs

  function RunsOf(runs: seq<Run>, mode: string): seq<Run> {
    if runs == [] then []
    else
      var last := runs[|runs| - 1];
      RunsOf(runs[..|runs| - 1], mode) + if KeyOf(last) == mode then [last] else []
  }

  lemma RepeatJoins(repeats: seq<Run>, last: Run)
    ensures repeats == [] ==> MergeAll(repeats + [last]) == Ok(MeasurementOf(last))
    ensures repeats != [] && MergeAll(repeats).Ok? ==>
              MergeAll(repeats + [last]) == Merged(MergeAll(repeats).value, MeasurementOf(last))
  {
    var all := repeats + [last];
    assert all[..|all| - 1] == repeats && all[|all| - 1] == last;
  }

  /** Each mode among the recorded runs is the merge of its own repeats. */
  lemma {:induction false} MergedModesAreMergedRepeats(runs: seq<Run>, mode: string)
    requires MergedModes(runs).Ok?
    ensures mode in MergedModes(runs).value <==> RunsOf(runs, mode) != []
    ensures RunsOf(runs, mode) != [] ==> MergeAll(RunsOf(runs, mode)) == Ok(MergedModes(runs).value[mode])
    decreases |runs|
  {
    if runs != [] {
      var before, last := runs[..|runs| - 1], runs[|runs| - 1];
      MergedModesAreMergedRepeats(before, mode);
      RepeatJoins(RunsOf(before, mode), last);
      if KeyOf(last) != mode {
        assert RunsOf(runs, mode) == RunsOf(before, mode);
      }
    }
  }

  lemma {:induction false} RecordedRunsAreWhole(runs: seq<Run>)
    requires MergedModes(runs).Ok?
    ensures forall run :: run in runs ==> run.subsetOf.None?
    decreases |runs|
  {
    if runs != [] {
      var before, last := runs[..|runs| - 1], runs[|runs| - 1];
      RecordedRunsAreWhole(before);
      assert runs == before + [last];
    }
  }

  lemma {:induction false} RunIsAmongItsRepeats(runs: seq<Run>, run: Run)
    requires run in runs
    ensures run in RunsOf(runs, KeyOf(run))
    decreases |runs|
  {
    var before, last := runs[..|runs| - 1], runs[|runs| - 1];
    assert runs == before + [last];
    if run != last {
      RunIsAmongItsRepeats(before, run);
    }
  }
}
