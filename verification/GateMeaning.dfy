/** What the gate's verdicts and refusals mean for the runs and files themselves. */
module GateMeaning {
  import opened Common
  import opened Gate
  import opened GateRepeats
  import opened GateHistory

  // ---------------------------------------------------------------- what a cell must reach

  /** The cell holds the run up neither at once nor for a rerun. */
  ghost predicate Clears(base: Baseline, subset: bool, cells: map<CellKey, Cell>,
                         again: Option<map<CellKey, Cell>>, k: CellKey) {
    var v := Judgement(base, subset, cells, again);
    v.Judged? && k !in v.failures && k !in v.reruns
  }

  /** A threshold that is what was last measured has had its noise allowed: only the threshold will do. */
  lemma AFreshThresholdAllowsNoNoise(
      base: Baseline, subset: bool, cells: map<CellKey, Cell>, k: CellKey, threshold: nat, got: nat)
    requires k in base.cells && base.cells[k].accuracy == Some(threshold) && base.cells[k].measured == Some(threshold)
    requires k in cells && cells[k].accuracy == Some(got)
    ensures Clears(base, subset, cells, None, k) <==> got >= threshold
  {
    ClearedExactlyWhenHeld(base, subset, cells, None, k);
  }

  /** A carried threshold above what was last measured allows exactly what the repeats spanned. */
  lemma ACarriedThresholdAllowsTheNoise(
      base: Baseline, subset: bool, cells: map<CellKey, Cell>, k: CellKey, threshold: nat, measured: nat, got: nat)
    requires k in base.cells && base.cells[k].accuracy == Some(threshold) && base.cells[k].measured == Some(measured)
    requires measured < threshold
    requires k in cells && cells[k].accuracy == Some(got)
    ensures k in base.noisy ==>
              (Clears(base, subset, cells, None, k) <==> got >= threshold - (base.noisy[k].hi - base.noisy[k].lo))
    ensures k !in base.noisy ==> (Clears(base, subset, cells, None, k) <==> got >= threshold)
  {
    ClearedExactlyWhenHeld(base, subset, cells, None, k);
  }

  /** A rerun is asked to reach the same, and only helps where the repeats disagreed. */
  lemma ARerunMustReachTheSame(
      base: Baseline, subset: bool, cells: map<CellKey, Cell>, again: map<CellKey, Cell>, k: CellKey, reran: nat)
    requires k in base.cells && k in cells && cells[k].accuracy.Some?
    requires k in again && again[k].accuracy == Some(reran)
    ensures var rerun := cells[k := cells[k].(accuracy := Some(reran))];
            Clears(base, subset, cells, Some(again), k) <==>
              || Clears(base, subset, cells, None, k)
              || (&& k in base.noisy && base.noisy[k].lo != base.noisy[k].hi
                  && Clears(base, subset, rerun, None, k))
  {
    var rerun := cells[k := cells[k].(accuracy := Some(reran))];
    ClearedExactlyWhenHeld(base, subset, cells, Some(again), k);
    ClearedExactlyWhenHeld(base, subset, cells, None, k);
    ClearedExactlyWhenHeld(base, subset, rerun, None, k);
  }

  /** A cell the run left out clears only for a set that is a part of the baseline's; one that either side
      could not measure always does. */
  lemma UnknownCellsClear(base: Baseline, subset: bool, cells: map<CellKey, Cell>,
                          again: Option<map<CellKey, Cell>>, k: CellKey)
    requires k in base.cells
    ensures k !in cells ==> (Clears(base, subset, cells, again, k) <==> subset)
    ensures k in cells && (cells[k].accuracy.None? || base.cells[k].accuracy.None?) ==>
              Clears(base, subset, cells, again, k)
  {
    ClearedExactlyWhenHeld(base, subset, cells, again, k);
  }

  // ---------------------------------------------------------------- when a run passes

  /** The run may be held to this baseline at all. */
  ghost predicate IsComparable(run: Run, gate: GateFile, key: string) {
    && key in gate.baselines
    && gate.datasetSha == Some(run.datasetSha)
    && run.modelReached
    && run.identities == gate.baselines[key].identities
    && (run.subsetOf.None? ==> run.selection == gate.baselines[key].selection)
    && run.cells != []
    && (run.subsetOf.Some? ==>
          forall i :: 0 <= i < |run.cells| ==> run.cells[i].0 in gate.baselines[key].cells)
  }

  ghost predicate IsItsRerun(rerun: Run, run: Run) {
    && rerun.datasetSha == run.datasetSha && rerun.selection == run.selection
    && rerun.mode == run.mode && rerun.commit == run.commit
  }

  lemma {:induction false} ListedKeys(cells: seq<(CellKey, Cell)>, k: CellKey)
    ensures k in CellsOf(cells) <==> exists i :: 0 <= i < |cells| && cells[i].0 == k
    decreases |cells|
  {
    if cells != [] {
      var before := cells[..|cells| - 1];
      ListedKeys(before, k);
      if i :| 0 <= i < |before| && before[i].0 == k {
        assert cells[i].0 == k;
      }
      if i :| 0 <= i < |cells| && cells[i].0 == k {
        assert i < |before| ==> before[i].0 == k;
      }
    }
  }

  /** A run passes exactly when it may be held to its baseline, the rerun if any is one of this run, and
      every cell of the baseline clears. */
  lemma PassesExactlyWhen(run: Run, gate: GateFile, rerun: Option<Run>, key: string)
    requires key == if run.subsetOf.Some? then run.subsetOf.value else KeyOf(run)
    ensures Checked(run, gate, rerun).Passes() <==>
              && IsComparable(run, gate, key)
              && (rerun.Some? ==> IsItsRerun(rerun.value, run))
              && forall k :: k in gate.baselines[key].cells ==>
                   Clears(gate.baselines[key], run.subsetOf.Some?, CellsOf(run.cells),
                          if rerun.Some? then Some(CellsOf(rerun.value.cells)) else None, k)
  {
    if key in gate.baselines {
      var base, cells := gate.baselines[key], CellsOf(run.cells);
      var again := if rerun.Some? then Some(CellsOf(rerun.value.cells)) else None;
      CellsPassExactlyWhenHeld(base, run.subsetOf.Some?, cells, again);
      forall k | k in base.cells
        ensures Clears(base, run.subsetOf.Some?, cells, again, k)
                <==> Held(base, run.subsetOf.Some?, cells, again, k)
      {
        ClearedExactlyWhenHeld(base, run.subsetOf.Some?, cells, again, k);
      }
      forall k
        ensures k in cells <==> exists i :: 0 <= i < |run.cells| && run.cells[i].0 == k
      {
        ListedKeys(run.cells, k);
      }
      OnlyNoCellsMakeNone(run.cells);
      assert cells.Keys <= base.cells.Keys <==>
          forall i :: 0 <= i < |run.cells| ==> run.cells[i].0 in base.cells by {
        KeysWithin(run.cells, base.cells.Keys);
      }
    }
  }

  lemma OnlyNoCellsMakeNone(cells: seq<(CellKey, Cell)>)
    ensures CellsOf(cells) == map[] <==> cells == []
  {
    if cells != [] {
      LastCellIsListed(cells);
    }
  }

  lemma KeysWithin(cells: seq<(CellKey, Cell)>, keys: set<CellKey>)
    ensures CellsOf(cells).Keys <= keys <==> forall i :: 0 <= i < |cells| ==> cells[i].0 in keys
  {
    forall k
      ensures k in CellsOf(cells) <==> exists i :: 0 <= i < |cells| && cells[i].0 == k
    {
      ListedKeys(cells, k);
    }
    if CellsOf(cells).Keys <= keys {
      forall i | 0 <= i < |cells|
        ensures cells[i].0 in keys
      {
        assert cells[i].0 in CellsOf(cells);
      }
    }
  }

  /** A check asks for a rerun exactly when it was given none and all that holds the run up are cells it
      measured whose repeats disagreed. */
  lemma AsksForARerunExactlyWhen(run: Run, gate: GateFile, rerun: Option<Run>, key: string)
    requires key == if run.subsetOf.Some? then run.subsetOf.value else KeyOf(run)
    ensures Checked(run, gate, rerun).AsksForRerun() <==>
              && IsComparable(run, gate, key) && rerun.None?
              && (exists k :: k in gate.baselines[key].cells
                              && !Clears(gate.baselines[key], run.subsetOf.Some?, CellsOf(run.cells), None, k))
              && (forall k :: k in gate.baselines[key].cells
                              && !Clears(gate.baselines[key], run.subsetOf.Some?, CellsOf(run.cells), None, k) ==>
                                && k in CellsOf(run.cells) && k in gate.baselines[key].noisy
                                && gate.baselines[key].noisy[k].lo != gate.baselines[key].noisy[k].hi)
  {
    if key in gate.baselines {
      OnlyNoCellsMakeNone(run.cells);
      KeysWithin(run.cells, gate.baselines[key].cells.Keys);
      if rerun.None? {
        CellsAskForARerunExactlyWhen(gate.baselines[key], run.subsetOf.Some?, CellsOf(run.cells));
      } else if Checked(run, gate, rerun).Judged? {
        WithARerunCellsPassExactlyWhenHeld(gate.baselines[key], run.subsetOf.Some?, CellsOf(run.cells),
                                           CellsOf(rerun.value.cells));
      }
    }
  }

  /** The cell can be put off to a rerun: it was measured and its repeats disagreed. */
  ghost predicate IsNoisy(base: Baseline, cells: map<CellKey, Cell>, k: CellKey) {
    k in cells && k in base.noisy && base.noisy[k].lo != base.noisy[k].hi
  }

  lemma CellsAskForARerunExactlyWhen(base: Baseline, subset: bool, cells: map<CellKey, Cell>)
    ensures Judgement(base, subset, cells, None).AsksForRerun() <==>
              && (exists k :: k in base.cells && !Clears(base, subset, cells, None, k))
              && (forall k :: k in base.cells && !Clears(base, subset, cells, None, k) ==> IsNoisy(base, cells, k))
  {
    var v := Judgement(base, subset, cells, None);
    forall k | k in base.cells
      ensures Clears(base, subset, cells, None, k) <==> k !in v.failures && k !in v.reruns
      ensures Fails(base, subset, cells, None, k) <==>
                !Clears(base, subset, cells, None, k) && !IsNoisy(base, cells, k)
    {
      VerdictSets(base, subset, cells, None, k);
      ClearedExactlyWhenHeld(base, subset, cells, None, k);
    }
    var failing := set k | k in base.cells && Fails(base, subset, cells, None, k);
    if v.AsksForRerun() {
      assert failing == {};
      var k :| k in v.reruns;
      assert !Clears(base, subset, cells, None, k);
      assert forall c :: c in base.cells ==> c !in failing;
    } else if failing == {} {
      assert v.reruns == {};
    } else {
      var k :| k in failing;
      assert !Clears(base, subset, cells, None, k) && !IsNoisy(base, cells, k);
    }
  }

  lemma FirstRecordingIsFresh(runs: seq<Run>, mode: string, k: CellKey, least: nat)
    requires Recorded(NOTHING_RECORDED, runs).Ok?
    requires None !in Listings(RunsOf(runs, mode), k) && IsLeast(Listings(RunsOf(runs, mode), k), least)
    ensures var after := Recorded(NOTHING_RECORDED, runs).value;
            && mode in after.baselines && k in after.baselines[mode].cells
            && after.baselines[mode].cells[k].accuracy == after.baselines[mode].cells[k].measured == Some(least)
  {
    RecordedBaseline(NOTHING_RECORDED, runs, mode);
    MergedModesAreMergedRepeats(runs, mode);
    MergedRepeatsMean(RunsOf(runs, mode), k);
  }

  /** After a first recording nothing is carried: a run that passes it without a rerun reached, in every
      cell all of whose repeats were known, the least of them. */
  lemma AFirstRecordingHoldsLaterRuns(runs: seq<Run>, later: Run, k: CellKey, least: nat, got: nat)
    requires Recorded(NOTHING_RECORDED, runs).Ok?
    requires later.subsetOf.None? && Checked(later, Recorded(NOTHING_RECORDED, runs).value, None).Passes()
    requires None !in Listings(RunsOf(runs, KeyOf(later)), k) && IsLeast(Listings(RunsOf(runs, KeyOf(later)), k), least)
    requires k in CellsOf(later.cells) && CellsOf(later.cells)[k].accuracy == Some(got)
    ensures got >= least
  {
    var after, mode := Recorded(NOTHING_RECORDED, runs).value, KeyOf(later);
    FirstRecordingIsFresh(runs, mode, k, least);
    PassesExactlyWhen(later, after, None, mode);
    AFreshThresholdAllowsNoNoise(after.baselines[mode], false, CellsOf(later.cells), k, least, got);
  }

  // ---------------------------------------------------------------- when a recording is accepted

  /** The smallest range around both. */
  function Hull(a: Option<Range>, b: Option<Range>): Option<Range> {
    if a.None? then b
    else if b.None? then a
    else Some(Range(Min(a.value.lo, b.value.lo), Max(a.value.hi, b.value.hi)))
  }

  function Width(range: Option<Range>): int {
    if range.None? then 0 else range.value.hi - range.value.lo
  }

  /** What the mode's runs measured, merged, is below the threshold carried for the cell by more than the
      recorded and the new noise span together. */
  ghost predicate FallsShort(gate: GateFile, first: Run, b: Measurement, mode: string, k: CellKey) {
    && mode in gate.baselines && gate.baselines[mode].identities == b.identities
    && Carries(gate, first, k)
    && k in b.cells && b.cells[k].accuracy.Some?
    && k in gate.baselines[mode].cells && gate.baselines[mode].cells[k].accuracy.Some?
    && b.cells[k].accuracy.value <
         gate.baselines[mode].cells[k].accuracy.value - Width(Hull(Get(gate.baselines[mode].noisy, k), Get(b.noisy, k)))
  }

  lemma {:induction false} RunsOfExactly(runs: seq<Run>, mode: string, run: Run)
    ensures run in RunsOf(runs, mode) <==> run in runs && KeyOf(run) == mode
    decreases |runs|
  {
    if runs != [] {
      var before, last := runs[..|runs| - 1], runs[|runs| - 1];
      RunsOfExactly(before, mode, run);
      assert runs == before + [last];
    }
  }

  /** The mode's runs, if any, can be merged. */
  ghost predicate ModeMerges(runs: seq<Run>, mode: string) {
    RunsOf(runs, mode) != [] ==> MergeAll(RunsOf(runs, mode)).Ok?
  }

  lemma {:induction false} JoiningMerges(before: seq<Run>, last: Run, mode: string)
    ensures var all := before + [last];
            && (mode != KeyOf(last) ==> (ModeMerges(all, mode) <==> ModeMerges(before, mode)))
            && (mode == KeyOf(last) ==>
                  (ModeMerges(all, mode) <==>
                     && ModeMerges(before, mode)
                     && (RunsOf(before, mode) != [] ==>
                           Merged(MergeAll(RunsOf(before, mode)).value, MeasurementOf(last)).Ok?)))
  {
    var all := before + [last];
    assert all[..|all| - 1] == before;
    if mode == KeyOf(last) {
      RepeatJoins(RunsOf(before, mode), last);
      JoiningKeepsARefusal(RunsOf(before, mode), last);
    } else {
      assert RunsOf(all, mode) == RunsOf(before, mode);
    }
  }

  ghost predicate AllMerge(runs: seq<Run>) {
    (forall run :: run in runs ==> run.subsetOf.None?) && forall mode :: ModeMerges(runs, mode)
  }

  lemma JoiningAllMerge(before: seq<Run>, last: Run)
    ensures AllMerge(before + [last]) <==>
              && AllMerge(before) && last.subsetOf.None? && ModeMerges(before + [last], KeyOf(last))
  {
    var all := before + [last];
    forall mode
      ensures mode != KeyOf(last) ==> (ModeMerges(all, mode) <==> ModeMerges(before, mode))
      ensures ModeMerges(all, mode) ==> ModeMerges(before, mode)
    {
      JoiningMerges(before, last, mode);
    }
    assert forall run :: run in all <==> run in before || run == last;
  }

  lemma {:induction false} JoiningModes(before: seq<Run>, last: Run)
    requires MergedModes(before).Ok?
    ensures MergedModes(before + [last]).Ok? <==>
              last.subsetOf.None? && ModeMerges(before + [last], KeyOf(last))
  {
    assert (before + [last])[..|before|] == before;
    MergedModesAreMergedRepeats(before, KeyOf(last));
    JoiningMerges(before, last, KeyOf(last));
  }

  lemma {:induction false} ModesMergeExactlyWhen(runs: seq<Run>)
    ensures MergedModes(runs).Ok? <==> AllMerge(runs)
    decreases |runs|
  {
    if runs != [] {
      var before, last := runs[..|runs| - 1], runs[|runs| - 1];
      ModesMergeExactlyWhen(before);
      assert runs == before + [last];
      JoiningAllMerge(before, last);
      if MergedModes(before).Ok? {
        JoiningModes(before, last);
      }
    }
  }

  lemma JoiningKeepsARefusal(repeats: seq<Run>, last: Run)
    ensures repeats != [] && MergeAll(repeats).Err? ==> MergeAll(repeats + [last]).Err?
  {
    var all := repeats + [last];
    assert all[..|all| - 1] == repeats && all[|all| - 1] == last;
  }

  predicate SameTerms(a: Run, b: Run) {
    a.selection == b.selection && a.identities == b.identities
  }

  /** Runs that may be recorded together: they measured one dataset and repeat the same questions of the same
      users wherever they share a mode. */
  ghost predicate BelongTogether(runs: seq<Run>) {
    && (forall run :: run in runs ==>
          && run.cells != [] && run.hasRecords && !run.answerErrors && run.modelReached
          && run.subsetOf.None? && run.datasetSha == runs[0].datasetSha)
    && (forall a, b :: a in runs && b in runs && KeyOf(a) == KeyOf(b) ==> SameTerms(a, b))
  }

  lemma ModeMergesExactlyWhen(runs: seq<Run>, mode: string)
    ensures ModeMerges(runs, mode) <==>
              forall a, b :: a in runs && b in runs && KeyOf(a) == KeyOf(b) == mode ==> SameTerms(a, b)
  {
    var repeats := RunsOf(runs, mode);
    forall run
      ensures run in repeats <==> run in runs && KeyOf(run) == mode
    {
      RunsOfExactly(runs, mode, run);
    }
    if repeats != [] {
      MergesExactlyWhen(repeats);
      assert repeats[0] in repeats;
      if ModeMerges(runs, mode) {
        assert forall run :: run in repeats ==> SameTerms(run, repeats[0]);
      }
    }
  }

  lemma AgreeingRunsMerge(runs: seq<Run>)
    ensures (forall mode :: ModeMerges(runs, mode)) <==>
              forall a, b :: a in runs && b in runs && KeyOf(a) == KeyOf(b) ==> SameTerms(a, b)
  {
    if forall mode :: ModeMerges(runs, mode) {
      forall a, b | a in runs && b in runs && KeyOf(a) == KeyOf(b)
        ensures SameTerms(a, b)
      {
        assert ModeMerges(runs, KeyOf(a));
        ModeMergesExactlyWhen(runs, KeyOf(a));
      }
    } else {
      var mode :| !ModeMerges(runs, mode);
      ModeMergesExactlyWhen(runs, mode);
    }
  }

  lemma RegressesExactlyWhen(gate: GateFile, first: Run, b: Measurement, mode: string, k: CellKey)
    ensures k in RegressionsIn(gate, first, b, mode) <==> FallsShort(gate, first, b, mode, k)
  {
    assert CarriesFrom(gate, first)(k) == Carries(gate, first, k);
  }

  ghost predicate ModeFallsShort(gate: GateFile, runs: seq<Run>, mode: string, k: CellKey)
    requires runs != []
  {
    && RunsOf(runs, mode) != [] && MergeAll(RunsOf(runs, mode)).Ok?
    && FallsShort(gate, runs[0], MergeAll(RunsOf(runs, mode)).value, mode, k)
  }

  /** A recording is accepted exactly when there are runs, they belong together, and none of their modes
      falls short in any cell. */
  lemma RecordedExactlyWhen(gate: GateFile, runs: seq<Run>)
    ensures Recorded(gate, runs).Ok? <==>
              && runs != [] && BelongTogether(runs)
              && forall mode, k :: !ModeFallsShort(gate, runs, mode, k)
  {
    ModesMergeExactlyWhen(runs);
    AgreeingRunsMerge(runs);
    if MergedModes(runs).Ok? && runs != [] {
      NoRegressionExactlyWhen(gate, runs);
    }
  }

  lemma {:induction false} ModeRegressesExactlyWhen(gate: GateFile, runs: seq<Run>, mode: string, k: CellKey)
    requires runs != [] && MergedModes(runs).Ok?
    ensures ModeFallsShort(gate, runs, mode, k) <==>
              mode in MergedModes(runs).value
              && k in RegressionsIn(gate, runs[0], MergedModes(runs).value[mode], mode)
  {
    MergedModesAreMergedRepeats(runs, mode);
    if mode in MergedModes(runs).value {
      RegressesExactlyWhen(gate, runs[0], MergedModes(runs).value[mode], mode, k);
    }
  }

  lemma SomeRegressionExactlyWhen(all: map<string, set<CellKey>>)
    ensures SomeRegression(all) <==> exists mode, k :: mode in all && k in all[mode]
  {
    if SomeRegression(all) {
      var mode :| mode in all && all[mode] != {};
      var k :| k in all[mode];
    }
  }

  lemma {:induction false} NoRegressionExactlyWhen(gate: GateFile, runs: seq<Run>)
    requires runs != [] && MergedModes(runs).Ok?
    ensures !SomeRegression(AllRegressions(gate, runs[0], MergedModes(runs).value)) <==>
              forall mode, k :: !ModeFallsShort(gate, runs, mode, k)
  {
    var all := AllRegressions(gate, runs[0], MergedModes(runs).value);
    SomeRegressionExactlyWhen(all);
    forall mode, k
      ensures ModeFallsShort(gate, runs, mode, k) <==> mode in all && k in all[mode]
    {
      ModeRegressesExactlyWhen(gate, runs, mode, k);
    }
  }

  // ---------------------------------------------------------------- which refusal it is

  /** A run that is not judged is turned away for the first reason that applies. */
  lemma TheFirstReasonCounts(run: Run, gate: GateFile, rerun: Option<Run>, key: string)
    requires key == if run.subsetOf.Some? then run.subsetOf.value else KeyOf(run)
    ensures var v := Checked(run, gate, rerun);
            && (v.NoBaseline? <==> key !in gate.baselines)
            && (v.DatasetChanged? <==> key in gate.baselines && gate.datasetSha != Some(run.datasetSha))
            && (!v.NoBaseline? && !v.DatasetChanged? ==>
                  && (v.ModelUnreached? <==> !run.modelReached)
                  && (v.UsersNamedAnotherWay? <==>
                        run.modelReached && run.identities != gate.baselines[key].identities)
                  && (!v.ModelUnreached? && !v.UsersNamedAnotherWay? ==>
                        && (v.SelectionDiffers? <==>
                              run.subsetOf.None? && run.selection != gate.baselines[key].selection)
                        && (!v.SelectionDiffers? ==>
                              && (v.NothingMeasured? <==> run.cells == [])
                              && (v.NotARerun? <==>
                                    run.cells != [] && rerun.Some? && !IsItsRerun(rerun.value, run)))))
    ensures Checked(run, gate, rerun).Judged? <==>
              IsComparable(run, gate, key) && (rerun.Some? ==> IsItsRerun(rerun.value, run))
  {
    OnlyNoCellsMakeNone(run.cells);
    if key in gate.baselines {
      KeysWithin(run.cells, gate.baselines[key].cells.Keys);
    }
  }

  /** A recording asks first for evidence, and then for one dataset. */
  lemma EvidenceComesFirst(gate: GateFile, runs: seq<Run>)
    ensures Recorded(gate, runs) == Err(NotABaseline) <==>
              exists run :: run in runs && (run.cells == [] || !run.hasRecords || run.answerErrors || !run.modelReached)
    ensures Recorded(gate, runs) == Err(DifferentDatasets) <==>
              && Recorded(gate, runs) != Err(NotABaseline)
              && (runs == [] || exists a, b :: a in runs && b in runs && a.datasetSha != b.datasetSha)
  {
    MergingRefusesOtherwise(runs);
    if runs != [] {
      assert runs[0] in runs;
    }
  }

  lemma {:induction false} MergingRefusesOtherwise(runs: seq<Run>)
    ensures MergedModes(runs).Err? ==> MergedModes(runs).error.GatedElsewhere? || MergedModes(runs).error.RepeatsDiffer?
    decreases |runs|
  {
    if runs != [] {
      MergingRefusesOtherwise(runs[..|runs| - 1]);
    }
  }

  /** Some earlier run of the same thresholds was asked other questions. */
  predicate AsksOtherQuestions(earlier: seq<Run>, run: Run) {
    exists a :: a in earlier && KeyOf(a) == KeyOf(run) && a.selection != run.selection
  }

  /** Of evidence on one dataset, the first run that does not belong decides: it is gated elsewhere, it was
      asked other questions, or it named its users another way. */
  lemma TheFirstToDifferDecides(gate: GateFile, runs: seq<Run>, i: nat)
    requires i < |runs| && BelongTogether(runs[..i]) && !BelongTogether(runs[..i + 1])
    requires forall run :: run in runs ==> IsEvidence(run) && run.datasetSha == runs[0].datasetSha
    ensures Recorded(gate, runs) ==
            Err(if runs[i].subsetOf.Some? then GatedElsewhere
                else if AsksOtherQuestions(runs[..i], runs[i]) then RepeatsDiffer(SelectionsDiffer)
                else RepeatsDiffer(IdentitiesDiffer))
  {
    var before, run := runs[..i], runs[i];
    assert runs[..i + 1] == before + [run] && runs[0] in runs;
    ModesMergeExactlyWhen(before);
    AgreeingRunsMerge(before);
    BelongsExactlyWhen(before, run);
    RunIsRefused(before, run);
    FirstRefusalStands(runs, i + 1);
  }

  lemma BelongsExactlyWhen(before: seq<Run>, run: Run)
    requires BelongTogether(before) && IsEvidence(run) && (before != [] ==> run.datasetSha == before[0].datasetSha)
    ensures BelongTogether(before + [run]) <==>
              run.subsetOf.None? && forall a :: a in before && KeyOf(a) == KeyOf(run) ==> SameTerms(a, run)
  {
    var all := before + [run];
    assert forall a :: a in all <==> a in before || a == run;
    assert all[0].datasetSha == run.datasetSha;
  }

  lemma {:induction false} RunIsRefused(before: seq<Run>, run: Run)
    requires BelongTogether(before) && MergedModes(before).Ok?
    requires run.subsetOf.Some? || exists a :: a in before && KeyOf(a) == KeyOf(run) && !SameTerms(a, run)
    ensures MergedModes(before + [run]) ==
            Err(if run.subsetOf.Some? then GatedElsewhere
                else if AsksOtherQuestions(before, run) then RepeatsDiffer(SelectionsDiffer)
                else RepeatsDiffer(IdentitiesDiffer))
  {
    var repeats := RunsOf(before, KeyOf(run));
    assert (before + [run])[..|before|] == before;
    MergedModesAreMergedRepeats(before, KeyOf(run));
    if run.subsetOf.None? {
      forall a
        ensures a in repeats <==> a in before && KeyOf(a) == KeyOf(run)
      {
        RunsOfExactly(before, KeyOf(run), a);
      }
      MergesExactlyWhen(repeats);
      assert repeats[0] in repeats;
      assert forall a :: a in repeats ==> SameTerms(a, repeats[0]);
    }
  }

  /** Runs that belong together are refused only for their regressions, all of which are named. */
  lemma RegressionsAreNamed(gate: GateFile, runs: seq<Run>, mode: string, k: CellKey)
    requires runs != [] && BelongTogether(runs) && Recorded(gate, runs).Err?
    ensures Recorded(gate, runs).error.Regression?
    ensures var named := Recorded(gate, runs).error.cells;
            ModeFallsShort(gate, runs, mode, k) <==> mode in named && k in named[mode]
  {
    ModesMergeExactlyWhen(runs);
    AgreeingRunsMerge(runs);
    ModeRegressesExactlyWhen(gate, runs, mode, k);
  }

  // ---------------------------------------------------------------- what a recording writes

  lemma BaselineSays(gate: GateFile, first: Run, b: Measurement, mode: string, k: CellKey)
    ensures var base := BaselineAfter(gate, first, b, mode);
            && base.identities == b.identities && base.selection == b.selection
            && (k in base.cells <==> k in b.cells)
            && (k in b.cells ==> base.cells[k].measured == b.cells[k].accuracy && base.cells[k].n == b.cells[k].n)
  {
  }

  /** An accepted recording writes its dataset and its files. */
  lemma RecordedFileNames(gate: GateFile, runs: seq<Run>)
    requires Recorded(gate, runs).Ok?
    ensures runs != []
    ensures Recorded(gate, runs).value.datasetSha == Some(runs[0].datasetSha)
    ensures Recorded(gate, runs).value.files == runs[0].files
  {
  }

  /** ... for each of its modes the questions and users it was measured on, and what was measured. */
  lemma RecordedBaselineSays(gate: GateFile, runs: seq<Run>, mode: string, k: CellKey)
    requires Recorded(gate, runs).Ok? && RunsOf(runs, mode) != []
    ensures MergeAll(RunsOf(runs, mode)).Ok? && mode in Recorded(gate, runs).value.baselines
    ensures var base, b := Recorded(gate, runs).value.baselines[mode], MergeAll(RunsOf(runs, mode)).value;
            && base.identities == RunsOf(runs, mode)[0].identities
            && base.selection == RunsOf(runs, mode)[0].selection
            && (k in base.cells <==> k in b.cells)
            && (k in b.cells ==> base.cells[k].measured == b.cells[k].accuracy && base.cells[k].n == b.cells[k].n)
  {
    RecordedBaseline(gate, runs, mode);
    MergedModesAreMergedRepeats(runs, mode);
    MergesExactlyWhen(RunsOf(runs, mode));
    BaselineSays(gate, runs[0], MergeAll(RunsOf(runs, mode)).value, mode, k);
  }

  /** ... and the noise: what the repeats spanned, and what was recorded for the same questions and users. */
  lemma RecordedNoiseSpans(gate: GateFile, runs: seq<Run>, mode: string, k: CellKey)
    requires Recorded(gate, runs).Ok? && RunsOf(runs, mode) != []
    ensures MergeAll(RunsOf(runs, mode)).Ok? && mode in Recorded(gate, runs).value.baselines
    ensures var b := MergeAll(RunsOf(runs, mode)).value;
            Get(Recorded(gate, runs).value.baselines[mode].noisy, k) ==
            if mode in gate.baselines && gate.baselines[mode].identities == b.identities && Carries(gate, runs[0], k)
            then Hull(Get(gate.baselines[mode].noisy, k), Get(b.noisy, k))
            else Get(b.noisy, k)
  {
    RecordedBaseline(gate, runs, mode);
    MergedModesAreMergedRepeats(runs, mode);
    NoiseIsTheHull(gate, runs[0], MergeAll(RunsOf(runs, mode)).value, mode, k);
  }

  lemma NoiseIsTheHull(gate: GateFile, first: Run, b: Measurement, mode: string, k: CellKey)
    ensures Get(NoiseAfter(Previous(gate, mode, b), b, CarriesFrom(gate, first)), k) ==
            if mode in gate.baselines && gate.baselines[mode].identities == b.identities && Carries(gate, first, k)
            then Hull(Get(gate.baselines[mode].noisy, k), Get(b.noisy, k))
            else Get(b.noisy, k)
  {
    assert CarriesFrom(gate, first)(k) == Carries(gate, first, k);
  }

  /** A merged cell is one of the repeats' own, with its own count of questions. */
  lemma {:induction false} AMergedCellIsARepeats(repeats: seq<Run>, k: CellKey)
    requires repeats != [] && MergeAll(repeats).Ok? && k in MergeAll(repeats).value.cells
    ensures exists run :: run in repeats && k in CellsOf(run.cells)
                          && CellsOf(run.cells)[k] == MergeAll(repeats).value.cells[k]
    decreases |repeats|
  {
    var before, last := repeats[..|repeats| - 1], repeats[|repeats| - 1];
    assert repeats == before + [last];
    if |repeats| == 1 {
      assert last in repeats;
    } else if k in CellsOf(last.cells) && CellsOf(last.cells)[k] == MergeAll(repeats).value.cells[k] {
      assert last in repeats;
    } else {
      AMergedCellIsARepeats(before, k);
      var run :| run in before && k in CellsOf(run.cells)
                 && CellsOf(run.cells)[k] == MergeAll(before).value.cells[k];
      assert run in repeats;
    }
  }

  // ---------------------------------------------------------------- keys, cells and files

  /** Runs of one mode share their thresholds exactly when they are of the same named sample, where a sample
      named like the mode is no name. */
  lemma SameKeyExactlyWhen(a: Run, b: Run)
    requires a.mode == b.mode
    ensures KeyOf(a) == KeyOf(b) <==>
              a.sample == b.sample
              || ((a.sample.None? || a.sample.value == a.mode) && (b.sample.None? || b.sample.value == b.mode))
    ensures a.sample.None? ==> KeyOf(a) == a.mode
  {
    if a.sample.Some? && b.sample.Some? {
      assert (a.mode + "/" + a.sample.value)[|a.mode| + 1..] == a.sample.value;
      assert (b.mode + "/" + b.sample.value)[|b.mode| + 1..] == b.sample.value;
    }
  }

  /** Of several listings of a cell the last one counts. */
  lemma {:induction false} TheLastListingCounts(cells: seq<(CellKey, Cell)>, i: nat)
    requires i < |cells| && forall j :: i < j < |cells| ==> cells[j].0 != cells[i].0
    ensures cells[i].0 in CellsOf(cells) && CellsOf(cells)[cells[i].0] == cells[i].1
    decreases |cells|
  {
    if i < |cells| - 1 {
      TheLastListingCounts(cells[..|cells| - 1], i);
    }
  }

  /** Each file is listed once. */
  ghost predicate AreDistinct(files: Files) {
    forall i, j :: 0 <= i < j < |files| ==> files[i].0 != files[j].0
  }

  lemma {:induction false} ShaExactlyWhen(files: Files, file: FileName, sha: string)
    requires AreDistinct(files)
    ensures ShaOf(files, file) == Some(sha) <==> (file, sha) in files
  {
    if files != [] {
      forall i, j | 0 <= i < j < |files[1..]|
        ensures files[1..][i].0 != files[1..][j].0
      {
        assert files[1..][i] == files[i + 1] && files[1..][j] == files[j + 1];
      }
      ShaExactlyWhen(files[1..], file, sha);
      assert files == [files[0]] + files[1..];
      forall j | 0 <= j < |files[1..]|
        ensures files[1..][j].0 != files[0].0
      {
        assert files[1..][j] == files[j + 1];
      }
    }
  }

  predicate IsOf(file: FileName, capability: string) {
    file.CapabilityFile? && file.capability == capability
  }

  /** The capability's own file: the last one listed, should there be several. */
  ghost predicate IsItsFile(files: Files, i: nat, capability: string) {
    && i < |files| && IsOf(files[i].0, capability)
    && forall j :: i < j < |files| ==> !IsOf(files[j].0, capability)
  }

  lemma AnotherFileDoesNotMatter(files: Files, i: nat, capability: string)
    requires files != [] && !IsOf(files[|files| - 1].0, capability)
    ensures IsItsFile(files, i, capability) <==> IsItsFile(files[..|files| - 1], i, capability)
  {
    var rest := files[..|files| - 1];
    assert forall j :: 0 <= j < |rest| ==> files[j] == rest[j];
  }

  lemma {:induction false} CapabilityFileDecides(before: Files, after: Files, capability: string)
    requires AreDistinct(before)
    ensures CapabilityUnchanged(before, after, capability) <==>
              exists i: nat :: IsItsFile(after, i, capability) && after[i] in before
    decreases |after|
  {
    if after != [] {
      var n := |after| - 1;
      var rest, last := after[..n], after[n];
      if IsOf(last.0, capability) {
        ShaExactlyWhen(before, last.0, last.1);
        assert IsItsFile(after, n, capability);
        assert after == rest + [last];
        assert forall i: nat :: IsItsFile(after, i, capability) ==> i == n;
      } else {
        CapabilityFileDecides(before, rest, capability);
        forall i: nat
          ensures IsItsFile(after, i, capability) <==> IsItsFile(rest, i, capability)
        {
          AnotherFileDoesNotMatter(after, i, capability);
        }
      }
    }
  }

  /** A threshold is carried on the same dataset; on another only if both list their files, no file that is
      neither a capability's nor a scale set's is new or changed, and the capability's own is unchanged. */
  lemma CarriesExactlyWhen(gate: GateFile, run: Run, k: CellKey)
    requires AreDistinct(gate.files) && AreDistinct(run.files)
    ensures Carries(gate, run, k) <==>
              || gate.datasetSha == Some(run.datasetSha)
              || (&& gate.files != [] && run.files != []
                  && (forall name, sha :: (SharedFile(name), sha) in run.files ==>
                        (SharedFile(name), sha) in gate.files)
                  && exists i: nat :: IsItsFile(run.files, i, k.capability) && run.files[i] in gate.files)
  {
    CapabilityFileDecides(gate.files, run.files, k.capability);
    forall name, sha
      ensures ShaOf(gate.files, SharedFile(name)) == Some(sha) <==> (SharedFile(name), sha) in gate.files
    {
      ShaExactlyWhen(gate.files, SharedFile(name), sha);
    }
    assert SharedUnchanged(gate.files, run.files) <==>
        forall name, sha :: (SharedFile(name), sha) in run.files ==> (SharedFile(name), sha) in gate.files by {
      forall file | file in run.files && file.0.SharedFile?
        ensures file == (SharedFile(file.0.name), file.1)
      {
      }
    }
  }
}
