/** What the gate guarantees over whole histories of recordings, and between a recording and
    the checks that follow it. */
module GateHistory {
  import opened Common
  import opened Gate
  import opened GateRepeats

  // ---------------------------------------------------------------- recording, step by step

  /** The gate file after one recording: a refused one leaves it as it was. */
  function Next(gate: GateFile, runs: seq<Run>): GateFile {
    if Recorded(gate, runs).Ok? then Recorded(gate, runs).value else gate
  }

  function After(gate: GateFile, history: seq<seq<Run>>): GateFile {
    if history == [] then gate else Next(After(gate, history[..|history| - 1]), history[|history| - 1])
  }

  /** In a recorded cell the threshold lies between what was last measured and that plus the
      cell's spread, and is unknown only when the last measurement was. */
  ghost predicate CellHolds(noisy: map<CellKey, Range>, k: CellKey, t: Threshold) {
    if t.measured.None? then t.accuracy.None?
    else t.accuracy.Some? && t.measured.value <= t.accuracy.value <= t.measured.value + SpreadIn(noisy, k)
  }

  ghost predicate BaselineHolds(b: Baseline) {
    && (forall k :: k in b.noisy ==> b.noisy[k].lo <= b.noisy[k].hi)
    && (forall k :: k in b.cells ==> CellHolds(b.noisy, k, b.cells[k]))
  }

  ghost predicate GateHolds(gate: GateFile) {
    forall mode :: mode in gate.baselines ==> BaselineHolds(gate.baselines[mode])
  }

  ghost predicate RangesHold(noisy: map<CellKey, Range>) {
    forall k :: k in noisy ==> noisy[k].lo <= noisy[k].hi
  }

  lemma {:induction false} MergedRangesHold(runs: seq<Run>, mode: string)
    requires MergedModes(runs).Ok? && mode in MergedModes(runs).value
    ensures RangesHold(MergedModes(runs).value[mode].noisy)
  {
    var repeats, b := RunsOf(runs, mode), MergedModes(runs).value[mode];
    MergedModesAreMergedRepeats(runs, mode);
    forall k | k in b.noisy
      ensures b.noisy[k].lo <= b.noisy[k].hi
    {
      MergedRepeatsMean(repeats, k);
    }
  }

  lemma RatchetHolds(prev: Baseline, b: Measurement, carries: CellKey -> bool)
    requires RangesHold(prev.noisy) && RangesHold(b.noisy)
    requires RegressionsOf(prev, b, carries) == {}
    ensures BaselineHolds(Ratcheted(prev, b, carries))
  {
    var after := Ratcheted(prev, b, carries);
    forall k | k in after.cells
      ensures CellHolds(after.noisy, k, after.cells[k])
    {
      assert k !in RegressionsOf(prev, b, carries);
      assert !Regresses(prev, b, carries, k);
    }
  }

  /** The baseline a mode has after an accepted recording. */
  lemma RecordedBaseline(gate: GateFile, runs: seq<Run>, mode: string)
    requires Recorded(gate, runs).Ok?
    ensures MergedModes(runs).Ok? && runs != []
    ensures var after, merged := Recorded(gate, runs).value, MergedModes(runs).value;
            if mode in merged then
              && mode in after.baselines
              && after.baselines[mode] == BaselineAfter(gate, runs[0], merged[mode], mode)
              && RegressionsIn(gate, runs[0], merged[mode], mode) == {}
            else
              && (mode in after.baselines <==> mode in Kept(gate, runs[0].datasetSha))
              && (mode in after.baselines ==> after.baselines[mode] == gate.baselines[mode])
  {
    var merged := MergedModes(runs).value;
    if mode in merged {
      assert mode in AllRegressions(gate, runs[0], merged);
    }
  }

  lemma RecordingHolds(gate: GateFile, runs: seq<Run>)
    requires GateHolds(gate)
    ensures GateHolds(Next(gate, runs))
  {
    if Recorded(gate, runs).Ok? {
      var after := Recorded(gate, runs).value;
      forall mode | mode in after.baselines
        ensures BaselineHolds(after.baselines[mode])
      {
        RecordedBaseline(gate, runs, mode);
        if mode in MergedModes(runs).value {
          var b := MergedModes(runs).value[mode];
          MergedRangesHold(runs, mode);
          RatchetHolds(Previous(gate, mode, b), b, CarriesFrom(gate, runs[0]));
        }
      }
    }
  }

  /** In every reachable gate file the latest measurement of a cell is at least its threshold less
      its recorded spread, whatever was recorded and refused on the way. */
  lemma {:induction false} EveryReachableGateHolds(history: seq<seq<Run>>)
    ensures GateHolds(After(NOTHING_RECORDED, history))
    decreases |history|
  {
    if history != [] {
      var before := history[..|history| - 1];
      EveryReachableGateHolds(before);
      RecordingHolds(After(NOTHING_RECORDED, before), history[|history| - 1]);
    }
  }

  // ---------------------------------------------------------------- the ratchet

  function ThresholdOf(gate: GateFile, mode: string, k: CellKey): Accuracy {
    if mode in gate.baselines && k in gate.baselines[mode].cells then gate.baselines[mode].cells[k].accuracy
    else None
  }

  /** What a recording measured for a cell: the merge of its repeats. */
  function MeasuredBy(runs: seq<Run>, mode: string, k: CellKey): Accuracy {
    var merged := MergedModes(runs);
    if merged.Ok? && mode in merged.value && k in merged.value[mode].cells
    then merged.value[mode].cells[k].accuracy
    else None
  }

  predicate Touches(runs: seq<Run>, mode: string) {
    MergedModes(runs).Ok? && mode in MergedModes(runs).value
  }

  /** The recording asked the cell's questions of the users the gate knows. */
  predicate SameQuestions(gate: GateFile, runs: seq<Run>, mode: string, k: CellKey)
    requires runs != [] && Touches(runs, mode)
  {
    mode in gate.baselines ==>
      && gate.baselines[mode].identities == MergedModes(runs).value[mode].identities
      && Carries(gate, runs[0], k)
  }

  /** An accepted recording either leaves the mode alone, on the same dataset, or measures the
      cell under unchanged identities and carried questions. */
  predicate Continues(gate: GateFile, runs: seq<Run>, mode: string, k: CellKey) {
    Recorded(gate, runs).Ok? && runs != [] ==>
      if Touches(runs, mode) then MeasuredBy(runs, mode, k).Some? && SameQuestions(gate, runs, mode, k)
      else gate.datasetSha == Some(runs[0].datasetSha)
  }

  lemma ThresholdAfter(gate: GateFile, runs: seq<Run>, mode: string, k: CellKey)
    requires Recorded(gate, runs).Ok?
    ensures runs != []
    ensures ThresholdOf(Recorded(gate, runs).value, mode, k) ==
            if !Touches(runs, mode) then
              if gate.datasetSha == Some(runs[0].datasetSha) then ThresholdOf(gate, mode, k) else None
            else if SameQuestions(gate, runs, mode, k) then
              Raised(ThresholdOf(gate, mode, k), MeasuredBy(runs, mode, k))
            else
              MeasuredBy(runs, mode, k)
  {
    RecordedBaseline(gate, runs, mode);
    if Touches(runs, mode) {
      var b := MergedModes(runs).value[mode];
      assert CarriesFrom(gate, runs[0])(k) == Carries(gate, runs[0], k);
      if k in b.cells && SameQuestions(gate, runs, mode, k) {
        assert Before(Previous(gate, mode, b), CarriesFrom(gate, runs[0]), k) == ThresholdOf(gate, mode, k);
      }
    }
  }

  /** Exactly when an accepted recording keeps a known threshold: it leaves the mode alone on the
      same dataset, or it measures the cell - for the same questions, or no lower than before. */
  lemma ThresholdIsKeptExactlyWhen(gate: GateFile, runs: seq<Run>, mode: string, k: CellKey)
    requires Recorded(gate, runs).Ok? && ThresholdOf(gate, mode, k).Some?
    ensures var before := ThresholdOf(gate, mode, k).value;
            var after := ThresholdOf(Recorded(gate, runs).value, mode, k);
            var measured := MeasuredBy(runs, mode, k);
            runs != [] &&
            (after.Some? && before <= after.value <==>
               if !Touches(runs, mode) then gate.datasetSha == Some(runs[0].datasetSha)
               else measured.Some? && (SameQuestions(gate, runs, mode, k) || before <= measured.value))
  {
    ThresholdAfter(gate, runs, mode, k);
  }

  /** What the accepted recordings of a history measured for the cell. */
  function Measurements(gate: GateFile, history: seq<seq<Run>>, mode: string, k: CellKey): set<nat> {
    if history == [] then {}
    else
      var before, runs := history[..|history| - 1], history[|history| - 1];
      var measured := MeasuredBy(runs, mode, k);
      Measurements(gate, before, mode, k)
      + if Recorded(After(gate, before), runs).Ok? && measured.Some? then {measured.value} else {}
  }

  /** `end` is the greatest of `start` and of the measured values. */
  ghost predicate IsRunningMaximum(start: Accuracy, measured: set<nat>, end: Accuracy) {
    && (forall m :: m in measured ==> end.Some? && m <= end.value)
    && (start.Some? ==> end.Some? && start.value <= end.value)
    && (end.Some? ==> end == start || end.value in measured)
  }

  lemma OneRecordingContinues(gate: GateFile, runs: seq<Run>, mode: string, k: CellKey)
    requires Recorded(gate, runs).Ok? && Continues(gate, runs, mode, k)
    ensures ThresholdOf(Recorded(gate, runs).value, mode, k) ==
            if MeasuredBy(runs, mode, k).None? then ThresholdOf(gate, mode, k)
            else Raised(ThresholdOf(gate, mode, k), MeasuredBy(runs, mode, k))
  {
    ThresholdAfter(gate, runs, mode, k);
  }

  lemma RaisingExtendsTheMaximum(start: Accuracy, measured: set<nat>, before: Accuracy, m: Accuracy)
    requires IsRunningMaximum(start, measured, before)
    ensures IsRunningMaximum(start, measured + if m.Some? then {m.value} else {},
                             if m.None? then before else Raised(before, m))
  {
    if m.None? {
      assert measured + {} == measured;
    }
  }

  /** Over any history whose accepted recordings continue the cell, its threshold is the maximum of
      the threshold it started from and of everything measured since. */
  lemma {:induction false} TheThresholdIsTheRunningMaximum(
      gate: GateFile, history: seq<seq<Run>>, mode: string, k: CellKey)
    requires forall i :: 0 <= i < |history| ==> Continues(After(gate, history[..i]), history[i], mode, k)
    ensures IsRunningMaximum(ThresholdOf(gate, mode, k), Measurements(gate, history, mode, k),
                             ThresholdOf(After(gate, history), mode, k))
    decreases |history|
  {
    if history != [] {
      var before, runs := history[..|history| - 1], history[|history| - 1];
      forall i | 0 <= i < |before|
        ensures Continues(After(gate, before[..i]), before[i], mode, k)
      {
        assert before[..i] == history[..i];
      }
      TheThresholdIsTheRunningMaximum(gate, before, mode, k);
      var now, measured := After(gate, before), MeasuredBy(runs, mode, k);
      assert Continues(now, runs, mode, k);
      var all := Measurements(gate, before, mode, k);
      if Recorded(now, runs).Ok? {
        OneRecordingContinues(now, runs, mode, k);
        RaisingExtendsTheMaximum(ThresholdOf(gate, mode, k), all, ThresholdOf(now, mode, k), measured);
      } else {
        assert Measurements(gate, history, mode, k) == all;
      }
    }
  }

  // ---------------------------------------------------------------- why the hypothesis is needed

  const CELL := CellKey("search", "same", "recall", "en")
  const OTHER := CellKey("search", "same", "recall", "de")

  function RunMeasuring(cells: seq<(CellKey, Cell)>): Run {
    Run("nollm", None, None, "d", [], None, "all", None, true, false, true, cells)
  }

  lemma OneRunIsMerged(run: Run)
    requires run.subsetOf.None?
    ensures MergedModes([run]) == Ok(map[KeyOf(run) := MeasurementOf(run)])
  {
    assert [run][..0] == [];
  }

  lemma OneRunIsRecorded(gate: GateFile, run: Run)
    requires IsEvidence(run) && run.subsetOf.None?
    requires RegressionsIn(gate, run, MeasurementOf(run), KeyOf(run)) == {}
    ensures Recorded(gate, [run]).Ok?
    ensures ThresholdsAre(Recorded(gate, [run]).value, KeyOf(run), gate, run)
  {
    OneRunIsMerged(run);
    var merged := map[KeyOf(run) := MeasurementOf(run)];
    assert [run][0] == run;
    assert !SomeRegression(AllRegressions(gate, run, merged));
  }

  ghost predicate ThresholdsAre(after: GateFile, mode: string, gate: GateFile, run: Run) {
    && after.datasetSha == Some(run.datasetSha)
    && mode in after.baselines
    && after.baselines[mode] == BaselineAfter(gate, run, MeasurementOf(run), mode)
  }

  lemma CellsOfOne(k: CellKey, cell: Cell)
    ensures CellsOf([(k, cell)]) == map[k := cell]
  {
    assert [(k, cell)][..0] == [];
    assert CellsOf([]) == map[];
  }

  /** A cell is recorded, left out of one recording, and recorded again at any accuracy, lower ones
      included: every step is accepted and the threshold is the last. So is it when the middle recording
      could not measure it. */
  lemma ACellNotMeasuredStartsAfresh(before: nat, between: (CellKey, Cell), after: nat)
    requires between.0 == OTHER || between == (CELL, Cell(None, 1))
    ensures var high, gap, low := RunMeasuring([(CELL, Cell(Some(before), 10))]), RunMeasuring([between]),
                                  RunMeasuring([(CELL, Cell(Some(after), 10))]);
            var first := Next(NOTHING_RECORDED, [high]);
            var second := Next(first, [gap]);
            var third := Next(second, [low]);
            && Recorded(NOTHING_RECORDED, [high]).Ok? && Recorded(first, [gap]).Ok? && Recorded(second, [low]).Ok?
            && ThresholdOf(first, "nollm", CELL) == Some(before)
            && ThresholdOf(third, "nollm", CELL) == Some(after)
  {
    var high, gap, low := RunMeasuring([(CELL, Cell(Some(before), 10))]), RunMeasuring([between]),
                          RunMeasuring([(CELL, Cell(Some(after), 10))]);
    CellsOfOne(CELL, Cell(Some(before), 10));
    CellsOfOne(between.0, between.1);
    CellsOfOne(CELL, Cell(Some(after), 10));
    var first := Next(NOTHING_RECORDED, [high]);
    OneRunIsRecorded(NOTHING_RECORDED, high);
    var second := Next(first, [gap]);
    OneRunIsRecorded(first, gap);
    OneRunIsRecorded(second, low);
  }

  // ---------------------------------------------------------------- recording, then checking

  /** The run measured every cell that any of the recorded runs of its mode measured. */
  ghost predicate MissesNoCell(runs: seq<Run>, run: Run) {
    forall other, k :: other in RunsOf(runs, KeyOf(run)) && k in CellsOf(other.cells) ==> k in CellsOf(run.cells)
  }

  lemma MergedCellsWereMeasured(repeats: seq<Run>, k: CellKey)
    requires repeats != [] && MergeAll(repeats).Ok?
    ensures k in MergeAll(repeats).value.cells <==> exists run :: run in repeats && k in CellsOf(run.cells)
  {
    MergedRepeatsMean(repeats, k);
    var listed := Listings(repeats, k);
    if listed != [] {
      ListedByARun(repeats, k, listed[0]);
    }
    if run :| run in repeats && k in CellsOf(run.cells) {
      assert Lists(run, k, CellsOf(run.cells)[k].accuracy);
      ListedByARun(repeats, k, CellsOf(run.cells)[k].accuracy);
    }
  }

  lemma MissingNoCellIsCoveringTheMerge(runs: seq<Run>, run: Run)
    requires MergedModes(runs).Ok? && run in runs
    ensures KeyOf(run) in MergedModes(runs).value
    ensures MissesNoCell(runs, run) <==> MergedModes(runs).value[KeyOf(run)].cells.Keys <= CellsOf(run.cells).Keys
  {
    MergedModesAreMergedRepeats(runs, KeyOf(run));
    RunIsAmongItsRepeats(runs, run);
    var repeats := RunsOf(runs, KeyOf(run));
    forall k
      ensures k in MergeAll(repeats).value.cells <==> exists other :: other in repeats && k in CellsOf(other.cells)
    {
      MergedCellsWereMeasured(repeats, k);
    }
    if MissesNoCell(runs, run) {
      assert forall k :: k in MergeAll(repeats).value.cells ==> k in CellsOf(run.cells);
    } else {
      var other, k :| other in repeats && k in CellsOf(other.cells) && k !in CellsOf(run.cells);
      assert k in MergeAll(repeats).value.cells;
    }
  }

  /** After an accepted recording, each of the recorded runs passes the gate it helped to write
      exactly when it measured every cell that any repeat of its mode measured. */
  lemma RepeatsPassTheirOwnGate(gate: GateFile, runs: seq<Run>, run: Run)
    requires Recorded(gate, runs).Ok? && run in runs
    ensures HeldTo(run) in Recorded(gate, runs).value.baselines
    ensures Checked(run, Recorded(gate, runs).value, None).Passes() <==> MissesNoCell(runs, run)
  {
    var after, mode := Recorded(gate, runs).value, KeyOf(run);
    RecordedBaseline(gate, runs, mode);
    RecordedRunsAreWhole(runs);
    MergedModesAreMergedRepeats(runs, mode);
    MissingNoCellIsCoveringTheMerge(runs, run);
    MergesExactlyWhen(RunsOf(runs, mode));
    RunIsAmongItsRepeats(runs, run);
    LastCellIsListed(run.cells);
    var base, cells := after.baselines[mode], CellsOf(run.cells);
    assert base.cells.Keys == MergedModes(runs).value[mode].cells.Keys;
    forall k | k in base.cells && k in cells
      ensures !Drops(base, cells, k)
    {
      RepeatMeetsItsFloor(gate, runs, run, k);
    }
    WithoutDropsOnlyMissingCellsFail(base, cells);
  }

  lemma FirstRecordingIsAccepted(runs: seq<Run>)
    requires runs != [] && MergedModes(runs).Ok?
    requires forall run :: run in runs ==> IsEvidence(run) && run.datasetSha == runs[0].datasetSha
    ensures Recorded(NOTHING_RECORDED, runs).Ok?
  {
    assert !SomeRegression(AllRegressions(NOTHING_RECORDED, runs[0], MergedModes(runs).value));
  }

  /** Such repeats are recorded: of any two that may be merged, one that missed a cell of the other fails
      the gate they have just written. */
  lemma ARepeatMayFailItsOwnGate(run: Run, other: Run, k: CellKey)
    requires IsEvidence(run) && IsEvidence(other) && run.subsetOf.None? && other.subsetOf.None?
    requires run.datasetSha == other.datasetSha && KeyOf(run) == KeyOf(other)
    requires run.selection == other.selection && run.identities == other.identities
    requires k in CellsOf(other.cells) && k !in CellsOf(run.cells)
    ensures Recorded(NOTHING_RECORDED, [run, other]).Ok?
    ensures !Checked(run, Recorded(NOTHING_RECORDED, [run, other]).value, None).Passes()
  {
    var runs := [run, other];
    OneRunIsMerged(run);
    assert runs[..1] == [run];
    FirstRecordingIsAccepted(runs);
    RunIsAmongItsRepeats(runs, other);
    RepeatsPassTheirOwnGate(NOTHING_RECORDED, runs, run);
  }

  lemma WithoutDropsOnlyMissingCellsFail(base: Baseline, cells: map<CellKey, Cell>)
    requires forall k :: k in base.cells && k in cells ==> !Drops(base, cells, k)
    ensures Judgement(base, false, cells, None).Passes() <==> base.cells.Keys <= cells.Keys
  {
    if base.cells.Keys <= cells.Keys {
      assert forall k :: k in base.cells ==> !Fails(base, false, cells, None, k) && !Pends(base, cells, None, k);
    } else {
      var k :| k in base.cells && k !in cells;
      VerdictSets(base, false, cells, None, k);
    }
  }

  lemma LastCellIsListed(cells: seq<(CellKey, Cell)>)
    requires cells != []
    ensures CellsOf(cells) != map[]
  {
    assert cells[|cells| - 1].0 in CellsOf(cells);
  }

  lemma RepeatMeetsItsFloor(gate: GateFile, runs: seq<Run>, run: Run, k: CellKey)
    requires Recorded(gate, runs).Ok? && run in runs && KeyOf(run) in Recorded(gate, runs).value.baselines
    requires k in Recorded(gate, runs).value.baselines[KeyOf(run)].cells && k in CellsOf(run.cells)
    ensures !Drops(Recorded(gate, runs).value.baselines[KeyOf(run)], CellsOf(run.cells), k)
  {
    var mode := KeyOf(run);
    RecordedBaseline(gate, runs, mode);
    MergedModesAreMergedRepeats(runs, mode);
    RunIsAmongItsRepeats(runs, run);
    var repeats, b := RunsOf(runs, mode), MergedModes(runs).value[mode];
    MergedRepeatsMean(repeats, k);
    assert Lists(run, k, CellsOf(run.cells)[k].accuracy);
    ListedByARun(repeats, k, CellsOf(run.cells)[k].accuracy);
    assert !Regresses(Previous(gate, mode, b), b, CarriesFrom(gate, runs[0]), k) by {
      assert k !in RegressionsIn(gate, runs[0], b, mode);
    }
  }

  /** A run that passes the gate can always be recorded: passing is at least as strict. */
  lemma APassingRunIsNeverRefused(gate: GateFile, run: Run)
    requires GateHolds(gate) && IsEvidence(run) && run.subsetOf.None?
    requires Checked(run, gate, None).Passes()
    ensures Recorded(gate, [run]).Ok?
  {
    var mode, b := KeyOf(run), MeasurementOf(run);
    var base := gate.baselines[mode];
    forall k | k in b.cells
      ensures !Regresses(Previous(gate, mode, b), b, CarriesFrom(gate, run), k)
    {
      if k in base.cells {
        VerdictSets(base, false, b.cells, None, k);
        assert !Drops(base, b.cells, k);
      }
    }
    assert RegressionsIn(gate, run, b, mode) == {};
    OneRunIsRecorded(gate, run);
  }

  // ---------------------------------------------------------------- the rerun rule

  /** The least accuracy a known cell passes at: the threshold, and where that is above what was last
      measured, the threshold less what the repeats spanned. */
  ghost function Needed(base: Baseline, k: CellKey): int
    requires k in base.cells && base.cells[k].accuracy.Some?
  {
    var want := base.cells[k];
    if want.measured.Some? && want.measured.value < want.accuracy.value && k in base.noisy
    then want.accuracy.value - (base.noisy[k].hi - base.noisy[k].lo)
    else want.accuracy.value
  }

  /** A cell is held: measured and, where both sides know it, high enough in the run - or, on a
      cell whose repeats disagreed, in the rerun. */
  ghost predicate Held(base: Baseline, subset: bool, cells: map<CellKey, Cell>,
                       again: Option<map<CellKey, Cell>>, k: CellKey)
    requires k in base.cells
  {
    if k !in cells then subset
    else if cells[k].accuracy.None? || base.cells[k].accuracy.None? then true
    else
      || cells[k].accuracy.value >= Needed(base, k)
      || (&& again.Some? && k in base.noisy && base.noisy[k].lo != base.noisy[k].hi
          && (if k in again.value && again.value[k].accuracy.Some? then again.value[k].accuracy.value else 0)
             >= Needed(base, k))
  }

  lemma VerdictSets(base: Baseline, subset: bool, cells: map<CellKey, Cell>,
                    again: Option<map<CellKey, Cell>>, k: CellKey)
    requires k in base.cells
    ensures var v := Judgement(base, subset, cells, again);
            && (Fails(base, subset, cells, again, k) ==> k in v.failures)
            && (Pends(base, cells, again, k) ==> k in v.failures || k in v.reruns)
            && (k in v.reruns ==> Pends(base, cells, again, k))
  {
    var failing := set c | c in base.cells && Fails(base, subset, cells, again, c);
    var pending := set c | c in base.cells && Pends(base, cells, again, c);
    assert Fails(base, subset, cells, again, k) ==> k in failing;
    assert Pends(base, cells, again, k) ==> k in pending;
  }

  lemma HeldExactlyWhen(base: Baseline, subset: bool, cells: map<CellKey, Cell>,
                        again: Option<map<CellKey, Cell>>, k: CellKey)
    requires k in base.cells
    ensures Held(base, subset, cells, again, k) <==>
              !Fails(base, subset, cells, again, k) && !Pends(base, cells, again, k)
  {
  }

  /** A cell is neither failed nor put off to a rerun exactly when it is held. */
  lemma ClearedExactlyWhenHeld(base: Baseline, subset: bool, cells: map<CellKey, Cell>,
                               again: Option<map<CellKey, Cell>>, k: CellKey)
    requires k in base.cells
    ensures var v := Judgement(base, subset, cells, again);
            v.Judged? && (k !in v.failures && k !in v.reruns <==> Held(base, subset, cells, again, k))
  {
    VerdictSets(base, subset, cells, again, k);
    HeldExactlyWhen(base, subset, cells, again, k);
  }

  /** With or without a rerun, the cells pass exactly when every one of them is held. */
  lemma CellsPassExactlyWhenHeld(
      base: Baseline, subset: bool, cells: map<CellKey, Cell>, again: Option<map<CellKey, Cell>>)
    ensures Judgement(base, subset, cells, again).Passes() <==>
              forall k :: k in base.cells ==> Held(base, subset, cells, again, k)
  {
    var v := Judgement(base, subset, cells, again);
    forall k | k in base.cells
      ensures k !in v.failures && k !in v.reruns <==> Held(base, subset, cells, again, k)
    {
      ClearedExactlyWhenHeld(base, subset, cells, again, k);
    }
    assert forall k :: k in v.failures || k in v.reruns ==> k in base.cells;
  }

  /** With a rerun supplied, the cells pass exactly when every one of them is held, and no other
      rerun is ever asked for. */
  lemma WithARerunCellsPassExactlyWhenHeld(
      base: Baseline, subset: bool, cells: map<CellKey, Cell>, again: map<CellKey, Cell>)
    ensures Judgement(base, subset, cells, Some(again)).Passes() <==>
              forall k :: k in base.cells ==> Held(base, subset, cells, Some(again), k)
    ensures Judgement(base, subset, cells, Some(again)).reruns == {}
  {
    CellsPassExactlyWhenHeld(base, subset, cells, Some(again));
  }

  /** One rerun decides: it never changes a pass, it cannot rescue a failure, and where it was asked
      for it passes exactly when it is high enough in every cell it was asked about. */
  lemma OneRerunDecides(base: Baseline, subset: bool, cells: map<CellKey, Cell>, again: map<CellKey, Cell>)
    ensures var alone, both := Judgement(base, subset, cells, None), Judgement(base, subset, cells, Some(again));
            && (alone.Passes() ==> both.Passes())
            && (!alone.Passes() && !alone.AsksForRerun() ==> !both.Passes())
            && (alone.AsksForRerun() ==>
                  (both.Passes() <==>
                   forall k :: k in alone.reruns ==>
                     k in base.cells && base.cells[k].accuracy.Some?
                     && AccuracyOf(again, k).GetOr(0) >= Needed(base, k)))
  {
    var alone, both := Judgement(base, subset, cells, None), Judgement(base, subset, cells, Some(again));
    WithARerunCellsPassExactlyWhenHeld(base, subset, cells, again);
    forall k | k in base.cells
      ensures Held(base, subset, cells, Some(again), k) <==>
                && !Fails(base, subset, cells, None, k)
                && (Pends(base, cells, None, k) ==> AccuracyOf(again, k).GetOr(0) >= Needed(base, k))
    {
    }
    var failing := set k | k in base.cells && Fails(base, subset, cells, None, k);
    var pending := set k | k in base.cells && Pends(base, cells, None, k);
    if alone.Passes() {
      assert forall k :: k in base.cells ==> k !in failing && k !in pending;
    } else if !alone.AsksForRerun() {
      assert failing != {};
      var k :| k in failing;
      assert !Held(base, subset, cells, Some(again), k);
    } else {
      assert failing == {} && alone.reruns == pending;
      assert forall k :: k in base.cells ==> k !in failing;
      assert forall k :: k in base.cells && Pends(base, cells, None, k) ==> k in pending;
    }
  }

  /** `more` measured the same cells, none lower. */
  ghost predicate NoLower(cells: map<CellKey, Cell>, more: map<CellKey, Cell>) {
    && cells.Keys == more.Keys
    && forall k :: k in cells ==>
         && (cells[k].accuracy.None? <==> more[k].accuracy.None?)
         && cells[k].accuracy.GetOr(0) <= more[k].accuracy.GetOr(0)
  }

  /** Raising what a run or its rerun measured never turns a pass into anything else. */
  lemma RaisingAccuracyKeepsAPass(
      base: Baseline, subset: bool, cells: map<CellKey, Cell>, more: map<CellKey, Cell>,
      again: Option<map<CellKey, Cell>>, moreAgain: Option<map<CellKey, Cell>>)
    requires NoLower(cells, more)
    requires again.Some? <==> moreAgain.Some?
    requires again.Some? ==>
               forall k :: AccuracyOf(again.value, k).GetOr(0) <= AccuracyOf(moreAgain.value, k).GetOr(0)
    requires Judgement(base, subset, cells, again).Passes()
    ensures Judgement(base, subset, more, moreAgain).Passes()
  {
    forall k | k in base.cells
      ensures !Fails(base, subset, more, moreAgain, k) && !Pends(base, more, moreAgain, k)
    {
      VerdictSets(base, subset, cells, again, k);
      assert !Fails(base, subset, cells, again, k) && !Pends(base, cells, again, k);
    }
  }
}
