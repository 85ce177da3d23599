/** The capability gate: repeated runs are merged into a measurement, `Record` ratchets the
    thresholds with it, and `Check` holds later runs to them. Accuracies are the recorded
    four-digit fractions, as whole ten-thousandths. */
module Gate {
  import opened Common

  type Accuracy = Option<nat>

  datatype CellKey = CellKey(surface: string, placement: string, capability: string, language: string)

  datatype Cell = Cell(accuracy: Accuracy, n: nat)

  /** What the repeats of a cell spanned. */
  datatype Range = Range(lo: nat, hi: nat)

  datatype FileName =
    | CapabilityFile(number: string, capability: string)
    | ScaleFile(name: string)
    | SharedFile(name: string)

  type Files = seq<(FileName, string)>

  datatype Run = Run(
    mode: string,
    sample: Option<string>,
    subsetOf: Option<string>,
    datasetSha: string,
    files: Files,
    identities: Option<string>,
    selection: string,
    commit: Option<string>,
    hasRecords: bool,
    answerErrors: bool,
    modelReached: bool,
    cells: seq<(CellKey, Cell)>)

  /** The repeats of one mode, merged. */
  datatype Measurement = Measurement(
    identities: Option<string>, selection: string, cells: map<CellKey, Cell>, noisy: map<CellKey, Range>)

  /** A gated cell: its threshold, beside what the last recording measured. */
  datatype Threshold = Threshold(accuracy: Accuracy, measured: Accuracy, n: nat)

  datatype Baseline = Baseline(
    identities: Option<string>, selection: string, cells: map<CellKey, Threshold>, noisy: map<CellKey, Range>)

  /** The gate file; a missing file reads as NOTHING_RECORDED. */
  datatype GateFile = GateFile(datasetSha: Option<string>, files: Files, baselines: map<string, Baseline>)

  const NOTHING_RECORDED := GateFile(None, [], map[])

  datatype Result<+T, +E> = Ok(value: T) | Err(error: E)

  function Get<K, V>(m: map<K, V>, k: K): Option<V> {
    if k in m then Some(m[k]) else None
  }

  // ---------------------------------------------------------------- a run's own cells

  /** The cells as a dict: a later listing of a key replaces an earlier one. */
  function CellsOf(cells: seq<(CellKey, Cell)>): map<CellKey, Cell> {
    if cells == [] then map[]
    else
      var last := cells[|cells| - 1];
      CellsOf(cells[..|cells| - 1])[last.0 := last.1]
  }

  /** Where a run's thresholds are kept: under its mode, with the sample appended when that has a name of
      its own. */
  function KeyOf(run: Run): string {
    if run.sample.None? || run.sample.value == run.mode then run.mode
    else run.mode + "/" + run.sample.value
  }

  function MeasurementOf(run: Run): Measurement {
    Measurement(run.identities, run.selection, CellsOf(run.cells), map[])
  }

  // ---------------------------------------------------------------- merging repeats

  datatype MergeError = SelectionsDiffer | IdentitiesDiffer

  function Span(range: Range, value: Accuracy): Range {
    if value.None? then range else Range(Min(range.lo, value.value), Max(range.hi, value.value))
  }

  /** The range of the two differing values and of what was spanned before. */
  function Widen(mine: Accuracy, value: Accuracy, earlier: Option<Range>): Range
    requires mine != value
  {
    var known := if mine.Some? then mine.value else value.value;
    Span(Span(earlier.GetOr(Range(known, known)), mine), value)
  }

  predicate Replaces(mine: Option<Cell>, cell: Cell) {
    mine.None? || (cell.accuracy.Some? && cell.accuracy.value < mine.value.accuracy.GetOr(0))
  }

  predicate Disagrees(mine: Option<Cell>, cell: Cell) {
    mine.Some? && mine.value.accuracy != cell.accuracy
  }

  function MergeCells(base: map<CellKey, Cell>, other: map<CellKey, Cell>): map<CellKey, Cell> {
    map k | k in base.Keys + other.Keys ::
      if k in other && Replaces(Get(base, k), other[k]) then other[k] else base[k]
  }

  function MergeNoise(base: Measurement, other: map<CellKey, Cell>): map<CellKey, Range> {
    map k | k in base.noisy.Keys + other.Keys && (k in base.noisy || Disagrees(Get(base.cells, k), other[k])) ::
      if k in other && Disagrees(Get(base.cells, k), other[k])
      then Widen(base.cells[k].accuracy, other[k].accuracy, Get(base.noisy, k))
      else base.noisy[k]
  }

  function Merged(base: Measurement, other: Measurement): Result<Measurement, MergeError> {
    if base.selection != other.selection then Err(SelectionsDiffer)
    else if base.identities != other.identities then Err(IdentitiesDiffer)
    else Ok(base.(cells := MergeCells(base.cells, other.cells), noisy := MergeNoise(base, other.cells)))
  }

  /** One pass over the other run's cells, here as two: the lower accuracy, and the range. */
  method Merge(base: Measurement, other: Measurement) returns (r: Result<Measurement, MergeError>)
    ensures r == Merged(base, other)
  {
    if base.selection != other.selection {
      return Err(SelectionsDiffer);
    }
    if base.identities != other.identities {
      return Err(IdentitiesDiffer);
    }
    var cells := MergeAccuracies(base.cells, other.cells);
    var noisy := MergeRanges(base, other.cells);
    r := Ok(base.(cells := cells, noisy := noisy));
  }

  method MergeAccuracies(base: map<CellKey, Cell>, other: map<CellKey, Cell>) returns (cells: map<CellKey, Cell>)
    ensures cells == MergeCells(base, other)
  {
    cells := base;
    var left := other.Keys;
    while left != {}
      invariant left <= other.Keys
      invariant cells.Keys == base.Keys + (other.Keys - left)
      invariant forall k :: k in cells ==>
                  cells[k] == if k in other && k !in left then MergeCells(base, other)[k] else base[k]
      decreases left
    {
      var key :| key in left;
      var cell, mine := other[key], Get(cells, key);
      if mine.None? || (cell.accuracy.Some? && cell.accuracy.value < mine.value.accuracy.GetOr(0)) {
        cells := cells[key := cell];
      }
      left := left - {key};
    }
    assert cells == MergeCells(base, other);
  }

  method MergeRanges(base: Measurement, other: map<CellKey, Cell>) returns (noisy: map<CellKey, Range>)
    ensures noisy == MergeNoise(base, other)
  {
    noisy := base.noisy;
    ghost var all := MergeNoise(base, other);
    var left := other.Keys;
    while left != {}
      invariant left <= other.Keys
      invariant forall k :: k in noisy <==> if k in other && k !in left then k in all else k in base.noisy
      invariant forall k :: k in noisy ==> noisy[k] == if k in other && k !in left then all[k] else base.noisy[k]
      decreases left
    {
      var key :| key in left;
      var mine := Get(base.cells, key);
      if mine.Some? && mine.value.accuracy != other[key].accuracy {
        noisy := noisy[key := Widen(mine.value.accuracy, other[key].accuracy, Get(noisy, key))];
      }
      left := left - {key};
    }
    assert noisy == all;
  }

  // ---------------------------------------------------------------- what a threshold carries over

  function ShaOf(files: Files, file: FileName): Option<string> {
    if files == [] then None
    else if files[0].0 == file then Some(files[0].1)
    else ShaOf(files[1..], file)
  }

  /** Whether the capability's own file is unchanged; its last listed file decides. */
  predicate CapabilityUnchanged(before: Files, after: Files, capability: string) {
    if after == [] then false
    else
      var last := after[|after| - 1];
      if last.0.CapabilityFile? && last.0.capability == capability then ShaOf(before, last.0) == Some(last.1)
      else CapabilityUnchanged(before, after[..|after| - 1], capability)
  }

  predicate SharedUnchanged(before: Files, after: Files) {
    forall file :: file in after && file.0.SharedFile? ==> ShaOf(before, file.0) == Some(file.1)
  }

  /** The cell was asked the same questions before: all files are the recorded ones, or those it depends on. */
  predicate Carries(existing: GateFile, run: Run, cell: CellKey) {
    if existing.datasetSha == Some(run.datasetSha) then true
    else if existing.files == [] || run.files == [] then false
    else
      && SharedUnchanged(existing.files, run.files)
      && CapabilityUnchanged(existing.files, run.files, cell.capability)
  }

  // ---------------------------------------------------------------- recording

  datatype Refusal =
    | NotABaseline
    | DifferentDatasets
    | GatedElsewhere
    | RepeatsDiffer(why: MergeError)
    | Regression(cells: map<string, set<CellKey>>)

  predicate IsEvidence(run: Run) {
    run.cells != [] && run.hasRecords && !run.answerErrors && run.modelReached
  }

  /** The measurement of every mode among the runs, repeats merged in the order given. */
  function MergedModes(runs: seq<Run>): Result<map<string, Measurement>, Refusal> {
    if runs == [] then Ok(map[])
    else
      var before, run := MergedModes(runs[..|runs| - 1]), runs[|runs| - 1];
      if before.Err? then before
      else if run.subsetOf.Some? then Err(GatedElsewhere)
      else if KeyOf(run) !in before.value then Ok(before.value[KeyOf(run) := MeasurementOf(run)])
      else
        var merged := Merged(before.value[KeyOf(run)], MeasurementOf(run));
        if merged.Err? then Err(RepeatsDiffer(merged.error))
        else Ok(before.value[KeyOf(run) := merged.value])
  }

  /** The baseline a measurement ratchets: none when the runs named their users another way. */
  function Previous(existing: GateFile, mode: string, b: Measurement): Baseline {
    if mode in existing.baselines && existing.baselines[mode].identities == b.identities
    then existing.baselines[mode]
    else Baseline(b.identities, b.selection, map[], map[])
  }

  function NoiseAfter(prev: Baseline, b: Measurement, carries: CellKey -> bool): map<CellKey, Range> {
    map k | k in prev.noisy.Keys + b.noisy.Keys && (k in b.noisy || carries(k)) ::
      if k !in b.noisy then prev.noisy[k]
      else if k in prev.noisy && carries(k)
      then Range(Min(b.noisy[k].lo, prev.noisy[k].lo), Max(b.noisy[k].hi, prev.noisy[k].hi))
      else b.noisy[k]
  }

  function SpreadIn(noisy: map<CellKey, Range>, k: CellKey): int {
    if k in noisy then noisy[k].hi - noisy[k].lo else 0
  }

  /** The threshold a cell already has for the same questions. */
  function Before(prev: Baseline, carries: CellKey -> bool, k: CellKey): Accuracy {
    if k in prev.cells && carries(k) then prev.cells[k].accuracy else None
  }

  function Raised(before: Accuracy, measured: Accuracy): Accuracy {
    if before.None? || measured.None? then measured else Some(Max(measured.value, before.value))
  }

  predicate Regresses(prev: Baseline, b: Measurement, carries: CellKey -> bool, k: CellKey)
    requires k in b.cells
  {
    var before, measured := Before(prev, carries, k), b.cells[k].accuracy;
    && before.Some? && measured.Some?
    && measured.value < before.value - SpreadIn(NoiseAfter(prev, b, carries), k)
  }

  function Ratcheted(prev: Baseline, b: Measurement, carries: CellKey -> bool): Baseline {
    Baseline(
      b.identities,
      b.selection,
      map k | k in b.cells ::
        Threshold(Raised(Before(prev, carries, k), b.cells[k].accuracy), b.cells[k].accuracy, b.cells[k].n),
      NoiseAfter(prev, b, carries))
  }

  function RegressionsOf(prev: Baseline, b: Measurement, carries: CellKey -> bool): set<CellKey> {
    set k | k in b.cells && Regresses(prev, b, carries, k)
  }

  /** One mode's baseline: its noise first, then each cell's threshold and whether it regressed. */
  method Ratchet(prev: Baseline, b: Measurement, carries: CellKey -> bool)
    returns (baseline: Baseline, regressions: set<CellKey>)
    ensures baseline == Ratcheted(prev, b, carries)
    ensures regressions == RegressionsOf(prev, b, carries)
  {
    var noisy := RatchetNoise(prev, b, carries);
    var cells: map<CellKey, Threshold> := map[];
    ghost var all := Ratcheted(prev, b, carries).cells;
    regressions := {};
    var left := b.cells.Keys;
    while left != {}
      invariant left <= b.cells.Keys
      invariant cells.Keys == b.cells.Keys - left
      invariant forall k :: k in cells ==> cells[k] == all[k]
      invariant forall k :: k in regressions <==> k in b.cells.Keys - left && k in RegressionsOf(prev, b, carries)
      decreases left
    {
      var k :| k in left;
      var threshold, regresses := RatchetCell(prev, b, carries, noisy, k);
      if regresses {
        regressions := regressions + {k};
      }
      cells := cells[k := threshold];
      left := left - {k};
    }
    assert cells == all;
    baseline := Baseline(b.identities, b.selection, cells, noisy);
  }

  method RatchetNoise(prev: Baseline, b: Measurement, carries: CellKey -> bool)
    returns (noisy: map<CellKey, Range>)
    ensures noisy == NoiseAfter(prev, b, carries)
  {
    noisy := map k | k in prev.noisy && carries(k) :: prev.noisy[k];
    ghost var kept, after := noisy, NoiseAfter(prev, b, carries);
    var left := b.noisy.Keys;
    while left != {}
      invariant left <= b.noisy.Keys
      invariant noisy.Keys == kept.Keys + (b.noisy.Keys - left)
      invariant forall k :: k in noisy ==> noisy[k] == if k in b.noisy && k !in left then after[k] else kept[k]
      decreases left
    {
      var k :| k in left;
      var range := b.noisy[k];
      var earlier := if k in noisy then noisy[k] else range;
      noisy := noisy[k := Range(Min(range.lo, earlier.lo), Max(range.hi, earlier.hi))];
      left := left - {k};
    }
    assert noisy == after;
  }

  method RatchetCell(prev: Baseline, b: Measurement, carries: CellKey -> bool, noisy: map<CellKey, Range>, k: CellKey)
    returns (threshold: Threshold, regresses: bool)
    requires k in b.cells && noisy == NoiseAfter(prev, b, carries)
    ensures threshold == Ratcheted(prev, b, carries).cells[k]
    ensures regresses == Regresses(prev, b, carries, k)
  {
    var measured := b.cells[k].accuracy;
    var before := if k in prev.cells && carries(k) then prev.cells[k].accuracy else None;
    var best := if before.None? || measured.None? then measured else Some(Max(measured.value, before.value));
    regresses := false;
    if before.Some? && measured.Some? {
      regresses := measured.value < before.value - SpreadIn(noisy, k);
    }
    threshold := Threshold(best, measured, b.cells[k].n);
  }

  function CarriesFrom(existing: GateFile, run: Run): CellKey -> bool {
    cell => Carries(existing, run, cell)
  }

  function RegressionsIn(existing: GateFile, run: Run, b: Measurement, mode: string): set<CellKey> {
    RegressionsOf(Previous(existing, mode, b), b, CarriesFrom(existing, run))
  }

  function AllRegressions(existing: GateFile, run: Run, merged: map<string, Measurement>): map<string, set<CellKey>> {
    map mode | mode in merged :: RegressionsIn(existing, run, merged[mode], mode)
  }

  predicate SomeRegression(regressions: map<string, set<CellKey>>) {
    exists mode :: mode in regressions && regressions[mode] != {}
  }

  function BaselineAfter(existing: GateFile, run: Run, b: Measurement, mode: string): Baseline {
    Ratcheted(Previous(existing, mode, b), b, CarriesFrom(existing, run))
  }

  function RatchetedAll(existing: GateFile, run: Run, merged: map<string, Measurement>): map<string, Baseline> {
    map mode | mode in merged :: BaselineAfter(existing, run, merged[mode], mode)
  }

  /** The baselines another mode keeps: none once the dataset has changed. */
  function Kept(existing: GateFile, sha: string): map<string, Baseline> {
    if existing.datasetSha == Some(sha) then existing.baselines else map[]
  }

  function Recorded(existing: GateFile, runs: seq<Run>): Result<GateFile, Refusal> {
    if exists run :: run in runs && !IsEvidence(run) then Err(NotABaseline)
    else if runs == [] || exists run :: run in runs && run.datasetSha != runs[0].datasetSha then Err(DifferentDatasets)
    else
      var merged := MergedModes(runs);
      if merged.Err? then Err(merged.error)
      else
        var regressions := AllRegressions(existing, runs[0], merged.value);
        if SomeRegression(regressions) then Err(Regression(regressions))
        else Ok(GateFile(
                  Some(runs[0].datasetSha),
                  runs[0].files,
                  Kept(existing, runs[0].datasetSha) + RatchetedAll(existing, runs[0], merged.value)))
  }

  /** Records runs, or refuses them and leaves the file as it was. */
  method Record(existing: GateFile, runs: seq<Run>) returns (r: Result<GateFile, Refusal>)
    ensures r == Recorded(existing, runs)
  {
    for i := 0 to |runs|
      invariant forall j :: 0 <= j < i ==> IsEvidence(runs[j])
    {
      if !IsEvidence(runs[i]) {
        return Err(NotABaseline);
      }
    }
    var shas := set run | run in runs :: run.datasetSha;
    OneShaMeansOneDataset(runs, shas);
    if |shas| != 1 {
      return Err(DifferentDatasets);
    }
    var merged := MergeRepeats(runs);
    if merged.Err? {
      return Err(merged.error);
    }
    var baselines, regressions := RatchetModes(existing, runs[0], merged.value);
    if SomeRegression(regressions) {
      return Err(Regression(regressions));
    }
    r := Ok(GateFile(Some(runs[0].datasetSha), runs[0].files, baselines));
  }

  method RatchetModes(existing: GateFile, run: Run, merged: map<string, Measurement>)
    returns (baselines: map<string, Baseline>, regressions: map<string, set<CellKey>>)
    ensures baselines == Kept(existing, run.datasetSha) + RatchetedAll(existing, run, merged)
    ensures regressions == AllRegressions(existing, run, merged)
  {
    var kept := Kept(existing, run.datasetSha);
    baselines, regressions := kept, map[];
    var left := merged.Keys;
    while left != {}
      invariant left <= merged.Keys
      invariant forall m :: m in baselines <==> m in kept || (m in merged && m !in left)
      invariant forall m :: m in baselines ==>
                  baselines[m] == if m in merged && m !in left then BaselineAfter(existing, run, merged[m], m)
                                  else kept[m]
      invariant forall m :: m in regressions <==> m in merged && m !in left
      invariant forall m :: m in regressions ==> regressions[m] == RegressionsIn(existing, run, merged[m], m)
      decreases left
    {
      var mode :| mode in left;
      left := left - {mode};
      var baseline, below := RatchetMode(existing, run, merged[mode], mode);
      baselines := baselines[mode := baseline];
      regressions := regressions[mode := below];
    }
    EveryModeIsRatcheted(existing, run, merged, kept, baselines);
    EveryModeIsCompared(existing, run, merged, regressions);
  }

  lemma EveryModeIsRatcheted(existing: GateFile, run: Run, merged: map<string, Measurement>,
                             kept: map<string, Baseline>, baselines: map<string, Baseline>)
    requires forall m :: m in baselines <==> m in kept || m in merged
    requires forall m :: m in baselines ==>
               baselines[m] == if m in merged then BaselineAfter(existing, run, merged[m], m) else kept[m]
    ensures baselines == kept + RatchetedAll(existing, run, merged)
  {
  }

  lemma EveryModeIsCompared(existing: GateFile, run: Run, merged: map<string, Measurement>,
                            regressions: map<string, set<CellKey>>)
    requires forall m :: m in regressions <==> m in merged
    requires forall m :: m in regressions ==> regressions[m] == RegressionsIn(existing, run, merged[m], m)
    ensures regressions == AllRegressions(existing, run, merged)
  {
  }

  method RatchetMode(existing: GateFile, run: Run, b: Measurement, mode: string)
    returns (baseline: Baseline, below: set<CellKey>)
    ensures baseline == BaselineAfter(existing, run, b, mode)
    ensures below == RegressionsIn(existing, run, b, mode)
  {
    baseline, below := Ratchet(Previous(existing, mode, b), b, CarriesFrom(existing, run));
  }

  lemma OneShaMeansOneDataset(runs: seq<Run>, shas: set<string>)
    requires shas == set run | run in runs :: run.datasetSha
    ensures |shas| == 1 <==> runs != [] && forall run :: run in runs ==> run.datasetSha == runs[0].datasetSha
  {
    if runs != [] {
      var sha := runs[0].datasetSha;
      assert runs[0] in runs;
      assert sha in shas;
      assert |shas| == 1 + |shas - {sha}|;
      forall run | run in runs
        ensures run.datasetSha in shas
      {
      }
      if forall run :: run in runs ==> run.datasetSha == sha {
        assert shas - {sha} == {};
      } else {
        var run :| run in runs && run.datasetSha != sha;
        assert run.datasetSha in shas - {sha};
      }
    } else {
      assert shas == {};
    }
  }

  method MergeRepeats(runs: seq<Run>) returns (r: Result<map<string, Measurement>, Refusal>)
    ensures r == MergedModes(runs)
  {
    var modes: map<string, Measurement> := map[];
    for i := 0 to |runs|
      invariant MergedModes(runs[..i]) == Ok(modes)
    {
      var run := runs[i];
      var upTo := runs[..i + 1];
      assert upTo[..|upTo| - 1] == runs[..i];
      if run.subsetOf.Some? {
        FirstRefusalStands(runs, i + 1);
        return Err(GatedElsewhere);
      }
      var b, key := MeasurementOf(run), KeyOf(run);
      if key in modes {
        var merged := Merge(modes[key], b);
        if merged.Err? {
          FirstRefusalStands(runs, i + 1);
          return Err(RepeatsDiffer(merged.error));
        }
        modes := modes[key := merged.value];
      } else {
        modes := modes[key := b];
      }
    }
    assert runs[..|runs|] == runs;
    r := Ok(modes);
  }

  lemma {:induction false} FirstRefusalStands(runs: seq<Run>, i: nat)
    requires i <= |runs| && MergedModes(runs[..i]).Err?
    ensures MergedModes(runs) == MergedModes(runs[..i])
    decreases |runs|
  {
    if i == |runs| {
      assert runs[..i] == runs;
    } else {
      var before := runs[..|runs| - 1];
      assert before[..i] == runs[..i];
      FirstRefusalStands(before, i);
    }
  }

  // ---------------------------------------------------------------- checking

  /** How a run is judged on its cells: those below their floor, and those one rerun may clear. */
  datatype Verdict =
    | NoBaseline
    | DatasetChanged
    | ModelUnreached
    | UsersNamedAnotherWay
    | SelectionDiffers
    | NothingMeasured
    | NotARerun
    | UnknownCells
    | Judged(failures: set<CellKey>, reruns: set<CellKey>)
  {
    predicate Passes() { Judged? && failures == {} && reruns == {} }

    predicate AsksForRerun() { Judged? && failures == {} && reruns != {} }
  }

  function Floor(base: Baseline, k: CellKey): int
    requires k in base.cells && base.cells[k].accuracy.Some?
  {
    var want := base.cells[k];
    if want.measured.Some? && want.accuracy.value > want.measured.value
    then want.accuracy.value - SpreadIn(base.noisy, k)
    else want.accuracy.value
  }

  function AccuracyOf(cells: map<CellKey, Cell>, k: CellKey): Accuracy {
    if k in cells then cells[k].accuracy else None
  }

  /** Below its floor; a cell without an accuracy on either side is not judged. */
  predicate Drops(base: Baseline, cells: map<CellKey, Cell>, k: CellKey)
    requires k in base.cells && k in cells
  {
    && cells[k].accuracy.Some? && base.cells[k].accuracy.Some?
    && cells[k].accuracy.value < Floor(base, k)
  }

  predicate Fails(base: Baseline, subset: bool, cells: map<CellKey, Cell>,
                  again: Option<map<CellKey, Cell>>, k: CellKey)
    requires k in base.cells
  {
    if k !in cells then !subset
    else
      && Drops(base, cells, k)
      && (SpreadIn(base.noisy, k) == 0
          || (again.Some? && AccuracyOf(again.value, k).GetOr(0) < Floor(base, k)))
  }

  predicate Pends(base: Baseline, cells: map<CellKey, Cell>, again: Option<map<CellKey, Cell>>, k: CellKey)
    requires k in base.cells
  {
    k in cells && Drops(base, cells, k) && SpreadIn(base.noisy, k) != 0 && again.None?
  }

  function Judgement(base: Baseline, subset: bool, cells: map<CellKey, Cell>,
                     again: Option<map<CellKey, Cell>>): Verdict {
    var failing := set k | k in base.cells && Fails(base, subset, cells, again, k);
    var pending := set k | k in base.cells && Pends(base, cells, again, k);
    if failing == {} then Judged({}, pending) else Judged(failing + pending, {})
  }

  predicate IsRerunOf(rerun: Run, run: Run) {
    && rerun.datasetSha == run.datasetSha && rerun.selection == run.selection
    && rerun.mode == run.mode && rerun.commit == run.commit
  }

  /** The baseline a run is judged against: its own, or the one its set is a subset of. */
  function HeldTo(run: Run): string {
    run.subsetOf.GetOr(KeyOf(run))
  }

  function Checked(run: Run, gate: GateFile, rerun: Option<Run>): Verdict {
    if HeldTo(run) !in gate.baselines then NoBaseline
    else
      var base := gate.baselines[HeldTo(run)];
      if Some(run.datasetSha) != gate.datasetSha then DatasetChanged
      else if !run.modelReached then ModelUnreached
      else if run.identities != base.identities then UsersNamedAnotherWay
      else if run.subsetOf.None? && run.selection != base.selection then SelectionDiffers
      else if CellsOf(run.cells) == map[] then NothingMeasured
      else if rerun.Some? && !IsRerunOf(rerun.value, run) then NotARerun
      else if run.subsetOf.Some? && !(CellsOf(run.cells).Keys <= base.cells.Keys) then UnknownCells
      else Judgement(base, run.subsetOf.Some?, CellsOf(run.cells), CellsOfRerun(rerun))
  }

  function CellsOfRerun(rerun: Option<Run>): Option<map<CellKey, Cell>> {
    if rerun.Some? then Some(CellsOf(rerun.value.cells)) else None
  }

  /** Holds a run to the gate, but for its latency. */
  method Check(run: Run, gate: GateFile, rerun: Option<Run>) returns (verdict: Verdict)
    ensures verdict == Checked(run, gate, rerun)
  {
    var key := HeldTo(run);
    if key !in gate.baselines {
      return NoBaseline;
    }
    var base := gate.baselines[key];
    if Some(run.datasetSha) != gate.datasetSha {
      return DatasetChanged;
    }
    if !run.modelReached {
      return ModelUnreached;
    }
    if run.identities != base.identities {
      return UsersNamedAnotherWay;
    }
    if run.subsetOf.None? && run.selection != base.selection {
      return SelectionDiffers;
    }
    var cells := CellsOf(run.cells);
    if cells == map[] {
      return NothingMeasured;
    }
    if rerun.Some? && !IsRerunOf(rerun.value, run) {
      return NotARerun;
    }
    if run.subsetOf.Some? && !(cells.Keys <= base.cells.Keys) {
      return UnknownCells;
    }
    verdict := CheckCells(base, run.subsetOf.Some?, cells, CellsOfRerun(rerun));
  }

  method CheckCells(base: Baseline, subset: bool, cells: map<CellKey, Cell>, again: Option<map<CellKey, Cell>>)
    returns (verdict: Verdict)
    ensures verdict == Judgement(base, subset, cells, again)
  {
    var failures, pending: set<CellKey> := {}, {};
    var left := base.cells.Keys;
    while left != {}
      invariant left <= base.cells.Keys
      invariant forall k :: k in failures <==> k in base.cells.Keys - left && Fails(base, subset, cells, again, k)
      invariant forall k :: k in pending <==> k in base.cells.Keys - left && Pends(base, cells, again, k)
      decreases left
    {
      var k :| k in left;
      var fails, pends := CheckCell(base, subset, cells, again, k);
      left := left - {k};
      if fails {
        failures := failures + {k};
      } else if pends {
        pending := pending + {k};
      }
    }
    if failures == {} {
      verdict := Judged({}, pending);
    } else {
      verdict := Judged(failures + pending, {});
    }
  }

  method CheckCell(base: Baseline, subset: bool, cells: map<CellKey, Cell>,
                   again: Option<map<CellKey, Cell>>, k: CellKey)
    returns (fails: bool, pends: bool)
    requires k in base.cells
    ensures fails == Fails(base, subset, cells, again, k)
    ensures pends == Pends(base, cells, again, k)
  {
    fails, pends := false, false;
    var want, got := base.cells[k], Get(cells, k);
    if got.None? {
      fails := !subset;
    } else if got.value.accuracy.Some? && want.accuracy.Some? {
      var spread := SpreadIn(base.noisy, k);
      var carried := want.measured.Some? && want.accuracy.value > want.measured.value;
      var floor := if carried then want.accuracy.value - spread else want.accuracy.value;
      if got.value.accuracy.value < floor {
        if spread == 0 {
          fails := true;
        } else if again.None? {
          pends := true;
        } else {
          fails := AccuracyOf(again.value, k).GetOr(0) < floor;
        }
      }
    }
  }
}
