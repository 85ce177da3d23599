# Verification of the evaluation code

This project models the evaluation code of the memory service - the parts that decide whether a
number may be published or a change may be merged - and proves what its documentation and tests
promise of it. Each component is one module; state the source updates in place is a class, each loop
is a loop with invariants, and each such method is tied to a specification about which the main
lemmas are proved.

| module | component |
|---|---|
| `Gate`, `GateRepeats`, `GateHistory`, `GateMeaning` | the capability ratchet gate: merging repeats, recording thresholds, holding runs to them, and what its verdicts mean |
| `SourceLineage` | the bounded closure of a cyclic citation graph, and source coverage |
| `EditDistance`, `LiteralSearch` | the OCR character score; digit-aware anchor search |
| `RankFusion`, `FusionScaling`, `WeightFit`, `OracleOrder`, `StrideSample` | reciprocal-rank fusion in both places it is written, what scaling its weights does, the weight fit, the reordering ceiling, the stride sample |
| `SparseIndex`, `Ndcg` | the inverted index against a full scan; nDCG and the loop that feeds it |
| `FixedArrivals`, `Pacer` | the bounded arrival driver and the rate pacer, as state machines over every run |
| `CorpusLedger` | the corpus cache and the two code paths that compute its turn map |
| `Calendar` | generated periods, filing times and relative months |
| `DatasetSplit` | the dev / held-out split and the scenarios a run selects |
| `Sorting` | Python's `sorted`: a stable sort, and the sorted listing of a dict or set |
| `Common` | an option type, a prefix, and facts on sizes and quotients |

Accuracies are whole ten-thousandths (the source rounds them to four digits, so its 1e-9 tolerance
compares them exactly). Scores, weights and times are reals. Hashes are injective ranks, `log` is an
argument, and the store and the clock are parameters.

`dafny verify dfyconfig.toml` checks everything.

## Promises that hold only under a condition

Each of these is kept as the code has it: a lemma shows where the promise fails, and another, or the same
one, exactly when it holds.

- **Merging repeats depends on their order for a half-known cell** (gate.py:134-156). When one repeat
  measured a cell and another could not, the first repeat's unknown accuracy stays. Every order of the
  repeats gives the same accuracy if and only if no such mix occurs
  (`GateRepeats.OrderMattersExactlyWhenHalfKnown`); the noise range never depends on the order.
- **The ratchet has a gap** (gate.py:216-222 says accuracy may only go up). An accepted recording that
  leaves a cell out, or could not measure it, drops its threshold, and the next recording of it may be
  any number lower (`GateHistory.ACellNotMeasuredStartsAfresh`). A threshold is kept exactly under the
  condition of `GateHistory.ThresholdIsKeptExactlyWhen`.
- **A repeat can fail the gate it helped to write**, exactly when another repeat of its mode measured a
  cell it did not (`GateHistory.RepeatsPassTheirOwnGate`, `GateHistory.ARepeatMayFailItsOwnGate`).
- **Adding a query moves others.** The docstring has it that a new query hardly disturbs the split
  (dataset.py:334-342); in fact every query that ranks above it changes its half, and no other does
  (`DatasetSplit.AnInsertionKeepsExactlyTheLowerRanked`).
- **Scaling the fusion weights by a positive constant** can change a fusion: an arm that is not named keeps
  weight 1.0 (fit_rrf_weights.py:39). For positive weights it leaves every fusion as it is if and only if
  the constant is one, every arm is named, or none is (`FusionScaling.PositiveWeightsScaleExactlyWhen`);
  for weights of any sign, if and only if the constant is one or no named arm of nonzero weight stands
  beside an unnamed one (`FusionScaling.ScalingIsNeutralExactlyWhen`).
- **The oracle order is not always "the ceiling for any reordering"** (rerank_offline.py:137-140). It
  is one, whatever gold turns the carriers of the pool hold, if and only if nothing is read, all of those
  carriers fit in the depth, or there is at most one gold turn (`OracleOrder.TheCeilingHoldsExactlyWhen`).
- **nDCG is not always a fraction.** A ranking scores between 0 and 1 whatever is relevant if and only if
  its first k documents repeat none (`Ndcg.NdcgIsAFractionExactlyWithoutRepeats`); the loop in `run`
  supplies only such rankings.
- **A rate limit divides by zero** if and only if the run is unpaced, whenever in the run it comes
  (locomo.py:691,715, `Pacer.RateLimitDividesByZeroExactlyWhenUnpaced`).
- **A negative `months_ago` reaching past this year's December matches no day**: the loop only borrows
  (generate.py:110-113, `Calendar.MonthsAgoIsMonthSubtractionExactlyWhen`).

## Model

| member | source | states |
|---|---|---|
| Gate.MergeAccuracies | benchmark/capabilities/gate.py:142-156 | the loop over the other run's cells computes the merged cells, which `GateRepeats.MergedRepeatsMean` characterises |
| Gate.MergeRanges | benchmark/capabilities/gate.py:143-152 | ... and the merged noise ranges, including the widening of an earlier range |
| Gate.Merge | benchmark/capabilities/gate.py:134-178 | a merge refuses exactly on differing selections or identities, and otherwise is the merge specified |
| GateRepeats.MergedRepeatsMean | benchmark/capabilities/gate.py:134-156 | over any number of repeats: a cell's accuracy is the least anyone listed, unless the first to list it did not know it; its noise range exists exactly when two repeats disagreed and runs from the least to the greatest listed |
| GateRepeats.MergesExactlyWhen | benchmark/capabilities/gate.py:138-141 | the fold succeeds if and only if all repeats share the first one's selection and identities |
| GateRepeats.OrderDoesNotMatter | benchmark/capabilities/gate.py:134-156 | any permutation of the repeats gives the same noise range, and the same accuracy unless a cell is known to some repeats and unknown to others |
| GateRepeats.FrontRunDecides | benchmark/capabilities/gate.py:145-156 | any listed accuracy can be put first, and then decides whether the merged cell is known |
| GateRepeats.OrderMattersExactlyWhenHalfKnown | benchmark/capabilities/gate.py:145-156 | the merged cell is the same for every order if and only if it is not half-known |
| Gate.MergeRepeats | benchmark/capabilities/gate.py:237-243 | the loop over runs: one measurement a mode, or the first refusal |
| GateRepeats.MergedModesAreMergedRepeats | benchmark/capabilities/gate.py:237-243 | each mode's measurement is the fold of exactly that mode's runs, interleaved with others or not |
| Gate.OneShaMeansOneDataset | benchmark/capabilities/gate.py:232-235 | one distinct digest among the runs if and only if there are runs and all name the first one's dataset |
| Gate.RatchetNoise | benchmark/capabilities/gate.py:255-258 | the noise kept is the carried ranges widened by this recording's |
| Gate.RatchetCell | benchmark/capabilities/gate.py:260-268 | one cell's new threshold, and whether it is below the carried one by more than its noise |
| Gate.Ratchet | benchmark/capabilities/gate.py:249-269 | a mode's baseline after the recording, and the cells that regress |
| Gate.RatchetModes | benchmark/capabilities/gate.py:244-269 | all recorded modes are ratcheted; other modes stay only on the same dataset |
| Gate.Record | benchmark/capabilities/gate.py:216-292 | the whole recording: every refusal in the source's order, or the new gate file |
| GateHistory.EveryReachableGateHolds | benchmark/capabilities/gate.py:253-273 | in every gate file any history of recordings reaches, each cell's latest measurement is at most its threshold and at least the threshold less its recorded spread |
| GateHistory.ThresholdAfter | benchmark/capabilities/gate.py:245-268 | what an accepted recording does to one threshold: kept, dropped, raised or started afresh |
| GateHistory.ThresholdIsKeptExactlyWhen | benchmark/capabilities/gate.py:218-221 | "accuracy may only go up" holds of an accepted recording if and only if it leaves the mode alone on the same dataset, or measures the cell for the same questions or no lower |
| GateHistory.TheThresholdIsTheRunningMaximum | benchmark/capabilities/gate.py:218-221 | over any history that keeps measuring the cell, the threshold is the maximum of the start and of every merged measurement; refused recordings count for nothing |
| GateHistory.ACellNotMeasuredStartsAfresh | benchmark/capabilities/gate.py:260-268 | why that hypothesis is needed: any accuracy, then a gap, then any other is accepted at every step, and the last is the threshold |
| GateHistory.RepeatsPassTheirOwnGate | benchmark/capabilities/gate.py:351-368 | after an accepted recording each of its runs passes the check if and only if it measured every cell that any recorded run of its mode measured, whether thresholds were carried or fresh |
| GateHistory.ARepeatMayFailItsOwnGate | benchmark/capabilities/gate.py:355-356 | any two runs that may be merged are recorded, and the one that missed a cell of the other then fails |
| GateHistory.MergedCellsWereMeasured | benchmark/capabilities/gate.py:142-156 | a merge holds exactly the cells some repeat measured |
| GateHistory.RepeatMeetsItsFloor | benchmark/capabilities/gate.py:360-368 | every accuracy of a recorded repeat is at or above the floor its own recording wrote |
| GateHistory.APassingRunIsNeverRefused | benchmark/capabilities/gate.py:264-267 | a run that passes a reachable gate can always be recorded into it |
| Gate.CheckCell | benchmark/capabilities/gate.py:351-376 | one cell: fails, asks for a rerun, or neither |
| Gate.CheckCells | benchmark/capabilities/gate.py:346-381 | the loop and the pending rule: reruns are asked for only when nothing failed outright |
| Gate.Check | benchmark/capabilities/gate.py:295-381 | every refusal in the source's order, then the cells |
| GateHistory.WithARerunCellsPassExactlyWhenHeld | benchmark/capabilities/gate.py:345-381 | with a rerun the cells pass if and only if every baseline cell is measured (or the set is a subset), each quiet cell meets its floor and each noisy one does in the run or the rerun; no further rerun is asked for |
| GateHistory.OneRerunDecides | benchmark/capabilities/gate.py:372-381 | a rerun never changes a pass and never rescues a failure; where one was asked for, the pair passes exactly when the rerun meets every floor it was asked about |
| GateHistory.RaisingAccuracyKeepsAPass | benchmark/capabilities/gate.py:359-376 | raising any accuracy of the run or the rerun never turns a pass into anything else |
| GateHistory.HeldExactlyWhen | benchmark/capabilities/gate.py:353-376 | when a cell holds, on the recorded threshold, the last measurement and the noise range: measured or in a subset set, and at or above the threshold, less the range where the threshold is above what was last measured, in the run or, where repeats disagreed, in its rerun |
| GateHistory.CellsPassExactlyWhenHeld | benchmark/capabilities/gate.py:351-381 | the cells pass, with a rerun or without, if and only if every one of them holds |
| GateMeaning.AFreshThresholdAllowsNoNoise | benchmark/capabilities/gate.py:360-366 | a threshold that is what was last measured clears a run exactly at or above it |
| GateMeaning.ACarriedThresholdAllowsTheNoise | benchmark/capabilities/gate.py:360-366 | one above what was last measured clears a run exactly at or above the threshold less the recorded range |
| GateMeaning.ARerunMustReachTheSame | benchmark/capabilities/gate.py:370-376 | a rerun clears a cell if and only if the run itself does, or the repeats disagreed and a run with the rerun's accuracy would |
| GateMeaning.UnknownCellsClear | benchmark/capabilities/gate.py:351-358 | a cell left out clears only in a subset set, one unknown on either side always |
| GateMeaning.PassesExactlyWhen | benchmark/capabilities/gate.py:305-381 | a run passes if and only if it may be held to its baseline, its rerun is one of it, and every cell of the baseline clears |
| GateMeaning.AsksForARerunExactlyWhen | benchmark/capabilities/gate.py:377-381 | a rerun is asked for if and only if none was given, something does not clear, and all of that was measured and is noisy |
| GateMeaning.TheFirstReasonCounts | benchmark/capabilities/gate.py:305-350 | of the refusals the first that applies is given, and only a comparable run is judged |
| GateMeaning.AFirstRecordingHoldsLaterRuns | benchmark/capabilities/gate.py:216-367 | recording and checking together: a run that passes a first recording without a rerun reached, in every cell all of whose repeats were known, the least that they listed |
| GateMeaning.RecordedExactlyWhen | benchmark/capabilities/gate.py:223-273 | a recording is accepted if and only if there are runs, they are evidence on one dataset and agree wherever they share a baseline, and no cell falls below its carried threshold by more than the old and the new noise span together |
| GateMeaning.EvidenceComesFirst | benchmark/capabilities/gate.py:225-234 | runs that measured nothing, or failed, are refused before runs of different datasets |
| GateMeaning.TheFirstToDifferDecides | benchmark/capabilities/gate.py:134-243 | of evidence on one dataset the first run that does not belong decides whether it is gated elsewhere, of another selection, or of other identities |
| GateMeaning.RegressionsAreNamed | benchmark/capabilities/gate.py:264-273 | runs that belong together are refused only for regressions, and exactly the regressing cells are named |
| GateMeaning.RecordedFileNames | benchmark/capabilities/gate.py:276-280 | the file names the dataset and the files of the first run |
| GateMeaning.RecordedBaselineSays | benchmark/capabilities/gate.py:259-269 | a recorded baseline holds what its mode's runs measured, and on which selection and identities |
| GateMeaning.RecordedNoiseSpans | benchmark/capabilities/gate.py:255-258 | its noise range is the smallest around the repeats' and, for the same questions and users, the recorded one |
| GateMeaning.AMergedCellIsARepeats | benchmark/capabilities/gate.py:142-156 | a merged cell is some repeat's own, with its own number of questions |
| GateMeaning.CarriesExactlyWhen | benchmark/capabilities/gate.py:181-197 | a threshold is carried if and only if the dataset is the same, or both list files, every shared file is unchanged and so is the capability's (last listed) own |
| GateMeaning.SameKeyExactlyWhen | benchmark/capabilities/gate.py:68-72 | runs of a mode share a baseline exactly when they are of the same named sample |
| GateMeaning.TheLastListingCounts | benchmark/capabilities/gate.py:58-65 | of several listings of a cell the last one counts |
| SourceLineage.WithinIsChainLength | benchmark/native_source_retrieval.py:86-100 | the breadth-first layers are the citation distances: a memory is within n layers if and only if a chain of at most n memories leads to it |
| SourceLineage.Lineage.LoadLayer | benchmark/native_source_retrieval.py:88-100 | a round loads exactly the pending memories, missing ones as leaves, and the frontier becomes what they cite |
| SourceLineage.Lineage.Load | benchmark/native_source_retrieval.py:87-100 | the rounds exceed the node budget exactly when the memories within that many citations do, and otherwise load exactly those |
| SourceLineage.Lineage.Sources | benchmark/native_source_retrieval.py:105-118 | the worklist ends on cyclic graphs too and returns exactly the turns reachable in the loaded graph |
| SourceLineage.LoadedReachesTheSame | benchmark/native_source_retrieval.py:103-118 | once every memory a group leads to is loaded, reachability in the loaded part is reachability in the whole store |
| SourceLineage.RootsAreCited | benchmark/native_source_retrieval.py:86 | the roots are the memories that some group cites |
| SourceLineage.NextLayerExactlyWhen | benchmark/native_source_retrieval.py:87-100 | on the records themselves: the next layer holds the roots and every memory that any reference of a record of this layer names, and no others |
| SourceLineage.ReachedExactlyWhen | benchmark/native_source_retrieval.py:105-118 | on the records themselves: a reference is reached if and only if it is the group's own or any of those in the record of a reached memory |
| SourceLineage.ReachedIsLeast | benchmark/native_source_retrieval.py:105-118 | ... and whatever is closed under these two rules holds everything reached |
| SourceLineage.CreditedExactlyWhen | benchmark/native_source_retrieval.py:112-117 | a turn is credited if and only if some reached reference that is no memory is mapped to it |
| SourceLineage.Lineage.ResolveWithin | benchmark/native_source_retrieval.py:84-103 | the closure for any number of rounds |
| SourceLineage.Lineage.Resolve | benchmark/native_source_retrieval.py:84-103 | refuses exactly when more than 4096 memories lie within sixteen citations, or else some memory lies further; otherwise each group's result is the sorted listing of exactly the turns reachable in the whole store |
| SourceLineage.DepthRefusalMeansALongChain | benchmark/native_source_retrieval.py:101-102 | the depth refusal means some memory is reached by a chain of seventeen and by none of sixteen |
| SourceLineage.Coverage | benchmark/native_source_retrieval.py:121-130 | recall and completeness at each of the four depths, and nothing without gold turns |
| SourceLineage.CoverageCounts | benchmark/native_source_retrieval.py:121-130 | recall is the share of the expected turns that one of the first candidates names, and complete means all of them |
| SourceLineage.DeeperCoversMore | benchmark/native_source_retrieval.py:126-129 | recall and completeness never fall with depth |
| SourceLineage.LineageCoversAtLeastDirectEvidence | benchmark/native_source_retrieval.py:64-130 | crediting the lineage is at least crediting direct evidence, at every depth |
| EditDistance.NextCellIsTheDistance | benchmark/multilingual_ocr.py:46-52 | the three-way minimum is the distance of the two prefixes |
| EditDistance.NextRow | benchmark/multilingual_ocr.py:44-52 | the inner loop turns one row of the table into the next |
| EditDistance.CharacterErrors | benchmark/multilingual_ocr.py:35-57 | refused exactly over 12000 characters; otherwise the distance of the two texts and its rate over the expected length, swapped or not |
| EditDistance.NoScriptIsCheaper | benchmark/multilingual_ocr.py:35-55 | no alignment script that turns one text into the other costs less than the distance |
| EditDistance.SomeScriptIsAsCheap | benchmark/multilingual_ocr.py:35-55 | some script costs exactly that |
| EditDistance.NoEditingIsShorter | benchmark/multilingual_ocr.py:35-55 | no sequence of single-character edits, placed and ordered in any way, is shorter |
| EditDistance.SomeEditingIsAsShort | benchmark/multilingual_ocr.py:35-55 | some such sequence is exactly as short |
| EditDistance.TheScoreIsTheLeastNumberOfEdits | benchmark/multilingual_ocr.py:35-57 | the reported edits are the least number, over both kinds of editing: none only for equal texts, and at most the longer text's length |
| EditDistance.DistanceIsSymmetric | benchmark/multilingual_ocr.py:40-41 | the argument swap is sound |
| EditDistance.DistanceBounds | benchmark/multilingual_ocr.py:53-55 | between the length difference and the longer length |
| EditDistance.DistanceIsZeroOnlyOnEqualTexts | benchmark/multilingual_ocr.py:53-55 | zero if and only if the texts are equal |
| EditDistance.TriangleInequality | benchmark/multilingual_ocr.py:53-55 | the score is a metric |
| LiteralSearch.Find | benchmark/capabilities/scoring.py:94 | `str.find`: the first occurrence from a start, if there is one |
| LiteralSearch.LiteralIn | benchmark/capabilities/scoring.py:86-102 | true if and only if the literal is not empty and some occurrence, overlapping ones included, has no digit touching a digit end; the search ends |
| LiteralSearch.OnlyDigitEndsLookAround | benchmark/capabilities/scoring.py:97-99 | an occurrence stands exactly when each end of the literal that is a digit has no digit beside it |
| LiteralSearch.ANumberMatchesOnlyAWholeNumber | benchmark/capabilities/scoring.py:88-90 | an all-digit literal is found if and only if some maximal digit run of the text equals it |
| LiteralSearch.ANumberIsNotInALongerOne | benchmark/capabilities/scoring.py:88-89 | a number never stands inside a longer one |
| LiteralSearch.AWordMatchesAnywhere | benchmark/capabilities/scoring.py:89-90 | a literal without digit ends is plain substring matching |
| LiteralSearch.PreservedNumbersAreFound | benchmark/multilingual_ocr.py:58-59 | the OCR score's number check asks exactly what the anchor search asks of every number |
| Sorting.SortIsStable | benchmark/fit_rrf_weights.py:100-107 | rows, or scenarios, that tie in the sort key keep their order |
| RankFusion.AddArm | benchmark/fit_rrf_weights.py:39-41 | one arm adds its gains to the dict, new ids included |
| RankFusion.Fuse | benchmark/fit_rrf_weights.py:36-42 | every id of any arm once, by summed weight over k plus rank, then by id |
| RankFusion.FusedInOrder | benchmark/fit_rrf_weights.py:42 | a fused order has the higher score first and, of equal scores, the lesser id |
| RankFusion.FusedExactlyOnce | benchmark/fit_rrf_weights.py:36-42 | exactly the ids some arm ranks are fused, each once |
| RankFusion.ScoreAddsUp | benchmark/fit_rrf_weights.py:38-41 | an id's score adds up over the arms and its ranks: an unnamed arm weighs 1.0, and a rank adds the weight over k + rank + 1 |
| RankFusion.FusionIsUnique | benchmark/fit_rrf_weights.py:42 | that determines the order, whatever order the dict was filled in |
| RankFusion.AheadInEveryArmIsFusedAhead | benchmark/fit_rrf_weights.py:36-42 | with positive weights and duplicate-free arms, an id ahead of another in every arm that lists the other is fused ahead of it |
| RankFusion.ScalingChangesNothing | benchmark/fit_rrf_weights.py:39-42 | scaling what every arm weighs by one positive constant leaves the fusion as it is |
| RankFusion.ScalingNamedWeights | benchmark/fit_rrf_weights.py:39-42 | so scaling the weights dict does, when it names every arm |
| FusionScaling.UnmixedFusesAlike | benchmark/fit_rrf_weights.py:39-42 | scaling leaves a fusion as it is when the constant is one or no named arm that weighs anything stands beside an unnamed one |
| FusionScaling.AnUnnamedArmIsNotScaled | benchmark/fit_rrf_weights.py:39-42 | otherwise, for any such weights, constant and k, there are rankings under these arm names whose fused order changes |
| FusionScaling.ScalingIsNeutralExactlyWhen | benchmark/fit_rrf_weights.py:36-42 | so that condition is exact, for weights of any sign |
| FusionScaling.PositiveWeightsScaleExactlyWhen | benchmark/fit_rrf_weights.py:36-42 | for positive weights: the constant is one, every arm is named, or none is |
| RankFusion.FuseDense | benchmark/multilingual_dense.py:35-40 | the second implementation is the first ten of the two-arm fusion at weight one |
| RankFusion.BothFusionsAgree | benchmark/multilingual_dense.py:35-40 | at any equal positive weights the general fusion starts with the same ten |
| WeightFit.Coverage | benchmark/fit_rrf_weights.py:45-53 | recall and completeness over the carriers of the first `depth` |
| WeightFit.CoverageCounts | benchmark/fit_rrf_weights.py:45-53 | recall is the share of the gold turns that an id above the depth carries, none of no gold; complete means all of them |
| WeightFit.DeeperFindsMore | benchmark/fit_rrf_weights.py:45-53 | neither falls with depth |
| WeightFit.AddQuestion | benchmark/fit_rrf_weights.py:70-74 | one fused order is cut at every depth |
| WeightFit.ScoreWeighting | benchmark/fit_rrf_weights.py:56-79 | one fusion a question, read at three prefixes, scores what fusing afresh for each depth would |
| WeightFit.ScoresAreMeans | benchmark/fit_rrf_weights.py:69-79 | the numbers at a depth: complete is the rounded share of the questions all of whose gold is found there, recall the rounded mean of the questions' recalls |
| WeightFit.EveryDepthIsScored | benchmark/fit_rrf_weights.py:69-79 | every weighting is scored at 50, 100 and 200 |
| WeightFit.CompleteNeverExceedsRecall | benchmark/fit_rrf_weights.py:69-79 | where every question has gold, complete is at most recall at every depth |
| WeightFit.DeeperScoresMore | benchmark/fit_rrf_weights.py:59-79 | the rounded means never fall with depth |
| WeightFit.RoundingIsMonotone | benchmark/fit_rrf_weights.py:77 | rounding to four digits, ties to even, keeps order |
| WeightFit.RoundedIsNearest | benchmark/fit_rrf_weights.py:77 | rounding takes the nearest ten-thousandth, and of two as near the even one |
| WeightFit.ProductIsTheGrid | benchmark/fit_rrf_weights.py:96 | the product lists exactly the tuples of grid weights |
| WeightFit.ExtendedInOrder | benchmark/fit_rrf_weights.py:96 | the last weight varies fastest |
| WeightFit.ZipInPlace | benchmark/fit_rrf_weights.py:97 | each arm gets the weight in its place |
| WeightFit.NamesExactlyWhen | benchmark/fit_rrf_weights.py:92 | the arms fitted are those some question has |
| WeightFit.ScoreGrid | benchmark/fit_rrf_weights.py:94-98 | the rows are the grid points, scored, in the order of the loops |
| WeightFit.TheScoredGridIsWhole | benchmark/fit_rrf_weights.py:95-98 | every row is a scored grid point, and every grid point has one |
| WeightFit.PointsInOrder | benchmark/fit_rrf_weights.py:95-98 | all combinations are scored for one constant before the next |
| WeightFit.IsRowExactlyWhen | benchmark/fit_rrf_weights.py:95-98 | a row is one of the two constants, a grid weight for each arm, and their score |
| WeightFit.TheScoredGridIsUnique | benchmark/fit_rrf_weights.py:94-98 | that determines the rows |
| WeightFit.RankRows | benchmark/fit_rrf_weights.py:100-108 | no row is better than the first |
| WeightFit.FitWeights | benchmark/fit_rrf_weights.py:91-123 | the best row and the ten shown are the first of the stably sorted grid, the best is its optimum, the equal-weights row always exists, and the gain is their difference |
| WeightFit.TheWinnerComesFirst | benchmark/fit_rrf_weights.py:100-108 | against any other row the winner is more complete, or as complete and more recalled, or then of a lesser constant, or then no further from equal weights |
| WeightFit.DeviationAddsUp | benchmark/fit_rrf_weights.py:105 | that distance adds up each weight's own from 1.0 |
| WeightFit.BestOfTheGrid | benchmark/fit_rrf_weights.py:100-108 | best of the listed rows is best of every possible grid row |
| WeightFit.TheWinnerNeverLosesToEqualWeights | benchmark/fit_rrf_weights.py:108-121 | the completeness gain is never negative, and where it is zero neither is the recall gain |
| SparseIndex.AppendDocument | benchmark/multilingual_sparse.py:42-44 | a document's entries go to the end of their terms' postings |
| SparseIndex.SparseCorpus.constructor | benchmark/multilingual_sparse.py:39-48 | the postings are each term's entries in document order, with the IDF of its list |
| SparseIndex.PostingsScanTheDocument | benchmark/multilingual_sparse.py:41-55 | a term's postings summed for a document are the document scanned for the term |
| SparseIndex.PostingsCountEntries | benchmark/multilingual_sparse.py:42-44 | a term has one posting for each of its entries in the documents |
| SparseIndex.IdfInClosedForm | benchmark/multilingual_sparse.py:45-48 | a term's weight is the logarithm of (n + 1) / (postings + 1/2) |
| SparseIndex.ARarerTermWeighsMore | benchmark/multilingual_sparse.py:45-48 | under an increasing logarithm a rarer term weighs more |
| SparseIndex.IndexScoresAreScans | benchmark/multilingual_sparse.py:50-55 | a query's score along the postings is the brute-force dot product, and the documents reached are exactly those sharing a term |
| SparseIndex.ScanAddsUp | benchmark/multilingual_sparse.py:54-55 | the brute-force score adds up over the query's and the document's entries, pair by pair of one term |
| SparseIndex.SparseCorpus.WeightingInClosedForm | benchmark/multilingual_sparse.py:45-55 | a pair adds both weights times the logarithm of the term's rarity |
| SparseIndex.MatchedExactlyWhen | benchmark/multilingual_sparse.py:54-55 | a document is matched if and only if it shares a term with the query |
| SparseIndex.AddRows | benchmark/multilingual_sparse.py:54-55 | the inner loop over one term's postings |
| SparseIndex.SparseCorpus.ScoreQuery | benchmark/multilingual_sparse.py:52-55 | the dict holds every reached document with its summed score |
| SparseIndex.SparseCorpus.Retrieve | benchmark/multilingual_sparse.py:50-56 | the first k, by score and lower index, of exactly the documents sharing a query term, each scored as by a full scan |
| SparseIndex.RetrievedInOrder | benchmark/multilingual_sparse.py:56 | what is retrieved has the higher scan score first and, of equal scores, the lower index |
| OracleOrder.OracleIsAStablePermutation | benchmark/rerank_offline.py:136-144 | a permutation of the pool that keeps the order within carriers and within the rest |
| OracleOrder.CarriersComeFirst | benchmark/rerank_offline.py:142-144 | every id that carries something comes before every id that does not |
| OracleOrder.CoverageIsOfTheHits | benchmark/rerank_offline.py:75-88 | recall is the share of the gold that an id above the depth carries; complete means that there is gold and all of it is carried |
| OracleOrder.OracleCoversAtLeastItsStart | benchmark/rerank_offline.py:75-87 | it covers at least what its start covers at every depth |
| OracleOrder.CoveringMoreScoresMore | benchmark/rerank_offline.py:82-86 | covering more never lowers the reported recall or completeness |
| OracleOrder.OracleIsTheCeiling | benchmark/rerank_offline.py:136-144 | with room for every carrier of the pool, or one gold turn, no permutation of the pool covers anything more, whatever ids outside it carry |
| OracleOrder.TheCeilingCanBeBeaten | benchmark/rerank_offline.py:136-144 | otherwise, for every pool and carriers, an assignment of gold turns and a permutation that covers strictly more |
| OracleOrder.TheCeilingHoldsExactlyWhen | benchmark/rerank_offline.py:136-144 | so it is the ceiling if and only if the depth is zero, the carriers of the pool fit in it, or there is at most one gold turn |
| StrideSample.GroupRows | benchmark/rerank_offline.py:125-127 | the dict of rows by category, in order of first appearance |
| StrideSample.Sample | benchmark/rerank_offline.py:111-133 | all rows, or each category's strided share, in the source's branches |
| StrideSample.EverythingIsTaken | benchmark/rerank_offline.py:121-124 | a sample of none, or of no fewer than the rows, is all of the rows, or of the category |
| StrideSample.FirstSeenFirst | benchmark/rerank_offline.py:125-129 | categories are taken in the order of their first rows |
| StrideSample.PicksFollow | benchmark/rerank_offline.py:128-133 | each category adds its pick after those before it |
| StrideSample.ShareIsRounded | benchmark/rerank_offline.py:130 | a share is the rounded proportion, or one |
| StrideSample.EveryShareIsFilled | benchmark/rerank_offline.py:130-132 | the stride never runs out: a category gives exactly its share, evenly spaced |
| StrideSample.PicksAreEvenlySpaced | benchmark/rerank_offline.py:131-132 | the picks stand as many rows apart as whole times the share goes into the category |
| StrideSample.ShareIsNear | benchmark/rerank_offline.py:130 | a share is between one row and the category, and less than one row off the exact proportion |
| StrideSample.CategoriesSplitTheRows | benchmark/rerank_offline.py:125-127 | the groups partition the rows |
| StrideSample.TheSampleIsProportional | benchmark/rerank_offline.py:114-132 | the sample's size is off the requested one by less than the number of categories, and every category is in it |
| Ndcg.HitsFirstIsIdeal | benchmark/external_retrieval.py:54-61 | for any falling discount, gains are at most those of the same hits put first, with equality if and only if they are first |
| Ndcg.HitsAreRelevantDocuments | benchmark/external_retrieval.py:59 | without duplicates each relevant document is hit once |
| Ndcg.DcgAddsUp | benchmark/external_retrieval.py:54-55 | a hit adds the discount of its rank, a miss nothing |
| Ndcg.OneRelevantDocument | benchmark/external_retrieval.py:58-62 | with one relevant document the score is its rank's discount over the first one's, and with none or out of reach it is zero |
| Ndcg.NdcgIsOneExactlyOnIdealRankings | benchmark/external_retrieval.py:58-62 | without a repeat among the first k documents, nDCG lies in [0, 1] and is 1 if and only if the first min(relevant, k) documents are there and all relevant |
| Ndcg.ADuplicateScoresAboveOne | benchmark/external_retrieval.py:58-62 | any ranking whose first k documents repeat one scores above 1 where those documents are the relevant ones |
| Ndcg.NdcgIsAFractionExactlyWithoutRepeats | benchmark/external_retrieval.py:58-62 | nDCG lies in [0, 1] for every relevant set if and only if the first k documents repeat none |
| Ndcg.RankDocuments | benchmark/external_retrieval.py:197-203 | the loop lists each mapped document once, in order of first appearance, and counts the others |
| Ndcg.MappedOneByOne | benchmark/external_retrieval.py:198-201 | a candidate counts for the document its payload is mapped to, if that has an id |
| FixedArrivals.Driver.constructor | benchmark/cpu_capacity.py:45-47 | a valid workload starts with nothing offered, no rows and no tasks |
| FixedArrivals.Driver.Offer | benchmark/cpu_capacity.py:73-83 | one arrival: an overload row when the pending set is full, else a new task; the driver stays where its run has brought it |
| FixedArrivals.Driver.RunTask | benchmark/cpu_capacity.py:50-58 | a task's first step: past its deadline it times out unrun |
| FixedArrivals.Driver.CompleteTask | benchmark/cpu_capacity.py:57-70 | how an operation ends as a row |
| FixedArrivals.Driver.Discard | benchmark/cpu_capacity.py:83 | the done-callback leaves the pending set |
| FixedArrivals.EveryInterleavingHolds | benchmark/cpu_capacity.py:45-90 | after any interleaving each offered index is exactly one waiting task, operating task or row; pending tasks are bounded; an ok row is within its deadline |
| FixedArrivals.WorkStaysBounded | benchmark/cpu_capacity.py:35 | at most max_pending tasks are live, and a request is turned away exactly when that many are pending |
| FixedArrivals.StatusExactlyWhen | benchmark/cpu_capacity.py:49-70 | over every run: a row is ok if and only if its operation returned within the deadline of its scheduled arrival, error if and only if it raised, overload if and only if it never began, and timeout in every other case |
| FixedArrivals.ATaskIsCalledExactlyWhen | benchmark/cpu_capacity.py:54-58 | a task calls its operation if and only if it begins before its deadline is past |
| FixedArrivals.EveryInterleavingEnds | benchmark/cpu_capacity.py:72-90 | no interleaving has more than four events a request |
| FixedArrivals.NothingGetsStuck | benchmark/cpu_capacity.py:72-90 | until the run is finished some event can happen |
| FixedArrivals.SortedRowsAreInPlace | benchmark/cpu_capacity.py:107 | sorting one row per index puts row i at place i |
| FixedArrivals.TheReportAccountsForEveryRequest | benchmark/cpu_capacity.py:91-108 | the report has exactly one row per request, in order, and ok rows are within the deadline |
| FixedArrivals.ThroughputNeverExceedsTheOfferedRate | benchmark/cpu_capacity.py:94-100 | over every run, successful throughput is at most the offered rate and the failure ratio is a fraction |
| FixedArrivals.TheReportCountsTimelyReturns | benchmark/cpu_capacity.py:91-100 | a finished run reports as many successes as requests whose operation returned in time, over the longer of the offered and the actual time, and the rest as its failure ratio |
| FixedArrivals.TimelyRunsSucceed | benchmark/cpu_capacity.py:91-100 | a run that turned nothing away and in which everything was timely reports every request successful and no failures |
| FixedArrivals.Driver.MakeReport | benchmark/cpu_capacity.py:91-108 | a driver whose tasks are done, by whatever turns, reports one row per request in order and no more throughput than was offered |
| Pacer.RunPacer.constructor | benchmark/locomo.py:690-693 | a positive rate gives its interval, anything else none |
| Pacer.RunPacer.AwaitSlot | benchmark/locomo.py:695-701 | one wait; the pacer stays where its run has brought it |
| Pacer.RunPacer.BackOff | benchmark/locomo.py:703-723 | one rate limit: double, stop below the floor, else wait out the window |
| Pacer.EveryRunIsPaced | benchmark/locomo.py:690-723 | in every run each slot comes at least the earlier interval after the one before |
| Pacer.GrantedAsSoonAsAllowed | benchmark/locomo.py:695-723 | in every run a call is granted at once, or one interval after the last, or a minute and the doubled interval after a rate limit, and no later |
| Pacer.UnpacedIsGrantedAtOnce | benchmark/locomo.py:695-697 | without pacing every call is granted when it comes |
| Pacer.SuccessiveSlotsSpanTheirIntervals | benchmark/locomo.py:675-681 | any m+1 successive slots of any run span at least m times the smallest interval in force among them, across slow-downs |
| Pacer.SlowDownsAreLogarithmic | benchmark/locomo.py:683-716 | after n rate limits the interval is 2^n sixty-seconds over the starting rate; the run goes on exactly while 3 * 2^n is within that rate |
| Pacer.RateLimitDividesByZeroExactlyWhenUnpaced | benchmark/locomo.py:691-715 | after any run, a rate limit divides by zero if and only if the run is unpaced |
| CorpusLedger.TurnTexts | benchmark/corpus.py:41-58 | the turn map recovered from the dataset, duplicate turn ids included |
| CorpusLedger.APlainTurnsBody | benchmark/corpus.py:50 | a turn without an image is submitted as its text, or its cleaned text, or nothing |
| CorpusLedger.ASharedImagesBody | benchmark/corpus.py:51-55 | one with an image has the caption after that, and what was searched for if anything |
| CorpusLedger.StripTrims | benchmark/corpus.py:51-55 | stripping takes off all whitespace at both ends and nothing else |
| CorpusLedger.MappedExactlyWhen | benchmark/corpus.py:47-57 | an id is mapped if and only if some turn with that id says something |
| CorpusLedger.TheLastTurnCounts | benchmark/corpus.py:57 | ... and is mapped to what the last such turn says |
| CorpusLedger.SessionsAreInOrder | benchmark/locomo.py:104-109 | sessions are read in the order of their numbers, each as often as it occurs |
| CorpusLedger.IngestConversation | benchmark/locomo.py:150-210 | ingestion computes the same turn map, and a source map whose values are exactly its keys |
| CorpusLedger.TheLedgerDatesFromTheLastBeginning | benchmark/corpus.py:95-122 | over every history, a conversation's record is the last one written since the last begin, and the key differs from that begin's at most in the ingestion digest |
| CorpusLedger.AdoptionKeepsVouching | benchmark/corpus.py:102-113 | adopting changes no record and leaves every record true |
| CorpusLedger.AdoptedExactlyWhen | benchmark/corpus.py:102-113 | a corpus is taken over exactly when dataset and index are the same, and nothing but the key changes |
| CorpusLedger.Ledger.constructor | benchmark/corpus.py:87-93 | a database without a ledger file holds nothing |
| CorpusLedger.Ledger.TakeOver | benchmark/corpus.py:102-113 | adopts or refuses, and returns the held key |
| CorpusLedger.Ledger.Start | benchmark/corpus.py:115-118 | a fresh corpus under the key |
| CorpusLedger.Ledger.Write | benchmark/corpus.py:120-122 | one conversation's record |
| CorpusLedger.Ledger.EnsureConversation | benchmark/corpus.py:142-176 | reused or not, the turns are the conversation's and the source map names exactly them; it reuses exactly when the ledger vouches and the store holds, and then changes nothing and returns the source map that the last ingestion since the last begin recorded; the ledger goes on vouching |
| Calendar.DaysBeforeYearInClosedForm | benchmark/capabilities/generate.py:80-93 | the day count the model's dates rest on is the Gregorian closed form |
| Calendar.MonthsInClosedForm | benchmark/capabilities/generate.py:80-93 | ... and so are the days before a month |
| Calendar.WeekdaysFollow | benchmark/capabilities/generate.py:83-84 | weekdays follow each other |
| Calendar.TheYear2000BeganOnASaturday | benchmark/capabilities/generate.py:83-84 | ... from a Saturday |
| Calendar.OrdinalsOrderDates | benchmark/capabilities/generate.py:170 | comparing dates is comparing day counts |
| Calendar.NextMonthIsTheFollowingMonth | benchmark/capabilities/generate.py:93 | the 28th plus four days, first of the month, is the following month's first day, from any date |
| Calendar.NextOfAStart | benchmark/capabilities/generate.py:88-93 | the next period of a period start is a later period start |
| Calendar.PeriodsHoldTheirOwnDays | benchmark/capabilities/generate.py:80-93 | a day lies in a period if and only if it starts in it, for days, weeks and months |
| Calendar.VisitPeriods | benchmark/capabilities/generate.py:161-196 | the loop ends, and its periods follow each other from the first start up to today; it fails exactly when the first day is no date: a leap day without its counterpart, or a year below 1 or above 9999 |
| Calendar.TheFirstDayExistsExactlyWhen | benchmark/capabilities/generate.py:161 | that day is the same one of its month, and exists if and only if the year is one there is and has a leap day where one is needed |
| Calendar.VisitedPeriodsTileTheTimeline | benchmark/capabilities/generate.py:169-196 | every day from the first period up to yesterday lies in exactly one visited period |
| Calendar.RecordsAreFiledInTheirPeriod | benchmark/capabilities/generate.py:188-190 | each record is filed exactly six hours before its period or yesterday ends, whichever is first; that is inside its own period and before today |
| Calendar.SessionsHoldTheirMonthsPeriods | benchmark/capabilities/generate.py:191-194 | a session holds exactly the records whose period starts in its calendar month |
| Calendar.MonthsBefore | benchmark/capabilities/generate.py:110-112 | the borrowing loop keeps the month index |
| Calendar.InPeriod | benchmark/capabilities/generate.py:106-120 | each branch, the quarter as its three months |
| Calendar.YearPartsAreMonths | benchmark/capabilities/generate.py:114-120 | a quarter is its three months, a year has four, and no year named is this one |
| Calendar.MonthsAgoIsMonthSubtractionExactlyWhen | benchmark/capabilities/generate.py:109-113 | months_ago is subtraction on a month index if and only if it does not pass this year's December |
| DatasetSplit.NextPlace | benchmark/capabilities/dataset.py:344-355 | in rank order, counting the queries up to a key's rank gives its last index, and a later key changes no earlier one |
| DatasetSplit.UpToPermutes | benchmark/capabilities/dataset.py:344-352 | that count does not depend on the order the queries were read in |
| DatasetSplit.Alternate | benchmark/capabilities/dataset.py:344-355 | each key's half is the parity of that count, whatever order the keys came in and however often one occurs |
| DatasetSplit.AssignSplits | benchmark/capabilities/dataset.py:334-369 | every query gets its half, a pinned one its pin, and nothing else changes |
| DatasetSplit.SplitExactlyAs | benchmark/capabilities/dataset.py:342-369 | query by query: a pinned one gets its pin, another dev exactly when an odd number of the listed queries rank up to it, and all else stays |
| DatasetSplit.ListedQueryByQuery | benchmark/capabilities/dataset.py:345-348 | the unpinned queries of a scenario are listed, each where it stands |
| DatasetSplit.ListedScenarioByScenario | benchmark/capabilities/dataset.py:345-348 | ... scenario by scenario |
| DatasetSplit.FileOrderDoesNotMatter | benchmark/capabilities/dataset.py:336-342 | with the same unpinned queries listed in any order, and any pinned ones besides, a query gets the same half |
| DatasetSplit.AReorderedFileListsTheSame | benchmark/capabilities/dataset.py:344-351 | a file whose scenarios stand in another order, and their queries too, lists the same unpinned queries |
| DatasetSplit.AReorderedFileIsSplitAlike | benchmark/capabilities/dataset.py:336-342 | so every query of a file reordered in any way gets the same half |
| DatasetSplit.TheHalvesDifferByAtMostOne | benchmark/capabilities/dataset.py:335-336 | for distinct keys, dev gets the larger half of the unpinned queries, held-out the smaller |
| DatasetSplit.AnInsertionKeepsExactlyTheLowerRanked | benchmark/capabilities/dataset.py:337-339 | a new query, put anywhere, leaves another in its half if and only if that one ranks below it |
| DatasetSplit.CapPerDomain | benchmark/capabilities/dataset.py:427-434 | counting kept scenarios keeps exactly those with fewer than the cap of their domain before them |
| DatasetSplit.CappedCount | benchmark/capabilities/dataset.py:427-434 | each domain keeps the smaller of its number and the cap |
| DatasetSplit.CappedExactlyWhen | benchmark/capabilities/dataset.py:427-434 | a scenario is kept if and only if it stands somewhere with fewer than the cap of its domain before it |
| DatasetSplit.Select | benchmark/capabilities/dataset.py:422-447 | one capability's selection, in the source's order of narrowing |
| DatasetSplit.SelectedExactly | benchmark/capabilities/dataset.py:431-452 | the scenario at a place of the ordered pool is selected if and only if fewer than each cap stand before it and some query of it is asked; the selection keeps the pool's order and only drops queries |
| DatasetSplit.PooledExactlyWhen | benchmark/capabilities/dataset.py:428-430 | the pool holds the scenarios of the named domains and ids, where any are named |
| DatasetSplit.PooledInOrder | benchmark/capabilities/dataset.py:419-431 | the documented scenarios come first, and within these and the others the lower rank |
| DatasetSplit.AskedQueryByQuery | benchmark/capabilities/dataset.py:443-449 | asked are the queries of the run's half that keep a phrasing |
| DatasetSplit.KeptPhrasingsAreFiltered | benchmark/capabilities/dataset.py:447 | kept are the phrasings of the named kinds, all where none is named |
| DatasetSplit.NoEarlierScenarioIsDropped | benchmark/capabilities/dataset.py:427-447 | with a cap per domain and none in all, no scenario ordered before a kept one of its domain is dropped, unless none of its queries is asked |
| DatasetSplit.SelectionDoesNotDependOnFileOrder | benchmark/capabilities/dataset.py:418-447 | reordering the scenarios of a file changes nothing in the selection |

## Left out

- Gate.Check: does not model the latency part (gate.py:382-396), which reads other fields and only adds failures; its failures are sets of cells, not the text and order of the messages.
- Gate.Record: does not model targets, sources, latency, provenance or the file write; which run of several is named in a refusal is not kept.
- Gate.Merge: does not model the choice of the quietest latency (gate.py:157-169).
- model_unreached is a flag of the run, and a cell key is its four parts: no part holds a slash.
- CorpusLedger.Ledger.EnsureConversation: does not model an ingestion that fails half way, the ledger's file, or the count query, whose answer is a parameter.
- SourceLineage.Coverage: the per-category means of `summarize` are left out as flat averages.
- EditDistance.CharacterErrors: takes the texts already reduced to scored characters; NFC, case folding and Unicode categories are not modelled.
- LiteralSearch.LiteralIn: digits are the ASCII ones normalisation leaves; a text with others, which `\d` and `isdigit` also accept, is not modelled.
- Regex anchors, and the verdicts of `score`, `_leaks` and `_parts`, which combine flat lists of anchor matches.
- RankFusion.Fuse: k is not negative, as every caller's is; sums are exact reals, so ties the rounding of floats would make or break are not modelled.
- WeightFit.FitWeights: the echoed arguments of the report are left out.
- SparseIndex.SparseCorpus.constructor: texts are already encoded to pairs, so a mismatch of the encoder's two lists cannot occur; `math.log` is any function.
- Ndcg.RankDocuments: the hit rate and the counters of `run` besides the unmapped one are left out; log2 appears only as a positive falling discount.
- FixedArrivals.Driver.CompleteTask: does not model the driver itself being cancelled (the `finally` block), process CPU time, `stats` or `cpu_projection`.
- Pacer.RunPacer.AwaitSlot: sleeps end exactly on time and callers wait one after another; concurrent callers, which can both read the same slot before it is updated, are not modelled.
- Calendar.VisitPeriods: does not model the overflow of a period that would end after the year 9999; record values, text and ISO week labels are left out, as are `aggregate`, `expand_repeat` and the sorting of a session's turns; times of day are hours.
- DatasetSplit.AssignSplits: one capability at a time; SHA-256 is a rank that tells the keys apart.
- DatasetSplit.TheHalvesDifferByAtMostOne: speaks of distinct keys, because queries that share a key share the last one's half, and the halves may then differ by more.
- DatasetSplit.Select: one capability at a time; a cap is not negative (a negative one would slice from the end).
- StrideSample.Sample: the proportion is rounded exactly, not as a float.
- `separation` and `rows_of` in rerank_offline.py, and `questions_of` in fit_rrf_weights.py: flat comprehensions.
- HTTP, PostgreSQL, Qdrant, Redis, subprocesses, model calls, argument parsing and report formatting.
