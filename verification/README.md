# Telemetry pipeline model

A Dafny model of the numerically and logically hard parts of a telemetry anomaly pipeline, with proofs of what they
promise. Floats are exact reals. `sqrt`, `log1p` and `sin` are parameters of which only range facts are used.

**Backbone fit** (`LinearAlgebra`, `GaussJordan`, `TolerancesQuiet`, `RidgeSolve`, `GramAccumulation`,
`RidgeOptimality`, `PivotMargin`, `ClampMargin`, `BackboneFit`, `TransferMatrix`, `LinearSystems`, `ToleranceError`,
`SpoiledFits`, `Reconstruction`). Windows are folded into Gram and cross-term matrices per flight, the flights are
added up, and `(G + ridge I) B = H` is solved by an in-place Gauss-Jordan elimination. Both tolerances are in the
model: a pivot of magnitude at most 1e-12 is overwritten, a factor of magnitude at most 1e-18 is skipped. The solution
of the ridge system is exact for every right-hand side if and only if no pivot is changed and only exact zeros are
skipped (`QuietIffExact`), and then it is the unique minimiser of the ridge objective. Whatever the tolerances do, the
elimination is linear in its right-hand sides (`SolutionFactors`), so that the whole error is known: the fitted
weights are what the solver returns for its own system, applied to the minimiser (`FitError`), which exists for every
positive ridge (`MinimiserExists`). At the default settings, a ridge of 1.0 and eight sensors
(libs/config/pipeline.py:489-497), the clamp never fires for any windows (`NoPivotIsClamped`, `DefaultsExcludeClamp`):
a pivot is at least the ridge over the root of the number of selected sensors (`PivotAtLeastRidge`), less what skipped
factors can have left (`UnclampedPivotMargin`). Only the skipped factors then remain to be looked at
(`FitWithoutRoom`, `LargeRidgeExactIff`). `SingleFitOptimalIff` and `FaintFitOptimalIff` are families of fits that
tell exactly where each tolerance begins to spoil them.

**Categorical events** (`CategoricalEvents`, `CategoricalRuns`, `EventCompany`, `ReportedSamples`, `Segmentation`,
`SegmentedRuns`, `SegmentationVisibility`, `WithoutEntries`, `SegmentOrder`, `SegmentCaps`). The per-key state
machine, what every run of it keeps, and its segment-by-segment execution with carried state. The carry of a key is
dropped at a segment id in which the key has no row. The documentation of the segment policy calls its overrides
semantics-preserving (libs/spark_sequence/plan.py:58). For cuts by row count that is proved for every table
(`RowCountTable`). For cuts by time span it is false: `SpanPolicyDuplicatesEntry` is a table in which a quiet key
reports an entry twice. Where segments ascend along a key and entry events are on, `SegmentationInvisibleIff` says
exactly when its events are unaffected, and `SegmentationUnseenIff` does where entries are off and no guard is
configured. A table may bring its own row numbers, with timestamps that go back, and then span segments go back too
(`SegmentsAscendIff`); rows are then processed in segment order, which is not the order they came in.
`ExtractionIsRowOrderIff` gives the exact condition for any rows in terms of the samples, and
`BackwardSegmentsReorder` is a key without a gap that fails it. The names of the two settings promise caps on a
segment; `CapsRowsIff` and `CapsSpanIff` say when they are.

**Localization and graphs** (`Sums`, `Sorting`, `Localization`, `ChannelLaws`, `LocalizationTargets`,
`RankingCriteria`, `LocalizationCut`, `ClusterAlignment`, `ClusterPurity`, `TopK`, `DependencyClosure`). Bounds on
distributed support, which evidence it follows, consistency of two separate rankings, plurality mapping, top-k pruning
and a breadth-first closure. Group-by, join and row numbers are sums, filters and sorted sequences.

**Behavior streams** (`StepInputs`, `Generators`, `GeneratorRates`, `RegulatedBand`, `RegulatedTicks`,
`DwellViolator`, `InertialViolator`, `RunExtraction`, `Autocorrelation`, `Scores`, `EvidenceLaws`). Stateful
generators and violators and the evidence computed from a series. Which samples a violator perturbs is an arbitrary
sequence of booleans. Streams of one step chained behind the one-tick adapter give one stream for three of the four
generators (`ChainTicks`). For the regulated one they do not: a tick never trims, and `TicksAgreeIff` says exactly
when that makes no difference. Two things in the code are easy to misread and are modelled as they are: the sign-flip
rate counts a rising first step as a flip, because the shifted series starts with a missing value that compares as not
rising (libs/behavior/primitives.py:440), and a violator that holds a missing state does not hold it
(libs/behavior/discrete_state.py:128).

## Model

| member | source | states |
|---|---|---|
| RidgeSolve.FindPivotRow | libs/backbone/fit.py:144-150 | the search settles on the first row of largest magnitude at or below the pivot |
| RidgeSolve.Pivot | libs/backbone/fit.py:143-166 | one pivot in place, swap, clamp, scaling, skipped and cleared rows, stores the specified next matrix |
| RidgeSolve.SolveBackboneWeights | libs/backbone/fit.py:125-168 | the in-place solver returns the right block of the eliminated system, the empty matrix for empty inputs, and reads a negative ridge as zero |
| GaussJordan.StepKernel | libs/backbone/fit.py:143-166 | a pivot that is not clamped keeps the solution set, in both directions, whatever factors are skipped |
| GaussJordan.RunReduces | libs/backbone/fit.py:143-166 | after k quiet pivots the first k columns are those of the identity |
| GaussJordan.QuietSolution | libs/backbone/fit.py:125-168 | with quiet tolerances a matrix solves the system if and only if it is the returned block, for every size |
| TolerancesQuiet.QuietIffExact | libs/backbone/fit.py:153-166 | the tolerances stay quiet if and only if the system is injective and every right-hand side is solved exactly |
| TolerancesQuiet.QuietIffRecovers | libs/backbone/fit.py:153-166 | the tolerances stay quiet if and only if solving the system for itself returns the identity |
| TolerancesQuiet.PivotIsNeverZero | libs/backbone/fit.py:143-156 | the pivot search on an injective system never ends on a zero |
| GramAccumulation.AccumulateFlight | libs/backbone/fit.py:86-97 | the accumulated matrices hold the sums of products over the flight's windows; windows without a vector are not counted |
| GramAccumulation.ComputeBackboneGhByFlight | libs/backbone/fit.py:61-107 | one row per flight in sorted order, each summarising exactly the windows of that flight |
| GramAccumulation.AggregateBackboneGh | libs/backbone/fit.py:110-122 | the aggregate is the entrywise sum of the flights' matrices and counts |
| GramAccumulation.GroupedMatrixSum | libs/backbone/fit.py:110-122 | adding up per-group matrices gives the matrices over all windows for every grouping and order |
| GramAccumulation.BackboneStatistics | libs/backbone/fit.py:61-122 | from windows to aggregated statistics the grouping into flights leaves no trace |
| GramAccumulation.OnePassGramAgrees | libs/backbone/tables.py:164-187 | the one-pass Gram entries equal the accumulated ones for all windows |
| GramAccumulation.OnePassCountAgreesIff | libs/backbone/tables.py:183 | the one-pass window count is at least the accumulated one, and equal if and only if every window has a vector |
| GramAccumulation.OnePassCrossAgrees | libs/backbone/tables.py:191-239 | with unique window keys the joined cross terms equal the accumulated ones |
| GramAccumulation.NoCrossRowIsZero | libs/backbone/tables.py:229-237 | a sensor that gets no cross-term row has only zero accumulated entries |
| RidgeOptimality.LossExpands | libs/backbone/fit.py:86-140 | the ridge loss around any weights is exactly a linear term in the normal-equation defect plus the curvature |
| RidgeOptimality.RidgeSystemInjective | libs/backbone/fit.py:133-134 | with a positive ridge the system annihilates only zero, because the Gram matrix is a sum of outer products |
| RidgeOptimality.NormalIsUniqueMinimiser | libs/backbone/fit.py:86-168 | a solution of the normal equations is strictly better than every other matrix of its shape |
| RidgeOptimality.MinimiserIffNormal | libs/backbone/fit.py:86-168 | minimising the ridge objective and solving the accumulated system are the same thing |
| PivotMargin.PivotAtLeastRidge | libs/backbone/fit.py:143-156 | every pivot of a quiet elimination, squared and times the number of sensors, is at least the squared ridge |
| PivotMargin.RidgeQuietIff | libs/backbone/fit.py:153-166 | for a ridge that clears the pivot floor the tolerances stay quiet if and only if only exact zeros are skipped |
| ClampMargin.LittleLeftRun | libs/backbone/fit.py:143-166 | without a clamp, what skipped factors leave below the pivots at most doubles from pivot to pivot |
| ClampMargin.UnclampedPivotMargin | libs/backbone/fit.py:143-156 | as long as no pivot was clamped, whatever was skipped, the next pivot is bounded below by the ridge, less what skipping can have left |
| ClampMargin.NoPivotIsClamped | libs/backbone/fit.py:153-156 | for a ridge that excludes it by size and number of sensors, no pivot is clamped for any windows, whatever factors are skipped |
| ClampMargin.DefaultsExcludeClamp | libs/config/pipeline.py:489-497 | a ridge of at least one does so for up to eight sensors, which are the defaults |
| BackboneFit.RidgeExactIffQuiet | libs/backbone/fit.py:125-168 | with a positive ridge, exactness for every right-hand side and quiet tolerances are equivalent |
| BackboneFit.RidgePivotIsNeverZero | libs/backbone/fit.py:143-156 | the pivot search on a ridge system never meets an all-zero column |
| BackboneFit.FittedWeightsAreOptimal | libs/backbone/fit.py:86-168 | where the tolerances stay quiet, accumulation and elimination together give the unique minimiser of the ridge objective |
| BackboneFit.LargeRidgeExactIff | libs/backbone/fit.py:153-166 | for a ridge that clears the floor, exactness for every right-hand side depends on the skipped factors alone |
| BackboneFit.LargeRidgeIsOptimal | libs/backbone/fit.py:86-168 | for such a ridge and exact skipped factors the fitted weights are the unique minimiser |
| BackboneFit.FitBackboneWeights | libs/backbone/fit.py:61-168 | the chain from windows to weights returns the fitted weights, and a minimiser when the tolerances are quiet |
| TransferMatrix.SolutionFactors | libs/backbone/fit.py:125-168 | whatever pivots are clamped and factors skipped: right-hand sides that are b times x are answered by the answer to b times x |
| TransferMatrix.SolutionIsLinear | libs/backbone/fit.py:125-168 | whatever the tolerances do, the returned block is the answer to the identity times the right-hand sides |
| TransferMatrix.ExactIffInverse | libs/backbone/fit.py:125-168 | every right-hand side is solved exactly if and only if the answer to the identity is a right inverse |
| LinearSystems.InjectiveIsSolvable | libs/backbone/fit.py:125-168 | a square system that annihilates only zero has a solution for all right-hand sides, found without the elimination |
| ToleranceError.FitIsTransfer | libs/backbone/fit.py:125-168 | for every ridge the fitted weights are the answer to the identity times the cross terms, and for a positive one optimal if and only if the system maps that product back to the cross terms |
| ToleranceError.RidgeQuietIffInverse | libs/backbone/fit.py:133-166 | for every positive ridge the tolerances stay quiet if and only if the answer to the identity is an inverse of the system |
| ToleranceError.MinimiserExists | libs/backbone/fit.py:125-140 | for every positive ridge the objective has exactly one minimiser |
| ToleranceError.FitError | libs/backbone/fit.py:125-168 | for every positive ridge, clamped or not: the fitted weights are the answer to the system itself applied to the minimiser, and optimal if and only if that leaves the minimiser as it is |
| ToleranceError.UnclampedRecovers | libs/backbone/fit.py:153-168 | without a clamp, the answer to the system itself is what the elimination makes of the system matrix |
| ToleranceError.UnclampedSolution | libs/backbone/fit.py:153-168 | without a clamp, whatever is skipped, the returned block is what the elimination leaves of the system matrix applied to any true solution |
| ToleranceError.SkippedFactorsError | libs/backbone/fit.py:158-168 | without a clamp the fitted weights are that residue applied to the minimiser, and optimal if and only if the residue leaves the minimiser as it is |
| ToleranceError.FitWithoutRoom | libs/backbone/fit.py:158-168 | where the ridge excludes clamps, as by default, this holds of every fit |
| SpoiledFits.SingleFitOptimalIff | libs/backbone/fit.py:153-156 | with one sensor, any reading and any positive ridge, the fitted weight is the minimiser if and only if the reading is zero or its square plus the ridge is at least 1e-12 |
| SpoiledFits.ClampSpoilsTinySystem | libs/backbone/fit.py:153-156 | so a reading of 1e-7 at a ridge of 1e-13 is spoiled |
| SpoiledFits.FaintFitOptimalIff | libs/backbone/fit.py:163-165 | at a ridge of one, beside a sensor that reads one, the fit is optimal if and only if the second sensor reads zero or more than 2e-18 in magnitude |
| SpoiledFits.SkippedFactorSpoilsFit | libs/backbone/fit.py:163-165 | so a second sensor that reads up to 1e-18, but not zero, spoils the fit |
| Reconstruction.ReconstructWindowVector | libs/backbone/fit.py:171-185 | exactly the listed sensors that have a column are reconstructed, each as the product of the selected readings with its column; the last of a repeated name wins |
| Reconstruction.ReconstructionErrorSquared | libs/backbone/fit.py:194-201 | the residual of every listed sensor and the sum of their squares |
| Reconstruction.ReconstructionError | libs/backbone/fit.py:188-202 | the error is the non-negative root of the sum of the squared residuals |
| Reconstruction.ErrorOfReconstruction | libs/backbone/fit.py:171-202 | the squared error of a reconstruction of a window is the sum of its squared residuals under the weights |
| Reconstruction.ReconstructAndScore | libs/backbone/artifacts.py:137-150 | reconstructing a window and scoring the result returns the root of exactly that sum, for distinct sensors |
| Reconstruction.ScoresAddUpToObjective | libs/backbone/fit.py:86-202 | the squared scores so returned for all windows, plus the ridge times the squared weights, are the fitted objective |
| Reconstruction.MinimiserScoresLeast | libs/backbone/fit.py:86-202 | no other weights give scores and a ridge term that add up to less than those of a minimiser |
| CategoricalEvents.RunConcat | libs/events/categorical.py:63-197 | a run over two pieces is the run over the second from where the first ended |
| CategoricalEvents.CutRun | libs/events/categorical.py:199-208 | a run cut anywhere and resumed from the carried state emits the same events and ends in the same state |
| CategoricalEvents.FlagsOnlyFilter | libs/events/categorical.py:115-197 | turning enter, exit and bucket emission off removes exactly those events and changes no state |
| CategoricalRuns.StateIsLookback | libs/events/categorical.py:187-197 | after any run the five fields are determined by looking back from the last sample; missing means no last state |
| CategoricalRuns.RunIsAudited | libs/events/categorical.py:77-197 | the events of every run with entries on are accepted one by one by an independent reader, which ends where the machine is |
| EventCompany.RunKeepsCompany | libs/events/categorical.py:115-167 | in every run a transition is directly preceded by its exit and its dwell bucket and directly followed by its dwell violation and its illegal transition exactly where the settings ask for them, with its own states and dwell, and none of these comes without its transition |
| EventCompany.ExtractionKeepsCompany | libs/events/categorical.py:296-375 | the same for the events extracted for a key, whatever segments its rows are in |
| CategoricalRuns.EntersAndDropsAlternate | libs/events/categorical.py:84-132 | between two entries there is a drop, and between two drops an entry |
| CategoricalRuns.TransitionsChain | libs/events/categorical.py:86-153 | a transition leaves the state last arrived at and reports the seconds since that arrival, the timestamps being milliseconds |
| CategoricalRuns.KthGuardWaits | libs/events/categorical.py:108-113 | the k-th dwell guard of one dwell comes at least k maximum dwells after its start |
| CategoricalRuns.DwellsAddUp | libs/events/categorical.py:133-153 | from an entry to a transition before the next drop, the reported dwells add up to the elapsed milliseconds over 1000 |
| Segmentation.Build | libs/events/categorical.py:296-375 | the segment loop over all keys gives each key the events of that key's own progress through the segment ids |
| SegmentedRuns.SegmentedIsResetRun | libs/events/categorical.py:327-360 | for every key whose segments ascend, the extracted events are those of one run that forgets its state at the gaps |
| SegmentOrder.AnyRowsAreResetRun | libs/events/categorical.py:327-360 | for every key and every assignment of segments, the extracted events are those of one run over the rows in segment order that forgets its state at the gaps |
| SegmentOrder.OrderPermutes | libs/spark_sequence/plan.py:240-245 | segment order loses and adds no row |
| SegmentOrder.OrderIsStable | libs/spark_sequence/plan.py:233-238 | segment order keeps the rows of each segment in their order |
| SegmentOrder.OrderedStays | libs/spark_sequence/plan.py:233-245 | rows whose segments ascend are in segment order already |
| SegmentationVisibility.HarmlessResetsInvisible | libs/events/categorical.py:77-197 | forgetting the state where the key was missing before and is present after changes nothing, whatever the flags |
| SegmentationVisibility.HarmfulRunRefused | libs/events/categorical.py:77-197 | with entries on, forgetting the state anywhere else gives events that the protocol refuses, so they are the events of no run at all |
| SegmentationVisibility.ResetsInvisibleIff | libs/events/categorical.py:77-197 | with entries on, forgetting is invisible if and only if every reset is of that kind |
| SegmentationVisibility.SegmentationInvisibleIff | libs/events/categorical.py:327-360 | for ascending segments and entries on, segmented extraction equals one run if and only if at every gap the key was missing before and is present after |
| WithoutEntries.ResetsUnseenIff | libs/events/categorical.py:77-197 | without entry events and guards, forgetting is invisible if and only if it happens neither before a missing sample nor on a change of state, and no dwell that a transition ends is shortened |
| WithoutEntries.SegmentationUnseenIff | libs/events/categorical.py:327-360 | the same condition on the gaps for segmented extraction of ascending segments |
| ReportedSamples.ReportedAreNotable | libs/events/categorical.py:77-197 | the machine reports exactly the samples that come first, change the state, or are due a guard by the times of the block and of its latest guard |
| ReportedSamples.NotablesSuffice | libs/events/categorical.py:77-197 | running over the notable samples alone gives the same events |
| ReportedSamples.SameEventsIff | libs/events/categorical.py:77-197 | with entries on, two sample sequences give the same events if and only if the same samples are notable in both |
| SegmentOrder.ExtractionIsRowOrderIff | libs/events/categorical.py:327-360 | for any rows and entries on, extraction equals one run over the rows as they came if and only if, in segment order, every gap is harmless and the same samples are notable in both orders |
| SegmentOrder.ExtractionIsRowOrderIffSameChanges | libs/events/categorical.py:327-360 | without guards the last means that the state changes at the same samples in both orders |
| SegmentOrder.HarmlessGapsGiveSegmentOrder | libs/events/categorical.py:327-360 | under any flags, harmless gaps give the events of one run in segment order |
| SegmentationVisibility.NoGapNoTrace | libs/events/categorical.py:327-360 | without a gap segmented extraction equals one run, whatever the flags |
| SegmentOrder.SegmentsAscendIff | libs/spark_sequence/plan.py:139-185 | assigned segment ids never go back along a key if and only if no sample has a span segment beyond the segment of a later sample |
| SegmentCaps.CapsRowsIff | libs/spark_sequence/plan.py:151-181 | the row setting caps the rows of a segment, for all tables in time order, if and only if no time span is set |
| SegmentCaps.CapsSpanIff | libs/spark_sequence/plan.py:151-181 | a time span caps the duration of a segment if and only if the row setting is at most one |
| SegmentCaps.CutsAreDue | libs/spark_sequence/plan.py:151-181 | rows are cut apart only at a multiple of the row setting or of the time span since the first sample |
| SegmentOrder.BackwardSegmentsReorder | libs/spark_sequence/plan.py:162-180 | two samples whose time goes back by a span: no gap is left, and the extraction still is not one run over the samples as they came |
| SegmentationVisibility.RowCountIsInvisible | libs/spark_sequence/plan.py:155-182 | cuts by row count are invisible for a key, whatever the other keys do |
| SegmentationVisibility.RowCountTable | libs/events/categorical.py:296-375 | in a table segmented by row count every key's events are those of one run |
| SegmentationVisibility.SoleKeyIsInvisible | libs/events/categorical.py:327-360 | a key with rows in every visited segment is unaffected under any policy |
| SegmentationVisibility.SpanPolicyDuplicatesEntry | libs/spark_sequence/plan.py:162-180 | two keys and a time-span policy for which the quiet key reports its entry twice |
| DependencyClosure.Expand | libs/architecture/render.py:197-204 | the inner loop appends exactly the unseen known dependencies, to list and queue alike |
| DependencyClosure.TransitiveInternalDependencies | libs/architecture/render.py:186-205 | terminates with exactly the known modules one or more steps away, once each, in order of distance, the root included when on a cycle |
| DependencyClosure.WalksAreListed | libs/architecture/render.py:192-204 | once everything listed is expanded, every walk's end is listed at most that far away |
| DependencyClosure.LookupKnows | libs/architecture/render.py:187 | the known names are exactly those of the modules of the bundle |
| DependencyClosure.LookupIsLast | libs/architecture/render.py:187 | of several modules of one name the last gives the dependencies |
| TopK.RetainTopK | libs/graph/data.py:52-94 | bucketing, sorting, cutting and filtering keep an edge exactly when it ranks within k at one of its buckets |
| TopK.KeptIffSeldomBeaten | libs/graph/data.py:52-94 | a row is kept if and only if a row of the same edge is beaten, by a larger weight or by an equal one and earlier names, fewer than k times at one of its ends |
| TopK.HeaviestIsKept | libs/graph/data.py:66-94 | wherever an edge ends, an edge at least as heavy that ends there is kept |
| TopK.TopIffAhead | libs/graph/data.py:66-71 | being among the first k of the sorted bucket means that fewer than k entries rank ahead |
| TopK.PruningIsIdempotent | libs/graph/data.py:52-94 | pruning twice is pruning once |
| TopK.PruningIsMonotone | libs/graph/data.py:58-94 | a larger positive k keeps at least as much |
| TopK.PruningIgnoresOrder | libs/graph/data.py:52-94 | which rows are kept does not depend on their order |
| TopK.AtMostKPerSource | libs/graph/data.py:75-94 | with unique pairs a source keeps at most k outgoing edges |
| Localization.LogComponentWeight | libs/anomaly/frames.py:43-62 | the weight is the channel's share of the total log mass, zero when the total is not positive |
| Localization.NormalizedClampedAverage | libs/anomaly/frames.py:26-34 | the average of the clamped values, missing ones as zero |
| Localization.SupportsSumToAtMostOne | libs/anomaly/frames.py:651-755 | the pre-boost supports of a window are non-negative and sum to at most one |
| ChannelLaws.WeightsFollowLogs | libs/anomaly/frames.py:43-62 | channel weights are in the proportion of the logarithms of the scores |
| ChannelLaws.SupportIsMixture | libs/anomaly/frames.py:698-754 | every support is the mixture, by the channel weights, of the supports the channels would give alone |
| ChannelLaws.ChannelReachesItsEvidence | libs/anomaly/frames.py:651-754 | when one channel alone has a score, exactly the parameters with its own evidence get support, for each of the eight |
| ChannelLaws.ChannelDividesByEvidence | libs/anomaly/frames.py:651-754 | they then divide it in the proportion of that evidence, each counted with the root of its module's size, and all of it |
| ChannelLaws.AccumulationIsProfiled | libs/anomaly/frames.py:679-731 | the accumulation channel gives what a residual channel gives, times the mean of the clamped profile |
| Localization.BoostAtMostDoubles | libs/anomaly/frames.py:756-794 | the module boost never lowers a support and at most doubles it |
| ChannelLaws.BoostFollowsModules | libs/anomaly/frames.py:756-794 | what the boost adds stands in the proportion of the supports times the roots of the sums of squares of their modules |
| ChannelLaws.BoostFavoursStrongModules | libs/anomaly/frames.py:756-794 | of two supports, the one whose module has the larger root is multiplied by more, and conversely |
| ChannelLaws.BoostsAddUpToOne | libs/anomaly/frames.py:768-794 | over one parameter of each module, what the factors are above one adds up to one |
| Localization.BoostedSupportsSumToAtMostTwo | libs/anomaly/frames.py:651-794 | the boosted supports of a window sum to at most two |
| Localization.BoostKeepsModuleOrder | libs/anomaly/frames.py:782-794 | the boost never reorders two parameters of one module |
| LocalizationTargets.TotalIsSumOfModules | libs/anomaly/frames.py:394-415 | a subsystem's weight is the sum of its modules' weights, however they are listed |
| LocalizationTargets.DominantTargetsExist | libs/anomaly/frames.py:840-932 | a window has a module ranked first and a subsystem ranked first if and only if it has a parameter, and the subsystem is unique |
| RankingCriteria.FirstModuleWins | libs/anomaly/frames.py:890-895 | the module ranked first has the largest weighted support, of those the strongest parameter, of those the best rank, of those the first name |
| RankingCriteria.FirstSubsystemWins | libs/anomaly/frames.py:840-846 | the subsystem ranked first has the module of largest weighted support, of those the largest weighted support, of those the strongest parameter, of those the best rank, of those the first name |
| LocalizationTargets.DominantSubsystemHoldsMaximum | libs/anomaly/frames.py:840-932 | the subsystem ranked first contains a module of maximal rank-weighted support |
| LocalizationTargets.UniqueMaximumAgrees | libs/anomaly/frames.py:840-932 | when one module alone attains the maximum, the module ranked first lies in the subsystem ranked first |
| LocalizationTargets.AgreesIff | libs/anomaly/frames.py:840-932 | the two rankings agree if and only if no other maximal subsystem wins the later criteria |
| LocalizationCut.CutOfThreeAgrees | libs/anomaly/frames.py:941-952 | at the structural cut of three both rankings pick those of the first parameter |
| LocalizationCut.CutOfFourAgrees | libs/anomaly/frames.py:941-952 | up to four parameters, the module ranked first always lies in the subsystem ranked first |
| LocalizationCut.SelectionOfFiveCanDisagree | libs/anomaly/frames.py:21-23 | at a cut of five the module ranked first can lie outside the subsystem ranked first, with supports in any unit and so within the total of two; four is sharp |
| ClusterAlignment.CountLabels | libs/anomaly/validator.py:495 | the labels of a cluster, each with its number of rows |
| ClusterAlignment.MissingCountsAsEmpty | libs/anomaly/validator.py:495 | a missing label is counted under the empty text |
| ClusterAlignment.TopTwo | libs/anomaly/validator.py:498-500 | the largest and second largest count, minus one when there is no second |
| ClusterAlignment.FromHierarchyFrames | libs/anomaly/validator.py:464-508 | every cluster is mapped or marked ambiguous, mapped exactly to a label that strictly outnumbers every other |
| ClusterAlignment.ResolvesIff | libs/anomaly/validator.py:510-514 | a cluster that occurs resolves if and only if one label strictly outnumbers the others, and to that label |
| ClusterAlignment.MappingIgnoresOrder | libs/anomaly/validator.py:494-504 | the mapping does not depend on the order of the rows |
| ClusterAlignment.SplittingNeverLowersTotal | libs/anomaly/validator.py:202-237 | on given rows, splitting detected clusters never lowers the total of dominant counts |
| ClusterPurity.SplittingKeepsDominantHits | libs/anomaly/validator.py:191-249 | with repeated rows dropped, splitting never lowers the total of dominant counts, whatever rows become one when the parts are merged |
| ClusterPurity.SameRowsIff | libs/anomaly/validator.py:191-195 | merging leaves no more rows, and as many if and only if no two different rows become one |
| ClusterPurity.SplitLowersPurityIff | libs/anomaly/validator.py:191-249 | splitting lowers the weighted purity if and only if it adds fewer dominant hits than it adds rows times the purity before |
| ClusterPurity.SplittingNeverLowersPurity | libs/anomaly/validator.py:191-249 | so it never does when no parameter is listed in two parts |
| ClusterPurity.SplitCanLowerPurity | libs/anomaly/validator.py:191-249 | a split that lists one parameter in both parts lowers the weighted purity from two thirds to one half |
| ClusterPurity.PurityIsOneIff | libs/anomaly/validator.py:236-246 | the weighted purity is at most one, and one if and only if no cluster is mixed |
| StepInputs.TraceConcat | libs/behavior/tick.py:10-31 | a stream cut in two is its second part started from the last clean value of the first |
| Generators.GenerateInertial | libs/behavior/inertial.py:54-81 | the loop emits the clean values of the inertial step, each with its step's noise |
| Generators.GenerateAccumulative | libs/behavior/accumulative.py:54-79 | the loop emits the clean values of the accumulative step, each with its step's noise |
| Generators.GenerateTracking | libs/behavior/tracking.py:53-96 | the loop emits the clean values of the tracking step, damped in the error band and bounded, each with its step's noise |
| Generators.ChainTicks | libs/behavior/tick.py:10-31 | one-step streams, each started from the clean value before it, give the samples of one stream, for all three families |
| Generators.InertialStaysInHull | libs/behavior/inertial.py:61-73 | inertial output never leaves an interval that holds the start and every target that is named |
| Generators.InertialErrorShrinks | libs/behavior/inertial.py:71-73 | under a constant target the error left is the initial error times the product of one minus each gain |
| GeneratorRates.InertialTakesTimeConstants | libs/behavior/inertial.py:71-73 | after S time constants of steps the error under a constant target is at most the initial one over 1 + S and at least 1 - S of it, and a step of a whole time constant leaves none |
| Generators.AccumulativeIsIntegral | libs/behavior/accumulative.py:61-71 | accumulative output is the start plus the sum of rate times step |
| Generators.TrackingRespectsBounds | libs/behavior/tracking.py:77-86 | every clean value is within its step's bounds and is the nearest such value to the damped pull; the lower bound gives way where they cross |
| Generators.TrackingNeverReExits | libs/behavior/tracking.py:60-86 | for a constant in-bounds target the error never grows, so no band around it is left again |
| GeneratorRates.TrackingErrorStep | libs/behavior/tracking.py:71-80 | without bounds one step leaves the part the response rate does not take, damped if it is inside the error band |
| GeneratorRates.TrackingTakesResponses | libs/behavior/tracking.py:71-86 | under a constant target inside the bounds the error is at most the initial one over one plus the sum of rate times step |
| RegulatedBand.GenerateRegulated | libs/behavior/regulated.py:61-118 | the loop with its settle counter and trim phase emits the states of the specified step |
| RegulatedBand.StepKeepsBand | libs/behavior/regulated.py:86-109 | one step from inside the control band ends inside it when the trim fits or its sine is zero |
| RegulatedBand.RegulatedNeverLeaves | libs/behavior/regulated.py:71-109 | under a constant target the control band is never left once entered, for any wave between -1 and 1 |
| RegulatedBand.DefaultTrimFits | libs/behavior/regulated.py:80-88 | with the default band and trim settings the trim fits, for every target, rate and time step |
| RegulatedBand.BandIsKeptIff | libs/behavior/regulated.py:80-109 | for every setting, all waves between -1 and 1 that are zero at zero keep the band on all streams of equal inputs if and only if the trim fits or the trim frequency is zero |
| GeneratorRates.RegulatedFollowsWave | libs/behavior/regulated.py:79-109 | a stream of equal inputs that starts inside its band, with a trim that fits, deviates by a fading remainder and a fading sum of samples of the wave, in closed form for every wave |
| RegulatedTicks.ChainRegulatedTicks | libs/behavior/tick.py:10-31 | one-step streams of the regulated generator, each started from the clean value before it, pull and damp but never trim |
| RegulatedTicks.TicksAgreeIff | libs/behavior/tick.py:14-31 | for every wave, start and input, chained ticks give the values of one stream if and only if every trim the stream would make equals the damping it forgoes |
| RegulatedTicks.AllWavesAgreeIff | libs/behavior/tick.py:14-31 | ticks and stream agree under all waves if and only if, at every trim, the pull has reached the target and the wave has no amplitude or stands at zero |
| RegulatedTicks.TicksAgreeOffTheBand | libs/behavior/tick.py:14-31 | for trims of positive amplitude and frequency that means that no two samples in a row settle in the control band |
| RegulatedTicks.RegulatedTicksDiffer | libs/behavior/tick.py:14-31 | for any wave that is not zero at the first trim, a stream on its target trims at the second step and the chained ticks do not |
| DwellViolator.ViolateStream | libs/behavior/discrete_state.py:104-157 | the loop emits the states of the specified holder for dwell, stuck and illegal violations and any choice of samples |
| DwellViolator.HeldSince | libs/behavior/discrete_state.py:127-136 | the allowance used up is exactly how far the output lags the input it repeats |
| DwellViolator.OutputIsRecentInput | libs/behavior/discrete_state.py:127-136 | every output is an input of the same sample or of one at most the extra dwell earlier |
| DwellViolator.CompletedRunsAreLong | libs/behavior/discrete_state.py:118-136 | every completed output run of a state has at least one plus the extra dwell samples |
| DwellViolator.HolderOfPicked | libs/behavior/discrete_state.py:118-136 | for any choice of samples, the holder is that of a stream of the violated samples alone |
| DwellViolator.DwellIsInvisibleIff | libs/behavior/discrete_state.py:127-136 | for any choice of samples, the violation leaves the stream unchanged if and only if the violated samples among themselves never leave a state |
| DwellViolator.StuckInOneState | libs/behavior/discrete_state.py:142-145 | all violated samples of a stuck stream show one state: the configured one unless it is empty, else that of the first violated sample |
| DwellViolator.ViolateTicks | libs/behavior/tick.py:29-35 | behind the one-tick adapter every sample is a stream of its own, and a dwell violation changes nothing |
| InertialViolator.ViolateStream | libs/behavior/inertial.py:114-163 | the loop emits the values of the specified memory for every violation type and any choice of samples |
| InertialViolator.LagShifts | libs/behavior/inertial.py:133-134 | a stream lagged at every sample is its first values followed by the whole input late by the lag |
| InertialViolator.RampClimbs | libs/behavior/inertial.py:144-150 | for any choice of samples and missing values, a distorted sample is the value where the ramp began plus the scaled climb over the violated samples since |
| InertialViolator.RampTelescopes | libs/behavior/inertial.py:144-150 | a ramp of numbers distorted at every sample depends on its first and current values only |
| InertialViolator.SlowedOutputStaysInRange | libs/behavior/inertial.py:135-139 | a slowed stream stays within the range of its input, however the samples are chosen |
| InertialViolator.SlowedTakesFactor | libs/behavior/inertial.py:135-139 | while the input holds, each violated sample takes a slowed stream one over the factor nearer, the factor being at least one: bounds on the distance left, from above and below |
| InertialViolator.ViolateTicks | libs/behavior/tick.py:29-35 | behind the one-tick adapter only a stuck value can change a sample |
| RunExtraction.NumericRuns | libs/behavior/primitives.py:402-437 | the runs are the maximal stretches of steps of at least 0.05 on one side, in order and holding every such step, each with its peak and its reinforcements |
| RunExtraction.StepRunIffMaximal | libs/behavior/primitives.py:401-425 | a stretch is a maximal run of one sign if and only if its steps all rise or all fall by at least 0.05 and its neighbours do not on that side |
| RunExtraction.ReinforcementsAreMarked | libs/behavior/primitives.py:426-434 | a run is reinforced exactly at the steps that are the first to reach one and a half times the step marked before |
| RunExtraction.MarksAreUnique | libs/behavior/primitives.py:426-434 | only one list of steps can be so marked |
| RunExtraction.ReinforcementsForcePeak | libs/behavior/primitives.py:430-434 | a run reinforced r times peaks at no less than 1.5 to the r times its first step, and is longer than r |
| RunExtraction.EveryMaximalRunIsListed | libs/behavior/primitives.py:411-437 | every maximal run there is is one of the listed runs |
| RunExtraction.DiscreteRuns | libs/behavior/primitives.py:519-534 | one run more than there are transitions, maximal and in order, lengths summing to the sample count |
| LinearAlgebra.CauchySchwarz | libs/behavior/utils.py:24-32 | the squared dot product is at most the product of the squared norms |
| Autocorrelation.AutocorrelationInRange | libs/behavior/utils.py:19-32 | the lag-one autocorrelation of any series of two or more values lies between -1 and 1 |
| Autocorrelation.AffineSeriesIsPerfect | libs/behavior/utils.py:19-32 | a series in which each value is an affine function of the one before has autocorrelation one when the map rises and minus one when it falls |
| EvidenceLaws.LoneChangeIsUncorrelated | libs/behavior/utils.py:30-31 | a series that changes at its last step only, or at its first only, has autocorrelation zero |
| Scores.NetChangeIsUnit | libs/behavior/primitives.py:442 | the net change never exceeds the distance travelled, so the ratio is between zero and one |
| Scores.NetChangeIsOneIff | libs/behavior/primitives.py:442 | the ratio is one if and only if the series travels at least the floor put under the denominator and never turns |
| Scores.RatiosAreUnit | libs/behavior/primitives.py:440-461 | every ratio the scores are combined from is between zero and one before it is clipped |
| Scores.RecoveryAtMostHalf | libs/behavior/primitives.py:448-471 | returns are paired with excursions and with central samples, so the recovery score never exceeds one half |
| Scores.BuildNumericEvidence | libs/behavior/primitives.py:366-497 | the evidence equals the unclipped combinations, all between zero and one; only the reinforcement share keeps its clip |
| EvidenceLaws.SharesAreCounts | libs/behavior/primitives.py:438-461 | the shares, times the number of samples or steps, count samples and steps of the series itself, measured from the median in interquartile ranges |
| EvidenceLaws.EvidenceIsFree | libs/behavior/primitives.py:378-461 | in another unit and from another origin the evidence is the same, above the two floors |
| EvidenceLaws.ConstantEvidence | libs/behavior/primitives.py:438-497 | a constant series is all centre and smooth, with accumulation 0.15, oscillation 0.45, tracking error 0.15, recovery 0 and lag 0.60 |
| EvidenceLaws.OneWayEvidence | libs/behavior/primitives.py:438-465 | a series that falls at every step has full accumulation, one that rises at every step falls short by the flip its first step counts as |
| EvidenceLaws.CalmEvidence | libs/behavior/primitives.py:438-497 | a series that stays within an interquartile range of its median has tracking error 0.15 and a fifth of its longest run, and no recovery; its lag is left to autocorrelation, smoothness and longest run |
| EvidenceLaws.WildEvidence | libs/behavior/primitives.py:438-497 | a series that is never that near has full excursions, no return and recovery 0.35 |
| EvidenceLaws.ReturningEvidence | libs/behavior/primitives.py:442-466 | a series that ends where it began has no net change, and accumulation and oscillation are left to its direction, its flips and its bounds |
| EvidenceLaws.SmoothnessIsEnergy | libs/behavior/primitives.py:452-455 | above the floor, one minus the smoothness is the mean square of the steps over that of the deviations from the median, or one if the steps have more |

## Left out

- FittedWeightsAreOptimal: requires quiet tolerances; FitError and FitIsTransfer say what every other fit returns and when it is optimal.
- PivotAtLeastRidge: requires that no non-zero factor has been skipped before the pivot; UnclampedPivotMargin does not, and bounds the pivot a little lower.
- SegmentationInvisibleIff: requires ascending segments, for which ExtractionIsRowOrderIff makes up, and entry events on, for which SegmentationUnseenIff makes up where there are no dwell guards.
- SegmentationUnseenIff: requires that no dwell guard is configured; with guards and without entries only the direction from harmless gaps to equal events is stated.
- ExtractionIsRowOrderIff: requires entry events on, because the events tell of an entry only then.
- ResetsInvisibleIff: requires that no sample carries the text "none" as its state, which source preparation maps to missing.
- RunIsAudited: requires entry events on, because the reader learns of an arrival from them.
- OnePassCrossAgrees: requires unique window keys, because a repeated key multiplies rows in the join.
- AtMostKPerSource: requires unique pairs, because rows with a kept pair are kept together.
- BoostedSupportsSumToAtMostTwo: non-negative channel scores and one row per parameter of a window are assumed.
- BandIsKeptIff: for all waves between -1 and 1 that are zero at zero, not for the sine at the phases the loop visits.
- AllWavesAgreeIff: for all such waves; TicksAgreeIff is for each one.
- TrackingErrorStep: requires a step without bounds; TrackingRespectsBounds says what bounds do.
- RegulatedFollowsWave: requires a trim that fits; BandIsKeptIff says when others leave the band.
- EvidenceIsFree: requires an interquartile range and a travelled way above the floor in both units.
- ChannelDividesByEvidence: states seven of the eight channels; AccumulationIsProfiled states the eighth.
- ReconstructAndScore: requires distinct sensors, because of a repeated name only the last column counts.
- SplittingNeverLowersPurity: requires that no two rows become one when the parts are merged; SplitLowersPurityIff covers every other table.
- Spark and pandas execution: group-by, join, window row numbers and aggregates are given by their meaning.
- Floating point: rounding, overflow and NaN; `sqrt`, `log1p` and `sin` beyond range facts.
- Sensor names: the filter for empty names and the sorted union of sensors when none are given.
- Source preparation of categorical samples: trimming, lower-casing and casting of state texts.
- Null join keys, and the columns that only pass through.
- Sensor selection by energy, and the one-pass sensor energy table.
- Sample metadata: target source, control mode, target delta and violation labels.
- `state_chatter`: its step index is fixed while the stream runs.
- The accumulative, tracking and regulated violators, and the random draws that choose samples.
- Quantiles of the series, which enter as parameters, and the transition, dwell and chatter scores of discrete series.
- The choice of a behavior family from scores.
- The cluster alignment report besides its weighted purity, in particular that it does not call a cluster of missing labels mappable.
- The candidate-cut diagnostics and truth-window matching of the validator.
- Import resolution by longest prefix: a search over one list of names.
- Rendering, configuration, command lines, persistence and pipeline stages.
