# OtterTune recommendation pipeline, modelled in Dafny

This project models the decision and reshaping logic of OtterTune's tuning pipeline in
`server/website/website/tasks/async_tasks.py`. A new result of a tuning session goes through
four stages:

- **aggregate_target_results** decides whether this is a cold-start round. In that case it
  pops a Latin-hypercube sample or draws a random configuration. Otherwise it aggregates the
  session's results and aligns the knob columns to the session's knob catalog
  (**clean_knob_data**; metric data is aligned by **clean_metric_data**).
- **map_workload** scores every known workload of the latest pipeline run against the target.
  It maps the first workload with the smallest score.
- **combine_workload** joins the target's rows with the mapped workload's rows and narrows
  them to the ranked knobs and the objective. It de-duplicates the rows, standardises them and
  gives every column search bounds.
- **configuration_recommendation** seeds a surrogate model's search with random points and the
  best training rows. It takes the argmin of the search and maps it back to knob values,
  clamped to the knob ranges.

Matrices are `seq<seq<real>>` with real arithmetic. Errors the source raises become `Err`
values of `Base.Result`. The numeric libraries are function parameters with shape contracts
only:
- the row merge `DataUtil.combine_duplicate_rows`;
- the StandardScaler fit;
- the y standardisation;
- the `Bin` deciles;
- the DummyEncoder;
- the Gaussian-process and neural-network surrogates;
- the square root.

Random draws and the Latin-hypercube design are parameters too.

Modules:
- `Base`: results, matrices, index helpers, argmin and squared distance.
- `Catalog`: the knob catalog and default-value parsing.
- `Align`: clean_knob_data and clean_metric_data.
- `Payload`: the dictionary the stages pass on.
- `ColdStart`: aggregate_target_results, gen_random_data and gen_lhs_samples' post-processing.
- `Combine`: combine_workload.
- `Recommend`: configuration_recommendation.
- `Mapping`: map_workload.

## Model

| member | source | states |
|---|---|---|
| Base.ArgMin | server/website/website/tasks/async_tasks.py:780 | `np.argmin`: the position of a smallest value, before which every value is strictly larger (the first minimum) |
| Base.SquaredDistance | server/website/website/tasks/async_tasks.py:716 | `sum(np.square(a - b))` is never negative and is zero for equal rows |
| Catalog.Split | server/website/website/tasks/async_tasks.py:117 | `str.split(',')` yields at least one part, no part holds the separator, and joining the parts gives the string back |
| Catalog.SplitJoin | server/website/website/tasks/async_tasks.py:117 | splitting a join of separator-free parts gives back the parts (the round trip in the other direction) |
| Catalog.DefaultValue | server/website/website/tasks/async_tasks.py:112-125 | the fill value of a missing knob: an enum default's first position among the enum values (0 when absent); 1 or 0 for a bool according to whether its lower-cased default is one of "on", "true", "yes", "0"; otherwise the parsed float, or 0 when parsing fails |
| Catalog.EnumDefaultPosition | server/website/website/tasks/async_tasks.py:116-117 | for an enum whose values are listed as `vals`, the fill value is the first position of the default in `vals` |
| Catalog.EnumDefaultExample | server/website/website/tasks/async_tasks.py:116-117 | "read-committed" among "read-uncommitted,read-committed" fills with 1 |
| Catalog.BoolDefaultExamples | server/website/website/tasks/async_tasks.py:118-119 | "ON" and "0" read as true and "off" as false |
| Align.CleanKnobData | server/website/website/tasks/async_tasks.py:92-146 | data labelled exactly as the catalog comes back unchanged; otherwise the labels are the catalog's names, the shape is (rows, catalog size), a knob present in the input keeps its input column (first occurrence), and a missing one is a constant column of its default |
| Align.CleanUndoesProjection | server/website/website/tasks/async_tasks.py:110-135 | dropping and reordering the columns of catalog-aligned data and aligning again restores every kept column and fills every dropped one with its default |
| Align.ProjectionIsIdentity | server/website/website/tasks/async_tasks.py:98-100 | a projection that leaves the labels in catalog order is the identity, so the early return applies |
| Align.ProjectedColumn | server/website/website/tasks/async_tasks.py:127-131 | one column of a re-aligned projection is the original column when kept and the default column when dropped |
| Align.CleanUndoesPermutation | server/website/website/tasks/async_tasks.py:127-146 | aligning a column permutation of catalog-ordered data gives that data back |
| Align.Reshape | server/website/website/tasks/async_tasks.py:135 | `reshape(nrows, -1)` succeeds only for a positive row count and yields rows of the inferred width |
| Align.CleanKnobDataAsWritten | server/website/website/tasks/async_tasks.py:106-146 | the alignment as written, through `np.hstack` and `reshape`; when it succeeds its labels are the catalog's names |
| Align.AsWrittenMixedColumnsFail | server/website/website/tasks/async_tasks.py:125-135 | as written, data holding some catalog knobs and lacking others cannot be aligned: the stacked columns differ in dimension |
| Align.AsWrittenScramblesRows | server/website/website/tasks/async_tasks.py:128-135 | as written, swapping two columns of a 2x2 matrix moves cells between rows; the corrected alignment swaps the columns |
| Align.CleanMetricData | server/website/website/tasks/async_tasks.py:149-170 | the labels are the objective followed by the metric catalog, the row count is kept, and each column is the input column last carrying that label, or zeros; it never fails |
| Align.CleanMetricIdempotent | server/website/website/tasks/async_tasks.py:149-170 | aligning metric data twice is the same as aligning it once, even when the layout repeats a name |
| Align.SameLabelSameColumn | server/website/website/tasks/async_tasks.py:162-168 | two output columns with the same label hold the same values, because the dictionary keeps one position per label |
| ColdStart.RoundHalfEven | server/website/website/tasks/async_tasks.py:306-310 | Python 3 `round`: within 1/2 of its argument, ties going to the even integer |
| ColdStart.RoundStaysBetween | server/website/website/tasks/async_tasks.py:306-310 | rounding a value between two integers stays between them |
| ColdStart.Trunc | server/website/website/tasks/async_tasks.py:267 | `int()` of a float truncates toward zero |
| ColdStart.RandInt | server/website/website/tasks/async_tasks.py:256-267 | `random.randint(a, b)` lies in [a, b] |
| ColdStart.SampleConfig | server/website/website/tasks/async_tasks.py:302-314 | one design row as a dictionary: every knob of a stored type has an entry, and every entry is the stored value of a knob of that name |
| ColdStart.SampleConfigs | server/website/website/tasks/async_tasks.py:302-314 | one configuration per design row, in design order, each that row's dictionary |
| ColdStart.Shuffle | server/website/website/tasks/async_tasks.py:315 | `random.shuffle` as the Fisher–Yates swaps it draws: the result is a permutation of its input, and its last element is the item the first swap, at the last position, picked |
| ColdStart.GenLhsSamples | server/website/website/tasks/async_tasks.py:301-317 | the pool is a permutation of the design rows' configurations (equal as multisets, one per row); its last entry is the row the shuffle's first swap, at the last position, picked |
| ColdStart.EveryRowPooled | server/website/website/tasks/async_tasks.py:301-317 | every design row's configuration is somewhere in the pool |
| ColdStart.SampleInRange | server/website/website/tasks/async_tasks.py:299-314 | when the design lies in the knob ranges and rounded knobs have integral ranges, every stored sample value lies in its knob's range |
| ColdStart.RandomValueWithin | server/website/website/tasks/async_tasks.py:253-277 | each drawn value has its knob's kind and lies in its range; the draw fails exactly for an unknown type or an empty truncated integer range |
| ColdStart.UniformBetween | server/website/website/tasks/async_tasks.py:269-270 | `random.uniform(lo, hi)` lies between its ends, in either order |
| ColdStart.GenRandomData | server/website/website/tasks/async_tasks.py:251-279 | every catalog knob name has an entry; fails exactly when some knob's draw fails |
| ColdStart.RandomConfigFromDraws | server/website/website/tasks/async_tasks.py:251-279 | every entry is the value drawn for a catalog knob of that name |
| ColdStart.RandomConfigWithin | server/website/website/tasks/async_tasks.py:251-279 | every value of a random configuration is of the kind and in the range of a catalog knob of that name |
| ColdStart.PoolBeforePop | server/website/website/tasks/async_tasks.py:193-199 | the pool is the persisted one, or, when that is empty, a fresh one of 100 ("lhs" mode) or 10 samples that is a permutation of the design rows' configurations |
| ColdStart.AggregateTargetResults | server/website/website/tasks/async_tasks.py:181-248 | LHS branch: the last sample is popped as the configuration, the rest persisted, the round bad. Random branch: the drawn configuration, a bad round, fails exactly when the draw fails. Normal branch: a good round whose data is the history with its knob columns aligned to the session's catalog (by the corrected alignment) and labelled by the catalog names, the metric data unchanged; fails exactly when the session has no results |
| ColdStart.LhsColdStartScenario | server/website/website/tasks/async_tasks.py:193-209 | from an empty pool in "lhs" mode one call yields the 100th sample and persists the other 99 |
| ColdStart.LhsRoundKeepsDesign | server/website/website/tasks/async_tasks.py:193-209 | from an empty pool, the recommended configuration and the persisted pool are together exactly the design rows' configurations, as a multiset |
| Combine.PyPrefix | server/website/website/tasks/async_tasks.py:540 | Python `s[:k]` for any integer k, negative k counting from the end |
| Combine.ScaleRoundTrip | server/website/website/tasks/async_tasks.py:601-602 | the scaler's inverse transform undoes the transform and vice versa |
| Combine.ScaleMonotone | server/website/website/tasks/async_tasks.py:662-664 | both directions of the scaler keep the order of values |
| Combine.RowRoundTrip | server/website/website/tasks/async_tasks.py:782 | unscaling a scaled row gives the row back |
| Combine.ScaleMatrix | server/website/website/tasks/async_tasks.py:602 | `transform` of a matrix keeps its shape and scales each cell by its column |
| Combine.WorkloadSide | server/website/website/tasks/async_tasks.py:490-517 | the other side is the mapped workload's data with its knob columns aligned to the catalog, or the target itself when no workload is mapped |
| Combine.ObjectiveColumn | server/website/website/tasks/async_tasks.py:546-555 | the one column labelled with the objective; missing exactly when no label matches, and a duplicate error when two do |
| Combine.RankedColumns | server/website/website/tasks/async_tasks.py:540-544 | the kept columns are exactly those whose label is among the first k ranked knobs, in increasing order |
| Combine.UntriedRows | server/website/website/tasks/async_tasks.py:569-573 | exactly the workload rows that do not equal a target row, in order |
| Combine.DropTriedRows | server/website/website/tasks/async_tasks.py:569-576 | no survivor equals a target row, every untried row survives, and survivors keep their order with their metric rows and labels alongside |
| Combine.DropNothingWhenDisjoint | server/website/website/tasks/async_tasks.py:569-576 | a workload with no row in common with the target loses nothing |
| Combine.KeptLabels | server/website/website/tasks/async_tasks.py:534-544 | the labels are unchanged without a mapped workload; otherwise exactly those among the first k ranked knobs, in their original order: kept label c is the label at the c-th kept position |
| Combine.KeptKnobs | server/website/website/tasks/async_tasks.py:541-543 | the knob matrix is narrowed in step with its labels: kept column c of every row is the input column at the c-th kept position; unchanged without a mapped workload |
| Combine.GatherRows | server/website/website/tasks/async_tasks.py:525-576 | a knob label mismatch raises, then a metric label mismatch, then a missing or duplicated objective; otherwise the labels are the kept labels and the training rows, values and row labels have matching shapes |
| Combine.ObjectiveRows | server/website/website/tasks/async_tasks.py:557-558 | `y[:, target_obj_idx]`: a one-column matrix holding each row's objective value |
| Combine.GatherRowsApart | server/website/website/tasks/async_tasks.py:566-576 | no gathered workload row repeats a gathered target row, and every gathered target row is a target knob row narrowed to the kept columns |
| Combine.GatherRowsObjective | server/website/website/tasks/async_tasks.py:546-576 | each side's metric rows are narrowed to the objective column before its merge; the target's training values are its merged objective column in merge order; every workload row is a merged workload row with its own value and label, and every untried merged workload row is kept; every workload row is a workload knob row narrowed to the kept columns |
| Combine.TargetValuesWithoutMerging | server/website/website/tasks/async_tasks.py:557-566 | when the merge changes nothing, the target trains on its own objective column, row for row |
| Combine.WorkloadValuesWithoutMerging | server/website/website/tasks/async_tasks.py:557-576 | when the merge changes nothing, every workload training value is the objective measured on some workload row and carries that row's label |
| Combine.UnmergedPairs | server/website/website/tasks/async_tasks.py:557-566 | rows paired with an unmerged objective column carry measured objective values and their own row labels |
| Combine.MergeSides | server/website/website/tasks/async_tasks.py:561-576 | each side is merged separately, workload rows the target tried are dropped, and merging the target with itself leaves no workload row |
| Combine.MergeSidesObjective | server/website/website/tasks/async_tasks.py:561-576 | each side goes through the merge once; the target's rows and values are its merge's, in order; the workload's rows are merged workload rows with their own values and labels, and include every merged row the target has not tried |
| Combine.SurvivorsArePairs | server/website/website/tasks/async_tasks.py:569-576 | each row surviving the tried-row filter is a merged row with its objective value and row label |
| Combine.UntriedSurvive | server/website/website/tasks/async_tasks.py:569-576 | every merged row the target has not tried survives the filter with its objective value |
| Combine.ScaledObjective | server/website/website/tasks/async_tasks.py:603-623 | with fewer than 5 target rows one scaler covers both sides; otherwise each side is scaled alone, and the target's rows alone are used when the workload side is empty; fails exactly when there are no rows |
| Combine.ColumnMin | server/website/website/tasks/async_tasks.py:657 | the smallest value of the column, attained by some row |
| Combine.ColumnMax | server/website/website/tasks/async_tasks.py:658 | the largest value of the column, attained by some row |
| Combine.ColumnBounds | server/website/website/tasks/async_tasks.py:652-666 | [0, 1] for one-hot and binary columns; the scaled declared range of the last catalog knob of the label; otherwise the column's observed range; no rows raises |
| Combine.Bounds | server/website/website/tasks/async_tasks.py:645-666 | the bounds of every column, left to right, with the first failing column deciding the error |
| Combine.BoundsOrdered | server/website/website/tasks/async_tasks.py:652-666 | every lower bound is at most its upper bound when every knob declares min <= max |
| Combine.ScaleKnobs | server/website/website/tasks/async_tasks.py:578-602 | the stacked rows, encoded when an encoder is on, then standardised; no rows or no columns raises |
| Combine.Oriented | server/website/website/tasks/async_tasks.py:627-631 | the objective is negated exactly when more is better |
| Combine.EncodedBounds | server/website/website/tasks/async_tasks.py:645-666 | one-hot and binary columns are bounded by [0, 1] and catalog knobs by their scaled declared range |
| Combine.Assemble | server/website/website/tasks/async_tasks.py:625-666 | the result carries the oriented objective and the bounds of every column and is trainable |
| Combine.WithObjective | server/website/website/tasks/async_tasks.py:603-666 | the objective is scaled by ScaledObjective and oriented, and the result is trainable |
| Combine.Preprocess | server/website/website/tasks/async_tasks.py:578-666 | target rows are stacked before workload rows, one scaled row and one objective value per stacked row, and no rows raises; the result is trainable, with dummy columns in [0, 1] and catalog knobs bounded by their ranges |
| Combine.PreprocessScales | server/website/website/tasks/async_tasks.py:578-631 | the scaled matrix is the stacked rows encoded and standardised, and the objective is the two sides' values standardised by ScaledObjective and negated when more is better |
| Combine.CombineWorkload | server/website/website/tasks/async_tasks.py:483-669 | raises on a knob label mismatch, then a metric label mismatch, then unless the objective labels exactly one column; otherwise the labels are narrowed exactly when a workload is mapped, there is at least one row with one objective value per row, and catalog knobs are bounded by their scaled ranges |
| Combine.CombinedObjective | server/website/website/tasks/async_tasks.py:525-666 | the rows trained on are the gathered target rows followed by the gathered workload rows, the target count is the number of target rows, the objective is the gathered values standardised and negated when more is better, and the encoder's one-hot and binary columns are searched within [0, 1] |
| Combine.TargetRowsFirst | server/website/website/tasks/async_tasks.py:569-579 | the target's merged rows come first in the stacked matrix and no workload row after them repeats one |
| Combine.StackKeepsSides | server/website/website/tasks/async_tasks.py:579 | stacking a over b keeps a as the prefix, and a disjoint b repeats no row of it |
| Combine.SelfCombinationAddsNothing | server/website/website/tasks/async_tasks.py:511-517 | without a mapped workload every stacked row is a target row |
| Recommend.BadRecommendation | server/website/website/tasks/async_tasks.py:681-692 | a bad round recommends its ready-made configuration with status bad and the message for the session mode; without a configuration it fails |
| Recommend.Interpolate | server/website/website/tasks/async_tasks.py:700-701 | `u * (hi - lo) + lo` lies between lo and hi for u in [0, 1) |
| Recommend.RandomSamples | server/website/website/tasks/async_tasks.py:697-701 | num_samples rows as wide as the bounds, each value within its column's bounds |
| Recommend.PopOrder | server/website/website/tasks/async_tasks.py:703-723 | the first k entries popped from the priority queue are in (value, index) order and precede every entry left in it, stopping early when it runs empty |
| Recommend.Seeds | server/website/website/tasks/async_tasks.py:703-723 | exactly min(TOP_NUM_CONFIG, rows) rows (none for a negative setting), in ascending (y, index) order, and every other row comes after them |
| Recommend.FirstSeedIsArgMin | server/website/website/tasks/async_tasks.py:703-710 | the first seed is the row numpy's argmin picks |
| Recommend.Nudge | server/website/website/tasks/async_tasks.py:716-720 | a seed is shifted by minus abs(GPR_EPS) when its squared distance to the upper bounds is below 0.001, otherwise by plus abs(GPR_EPS) |
| Recommend.NudgeMovesOff | server/website/website/tasks/async_tasks.py:711-720 | with a non-zero bias no seed is its training row, and a row at the upper bounds moves below them |
| Recommend.NudgedSeeds | server/website/website/tasks/async_tasks.py:703-723 | one row per popped seed, in queue order, each that seed's scaled configuration shifted by the absolute epsilon (down when it lies within 0.001 of the upper bound, up otherwise) |
| Recommend.StartingPoints | server/website/website/tasks/async_tasks.py:697-723 | the random samples within the bounds, followed by the nudged seeds in queue order |
| Recommend.Search | server/website/website/tasks/async_tasks.py:725-778 | GPR and DNN run their surrogate; DDPG leaves no result |
| Recommend.Broadcast | server/website/website/tasks/async_tasks.py:795-796 | numpy broadcasting of two 1-D arrays: equal lengths pair up, a length-1 side repeats, anything else raises |
| Recommend.Clamp | server/website/website/tasks/async_tasks.py:793-796 | each value ends within its bounds (at the lower one when they cross), and a value already inside is kept |
| Recommend.ClampIdempotent | server/website/website/tasks/async_tasks.py:795-796 | clamping twice is clamping once |
| Recommend.ConfMap | server/website/website/tasks/async_tasks.py:798 | the keys are the labels, a repeated label keeping its last value; fewer values than labels raises |
| Recommend.Finalize | server/website/website/tasks/async_tasks.py:780-798 | an empty search result makes argmin raise; otherwise the configuration names exactly the column labels |
| Recommend.FinalizeChoosesBest | server/website/website/tasks/async_tasks.py:780-798 | without encoding, each knob's value is the argmin configuration unscaled and clamped to the unscaled bounds, unchanged when already inside them |
| Recommend.KnobRangeRespected | server/website/website/tasks/async_tasks.py:788-796 | without encoding, every recommended catalog knob lies in its declared range |
| Recommend.RecommendFrom | server/website/website/tasks/async_tasks.py:697-802 | the good path: status good, a training-data-size message, the pipeline run passed on, and the finalised search result as configuration |
| Recommend.ConfigurationRecommendation | server/website/website/tasks/async_tasks.py:672-807 | a bad round short-circuits to its configuration; otherwise combine_workload's failure is the stage's, DDPG has no search, and a good recommendation names every combined knob column |
| Recommend.RecommendFromInRange | server/website/website/tasks/async_tasks.py:788-798 | the good path keeps every catalog knob within its declared range |
| Recommend.RecommendationInRange | server/website/website/tasks/async_tasks.py:788-802 | a good recommendation without dummy encoding keeps every catalog knob within its declared range |
| Mapping.WithResults | server/website/website/tasks/async_tasks.py:862-869 | the workloads that still have results, in order |
| Mapping.Deleted | server/website/website/tasks/async_tasks.py:865-869 | exactly the workloads without results are deleted |
| Mapping.PositionsIn | server/website/website/tasks/async_tasks.py:890-893 | the positions below the width whose label is kept, all of them and in order; a width past the labels raises |
| Mapping.TakeColumns | server/website/website/tasks/async_tasks.py:901-902 | `m[:, idxs]` picks the columns; an index past the last column raises |
| Mapping.LoadWorkload | server/website/website/tasks/async_tasks.py:871-880 | the knob data aligned to the catalog and the metric data as stored; differing knob and metric row labels fail the assertion |
| Mapping.InitSelection | server/website/website/tasks/async_tasks.py:882-898 | the knob positions whose target label is among the first workload's top ranked knobs and the metric positions whose target label it kept, exactly |
| Mapping.LoadEntry | server/website/website/tasks/async_tasks.py:871-912 | a workload is narrowed by the existing selection, or fixes it; its rows are selections of its aligned knob rows |
| Mapping.Gather | server/website/website/tasks/async_tasks.py:858-912 | as many entries as workloads with results, and exactly the workloads without results as deleted; the selection is kept once fixed and fits the target |
| Mapping.GatherKeepsOrder | server/website/website/tasks/async_tasks.py:858-912 | the entries belong to exactly the workloads with results, in their original order |
| Mapping.FirstWorkloadSelects | server/website/website/tasks/async_tasks.py:882-898 | the selection is the one the first workload with results fixes |
| Mapping.Predictions | server/website/website/tasks/async_tasks.py:945-974 | column j of the predictions is the model fitted on metric column j, evaluated at the target's rows |
| Mapping.Sum | server/website/website/tasks/async_tasks.py:979-981 | a sum of non-negative values is non-negative, and zero exactly when all are |
| Mapping.Mean | server/website/website/tasks/async_tasks.py:981 | a mean of non-negative values is non-negative, and zero exactly when all are |
| Mapping.Distances | server/website/website/tasks/async_tasks.py:979-980 | each row's distance is non-negative and zero exactly when the squared distance is |
| Mapping.PredictedBins | server/website/website/tasks/async_tasks.py:947-978 | the binned predictions are as tall as the target and as wide as the metric selection |
| Mapping.Score | server/website/website/tasks/async_tasks.py:978-981 | a workload's score is non-negative, and zero exactly when every binned prediction row is at distance zero from the target's |
| Mapping.PerfectPredictionScoresZero | server/website/website/tasks/async_tasks.py:978-981 | a workload that predicts the target's binned metrics exactly scores zero |
| Mapping.ScoreAll | server/website/website/tasks/async_tasks.py:945-981 | one score per workload, in order, with its id and name |
| Mapping.StackX | server/website/website/tasks/async_tasks.py:922 | the stacked knob rows are empty exactly when every workload has none |
| Mapping.StackY | server/website/website/tasks/async_tasks.py:923 | the stacked metric rows are as many as the stacked knob rows |
| Mapping.FitFrame | server/website/website/tasks/async_tasks.py:921-943 | fitting the scalers fails exactly when there are no stacked rows, no knob columns or no metric columns; otherwise the target is scaled and binned |
| Mapping.PickBest | server/website/website/tasks/async_tasks.py:984-994 | the kept best scores no more than the starting best and any workload |
| Mapping.PickBestIsFirst | server/website/website/tasks/async_tasks.py:984-994 | because the comparison is strict, the kept best is the starting best or the first workload beating everything before it |
| Mapping.BestIsFirstMinimum | server/website/website/tasks/async_tasks.py:984-994 | the mapped workload is the one argmin over the scores picks: the first with the smallest score |
| Mapping.TieGoesToEarlier | server/website/website/tasks/async_tasks.py:990-994 | of two workloads with equal scores the earlier is mapped |
| Mapping.ScoreGathered | server/website/website/tasks/async_tasks.py:914-996 | no workload data gives no mapping and no scores; otherwise every workload is scored, in order, and the first best is mapped |
| Mapping.MapWorkload | server/website/website/tasks/async_tasks.py:817-1001 | a bad round clears the pipeline run and changes nothing else; otherwise the pipeline run is the latest, the mapping and scores are None exactly when no workload has results, the scores list every workload with results in order, and nothing else changes |
| Mapping.MappedIsClosest | server/website/website/tasks/async_tasks.py:984-996 | the mapped workload is one of the scored workloads and none scores less |

## Left out

- Celery task classes, the `TaskMeta` rewriting and `save_execution_time` (lines 43-89, 173-178): task-queue and persistence plumbing.
- The Django ORM: queries are inputs and saves are outputs. The session as saved is returned by `ColdStart.AggregateTargetResults`. The deleted workloads are returned by `Mapping.MapWorkload`. `create_and_save_recommendation` (lines 426-440) is reduced to the record's status, message, configuration and pipeline run. The session's saved DNN weights (line 742) are not modelled.
- The DDPG tasks (lines 320-480): float formulas around an opaque agent. `Recommend.Search` returns an error for DDPG.
- The GP and neural-network fitting and search, gpflow/TensorFlow and the UCB beta (lines 727-778, 957-974): these are the `Surrogate` and `predict` parameters, constrained only in shape.
- StandardScaler, the y standardisation, `Bin`, `DummyEncoder` and `ParamConstraintHelper`: library numerics, passed in as functions with shape contracts. The scaler fit is assumed to give positive scales.
- `DataUtil.combine_duplicate_rows`: its merging policy (which value a merged row keeps) is not part of this model. It is a parameter whose rows are drawn from its input rows, so training values are tied to measured values only when it merges nothing (`Combine.TargetValuesWithoutMerging`, `Combine.WorkloadValuesWithoutMerging`).
- `pyDOE.lhs` and `uniform.ppf` in gen_lhs_samples (lines 282-300), `random.randint`, `random.uniform` and `np.random.rand`: the scaled design and uniform draws in [0, 1) are parameters. `random.shuffle` is modelled as the Fisher–Yates swaps it performs, and the swap positions it draws are a parameter.
- Python's `float()` grammar is a parameter. `str.lower()` is modelled for ASCII letters only.
- Floating point: values are mathematical reals, so NaN, infinities and rounding are absent. `np.inf` as the starting best is the `None` of `Mapping.PickBest`.
- numpy arrays with zero rows: their `shape[1]` and 1-D indexing quirks are not modelled. Data with no rows is handled by the explicit error paths.
- The NaN mean of an empty target in map_workload: `Mapping.MapWorkload` requires target data with at least one row, which aggregate_target_results guarantees.
- The dummy encoder's column labels: with encoding on, the recommended configuration keys columns by the unencoded labels, as the source does. No range lemma is stated for that case.
- Base.SquaredDistance: states only that equal rows are at distance zero, not the converse. The converse is true of the source but needs nonlinear real reasoning.
- Mapping.Distances: a row is at distance zero exactly when its squared distance is zero. Like Base.SquaredDistance, it does not state that this happens only for equal rows.
- Mapping.PredictedBins: states only the shape of the binned predictions, because `Bin` and the surrogate are parameters.
- Mapping.FitFrame: states only the error condition and the shapes of the fitted transforms, because the scalers and `Bin` are parameters.
- Recommend.Finalize: with dummy encoding on, the decoded row is only constrained by the encoder's `decode` parameter.
- ColdStart.AggregateTargetResults: the normal branch aligns the knob data with the corrected alignment `Align.CleanKnobData`. The source calls clean_knob_data (line 240), which raises on data that mixes present and missing catalog knobs and scrambles rows when the labels are permuted (see Findings).
- Combine.WorkloadSide: aligns the mapped workload's knob data with the corrected `Align.CleanKnobData`, where the source's clean_knob_data (line 503) raises or scrambles rows as described under Findings.
- Mapping.LoadWorkload: aligns each workload's knob data with the corrected `Align.CleanKnobData`, where the source's clean_knob_data (line 873) raises or scrambles rows as described under Findings.

## Findings

| source | as written | input that shows it | evidently intended | confidence | as-written member | corrected member |
|---|---|---|---|---|---|---|
| server/website/website/tasks/async_tasks.py:128-135 | A kept column `knob_matrix[:, index]` is one-dimensional, so `np.hstack` of kept columns joins them end to end. `reshape(nrows, -1)` then re-slices that sequence row by row, scrambling cells across rows. A mix of kept and default (two-dimensional) columns cannot be stacked at all. | matrix [[1, 2], [3, 4]] labelled ["a", "b"] against catalog ["b", "a"]: the result is [[2, 4], [1, 3]]. Any data with one catalog knob present and another missing makes `np.hstack` raise. | the columns placed side by side in catalog order: [[2, 1], [4, 3]] | high; not executed | Align.CleanKnobDataAsWritten (with Align.AsWrittenScramblesRows and Align.AsWrittenMixedColumnsFail) | Align.CleanKnobData (with Align.CleanUndoesPermutation and Align.CleanUndoesProjection) |
