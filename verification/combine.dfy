/** combine_workload (server/website/website/tasks/async_tasks.py): the training
    set the recommender fits its surrogate on. The target's rows are joined with
    those of the mapped workload (or with themselves when none is mapped), the
    knob columns are narrowed to the ranked knobs, the metric columns to the
    target objective, rows are merged and de-duplicated, and the result is
    standardised and given per-column search bounds. The row merge, the scaler
    fit, the y standardisation and the dummy encoder are parameters. */
module Combine {
  import opened Base
  import opened Catalog
  import opened Payload
  import Align

  // ---------------------------------------------------------------------------
  // Library pieces, as parameters with shape contracts

  /** Python `s[:k]` for any integer `k` (a negative `k` counts from the end). */
  function PyPrefix<T>(s: seq<T>, k: int): (r: seq<T>)
    ensures r <= s
    ensures 0 <= k <= |s| ==> |r| == k
    ensures k > |s| ==> r == s
    ensures k < 0 ==> |r| == (if |s| + k > 0 then |s| + k else 0)
  {
    if k >= |s| then s
    else if k >= 0 then s[..k]
    else if |s| + k > 0 then s[..|s| + k]
    else []
  }

  /** A fitted StandardScaler: per column, the mean it removes and the positive scale it
      divides by. */
  datatype Scaler = Scaler(mean: seq<real>, scale: seq<real>)

  predicate ValidScaler(s: Scaler, n: nat) {
    |s.mean| == n && |s.scale| == n && forall j :: 0 <= j < n ==> s.scale[j] > 0.0
  }

  /** `StandardScaler.fit` is only assumed to produce a valid scaler as wide as the
      (non-empty) matrix it is fitted on. */
  ghost predicate ScalerFits(fit: Matrix -> Scaler) {
    forall m: Matrix :: |m| > 0 ==> ValidScaler(fit(m), |m[0]|)
  }

  /** `transform` on one value of column `j`. */
  function ScaleCell(s: Scaler, j: nat, v: real): real
    requires j < |s.mean| && j < |s.scale| && s.scale[j] > 0.0
  {
    (v - s.mean[j]) / s.scale[j]
  }

  /** `inverse_transform` on one value of column `j`. */
  function UnscaleCell(s: Scaler, j: nat, z: real): real
    requires j < |s.mean| && j < |s.scale|
  {
    z * s.scale[j] + s.mean[j]
  }

  /** `inverse_transform` undoes `transform`, and the other way round. */
  lemma ScaleRoundTrip(s: Scaler, j: nat, v: real, z: real)
    requires j < |s.mean| && j < |s.scale| && s.scale[j] > 0.0
    ensures UnscaleCell(s, j, ScaleCell(s, j, v)) == v
    ensures ScaleCell(s, j, UnscaleCell(s, j, z)) == z
  {
    var t := (v - s.mean[j]) / s.scale[j];
    assert t * s.scale[j] == v - s.mean[j];
  }

  /** Both directions of the scaler keep the order of values. */
  lemma ScaleMonotone(s: Scaler, j: nat, a: real, b: real)
    requires j < |s.mean| && j < |s.scale| && s.scale[j] > 0.0
    ensures a <= b <==> ScaleCell(s, j, a) <= ScaleCell(s, j, b)
    ensures a <= b <==> UnscaleCell(s, j, a) <= UnscaleCell(s, j, b)
  {
    var c := s.scale[j];
    assert ScaleCell(s, j, b) - ScaleCell(s, j, a) == (b - a) / c;
    assert UnscaleCell(s, j, b) - UnscaleCell(s, j, a) == (b - a) * c;
    if a <= b {
      assert (b - a) * c >= 0.0;
    } else {
      assert (a - b) * c > 0.0;
    }
  }

  /** `transform` on one row. */
  function ScaleRow(s: Scaler, row: Row): (r: Row)
    requires ValidScaler(s, |row|)
    ensures |r| == |row|
    ensures forall j :: 0 <= j < |row| ==> r[j] == ScaleCell(s, j, row[j])
  {
    seq(|row|, j requires 0 <= j < |row| => ScaleCell(s, j, row[j]))
  }

  /** `inverse_transform` on one row. */
  function UnscaleRow(s: Scaler, row: Row): (r: Row)
    requires |s.mean| == |row| && |s.scale| == |row|
    ensures |r| == |row|
    ensures forall j :: 0 <= j < |row| ==> r[j] == UnscaleCell(s, j, row[j])
  {
    seq(|row|, j requires 0 <= j < |row| => UnscaleCell(s, j, row[j]))
  }

  /** Scaling a row and scaling it back gives the row. */
  lemma {:induction false} RowRoundTrip(s: Scaler, row: Row)
    requires ValidScaler(s, |row|)
    ensures UnscaleRow(s, ScaleRow(s, row)) == row
  {
    var back := UnscaleRow(s, ScaleRow(s, row));
    forall j | 0 <= j < |row|
      ensures back[j] == row[j]
    {
      ScaleRoundTrip(s, j, row[j], 0.0);
    }
  }

  /** `transform` on a matrix. */
  function ScaleMatrix(s: Scaler, m: Matrix, n: nat): (r: Matrix)
    requires IsMatrix(m, n) && ValidScaler(s, n)
    ensures |r| == |m| && IsMatrix(r, n)
    ensures forall i, j :: 0 <= i < |m| && 0 <= j < n ==> r[i][j] == ScaleCell(s, j, m[i][j])
  {
    seq(|m|, i requires 0 <= i < |m| => ScaleRow(s, m[i]))
  }

  /** `DataUtil.combine_duplicate_rows`: knob rows, metric rows and row labels in, the
      same out with rows of equal knob settings merged. Its merging policy is not
      modelled. */
  type Dedup = (Matrix, Matrix, seq<string>) -> (Matrix, Matrix, seq<string>)

  /** What a merge promises about its output: the three parts describe the same rows,
      every knob row is one of the input knob rows, and metric rows keep their width. */
  predicate MergedFrom(out: (Matrix, Matrix, seq<string>), x: Matrix, y: Matrix, w: nat) {
    && |out.1| == |out.0|
    && |out.2| == |out.0|
    && (forall i :: 0 <= i < |out.0| ==> out.0[i] in x)
    && (IsMatrix(y, w) ==> IsMatrix(out.1, w))
  }

  ghost predicate DedupShape(dedup: Dedup) {
    forall x: Matrix, y: Matrix, rl: seq<string>, w: nat ::
      |y| == |x| && |rl| == |x| ==> MergedFrom(dedup(x, y, rl), x, y, w)
  }

  /** Rows drawn from a matrix of width `n` have width `n`. */
  lemma RowsFromMatrix(rows: Matrix, m: Matrix, n: nat)
    requires IsMatrix(m, n)
    requires forall i :: 0 <= i < |rows| ==> rows[i] in m
    ensures IsMatrix(rows, n)
  {
  }

  /** `StandardScaler().fit_transform` on the single objective column: None where sklearn
      raises (no rows), otherwise one value per row. */
  ghost predicate StandardizerShape(standardize: seq<real> -> Option<seq<real>>) {
    forall v: seq<real> ::
      && (standardize(v).Some? <==> |v| > 0)
      && (standardize(v).Some? ==> |standardize(v).value| == |v|)
  }

  /** A fitted DummyEncoder: `encode` is `fit_transform` on the stacked knob rows (the
      `totalDummies` one-hot columns first), `decode` is `inverse_transform` of one row,
      and `binaryVars` holds the positions of the binary knobs. */
  datatype Encoder = Encoder(
    encode: Matrix -> Matrix,
    decode: Row -> Row,
    width: nat,
    totalDummies: nat,
    binaryVars: set<nat>)

  /** The encoder turns `n`-column matrices into `width`-column ones, row for row. */
  ghost predicate EncoderShape(e: Encoder, n: nat) {
    forall m: Matrix {:trigger e.encode(m)} :: IsMatrix(m, n) ==> |e.encode(m)| == |m| && IsMatrix(e.encode(m), e.width)
  }

  // ---------------------------------------------------------------------------
  // Label checks, objective lookup, ranked-knob filter

  /** The mapped workload's cache is shaped and its knob and metric data describe the
      same rows. */
  predicate Cached(p: PipelineData) {
    Shaped(p) && |p.metricData| == |p.knobData|
  }

  /** The data the target is combined with: the mapped workload's cached data with its
      knob columns aligned to the catalog, or the target's own data when no workload
      is mapped. */
  function WorkloadSide(t: Dataset, mapped: bool, cache: PipelineData, catalog: seq<KnobEntry>,
                        parseFloat: string -> Option<real>): (w: Dataset)
    requires WellFormed(t) && Cached(cache)
    ensures WellFormed(w)
    ensures !mapped ==> w == t
    ensures mapped ==>
      && w.xLabels == Names(catalog)
      && w.xMatrix == Align.CleanKnobData(cache.knobData, cache.knobLabels, catalog, parseFloat).0
      && w.yMatrix == cache.metricData && w.yLabels == cache.metricLabels
      && w.rowLabels == cache.metricRows
  {
    if !mapped then t
    else
      var cleaned := Align.CleanKnobData(cache.knobData, cache.knobLabels, catalog, parseFloat);
      Dataset(cleaned.0, cleaned.1, cache.metricData, cache.metricLabels, cache.metricRows)
  }

  /** The one metric column labelled with the objective; the objective must label
      exactly one column. */
  function ObjectiveColumn(labels: seq<string>, objective: string): (r: Result<nat>)
    ensures r == Err(ObjectiveMissing) <==> objective !in labels
    ensures r.Ok? ==>
      && r.value < |labels| && labels[r.value] == objective
      && forall i :: 0 <= i < |labels| && labels[i] == objective ==> i == r.value
    ensures r.Err? && objective in labels ==>
      && r.error.ObjectiveDuplicated? && r.error.count >= 2
      && exists i, j :: 0 <= i < j < |labels| && labels[i] == objective && labels[j] == objective
  {
    var idxs := IndicesIn(labels, [objective]);
    if |idxs| == 0 then
      assert forall i :: 0 <= i < |labels| ==> labels[i] != objective;
      Err(ObjectiveMissing)
    else if |idxs| > 1 then
      assert labels[idxs[0]] == objective && labels[idxs[1]] == objective;
      Err(ObjectiveDuplicated(|idxs|))
    else
      Ok(idxs[0])
  }

  /** The knob columns kept when a workload is mapped: those whose label is among the
      first `k` ranked knobs, in their original order. */
  function RankedColumns(labels: seq<string>, ranked: seq<string>, k: int): (idxs: seq<nat>)
    ensures StrictlyIncreasing(idxs)
    ensures forall j :: 0 <= j < |idxs| ==> idxs[j] < |labels|
    ensures forall i :: 0 <= i < |labels| ==> (i in idxs <==> labels[i] in PyPrefix(ranked, k))
  {
    IndicesIn(labels, PyPrefix(ranked, k))
  }

  // ---------------------------------------------------------------------------
  // Cross de-duplication

  /** Positions of the workload rows that are not among the target's rows. */
  function UntriedRows(xW: Matrix, xT: Matrix): (idxs: seq<nat>)
    ensures StrictlyIncreasing(idxs)
    ensures forall k :: 0 <= k < |idxs| ==> idxs[k] < |xW| && xW[idxs[k]] !in xT
    ensures forall i :: 0 <= i < |xW| && xW[i] !in xT ==> i in idxs
    ensures (forall i :: 0 <= i < |xW| ==> xW[i] in xT) ==> idxs == []
  {
    if |xW| == 0 then []
    else
      var front := UntriedRows(xW[..|xW| - 1], xT);
      if xW[|xW| - 1] !in xT then front + [|xW| - 1] else front
  }

  /** The workload rows that survive the duplicate filter (positions `kept` of the
      input), with their metric rows and row labels kept in step. */
  datatype Survivors = Survivors(kept: seq<nat>, x: Matrix, y: Matrix, rowLabels: seq<string>)

  /** Drops every workload row the target has already tried. No survivor equals a
      target row, every untried row survives, and survivors keep their relative order
      with their metric rows and labels alongside. */
  function DropTriedRows(xW: Matrix, yW: Matrix, rlW: seq<string>, xT: Matrix): (r: Survivors)
    requires |yW| == |xW| && |rlW| == |xW|
    ensures StrictlyIncreasing(r.kept)
    ensures |r.x| == |r.kept| && |r.y| == |r.kept| && |r.rowLabels| == |r.kept|
    ensures forall k :: 0 <= k < |r.kept| ==>
      r.kept[k] < |xW| && r.x[k] == xW[r.kept[k]] && r.y[k] == yW[r.kept[k]] && r.rowLabels[k] == rlW[r.kept[k]]
    ensures forall k :: 0 <= k < |r.x| ==> r.x[k] !in xT
    ensures forall i :: 0 <= i < |xW| && xW[i] !in xT ==> i in r.kept
    ensures (forall i :: 0 <= i < |xW| ==> xW[i] in xT) ==> r.x == []
  {
    var keep := UntriedRows(xW, xT);
    Survivors(keep, Select(xW, keep), Select(yW, keep), Select(rlW, keep))
  }

  /** When the workload has no row in common with the target, nothing is dropped. */
  lemma {:induction false} DropNothingWhenDisjoint(xW: Matrix, yW: Matrix, rlW: seq<string>, xT: Matrix)
    requires |yW| == |xW| && |rlW| == |xW|
    requires forall i :: 0 <= i < |xW| ==> xW[i] !in xT
    ensures DropTriedRows(xW, yW, rlW, xT) == Survivors(Range(|xW|), xW, yW, rlW)
  {
    var keep := UntriedRows(xW, xT);
    AllUntried(xW, xT);
    assert Select(xW, keep) == xW;
    assert Select(yW, keep) == yW;
    assert Select(rlW, keep) == rlW;
  }

  lemma {:induction false} AllUntried(xW: Matrix, xT: Matrix)
    requires forall i :: 0 <= i < |xW| ==> xW[i] !in xT
    ensures UntriedRows(xW, xT) == Range(|xW|)
  {
    if |xW| > 0 {
      var n := |xW| - 1;
      var front := xW[..n];
      forall i | 0 <= i < |front|
        ensures front[i] !in xT
      {
        assert front[i] == xW[i];
      }
      AllUntried(front, xT);
      RangeGrows(n);
    }
  }

  /** One more position extends the range by that position. */
  lemma RangeGrows(n: nat)
    ensures Range(n) + [n] == Range(n + 1)
  {
    assert forall k :: 0 <= k < n + 1 ==> (Range(n) + [n])[k] == k;
  }

  // ---------------------------------------------------------------------------
  // Gathering the training rows

  /** The training rows before preprocessing: the kept knob labels, the target's merged
      rows and objective values, and the workload's merged rows the target has not
      tried, with their objective values and row labels. */
  datatype TrainingRows = TrainingRows(
    labels: seq<string>,
    targetX: Matrix,
    targetY: seq<real>,
    workloadX: Matrix,
    workloadY: seq<real>,
    workloadRowLabels: seq<string>)

  /** The knob labels trained on: narrowed to the ranked knobs when a workload is mapped,
      keeping the surviving labels in their original order. */
  function KeptLabels(labels: seq<string>, mapped: bool, ranked: seq<string>, k: int): (kept: seq<string>)
    ensures !mapped ==> kept == labels
    ensures mapped ==> forall l :: l in kept <==> l in labels && l in PyPrefix(ranked, k)
    ensures mapped ==>
      var cols := RankedColumns(labels, ranked, k);
      |kept| == |cols| && forall c :: 0 <= c < |cols| ==> kept[c] == labels[cols[c]]
  {
    if mapped then Select(labels, RankedColumns(labels, ranked, k)) else labels
  }

  /** A knob matrix narrowed the same way as its labels: kept column `c` is the input
      column that `KeptLabels` takes its `c`-th label from. */
  function KeptKnobs(m: Matrix, labels: seq<string>, mapped: bool, ranked: seq<string>, k: int): (r: Matrix)
    requires IsMatrix(m, |labels|)
    ensures |r| == |m| && IsMatrix(r, |KeptLabels(labels, mapped, ranked, k)|)
    ensures !mapped ==> r == m
    ensures mapped ==>
      var cols := RankedColumns(labels, ranked, k);
      forall i, c :: 0 <= i < |m| && 0 <= c < |cols| ==> r[i][c] == m[i][cols[c]]
  {
    if mapped then SelectColumns(m, RankedColumns(labels, ranked, k)) else m
  }

  /** Label checks, objective lookup, ranked-knob filter, merge and cross
      de-duplication: the part of combine_workload before the stacking. */
  function GatherRows(target: TargetData, cache: PipelineData, catalog: seq<KnobEntry>,
                      objective: string, importantKnobs: int, dedup: Dedup,
                      parseFloat: string -> Option<real>): (r: Result<TrainingRows>)
    requires WellFormed(target.data) && Cached(cache) && DedupShape(dedup)
    ensures
      var w := WorkloadSide(target.data, target.mappedWorkload.Some?, cache, catalog, parseFloat);
      && (w.xLabels != target.data.xLabels ==> r == Err(XLabelMismatch))
      && (w.xLabels == target.data.xLabels && w.yLabels != target.data.yLabels ==> r == Err(YLabelMismatch))
      && (w.xLabels == target.data.xLabels && w.yLabels == target.data.yLabels ==>
            && (objective !in target.data.yLabels ==> r == Err(ObjectiveMissing))
            && (r.Ok? <==> ObjectiveColumn(target.data.yLabels, objective).Ok?))
    ensures r.Ok? ==>
      && r.value.labels == KeptLabels(target.data.xLabels, target.mappedWorkload.Some?,
                                      cache.rankedKnobs, importantKnobs)
      && IsMatrix(r.value.targetX, |r.value.labels|)
      && IsMatrix(r.value.workloadX, |r.value.labels|)
      && |r.value.targetY| == |r.value.targetX|
      && |r.value.workloadY| == |r.value.workloadX|
      && |r.value.workloadRowLabels| == |r.value.workloadX|
    ensures r.Ok? && target.mappedWorkload.None? ==> r.value.workloadX == []
  {
    var t := target.data;
    var mapped := target.mappedWorkload.Some?;
    var w := WorkloadSide(t, mapped, cache, catalog, parseFloat);
    if w.xLabels != t.xLabels then Err(XLabelMismatch)
    else if w.yLabels != t.yLabels then Err(YLabelMismatch)
    else
      match ObjectiveColumn(t.yLabels, objective)
      case Err(e) => Err(e)
      case Ok(obj) =>
        var labels := KeptLabels(t.xLabels, mapped, cache.rankedKnobs, importantKnobs);
        var xW := KeptKnobs(w.xMatrix, t.xLabels, mapped, cache.rankedKnobs, importantKnobs);
        var xT := KeptKnobs(t.xMatrix, t.xLabels, mapped, cache.rankedKnobs, importantKnobs);
        var yW := ObjectiveRows(w, obj);
        var yT := ObjectiveRows(t, obj);
        Ok(MergeSides(labels, xT, yT, t.rowLabels, xW, yW, w.rowLabels, dedup))
  }

  /** No gathered workload row repeats a gathered target row, and every gathered target
      row is one of the target's knob rows narrowed to the kept columns. */
  lemma GatherRowsApart(target: TargetData, cache: PipelineData, catalog: seq<KnobEntry>,
                        objective: string, importantKnobs: int, dedup: Dedup,
                        parseFloat: string -> Option<real>)
    requires WellFormed(target.data) && Cached(cache) && DedupShape(dedup)
    requires GatherRows(target, cache, catalog, objective, importantKnobs, dedup, parseFloat).Ok?
    ensures
      var r := GatherRows(target, cache, catalog, objective, importantKnobs, dedup, parseFloat).value;
      && (forall i :: 0 <= i < |r.workloadX| ==> r.workloadX[i] !in r.targetX)
      && (forall i :: 0 <= i < |r.targetX| ==>
            r.targetX[i] in KeptKnobs(target.data.xMatrix, target.data.xLabels, target.mappedWorkload.Some?,
                                      cache.rankedKnobs, importantKnobs))
  {
  }

  /** The objective column of a metric matrix, as the one-column matrix the merge sees. */
  function ObjectiveRows(d: Dataset, obj: nat): (m: Matrix)
    requires WellFormed(d) && obj < |d.yLabels|
    ensures |m| == |d.yMatrix| && IsMatrix(m, 1)
    ensures forall i :: 0 <= i < |m| ==> m[i][0] == d.yMatrix[i][obj]
  {
    SelectColumns(d.yMatrix, [obj])
  }

  /** The training values GatherRows hands on come from the objective column alone: each
      side's metric rows are narrowed to that column before merging. The target keeps
      its merged values in merge order; the workload keeps exactly its untried merged
      rows, each with its own value; and every workload row is one of the workload's
      knob rows narrowed to the kept columns. */
  lemma GatherRowsObjective(target: TargetData, cache: PipelineData, catalog: seq<KnobEntry>,
                            objective: string, importantKnobs: int, dedup: Dedup,
                            parseFloat: string -> Option<real>)
    requires WellFormed(target.data) && Cached(cache) && DedupShape(dedup)
    requires GatherRows(target, cache, catalog, objective, importantKnobs, dedup, parseFloat).Ok?
    ensures
      var t := target.data;
      var mapped := target.mappedWorkload.Some?;
      var w := WorkloadSide(t, mapped, cache, catalog, parseFloat);
      var obj := ObjectiveColumn(t.yLabels, objective).value;
      var xT := KeptKnobs(t.xMatrix, t.xLabels, mapped, cache.rankedKnobs, importantKnobs);
      var xW := KeptKnobs(w.xMatrix, t.xLabels, mapped, cache.rankedKnobs, importantKnobs);
      var dt := dedup(xT, ObjectiveRows(t, obj), t.rowLabels);
      var dw := dedup(xW, ObjectiveRows(w, obj), w.rowLabels);
      var r := GatherRows(target, cache, catalog, objective, importantKnobs, dedup, parseFloat).value;
      && MergedFrom(dt, xT, ObjectiveRows(t, obj), 1)
      && MergedFrom(dw, xW, ObjectiveRows(w, obj), 1)
      && r.targetX == dt.0
      && r.targetY == Column(dt.1, 0)
      && MergedPairs(r.workloadX, r.workloadY, r.workloadRowLabels, dw)
      && KeepsUntried(r.workloadX, r.workloadY, dw, r.targetX)
      && forall i :: 0 <= i < |r.workloadX| ==> r.workloadX[i] in xW
  {
    var t := target.data;
    var mapped := target.mappedWorkload.Some?;
    var w := WorkloadSide(t, mapped, cache, catalog, parseFloat);
    var obj := ObjectiveColumn(t.yLabels, objective).value;
    var labels := KeptLabels(t.xLabels, mapped, cache.rankedKnobs, importantKnobs);
    var xT := KeptKnobs(t.xMatrix, t.xLabels, mapped, cache.rankedKnobs, importantKnobs);
    var xW := KeptKnobs(w.xMatrix, t.xLabels, mapped, cache.rankedKnobs, importantKnobs);
    assert GatherRows(target, cache, catalog, objective, importantKnobs, dedup, parseFloat).value ==
      MergeSides(labels, xT, ObjectiveRows(t, obj), t.rowLabels, xW, ObjectiveRows(w, obj), w.rowLabels, dedup);
    MergeSidesObjective(labels, xT, ObjectiveRows(t, obj), t.rowLabels, xW, ObjectiveRows(w, obj), w.rowLabels, dedup);
  }

  /** A merge that changes nothing, as combine_duplicate_rows does on rows without
      duplicates. */
  ghost predicate MergesNothing(dedup: Dedup) {
    forall x: Matrix, y: Matrix, rl: seq<string> :: dedup(x, y, rl) == (x, y, rl)
  }

  /** Without duplicate rows to merge, the target trains on its own objective
      measurements, row for row. */
  lemma TargetValuesWithoutMerging(target: TargetData, cache: PipelineData, catalog: seq<KnobEntry>,
                                   objective: string, importantKnobs: int, dedup: Dedup,
                                   parseFloat: string -> Option<real>)
    requires WellFormed(target.data) && Cached(cache) && DedupShape(dedup) && MergesNothing(dedup)
    requires GatherRows(target, cache, catalog, objective, importantKnobs, dedup, parseFloat).Ok?
    ensures
      var t := target.data;
      var obj := ObjectiveColumn(t.yLabels, objective).value;
      var r := GatherRows(target, cache, catalog, objective, importantKnobs, dedup, parseFloat).value;
      && |r.targetY| == |t.yMatrix|
      && forall i :: 0 <= i < |t.yMatrix| ==> r.targetY[i] == t.yMatrix[i][obj]
  {
    var t := target.data;
    var mapped := target.mappedWorkload.Some?;
    var obj := ObjectiveColumn(t.yLabels, objective).value;
    var xT := KeptKnobs(t.xMatrix, t.xLabels, mapped, cache.rankedKnobs, importantKnobs);
    GatherRowsObjective(target, cache, catalog, objective, importantKnobs, dedup, parseFloat);
    var dt := dedup(xT, ObjectiveRows(t, obj), t.rowLabels);
    assert dt == (xT, ObjectiveRows(t, obj), t.rowLabels);
  }

  /** Without duplicate rows to merge, every workload row trains on the workload's own
      objective measurement of that row, under that row's label. */
  lemma WorkloadValuesWithoutMerging(target: TargetData, cache: PipelineData, catalog: seq<KnobEntry>,
                                     objective: string, importantKnobs: int, dedup: Dedup,
                                     parseFloat: string -> Option<real>)
    requires WellFormed(target.data) && Cached(cache) && DedupShape(dedup) && MergesNothing(dedup)
    requires GatherRows(target, cache, catalog, objective, importantKnobs, dedup, parseFloat).Ok?
    ensures
      var t := target.data;
      var w := WorkloadSide(t, target.mappedWorkload.Some?, cache, catalog, parseFloat);
      var obj := ObjectiveColumn(t.yLabels, objective).value;
      var r := GatherRows(target, cache, catalog, objective, importantKnobs, dedup, parseFloat).value;
      MeasuredValues(r.workloadY, r.workloadRowLabels, w, obj)
  {
    var t := target.data;
    var mapped := target.mappedWorkload.Some?;
    var w := WorkloadSide(t, mapped, cache, catalog, parseFloat);
    var obj := ObjectiveColumn(t.yLabels, objective).value;
    var xW := KeptKnobs(w.xMatrix, t.xLabels, mapped, cache.rankedKnobs, importantKnobs);
    var labels := KeptLabels(t.xLabels, mapped, cache.rankedKnobs, importantKnobs);
    var xT := KeptKnobs(t.xMatrix, t.xLabels, mapped, cache.rankedKnobs, importantKnobs);
    var yW := ObjectiveRows(w, obj);
    var r := MergeSides(labels, xT, ObjectiveRows(t, obj), t.rowLabels, xW, yW, w.rowLabels, dedup);
    assert GatherRows(target, cache, catalog, objective, importantKnobs, dedup, parseFloat).value == r;
    MergeSidesObjective(labels, xT, ObjectiveRows(t, obj), t.rowLabels, xW, yW, w.rowLabels, dedup);
    assert dedup(xW, yW, w.rowLabels) == (xW, yW, w.rowLabels);
    UnmergedPairs(r.workloadX, r.workloadY, r.workloadRowLabels, xW, w, obj);
  }

  /** Each value in `ys`, labelled `rl`, is the objective value measured on a row of `d`
      and carries that row's label. */
  predicate MeasuredValues(ys: seq<real>, rl: seq<string>, d: Dataset, obj: nat)
    requires WellFormed(d) && obj < |d.yLabels|
  {
    && |rl| == |ys|
    && forall k :: 0 <= k < |ys| ==> MeasuredAt(ys, rl, d, obj, k)
  }

  /** Value `k` of `ys`, labelled `rl[k]`, is the objective value measured on some row of `d`. */
  predicate MeasuredAt(ys: seq<real>, rl: seq<string>, d: Dataset, obj: nat, k: nat)
    requires WellFormed(d) && obj < |d.yLabels| && k < |ys| && |rl| == |ys|
  {
    exists j :: 0 <= j < |d.yMatrix| && ys[k] == d.yMatrix[j][obj] && rl[k] == d.rowLabels[j]
  }

  /** Rows paired with an unmerged objective column carry measured objective values
      and their own row labels. */
  lemma UnmergedPairs(xs: Matrix, ys: seq<real>, rl: seq<string>, x: Matrix, d: Dataset, obj: nat)
    requires WellFormed(d) && obj < |d.yLabels| && |x| == |d.yMatrix|
    requires MergedPairs(xs, ys, rl, (x, ObjectiveRows(d, obj), d.rowLabels))
    ensures MeasuredValues(ys, rl, d, obj)
  {
    var m := ObjectiveRows(d, obj);
    forall k | 0 <= k < |ys|
      ensures MeasuredAt(ys, rl, d, obj, k)
    {
      var merged := (x, m, d.rowLabels);
      var j :| 0 <= j < |merged.0| && xs[k] == merged.0[j] && ys[k] == merged.1[j][0] && rl[k] == merged.2[j];
      assert 0 <= j < |d.yMatrix| && ys[k] == d.yMatrix[j][obj] && rl[k] == d.rowLabels[j];
    }
  }

  /** Every row of `xs`, with its value in `ys` and its label in `rl`, is a row of the
      merge `merged` with its objective value (the merged metric row's only column). */
  predicate MergedPairs(xs: Matrix, ys: seq<real>, rl: seq<string>, merged: (Matrix, Matrix, seq<string>))
    requires IsMatrix(merged.1, 1) && |merged.1| == |merged.0| && |merged.2| == |merged.0|
  {
    && |ys| == |xs| && |rl| == |xs|
    && forall k :: 0 <= k < |xs| ==>
         exists j :: 0 <= j < |merged.0| && xs[k] == merged.0[j] && ys[k] == merged.1[j][0] && rl[k] == merged.2[j]
  }

  /** Every row of the merge `merged` that is not among `tried` is in `xs`, with its
      objective value alongside in `ys`. */
  predicate KeepsUntried(xs: Matrix, ys: seq<real>, merged: (Matrix, Matrix, seq<string>), tried: Matrix)
    requires IsMatrix(merged.1, 1) && |merged.1| == |merged.0|
  {
    && |ys| == |xs|
    && forall j :: 0 <= j < |merged.0| && merged.0[j] !in tried ==>
         exists k :: 0 <= k < |xs| && xs[k] == merged.0[j] && ys[k] == merged.1[j][0]
  }

  /** Merges duplicate rows on each side separately, then drops the workload rows the
      target has tried. The target's training rows are its merged rows with their
      objective values; the workload's are exactly its merged rows the target has not
      tried, with their objective values and row labels (see `MergeSidesObjective`).
      Merging the target with an identical copy of itself leaves no workload row. */
  function MergeSides(labels: seq<string>, xT: Matrix, yT: Matrix, rlT: seq<string>,
                      xW: Matrix, yW: Matrix, rlW: seq<string>, dedup: Dedup): (r: TrainingRows)
    requires IsMatrix(xT, |labels|) && IsMatrix(xW, |labels|) && IsMatrix(yT, 1) && IsMatrix(yW, 1)
    requires |yT| == |xT| && |rlT| == |xT| && |yW| == |xW| && |rlW| == |xW|
    requires DedupShape(dedup)
    ensures r.labels == labels
    ensures IsMatrix(r.targetX, |labels|) && IsMatrix(r.workloadX, |labels|)
    ensures |r.targetY| == |r.targetX| && |r.workloadY| == |r.workloadX|
    ensures |r.workloadRowLabels| == |r.workloadX|
    ensures forall i :: 0 <= i < |r.workloadX| ==> r.workloadX[i] !in r.targetX
    ensures forall i :: 0 <= i < |r.targetX| ==> r.targetX[i] in xT
    ensures forall i :: 0 <= i < |r.workloadX| ==> r.workloadX[i] in xW
    ensures xW == xT && yW == yT && rlW == rlT ==> r.workloadX == []
  {
    var dw := dedup(xW, yW, rlW);
    var dt := dedup(xT, yT, rlT);
    assert MergedFrom(dw, xW, yW, 1) && MergedFrom(dt, xT, yT, 1);
    RowsFromMatrix(dw.0, xW, |labels|);
    RowsFromMatrix(dt.0, xT, |labels|);
    var s := DropTriedRows(dw.0, dw.1, dw.2, dt.0);
    TrainingRows(labels, dt.0, Column(dt.1, 0), s.x, Column(s.y, 0), s.rowLabels)
  }

  /** The training values MergeSides keeps are objective values: the target's are its
      merged rows' values in merge order, and the workload's are exactly its merged
      rows the target has not tried, each with its own value and row label. */
  /** What MergeSides trains on: the target's merged rows and objective values in merge
      order, and workload rows that are merged workload rows with their own values and
      labels, among them every merged row the target has not tried. */
  lemma MergeSidesObjective(labels: seq<string>, xT: Matrix, yT: Matrix, rlT: seq<string>,
                            xW: Matrix, yW: Matrix, rlW: seq<string>, dedup: Dedup)
    requires IsMatrix(xT, |labels|) && IsMatrix(xW, |labels|) && IsMatrix(yT, 1) && IsMatrix(yW, 1)
    requires |yT| == |xT| && |rlT| == |xT| && |yW| == |xW| && |rlW| == |xW|
    requires DedupShape(dedup)
    ensures MergedFrom(dedup(xT, yT, rlT), xT, yT, 1) && MergedFrom(dedup(xW, yW, rlW), xW, yW, 1)
    ensures
      var r := MergeSides(labels, xT, yT, rlT, xW, yW, rlW, dedup);
      && r.targetX == dedup(xT, yT, rlT).0
      && r.targetY == Column(dedup(xT, yT, rlT).1, 0)
      && MergedPairs(r.workloadX, r.workloadY, r.workloadRowLabels, dedup(xW, yW, rlW))
      && KeepsUntried(r.workloadX, r.workloadY, dedup(xW, yW, rlW), r.targetX)
  {
    var dw := dedup(xW, yW, rlW);
    var dt := dedup(xT, yT, rlT);
    assert MergedFrom(dw, xW, yW, 1) && MergedFrom(dt, xT, yT, 1);
    SurvivorsArePairs(dw, dt.0);
    UntriedSurvive(dw, dt.0);
  }

  /** The rows surviving the duplicate filter are merged rows, each with its objective
      value and row label. */
  lemma SurvivorsArePairs(merged: (Matrix, Matrix, seq<string>), tried: Matrix)
    requires IsMatrix(merged.1, 1) && |merged.1| == |merged.0| && |merged.2| == |merged.0|
    ensures
      var s := DropTriedRows(merged.0, merged.1, merged.2, tried);
      MergedPairs(s.x, Column(s.y, 0), s.rowLabels, merged)
  {
    var s := DropTriedRows(merged.0, merged.1, merged.2, tried);
    var ys := Column(s.y, 0);
    forall k | 0 <= k < |s.x|
      ensures s.x[k] == merged.0[s.kept[k]] && ys[k] == merged.1[s.kept[k]][0] && s.rowLabels[k] == merged.2[s.kept[k]]
    {
    }
  }

  /** Every merged row the target has not tried survives the duplicate filter with its
      objective value. */
  lemma UntriedSurvive(merged: (Matrix, Matrix, seq<string>), tried: Matrix)
    requires IsMatrix(merged.1, 1) && |merged.1| == |merged.0| && |merged.2| == |merged.0|
    ensures
      var s := DropTriedRows(merged.0, merged.1, merged.2, tried);
      KeepsUntried(s.x, Column(s.y, 0), merged, tried)
  {
    var s := DropTriedRows(merged.0, merged.1, merged.2, tried);
    var ys := Column(s.y, 0);
    forall j | 0 <= j < |merged.0| && merged.0[j] !in tried
      ensures exists k :: 0 <= k < |s.x| && s.x[k] == merged.0[j] && ys[k] == merged.1[j][0]
    {
      var k :| 0 <= k < |s.kept| && s.kept[k] == j;
      assert s.x[k] == merged.0[j];
    }
  }

  // ---------------------------------------------------------------------------
  // Objective scaling and search bounds

  /** The standardised objective: one scaler over target and workload together while the
      target has fewer than 5 rows, otherwise one for each side, falling back to the
      target's rows alone when the workload side cannot be scaled (it has no rows). */
  function ScaledObjective(yT: seq<real>, yW: seq<real>,
                           standardize: seq<real> -> Option<seq<real>>): (r: Option<seq<real>>)
    requires StandardizerShape(standardize)
    ensures r.Some? <==> |yT| + |yW| > 0
    ensures r.Some? ==> |r.value| == |yT| + |yW|
    ensures |yT| < 5 ==> r == standardize(yT + yW)
    ensures |yT| >= 5 && |yW| > 0 ==> r == Some(standardize(yT).value + standardize(yW).value)
    ensures |yT| >= 5 && |yW| == 0 ==> r == standardize(yT)
  {
    if |yT| < 5 then standardize(yT + yW)
    else
      match (standardize(yT), standardize(yW))
      case (Some(a), Some(b)) => Some(a + b)
      case _ => standardize(yT)
  }

  /** The smallest value of column `j`. */
  function ColumnMin(m: Matrix, j: nat): (lo: real)
    requires |m| > 0 && forall i :: 0 <= i < |m| ==> j < |m[i]|
    ensures forall i :: 0 <= i < |m| ==> lo <= m[i][j]
    ensures exists i :: 0 <= i < |m| && lo == m[i][j]
  {
    if |m| == 1 then m[0][j]
    else
      var rest := ColumnMin(m[1..], j);
      assert forall i :: 1 <= i < |m| ==> m[i] == m[1..][i - 1];
      if m[0][j] <= rest then m[0][j] else rest
  }

  /** The largest value of column `j`. */
  function ColumnMax(m: Matrix, j: nat): (hi: real)
    requires |m| > 0 && forall i :: 0 <= i < |m| ==> j < |m[i]|
    ensures forall i :: 0 <= i < |m| ==> m[i][j] <= hi
    ensures exists i :: 0 <= i < |m| && hi == m[i][j]
  {
    if |m| == 1 then m[0][j]
    else
      var rest := ColumnMax(m[1..], j);
      assert forall i :: 1 <= i < |m| ==> m[i] == m[1..][i - 1];
      if m[0][j] >= rest then m[0][j] else rest
  }

  /** Column `i` is one of the encoder's one-hot or binary columns. */
  predicate EncodedColumn(i: nat, dummies: nat, binary: set<nat>) {
    i < dummies || i in binary
  }

  /** The search bounds of scaled column `i`: [0, 1] for one-hot and binary columns;
      otherwise the scaled declared range of the last catalog knob carrying the
      column's label, or the observed range of the column when no knob carries it.
      Taking the minimum of no rows raises, and so does reading a label past the end
      of the labels while the catalog is not empty. */
  function ColumnBounds(xScaled: Matrix, width: nat, labels: seq<string>, catalog: seq<KnobEntry>,
                        scaler: Scaler, dummies: nat, binary: set<nat>, i: nat): (r: Result<(real, real)>)
    requires IsMatrix(xScaled, width) && ValidScaler(scaler, width) && i < width
    ensures EncodedColumn(i, dummies, binary) ==> r == Ok((0.0, 1.0))
    ensures !EncodedColumn(i, dummies, binary) && |xScaled| == 0 ==> r == Err(EmptyArray)
    ensures !EncodedColumn(i, dummies, binary) && |xScaled| > 0 && |catalog| > 0 && i >= |labels| ==>
      r == Err(IndexOutOfRange)
    ensures r.Ok? && !EncodedColumn(i, dummies, binary) && i < |labels| && labels[i] in Names(catalog) ==>
      var k := catalog[LastIndexOf(Names(catalog), labels[i]).value];
      r.value == (ScaleCell(scaler, i, k.minval), ScaleCell(scaler, i, k.maxval))
    ensures r.Ok? && !EncodedColumn(i, dummies, binary) && !(i < |labels| && labels[i] in Names(catalog)) ==>
      && (forall row :: 0 <= row < |xScaled| ==> r.value.0 <= xScaled[row][i] <= r.value.1)
      && (exists row :: 0 <= row < |xScaled| && xScaled[row][i] == r.value.0)
      && (exists row :: 0 <= row < |xScaled| && xScaled[row][i] == r.value.1)
  {
    if EncodedColumn(i, dummies, binary) then Ok((0.0, 1.0))
    else if |xScaled| == 0 then Err(EmptyArray)
    else if |catalog| > 0 && i >= |labels| then Err(IndexOutOfRange)
    else if i < |labels| && labels[i] in Names(catalog) then
      var k := catalog[LastIndexOf(Names(catalog), labels[i]).value];
      Ok((ScaleCell(scaler, i, k.minval), ScaleCell(scaler, i, k.maxval)))
    else
      Ok((ColumnMin(xScaled, i), ColumnMax(xScaled, i)))
  }

  /** The bounds of the first `n` columns, computed left to right; the first column that
      raises decides the error. */
  function Bounds(xScaled: Matrix, width: nat, labels: seq<string>, catalog: seq<KnobEntry>,
                  scaler: Scaler, dummies: nat, binary: set<nat>, n: nat): (r: Result<(Row, Row)>)
    requires IsMatrix(xScaled, width) && ValidScaler(scaler, width) && n <= width
    ensures r.Ok? <==> forall i :: 0 <= i < n ==>
      ColumnBounds(xScaled, width, labels, catalog, scaler, dummies, binary, i).Ok?
    ensures r.Ok? ==>
      && |r.value.0| == n && |r.value.1| == n
      && forall i :: 0 <= i < n ==>
           (r.value.0[i], r.value.1[i]) == ColumnBounds(xScaled, width, labels, catalog, scaler, dummies, binary, i).value
    ensures r.Err? ==>
      exists i ::
        && 0 <= i < n
        && ColumnBounds(xScaled, width, labels, catalog, scaler, dummies, binary, i) == Err(r.error)
        && forall j :: 0 <= j < i ==> ColumnBounds(xScaled, width, labels, catalog, scaler, dummies, binary, j).Ok?
  {
    if n == 0 then Ok(([], []))
    else
      match Bounds(xScaled, width, labels, catalog, scaler, dummies, binary, n - 1)
      case Err(e) => Err(e)
      case Ok(b) =>
        match ColumnBounds(xScaled, width, labels, catalog, scaler, dummies, binary, n - 1)
        case Err(e) => Err(e)
        case Ok(c) => Ok((b.0 + [c.0], b.1 + [c.1]))
  }

  /** Every column's lower bound is at most its upper bound, provided every catalog knob
      declares `minval <= maxval`. */
  lemma {:induction false} BoundsOrdered(xScaled: Matrix, width: nat, labels: seq<string>,
                                         catalog: seq<KnobEntry>, scaler: Scaler, dummies: nat,
                                         binary: set<nat>)
    requires IsMatrix(xScaled, width) && ValidScaler(scaler, width)
    requires forall k :: 0 <= k < |catalog| ==> catalog[k].minval <= catalog[k].maxval
    requires Bounds(xScaled, width, labels, catalog, scaler, dummies, binary, width).Ok?
    ensures
      var b := Bounds(xScaled, width, labels, catalog, scaler, dummies, binary, width).value;
      forall i :: 0 <= i < width ==> b.0[i] <= b.1[i]
  {
    var b := Bounds(xScaled, width, labels, catalog, scaler, dummies, binary, width).value;
    forall i | 0 <= i < width
      ensures b.0[i] <= b.1[i]
    {
      var c := ColumnBounds(xScaled, width, labels, catalog, scaler, dummies, binary, i);
      if !EncodedColumn(i, dummies, binary) {
        if i < |labels| && labels[i] in Names(catalog) {
          var k := catalog[LastIndexOf(Names(catalog), labels[i]).value];
          ScaleMonotone(scaler, i, k.minval, k.maxval);
        } else {
          assert c.value.0 <= xScaled[0][i] <= c.value.1;
        }
      }
    }
  }

  // ---------------------------------------------------------------------------
  // combine_workload

  /** What combine_workload hands the recommender (the constraint helper's inputs are
      the scaler, the encoder and its binary columns). `stacked` is the knob matrix
      before encoding, the target's `targetCount` rows first. */
  datatype Combined = Combined(
    xLabels: seq<string>,
    stacked: Matrix,
    targetCount: nat,
    scaler: Scaler,
    xScaled: Matrix,
    yScaled: seq<real>,
    xMin: Row,
    xMax: Row,
    encoder: Option<Encoder>)

  /** Width of the scaled knob matrix: the encoder's output width, or the `n` knob columns. */
  function EncodedWidth(n: nat, encoder: Option<Encoder>): nat {
    if encoder.Some? then encoder.value.width else n
  }

  /** The stacked knob rows, dummy-encoded when an encoder is configured, then
      standardised by a scaler fitted on them; fitting on no rows or no columns raises. */
  function ScaleKnobs(stacked: Matrix, n: nat, encoder: Option<Encoder>,
                      fitX: Matrix -> Scaler): (r: Result<(Scaler, Matrix)>)
    requires IsMatrix(stacked, n) && ScalerFits(fitX)
    requires encoder.Some? ==> EncoderShape(encoder.value, n)
    ensures r.Err? <==> |stacked| == 0 || EncodedWidth(n, encoder) == 0
    ensures r.Err? ==> r.error == EmptyArray
    ensures r.Ok? ==>
      && ValidScaler(r.value.0, EncodedWidth(n, encoder))
      && |r.value.1| == |stacked| && IsMatrix(r.value.1, EncodedWidth(n, encoder))
    ensures r.Ok? && encoder.None? ==>
      forall i, j :: 0 <= i < |stacked| && 0 <= j < n ==>
        r.value.1[i][j] == ScaleCell(r.value.0, j, stacked[i][j])
  {
    var width := EncodedWidth(n, encoder);
    var encoded := if encoder.Some? then encoder.value.encode(stacked) else stacked;
    assert IsMatrix(encoded, width) && |encoded| == |stacked|;
    if |encoded| == 0 || width == 0 then Err(EmptyArray)
    else
      var scaler := fitX(encoded);
      Ok((scaler, ScaleMatrix(scaler, encoded, width)))
  }

  /** The objective turned into a loss to minimise: negated when more is better. */
  function Oriented(ys: seq<real>, lessIsBetter: bool): (r: seq<real>)
    ensures |r| == |ys|
    ensures forall i :: 0 <= i < |ys| ==> r[i] == (if lessIsBetter then ys[i] else -ys[i])
  {
    if lessIsBetter then ys else seq(|ys|, i requires 0 <= i < |ys| => -ys[i])
  }

  /** The bounds of every scaled column, with the encoder's one-hot and binary columns
      (none without an encoder) pinned to [0, 1]. */
  function EncodedBounds(xScaled: Matrix, width: nat, labels: seq<string>, catalog: seq<KnobEntry>,
                         scaler: Scaler, encoder: Option<Encoder>): (r: Result<(Row, Row)>)
    requires IsMatrix(xScaled, width) && ValidScaler(scaler, width)
    ensures r.Ok? ==> |r.value.0| == width && |r.value.1| == width
    ensures r.Ok? && encoder.Some? ==>
      forall i :: 0 <= i < width && EncodedColumn(i, encoder.value.totalDummies, encoder.value.binaryVars) ==>
        r.value.0[i] == 0.0 && r.value.1[i] == 1.0
    ensures r.Ok? && encoder.None? ==>
      forall j :: 0 <= j < width && j < |labels| && labels[j] in Names(catalog) ==>
        var k := catalog[LastIndexOf(Names(catalog), labels[j]).value];
        r.value.0[j] == ScaleCell(scaler, j, k.minval) && r.value.1[j] == ScaleCell(scaler, j, k.maxval)
  {
    var dummies := if encoder.Some? then encoder.value.totalDummies else 0;
    var binary := if encoder.Some? then encoder.value.binaryVars else {};
    Bounds(xScaled, width, labels, catalog, scaler, dummies, binary, width)
  }

  /** The objective oriented for minimisation and the bounds of every column, put
      together with the scaled knob matrix. */
  function Assemble(labels: seq<string>, stacked: Matrix, targetCount: nat, scaler: Scaler,
                    xScaled: Matrix, ys: seq<real>, catalog: seq<KnobEntry>, lessIsBetter: bool,
                    encoder: Option<Encoder>): (r: Result<Combined>)
    requires IsMatrix(xScaled, EncodedWidth(|labels|, encoder))
    requires ValidScaler(scaler, EncodedWidth(|labels|, encoder))
    requires |ys| == |xScaled|
    ensures r.Ok? ==>
      && r.value.xLabels == labels && r.value.stacked == stacked && r.value.targetCount == targetCount
      && r.value.scaler == scaler && r.value.xScaled == xScaled && r.value.encoder == encoder
      && r.value.yScaled == Oriented(ys, lessIsBetter)
      && |r.value.xMin| == EncodedWidth(|labels|, encoder)
    ensures r.Ok? ==> Trainable(r.value)
    ensures r.Ok? ==> EncoderBounded(r.value)
    ensures r.Ok? && encoder.None? ==> CatalogBounded(r.value, catalog)
  {
    var width := EncodedWidth(|labels|, encoder);
    match EncodedBounds(xScaled, width, labels, catalog, scaler, encoder)
    case Err(e) => Err(e)
    case Ok(b) =>
      Ok(Combined(labels, stacked, targetCount, scaler, xScaled, Oriented(ys, lessIsBetter), b.0, b.1, encoder))
  }

  /** Stacking, encoding, scaling and bounds: the part of combine_workload after the
      de-duplication. */
  function Preprocess(rows: TrainingRows, catalog: seq<KnobEntry>, lessIsBetter: bool,
                      encoder: Option<Encoder>, fitX: Matrix -> Scaler,
                      standardize: seq<real> -> Option<seq<real>>): (r: Result<Combined>)
    requires IsMatrix(rows.targetX, |rows.labels|) && IsMatrix(rows.workloadX, |rows.labels|)
    requires |rows.targetY| == |rows.targetX| && |rows.workloadY| == |rows.workloadX|
    requires ScalerFits(fitX) && StandardizerShape(standardize)
    requires encoder.Some? ==> EncoderShape(encoder.value, |rows.labels|)
    ensures |rows.targetX| + |rows.workloadX| == 0 ==> r == Err(EmptyArray)
    ensures r.Ok? ==>
      && r.value.xLabels == rows.labels && r.value.encoder == encoder
      && r.value.stacked == rows.targetX + rows.workloadX && r.value.targetCount == |rows.targetX|
      && |r.value.xScaled| == |r.value.stacked| == |r.value.yScaled|
      && 0 < |r.value.stacked| && r.value.targetCount <= |r.value.stacked|
      && |r.value.xMin| == EncodedWidth(|rows.labels|, encoder)
    ensures r.Ok? ==> Trainable(r.value)
    ensures r.Ok? ==> EncoderBounded(r.value)
    ensures r.Ok? && encoder.None? ==> CatalogBounded(r.value, catalog)
  {
    match ScaledStack(rows, encoder, fitX)
    case Err(e) => Err(e)
    case Ok(scaled) =>
      WithObjective(rows, scaled.0, scaled.1, catalog, lessIsBetter, encoder, standardize)
  }

  /** The target's rows stacked over the workload's, encoded and scaled (`ScaleKnobs`). */
  function ScaledStack(rows: TrainingRows, encoder: Option<Encoder>, fitX: Matrix -> Scaler)
    : (r: Result<(Scaler, Matrix)>)
    requires IsMatrix(rows.targetX, |rows.labels|) && IsMatrix(rows.workloadX, |rows.labels|)
    requires ScalerFits(fitX)
    requires encoder.Some? ==> EncoderShape(encoder.value, |rows.labels|)
    ensures |rows.targetX| + |rows.workloadX| == 0 ==> r == Err(EmptyArray)
    ensures r.Ok? ==>
      && ValidScaler(r.value.0, EncodedWidth(|rows.labels|, encoder))
      && |r.value.1| == |rows.targetX| + |rows.workloadX|
      && IsMatrix(r.value.1, EncodedWidth(|rows.labels|, encoder))
  {
    StackIsMatrix(rows.targetX, rows.workloadX, |rows.labels|);
    ScaleKnobs(rows.targetX + rows.workloadX, |rows.labels|, encoder, fitX)
  }

  /** The scaled knob matrix of a preprocessed result is the stacked rows encoded and
      standardised, and its objective is the standardised objective, oriented. */
  lemma PreprocessScales(rows: TrainingRows, catalog: seq<KnobEntry>, lessIsBetter: bool,
                         encoder: Option<Encoder>, fitX: Matrix -> Scaler,
                         standardize: seq<real> -> Option<seq<real>>)
    requires IsMatrix(rows.targetX, |rows.labels|) && IsMatrix(rows.workloadX, |rows.labels|)
    requires |rows.targetY| == |rows.targetX| && |rows.workloadY| == |rows.workloadX|
    requires ScalerFits(fitX) && StandardizerShape(standardize)
    requires encoder.Some? ==> EncoderShape(encoder.value, |rows.labels|)
    requires Preprocess(rows, catalog, lessIsBetter, encoder, fitX, standardize).Ok?
    ensures
      var c := Preprocess(rows, catalog, lessIsBetter, encoder, fitX, standardize).value;
      && IsMatrix(c.stacked, |rows.labels|)
      && ScaleKnobs(c.stacked, |rows.labels|, encoder, fitX) == Ok((c.scaler, c.xScaled))
      && c.yScaled == Oriented(ScaledObjective(rows.targetY, rows.workloadY, standardize).value, lessIsBetter)
  {
    StackIsMatrix(rows.targetX, rows.workloadX, |rows.labels|);
  }

  /** The stage after scaling the knobs: scale the objective, then assemble. */
  function WithObjective(rows: TrainingRows, scaler: Scaler, xScaled: Matrix,
                         catalog: seq<KnobEntry>, lessIsBetter: bool, encoder: Option<Encoder>,
                         standardize: seq<real> -> Option<seq<real>>): (r: Result<Combined>)
    requires |rows.targetY| == |rows.targetX| && |rows.workloadY| == |rows.workloadX|
    requires |rows.targetX| + |rows.workloadX| == |xScaled| > 0
    requires IsMatrix(xScaled, EncodedWidth(|rows.labels|, encoder))
    requires ValidScaler(scaler, EncodedWidth(|rows.labels|, encoder))
    requires StandardizerShape(standardize)
    ensures r.Ok? ==>
      && r.value.xLabels == rows.labels && r.value.encoder == encoder
      && r.value.stacked == rows.targetX + rows.workloadX && r.value.targetCount == |rows.targetX|
      && |r.value.xScaled| == |r.value.stacked| == |r.value.yScaled|
      && 0 < |r.value.stacked| && r.value.targetCount <= |r.value.stacked|
      && |r.value.xMin| == EncodedWidth(|rows.labels|, encoder)
    ensures r.Ok? ==>
      && r.value.scaler == scaler && r.value.xScaled == xScaled
      && r.value.yScaled == Oriented(ScaledObjective(rows.targetY, rows.workloadY, standardize).value, lessIsBetter)
    ensures r.Ok? ==> Trainable(r.value)
    ensures r.Ok? ==> EncoderBounded(r.value)
    ensures r.Ok? && encoder.None? ==> CatalogBounded(r.value, catalog)
  {
    match ScaledObjective(rows.targetY, rows.workloadY, standardize)
    case None => Err(EmptyArray)
    case Some(ys) =>
      Assemble(rows.labels, rows.targetX + rows.workloadX, |rows.targetX|, scaler, xScaled, ys, catalog,
               lessIsBetter, encoder)
  }

  /** The shape the recommender relies on: bounds and scaler as wide as the scaled
      matrix, one objective value per row, and one label per column when there is no
      encoder. */
  predicate Trainable(c: Combined) {
    && |c.xMax| == |c.xMin|
    && ValidScaler(c.scaler, |c.xMin|)
    && IsMatrix(c.xScaled, |c.xMin|)
    && |c.yScaled| == |c.xScaled|
    && (c.encoder.None? ==> |c.xLabels| == |c.xMin|)
  }

  /** Every column labelled with a catalog knob is bounded by that knob's declared
      range, scaled (the last catalog entry of the name decides). */
  predicate CatalogBounded(c: Combined, catalog: seq<KnobEntry>)
    requires Trainable(c)
  {
    forall j :: 0 <= j < |c.xMin| && j < |c.xLabels| && c.xLabels[j] in Names(catalog) ==>
      var k := catalog[LastIndexOf(Names(catalog), c.xLabels[j]).value];
      c.xMin[j] == ScaleCell(c.scaler, j, k.minval) && c.xMax[j] == ScaleCell(c.scaler, j, k.maxval)
  }

  /** The encoder's one-hot and binary columns are searched within [0, 1]. */
  predicate EncoderBounded(c: Combined) {
    c.encoder.Some? ==>
      forall i :: 0 <= i < |c.xMin| && i < |c.xMax| &&
                  EncodedColumn(i, c.encoder.value.totalDummies, c.encoder.value.binaryVars) ==>
        c.xMin[i] == 0.0 && c.xMax[i] == 1.0
  }

  /** The library routines combine_workload relies on. */
  datatype Library = Library(
    dedup: Dedup,
    fitX: Matrix -> Scaler,
    standardize: seq<real> -> Option<seq<real>>,
    parseFloat: string -> Option<real>)

  ghost predicate LibraryShape(lib: Library) {
    DedupShape(lib.dedup) && ScalerFits(lib.fitX) && StandardizerShape(lib.standardize)
  }

  /** What combine_workload needs of its inputs: well-formed target data and cache, the
      library's shape contracts, and an encoder built for the kept knob columns. */
  ghost predicate CombineInputs(target: TargetData, cache: PipelineData, importantKnobs: int,
                                encoder: Option<Encoder>, lib: Library) {
    && WellFormed(target.data) && Cached(cache) && LibraryShape(lib)
    && (encoder.Some? ==>
          EncoderShape(encoder.value, |KeptLabels(target.data.xLabels, target.mappedWorkload.Some?,
                                                  cache.rankedKnobs, importantKnobs)|))
  }

  /** combine_workload. Raises when the knob labels of the two sides differ, then when
      the metric labels differ, then unless the objective labels exactly one metric
      column. Otherwise the knob labels are narrowed to the ranked knobs exactly when
      a workload is mapped; `CombinedObjective` relates the rows and the objective
      trained on to the gathered rows. */
  function CombineWorkload(target: TargetData, cache: PipelineData, catalog: seq<KnobEntry>,
                           objective: string, lessIsBetter: bool, importantKnobs: int,
                           encoder: Option<Encoder>, lib: Library): (r: Result<Combined>)
    requires CombineInputs(target, cache, importantKnobs, encoder, lib)
    ensures
      var w := WorkloadSide(target.data, target.mappedWorkload.Some?, cache, catalog, lib.parseFloat);
      && (w.xLabels != target.data.xLabels ==> r == Err(XLabelMismatch))
      && (w.xLabels == target.data.xLabels && w.yLabels != target.data.yLabels ==> r == Err(YLabelMismatch))
      && ((w.xLabels == target.data.xLabels && w.yLabels == target.data.yLabels &&
           objective !in target.data.yLabels) ==> r == Err(ObjectiveMissing))
    ensures r.Ok? ==> ObjectiveColumn(target.data.yLabels, objective).Ok?
    ensures r.Ok? ==>
      && r.value.xLabels == KeptLabels(target.data.xLabels, target.mappedWorkload.Some?,
                                       cache.rankedKnobs, importantKnobs)
      && |r.value.xScaled| == |r.value.stacked| == |r.value.yScaled|
      && 0 < |r.value.stacked| && r.value.targetCount <= |r.value.stacked|
    ensures r.Ok? ==> Trainable(r.value) && r.value.encoder == encoder
    ensures r.Ok? && encoder.None? ==> CatalogBounded(r.value, catalog)
  {
    match GatherRows(target, cache, catalog, objective, importantKnobs, lib.dedup, lib.parseFloat)
    case Err(e) => Err(e)
    case Ok(rows) => Preprocess(rows, catalog, lessIsBetter, encoder, lib.fitX, lib.standardize)
  }

  /** The knob rows trained on are the gathered target rows followed by the gathered
      workload rows, and the objective trained on is their objective values (see
      `GatherRowsObjective`), standardised and negated when more is better. With an
      encoder, its one-hot and binary columns are searched within [0, 1]. */
  lemma CombinedObjective(target: TargetData, cache: PipelineData, catalog: seq<KnobEntry>,
                          objective: string, lessIsBetter: bool, importantKnobs: int,
                          encoder: Option<Encoder>, lib: Library)
    requires CombineInputs(target, cache, importantKnobs, encoder, lib)
    requires CombineWorkload(target, cache, catalog, objective, lessIsBetter, importantKnobs, encoder, lib).Ok?
    ensures GatherRows(target, cache, catalog, objective, importantKnobs, lib.dedup, lib.parseFloat).Ok?
    ensures
      var c := CombineWorkload(target, cache, catalog, objective, lessIsBetter, importantKnobs, encoder, lib).value;
      var rows := GatherRows(target, cache, catalog, objective, importantKnobs, lib.dedup, lib.parseFloat).value;
      && c.stacked == rows.targetX + rows.workloadX
      && c.targetCount == |rows.targetX|
      && c.yScaled == Oriented(ScaledObjective(rows.targetY, rows.workloadY, lib.standardize).value, lessIsBetter)
      && EncoderBounded(c)
  {
    var g := GatherRows(target, cache, catalog, objective, importantKnobs, lib.dedup, lib.parseFloat);
    assert g.Ok?;
    assert CombineWorkload(target, cache, catalog, objective, lessIsBetter, importantKnobs, encoder, lib) ==
      Preprocess(g.value, catalog, lessIsBetter, encoder, lib.fitX, lib.standardize);
    PreprocessScales(g.value, catalog, lessIsBetter, encoder, lib.fitX, lib.standardize);
  }

  /** The target's merged rows come first in the stacked matrix, each of them a target
      row narrowed to the kept columns, and no workload row after them repeats one. */
  lemma TargetRowsFirst(target: TargetData, cache: PipelineData, catalog: seq<KnobEntry>,
                        objective: string, lessIsBetter: bool, importantKnobs: int,
                        encoder: Option<Encoder>, lib: Library)
    requires CombineInputs(target, cache, importantKnobs, encoder, lib)
    requires CombineWorkload(target, cache, catalog, objective, lessIsBetter, importantKnobs, encoder, lib).Ok?
    ensures
      var c := CombineWorkload(target, cache, catalog, objective, lessIsBetter, importantKnobs, encoder, lib).value;
      && (forall k :: 0 <= k < c.targetCount ==>
            c.stacked[k] in KeptKnobs(target.data.xMatrix, target.data.xLabels,
                                      target.mappedWorkload.Some?, cache.rankedKnobs, importantKnobs))
      && (forall k :: c.targetCount <= k < |c.stacked| ==> c.stacked[k] !in c.stacked[..c.targetCount])
  {
    var g := GatherRows(target, cache, catalog, objective, importantKnobs, lib.dedup, lib.parseFloat);
    assert g.Ok?;
    var rows := g.value;
    var p := Preprocess(rows, catalog, lessIsBetter, encoder, lib.fitX, lib.standardize);
    assert CombineWorkload(target, cache, catalog, objective, lessIsBetter, importantKnobs, encoder, lib) == p;
    StackKeepsSides(rows.targetX, rows.workloadX,
                    KeptKnobs(target.data.xMatrix, target.data.xLabels, target.mappedWorkload.Some?,
                              cache.rankedKnobs, importantKnobs));
  }

  /** Stacking `a` over `b`: the first `|a|` rows are `a`'s, and when no row of `b`
      repeats a row of `a`, no row after them repeats one before them. */
  lemma StackKeepsSides(a: Matrix, b: Matrix, src: Matrix)
    requires forall i :: 0 <= i < |a| ==> a[i] in src
    requires forall i :: 0 <= i < |b| ==> b[i] !in a
    ensures (a + b)[..|a|] == a
    ensures forall k :: 0 <= k < |a| ==> (a + b)[k] in src
    ensures forall k :: |a| <= k < |a| + |b| ==> (a + b)[k] !in (a + b)[..|a|]
  {
    assert (a + b)[..|a|] == a;
    forall k | |a| <= k < |a| + |b|
      ensures (a + b)[k] !in (a + b)[..|a|]
    {
      assert (a + b)[k] == b[k - |a|];
    }
  }

  /** Without a mapped workload the target is combined with itself, which adds no row:
      every stacked row is one of the target's. */
  lemma SelfCombinationAddsNothing(target: TargetData, cache: PipelineData, catalog: seq<KnobEntry>,
                                   objective: string, lessIsBetter: bool, importantKnobs: int,
                                   encoder: Option<Encoder>, lib: Library)
    requires CombineInputs(target, cache, importantKnobs, encoder, lib)
    requires target.mappedWorkload.None?
    requires CombineWorkload(target, cache, catalog, objective, lessIsBetter, importantKnobs, encoder, lib).Ok?
    ensures
      var c := CombineWorkload(target, cache, catalog, objective, lessIsBetter, importantKnobs, encoder, lib).value;
      c.targetCount == |c.stacked|
  {
    var rows := GatherRows(target, cache, catalog, objective, importantKnobs, lib.dedup, lib.parseFloat).value;
    assert rows.workloadX == [];
  }
}
