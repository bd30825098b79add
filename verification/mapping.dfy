/** map_workload: finds the known workload most similar to the target. Every other
    workload of the latest pipeline run (same DBMS, hardware and project) is loaded,
    narrowed to the ranked knobs and pruned metrics of the first one, and used to
    predict the target's metrics from the target's knob settings; the workload whose
    binned predictions lie closest to the target's binned metrics is mapped. */
module Mapping {
  import opened Base
  import opened Catalog
  import opened Payload
  import opened Combine
  import Align

  /** A workload with pipeline data under the latest run. `hasResults` is false for a
      workload whose results are gone (the stage deletes it and moves on). */
  datatype Candidate = Candidate(workloadId: nat, name: string, hasResults: bool, data: PipelineData)

  /** One workload's knob and metric rows after filtering and merging duplicates. */
  datatype WorkloadData = WorkloadData(workloadId: nat, name: string, x: Matrix, y: Matrix,
                                       rowLabels: seq<string>)

  /** The knob and metric column positions fixed by the first workload loaded. */
  datatype Selection = Selection(knobIdx: seq<nat>, metricIdx: seq<nat>)

  // ---------------------------------------------------------------------------
  // Candidates

  /** The workload ids of the candidates, in order. */
  function CandidateIds(cands: seq<Candidate>): (ids: seq<nat>)
    ensures |ids| == |cands| && forall i :: 0 <= i < |cands| ==> ids[i] == cands[i].workloadId
  {
    if |cands| == 0 then [] else [cands[0].workloadId] + CandidateIds(cands[1..])
  }

  /** The workload ids of the loaded entries, in order. */
  function EntryIds(entries: seq<WorkloadData>): (ids: seq<nat>)
    ensures |ids| == |entries| && forall i :: 0 <= i < |entries| ==> ids[i] == entries[i].workloadId
  {
    if |entries| == 0 then [] else [entries[0].workloadId] + EntryIds(entries[1..])
  }

  /** The candidates that still have results, in order. */
  function WithResults(cands: seq<Candidate>): (r: seq<Candidate>)
    ensures |r| <= |cands|
    ensures forall c :: c in r <==> c in cands && c.hasResults
  {
    if |cands| == 0 then []
    else if cands[0].hasResults then [cands[0]] + WithResults(cands[1..])
    else WithResults(cands[1..])
  }

  /** The ids of the candidates without results, in order: the workloads deleted. */
  function Deleted(cands: seq<Candidate>): (ids: seq<nat>)
    ensures forall id :: id in ids <==> exists c :: c in cands && !c.hasResults && c.workloadId == id
  {
    if |cands| == 0 then []
    else
      assert forall c :: c in cands <==> c == cands[0] || c in cands[1..];
      if cands[0].hasResults then Deleted(cands[1..]) else [cands[0].workloadId] + Deleted(cands[1..])
  }

  // ---------------------------------------------------------------------------
  // Loading one workload

  /** `[i for i in range(width) if labels[i] in keep]`: raises IndexError once `i` runs
      past the labels. */
  function PositionsIn(labels: seq<string>, width: nat, keep: seq<string>): (r: Result<seq<nat>>)
    ensures r.Err? <==> width > |labels|
    ensures r.Err? ==> r.error == IndexOutOfRange
    ensures r.Ok? ==> StrictlyIncreasing(r.value)
    ensures r.Ok? ==> forall k :: 0 <= k < |r.value| ==> r.value[k] < width && labels[r.value[k]] in keep
    ensures r.Ok? ==> forall i :: 0 <= i < width && labels[i] in keep ==> i in r.value
  {
    if width > |labels| then Err(IndexOutOfRange)
    else
      var front := labels[..width];
      assert forall i :: 0 <= i < width ==> front[i] == labels[i];
      Ok(IndicesIn(front, keep))
  }

  /** numpy `m[:, idxs]` on an `n`-column matrix: raises IndexError when a position is past
      the last column. */
  function TakeColumns(m: Matrix, n: nat, idxs: seq<nat>): (r: Result<Matrix>)
    requires IsMatrix(m, n)
    ensures r.Err? <==> exists k :: 0 <= k < |idxs| && idxs[k] >= n
    ensures r.Err? ==> r.error == IndexOutOfRange
    ensures r.Ok? ==> |r.value| == |m| && IsMatrix(r.value, |idxs|)
    ensures r.Ok? ==> forall i, k :: 0 <= i < |m| && 0 <= k < |idxs| ==> r.value[i][k] == m[i][idxs[k]]
  {
    if exists k :: 0 <= k < |idxs| && idxs[k] >= n then Err(IndexOutOfRange)
    else Ok(SelectColumns(m, idxs))
  }

  /** A workload's stored data: the knob data cleaned against the session catalog, the
      metric data as stored, and the knob row labels, which must equal the metric row
      labels (an assertion in the stage). */
  function LoadWorkload(p: PipelineData, catalog: seq<KnobEntry>,
                        parseFloat: string -> Option<real>): (r: Result<(Matrix, Matrix, seq<string>)>)
    requires Shaped(p)
    ensures r.Err? <==> p.knobRows != p.metricRows
    ensures r.Err? ==> r.error == RowLabelMismatch
    ensures r.Ok? ==>
      && |r.value.0| == |p.knobData| && IsMatrix(r.value.0, |catalog|)
      && r.value.1 == p.metricData && r.value.2 == p.knobRows
    ensures r.Ok? ==> r.value.0 == Align.CleanKnobData(p.knobData, p.knobLabels, catalog, parseFloat).0
    ensures r.Ok? && Names(catalog) == p.knobLabels ==> r.value.0 == p.knobData
  {
    var cleaned := Align.CleanKnobData(p.knobData, p.knobLabels, catalog, parseFloat);
    if p.knobRows != p.metricRows then Err(RowLabelMismatch)
    else Ok((cleaned.0, p.metricData, p.knobRows))
  }

  /** The selection the first workload fixes: the positions, among its cleaned knob
      columns, whose target knob label is one of its top `importantKnobs` ranked knobs,
      and the positions, among its metric columns, whose target metric label it kept. */
  function InitSelection(target: Dataset, p: PipelineData, knobWidth: nat,
                         importantKnobs: int): (r: Result<Selection>)
    ensures r.Err? <==> knobWidth > |target.xLabels| || |p.metricLabels| > |target.yLabels|
    ensures r.Err? ==> r.error == IndexOutOfRange
    ensures r.Ok? ==>
      && (forall k :: 0 <= k < |r.value.knobIdx| ==>
            r.value.knobIdx[k] < knobWidth &&
            target.xLabels[r.value.knobIdx[k]] in PyPrefix(p.rankedKnobs, importantKnobs))
      && (forall i :: 0 <= i < knobWidth && target.xLabels[i] in PyPrefix(p.rankedKnobs, importantKnobs) ==>
            i in r.value.knobIdx)
    ensures r.Ok? ==>
      && (forall k :: 0 <= k < |r.value.metricIdx| ==>
            r.value.metricIdx[k] < |p.metricLabels| && target.yLabels[r.value.metricIdx[k]] in p.prunedMetrics)
      && (forall i :: 0 <= i < |p.metricLabels| && target.yLabels[i] in p.prunedMetrics ==>
            i in r.value.metricIdx)
  {
    match PositionsIn(target.xLabels, knobWidth, PyPrefix(p.rankedKnobs, importantKnobs))
    case Err(e) => Err(e)
    case Ok(knobIdx) =>
      match PositionsIn(target.yLabels, |p.metricLabels|, p.prunedMetrics)
      case Err(e) => Err(e)
      case Ok(metricIdx) => Ok(Selection(knobIdx, metricIdx))
  }

  /** A selection the target's own data can be narrowed by: knob positions within the
      catalog (the width of every cleaned knob matrix) and the target's knob labels,
      metric positions within the target's metric labels. */
  predicate SelectionFits(s: Selection, target: Dataset, catalogSize: nat) {
    && (forall k :: 0 <= k < |s.knobIdx| ==> s.knobIdx[k] < catalogSize && s.knobIdx[k] < |target.xLabels|)
    && (forall k :: 0 <= k < |s.metricIdx| ==> s.metricIdx[k] < |target.yLabels|)
  }

  /** An entry has the selected number of knob and metric columns, one metric row and
      one row label per knob row. */
  predicate EntryShaped(e: WorkloadData, s: Selection) {
    && IsMatrix(e.x, |s.knobIdx|) && IsMatrix(e.y, |s.metricIdx|)
    && |e.y| == |e.x| && |e.rowLabels| == |e.x|
  }

  predicate EntriesShaped(entries: seq<WorkloadData>, s: Selection) {
    forall i :: 0 <= i < |entries| ==> EntryShaped(entries[i], s)
  }

  /** The body of the loop for a workload with results: load it, fix the selection if
      none is fixed yet, narrow its knob and metric columns by the selection and merge
      its duplicate rows. */
  function LoadEntry(c: Candidate, sel: Option<Selection>, target: Dataset, catalog: seq<KnobEntry>,
                     importantKnobs: int, dedup: Dedup,
                     parseFloat: string -> Option<real>): (r: Result<(WorkloadData, Selection)>)
    requires Shaped(c.data)
    requires sel.Some? ==> SelectionFits(sel.value, target, |catalog|)
    requires DedupShape(dedup)
    ensures c.data.knobRows != c.data.metricRows ==> r == Err(RowLabelMismatch)
    ensures r.Ok? ==> r.value.0.workloadId == c.workloadId && r.value.0.name == c.name
    ensures r.Ok? && sel.Some? ==> r.value.1 == sel.value
    ensures r.Ok? && sel.None? ==>
      var init := InitSelection(target, c.data, |catalog|, importantKnobs);
      init.Ok? && r.value.1 == init.value
    ensures r.Ok? ==> SelectionFits(r.value.1, target, |catalog|) && EntryShaped(r.value.0, r.value.1)
    ensures r.Ok? ==>
      var cleaned := Align.CleanKnobData(c.data.knobData, c.data.knobLabels, catalog, parseFloat).0;
      forall i :: 0 <= i < |r.value.0.x| ==> r.value.0.x[i] in SelectColumns(cleaned, r.value.1.knobIdx)
  {
    match LoadWorkload(c.data, catalog, parseFloat)
    case Err(e) => Err(e)
    case Ok(loaded) =>
      match (if sel.Some? then Ok(sel.value) else InitSelection(target, c.data, |catalog|, importantKnobs))
      case Err(e) => Err(e)
      case Ok(s) =>
        match TakeColumns(loaded.0, |catalog|, s.knobIdx)
        case Err(e) => Err(e)
        case Ok(x) =>
          match TakeColumns(loaded.1, |c.data.metricLabels|, s.metricIdx)
          case Err(e) => Err(e)
          case Ok(y) =>
            var merged := dedup(x, y, loaded.2);
            assert MergedFrom(merged, x, y, |s.metricIdx|);
            RowsFromMatrix(merged.0, x, |s.knobIdx|);
            assert x == SelectColumns(loaded.0, s.knobIdx);
            Ok((WorkloadData(c.workloadId, c.name, merged.0, merged.1, merged.2), s))
  }

  /** The result of the loop over the workloads. */
  datatype Gathered = Gathered(entries: seq<WorkloadData>, deleted: seq<nat>, selection: Option<Selection>)

  /** The loop over the candidate workloads, `sel` being the selection fixed so far. A
      workload without results is deleted and skipped; any other is loaded and narrowed.
      The first workload that fails stops the stage. */
  function Gather(cands: seq<Candidate>, sel: Option<Selection>, target: Dataset, catalog: seq<KnobEntry>,
                  importantKnobs: int, dedup: Dedup, parseFloat: string -> Option<real>): (r: Result<Gathered>)
    requires forall i :: 0 <= i < |cands| ==> Shaped(cands[i].data)
    requires sel.Some? ==> SelectionFits(sel.value, target, |catalog|)
    requires DedupShape(dedup)
    ensures |WithResults(cands)| == 0 ==> r == Ok(Gathered([], Deleted(cands), sel))
    ensures r.Ok? ==> |r.value.entries| == |WithResults(cands)| && r.value.deleted == Deleted(cands)
    ensures r.Ok? ==> (r.value.selection.Some? <==> sel.Some? || |WithResults(cands)| > 0)
    ensures r.Ok? && sel.Some? ==> r.value.selection == sel
    ensures r.Ok? && r.value.selection.Some? ==>
      SelectionFits(r.value.selection.value, target, |catalog|) &&
      EntriesShaped(r.value.entries, r.value.selection.value)
    decreases |cands|
  {
    if |cands| == 0 then Ok(Gathered([], [], sel))
    else
      var c := cands[0];
      assert forall i :: 1 <= i < |cands| ==> cands[1..][i - 1] == cands[i];
      if !c.hasResults then
        match Gather(cands[1..], sel, target, catalog, importantKnobs, dedup, parseFloat)
        case Err(e) => Err(e)
        case Ok(g) => Ok(g.(deleted := [c.workloadId] + g.deleted))
      else
        match LoadEntry(c, sel, target, catalog, importantKnobs, dedup, parseFloat)
        case Err(e) => Err(e)
        case Ok(loaded) =>
          match Gather(cands[1..], Some(loaded.1), target, catalog, importantKnobs, dedup, parseFloat)
          case Err(e) => Err(e)
          case Ok(g) =>
            Ok(g.(entries := [loaded.0] + g.entries))
  }

  /** The loop keeps an entry for exactly the workloads with results, in order. */
  lemma {:induction false} GatherKeepsOrder(cands: seq<Candidate>, sel: Option<Selection>, target: Dataset,
                                            catalog: seq<KnobEntry>, importantKnobs: int, dedup: Dedup,
                                            parseFloat: string -> Option<real>)
    requires forall i :: 0 <= i < |cands| ==> Shaped(cands[i].data)
    requires sel.Some? ==> SelectionFits(sel.value, target, |catalog|)
    requires DedupShape(dedup)
    requires Gather(cands, sel, target, catalog, importantKnobs, dedup, parseFloat).Ok?
    ensures EntryIds(Gather(cands, sel, target, catalog, importantKnobs, dedup, parseFloat).value.entries)
            == CandidateIds(WithResults(cands))
  {
    if |cands| > 0 {
      var c := cands[0];
      assert forall i :: 1 <= i < |cands| ==> cands[1..][i - 1] == cands[i];
      if !c.hasResults {
        GatherKeepsOrder(cands[1..], sel, target, catalog, importantKnobs, dedup, parseFloat);
      } else {
        var loaded := LoadEntry(c, sel, target, catalog, importantKnobs, dedup, parseFloat).value;
        var g := Gather(cands[1..], Some(loaded.1), target, catalog, importantKnobs, dedup, parseFloat).value;
        GatherKeepsOrder(cands[1..], Some(loaded.1), target, catalog, importantKnobs, dedup, parseFloat);
        assert ([loaded.0] + g.entries)[1..] == g.entries;
        assert ([c] + WithResults(cands[1..]))[1..] == WithResults(cands[1..]);
      }
    }
  }

  /** The selection is the one the first workload with results fixes. */
  lemma {:induction false} FirstWorkloadSelects(cands: seq<Candidate>, target: Dataset, catalog: seq<KnobEntry>,
                                                importantKnobs: int, dedup: Dedup,
                                                parseFloat: string -> Option<real>)
    requires forall i :: 0 <= i < |cands| ==> Shaped(cands[i].data)
    requires DedupShape(dedup)
    requires Gather(cands, None, target, catalog, importantKnobs, dedup, parseFloat).Ok?
    requires |WithResults(cands)| > 0
    ensures
      var first := WithResults(cands)[0];
      InitSelection(target, first.data, |catalog|, importantKnobs).Ok? &&
      Gather(cands, None, target, catalog, importantKnobs, dedup, parseFloat).value.selection ==
        Some(InitSelection(target, first.data, |catalog|, importantKnobs).value)
  {
    assert forall i :: 1 <= i < |cands| ==> cands[1..][i - 1] == cands[i];
    if !cands[0].hasResults {
      FirstWorkloadSelects(cands[1..], target, catalog, importantKnobs, dedup, parseFloat);
    }
  }

  // ---------------------------------------------------------------------------
  // Scoring

  /** The decile edges `Bin` fits on a matrix; their computation is not modelled. */
  datatype Bins = Bins(edges: Matrix)

  /** The numeric routines of the stage: the scaler fit, the bin fit and transform, the
      Gaussian process prediction of one metric column at the target's knob settings,
      and the square root. */
  datatype MapLibrary = MapLibrary(
    dedup: Dedup,
    fitScaler: Matrix -> Scaler,
    fitBins: Matrix -> Bins,
    bin: (Bins, Matrix) -> Matrix,
    predict: (Matrix, seq<real>, Matrix) -> seq<real>,
    sqrt: real -> real,
    parseFloat: string -> Option<real>)

  /** Binning keeps a matrix's shape. */
  ghost predicate BinShape(bin: (Bins, Matrix) -> Matrix) {
    forall b: Bins, m: Matrix ::
      |bin(b, m)| == |m| && (|m| > 0 && IsMatrix(m, |m[0]|) ==> IsMatrix(bin(b, m), |m[0]|))
  }

  /** A prediction gives one value per target row. */
  ghost predicate PredictShape(predict: (Matrix, seq<real>, Matrix) -> seq<real>) {
    forall x: Matrix, y: seq<real>, at: Matrix :: |predict(x, y, at)| == |at|
  }

  /** The square root of a non-negative number is non-negative, and zero only at zero. */
  ghost predicate SqrtShape(sqrt: real -> real) {
    forall v: real :: v >= 0.0 ==> sqrt(v) >= 0.0 && (sqrt(v) == 0.0 <==> v == 0.0)
  }

  ghost predicate MapLibraryShape(lib: MapLibrary) {
    && DedupShape(lib.dedup) && ScalerFits(lib.fitScaler) && BinShape(lib.bin)
    && PredictShape(lib.predict) && SqrtShape(lib.sqrt)
  }

  /** `bin` applied to an `n`-column matrix gives one as tall and as wide. */
  lemma BinKeepsShape(bin: (Bins, Matrix) -> Matrix, b: Bins, m: Matrix, n: nat)
    requires BinShape(bin) && IsMatrix(m, n)
    ensures |bin(b, m)| == |m| && IsMatrix(bin(b, m), n)
  {
    assert |bin(b, m)| == |m|;
    if |m| > 0 {
      assert IsMatrix(m, |m[0]|);
    }
  }

  /** The target's predicted metrics: column `j` is the Gaussian process fitted on the
      workload's scaled knob rows and its scaled metric column `j`, evaluated at the
      target's scaled knob rows. */
  function Predictions(xScaled: Matrix, yScaled: Matrix, m: nat, at: Matrix,
                       predict: (Matrix, seq<real>, Matrix) -> seq<real>): (r: Matrix)
    requires IsMatrix(yScaled, m) && PredictShape(predict)
    ensures |r| == |at| && IsMatrix(r, m)
    ensures forall i, j :: 0 <= i < |at| && 0 <= j < m ==> r[i][j] == predict(xScaled, Column(yScaled, j), at)[i]
  {
    seq(|at|, i requires 0 <= i < |at| =>
      seq(m, j requires 0 <= j < m => predict(xScaled, Column(yScaled, j), at)[i]))
  }

  function Sum(v: seq<real>): (s: real)
    ensures (forall i :: 0 <= i < |v| ==> v[i] >= 0.0) ==>
      s >= 0.0 && (s == 0.0 <==> forall i :: 0 <= i < |v| ==> v[i] == 0.0)
  {
    if |v| == 0 then 0.0 else v[0] + Sum(v[1..])
  }

  /** numpy `mean`: of non-negative values, non-negative, and zero only when all are. */
  function Mean(v: seq<real>): (m: real)
    requires |v| > 0
    ensures (forall i :: 0 <= i < |v| ==> v[i] >= 0.0) ==>
      m >= 0.0 && (m == 0.0 <==> forall i :: 0 <= i < |v| ==> v[i] == 0.0)
  {
    Sum(v) / (|v| as real)
  }

  /** Row by row, the Euclidean distance between two equally shaped matrices. */
  function Distances(p: Matrix, t: Matrix, m: nat, sqrt: real -> real): (d: seq<real>)
    requires IsMatrix(p, m) && IsMatrix(t, m) && |p| == |t| && SqrtShape(sqrt)
    ensures |d| == |p|
    ensures forall i :: 0 <= i < |p| ==> d[i] >= 0.0
    ensures forall i :: 0 <= i < |p| ==> (d[i] == 0.0 <==> SquaredDistance(p[i], t[i]) == 0.0)
  {
    var d := seq(|p|, i requires 0 <= i < |p| => sqrt(SquaredDistance(p[i], t[i])));
    assert forall i :: 0 <= i < |p| ==> d[i] >= 0.0 && (d[i] == 0.0 <==> SquaredDistance(p[i], t[i]) == 0.0) by {
      forall i | 0 <= i < |p|
        ensures d[i] >= 0.0 && (d[i] == 0.0 <==> SquaredDistance(p[i], t[i]) == 0.0)
      {
        var v := SquaredDistance(p[i], t[i]);
        assert v >= 0.0;
        assert sqrt(v) >= 0.0 && (sqrt(v) == 0.0 <==> v == 0.0);
      }
    }
    d
  }

  /** The fitted transforms every workload is compared under: the knob and metric scalers
      fitted on all workloads' rows, the metric bins, and the target's scaled knob rows
      and binned metric rows. */
  datatype Frame = Frame(xScaler: Scaler, yScaler: Scaler, bins: Bins, targetX: Matrix, targetBins: Matrix)

  predicate FrameFits(f: Frame, kn: nat, m: nat) {
    && ValidScaler(f.xScaler, kn) && ValidScaler(f.yScaler, m)
    && |f.targetX| == |f.targetBins| > 0 && IsMatrix(f.targetBins, m)
  }

  /** One workload's binned predictions of the target's metrics. */
  function PredictedBins(e: WorkloadData, f: Frame, kn: nat, m: nat, lib: MapLibrary): (r: Matrix)
    requires IsMatrix(e.x, kn) && IsMatrix(e.y, m) && FrameFits(f, kn, m)
    requires BinShape(lib.bin) && PredictShape(lib.predict)
    ensures |r| == |f.targetX| && IsMatrix(r, m)
  {
    var xScaled := ScaleMatrix(f.xScaler, e.x, kn);
    var yScaled := ScaleMatrix(f.yScaler, e.y, m);
    var preds := Predictions(xScaled, yScaled, m, f.targetX, lib.predict);
    BinKeepsShape(lib.bin, f.bins, preds, m);
    lib.bin(f.bins, preds)
  }

  /** A workload's score: the mean distance between its binned predictions and the
      target's binned metrics. Never negative, and zero exactly when every target row's
      binned prediction is at distance zero from the row. */
  function Score(e: WorkloadData, f: Frame, kn: nat, m: nat, lib: MapLibrary): (s: real)
    requires IsMatrix(e.x, kn) && IsMatrix(e.y, m) && FrameFits(f, kn, m)
    requires BinShape(lib.bin) && PredictShape(lib.predict) && SqrtShape(lib.sqrt)
    ensures s >= 0.0
    ensures s == 0.0 <==>
      var p := PredictedBins(e, f, kn, m, lib);
      forall i :: 0 <= i < |p| ==> SquaredDistance(p[i], f.targetBins[i]) == 0.0
  {
    var p := PredictedBins(e, f, kn, m, lib);
    Mean(Distances(p, f.targetBins, m, lib.sqrt))
  }

  /** A workload that predicts the target's binned metrics exactly scores zero. */
  lemma PerfectPredictionScoresZero(e: WorkloadData, f: Frame, kn: nat, m: nat, lib: MapLibrary)
    requires IsMatrix(e.x, kn) && IsMatrix(e.y, m) && FrameFits(f, kn, m)
    requires BinShape(lib.bin) && PredictShape(lib.predict) && SqrtShape(lib.sqrt)
    requires PredictedBins(e, f, kn, m, lib) == f.targetBins
    ensures Score(e, f, kn, m, lib) == 0.0
  {
  }

  function ScoreAll(entries: seq<WorkloadData>, f: Frame, s: Selection, lib: MapLibrary): (r: seq<WorkloadScore>)
    requires EntriesShaped(entries, s) && FrameFits(f, |s.knobIdx|, |s.metricIdx|)
    requires BinShape(lib.bin) && PredictShape(lib.predict) && SqrtShape(lib.sqrt)
    ensures |r| == |entries|
    ensures forall i :: 0 <= i < |entries| ==>
      && r[i].workloadId == entries[i].workloadId && r[i].name == entries[i].name
      && r[i].score == Score(entries[i], f, |s.knobIdx|, |s.metricIdx|, lib)
  {
    seq(|entries|, i requires 0 <= i < |entries| =>
      WorkloadScore(entries[i].workloadId, entries[i].name,
                    Score(entries[i], f, |s.knobIdx|, |s.metricIdx|, lib)))
  }

  /** All entries' knob rows stacked (numpy `vstack`). */
  function StackX(entries: seq<WorkloadData>, s: Selection): (r: Matrix)
    requires EntriesShaped(entries, s)
    ensures IsMatrix(r, |s.knobIdx|)
    ensures |r| == 0 <==> forall i :: 0 <= i < |entries| ==> |entries[i].x| == 0
  {
    if |entries| == 0 then []
    else
      assert EntriesShaped(entries[1..], s);
      StackIsMatrix(entries[0].x, StackX(entries[1..], s), |s.knobIdx|);
      entries[0].x + StackX(entries[1..], s)
  }

  /** All entries' metric rows stacked; as tall as the stacked knob rows. */
  function StackY(entries: seq<WorkloadData>, s: Selection): (r: Matrix)
    requires EntriesShaped(entries, s)
    ensures IsMatrix(r, |s.metricIdx|)
    ensures |r| == |StackX(entries, s)|
  {
    if |entries| == 0 then []
    else
      assert EntriesShaped(entries[1..], s);
      StackIsMatrix(entries[0].y, StackY(entries[1..], s), |s.metricIdx|);
      entries[0].y + StackY(entries[1..], s)
  }

  /** The scalers fitted on the stacked rows (the metric scaler works in place, so the
      bins are fitted on the standardised metrics), and the target's data narrowed by the
      selection, scaled, and for the metrics binned. Fitting a scaler on no rows or no
      columns raises. */
  function FitFrame(entries: seq<WorkloadData>, s: Selection, target: Dataset, lib: MapLibrary): (r: Result<Frame>)
    requires EntriesShaped(entries, s) && WellFormed(target) && |target.xMatrix| > 0
    requires forall k :: 0 <= k < |s.knobIdx| ==> s.knobIdx[k] < |target.xLabels|
    requires forall k :: 0 <= k < |s.metricIdx| ==> s.metricIdx[k] < |target.yLabels|
    requires ScalerFits(lib.fitScaler) && BinShape(lib.bin)
    ensures r.Err? <==> |StackX(entries, s)| == 0 || |s.knobIdx| == 0 || |s.metricIdx| == 0
    ensures r.Err? ==> r.error == EmptyArray
    ensures r.Ok? ==> FrameFits(r.value, |s.knobIdx|, |s.metricIdx|)
    ensures r.Ok? ==> |r.value.targetX| == |target.xMatrix|
  {
    var kn := |s.knobIdx|;
    var m := |s.metricIdx|;
    var xs := StackX(entries, s);
    var ys := StackY(entries, s);
    if |xs| == 0 || kn == 0 || m == 0 then Err(EmptyArray)
    else
      var xScaler := lib.fitScaler(xs);
      var yScaler := lib.fitScaler(ys);
      var bins := lib.fitBins(ScaleMatrix(yScaler, ys, m));
      var targetX := ScaleMatrix(xScaler, SelectColumns(target.xMatrix, s.knobIdx), kn);
      var targetY := ScaleMatrix(yScaler, SelectColumns(target.yMatrix, s.metricIdx), m);
      BinKeepsShape(lib.bin, bins, targetY, m);
      Ok(Frame(xScaler, yScaler, bins, targetX, lib.bin(bins, targetY)))
  }

  // ---------------------------------------------------------------------------
  // The best workload

  /** The loop that keeps the best score so far, starting from infinity (`best` None) and
      replacing it only on a strictly smaller score: the result scores no more than the
      starting best and any entry. */
  function PickBest(scores: seq<WorkloadScore>, best: Option<WorkloadScore>): (r: Option<WorkloadScore>)
    ensures r.None? <==> best.None? && |scores| == 0
    ensures r.Some? && best.Some? ==> r.value.score <= best.value.score
    ensures r.Some? ==> forall i :: 0 <= i < |scores| ==> r.value.score <= scores[i].score
  {
    if |scores| == 0 then best
    else
      var next := if best.None? || scores[0].score < best.value.score then Some(scores[0]) else best;
      assert forall i :: 1 <= i < |scores| ==> scores[1..][i - 1] == scores[i];
      PickBest(scores[1..], next)
  }

  /** Entry `i` scores strictly less than every entry before it and than `best`. */
  predicate FirstBelow(scores: seq<WorkloadScore>, i: nat, best: Option<WorkloadScore>)
    requires i < |scores|
  {
    && (forall j :: 0 <= j < i ==> scores[j].score > scores[i].score)
    && (best.Some? ==> best.value.score > scores[i].score)
  }

  /** The loop either keeps the starting best or ends on the first entry that beats
      everything before it: later ties never replace the best. */
  lemma {:induction false} PickBestIsFirst(scores: seq<WorkloadScore>, best: Option<WorkloadScore>)
    ensures
      var r := PickBest(scores, best);
      r == best || exists i :: 0 <= i < |scores| && FirstBelow(scores, i, best) && r == Some(scores[i])
  {
    if |scores| > 0 {
      var next := if best.None? || scores[0].score < best.value.score then Some(scores[0]) else best;
      var rest := scores[1..];
      var r := PickBest(rest, next);
      assert PickBest(scores, best) == r;
      PickBestIsFirst(rest, next);
      if r == next {
        if next != best {
          assert FirstBelow(scores, 0, best);
        }
      } else {
        var k :| 0 <= k < |rest| && FirstBelow(rest, k, next) && r == Some(rest[k]);
        assert rest[k] == scores[k + 1];
        forall j | 0 <= j < k + 1
          ensures scores[j].score > scores[k + 1].score
        {
          if j > 0 {
            assert scores[j] == rest[j - 1];
          }
        }
        assert FirstBelow(scores, k + 1, best);
      }
    }
  }

  function ScoreValues(scores: seq<WorkloadScore>): (v: seq<real>)
    ensures |v| == |scores| && forall i :: 0 <= i < |scores| ==> v[i] == scores[i].score
  {
    seq(|scores|, i requires 0 <= i < |scores| => scores[i].score)
  }

  /** The mapped workload is the first one with the smallest score: what `argmin` over
      the scores, in workload order, picks. */
  lemma BestIsFirstMinimum(scores: seq<WorkloadScore>)
    requires |scores| > 0
    ensures PickBest(scores, None) == Some(scores[ArgMin(ScoreValues(scores))])
  {
    PickBestIsFirst(scores, None);
    var i :| 0 <= i < |scores| && FirstBelow(scores, i, None) && PickBest(scores, None) == Some(scores[i]);
    ArgMinUnique(ScoreValues(scores), i);
  }

  /** Of two workloads with the same score, the earlier one is mapped. */
  lemma TieGoesToEarlier(a: WorkloadScore, b: WorkloadScore)
    requires a.score == b.score
    ensures PickBest([a, b], None) == Some(a)
  {
    assert [a, b][1..] == [b];
    assert [b][1..] == [];
    assert PickBest([b], Some(a)) == PickBest([], Some(a));
  }

  // ---------------------------------------------------------------------------
  // The stage

  /** The payload after the stage, and the workloads it deleted on the way. */
  datatype MapOutcome = MapOutcome(target: TargetData, deleted: seq<nat>)

  /** What the stage needs: well-formed target data with at least one result (the
      aggregation stage raises otherwise), candidate workloads with shaped data, and the
      library's shape contracts. */
  ghost predicate MapInputs(target: TargetData, cands: seq<Candidate>, lib: MapLibrary) {
    && WellFormed(target.data) && |target.data.xMatrix| > 0
    && (forall i :: 0 <= i < |cands| ==> Shaped(cands[i].data))
    && MapLibraryShape(lib)
  }

  function ScoreIds(scores: seq<WorkloadScore>): (ids: seq<nat>)
    ensures |ids| == |scores| && forall i :: 0 <= i < |scores| ==> ids[i] == scores[i].workloadId
  {
    seq(|scores|, i requires 0 <= i < |scores| => scores[i].workloadId)
  }

  /** The scoring part of the stage. With no workload data there is nothing to map;
      otherwise every entry is scored, in order, and the first best one is mapped. */
  function ScoreGathered(g: Gathered, target: Dataset, catalog: seq<KnobEntry>,
                         lib: MapLibrary): (r: Result<(Option<WorkloadScore>, Option<seq<WorkloadScore>>)>)
    requires WellFormed(target) && |target.xMatrix| > 0
    requires ScalerFits(lib.fitScaler) && BinShape(lib.bin) && PredictShape(lib.predict) && SqrtShape(lib.sqrt)
    requires g.selection.Some? ==>
      SelectionFits(g.selection.value, target, |catalog|) && EntriesShaped(g.entries, g.selection.value)
    requires |g.entries| > 0 ==> g.selection.Some?
    ensures |g.entries| == 0 ==> r == Ok((None, None))
    ensures r.Ok? && |g.entries| > 0 ==>
      && r.value.1.Some? && ScoreIds(r.value.1.value) == EntryIds(g.entries)
      && (forall i :: 0 <= i < |g.entries| ==> r.value.1.value[i].score >= 0.0)
      && r.value.0 == PickBest(r.value.1.value, None)
  {
    if |g.entries| == 0 then Ok((None, None))
    else
      var s := g.selection.value;
      match FitFrame(g.entries, s, target, lib)
      case Err(e) => Err(e)
      case Ok(f) =>
        var scores := ScoreAll(g.entries, f, s, lib);
        assert ScoreIds(scores) == EntryIds(g.entries);
        Ok((PickBest(scores, None), Some(scores)))
  }

  /** map_workload. A bad round skips the mapping and clears the pipeline run. Otherwise
      the pipeline run becomes the latest; with no workload data the mapped workload and
      the scores are None; else the scores list every workload with data, in order, and
      the mapped workload is the first one with the smallest score. Nothing else in the
      payload changes. */
  function MapWorkload(target: TargetData, latestRun: nat, cands: seq<Candidate>, catalog: seq<KnobEntry>,
                       importantKnobs: int, lib: MapLibrary): (r: Result<MapOutcome>)
    requires MapInputs(target, cands, lib)
    ensures target.bad ==> r == Ok(MapOutcome(target.(pipelineRun := None), []))
    ensures !target.bad && |WithResults(cands)| == 0 ==>
      r == Ok(MapOutcome(target.(pipelineRun := Some(latestRun), mappedWorkload := None, scores := None),
                         Deleted(cands)))
    ensures !target.bad && r.Ok? ==>
      && r.value.target == target.(pipelineRun := Some(latestRun),
                                   mappedWorkload := r.value.target.mappedWorkload,
                                   scores := r.value.target.scores)
      && r.value.deleted == Deleted(cands)
      && (r.value.target.mappedWorkload.None? <==> |WithResults(cands)| == 0)
      && (r.value.target.scores.None? <==> |WithResults(cands)| == 0)
    ensures !target.bad && r.Ok? && r.value.target.scores.Some? ==>
      var scores := r.value.target.scores.value;
      && ScoreIds(scores) == CandidateIds(WithResults(cands))
      && r.value.target.mappedWorkload == PickBest(scores, None)
  {
    if target.bad then Ok(MapOutcome(target.(pipelineRun := None), []))
    else
      match Gather(cands, None, target.data, catalog, importantKnobs, lib.dedup, lib.parseFloat)
      case Err(e) => Err(e)
      case Ok(g) =>
        GatherKeepsOrder(cands, None, target.data, catalog, importantKnobs, lib.dedup, lib.parseFloat);
        match ScoreGathered(g, target.data, catalog, lib)
        case Err(e) => Err(e)
        case Ok(m) =>
          Ok(MapOutcome(target.(pipelineRun := Some(latestRun), mappedWorkload := m.0, scores := m.1), g.deleted))
  }

  /** In a round that is not bad, the mapped workload is one of the scored workloads, and
      no scored workload is closer to the target. */
  lemma MappedIsClosest(target: TargetData, latestRun: nat, cands: seq<Candidate>, catalog: seq<KnobEntry>,
                        importantKnobs: int, lib: MapLibrary)
    requires MapInputs(target, cands, lib) && !target.bad
    requires MapWorkload(target, latestRun, cands, catalog, importantKnobs, lib).Ok?
    ensures
      var t := MapWorkload(target, latestRun, cands, catalog, importantKnobs, lib).value.target;
      t.scores.Some? ==>
        && t.mappedWorkload.Some? && t.mappedWorkload.value in t.scores.value
        && forall i :: 0 <= i < |t.scores.value| ==> t.mappedWorkload.value.score <= t.scores.value[i].score
  {
    var t := MapWorkload(target, latestRun, cands, catalog, importantKnobs, lib).value.target;
    if t.scores.Some? {
      var scores := t.scores.value;
      assert |ScoreIds(scores)| == |CandidateIds(WithResults(cands))| == |WithResults(cands)| > 0;
      BestIsFirstMinimum(scores);
      assert t.mappedWorkload == Some(scores[ArgMin(ScoreValues(scores))]);
    }
  }
}
