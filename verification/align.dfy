/** Data alignment: bringing a knob matrix to the session's knob catalog and a
    metric matrix to the layout [target objective] + metric catalog
    (server/website/website/tasks/async_tasks.py, clean_knob_data and
    clean_metric_data). */
module Align {
  import opened Base
  import opened Catalog

  /** Cell (i, j) of the aligned knob matrix: the input column carrying the j-th
      catalog knob's name (its first occurrence), else that knob's default. */
  function KnobCell(matrix: Matrix, labels: seq<string>, catalog: seq<KnobEntry>,
                    parseFloat: string -> Option<real>, i: nat, j: nat): real
    requires IsMatrix(matrix, |labels|) && i < |matrix| && j < |catalog|
  {
    match IndexOf(labels, catalog[j].name)
    case Some(k) => matrix[i][k]
    case None => DefaultValue(catalog[j], parseFloat)
  }

  /** clean_knob_data, with every column placed where the catalog puts it. Data
      already labelled exactly as the catalog comes back untouched; otherwise the
      result has the catalog's labels and one column per catalog knob, which is the
      input's column for a knob the input carries and a constant default column for
      a knob it lacks; columns outside the catalog are dropped. */
  function CleanKnobData(matrix: Matrix, labels: seq<string>, catalog: seq<KnobEntry>,
                         parseFloat: string -> Option<real>): (r: (Matrix, seq<string>))
    requires IsMatrix(matrix, |labels|)
    ensures r.1 == Names(catalog)
    ensures |r.0| == |matrix| && IsMatrix(r.0, |catalog|)
    ensures Names(catalog) == labels ==> r.0 == matrix
    ensures Names(catalog) != labels ==>
      forall j :: 0 <= j < |catalog| && catalog[j].name in labels ==>
        Column(r.0, j) == Column(matrix, IndexOf(labels, catalog[j].name).value)
    ensures Names(catalog) != labels ==>
      forall j :: 0 <= j < |catalog| && catalog[j].name !in labels ==>
        Column(r.0, j) == Constant(|matrix|, DefaultValue(catalog[j], parseFloat))
  {
    if Names(catalog) == labels then (matrix, labels)
    else
      var out := seq(|matrix|, i requires 0 <= i < |matrix| =>
                   seq(|catalog|, j requires 0 <= j < |catalog| =>
                     KnobCell(matrix, labels, catalog, parseFloat, i, j)));
      assert forall j :: 0 <= j < |catalog| && catalog[j].name in labels ==>
        Column(out, j) == Column(matrix, IndexOf(labels, catalog[j].name).value);
      assert forall j :: 0 <= j < |catalog| && catalog[j].name !in labels ==>
        Column(out, j) == Constant(|matrix|, DefaultValue(catalog[j], parseFloat));
      (out, Names(catalog))
  }

  /** Dropping and reordering columns of catalog-aligned data, then aligning again,
      restores every kept column in place and fills every dropped one with its
      default: aligning undoes any projection of a catalog-ordered matrix. */
  lemma CleanUndoesProjection(m: Matrix, catalog: seq<KnobEntry>, idxs: seq<nat>,
                              parseFloat: string -> Option<real>)
    requires Distinct(Names(catalog))
    requires IsMatrix(m, |catalog|)
    requires Distinct(idxs) && forall k :: 0 <= k < |idxs| ==> idxs[k] < |catalog|
    ensures
      var out := CleanKnobData(SelectColumns(m, idxs), Select(Names(catalog), idxs), catalog, parseFloat).0;
      forall j :: 0 <= j < |catalog| ==>
        Column(out, j) == (if j in idxs then Column(m, j)
                           else Constant(|m|, DefaultValue(catalog[j], parseFloat)))
  {
    if Names(catalog) == Select(Names(catalog), idxs) {
      ProjectionIsIdentity(m, catalog, idxs);
    } else {
      forall j | 0 <= j < |catalog|
        ensures
          var out := CleanKnobData(SelectColumns(m, idxs), Select(Names(catalog), idxs), catalog, parseFloat).0;
          Column(out, j) == (if j in idxs then Column(m, j)
                             else Constant(|m|, DefaultValue(catalog[j], parseFloat)))
      {
        ProjectedColumn(m, catalog, idxs, parseFloat, j);
      }
    }
  }

  /** A projection that keeps the catalog's labels in order keeps every column in place. */
  lemma ProjectionIsIdentity(m: Matrix, catalog: seq<KnobEntry>, idxs: seq<nat>)
    requires Distinct(Names(catalog))
    requires IsMatrix(m, |catalog|)
    requires forall k :: 0 <= k < |idxs| ==> idxs[k] < |catalog|
    requires Names(catalog) == Select(Names(catalog), idxs)
    ensures SelectColumns(m, idxs) == m
    ensures forall j :: 0 <= j < |catalog| ==> j in idxs
  {
    var names := Names(catalog);
    var sel := SelectColumns(m, idxs);
    forall k | 0 <= k < |idxs|
      ensures idxs[k] == k
    {
      assert names[idxs[k]] == names[k];
    }
    forall j | 0 <= j < |catalog|
      ensures j in idxs
    {
      assert idxs[j] == j;
    }
    forall i | 0 <= i < |m|
      ensures sel[i] == m[i]
    {
      assert forall k :: 0 <= k < |idxs| ==> sel[i][k] == m[i][k];
    }
  }

  /** One column of a re-aligned projection, when the projection changed the labels. */
  lemma ProjectedColumn(m: Matrix, catalog: seq<KnobEntry>, idxs: seq<nat>,
                        parseFloat: string -> Option<real>, j: nat)
    requires Distinct(Names(catalog))
    requires IsMatrix(m, |catalog|)
    requires Distinct(idxs) && forall k :: 0 <= k < |idxs| ==> idxs[k] < |catalog|
    requires Names(catalog) != Select(Names(catalog), idxs)
    requires j < |catalog|
    ensures
      var out := CleanKnobData(SelectColumns(m, idxs), Select(Names(catalog), idxs), catalog, parseFloat).0;
      Column(out, j) == (if j in idxs then Column(m, j)
                         else Constant(|m|, DefaultValue(catalog[j], parseFloat)))
  {
    var names := Names(catalog);
    var labels := Select(names, idxs);
    var sel := SelectColumns(m, idxs);
    if j in idxs {
      var k :| 0 <= k < |idxs| && idxs[k] == j;
      assert labels[k] == names[j];
      var p := IndexOf(labels, names[j]).value;
      assert names[idxs[p]] == names[j];
      assert p == k;
      assert Column(sel, k) == Column(m, j);
    } else if names[j] in labels {
      assert false;
    }
  }

  /** Aligning a column permutation of catalog-ordered data gives that data back. */
  lemma CleanUndoesPermutation(m: Matrix, catalog: seq<KnobEntry>, perm: seq<nat>,
                               parseFloat: string -> Option<real>)
    requires Distinct(Names(catalog))
    requires IsMatrix(m, |catalog|)
    requires |perm| == |catalog| && Distinct(perm)
    requires forall k :: 0 <= k < |perm| ==> perm[k] < |catalog|
    requires forall j :: 0 <= j < |catalog| ==> j in perm
    ensures CleanKnobData(SelectColumns(m, perm), Select(Names(catalog), perm), catalog, parseFloat).0 == m
  {
    var out := CleanKnobData(SelectColumns(m, perm), Select(Names(catalog), perm), catalog, parseFloat).0;
    CleanUndoesProjection(m, catalog, perm, parseFloat);
    forall i | 0 <= i < |m|
      ensures out[i] == m[i]
    {
      forall j | 0 <= j < |catalog|
        ensures out[i][j] == m[i][j]
      {
        assert Column(out, j) == Column(m, j);
        assert Column(out, j)[i] == Column(m, j)[i];
      }
    }
  }

  // ---------------------------------------------------------------------------
  // clean_knob_data exactly as written: numpy shapes of the columns it stacks.

  /** A column about to be stacked: `knob_matrix[:, index]` is one-dimensional
      (`Flat`), `np.ones((nrows, 1)) * default` is two-dimensional (`Tall`). */
  datatype Piece = Flat(values: seq<real>) | Tall(values: seq<real>)

  /** numpy `np.hstack`: one-dimensional inputs are joined end to end, two-dimensional
      ones side by side; inputs of different dimension, or none at all, raise. */
  function HStack(pieces: seq<Piece>): (r: Result<seq<real>>)
  {
    if |pieces| == 0 then Err(ShapeMismatch)
    else if pieces[0].Flat? then
      if forall k :: 0 <= k < |pieces| ==> pieces[k].Flat? then Ok(ConcatValues(pieces))
      else Err(ShapeMismatch)
    else if forall k :: 0 <= k < |pieces| ==> pieces[k].Tall? && |pieces[k].values| == |pieces[0].values|
    then Ok(RowMajor(pieces, |pieces[0].values|))
    else Err(ShapeMismatch)
  }

  /** The pieces' values one after another. */
  function ConcatValues(pieces: seq<Piece>): (r: seq<real>)
  {
    if |pieces| == 0 then [] else ConcatValues(pieces[..|pieces| - 1]) + pieces[|pieces| - 1].values
  }

  /** The cells of side-by-side columns of height n, read row by row. */
  function RowMajor(pieces: seq<Piece>, n: nat): (r: seq<real>)
    requires forall k :: 0 <= k < |pieces| ==> |pieces[k].values| == n
    decreases n
  {
    if n == 0 then []
    else
      RowMajor(seq(|pieces|, k requires 0 <= k < |pieces| => Tall(pieces[k].values[..n - 1])), n - 1)
      + seq(|pieces|, k requires 0 <= k < |pieces| => pieces[k].values[n - 1])
  }

  /** numpy `a.reshape(nrows, -1)` of an array holding `flat` in row-major order; the
      unknown width cannot be inferred for zero rows, and must divide evenly. */
  function Reshape(flat: seq<real>, nrows: nat): (r: Result<Matrix>)
    ensures r.Ok? ==> |r.value| == nrows && nrows > 0 && IsMatrix(r.value, |flat| / nrows)
  {
    if nrows == 0 || |flat| % nrows != 0 then Err(ShapeMismatch)
    else
      DivExact(|flat|, nrows);
      Ok(Chunks(flat, |flat| / nrows, nrows))
  }

  lemma DivExact(a: nat, n: nat)
    requires n > 0 && a % n == 0
    ensures a == n * (a / n)
  {
  }

  /** `flat` cut into `n` consecutive rows of width `w`. */
  function Chunks(flat: seq<real>, w: nat, n: nat): (r: Matrix)
    requires |flat| == n * w
    ensures |r| == n && IsMatrix(r, w)
  {
    if n == 0 then []
    else
      assert |flat[w..]| == (n - 1) * w;
      [flat[..w]] + Chunks(flat[w..], w, n - 1)
  }

  /** The column clean_knob_data builds for the j-th catalog knob. */
  function PieceFor(matrix: Matrix, labels: seq<string>, catalog: seq<KnobEntry>,
                    parseFloat: string -> Option<real>, j: nat): Piece
    requires IsMatrix(matrix, |labels|) && j < |catalog|
  {
    match IndexOf(labels, catalog[j].name)
    case Some(k) => Flat(Column(matrix, k))
    case None => Tall(Constant(|matrix|, DefaultValue(catalog[j], parseFloat)))
  }

  /** The columns clean_knob_data builds, one per catalog knob. */
  function Pieces(matrix: Matrix, labels: seq<string>, catalog: seq<KnobEntry>,
                  parseFloat: string -> Option<real>): (ps: seq<Piece>)
    requires IsMatrix(matrix, |labels|)
    ensures |ps| == |catalog|
    ensures forall j :: 0 <= j < |catalog| ==> ps[j] == PieceFor(matrix, labels, catalog, parseFloat, j)
  {
    seq(|catalog|, j requires 0 <= j < |catalog| => PieceFor(matrix, labels, catalog, parseFloat, j))
  }

  /** clean_knob_data as written: the per-knob columns go through np.hstack and
      reshape(nrows, -1). */
  function CleanKnobDataAsWritten(matrix: Matrix, labels: seq<string>, catalog: seq<KnobEntry>,
                                  parseFloat: string -> Option<real>): (r: Result<(Matrix, seq<string>)>)
    requires IsMatrix(matrix, |labels|)
    ensures r.Ok? ==> r.value.1 == Names(catalog)
  {
    if Names(catalog) == labels then Ok((matrix, labels))
    else
      match HStack(Pieces(matrix, labels, catalog, parseFloat))
      case Err(e) => Err(e)
      case Ok(flat) =>
        match Reshape(flat, |matrix|)
        case Err(e) => Err(e)
        case Ok(m) => Ok((m, Names(catalog)))
  }

  /** As written, data that carries some catalog knobs and lacks others cannot be
      aligned at all: the stacked columns differ in dimension and numpy raises. */
  lemma AsWrittenMixedColumnsFail(matrix: Matrix, labels: seq<string>, catalog: seq<KnobEntry>,
                                  parseFloat: string -> Option<real>, present: nat, missing: nat)
    requires IsMatrix(matrix, |labels|)
    requires present < |catalog| && catalog[present].name in labels
    requires missing < |catalog| && catalog[missing].name !in labels
    ensures CleanKnobDataAsWritten(matrix, labels, catalog, parseFloat).Err?
  {
    assert Names(catalog)[missing] == catalog[missing].name;
    assert Names(catalog) != labels;
    var pieces := Pieces(matrix, labels, catalog, parseFloat);
    assert pieces[present].Flat? && pieces[missing].Tall?;
  }

  const SwapCatalog: seq<KnobEntry> :=
    [KnobEntry("b", RealType, "0", 0.0, 10.0, ""), KnobEntry("a", RealType, "0", 0.0, 10.0, "")]

  /** As written, reordering two columns of a two-row matrix moves cells between
      rows: the "b" column [2, 4] ends up as the first row. The corrected alignment
      swaps the columns. */
  lemma AsWrittenScramblesRows(parseFloat: string -> Option<real>)
    ensures CleanKnobDataAsWritten([[1.0, 2.0], [3.0, 4.0]], ["a", "b"], SwapCatalog, parseFloat)
            == Ok(([[2.0, 4.0], [1.0, 3.0]], ["b", "a"]))
    ensures CleanKnobData([[1.0, 2.0], [3.0, 4.0]], ["a", "b"], SwapCatalog, parseFloat).0
            == [[2.0, 1.0], [4.0, 3.0]]
  {
    SwapNames();
    SwapStacked(parseFloat);
    ReshapeTwoByTwo();
    SwapCorrected(parseFloat);
  }

  lemma SwapNames()
    ensures Names(SwapCatalog) == ["b", "a"]
    ensures IndexOf(["a", "b"], "b") == Some(1)
    ensures IndexOf(["a", "b"], "a") == Some(0)
  {
    assert Names(SwapCatalog)[0] == "b" && Names(SwapCatalog)[1] == "a";
  }

  lemma SwapStacked(parseFloat: string -> Option<real>)
    requires Names(SwapCatalog) == ["b", "a"]
    requires IndexOf(["a", "b"], "b") == Some(1) && IndexOf(["a", "b"], "a") == Some(0)
    ensures HStack(Pieces([[1.0, 2.0], [3.0, 4.0]], ["a", "b"], SwapCatalog, parseFloat))
            == Ok([2.0, 4.0, 1.0, 3.0])
  {
    var m := [[1.0, 2.0], [3.0, 4.0]];
    var pieces := Pieces(m, ["a", "b"], SwapCatalog, parseFloat);
    assert |pieces| == 2;
    assert Column(m, 1) == [2.0, 4.0];
    assert Column(m, 0) == [1.0, 3.0];
    assert pieces[0] == Flat([2.0, 4.0]);
    assert pieces[1] == Flat([1.0, 3.0]);
    assert pieces[..1] == [Flat([2.0, 4.0])];
    assert pieces[..1][..0] == [];
    assert ConcatValues(pieces[..1]) == [2.0, 4.0];
    assert ConcatValues(pieces) == [2.0, 4.0] + [1.0, 3.0];
    assert forall k :: 0 <= k < |pieces| ==> pieces[k].Flat?;
    assert HStack(pieces) == Ok(ConcatValues(pieces));
    assert [2.0, 4.0] + [1.0, 3.0] == [2.0, 4.0, 1.0, 3.0];
  }

  lemma ReshapeTwoByTwo()
    ensures Reshape([2.0, 4.0, 1.0, 3.0], 2) == Ok([[2.0, 4.0], [1.0, 3.0]])
  {
    var flat := [2.0, 4.0, 1.0, 3.0];
    var back := flat[2..];
    assert back == [1.0, 3.0];
    assert back[..2] == [1.0, 3.0];
    assert back[2..] == [];
    assert Chunks(back[2..], 2, 0) == [];
    assert Chunks(back, 2, 1) == [[1.0, 3.0]];
    assert flat[..2] == [2.0, 4.0];
    assert Chunks(flat, 2, 2) == [[2.0, 4.0], [1.0, 3.0]];
  }

  lemma SwapCorrected(parseFloat: string -> Option<real>)
    requires Names(SwapCatalog) == ["b", "a"]
    requires IndexOf(["a", "b"], "b") == Some(1) && IndexOf(["a", "b"], "a") == Some(0)
    ensures CleanKnobData([[1.0, 2.0], [3.0, 4.0]], ["a", "b"], SwapCatalog, parseFloat).0
            == [[2.0, 1.0], [4.0, 3.0]]
  {
    var m := [[1.0, 2.0], [3.0, 4.0]];
    var out := CleanKnobData(m, ["a", "b"], SwapCatalog, parseFloat).0;
    assert Column(out, 0) == Column(m, 1);
    assert Column(out, 1) == Column(m, 0);
    assert Column(out, 0)[0] == 2.0 && Column(out, 0)[1] == 4.0;
    assert Column(out, 1)[0] == 1.0 && Column(out, 1)[1] == 3.0;
    assert out[0] == [2.0, 1.0];
    assert out[1] == [4.0, 3.0];
  }

  // ---------------------------------------------------------------------------
  // clean_metric_data

  /** The metric layout: the target objective first, then the metric catalog. */
  function MetricLayout(objective: string, metricNames: seq<string>): seq<string> {
    [objective] + metricNames
  }

  /** Cell (i, ·) for metric `name`: the input column last labelled `name`, else 0. */
  function MetricCell(matrix: Matrix, labels: seq<string>, i: nat, name: string): real
    requires IsMatrix(matrix, |labels|) && i < |matrix|
  {
    match LastIndexOf(labels, name)
    case Some(k) => matrix[i][k]
    case None => 0.0
  }

  /** clean_metric_data: the result is labelled [objective] + catalog, keeps the
      row count, and each of its columns is the input column carrying that label
      (the last one when several do) or all zeros when none does. It never fails. */
  function CleanMetricData(matrix: Matrix, labels: seq<string>, objective: string,
                           metricNames: seq<string>): (r: (Matrix, seq<string>))
    requires IsMatrix(matrix, |labels|)
    ensures r.1 == MetricLayout(objective, metricNames)
    ensures |r.0| == |matrix| && IsMatrix(r.0, |r.1|)
    ensures forall j :: 0 <= j < |r.1| && r.1[j] in labels ==>
      Column(r.0, j) == Column(matrix, LastIndexOf(labels, r.1[j]).value)
    ensures forall j :: 0 <= j < |r.1| && r.1[j] !in labels ==>
      Column(r.0, j) == Constant(|matrix|, 0.0)
  {
    var layout := MetricLayout(objective, metricNames);
    var out := seq(|matrix|, i requires 0 <= i < |matrix| =>
                 seq(|layout|, j requires 0 <= j < |layout| => MetricCell(matrix, labels, i, layout[j])));
    assert forall j :: 0 <= j < |layout| && layout[j] in labels ==>
      Column(out, j) == Column(matrix, LastIndexOf(labels, layout[j]).value);
    assert forall j :: 0 <= j < |layout| && layout[j] !in labels ==>
      Column(out, j) == Constant(|matrix|, 0.0);
    (out, layout)
  }

  /** Aligning metric data twice is the same as aligning it once, even when the
      catalog repeats a name (such as the objective). */
  lemma CleanMetricIdempotent(matrix: Matrix, labels: seq<string>, objective: string,
                              metricNames: seq<string>)
    requires IsMatrix(matrix, |labels|)
    ensures
      var once := CleanMetricData(matrix, labels, objective, metricNames);
      CleanMetricData(once.0, once.1, objective, metricNames) == once
  {
    var once := CleanMetricData(matrix, labels, objective, metricNames);
    var layout := once.1;
    var twice := CleanMetricData(once.0, layout, objective, metricNames);
    forall i | 0 <= i < |matrix|
      ensures twice.0[i] == once.0[i]
    {
      forall j | 0 <= j < |layout|
        ensures twice.0[i][j] == once.0[i][j]
      {
        assert layout[j] in layout;
        var k := LastIndexOf(layout, layout[j]).value;
        assert Column(twice.0, j)[i] == Column(once.0, k)[i];
        SameLabelSameColumn(matrix, labels, objective, metricNames, i, j, k);
      }
    }
    assert twice.1 == once.1;
    assert twice.0 == once.0;
  }

  /** Two columns of aligned metric data with the same label hold the same values. */
  lemma SameLabelSameColumn(matrix: Matrix, labels: seq<string>, objective: string,
                            metricNames: seq<string>, i: nat, j: nat, k: nat)
    requires IsMatrix(matrix, |labels|) && i < |matrix|
    requires j < 1 + |metricNames| && k < 1 + |metricNames|
    requires MetricLayout(objective, metricNames)[j] == MetricLayout(objective, metricNames)[k]
    ensures
      var once := CleanMetricData(matrix, labels, objective, metricNames).0;
      once[i][j] == once[i][k]
  {
    var once := CleanMetricData(matrix, labels, objective, metricNames).0;
    var layout := MetricLayout(objective, metricNames);
    if layout[j] in labels {
      assert Column(once, j)[i] == Column(once, k)[i];
    } else {
      assert Column(once, j)[i] == 0.0 == Column(once, k)[i];
    }
  }
}
