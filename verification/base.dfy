/** Shared vocabulary of the recommendation pipeline: failure values, matrices
    as sequences of rows, and the label lookups that the Python/numpy code
    performs on lists of column names. */
module Base {

  datatype Option<T> = None | Some(value: T)

  /** One constructor per kind of exception the modelled code can raise. */
  datatype Error =
    | ShapeMismatch                    // numpy could not concatenate, reshape or broadcast
    | NoTargetResults                  // no results for the session, dbms and workload
    | XLabelMismatch                   // workload and target knob labels differ
    | YLabelMismatch                   // workload and target metric labels differ
    | ObjectiveMissing                 // the target objective is not a metric label
    | ObjectiveDuplicated(count: nat)  // the target objective labels several columns
    | EmptyRange                       // random.randint(a, b) with a > b
    | UnknownVarType(code: int)        // a knob type gen_random_data does not know
    | EmptyArray                       // min, argmin, or a scaler fit over no rows or no columns
    | IndexOutOfRange                  // a column index past the end of a label list
    | RowLabelMismatch                 // cached knob and metric row labels disagree
    | NoSurrogate                      // the algorithm is neither GPR nor DNN
    | MissingConfig                    // a "bad" round carries no configuration

  datatype Result<T> = Ok(value: T) | Err(error: Error)

  type Row = seq<real>
  type Matrix = seq<Row>

  /** Every row of `m` has `ncols` entries. */
  predicate IsMatrix(m: Matrix, ncols: nat) {
    forall i :: 0 <= i < |m| ==> |m[i]| == ncols
  }

  /** Stacking two `ncols`-column matrices (numpy `vstack`) gives one. */
  lemma StackIsMatrix(a: Matrix, b: Matrix, ncols: nat)
    requires IsMatrix(a, ncols) && IsMatrix(b, ncols)
    ensures IsMatrix(a + b, ncols)
  {
    forall i | 0 <= i < |a + b|
      ensures |(a + b)[i]| == ncols
    {
      if i >= |a| {
        assert (a + b)[i] == b[i - |a|];
      }
    }
  }

  /** Column `j` of `m` (numpy `m[:, j]`). */
  function Column(m: Matrix, j: nat): (c: seq<real>)
    requires forall i :: 0 <= i < |m| ==> j < |m[i]|
    ensures |c| == |m|
    ensures forall i :: 0 <= i < |m| ==> c[i] == m[i][j]
  {
    seq(|m|, i requires 0 <= i < |m| => m[i][j])
  }

  /** A column of `n` copies of `v` (numpy `np.ones(n) * v`). */
  function Constant(n: nat, v: real): (c: seq<real>)
    ensures |c| == n
    ensures forall i :: 0 <= i < n ==> c[i] == v
  {
    seq(n, _ => v)
  }

  /** The elements of `s` at positions `idxs`, in that order (numpy fancy indexing). */
  function Select<T>(s: seq<T>, idxs: seq<nat>): (r: seq<T>)
    requires forall k :: 0 <= k < |idxs| ==> idxs[k] < |s|
    ensures |r| == |idxs|
    ensures forall k :: 0 <= k < |idxs| ==> r[k] == s[idxs[k]]
  {
    seq(|idxs|, k requires 0 <= k < |idxs| => s[idxs[k]])
  }

  /** The columns of `m` at positions `idxs` (numpy `m[:, idxs]`). */
  function SelectColumns(m: Matrix, idxs: seq<nat>): (r: Matrix)
    requires forall i, k :: 0 <= i < |m| && 0 <= k < |idxs| ==> idxs[k] < |m[i]|
    ensures |r| == |m| && IsMatrix(r, |idxs|)
    ensures forall i, k :: 0 <= i < |m| && 0 <= k < |idxs| ==> r[i][k] == m[i][idxs[k]]
  {
    seq(|m|, i requires 0 <= i < |m| => Select(m[i], idxs))
  }

  /** `range(n)` as a sequence of positions. */
  function Range(n: nat): (r: seq<nat>)
    ensures |r| == n && forall i :: 0 <= i < n ==> r[i] == i
  {
    seq(n, i requires 0 <= i < n => i as nat)
  }

  /** Selecting every column, in order, leaves a matrix as it is. */
  lemma SelectAllColumns(m: Matrix, n: nat)
    requires IsMatrix(m, n)
    ensures SelectColumns(m, Range(n)) == m
  {
    var r := SelectColumns(m, Range(n));
    forall i | 0 <= i < |m|
      ensures r[i] == m[i]
    {
    }
  }

  predicate Distinct<T(==)>(s: seq<T>) {
    forall i, j :: 0 <= i < j < |s| ==> s[i] != s[j]
  }

  predicate StrictlyIncreasing(s: seq<nat>) {
    forall i, j :: 0 <= i < j < |s| ==> s[i] < s[j]
  }

  /** Python `s.index(x)`: the first position holding `x`; None where Python raises ValueError. */
  function IndexOf<T(==)>(s: seq<T>, x: T): (r: Option<nat>)
    ensures r.Some? <==> x in s
    ensures r.Some? ==> r.value < |s| && s[r.value] == x && x !in s[..r.value]
  {
    if |s| == 0 then None
    else if s[0] == x then Some(0)
    else match IndexOf(s[1..], x)
      case None => None
      case Some(i) =>
        assert s[..i + 1] == [s[0]] + s[1..][..i];
        Some(i + 1)
  }

  /** The last position holding `x`: what a dict built by `{n: i for i, n in enumerate(s)}` maps `x` to. */
  function LastIndexOf<T(==)>(s: seq<T>, x: T): (r: Option<nat>)
    ensures r.Some? <==> x in s
    ensures r.Some? ==> r.value < |s| && s[r.value] == x && x !in s[r.value + 1..]
  {
    if |s| == 0 then None
    else if s[|s| - 1] == x then Some(|s| - 1)
    else match LastIndexOf(s[..|s| - 1], x)
      case None => None
      case Some(i) =>
        assert s[i + 1..] == s[..|s| - 1][i + 1..] + [s[|s| - 1]];
        Some(i)
  }

  /** `[i for i, l in enumerate(labels) if l in keep]`: the positions whose label is
      kept, in increasing order, and no others. */
  function IndicesIn<T(==)>(labels: seq<T>, keep: seq<T>): (r: seq<nat>)
    ensures StrictlyIncreasing(r)
    ensures forall k :: 0 <= k < |r| ==> r[k] < |labels| && labels[r[k]] in keep
    ensures forall i :: 0 <= i < |labels| && labels[i] in keep ==> i in r
  {
    if |labels| == 0 then []
    else
      var front := IndicesIn(labels[..|labels| - 1], keep);
      if labels[|labels| - 1] in keep then front + [|labels| - 1] else front
  }

  /** The position of the first smallest entry (numpy `argmin`). */
  function ArgMin(v: seq<real>): (r: nat)
    requires |v| > 0
    ensures r < |v|
    ensures forall i :: 0 <= i < |v| ==> v[r] <= v[i]
    ensures forall i :: 0 <= i < r ==> v[r] < v[i]
  {
    if |v| == 1 then 0
    else
      var k := ArgMin(v[..|v| - 1]);
      if v[|v| - 1] < v[k] then |v| - 1 else k
  }

  /** The first smallest entry is the only position that is smallest and beaten by
      nothing before it. */
  lemma ArgMinUnique(v: seq<real>, r: nat)
    requires r < |v|
    requires forall i :: 0 <= i < |v| ==> v[r] <= v[i]
    requires forall i :: 0 <= i < r ==> v[r] < v[i]
    ensures ArgMin(v) == r
  {
  }

  /** Sum of squared differences (the squared Euclidean distance): never negative, and
      zero from a row to itself. */
  function SquaredDistance(a: Row, b: Row): (d: real)
    requires |a| == |b|
    ensures d >= 0.0
    ensures a == b ==> d == 0.0
  {
    if |a| == 0 then 0.0
    else
      var rest := SquaredDistance(a[1..], b[1..]);
      var diff := a[0] - b[0];
      diff * diff + rest
  }
}
