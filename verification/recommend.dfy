/** configuration_recommendation: the stage that turns the combined training data
    into the next configuration. A cold-start ("bad") round passes its ready-made
    configuration through; otherwise random samples within the column bounds plus
    the best training rows (slightly nudged) seed a surrogate model's search, and
    the best configuration it finds is mapped back to knob values and clamped to
    the knob ranges. */
module Recommend {
  import opened Base
  import opened Catalog
  import opened Payload
  import opened Combine
  import ColdStart

  /** The algorithms a session can tune with. DDPG is served by its own task. */
  datatype Algorithm = Gpr | Dnn | Ddpg

  datatype Status = Good | Bad

  /** The message stored with a recommendation; `TrainingDataSize(n)` is the
      "training data size is n" message. */
  datatype Info = Message(text: string) | TrainingDataSize(rows: nat)

  datatype Recommendation = Recommendation(status: Status, info: Info, config: Config,
                                           pipelineRun: Option<nat>)

  const RandomlyGenerated: string := "Randomly generated"
  const GeneratedByLhs: string := "WARNING: no training data, the config is generated by LHS"

  /** The session setting under which cold-start configurations are drawn at random. */
  const RandomTuning: string := "randomly_generate"

  // ---------------------------------------------------------------------------
  // The cold-start path

  /** A "bad" round: the configuration chosen while aggregating is recommended as is,
      marked bad, with a message saying how it was made. */
  function BadRecommendation(target: TargetData, tuningSession: string): (r: Result<Recommendation>)
    ensures r.Err? <==> target.configRecommend.None?
    ensures r.Err? ==> r.error == MissingConfig
    ensures r.Ok? ==>
      && r.value.status == Bad
      && r.value.config == target.configRecommend.value
      && r.value.pipelineRun == target.pipelineRun
    ensures r.Ok? ==>
      && (tuningSession == RandomTuning ==> r.value.info == Message(RandomlyGenerated))
      && (tuningSession != RandomTuning ==> r.value.info == Message(GeneratedByLhs))
  {
    match target.configRecommend
    case None => Err(MissingConfig)
    case Some(config) =>
      var info := if tuningSession == RandomTuning then RandomlyGenerated else GeneratedByLhs;
      Ok(Recommendation(Bad, Message(info), config, target.pipelineRun))
  }

  // ---------------------------------------------------------------------------
  // Random starting points

  /** `u * (hi - lo) + lo` lies between `lo` and `hi` for a draw `u` in [0, 1). */
  lemma Interpolate(lo: real, hi: real, u: real)
    requires lo <= hi && 0.0 <= u < 1.0
    ensures lo <= u * (hi - lo) + lo <= hi
  {
    ColdStart.MulNonneg(u, hi - lo);
    ColdStart.MulNonneg(1.0 - u, hi - lo);
    assert (1.0 - u) * (hi - lo) == (hi - lo) - u * (hi - lo);
  }

  /** `numSamples` random rows, column `j` drawn uniformly from [xMin[j], xMax[j]);
      `draw(s, j)` stands for the `s`-th number of column `j`'s `np.random.rand`. */
  function RandomSamples(numSamples: nat, draw: (nat, nat) -> real, xMin: Row, xMax: Row): (r: Matrix)
    requires |xMin| == |xMax|
    ensures |r| == numSamples && IsMatrix(r, |xMin|)
    ensures forall s, j :: 0 <= s < numSamples && 0 <= j < |xMin| &&
                           0.0 <= draw(s, j) < 1.0 && xMin[j] <= xMax[j] ==>
      xMin[j] <= r[s][j] <= xMax[j]
  {
    var r := seq(numSamples, s requires 0 <= s < numSamples =>
               seq(|xMin|, j requires 0 <= j < |xMin| => draw(s, j) * (xMax[j] - xMin[j]) + xMin[j]));
    assert forall s, j :: 0 <= s < numSamples && 0 <= j < |xMin| &&
                          0.0 <= draw(s, j) < 1.0 && xMin[j] <= xMax[j] ==>
      xMin[j] <= r[s][j] <= xMax[j] by {
      forall s, j | 0 <= s < numSamples && 0 <= j < |xMin| &&
                    0.0 <= draw(s, j) < 1.0 && xMin[j] <= xMax[j]
        ensures xMin[j] <= r[s][j] <= xMax[j]
      {
        Interpolate(xMin[j], xMax[j], draw(s, j));
      }
    }
    r
  }

  // ---------------------------------------------------------------------------
  // Seeds: the training rows the priority queue pops first

  /** The order of the queue of `(y[x], x)` pairs: by objective value, ties broken by
      the smaller row index. */
  predicate Before(y: seq<real>, a: nat, b: nat)
    requires a < |y| && b < |y|
  {
    y[a] < y[b] || (y[a] == y[b] && a < b)
  }

  /** The entry of `pending` the queue pops first. */
  function Smallest(y: seq<real>, pending: seq<nat>): (m: nat)
    requires |pending| > 0
    requires forall i :: 0 <= i < |pending| ==> pending[i] < |y|
    ensures m < |y| && m in pending
    ensures forall i :: 0 <= i < |pending| ==> m == pending[i] || Before(y, m, pending[i])
  {
    if |pending| == 1 then pending[0]
    else
      var rest := Smallest(y, pending[1..]);
      assert forall i :: 1 <= i < |pending| ==> pending[i] == pending[1..][i - 1];
      if Before(y, pending[0], rest) then pending[0] else rest
  }

  /** `s` with `x` taken out. */
  function Without(s: seq<nat>, x: nat): (r: seq<nat>)
    ensures forall v :: v in r <==> v in s && v != x
    ensures x !in s ==> r == s
    ensures Distinct(s) ==> Distinct(r) && (x in s ==> |r| == |s| - 1)
  {
    if |s| == 0 then []
    else
      var rest := Without(s[1..], x);
      assert s == [s[0]] + s[1..];
      assert Distinct(s) ==> s[0] !in s[1..] && Distinct(s[1..]);
      if s[0] == x then rest
      else
        assert s[0] !in s[1..] ==> s[0] !in rest;
        assert x in s ==> x in s[1..];
        [s[0]] + rest
  }

  /** The first `k` entries popped from a queue holding the rows `pending` (fewer if the
      queue runs empty): in queue order, and every row left behind comes after all of
      them. */
  function PopOrder(y: seq<real>, pending: seq<nat>, k: nat): (r: seq<nat>)
    requires Distinct(pending)
    requires forall i :: 0 <= i < |pending| ==> pending[i] < |y|
    ensures |r| == if k < |pending| then k else |pending|
    ensures forall i :: 0 <= i < |r| ==> r[i] < |y| && r[i] in pending
    ensures forall i, j :: 0 <= i < j < |r| ==> Before(y, r[i], r[j])
    ensures forall i, p :: 0 <= i < |r| && p in pending && p !in r ==> Before(y, r[i], p)
    decreases k
  {
    if k == 0 || |pending| == 0 then []
    else
      var m := Smallest(y, pending);
      var left := Without(pending, m);
      assert forall i :: 0 <= i < |left| ==> left[i] < |y| by {
        forall i | 0 <= i < |left| ensures left[i] < |y| {
          assert left[i] in pending;
        }
      }
      var rest := PopOrder(y, left, k - 1);
      PopStep(y, pending, m, rest);
      [m] + rest
  }

  /** Popping the smallest entry and then the queue order of the rest is the queue
      order of the whole. */
  lemma PopStep(y: seq<real>, pending: seq<nat>, m: nat, rest: seq<nat>)
    requires forall i :: 0 <= i < |pending| ==> pending[i] < |y|
    requires m < |y| && m in pending
    requires forall i :: 0 <= i < |pending| ==> m == pending[i] || Before(y, m, pending[i])
    requires forall i :: 0 <= i < |rest| ==> rest[i] < |y| && rest[i] in pending && rest[i] != m
    requires forall i, j :: 0 <= i < j < |rest| ==> Before(y, rest[i], rest[j])
    requires forall i, p :: 0 <= i < |rest| && p in pending && p != m && p !in rest ==> Before(y, rest[i], p)
    ensures forall i :: 0 <= i < |[m] + rest| ==> ([m] + rest)[i] < |y| && ([m] + rest)[i] in pending
    ensures forall i, j :: 0 <= i < j < |[m] + rest| ==> Before(y, ([m] + rest)[i], ([m] + rest)[j])
    ensures forall i, p :: 0 <= i < |[m] + rest| && p in pending && p !in [m] + rest ==>
      Before(y, ([m] + rest)[i], p)
  {
    var r := [m] + rest;
    assert forall j :: 0 <= j < |rest| ==> Before(y, m, rest[j]) by {
      forall j | 0 <= j < |rest| ensures Before(y, m, rest[j]) {
        var q :| 0 <= q < |pending| && pending[q] == rest[j];
      }
    }
    forall i, j | 0 <= i < j < |r|
      ensures Before(y, r[i], r[j])
    {
      if i > 0 {
        assert r[i] == rest[i - 1] && r[j] == rest[j - 1];
      }
    }
    forall i, p | 0 <= i < |r| && p in pending && p !in r
      ensures Before(y, r[i], p)
    {
      var q :| 0 <= q < |pending| && pending[q] == p;
      if i > 0 {
        assert r[i] == rest[i - 1];
      }
    }
  }

  /** How many seeds the loop pops: `TOP_NUM_CONFIG`, at most all rows, none if negative. */
  function SeedCount(topNumConfig: int, rows: nat): nat {
    if topNumConfig <= 0 then 0 else if topNumConfig < rows then topNumConfig else rows
  }

  /** The rows whose scaled objective is smallest, best first. */
  function Seeds(y: seq<real>, topNumConfig: int): (r: seq<nat>)
    ensures |r| == SeedCount(topNumConfig, |y|)
    ensures forall i :: 0 <= i < |r| ==> r[i] < |y|
    ensures forall i, j :: 0 <= i < j < |r| ==> Before(y, r[i], r[j])
    ensures forall i, p :: 0 <= i < |r| && 0 <= p < |y| && p !in r ==> Before(y, r[i], p)
  {
    var all := Range(|y|);
    assert forall p :: 0 <= p < |y| ==> p in all by {
      forall p | 0 <= p < |y| ensures p in all { assert all[p] == p; }
    }
    PopOrder(y, all, if topNumConfig <= 0 then 0 else topNumConfig)
  }

  /** The first seed is the training row of smallest loss that numpy's `argmin` would
      pick: the queue and `argmin` break ties the same way. */
  lemma {:induction false} FirstSeedIsArgMin(y: seq<real>, topNumConfig: int)
    requires |y| > 0 && topNumConfig > 0
    ensures Seeds(y, topNumConfig)[0] == ArgMin(y)
  {
    var seeds := Seeds(y, topNumConfig);
    var m := seeds[0];
    forall i | 0 <= i < |y| && i != m
      ensures Before(y, m, i)
    {
      if i in seeds {
        var j :| 0 <= j < |seeds| && seeds[j] == i;
        assert j != 0;
        assert Before(y, seeds[0], seeds[j]);
      }
    }
    forall i | 0 <= i < |y|
      ensures y[m] <= y[i] && (i < m ==> y[m] < y[i])
    {
      if i != m {
        assert Before(y, m, i);
      }
    }
    ArgMinUnique(y, m);
  }

  function Abs(x: real): real {
    if x < 0.0 then -x else x
  }

  /** A training row moved off itself by `|eps|` in every column: downwards when it sits
      within 0.001 (squared) of the upper bounds, upwards otherwise. */
  function Nudge(row: Row, xMax: Row, eps: real): (r: Row)
    requires |xMax| == |row|
    ensures |r| == |row|
    ensures SquaredDistance(xMax, row) < 0.001 ==> forall j :: 0 <= j < |row| ==> r[j] == row[j] - Abs(eps)
    ensures SquaredDistance(xMax, row) >= 0.001 ==> forall j :: 0 <= j < |row| ==> r[j] == row[j] + Abs(eps)
  {
    var shift := if SquaredDistance(xMax, row) < 0.001 then -Abs(eps) else Abs(eps);
    seq(|row|, j requires 0 <= j < |row| => row[j] + shift)
  }

  /** With a non-zero bias, no nudged seed is the training row it came from, and a row at
      the upper bounds is moved below them. */
  lemma NudgeMovesOff(row: Row, xMax: Row, eps: real)
    requires |xMax| == |row| && |row| > 0 && eps != 0.0
    ensures Nudge(row, xMax, eps) != row
    ensures row == xMax ==> forall j :: 0 <= j < |row| ==> Nudge(row, xMax, eps)[j] < xMax[j]
  {
    assert Nudge(row, xMax, eps)[0] != row[0];
  }

  /** The seed rows in queue order, each nudged off itself. */
  function NudgedSeeds(c: Combined, topNumConfig: int, eps: real): (r: Matrix)
    requires Trainable(c)
    ensures |r| == SeedCount(topNumConfig, |c.yScaled|) && IsMatrix(r, |c.xMin|)
    ensures forall k :: 0 <= k < |r| ==>
      r[k] == Nudge(c.xScaled[Seeds(c.yScaled, topNumConfig)[k]], c.xMax, eps)
  {
    var seeds := Seeds(c.yScaled, topNumConfig);
    seq(|seeds|, k requires 0 <= k < |seeds| => Nudge(c.xScaled[seeds[k]], c.xMax, eps))
  }

  /** The starting points: the random samples followed by the nudged seed rows. */
  function StartingPoints(c: Combined, numSamples: nat, draw: (nat, nat) -> real,
                          topNumConfig: int, eps: real): (r: Matrix)
    requires Trainable(c)
    ensures |r| == numSamples + SeedCount(topNumConfig, |c.yScaled|)
    ensures IsMatrix(r, |c.xMin|)
    ensures forall s, j :: 0 <= s < numSamples && 0 <= j < |c.xMin| &&
                           0.0 <= draw(s, j) < 1.0 && c.xMin[j] <= c.xMax[j] ==>
      c.xMin[j] <= r[s][j] <= c.xMax[j]
    ensures forall k :: 0 <= k < SeedCount(topNumConfig, |c.yScaled|) ==>
      r[numSamples + k] == NudgedSeeds(c, topNumConfig, eps)[k]
  {
    var samples := RandomSamples(numSamples, draw, c.xMin, c.xMax);
    var nudged := NudgedSeeds(c, topNumConfig, eps);
    StackIsMatrix(samples, nudged, |c.xMin|);
    assert forall k :: 0 <= k < |nudged| ==> (samples + nudged)[numSamples + k] == nudged[k];
    samples + nudged
  }

  // ---------------------------------------------------------------------------
  // The surrogate search and the chosen configuration

  /** What a model's search returns: the loss it reached from each starting point
      (`minl`) and the scaled configuration where it got there (`minl_conf`). */
  datatype SearchResult = SearchResult(minl: seq<real>, minlConf: Matrix)

  /** A surrogate model: fitted on the combined data, searching from the starting points
      within the bounds. Its internals (GPR with gradient descent, or the neural network)
      are not modelled. */
  type Surrogate = (Combined, Matrix) -> SearchResult

  /** A search returns one loss per configuration found, each as wide as the columns. */
  ghost predicate SurrogateShape(model: Surrogate) {
    forall c: Combined, starts: Matrix {:trigger model(c, starts)} :: Trainable(c) ==>
      && |model(c, starts).minl| == |model(c, starts).minlConf|
      && IsMatrix(model(c, starts).minlConf, |c.xMin|)
  }

  datatype Surrogates = Surrogates(gpr: Surrogate, dnn: Surrogate)

  /** The search of the chosen algorithm; DDPG has none here (its result stays None, and
      reading `minl` from it raises). */
  function Search(algorithm: Algorithm, models: Surrogates, c: Combined, starts: Matrix): (r: Result<SearchResult>)
    ensures r.Err? <==> algorithm == Ddpg
    ensures r.Err? ==> r.error == NoSurrogate
    ensures algorithm == Gpr ==> r == Ok(models.gpr(c, starts))
    ensures algorithm == Dnn ==> r == Ok(models.dnn(c, starts))
  {
    match algorithm
    case Gpr => Ok(models.gpr(c, starts))
    case Dnn => Ok(models.dnn(c, starts))
    case Ddpg => Err(NoSurrogate)
  }

  function Minimum(x: real, y: real): real {
    if x <= y then x else y
  }

  function Maximum(x: real, y: real): real {
    if x >= y then x else y
  }

  /** numpy's elementwise `op(a, b)` on two 1-D arrays: equal lengths pair up, a side of
      length one is repeated, any other pair of lengths raises. */
  function Broadcast(a: Row, b: Row, op: (real, real) -> real): (r: Result<Row>)
    ensures r.Ok? <==> |a| == |b| || |a| == 1 || |b| == 1
    ensures r.Err? ==> r.error == ShapeMismatch
    ensures r.Ok? ==> |r.value| == (if |a| == 1 then |b| else |a|)
    ensures r.Ok? && |a| == |b| ==> forall i :: 0 <= i < |a| ==> r.value[i] == op(a[i], b[i])
  {
    if |a| == |b| then Ok(seq(|a|, i requires 0 <= i < |a| => op(a[i], b[i])))
    else if |a| == 1 then Ok(seq(|b|, i requires 0 <= i < |b| => op(a[0], b[i])))
    else if |b| == 1 then Ok(seq(|a|, i requires 0 <= i < |a| => op(a[i], b[0])))
    else Err(ShapeMismatch)
  }

  /** `np.maximum(np.minimum(v, hi), lo)`. Where the lengths agree, each value ends up
      within its bounds (at the lower one if they are crossed), and a value already
      within them is kept. */
  function Clamp(v: Row, lo: Row, hi: Row): (r: Result<Row>)
    ensures |v| == |lo| == |hi| ==> r.Ok? && |r.value| == |v|
    ensures r.Ok? && |v| == |lo| == |hi| ==> forall j :: 0 <= j < |v| ==>
      && (lo[j] <= hi[j] ==> lo[j] <= r.value[j] <= hi[j])
      && (lo[j] <= v[j] <= hi[j] ==> r.value[j] == v[j])
      && (hi[j] < lo[j] ==> r.value[j] == lo[j])
  {
    match Broadcast(v, hi, Minimum)
    case Err(e) => Err(e)
    case Ok(upper) => Broadcast(upper, lo, Maximum)
  }

  /** Clamping twice is clamping once. */
  lemma {:induction false} ClampIdempotent(v: Row, lo: Row, hi: Row)
    requires |v| == |lo| == |hi|
    requires forall j :: 0 <= j < |lo| ==> lo[j] <= hi[j]
    ensures Clamp(Clamp(v, lo, hi).value, lo, hi) == Clamp(v, lo, hi)
  {
    var once := Clamp(v, lo, hi).value;
    var twice := Clamp(once, lo, hi).value;
    assert forall j :: 0 <= j < |v| ==> lo[j] <= once[j] <= hi[j];
    assert forall j :: 0 <= j < |v| ==> twice[j] == once[j];
    assert twice == once;
  }

  /** `{k: values[i] for i, k in enumerate(labels)}`: raises IndexError when there are
      fewer values than labels; a label that repeats keeps its last value. */
  function ConfMap(labels: seq<string>, values: Row): (r: Result<Config>)
    ensures r.Ok? <==> |labels| <= |values|
    ensures r.Err? ==> r.error == IndexOutOfRange
    ensures r.Ok? ==> r.value.Keys == set l | l in labels
    ensures r.Ok? ==> forall l :: l in labels ==>
      LastIndexOf(labels, l).value < |values| &&
      r.value[l] == RealVal(values[LastIndexOf(labels, l).value])
  {
    if |labels| > |values| then Err(IndexOutOfRange)
    else if |labels| == 0 then Ok(map[])
    else
      var front := ConfMap(labels[..|labels| - 1], values).value;
      var last := labels[|labels| - 1];
      assert labels == labels[..|labels| - 1] + [last];
      Ok(front[last := RealVal(values[|labels| - 1])])
  }

  /** The search's best configuration, unscaled, decoded when dummy encoding is on,
      clamped to the unscaled bounds and keyed by the column labels. No search result at
      all makes `argmin` raise. */
  function Finalize(c: Combined, res: SearchResult): (r: Result<Config>)
    requires Trainable(c)
    requires |res.minl| == |res.minlConf| && IsMatrix(res.minlConf, |c.xMin|)
    ensures |res.minl| == 0 ==> r == Err(EmptyArray)
    ensures r.Ok? ==> r.value.Keys == set l | l in c.xLabels
  {
    if |res.minl| == 0 then Err(EmptyArray)
    else
      var best := UnscaleRow(c.scaler, res.minlConf[ArgMin(res.minl)]);
      var decoded := if c.encoder.Some? then c.encoder.value.decode(best) else best;
      match Clamp(decoded, UnscaleRow(c.scaler, c.xMin), UnscaleRow(c.scaler, c.xMax))
      case Err(e) => Err(e)
      case Ok(v) => ConfMap(c.xLabels, v)
  }

  /** Without dummy encoding: the recommended value of each column is the search's best
      configuration, unscaled, clamped to the unscaled bounds. */
  lemma {:induction false} FinalizeChoosesBest(c: Combined, res: SearchResult, l: string)
    requires Trainable(c) && c.encoder.None?
    requires |res.minl| == |res.minlConf| > 0 && IsMatrix(res.minlConf, |c.xMin|)
    requires l in c.xLabels
    ensures Finalize(c, res).Ok?
    ensures
      var j := LastIndexOf(c.xLabels, l).value;
      var best := res.minlConf[ArgMin(res.minl)];
      var lo := UnscaleCell(c.scaler, j, c.xMin[j]);
      var hi := UnscaleCell(c.scaler, j, c.xMax[j]);
      var v := UnscaleCell(c.scaler, j, best[j]);
      && (c.xMin[j] <= c.xMax[j] ==> lo <= Finalize(c, res).value[l].r <= hi)
      && (c.xMin[j] <= best[j] <= c.xMax[j] ==> Finalize(c, res).value[l] == RealVal(v))
  {
    var j := LastIndexOf(c.xLabels, l).value;
    var best := res.minlConf[ArgMin(res.minl)];
    var unscaled := UnscaleRow(c.scaler, best);
    var lo := UnscaleRow(c.scaler, c.xMin);
    var hi := UnscaleRow(c.scaler, c.xMax);
    var v := Clamp(unscaled, lo, hi).value;
    assert Finalize(c, res) == ConfMap(c.xLabels, v);
    ScaleMonotone(c.scaler, j, c.xMin[j], c.xMax[j]);
    ScaleMonotone(c.scaler, j, c.xMin[j], best[j]);
    ScaleMonotone(c.scaler, j, best[j], c.xMax[j]);
  }

  /** Without dummy encoding, a recommended knob that the catalog declares stays inside
      its declared range (the range of the catalog's last entry of that name). */
  lemma {:induction false} KnobRangeRespected(c: Combined, catalog: seq<KnobEntry>, res: SearchResult, l: string)
    requires Trainable(c) && c.encoder.None? && CatalogBounded(c, catalog)
    requires forall k :: 0 <= k < |catalog| ==> catalog[k].minval <= catalog[k].maxval
    requires |res.minl| == |res.minlConf| > 0 && IsMatrix(res.minlConf, |c.xMin|)
    requires l in c.xLabels && l in Names(catalog)
    ensures Finalize(c, res).Ok?
    ensures
      var k := catalog[LastIndexOf(Names(catalog), l).value];
      Finalize(c, res).value[l].RealVal? && k.minval <= Finalize(c, res).value[l].r <= k.maxval
  {
    var j := LastIndexOf(c.xLabels, l).value;
    var k := catalog[LastIndexOf(Names(catalog), l).value];
    FinalizeChoosesBest(c, res, l);
    assert c.xMin[j] == ScaleCell(c.scaler, j, k.minval) && c.xMax[j] == ScaleCell(c.scaler, j, k.maxval);
    ScaleRoundTrip(c.scaler, j, k.minval, 0.0);
    ScaleRoundTrip(c.scaler, j, k.maxval, 0.0);
    ScaleMonotone(c.scaler, j, k.minval, k.maxval);
  }

  // ---------------------------------------------------------------------------
  // The stage

  /** The hyperparameters the stage reads: `NUM_SAMPLES`, `TOP_NUM_CONFIG` and `GPR_EPS`. */
  datatype Params = Params(numSamples: nat, topNumConfig: int, gprEps: real)

  /** The good path after combine_workload: starting points, search, best configuration,
      and a recommendation reporting the training data size. */
  function RecommendFrom(c: Combined, target: TargetData, algorithm: Algorithm, models: Surrogates,
                         params: Params, draw: (nat, nat) -> real): (r: Result<Recommendation>)
    requires Trainable(c)
    requires SurrogateShape(models.gpr) && SurrogateShape(models.dnn)
    ensures algorithm == Ddpg ==> r == Err(NoSurrogate)
    ensures r.Ok? ==>
      && r.value.status == Good
      && r.value.info == TrainingDataSize(|c.xScaled|)
      && r.value.pipelineRun == target.pipelineRun
      && r.value.config.Keys == set l | l in c.xLabels
    ensures r.Ok? ==>
      var starts := StartingPoints(c, params.numSamples, draw, params.topNumConfig, params.gprEps);
      Finalize(c, Search(algorithm, models, c, starts).value) == Ok(r.value.config)
  {
    var starts := StartingPoints(c, params.numSamples, draw, params.topNumConfig, params.gprEps);
    match Search(algorithm, models, c, starts)
    case Err(e) => Err(e)
    case Ok(res) =>
      match Finalize(c, res)
      case Err(e) => Err(e)
      case Ok(config) => Ok(Recommendation(Good, TrainingDataSize(|c.xScaled|), config, target.pipelineRun))
  }

  /** What the stage needs: combine_workload's inputs and well-shaped surrogates. */
  ghost predicate RecommendInputs(target: TargetData, cache: PipelineData, importantKnobs: int,
                                  encoder: Option<Encoder>, lib: Library, models: Surrogates) {
    CombineInputs(target, cache, importantKnobs, encoder, lib) &&
    SurrogateShape(models.gpr) && SurrogateShape(models.dnn)
  }

  /** configuration_recommendation. A bad round skips everything and recommends its
      configuration; otherwise combine_workload's failure is the stage's failure, and a
      good recommendation names every combined knob column. */
  function ConfigurationRecommendation(target: TargetData, tuningSession: string, algorithm: Algorithm,
                                       cache: PipelineData, catalog: seq<KnobEntry>, objective: string,
                                       lessIsBetter: bool, importantKnobs: int, encoder: Option<Encoder>,
                                       lib: Library, models: Surrogates, params: Params,
                                       draw: (nat, nat) -> real): (r: Result<Recommendation>)
    requires RecommendInputs(target, cache, importantKnobs, encoder, lib, models)
    ensures target.bad ==> r == BadRecommendation(target, tuningSession)
    ensures !target.bad ==>
      var c := CombineWorkload(target, cache, catalog, objective, lessIsBetter, importantKnobs, encoder, lib);
      && (c.Err? ==> r == Err(c.error))
      && (c.Ok? && algorithm == Ddpg ==> r == Err(NoSurrogate))
      && (r.Ok? ==> c.Ok? && r.value.status == Good &&
                    r.value.info == TrainingDataSize(|c.value.xScaled|) &&
                    r.value.config.Keys == set l | l in c.value.xLabels)
    ensures r.Ok? ==> r.value.pipelineRun == target.pipelineRun
  {
    if target.bad then BadRecommendation(target, tuningSession)
    else
      match CombineWorkload(target, cache, catalog, objective, lessIsBetter, importantKnobs, encoder, lib)
      case Err(e) => Err(e)
      case Ok(c) => RecommendFrom(c, target, algorithm, models, params, draw)
  }

  /** The good path keeps every catalog knob it sets within the knob's declared range
      when there is no dummy encoding. */
  lemma RecommendFromInRange(c: Combined, catalog: seq<KnobEntry>, target: TargetData, algorithm: Algorithm,
                             models: Surrogates, params: Params, draw: (nat, nat) -> real, l: string)
    requires Trainable(c) && c.encoder.None? && CatalogBounded(c, catalog)
    requires SurrogateShape(models.gpr) && SurrogateShape(models.dnn)
    requires forall k :: 0 <= k < |catalog| ==> catalog[k].minval <= catalog[k].maxval
    requires RecommendFrom(c, target, algorithm, models, params, draw).Ok?
    requires l in Names(catalog)
    ensures
      var r := RecommendFrom(c, target, algorithm, models, params, draw).value;
      var k := catalog[LastIndexOf(Names(catalog), l).value];
      l in r.config ==> r.config[l].RealVal? && k.minval <= r.config[l].r <= k.maxval
  {
    var starts := StartingPoints(c, params.numSamples, draw, params.topNumConfig, params.gprEps);
    var res := Search(algorithm, models, c, starts).value;
    if l in c.xLabels {
      KnobRangeRespected(c, catalog, res, l);
    }
  }

  /** A good recommendation without dummy encoding keeps every catalog knob it sets
      within the knob's declared range. */
  lemma RecommendationInRange(target: TargetData, tuningSession: string, algorithm: Algorithm,
                              cache: PipelineData, catalog: seq<KnobEntry>, objective: string,
                              lessIsBetter: bool, importantKnobs: int, lib: Library,
                              models: Surrogates, params: Params, draw: (nat, nat) -> real, l: string)
    requires RecommendInputs(target, cache, importantKnobs, None, lib, models)
    requires forall k :: 0 <= k < |catalog| ==> catalog[k].minval <= catalog[k].maxval
    requires !target.bad
    requires ConfigurationRecommendation(target, tuningSession, algorithm, cache, catalog, objective,
                                         lessIsBetter, importantKnobs, None, lib, models, params, draw).Ok?
    requires l in Names(catalog)
    ensures
      var r := ConfigurationRecommendation(target, tuningSession, algorithm, cache, catalog, objective,
                                           lessIsBetter, importantKnobs, None, lib, models, params, draw).value;
      var k := catalog[LastIndexOf(Names(catalog), l).value];
      l in r.config ==> r.config[l].RealVal? && k.minval <= r.config[l].r <= k.maxval
  {
    var c := CombineWorkload(target, cache, catalog, objective, lessIsBetter, importantKnobs, None, lib).value;
    assert ConfigurationRecommendation(target, tuningSession, algorithm, cache, catalog, objective,
                                       lessIsBetter, importantKnobs, None, lib, models, params, draw)
        == RecommendFrom(c, target, algorithm, models, params, draw);
    RecommendFromInRange(c, catalog, target, algorithm, models, params, draw, l);
  }
}
