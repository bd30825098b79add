/** The result aggregator: the cold-start decision of aggregate_target_results,
    the Latin-hypercube sample pool kept in the session, and gen_random_data
    (server/website/website/tasks/async_tasks.py). Random draws and the
    space-filling design are parameters. */
module ColdStart {
  import opened Base
  import opened Catalog
  import opened Payload
  import Align

  /** The session fields this stage reads and writes: the cold-start mode
      (`tuning_session`), the persisted sample pool and the knob catalog. */
  datatype Session = Session(
    tuningSession: string,
    lhsSamples: seq<Config>,
    knobs: seq<KnobEntry>)

  // ---------------------------------------------------------------------------
  // Rounding and draws

  /** Python 3 `round(x)`: the nearest integer, ties to the even neighbour. */
  function RoundHalfEven(x: real): (n: int)
    ensures n as real - x <= 0.5 && x - n as real <= 0.5
    ensures (n as real - x == 0.5 || x - n as real == 0.5) ==> n % 2 == 0
  {
    var f := x.Floor;
    var d := x - f as real;
    if d < 0.5 then f
    else if d > 0.5 then f + 1
    else if f % 2 == 0 then f
    else f + 1
  }

  /** Rounding a value between two integers stays between them. */
  lemma RoundStaysBetween(x: real, lo: int, hi: int)
    requires lo as real <= x <= hi as real
    ensures lo <= RoundHalfEven(x) <= hi
  {
  }

  /** Python `int(x)` of a float: truncation toward zero. */
  function Trunc(x: real): (n: int)
    ensures 0.0 <= x ==> n == x.Floor
    ensures x < 0.0 ==> n == -((-x).Floor)
  {
    if x >= 0.0 then x.Floor else -((-x).Floor)
  }

  /** `random.randint(a, b)` driven by a uniform draw `u` in [0, 1). */
  function RandInt(a: int, b: int, u: real): (n: int)
    requires a <= b && 0.0 <= u < 1.0
    ensures a <= n <= b
  {
    var width := (b - a + 1) as real;
    assert u * width < width by { MulBelowOne(u, width); }
    a + (u * width).Floor
  }

  lemma MulNonneg(a: real, b: real)
    requires a >= 0.0 && b >= 0.0
    ensures a * b >= 0.0
  {
  }

  lemma MulBelowOne(u: real, w: real)
    requires 0.0 <= u < 1.0 && w > 0.0
    ensures 0.0 <= u * w < w
  {
  }

  // ---------------------------------------------------------------------------
  // gen_lhs_samples, after the design has been drawn and scaled to each knob's range

  /** How one scaled design value is stored for a knob: integer, boolean and enum
      knobs get the rounded integer, real knobs the value itself; other types are
      skipped (no entry). */
  function LhsValue(knob: KnobEntry, x: real): Option<KnobValue> {
    match knob.vartype
    case IntegerType => Some(IntVal(RoundHalfEven(x)))
    case BoolType => Some(IntVal(RoundHalfEven(x)))
    case EnumType => Some(IntVal(RoundHalfEven(x)))
    case RealType => Some(RealVal(x))
    case _ => None
  }

  /** One design row as a configuration dictionary, filled knob by knob in catalog
      order: every knob of a stored type has an entry, and every entry is a stored
      value of some knob of that name. */
  function SampleConfig(knobs: seq<KnobEntry>, row: seq<real>): (c: Config)
    requires |row| == |knobs|
    ensures forall i :: 0 <= i < |knobs| && LhsValue(knobs[i], row[i]).Some? ==> knobs[i].name in c
    ensures forall name :: name in c ==>
      exists i :: 0 <= i < |knobs| && knobs[i].name == name && LhsValue(knobs[i], row[i]) == Some(c[name])
  {
    if |knobs| == 0 then map[]
    else
      var n := |knobs| - 1;
      var c := SampleConfig(knobs[..n], row[..n]);
      match LhsValue(knobs[n], row[n])
      case Some(v) => c[knobs[n].name := v]
      case None => c
  }

  /** The picks `random.shuffle` draws for a list of `n` items: position `i` is swapped
      with a position `picks[i]` in 0..i. */
  predicate ValidPicks(picks: seq<nat>, n: nat) {
    |picks| == n && forall i :: 0 <= i < n ==> picks[i] <= i
  }

  /** `random.shuffle`: from the last position down to the second, swap position `i`
      with position `picks[i]`. The result is a permutation of the input, and its
      last item is the one the first swap brings there. */
  function Shuffle<T(==)>(s: seq<T>, picks: seq<nat>): (r: seq<T>)
    requires ValidPicks(picks, |s|)
    ensures |r| == |s| && multiset(r) == multiset(s)
    ensures |s| > 0 ==> r[|s| - 1] == s[picks[|s| - 1]]
    decreases |s|
  {
    if |s| <= 1 then s
    else
      var n := |s| - 1;
      var swapped := s[n := s[picks[n]]][picks[n] := s[n]];
      SwapKeepsMultiset(s, n, picks[n]);
      assert swapped == swapped[..n] + [swapped[n]];
      Shuffle(swapped[..n], picks[..n]) + [swapped[n]]
  }

  /** Swapping two positions keeps the items. */
  lemma SwapKeepsMultiset<T>(s: seq<T>, i: nat, j: nat)
    requires i < |s| && j < |s|
    ensures multiset(s[i := s[j]][j := s[i]]) == multiset(s)
  {
  }

  /** The design rows as configurations, in design order. */
  function SampleConfigs(knobs: seq<KnobEntry>, samples: Matrix): (cs: seq<Config>)
    requires IsMatrix(samples, |knobs|)
    ensures |cs| == |samples|
    ensures forall i :: 0 <= i < |samples| ==> cs[i] == SampleConfig(knobs, samples[i])
  {
    seq(|samples|, i requires 0 <= i < |samples| => SampleConfig(knobs, samples[i]))
  }

  /** gen_lhs_samples from line 301 on: `samples` is the design already scaled to the
      knob ranges and `picks` the swaps random.shuffle draws. The pool holds exactly one
      configuration per design row, shuffled. */
  function GenLhsSamples(knobs: seq<KnobEntry>, nsamples: nat, samples: Matrix,
                         picks: seq<nat>): (pool: seq<Config>)
    requires |samples| == nsamples && IsMatrix(samples, |knobs|)
    requires ValidPicks(picks, nsamples)
    ensures |pool| == nsamples
    ensures multiset(pool) == multiset(SampleConfigs(knobs, samples))
    ensures nsamples > 0 ==> pool[nsamples - 1] == SampleConfig(knobs, samples[picks[nsamples - 1]])
  {
    Shuffle(SampleConfigs(knobs, samples), picks)
  }

  /** Every design row has its configuration somewhere in the pool. */
  lemma {:induction false} EveryRowPooled(knobs: seq<KnobEntry>, nsamples: nat, samples: Matrix,
                                          picks: seq<nat>, i: nat)
    requires |samples| == nsamples && IsMatrix(samples, |knobs|)
    requires ValidPicks(picks, nsamples)
    requires i < nsamples
    ensures SampleConfig(knobs, samples[i]) in GenLhsSamples(knobs, nsamples, samples, picks)
  {
    var cs := SampleConfigs(knobs, samples);
    assert cs[i] in multiset(cs);
  }

  /** A stored sample value lies in its knob's declared range when the design value
      does and the range of a rounded knob has integer ends. */
  predicate InDeclaredRange(knob: KnobEntry, v: KnobValue) {
    match v
    case IntVal(n) => knob.minval <= n as real <= knob.maxval
    case RealVal(x) => knob.minval <= x <= knob.maxval
    case _ => true
  }

  predicate IntegralRange(knob: KnobEntry) {
    knob.minval == knob.minval.Floor as real && knob.maxval == knob.maxval.Floor as real
  }

  /** Bounds invariant of the cold-start pool: when every design value is inside its
      knob's range and rounded knobs have integral ranges, every value of every
      sample is inside the range of a knob of that name. */
  lemma SampleInRange(knobs: seq<KnobEntry>, row: seq<real>)
    requires |row| == |knobs|
    requires forall i :: 0 <= i < |knobs| ==> knobs[i].minval <= row[i] <= knobs[i].maxval
    requires forall i :: 0 <= i < |knobs| && knobs[i].vartype in {IntegerType, BoolType, EnumType} ==>
      IntegralRange(knobs[i])
    ensures forall name :: name in SampleConfig(knobs, row) ==>
      exists i :: 0 <= i < |knobs| && knobs[i].name == name &&
        InDeclaredRange(knobs[i], SampleConfig(knobs, row)[name])
  {
    var c := SampleConfig(knobs, row);
    forall name | name in c
      ensures exists i :: 0 <= i < |knobs| && knobs[i].name == name && InDeclaredRange(knobs[i], c[name])
    {
      var i :| 0 <= i < |knobs| && knobs[i].name == name && LhsValue(knobs[i], row[i]) == Some(c[name]);
      if knobs[i].vartype in {IntegerType, BoolType, EnumType} {
        RoundStaysBetween(row[i], knobs[i].minval.Floor, knobs[i].maxval.Floor);
      }
    }
  }

  // ---------------------------------------------------------------------------
  // gen_random_data

  /** The value gen_random_data draws for one knob from the uniform draw `u`:
      a coin flip, an enum position, an integer or real in the declared range, or
      the placeholder "None"; an integer knob whose truncated range is empty, or an
      unknown type, raises. */
  function RandomValue(knob: KnobEntry, u: real): (r: Result<KnobValue>)
    requires 0.0 <= u < 1.0
  {
    match knob.vartype
    case BoolType => Ok(BoolVal(RandInt(0, 1, u) != 0))
    case EnumType => Ok(IntVal(RandInt(0, |Split(knob.enumvals, ',')| - 1, u)))
    case IntegerType =>
      if Trunc(knob.minval) > Trunc(knob.maxval) then Err(EmptyRange)
      else Ok(IntVal(RandInt(Trunc(knob.minval), Trunc(knob.maxval), u)))
    case RealType => Ok(RealVal(knob.minval + (knob.maxval - knob.minval) * u))
    case StringType => Ok(StrVal("None"))
    case TimestampType => Ok(StrVal("None"))
    case OtherType(code) => Err(UnknownVarType(code))
  }

  /** What a randomly drawn value promises for its knob: the right kind of value,
      inside the range the knob declares. */
  predicate RandomWithin(knob: KnobEntry, v: KnobValue) {
    match knob.vartype
    case BoolType => v.BoolVal?
    case EnumType => v.IntVal? && 0 <= v.i < |Split(knob.enumvals, ',')|
    case IntegerType => v.IntVal? && Trunc(knob.minval) <= v.i <= Trunc(knob.maxval)
    case RealType =>
      v.RealVal? &&
      (knob.minval <= knob.maxval ==> knob.minval <= v.r <= knob.maxval) &&
      (knob.maxval <= knob.minval ==> knob.maxval <= v.r <= knob.minval)
    case StringType => v == StrVal("None")
    case TimestampType => v == StrVal("None")
    case OtherType(_) => false
  }

  /** Every value RandomValue draws is of its knob's kind and inside its range, and
      it fails only for an empty integer range or an unknown type. */
  lemma RandomValueWithin(knob: KnobEntry, u: real)
    requires 0.0 <= u < 1.0
    ensures RandomValue(knob, u).Ok? ==> RandomWithin(knob, RandomValue(knob, u).value)
    ensures RandomValue(knob, u).Err? <==>
      (knob.vartype.OtherType? || (knob.vartype == IntegerType && Trunc(knob.minval) > Trunc(knob.maxval)))
  {
    match knob.vartype
    case RealType => UniformBetween(knob.minval, knob.maxval, u);
    case BoolType =>
    case EnumType =>
    case IntegerType =>
    case StringType =>
    case TimestampType =>
    case OtherType(_) =>
  }

  /** `random.uniform(lo, hi)` lies between its two ends, in either order. */
  lemma UniformBetween(lo: real, hi: real, u: real)
    requires 0.0 <= u < 1.0
    ensures lo <= hi ==> lo <= lo + (hi - lo) * u <= hi
    ensures hi <= lo ==> hi <= lo + (hi - lo) * u <= lo
  {
    var d := hi - lo;
    assert d * (1.0 - u) == d - d * u;
    if d >= 0.0 {
      MulNonneg(d, u);
      MulNonneg(d, 1.0 - u);
    } else {
      MulNonneg(-d, u);
      MulNonneg(-d, 1.0 - u);
    }
  }

  predicate ValidDraws(draws: seq<real>, n: nat) {
    |draws| == n && forall i :: 0 <= i < n ==> 0.0 <= draws[i] < 1.0
  }

  /** gen_random_data: one entry per knob, filled in catalog order, each the value
      drawn for a knob of that name; it fails exactly when some knob's draw fails. */
  function GenRandomData(knobs: seq<KnobEntry>, draws: seq<real>): (r: Result<Config>)
    requires ValidDraws(draws, |knobs|)
    ensures r.Ok? <==> forall i :: 0 <= i < |knobs| ==> RandomValue(knobs[i], draws[i]).Ok?
    ensures r.Ok? ==> forall i :: 0 <= i < |knobs| ==> knobs[i].name in r.value
  {
    if |knobs| == 0 then Ok(map[])
    else
      var n := |knobs| - 1;
      match GenRandomData(knobs[..n], draws[..n])
      case Err(e) => Err(e)
      case Ok(c) =>
        match RandomValue(knobs[n], draws[n])
        case Err(e) => Err(e)
        case Ok(v) => Ok(c[knobs[n].name := v])
  }

  /** Every entry of a generated random configuration is the value drawn for a catalog
      knob of that name (the last such knob when names repeat). */
  lemma {:induction false} RandomConfigFromDraws(knobs: seq<KnobEntry>, draws: seq<real>)
    requires ValidDraws(draws, |knobs|)
    requires GenRandomData(knobs, draws).Ok?
    ensures forall name :: name in GenRandomData(knobs, draws).value ==>
      exists i :: 0 <= i < |knobs| && knobs[i].name == name &&
        RandomValue(knobs[i], draws[i]) == Ok(GenRandomData(knobs, draws).value[name])
  {
    if |knobs| > 0 {
      var n := |knobs| - 1;
      var c := GenRandomData(knobs[..n], draws[..n]).value;
      var v := RandomValue(knobs[n], draws[n]).value;
      RandomConfigFromDraws(knobs[..n], draws[..n]);
      var m := c[knobs[n].name := v];
      assert GenRandomData(knobs, draws).value == m;
      forall name | name in m
        ensures exists i :: 0 <= i < |knobs| && knobs[i].name == name && RandomValue(knobs[i], draws[i]) == Ok(m[name])
      {
        if name == knobs[n].name {
          assert RandomValue(knobs[n], draws[n]) == Ok(v);
        } else {
          var i :| 0 <= i < n && knobs[..n][i].name == name &&
            RandomValue(knobs[..n][i], draws[..n][i]) == Ok(c[name]);
          assert knobs[..n][i] == knobs[i] && draws[..n][i] == draws[i];
        }
      }
    }
  }

  /** Every value of a generated random configuration is of the kind and inside the
      range of a catalog knob of that name. */
  lemma RandomConfigWithin(knobs: seq<KnobEntry>, draws: seq<real>)
    requires ValidDraws(draws, |knobs|)
    requires GenRandomData(knobs, draws).Ok?
    ensures forall name :: name in GenRandomData(knobs, draws).value ==>
      exists i :: 0 <= i < |knobs| && knobs[i].name == name &&
        RandomWithin(knobs[i], GenRandomData(knobs, draws).value[name])
  {
    var c := GenRandomData(knobs, draws).value;
    RandomConfigFromDraws(knobs, draws);
    forall name | name in c
      ensures exists i :: 0 <= i < |knobs| && knobs[i].name == name && RandomWithin(knobs[i], c[name])
    {
      var i :| 0 <= i < |knobs| && knobs[i].name == name && RandomValue(knobs[i], draws[i]) == Ok(c[name]);
      RandomValueWithin(knobs[i], draws[i]);
    }
  }

  // ---------------------------------------------------------------------------
  // aggregate_target_results

  /** The pool size gen_lhs_samples is asked for: 100 in "lhs" mode, 10 otherwise. */
  function PoolSize(tuningSession: string): nat {
    if tuningSession == "lhs" then 100 else 10
  }

  /** The LHS branch is taken when the workload has no pipeline data yet or the
      session is in "lhs" mode. */
  predicate TakesLhs(s: Session, hasPipelineData: bool) {
    !hasPipelineData || s.tuningSession == "lhs"
  }

  /** The pool the LHS branch pops from: the persisted one, or a fresh one when it is empty. */
  function PoolBeforePop(s: Session, design: Matrix, picks: seq<nat>): (pool: seq<Config>)
    requires |design| == PoolSize(s.tuningSession) && IsMatrix(design, |s.knobs|)
    requires ValidPicks(picks, |design|)
    ensures |pool| > 0
    ensures |s.lhsSamples| == 0 ==>
      |pool| == PoolSize(s.tuningSession) && multiset(pool) == multiset(SampleConfigs(s.knobs, design))
    ensures |s.lhsSamples| > 0 ==> pool == s.lhsSamples
  {
    if |s.lhsSamples| == 0 then GenLhsSamples(s.knobs, PoolSize(s.tuningSession), design, picks)
    else s.lhsSamples
  }

  /** aggregate_target_results. `newest` is the aggregated data of the newest result
      alone and `history` that of all the session's results on this dbms and workload
      (`historyCount` of them); `design` and `picks` are the draws gen_lhs_samples
      would make and `draws` those of gen_random_data. Returns the payload and the
      session as saved.
      - LHS branch: exactly the last sample of the pool is popped and becomes the
        configuration, the rest is persisted, the round is bad.
      - Random branch: the drawn configuration, the round is bad, the session unchanged.
      - Normal branch: fails exactly when there are no results; otherwise the round
        is good and the history is returned with its knob columns aligned to the
        catalog (metric data and row labels as aggregated). */
  function AggregateTargetResults(s: Session, resultId: nat, hasPipelineData: bool,
                                  newest: Dataset, history: Dataset, historyCount: nat,
                                  design: Matrix, picks: seq<nat>, draws: seq<real>,
                                  parseFloat: string -> Option<real>): (r: Result<(TargetData, Session)>)
    requires WellFormed(history)
    requires |design| == PoolSize(s.tuningSession) && IsMatrix(design, |s.knobs|)
    requires ValidPicks(picks, |design|)
    requires ValidDraws(draws, |s.knobs|)
    ensures r.Ok? ==> ConsistentRound(r.value.0) && r.value.0.newestResultId == resultId
    ensures r.Ok? ==> r.value.1.tuningSession == s.tuningSession && r.value.1.knobs == s.knobs
    ensures TakesLhs(s, hasPipelineData) ==>
      r.Ok? && r.value.0.bad && r.value.0.data == newest &&
      PoolBeforePop(s, design, picks) == r.value.1.lhsSamples + [r.value.0.configRecommend.value]
    ensures !TakesLhs(s, hasPipelineData) ==> r.Ok? ==> r.value.1 == s
    ensures !TakesLhs(s, hasPipelineData) && s.tuningSession == "randomly_generate" ==>
      (r.Ok? <==> GenRandomData(s.knobs, draws).Ok?) &&
      (r.Ok? ==> r.value.0.bad && r.value.0.configRecommend == Some(GenRandomData(s.knobs, draws).value))
    ensures !TakesLhs(s, hasPipelineData) && s.tuningSession != "randomly_generate" ==>
      (r.Ok? <==> historyCount > 0) &&
      (r.Err? ==> r.error == NoTargetResults) &&
      (r.Ok? ==> !r.value.0.bad && WellFormed(r.value.0.data) &&
                 r.value.0.data == history.(xMatrix := Align.CleanKnobData(history.xMatrix, history.xLabels,
                                                                           s.knobs, parseFloat).0,
                                            xLabels := Names(s.knobs)))
  {
    if TakesLhs(s, hasPipelineData) then
      var pool := PoolBeforePop(s, design, picks);
      var sample := pool[|pool| - 1];
      var rest := pool[..|pool| - 1];
      assert pool == rest + [sample];
      Ok((TargetData(resultId, true, newest, Some(sample), None, None, None), s.(lhsSamples := rest)))
    else if s.tuningSession == "randomly_generate" then
      match GenRandomData(s.knobs, draws)
      case Err(e) => Err(e)
      case Ok(config) => Ok((TargetData(resultId, true, newest, Some(config), None, None, None), s))
    else if historyCount == 0 then Err(NoTargetResults)
    else
      var cleaned := Align.CleanKnobData(history.xMatrix, history.xLabels, s.knobs, parseFloat);
      var data := history.(xMatrix := cleaned.0, xLabels := cleaned.1);
      Ok((TargetData(resultId, false, data, None, None, None, None), s))
  }

  /** Cold start from an empty pool in "lhs" mode: one call yields exactly one
      configuration (the last of the 100 generated), persists the other 99, and
      marks the round bad. */
  lemma LhsColdStartScenario(s: Session, resultId: nat, hasPipelineData: bool,
                             newest: Dataset, history: Dataset, historyCount: nat,
                             design: Matrix, picks: seq<nat>, draws: seq<real>,
                             parseFloat: string -> Option<real>)
    requires s.tuningSession == "lhs" && s.lhsSamples == []
    requires WellFormed(history)
    requires |design| == 100 && IsMatrix(design, |s.knobs|)
    requires ValidPicks(picks, 100)
    requires ValidDraws(draws, |s.knobs|)
    ensures
      var r := AggregateTargetResults(s, resultId, hasPipelineData, newest, history, historyCount,
                                      design, picks, draws, parseFloat);
      && r.Ok?
      && |r.value.1.lhsSamples| == 99
      && r.value.0.bad
      && r.value.0.configRecommend == Some(SampleConfig(s.knobs, design[picks[99]]))
  {
    var r := AggregateTargetResults(s, resultId, hasPipelineData, newest, history, historyCount,
                                    design, picks, draws, parseFloat);
    var pool := PoolBeforePop(s, design, picks);
    assert |pool| == 100;
    assert pool == r.value.1.lhsSamples + [r.value.0.configRecommend.value];
    assert pool[99] == r.value.0.configRecommend.value;
  }

  /** An LHS round that starts from an empty pool splits the fresh design between the
      configuration it recommends and the pool it persists: together they are the design
      rows' configurations, each exactly once. */
  lemma LhsRoundKeepsDesign(s: Session, resultId: nat, hasPipelineData: bool,
                            newest: Dataset, history: Dataset, historyCount: nat,
                            design: Matrix, picks: seq<nat>, draws: seq<real>,
                            parseFloat: string -> Option<real>)
    requires TakesLhs(s, hasPipelineData) && s.lhsSamples == []
    requires WellFormed(history)
    requires |design| == PoolSize(s.tuningSession) && IsMatrix(design, |s.knobs|)
    requires ValidPicks(picks, |design|)
    requires ValidDraws(draws, |s.knobs|)
    ensures
      var r := AggregateTargetResults(s, resultId, hasPipelineData, newest, history, historyCount,
                                      design, picks, draws, parseFloat);
      && r.Ok? && r.value.0.configRecommend.Some?
      && multiset(r.value.1.lhsSamples) + multiset{r.value.0.configRecommend.value}
         == multiset(SampleConfigs(s.knobs, design))
  {
  }
}
