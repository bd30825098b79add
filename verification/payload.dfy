/** The payload the pipeline stages hand to one another: the target's labelled
    data plus the fields each stage adds (`bad`, the cold-start configuration,
    the pipeline run, the mapped workload and the workload scores). */
module Payload {
  import opened Base
  import opened Catalog

  /** Labelled knob and metric matrices of a set of results, one row per result. */
  datatype Dataset = Dataset(
    xMatrix: Matrix,
    xLabels: seq<string>,
    yMatrix: Matrix,
    yLabels: seq<string>,
    rowLabels: seq<string>)

  /** Each matrix is as wide as its labels, and the knob matrix, metric matrix and
      row labels describe the same rows. */
  predicate WellFormed(d: Dataset) {
    && IsMatrix(d.xMatrix, |d.xLabels|)
    && IsMatrix(d.yMatrix, |d.yLabels|)
    && |d.yMatrix| == |d.xMatrix|
    && |d.rowLabels| == |d.xMatrix|
  }

  /** A workload with its similarity score (lower is more similar). */
  datatype WorkloadScore = WorkloadScore(workloadId: nat, name: string, score: real)

  /** The dictionary passed from stage to stage. Keys a stage has not set yet are None. */
  datatype TargetData = TargetData(
    newestResultId: nat,
    bad: bool,
    data: Dataset,
    configRecommend: Option<Config>,
    pipelineRun: Option<nat>,
    mappedWorkload: Option<WorkloadScore>,
    scores: Option<seq<WorkloadScore>>)

  /** A round is "bad" (cold start) exactly when it carries a ready-made configuration. */
  predicate ConsistentRound(t: TargetData) {
    t.bad <==> t.configRecommend.Some?
  }

  /** What the background pipeline stored for one workload under a pipeline run:
      its knob data and metric data (each with column and row labels), its knobs
      ranked by importance and its pruned metrics. */
  datatype PipelineData = PipelineData(
    knobData: Matrix,
    knobLabels: seq<string>,
    knobRows: seq<string>,
    metricData: Matrix,
    metricLabels: seq<string>,
    metricRows: seq<string>,
    rankedKnobs: seq<string>,
    prunedMetrics: seq<string>)

  /** Each stored matrix is as wide as its column labels and as tall as its row labels. */
  predicate Shaped(p: PipelineData) {
    && IsMatrix(p.knobData, |p.knobLabels|)
    && |p.knobRows| == |p.knobData|
    && IsMatrix(p.metricData, |p.metricLabels|)
    && |p.metricRows| == |p.metricData|
  }
}
