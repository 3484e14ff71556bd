/**
  The remote optimization server as the controller sees it: the definition it
  sends, the answers it gets back, the error kinds that change its behaviour,
  and the calls themselves (recorded so that properties can talk about which
  calls a reconcile step made).
 */
module RemoteApi {
  import opened Basics

  datatype ParameterType = ParameterTypeInteger

  /** Bounds are sent as JSON numbers holding the decimal rendering of a
      64-bit integer; the rendering is injective, so the integer stands for it. */
  datatype Bounds = Bounds(min: int, max: int)

  datatype Parameter = Parameter(kind: ParameterType, name: string, bounds: Bounds)

  datatype Metric = Metric(name: string, minimize: bool)

  datatype Optimization = Optimization(parallelTrials: int)

  datatype Experiment = Experiment(optimization: Optimization, parameters: seq<Parameter>, metrics: seq<Metric>)

  /** The answer to CreateExperiment: the experiment's own URL, the URL to ask
      for the next trial, and the server's parallelism ceiling. */
  datatype ServerExperiment = ServerExperiment(self: string, nextTrial: string, optimization: Optimization)

  /** One suggested assignment; `int64Value` is None when its JSON number does
      not parse as a 64-bit integer. */
  datatype SuggestedAssignment = SuggestedAssignment(parameterName: string, int64Value: Option<int>)

  /** The answer to NextTrial: the assignments and the URL to report to. */
  datatype Suggestion = Suggestion(assignments: seq<SuggestedAssignment>, reportTrialUrl: string)

  datatype Value = Value(metricName: string, value: real)

  /** The observation sent with ReportTrial. */
  datatype TrialValues = TrialValues(values: seq<Value>, failed: bool)

  /** Error kinds: the two the controller reacts to, and everything else
      (including errors that are not API errors at all). */
  datatype Error = ExperimentStopped | TrialUnavailable(retryAfter: int) | OtherError(message: string)

  datatype Response<+T> = Ok(value: T) | Err(error: Error)

  /** A call made to the server during one reconcile step. */
  datatype Call =
    | CreateExperiment(name: string, definition: Experiment)
    | DeleteExperiment(url: string)
    | NextTrial(url: string)
    | ReportTrial(url: string, values: TrialValues)
}
