/**
  The experiment reconciler. One call of `Reconcile` looks at the observed
  Experiment, its listed Trials and the server's answers, and yields the remote
  calls it made plus exactly one outcome: nothing to do, one write to the
  cluster, a delayed retry, or an error. Branches are tried in a fixed order —
  add the finalizer, synchronise with the server, provision one trial, retire
  one trial, release the finalizer — and the first that applies ends the step.
 */
module Controller {
  import opened Basics
  import opened Resources
  import RemoteApi
  import Helpers

  const ExperimentUrlAnnotation: string := "cordelia.carbonrelay.com/experiment-url"
  const NextTrialUrlAnnotation: string := "cordelia.carbonrelay.com/next-trial-url"
  const ReportTrialUrlAnnotation: string := "cordelia.carbonrelay.com/report-trial-url"

  /** The controller's clean-up obligation on experiments and trials. */
  const Finalizer: string := "finalizer.cordelia.carbonrelay.com"

  lemma AnnotationKeysDistinct()
    ensures ExperimentUrlAnnotation != NextTrialUrlAnnotation
    ensures ExperimentUrlAnnotation != ReportTrialUrlAnnotation
    ensures NextTrialUrlAnnotation != ReportTrialUrlAnnotation
  {
    assert ExperimentUrlAnnotation[25] == 'e';
    assert NextTrialUrlAnnotation[25] == 'n';
    assert ReportTrialUrlAnnotation[25] == 'r';
  }

  function ExperimentUrl(e: Experiment): string {
    Annotation(e.meta.annotations, ExperimentUrlAnnotation)
  }

  function NextTrialUrl(e: Experiment): string {
    Annotation(e.meta.annotations, NextTrialUrlAnnotation)
  }

  function ReportTrialUrl(t: Trial): string {
    Annotation(t.meta.annotations, ReportTrialUrlAnnotation)
  }

  // ---------------------------------------------------------------------------
  // Inputs and outcome of one reconcile step
  // ---------------------------------------------------------------------------

  /** What the cluster answered to the reads of one step: the experiment, the
      trials listed for it, the namespaces matching its namespace selector, and
      the controller reference built for a new trial (None when building it
      failed). */
  datatype ClusterReads = ClusterReads(
    experiment: Result<Experiment, ClusterError>,
    trials: Result<seq<Trial>, ClusterError>,
    namespaces: Result<seq<string>, ClusterError>,
    controllerRef: Option<ObjectRef>)

  /** What the server answers to each call it may receive in one step;
      `reportTrialFails(i)` is whether reporting the i-th listed trial fails. */
  datatype RemoteAnswers = RemoteAnswers(
    createExperiment: RemoteApi.Response<RemoteApi.ServerExperiment>,
    deleteExperimentFails: bool,
    nextTrial: RemoteApi.Response<RemoteApi.Suggestion>,
    reportTrialFails: nat -> bool)

  /** Why a step ended in an error. */
  datatype StepFailure =
    | ClusterFailure(cause: ClusterError)
    | ControllerReferenceFailed
    | CreateExperimentFailed(remote: RemoteApi.Error)
    | NextTrialFailed(remote: RemoteApi.Error)
    | ReportTrialFailed(index: nat)

  /** The single outcome of a step. Trials are named by their position in the
      listed sequence. */
  datatype Action =
    | NoOp
    | UpdateExperiment(experiment: Experiment)
    | CreateTrial(trial: Trial)
    | DeleteTrial(index: nat)
    | UpdateTrial(index: nat, trial: Trial)
    | RequeueAfter(delay: int)
    | Error(failure: StepFailure)

  datatype Step = Step(calls: seq<RemoteApi.Call>, action: Action)

  // ---------------------------------------------------------------------------
  // Finalizer
  // ---------------------------------------------------------------------------

  /** Adds the finalizer unless deletion was requested or it is already there;
      the flag says whether the experiment changed. */
  function AddFinalizer(e: Experiment): (r: (bool, Experiment))
    ensures r.0 <==> !IsDeleting(e.meta) && Finalizer !in e.meta.finalizers
    ensures r.0 ==> r.1 == e.(meta := e.meta.(finalizers := e.meta.finalizers + [Finalizer]))
    ensures !r.0 ==> r.1 == e
  {
    if IsDeleting(e.meta) || Finalizer in e.meta.finalizers then (false, e)
    else (true, e.(meta := e.meta.(finalizers := e.meta.finalizers + [Finalizer])))
  }

  /** Adding the finalizer twice changes nothing the second time. */
  lemma AddFinalizerIdempotent(e: Experiment)
    ensures !AddFinalizer(AddFinalizer(e).1).0
    ensures AddFinalizer(AddFinalizer(e).1).1 == AddFinalizer(e).1
    ensures multiset(AddFinalizer(e).1.meta.finalizers)[Finalizer] <= 1 + multiset(e.meta.finalizers)[Finalizer]
  {
  }

  // ---------------------------------------------------------------------------
  // Remote projection
  // ---------------------------------------------------------------------------

  function RemoteParameters(ps: seq<Parameter>): (r: seq<RemoteApi.Parameter>)
    ensures |r| == |ps|
    ensures forall i :: 0 <= i < |ps| ==>
      r[i].kind == RemoteApi.ParameterTypeInteger && r[i].name == ps[i].name &&
      r[i].bounds.min == ps[i].min && r[i].bounds.max == ps[i].max
  {
    if |ps| == 0 then []
    else
      [RemoteApi.Parameter(RemoteApi.ParameterTypeInteger, ps[0].name, RemoteApi.Bounds(ps[0].min, ps[0].max))]
        + RemoteParameters(ps[1..])
  }

  function RemoteMetrics(ms: seq<Metric>): (r: seq<RemoteApi.Metric>)
    ensures |r| == |ms|
    ensures forall i :: 0 <= i < |ms| ==> r[i].name == ms[i].name && r[i].minimize == ms[i].minimize
  {
    if |ms| == 0 then [] else [RemoteApi.Metric(ms[0].name, ms[0].minimize)] + RemoteMetrics(ms[1..])
  }

  /** The definition sent to the server: parallelism if set, else the replica
      count; every parameter as an integer parameter and every metric, in order. */
  function CopyExperimentToRemote(e: Experiment): (r: RemoteApi.Experiment)
    ensures r.optimization.parallelTrials == (if e.parallelism.Some? then e.parallelism.value else e.replicas)
    ensures |r.parameters| == |e.parameters| && |r.metrics| == |e.metrics|
  {
    var parallel := if e.parallelism.Some? then e.parallelism.value else e.replicas;
    RemoteApi.Experiment(RemoteApi.Optimization(parallel), RemoteParameters(e.parameters), RemoteMetrics(e.metrics))
  }

  /** Reading a definition back: the inverse of the projection on parameters. */
  function LocalParameters(rs: seq<RemoteApi.Parameter>): (r: seq<Parameter>)
    ensures |r| == |rs|
  {
    if |rs| == 0 then [] else [Parameter(rs[0].name, rs[0].bounds.min, rs[0].bounds.max)] + LocalParameters(rs[1..])
  }

  /** Reading a definition back: the inverse of the projection on metrics. */
  function LocalMetrics(rs: seq<RemoteApi.Metric>): (r: seq<Metric>)
    ensures |r| == |rs|
  {
    if |rs| == 0 then [] else [Metric(rs[0].name, rs[0].minimize)] + LocalMetrics(rs[1..])
  }

  /** The projection loses nothing about parameters and metrics: reading the
      definition back gives them again, in the same order. */
  lemma {:induction false} RemoteProjectionRoundTrip(e: Experiment)
    ensures LocalParameters(CopyExperimentToRemote(e).parameters) == e.parameters
    ensures LocalMetrics(CopyExperimentToRemote(e).metrics) == e.metrics
  {
    ParametersRoundTrip(e.parameters);
    MetricsRoundTrip(e.metrics);
  }

  lemma {:induction false} ParametersRoundTrip(ps: seq<Parameter>)
    ensures LocalParameters(RemoteParameters(ps)) == ps
  {
    if |ps| > 0 {
      ParametersRoundTrip(ps[1..]);
      assert RemoteParameters(ps)[1..] == RemoteParameters(ps[1..]);
    }
  }

  lemma {:induction false} MetricsRoundTrip(ms: seq<Metric>)
    ensures LocalMetrics(RemoteMetrics(ms)) == ms
  {
    if |ms| > 0 {
      MetricsRoundTrip(ms[1..]);
      assert RemoteMetrics(ms)[1..] == RemoteMetrics(ms[1..]);
    }
  }

  // ---------------------------------------------------------------------------
  // Synchronisation with the server
  // ---------------------------------------------------------------------------

  /** The outcome of synchronising: the calls made, and either the (possibly
      changed) experiment with a dirty flag, or a failure. */
  datatype SyncResult =
    | Synced(calls: seq<RemoteApi.Call>, dirty: bool, experiment: Experiment)
    | SyncFailed(calls: seq<RemoteApi.Call>, failure: StepFailure)

  /** Records a freshly created remote experiment: both URLs, and replicas
      lowered to the server's parallelism when that is positive and smaller. */
  function LinkExperiment(e: Experiment, created: RemoteApi.ServerExperiment): (r: Experiment)
    ensures ExperimentUrl(r) == created.self && NextTrialUrl(r) == created.nextTrial
    ensures r.replicas <= e.replicas
    ensures r.replicas == e.replicas || r.replicas == created.optimization.parallelTrials
    ensures r.replicas < e.replicas <==> 0 < created.optimization.parallelTrials < e.replicas
    ensures forall k :: k != ExperimentUrlAnnotation && k != NextTrialUrlAnnotation ==>
      Annotation(r.meta.annotations, k) == Annotation(e.meta.annotations, k)
    ensures r.(replicas := e.replicas, meta := r.meta.(annotations := e.meta.annotations)) == e
  {
    AnnotationKeysDistinct();
    var a := SetAnnotation(SetAnnotation(e.meta.annotations, ExperimentUrlAnnotation, created.self),
                           NextTrialUrlAnnotation, created.nextTrial);
    var parallel := created.optimization.parallelTrials;
    var replicas := if e.replicas > parallel && parallel > 0 then parallel else e.replicas;
    e.(meta := e.meta.(annotations := a), replicas := replicas)
  }

  /** Forgets the remote experiment: both URLs go and replicas drop to zero. */
  function UnlinkExperiment(e: Experiment): (r: Experiment)
    ensures ExperimentUrl(r) == "" && NextTrialUrl(r) == "" && r.replicas == 0
    ensures forall k :: k != ExperimentUrlAnnotation && k != NextTrialUrlAnnotation ==>
      Annotation(r.meta.annotations, k) == Annotation(e.meta.annotations, k)
    ensures r.(replicas := e.replicas, meta := r.meta.(annotations := e.meta.annotations)) == e
  {
    AnnotationKeysDistinct();
    var a := RemoveAnnotation(RemoveAnnotation(e.meta.annotations, ExperimentUrlAnnotation), NextTrialUrlAnnotation);
    e.(meta := e.meta.(annotations := a), replicas := 0)
  }

  /** Creates the remote experiment when replicas are wanted and none is
      linked yet; otherwise, when deletion was requested and one is linked,
      deletes it (ignoring the server's answer) and unlinks it. */
  function SyncWithServer(e: Experiment, remote: RemoteAnswers): (r: SyncResult)
    // creation: only when wanted and unlinked, and then it is the only call
    ensures e.replicas > 0 && ExperimentUrl(e) == "" ==>
      r.calls == [RemoteApi.CreateExperiment(e.meta.name, CopyExperimentToRemote(e))]
    ensures e.replicas > 0 && ExperimentUrl(e) == "" && remote.createExperiment.Ok? ==>
      r == Synced(r.calls, true, LinkExperiment(e, remote.createExperiment.value))
    ensures e.replicas > 0 && ExperimentUrl(e) == "" && remote.createExperiment.Err? ==>
      r.SyncFailed? && r.failure == CreateExperimentFailed(remote.createExperiment.error)
    // deletion: whatever the server answers, the experiment is unlinked
    ensures !(e.replicas > 0 && ExperimentUrl(e) == "") && IsDeleting(e.meta) && ExperimentUrl(e) != "" ==>
      r == Synced([RemoteApi.DeleteExperiment(ExperimentUrl(e))], true, UnlinkExperiment(e))
    // otherwise: no call and no change
    ensures !(e.replicas > 0 && ExperimentUrl(e) == "") && !(IsDeleting(e.meta) && ExperimentUrl(e) != "") ==>
      r == Synced([], false, e)
    ensures r.Synced? ==> r.experiment.meta.finalizers == e.meta.finalizers
    ensures r.Synced? && !r.dirty ==> r.calls == [] && r.experiment == e
  {
    var url := ExperimentUrl(e);
    if e.replicas > 0 && url == "" then
      var call := RemoteApi.CreateExperiment(e.meta.name, CopyExperimentToRemote(e));
      match remote.createExperiment
      case Ok(created) => Synced([call], true, LinkExperiment(e, created))
      case Err(err) => SyncFailed([call], CreateExperimentFailed(err))
    else if IsDeleting(e.meta) && url != "" then
      Synced([RemoteApi.DeleteExperiment(url)], true, UnlinkExperiment(e))
    else
      Synced([], false, e)
  }

  /** The creation path as written stores into the experiment's annotation
      map without allocating it; None stands for the runtime panic that storing
      into a nil map causes. */
  function StoreAnnotationAsWritten(a: Option<map<string, string>>, key: string, value: string)
    : (r: Option<map<string, string>>)
    ensures r.None? <==> a.None?
    ensures r.Some? ==> Some(r.value) == SetAnnotation(a, key, value)
  {
    if a.None? then None else Some(a.value[key := value])
  }

  /** `SyncWithServer` as written: identical except that recording the links
      panics (None) when the experiment has no annotation map yet. */
  function SyncWithServerAsWritten(e: Experiment, remote: RemoteAnswers): (r: Option<SyncResult>)
    ensures r.None? <==>
      e.replicas > 0 && ExperimentUrl(e) == "" && remote.createExperiment.Ok? && e.meta.annotations.None?
    ensures r.Some? ==> r.value == SyncWithServer(e, remote)
  {
    var url := ExperimentUrl(e);
    if e.replicas > 0 && url == "" && remote.createExperiment.Ok? then
      var created := remote.createExperiment.value;
      match StoreAnnotationAsWritten(e.meta.annotations, ExperimentUrlAnnotation, created.self)
      case None => None
      case Some(withSelf) =>
        var a := StoreAnnotationAsWritten(Some(withSelf), NextTrialUrlAnnotation, created.nextTrial);
        var parallel := created.optimization.parallelTrials;
        var replicas := if e.replicas > parallel && parallel > 0 then parallel else e.replicas;
        Some(Synced([RemoteApi.CreateExperiment(e.meta.name, CopyExperimentToRemote(e))], true,
                    e.(meta := e.meta.(annotations := a), replicas := replicas)))
    else
      // the other paths never store into the map
      Some(SyncWithServer(e, remote))
  }

  /** The discrepancy: an experiment created without annotations, wanting
      replicas, crashes the step as written, while the corrected step records
      both links. */
  lemma NilAnnotationsCrashCreation(e: Experiment, remote: RemoteAnswers)
    requires e.meta.annotations.None? && e.replicas > 0 && remote.createExperiment.Ok?
    ensures SyncWithServerAsWritten(e, remote).None?
    ensures SyncWithServer(e, remote).Synced?
    ensures ExperimentUrl(SyncWithServer(e, remote).experiment) == remote.createExperiment.value.self
    ensures NextTrialUrl(SyncWithServer(e, remote).experiment) == remote.createExperiment.value.nextTrial
  {
  }

  // ---------------------------------------------------------------------------
  // Provisioning one trial
  // ---------------------------------------------------------------------------

  /** The controller's copy of the materialiser: the helpers' copy plus the
      trial finalizer appended to whatever the template lists. */
  function PopulateTrialFromTemplate(e: Experiment, ns: string): (t: Trial)
    ensures PopulatedFrom(e, ns, t)
    ensures t.meta.finalizers == e.template.meta.finalizers + [Finalizer]
  {
    var t := Helpers.PopulateTrialFromTemplate(e, ns);
    t.(meta := t.meta.(finalizers := t.meta.finalizers + [Finalizer]))
  }

  /** Some listed trial has namespace `n`. */
  ghost predicate Listed(trials: seq<Trial>, n: string) {
    exists i :: 0 <= i < |trials| && trials[i].meta.namespace == n
  }

  /** The controller's copy of the allocator: no capacity guard, and every
      listed trial (finished or not) occupies its own namespace. */
  function FindAvailableNamespace(e: Experiment, trials: seq<Trial>, namespaces: Result<seq<string>, ClusterError>)
    : (r: Result<string, ClusterError>)
    ensures r.Failure? <==> e.namespaceSelector.Some? && namespaces.Failure?
    ensures r.Failure? ==> r.error == namespaces.error
    ensures r.Success? && r.value != "" ==> !Listed(trials, r.value)
    ensures e.namespaceSelector.Some? && namespaces.Success? && r.value != "" ==>
              exists k :: 0 <= k < |namespaces.value| && namespaces.value[k] == r.value &&
                forall j :: 0 <= j < k ==> Listed(trials, namespaces.value[j])
    ensures (e.namespaceSelector.Some? && namespaces.Success? &&
             forall j :: 0 <= j < |namespaces.value| ==> Listed(trials, namespaces.value[j]))
            ==> r == Success("")
    // and whenever some listed namespace is free, the first free one is handed out
    ensures (e.namespaceSelector.Some? && namespaces.Success? &&
             exists k :: 0 <= k < |namespaces.value| && !Listed(trials, namespaces.value[k]))
            ==> exists k :: (0 <= k < |namespaces.value| && r == Success(namespaces.value[k]) &&
                  !Listed(trials, namespaces.value[k]) &&
                  forall j :: 0 <= j < k ==> Listed(trials, namespaces.value[j]))
    ensures e.namespaceSelector.None? ==>
              r == Success(if Listed(trials, e.meta.namespace) then "" else e.meta.namespace)
  {
    var inuse := set i | 0 <= i < |trials| :: trials[i].meta.namespace;
    assert forall n :: n in inuse <==> Listed(trials, n);
    if e.namespaceSelector.Some? then
      match namespaces
      case Failure(err) => Failure(err)
      case Success(names) =>
        match FirstOutside(names, inuse)
        case Some(k) => Success(names[k])
        case None => Success("")
    else if e.meta.namespace in inuse then Success("")
    else Success(e.meta.namespace)
  }

  /** Converts one suggested assignment, dropping values that are not 64-bit integers. */
  function AsAssignment(a: RemoteApi.SuggestedAssignment): Option<Assignment> {
    if a.int64Value.Some? then Some(Assignment(a.parameterName, a.int64Value.value)) else None
  }

  /** The integer-valued suggested assignments, in suggestion order. */
  function IntegerAssignments(s: seq<RemoteApi.SuggestedAssignment>): (r: seq<Assignment>)
    ensures |r| <= |s|
    ensures forall x :: x in r <==> exists a :: a in s && a.int64Value.Some? && x == Assignment(a.parameterName, a.int64Value.value)
  {
    FilterMap(s, AsAssignment)
  }

  /** One suggested assignment is copied exactly when it is an integer. */
  lemma IntegerAssignmentsSingle(a: RemoteApi.SuggestedAssignment)
    ensures IntegerAssignments([a]) == if a.int64Value.Some? then [Assignment(a.parameterName, a.int64Value.value)] else []
  {
  }

  /** The copy works suggestion by suggestion: together with the single case
      this fixes the order and the number of copies of every assignment. */
  lemma IntegerAssignmentsAppend(a: seq<RemoteApi.SuggestedAssignment>, b: seq<RemoteApi.SuggestedAssignment>)
    ensures IntegerAssignments(a + b) == IntegerAssignments(a) + IntegerAssignments(b)
  {
    FilterMapAppend(a, b, AsAssignment);
  }

  /** When every suggested value is an integer, the i-th copied assignment is
      the i-th suggestion. */
  lemma IntegerAssignmentsTotal(s: seq<RemoteApi.SuggestedAssignment>)
    requires forall i :: 0 <= i < |s| ==> s[i].int64Value.Some?
    ensures |IntegerAssignments(s)| == |s|
    ensures forall i :: 0 <= i < |s| ==>
      IntegerAssignments(s)[i] == Assignment(s[i].parameterName, s[i].int64Value.value)
  {
    FilterMapTotal(s, AsAssignment);
  }

  /** Copies the server's suggestion into the new trial: the report URL as an
      annotation, then the integer-valued assignments after the template's. */
  function AdoptSuggestion(t: Trial, s: RemoteApi.Suggestion): (r: Trial)
    requires t.meta.annotations.Some?
    ensures ReportTrialUrl(r) == s.reportTrialUrl
    ensures r.spec.assignments == t.spec.assignments + IntegerAssignments(s.assignments)
    ensures forall k :: k != ReportTrialUrlAnnotation ==> Annotation(r.meta.annotations, k) == Annotation(t.meta.annotations, k)
    ensures r.(meta := t.meta, spec := t.spec) == t
    ensures r.meta.(annotations := t.meta.annotations) == t.meta
    ensures r.spec.(assignments := t.spec.assignments) == t.spec
  {
    var annotated := t.(meta := t.meta.(annotations := SetAnnotation(t.meta.annotations, ReportTrialUrlAnnotation, s.reportTrialUrl)));
    annotated.(spec := annotated.spec.(assignments := annotated.spec.assignments + IntegerAssignments(s.assignments)))
  }

  /** The stopped projection: no replicas, no next-trial URL. */
  function StopExperiment(e: Experiment): (r: Experiment)
    ensures r.replicas == 0 && NextTrialUrl(r) == ""
    ensures forall k :: k != NextTrialUrlAnnotation ==> Annotation(r.meta.annotations, k) == Annotation(e.meta.annotations, k)
    ensures r.(replicas := e.replicas, meta := r.meta.(annotations := e.meta.annotations)) == e
  {
    e.(replicas := 0, meta := e.meta.(annotations := RemoveAnnotation(e.meta.annotations, NextTrialUrlAnnotation)))
  }

  /** Provisions one trial when a next-trial URL is recorded and fewer trials
      are listed than replicas are wanted; None when this branch does not apply. */
  function Provision(e: Experiment, trials: seq<Trial>, cluster: ClusterReads, remote: RemoteAnswers): (r: Option<Step>)
    // the branch applies only below the wanted population, with a link to ask, and a free namespace or a failure
    ensures r.None? <==>
      NextTrialUrl(e) == "" || e.replicas <= |trials| || FindAvailableNamespace(e, trials, cluster.namespaces) == Success("")
    // failures before asking the server make no call
    ensures r.Some? && r.value.calls == [] ==>
      r.value.action.Error? && (r.value.action.failure.ClusterFailure? || r.value.action.failure == ControllerReferenceFailed)
    ensures r.Some? ==> r.value.calls == [] || r.value.calls == [RemoteApi.NextTrial(NextTrialUrl(e))]
    // the only write to the experiment is the stopped projection
    ensures r.Some? && r.value.action.UpdateExperiment? ==>
      r.value.action == UpdateExperiment(StopExperiment(e)) && remote.nextTrial == RemoteApi.Err(RemoteApi.ExperimentStopped)
    // the server is asked exactly when a free namespace and an owner reference are at hand
    ensures r.Some? && r.value.calls != [] <==>
      r.Some? && cluster.controllerRef.Some? && FindAvailableNamespace(e, trials, cluster.namespaces).Success?
    // how each answer is handled
    ensures r.Some? && r.value.calls != [] ==>
      match remote.nextTrial
      case Err(ExperimentStopped) => r.value.action == UpdateExperiment(StopExperiment(e))
      case Err(TrialUnavailable(delay)) => r.value.action == RequeueAfter(delay)
      case Err(other) => r.value.action == Error(NextTrialFailed(other))
      case Ok(s) =>
        var ns := FindAvailableNamespace(e, trials, cluster.namespaces).value;
        && r.value.action.CreateTrial?
        && ns != "" && !Listed(trials, ns)
        && r.value.action.trial.meta.namespace == (if e.template.meta.namespace != "" then e.template.meta.namespace else ns)
        && r.value.action.trial.meta.controller == cluster.controllerRef
        && r.value.action.trial.meta.finalizers == e.template.meta.finalizers + [Finalizer]
        && r.value.action.trial.spec.experimentRef.Some?
        && ReportTrialUrl(r.value.action.trial) == s.reportTrialUrl
        && r.value.action.trial.spec.assignments == e.template.spec.assignments + IntegerAssignments(s.assignments)
        // apart from owner, report URL and assignments, it is the materialised template
        && var t := r.value.action.trial;
           var p := PopulateTrialFromTemplate(e, ns);
           && t.(meta := t.meta.(controller := p.meta.controller, annotations := p.meta.annotations),
                 spec := t.spec.(assignments := p.spec.assignments)) == p
           && forall k :: k != ReportTrialUrlAnnotation ==> Annotation(t.meta.annotations, k) == Annotation(p.meta.annotations, k)
  {
    var nextTrialUrl := NextTrialUrl(e);
    if nextTrialUrl == "" || e.replicas <= |trials| then None
    else
      match FindAvailableNamespace(e, trials, cluster.namespaces)
      case Failure(err) => Some(Step([], Error(ClusterFailure(err))))
      case Success(ns) =>
        if ns == "" then None
        else
          var trial := PopulateTrialFromTemplate(e, ns);
          match cluster.controllerRef
          case None => Some(Step([], Error(ControllerReferenceFailed)))
          case Some(owner) =>
            var owned := trial.(meta := trial.meta.(controller := Some(owner)));
            var calls := [RemoteApi.NextTrial(nextTrialUrl)];
            match remote.nextTrial
            case Err(ExperimentStopped) => Some(Step(calls, UpdateExperiment(StopExperiment(e))))
            case Err(TrialUnavailable(delay)) => Some(Step(calls, RequeueAfter(delay)))
            case Err(other) => Some(Step(calls, Error(NextTrialFailed(other))))
            case Ok(suggestion) => Some(Step(calls, CreateTrial(AdoptSuggestion(owned, suggestion))))
  }

  // ---------------------------------------------------------------------------
  // Retiring one trial
  // ---------------------------------------------------------------------------

  function AsObservedValue(v: Value): Option<RemoteApi.Value> {
    if v.number.Some? then Some(RemoteApi.Value(v.name, v.number.value)) else None
  }

  /** The metric values whose text parses as a number, in recorded order. */
  function ObservedValues(vs: seq<Value>): (r: seq<RemoteApi.Value>)
    ensures |r| <= |vs|
    ensures forall v :: v in r <==> exists x :: x in vs && x.number.Some? && v == RemoteApi.Value(x.name, x.number.value)
  {
    FilterMap(vs, AsObservedValue)
  }

  /** One value is reported exactly when it parses. */
  lemma ObservedValuesSingle(x: Value)
    ensures ObservedValues([x]) == if x.number.Some? then [RemoteApi.Value(x.name, x.number.value)] else []
  {
  }

  /** Values are reported one by one in recorded order: with the single case
      this fixes the order and multiplicity of the reported values. */
  lemma ObservedValuesAppend(a: seq<Value>, b: seq<Value>)
    ensures ObservedValues(a + b) == ObservedValues(a) + ObservedValues(b)
  {
    FilterMapAppend(a, b, AsObservedValue);
  }

  /** When every value parses, the i-th reported value is the i-th recorded one. */
  lemma ObservedValuesTotal(vs: seq<Value>)
    requires forall i :: 0 <= i < |vs| ==> vs[i].number.Some?
    ensures |ObservedValues(vs)| == |vs|
    ensures forall i :: 0 <= i < |vs| ==> ObservedValues(vs)[i] == RemoteApi.Value(vs[i].name, vs[i].number.value)
  {
    FilterMapTotal(vs, AsObservedValue);
  }

  /** The observation reported for a trial: its parseable metric values, and
      whether some failure condition is true. */
  function Observation(t: Trial): (r: RemoteApi.TrialValues)
    ensures r.failed <==> HasTrueCondition(t, TrialFailed)
    ensures r.values == ObservedValues(t.spec.values)
  {
    RemoteApi.TrialValues(ObservedValues(t.spec.values), HasTrueCondition(t, TrialFailed))
  }

  /** A trial that recorded a single latency of 12.5 and did not fail reports
      exactly that one value. */
  lemma ObservationOfOneValue(t: Trial)
    requires t.spec.values == [Value("latency", Some(12.5))]
    requires !HasTrueCondition(t, TrialFailed)
    ensures Observation(t) == RemoteApi.TrialValues([RemoteApi.Value("latency", 12.5)], false)
  {
    ObservedValuesSingle(t.spec.values[0]);
  }

  /** Removes one copy of the finalizer from a trial, touching nothing else. */
  function ReleaseTrial(t: Trial): (r: Trial)
    requires Finalizer in t.meta.finalizers
    ensures multiset(r.meta.finalizers) == multiset(t.meta.finalizers) - multiset{Finalizer}
    ensures r.(meta := r.meta.(finalizers := t.meta.finalizers)) == t
  {
    t.(meta := t.meta.(finalizers := SwapRemove(t.meta.finalizers, Finalizer)))
  }

  /** What looking at one trial yields: the calls made, and the outcome if this
      trial ends the step (None: go on with the next trial). */
  datatype Retirement = Retirement(calls: seq<RemoteApi.Call>, action: Option<Action>)

  /** The retirement rules for the trial at position `i`. */
  function RetireTrial(e: Experiment, t: Trial, i: nat, reportFails: bool): (r: Retirement)
    // finished, not yet deleted: delete it (reporting happens while it finalizes)
    ensures IsTrialFinished(t) && !IsDeleting(t.meta) ==> r == Retirement([], Some(DeleteTrial(i)))
    // finished and finalizing: report first, always
    ensures IsTrialFinished(t) && IsDeleting(t.meta) ==>
      r.calls == [RemoteApi.ReportTrial(ReportTrialUrl(t), Observation(t))]
    ensures IsTrialFinished(t) && IsDeleting(t.meta) && reportFails && !IsDeleting(e.meta) ==>
      r.action == Some(Error(ReportTrialFailed(i)))
    ensures IsTrialFinished(t) && IsDeleting(t.meta) && (!reportFails || IsDeleting(e.meta)) ==>
      r.action == (if Finalizer in t.meta.finalizers then Some(UpdateTrial(i, ReleaseTrial(t))) else None)
    // deleted before it finished: drop the finalizer without reporting
    ensures !IsTrialFinished(t) && IsDeleting(t.meta) ==>
      r == Retirement([], if Finalizer in t.meta.finalizers then Some(UpdateTrial(i, ReleaseTrial(t))) else None)
    // still running while the experiment goes away: delete it
    ensures !IsTrialFinished(t) && !IsDeleting(t.meta) ==>
      r == Retirement([], if IsDeleting(e.meta) then Some(DeleteTrial(i)) else None)
  {
    if IsTrialFinished(t) then
      if !IsDeleting(t.meta) then Retirement([], Some(DeleteTrial(i)))
      else
        var report := RemoteApi.ReportTrial(ReportTrialUrl(t), Observation(t));
        if reportFails && !IsDeleting(e.meta) then Retirement([report], Some(Error(ReportTrialFailed(i))))
        else if Finalizer in t.meta.finalizers then Retirement([report], Some(UpdateTrial(i, ReleaseTrial(t))))
        else Retirement([report], None)
    else if IsDeleting(t.meta) then
      if Finalizer in t.meta.finalizers then Retirement([], Some(UpdateTrial(i, ReleaseTrial(t))))
      else Retirement([], None)
    else if IsDeleting(e.meta) then Retirement([], Some(DeleteTrial(i)))
    else Retirement([], None)
  }

  /** The trial at position `j` does not end the step. */
  predicate PassesOver(e: Experiment, trials: seq<Trial>, j: nat, remote: RemoteAnswers)
    requires j < |trials|
  {
    RetireTrial(e, trials[j], j, remote.reportTrialFails(j)).action.None?
  }

  /** Releases the experiment's finalizer when it is being deleted. */
  function ReleaseExperiment(e: Experiment): (r: Action)
    ensures r.UpdateExperiment? <==> IsDeleting(e.meta) && Finalizer in e.meta.finalizers
    ensures r.UpdateExperiment? ==>
      multiset(r.experiment.meta.finalizers) == multiset(e.meta.finalizers) - multiset{Finalizer} &&
      r.experiment.(meta := r.experiment.meta.(finalizers := e.meta.finalizers)) == e
    ensures !r.UpdateExperiment? ==> r == NoOp
  {
    if IsDeleting(e.meta) && Finalizer in e.meta.finalizers then
      UpdateExperiment(e.(meta := e.meta.(finalizers := SwapRemove(e.meta.finalizers, Finalizer))))
    else NoOp
  }

  /** The retirement loop from position `k`: the first trial that ends the
      step decides the outcome; if none does, the experiment finalizer rule does. */
  function Retire(e: Experiment, trials: seq<Trial>, k: nat, remote: RemoteAnswers): (r: Step)
    requires k <= |trials|
    decreases |trials| - k
    ensures forall c :: c in r.calls ==> c.ReportTrial?
    ensures (forall j :: k <= j < |trials| ==> PassesOver(e, trials, j, remote)) ==> r.action == ReleaseExperiment(e)
    ensures (exists j :: k <= j < |trials| && !PassesOver(e, trials, j, remote)) ==>
      exists i :: k <= i < |trials| &&
        (forall j :: k <= j < i ==> PassesOver(e, trials, j, remote)) &&
        RetireTrial(e, trials[i], i, remote.reportTrialFails(i)).action == Some(r.action) &&
        (forall c :: c in RetireTrial(e, trials[i], i, remote.reportTrialFails(i)).calls ==> c in r.calls)
    // every call comes from a trial the loop reached: one passed over or the one that acted
    ensures forall c :: c in r.calls ==>
      exists j :: k <= j < |trials| && (forall m :: k <= m < j ==> PassesOver(e, trials, m, remote)) &&
        c in RetireTrial(e, trials[j], j, remote.reportTrialFails(j)).calls
    // and every trial the loop reached makes its calls, even one it passes over
    ensures forall j :: k <= j < |trials| && (forall m :: k <= m < j ==> PassesOver(e, trials, m, remote)) ==>
      forall c :: c in RetireTrial(e, trials[j], j, remote.reportTrialFails(j)).calls ==> c in r.calls
  {
    if k == |trials| then Step([], ReleaseExperiment(e))
    else
      var here := RetireTrial(e, trials[k], k, remote.reportTrialFails(k));
      if here.action.Some? then
        assert !PassesOver(e, trials, k, remote);
        Step(here.calls, here.action.value)
      else
        var rest := Retire(e, trials, k + 1, remote);
        Step(here.calls + rest.calls, rest.action)
  }

  // ---------------------------------------------------------------------------
  // The reconcile step
  // ---------------------------------------------------------------------------

  /** After synchronisation found nothing to write: list the trials, then
      provision one, else retire one, else release the finalizer. */
  function ReconcileTrials(e: Experiment, cluster: ClusterReads, remote: RemoteAnswers): (r: Step)
    ensures cluster.trials.Failure? ==> r == Step([], Error(ClusterFailure(cluster.trials.error)))
  {
    match cluster.trials
    case Failure(err) => Step([], Error(ClusterFailure(err)))
    case Success(trials) =>
      match Provision(e, trials, cluster, remote)
      case Some(step) => step
      case None => Retire(e, trials, 0, remote)
  }

  /** One reconcile step. */
  function Reconcile(cluster: ClusterReads, remote: RemoteAnswers): (r: Step)
    // a missing experiment is not an error
    ensures cluster.experiment == Failure(NotFound) ==> r == Step([], NoOp)
    ensures cluster.experiment.Failure? && cluster.experiment.error != NotFound ==>
      r == Step([], Error(ClusterFailure(cluster.experiment.error)))
  {
    match cluster.experiment
    case Failure(NotFound) => Step([], NoOp)
    case Failure(err) => Step([], Error(ClusterFailure(err)))
    case Success(e) =>
      var (dirty, withFinalizer) := AddFinalizer(e);
      if dirty then Step([], UpdateExperiment(withFinalizer))
      else
        match SyncWithServer(e, remote)
        case SyncFailed(calls, failure) => Step(calls, Error(failure))
        case Synced(calls, true, synced) => Step(calls, UpdateExperiment(synced))
        case Synced(_, false, _) => ReconcileTrials(e, cluster, remote)
  }
}
