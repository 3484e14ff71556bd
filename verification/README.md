# Experiment controller model

A Dafny model of the experiment controller of the Red Sky Ops (formerly
Cordelia) optimization controller, and of the objectives part of its
experiment generator.

The controller drives an Experiment custom resource against a remote
optimization server. One reconcile step reads the Experiment, the Trials
listed for it and the server's answers, and then does exactly one thing:
- adds its finalizer;
- creates or deletes the remote experiment;
- asks the server for a suggestion and creates one Trial from the template;
- deletes or finalizes one Trial, reporting its observation first;
- or releases the experiment's own finalizer.

The model makes that step a pure function, `Controller.Reconcile`, from the
cluster's reads (`ClusterReads`) and the server's answers (`RemoteAnswers`) to
a `Step`: the server calls made, in order, and the single outcome (`Action`).
Recording the calls lets the properties speak about protocol order, for
example that a finished trial is reported before its finalizer goes.

The helpers module holds three functions:
- the template materialiser;
- the namespace allocator, with a guard on the number of active trials;
- the time-to-live rule that decides when a finished Trial may be
  garbage-collected.

The controller file has older copies of the materialiser and the allocator.
Both versions are modelled, and lemmas relate each pair.

The generator turns an application's objectives into Prometheus metrics:
- a request objective becomes a weighted requests metric, plus per-resource
  metrics when the objective is a "cost" objective;
- a latency objective becomes a StormForger latency metric.

Files:
- `basics.dfy`: `Option`, `Result` and sequence helpers, including the
  swap-remove that finalizer removal uses.
- `resources.dfy`: cluster objects and their metadata, with Go's nil-map
  annotation semantics. Also the trial classifier, and the "fill defaults
  without overwriting" predicate that both materialisers meet.
- `remote_api.dfy`: the server's data types, error kinds and calls.
- `helpers.dfy`: the helpers.
- `controller.dfy`: the reconcile step and its parts.
- `reconcile_properties.dfy`: properties that cut across branches or steps.
- `objectives.dfy`: the generator's objectives passes.

Times are integer nanoseconds, and 0 stands for Go's zero time. The current
time is a parameter (`now`).

The failure time-to-live replaces the general one as soon as any true
failure condition is seen (pkg/controller/experiment/helpers.go:139-141). It
does not depend on the latest finish condition being a failure.

The CreateExperiment path of the controller stores the experiment URL into the
experiment's annotation map without allocating it first. `Controller.Reconcile`
uses the corrected synchronisation step `Controller.SyncWithServer`, which
allocates the map. Only `Controller.SyncWithServerAsWritten` follows the code
as written (see Findings).

## Model

| member | source | states |
|---|---|---|
| `Basics.SwapRemove` | pkg/controller/experiment/experiment_controller.go:229-232 | Removing one occurrence by swapping in the last element loses exactly one copy of it (multiset difference), shortens the list by one and keeps every other element. |
| `Resources.SetAnnotation` | pkg/controller/experiment/experiment_controller.go:174 | Storing an annotation makes the key read back as the stored value and leaves every other key as it read before. |
| `Resources.RemoveAnnotation` | pkg/controller/experiment/experiment_controller.go:314-315 | Deleting an annotation makes the key read as empty, leaves other keys alone, and is a no-op on a nil map. |
| `Helpers.PopulateTrialFromTemplate` | pkg/controller/experiment/helpers.go:37-77 | The new trial meets the fill-defaults-without-overwriting rules: namespace, name or name prefix, labels, annotations, experiment reference and target namespace are set only where the template left them unset. The target namespace is pinned unless a lone, unconstrained trial runs in place. No finalizer is added. |
| `Helpers.PopulatedTrialIsComplete` | pkg/controller/experiment/helpers.go:58-76 | A materialised trial always has an annotation map and an experiment reference, and it has a name or name prefix whenever the experiment has a name. |
| `Helpers.SingleTrialRunsInPlace` | pkg/controller/experiment/helpers.go:49-56 | A single-replica experiment with no namespace selector and no template namespace keeps the template's target namespace. The trial's own namespace is then the given one. |
| `Helpers.InUseNamespaces` | pkg/controller/experiment/helpers.go:87-97 | A namespace is collected exactly when some active trial runs in it, through its target namespace if set and otherwise its own namespace. |
| `Helpers.FindAvailableNamespace` | pkg/controller/experiment/helpers.go:80-124 | Returns "" once the active trials reach the desired replicas. Fails exactly when a selector is set and the namespace listing fails. Never returns a namespace an active trial runs in. With a selector, returns the first listed namespace not in use; without one, the experiment's own namespace unless it is in use. |
| `Helpers.ScanConditions` | pkg/controller/experiment/helpers.go:133-148 | The condition loop yields the latest finish time over the finish conditions, attained by one of them or by the start value. It yields the failure TTL exactly when a true failure condition exists and that TTL is set. |
| `Helpers.FinishTimeConditionsEndActivity` | pkg/controller/experiment/helpers.go:161-168 | The finish-time conditions (a true completion, failure or setup-deleted condition) are exactly what ends a trial's activity: a trial is active iff none of its conditions is one. |
| `Helpers.EffectiveTtl` | pkg/controller/experiment/helpers.go:135-141 | The retention window in force is the one the condition loop settles on, whatever the order of the conditions. |
| `Helpers.NeedsCleanup` | pkg/controller/experiment/helpers.go:127-158 | A trial needs clean-up iff all of these hold: it is not deleted and not active; its effective TTL is set and non-negative; some finish condition has a non-zero time; and every finish condition is older than the TTL at `now`. |
| `Helpers.NeedsCleanupMonotone` | pkg/controller/experiment/helpers.go:155-157 | Once a trial needs clean-up it keeps needing it at every later instant. |
| `Helpers.NeedsCleanupWaitsForWindow` | pkg/controller/experiment/helpers.go:150-157 | While some finish condition is within the effective TTL window, the trial is kept. |
| `Controller.AnnotationKeysDistinct` | pkg/controller/experiment/experiment_controller.go:26-33 | The three URL annotation keys are pairwise distinct, so writing one never disturbs another. |
| `Controller.AddFinalizer` | pkg/controller/experiment/experiment_controller.go:272-283 | The finalizer is appended exactly when deletion was not requested and it is missing; otherwise the experiment is unchanged. |
| `Controller.AddFinalizerIdempotent` | pkg/controller/experiment/experiment_controller.go:272-283 | Adding the finalizer twice changes nothing the second time and adds at most one copy in all. |
| `Controller.RemoteParameters` | pkg/controller/experiment/experiment_controller.go:332-342 | Every parameter becomes an integer parameter with the same name and bounds, in order. |
| `Controller.RemoteMetrics` | pkg/controller/experiment/experiment_controller.go:344-350 | Every metric keeps its name and direction, in order. |
| `Controller.CopyExperimentToRemote` | pkg/controller/experiment/experiment_controller.go:324-351 | The remote parallelism is the explicit parallelism if set, else the replica count. Parameter and metric counts are kept. |
| `Controller.RemoteProjectionRoundTrip` | pkg/controller/experiment/experiment_controller.go:324-351 | Reading the remote definition back gives the experiment's parameters and metrics exactly. |
| `Controller.ParametersRoundTrip` | pkg/controller/experiment/experiment_controller.go:332-342 | The parameter projection has an inverse. |
| `Controller.MetricsRoundTrip` | pkg/controller/experiment/experiment_controller.go:344-350 | The metric projection has an inverse. |
| `Controller.LinkExperiment` | pkg/controller/experiment/experiment_controller.go:296-302 | Records both URLs and leaves every other annotation and field alone. Replicas drop to the server's parallelism exactly when that is positive and smaller, and are never raised. |
| `Controller.UnlinkExperiment` | pkg/controller/experiment/experiment_controller.go:309-318 | Both URLs read empty and replicas are zero. Nothing else changes. |
| `Controller.SyncWithServer` | pkg/controller/experiment/experiment_controller.go:285-321 | Creates the remote experiment (as the only call) exactly when replicas are wanted and none is linked. On success it links; on error it fails. Otherwise, when deleting with a link, it deletes the remote experiment and unlinks whatever the answer. Otherwise it makes no call and no change. Finalizers are never touched. |
| `Controller.StoreAnnotationAsWritten` | pkg/controller/experiment/experiment_controller.go:297-298 | Storing into the annotation map as written fails exactly when the map is nil. Otherwise it agrees with `SetAnnotation`. |
| `Controller.SyncWithServerAsWritten` | pkg/controller/experiment/experiment_controller.go:285-321 | The step as written crashes exactly on a successful creation for an experiment without an annotation map. Otherwise it agrees with `SyncWithServer`. |
| `Controller.NilAnnotationsCrashCreation` | pkg/controller/experiment/experiment_controller.go:296-298 | For an experiment with no annotations that wants replicas and gets a created experiment back, the code as written crashes and the corrected step records both links. |
| `Controller.PopulateTrialFromTemplate` | pkg/controller/experiment/experiment_controller.go:354-389 | The same fill-defaults rules as the helpers copy, plus the trial finalizer appended to the template's finalizers. |
| `Controller.FindAvailableNamespace` | pkg/controller/experiment/experiment_controller.go:392-424 | No capacity guard, and every listed trial's own namespace is in use. Fails exactly when a selector is set and the listing fails. Returns the first listed namespace no trial occupies; without a selector, the experiment's namespace unless occupied. |
| `Controller.IntegerAssignments` | pkg/controller/experiment/experiment_controller.go:175-182 | The suggested assignments whose value is a 64-bit integer, and only those. |
| `Controller.IntegerAssignmentsSingle` | pkg/controller/experiment/experiment_controller.go:176-181 | One suggestion is copied exactly when its value is an integer, under its parameter name. |
| `Controller.IntegerAssignmentsAppend` | pkg/controller/experiment/experiment_controller.go:175-182 | The copy goes suggestion by suggestion: copying a concatenation is concatenating the copies. With the single case this fixes order and multiplicity. |
| `Controller.IntegerAssignmentsTotal` | pkg/controller/experiment/experiment_controller.go:175-182 | When every value is an integer, the i-th copied assignment is the i-th suggestion. |
| `Controller.AdoptSuggestion` | pkg/controller/experiment/experiment_controller.go:173-182 | The new trial carries the report URL and gets the integer assignments after the template's. Nothing else changes. |
| `Controller.StopExperiment` | pkg/controller/experiment/experiment_controller.go:159-164 | After "stopped", replicas are zero and the next-trial URL is gone. Every other annotation and field is kept. |
| `Controller.Provision` | pkg/controller/experiment/experiment_controller.go:141-190 | The branch applies exactly when all of these hold: a next-trial URL is recorded, fewer trials are listed than replicas, and the allocator found a namespace or failed. The server is asked only when an owner reference is at hand. "Stopped" scrubs, "unavailable" requeues after the advised delay, other errors are returned. A suggestion becomes one owned trial, in a free namespace, carrying the report URL and the assignments. Apart from owner, report URL and assignments, that trial is exactly the template materialised in the allocated namespace. |
| `Controller.ObservedValues` | pkg/controller/experiment/experiment_controller.go:208-216 | The reported values are the recorded values that parse as numbers, and only those, never more of them than were recorded. |
| `Controller.ObservedValuesSingle` | pkg/controller/experiment/experiment_controller.go:209-215 | One recorded value is reported exactly when it parses, under its metric name. |
| `Controller.ObservedValuesAppend` | pkg/controller/experiment/experiment_controller.go:208-216 | Values are reported one by one in recorded order: reporting a concatenation is concatenating the reports. With the single case this fixes order and multiplicity. |
| `Controller.ObservedValuesTotal` | pkg/controller/experiment/experiment_controller.go:208-216 | When every value parses, the i-th reported value is the i-th recorded one. |
| `Controller.Observation` | pkg/controller/experiment/experiment_controller.go:201-216 | The observation is failed iff some failure condition is true. Its values are the trial's parseable values in recorded order. |
| `Controller.ObservationOfOneValue` | pkg/controller/experiment/experiment_controller.go:201-216 | A trial that recorded one latency of 12.5 and did not fail reports exactly that value and is not failed. |
| `Controller.ReleaseTrial` | pkg/controller/experiment/experiment_controller.go:228-236 | Exactly one copy of the finalizer is removed from the trial, and nothing else changes. |
| `Controller.RetireTrial` | pkg/controller/experiment/experiment_controller.go:193-253 | A finished live trial is deleted. A finished deleting trial is reported first, then its finalizer is released; a failed report stops the step only while the experiment lives. An unfinished deleting trial loses its finalizer without a report. A running trial is deleted when the experiment is. |
| `Controller.ReleaseExperiment` | pkg/controller/experiment/experiment_controller.go:256-266 | A deleting experiment loses exactly one copy of its finalizer. Otherwise there is no action. |
| `Controller.Retire` | pkg/controller/experiment/experiment_controller.go:192-266 | Only report calls are made. When every trial passes over, the experiment finalizer rule decides. Otherwise the first trial that acts decides. Every call comes from a trial the loop reached (one passed over or the one that acted), and every reached trial makes its calls: a finished, deleting trial that no longer holds the finalizer is reported again on every step. |
| `Controller.ReconcileTrials` | pkg/controller/experiment/experiment_controller.go:126-139 | A failed trial listing ends the step with that error. |
| `Controller.Reconcile` | pkg/controller/experiment/experiment_controller.go:98-110 | A missing experiment is no error and needs no action; any other read failure is returned. |
| `ReconcileProperties.RetireTrialOutcomes` | pkg/controller/experiment/experiment_controller.go:193-253 | A trial can only be deleted, have its finalizer released (only when it holds one), or fail its report. |
| `ReconcileProperties.RetireOnlyReports` | pkg/controller/experiment/experiment_controller.go:192-254 | The retirement loop calls the server only to report trials. |
| `ReconcileProperties.RetireWritesExperimentLast` | pkg/controller/experiment/experiment_controller.go:192-266 | The loop writes the experiment, or does nothing, only after every trial passed over, through the finalizer rule. |
| `ReconcileProperties.RetireOutcomeKinds` | pkg/controller/experiment/experiment_controller.go:192-269 | Retirement ends in one of five ways: a trial deletion, a trial finalizer release, a failed report, an experiment finalizer release, or no action. |
| `ReconcileProperties.RetireFirstActs` | pkg/controller/experiment/experiment_controller.go:192-254 | Any other outcome is what the first acting trial's rules say. |
| `ReconcileProperties.FinalizerComesFirst` | pkg/controller/experiment/experiment_controller.go:112-116 | A live experiment without the finalizer first gets one update that only appends it, with no server call. |
| `ReconcileProperties.FinalizerNeverDuplicated` | pkg/controller/experiment/experiment_controller.go:272-283 | Once present, the finalizer is never added again by any step. |
| `ReconcileProperties.CreateOnlyWhenUnlinked` | pkg/controller/experiment/experiment_controller.go:288-306 | CreateExperiment is called only when replicas are wanted and no URL is recorded, and then it is the only call. On success the step records both URLs and never raises replicas. |
| `ReconcileProperties.DeletionUnlinksWhateverTheAnswer` | pkg/controller/experiment/experiment_controller.go:309-318 | Deleting with a link calls DeleteExperiment, then removes both URLs and zeroes replicas. Finalizers are kept, and the step is the same whether or not the call fails. |
| `ReconcileProperties.ReplicasNeverRaised` | pkg/controller/experiment/experiment_controller.go:285-321 | No step raises a non-negative replica count or makes it negative. |
| `ReconcileProperties.NextTrialOnlyUnderCapacity` | pkg/controller/experiment/experiment_controller.go:141-155 | NextTrial is called only with a next-trial URL and fewer listed trials than replicas, as the step's only call. |
| `ReconcileProperties.NextTrialAnswerHandling` | pkg/controller/experiment/experiment_controller.go:154-171 | After asking: "stopped" gives the stopped update, "unavailable" a requeue after the advised delay, other errors an error, a suggestion a trial creation. |
| `ReconcileProperties.CreatedTrialShape` | pkg/controller/experiment/experiment_controller.go:147-188 | A created trial follows a NextTrial call. It is owned by the experiment, holds the finalizer and the server's report URL, and carries the template's then the suggested integer assignments. Its namespace, when chosen, is not one a listed trial occupies. Everything else (labels, name, target namespace, other annotations, the rest of the spec) is the template materialised in the allocated namespace. |
| `ReconcileProperties.StoppedIsAbsorbing` | pkg/controller/experiment/experiment_controller.go:159-164 | A stopped experiment (no replicas, no next-trial URL) never asks for a trial or a new remote experiment, and every update keeps it stopped. |
| `ReconcileProperties.StoppedNeverAsksAgain` | pkg/controller/experiment/experiment_controller.go:159-164 | Once the stopped update is written back, no later step asks for a trial or creates a remote experiment. |
| `ReconcileProperties.RetiresFirstMatchingTrial` | pkg/controller/experiment/experiment_controller.go:192-254 | A step acting on a trial acts on the first listed trial the rules apply to, as those rules say. |
| `ReconcileProperties.ReportBeforeRelease` | pkg/controller/experiment/experiment_controller.go:218-236 | A trial finalizer is removed only from a deleting trial that holds it, and exactly one copy goes. For a finished trial, its observation is reported to its report URL in the same step. |
| `ReconcileProperties.ReportFailureBlocksOnlyLiveExperiments` | pkg/controller/experiment/experiment_controller.go:221-226 | A failed report is an error only while the experiment is not being deleted, and only for a finished, deleting trial. |
| `ReconcileProperties.DeleteOnlyFinishedOrOrphaned` | pkg/controller/experiment/experiment_controller.go:193-253 | A trial is deleted only when it is not already deleting and either finished or its experiment is being deleted. |
| `ReconcileProperties.PassesOverWhileDeleting` | pkg/controller/experiment/experiment_controller.go:193-253 | While the experiment is being deleted, a trial is passed over iff it is deleting and no longer holds the finalizer. |
| `ReconcileProperties.ExperimentFinalizerReleasedLast` | pkg/controller/experiment/experiment_controller.go:256-266 | The experiment loses its finalizer only when all three hold: it is being deleted, its remote link is gone, and every listed trial is deleting without the finalizer. |
| `ReconcileProperties.ProvisionsOneTrialAtATime` | pkg/controller/experiment/experiment_controller.go:141-189 | Three replicas, no trials, a next-trial URL and a suggestion give exactly one NextTrial call and one trial creation with the suggested assignments. |
| `ReconcileProperties.UnavailableWaits` | pkg/controller/experiment/experiment_controller.go:165-167 | "No suggestion yet" gives a requeue after the advised delay and no write. |
| `ReconcileProperties.MaterialiserCopiesAgree` | pkg/controller/experiment/experiment_controller.go:354-389 | The controller's materialiser is the helpers' one with the finalizer appended. |
| `ReconcileProperties.AllocatorCopiesAgree` | pkg/controller/experiment/helpers.go:80-124 | Below capacity, with every listed trial active and without a target namespace, the two allocators give the same answer. |
| `Objectives.NatToDecimal` | redskyctl/internal/commands/generate/experiment/objectives.go:66 | The rendering is non-empty, all digits, and has no leading zero. |
| `Objectives.FormatInt` | redskyctl/internal/commands/generate/experiment/objectives.go:66 | The rendering is non-empty and starts with '-' exactly for negative numbers. |
| `Objectives.NatToDecimalRoundTrip` | redskyctl/internal/commands/generate/experiment/objectives.go:66 | Reading the digits back gives the number. |
| `Objectives.FormatIntRoundTrip` | redskyctl/internal/commands/generate/experiment/objectives.go:66 | Parsing the `%d` rendering gives the integer back. |
| `Objectives.FormatIntInjective` | redskyctl/internal/commands/generate/experiment/objectives.go:66 | Distinct integers render differently. |
| `Objectives.RequestsQueryDeterminesWeights` | redskyctl/internal/commands/generate/experiment/objectives.go:32 | For a fixed selector, the requests query determines both weights. |
| `Objectives.AddRequestsMetric` | redskyctl/internal/commands/generate/experiment/objectives.go:47-92 | Appends the minimized primary metric with the objective's bounds, optimize flag and weighted query, where an unset weight counts as zero. For a "cost" objective with both weights non-zero that is not excluded from optimization, it also appends the two non-optimized per-resource metrics. The experiment and Prometheus are always ensured. |
| `Objectives.AddObjectives` | redskyctl/internal/commands/generate/experiment/objectives.go:34-45 | Every requests objective adds its metrics after the existing ones; the metric count grows by the per-objective counts. All added metrics are minimized Prometheus metrics. The experiment and Prometheus are ensured iff some objective is a requests objective; with none, nothing changes. |
| `Objectives.AddObjectivesAppend` | redskyctl/internal/commands/generate/experiment/objectives.go:34-45 | The pass is a left fold: two lists handled in turn give the same result as their concatenation. |
| `Objectives.AddObjectivesLast` | redskyctl/internal/commands/generate/experiment/objectives.go:34-45 | A requests objective at the end of the list contributes its metrics after everything before it. |
| `Objectives.LatencyMeasure` | redskyctl/internal/commands/generate/experiment/objectives.go:110-126 | Only the six StormForger latency types have a measure, and the measure name reads back as the type. |
| `Objectives.LatencyMeasureInverse` | redskyctl/internal/commands/generate/experiment/objectives.go:110-126 | Each StormForger measure names exactly one latency type, and only the six supported types have a measure. |
| `Objectives.AddStormForgerLatencyMetric` | redskyctl/internal/commands/generate/experiment/objectives.go:108-139 | For a type StormForger cannot measure, the output is unchanged and no experiment is added. Otherwise one minimized metric is appended, with the objective's bounds and optimize flag. Its query selects the trial-run series, and the latency type can be read back from it. |
| `Objectives.AddStormForgerObjectives` | redskyctl/internal/commands/generate/experiment/objectives.go:95-106 | Every measurable latency objective adds one metric, in order, after the existing ones. Prometheus set-up is untouched. The experiment is ensured iff some objective is measurable; with none, nothing changes. |
| `Objectives.AddStormForgerObjectivesAppend` | redskyctl/internal/commands/generate/experiment/objectives.go:95-106 | The StormForger pass is a left fold over concatenation. |
| `Objectives.AddStormForgerObjectivesLast` | redskyctl/internal/commands/generate/experiment/objectives.go:96-100 | A latency objective at the end of the list contributes exactly the metric the single-objective step builds for it, after everything before it. |
| `Objectives.PassesHandleDisjointKinds` | redskyctl/internal/commands/generate/experiment/objectives.go:34-45 | Objectives without a latency part are ignored by the StormForger pass, and objectives without a requests part by the objectives pass. |

## Left out

- Controller registration and wiring (`Add`, `newReconciler`, `add`, the watches) and the generator's command-line entry point: framework plumbing with no logic to state.
- Cluster and server I/O are oracles. Cluster reads are `ClusterReads`; server answers are `RemoteAnswers`, and the calls made are recorded in the step. Each cluster write (Update, Create, Delete) is the step's single `Action`, and its own error is the write's outcome, not modelled.
- Building the trial label selector (template labels, default labels or the explicit selector) is not modelled. A conversion failure appears as a failed trial listing.
- The same holds for the namespace selector conversion: its failure folds into the namespace listing result.
- `SetControllerReference` is an oracle too: the owner reference, or None when building it fails.
- Number parsing (`Int64` on suggested values, `ParseFloat` on trial values) is pre-parsed into `Option` fields.
- The decimal rendering of parameter bounds sent to the server stands as the integer it renders. The rendering is injective.
- `NewExperimentName` is left out: the remote experiment is named by the experiment's name.
- Resource quantities are represented by their integer value.
- Objectives.WantsResourceMetrics: tests a weight for zero as "integer value is 0". The source tests the quantity itself, which differs only for fractional quantities strictly between -1 and 0.
- The label set rendering (`labels.Set.String`) is not modelled: a request objective carries its rendered selector.
- `FixLatency` is not modelled: latency types are already normalised.
- `findOrAddExperiment` and `ensurePrometheus` are not part of this model. Their effect is the `hasExperiment` and `hasPrometheus` flags of `Output`.
- The trial classifier (`IsTrialFinished`, `IsTrialActive`) is not part of this model. It is defined here from the conditions: finished means a true Complete or Failed condition; active means no true Complete, Failed or SetupDeleted condition.
- `GetReplicas`, `GetDefaultLabels` and `GetSelfReference` are not part of this model. Their results are fields of the experiment: `replicas`, `defaultLabels`, `selfRef`.
- The creation-timestamp patch on an embedded job template in the helpers' materialiser is not modelled: it only makes the object serialisable.
- Helpers.NeedsCleanup: does not model 64-bit overflow when the TTL in seconds is converted to a duration, nor time zones. Times are unbounded integers.
- Integer widths (int32 replicas and parallelism, int64 assignments) are unbounded integers. No arithmetic on them can overflow.
- Logging is not modelled.

## Findings

| source | as written | input that shows it | evidently intended | confidence | as-written member | corrected member |
|---|---|---|---|---|---|---|
| pkg/controller/experiment/experiment_controller.go:297-298 | After a successful CreateExperiment, both URLs are stored into the experiment's annotation map, which is never allocated on this path. | An Experiment created with no annotations and replicas > 0, for which the server creates the remote experiment: storing into the nil map panics. | Allocate the map when nil, as the trial materialiser does, and record both links. | medium, not executed | `Controller.SyncWithServerAsWritten` (with `Controller.NilAnnotationsCrashCreation`) | `Controller.SyncWithServer` |
