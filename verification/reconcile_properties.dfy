/**
  Properties of the reconcile step that relate its branches to each other and
  to later steps: the finalizer protocol, the gates on every remote call, the
  stopped-experiment projection, report-before-release for trials, and the
  experiment finalizer being released last.
 */
module ReconcileProperties {
  import opened Basics
  import opened Resources
  import RemoteApi
  import opened Controller
  import Helpers

  /** Some call of the given step is a CreateExperiment call. */
  predicate CallsCreate(r: Step) {
    exists c :: c in r.calls && c.CreateExperiment?
  }

  /** Some call of the given step is a NextTrial call. */
  predicate CallsNextTrial(r: Step) {
    exists c :: c in r.calls && c.NextTrial?
  }


  // ---------------------------------------------------------------------------
  // How a step for a found experiment unfolds
  // ---------------------------------------------------------------------------

  /** An unfolding aid, not a property: the stages of a step for a found
      experiment, tried in order, spelled out case by case so the lemmas below
      can reason about one stage at a time. */
  lemma Stages(cluster: ClusterReads, remote: RemoteAnswers, e: Experiment)
    requires cluster.experiment == Success(e)
    ensures var r := Reconcile(cluster, remote);
      var s := SyncWithServer(e, remote);
      && (AddFinalizer(e).0 ==> r == Step([], UpdateExperiment(AddFinalizer(e).1)))
      && (!AddFinalizer(e).0 && s.SyncFailed? ==> r == Step(s.calls, Error(s.failure)))
      && (!AddFinalizer(e).0 && s.Synced? && s.dirty ==> r == Step(s.calls, UpdateExperiment(s.experiment)))
      && (!AddFinalizer(e).0 && s.Synced? && !s.dirty && cluster.trials.Failure? ==>
            r == Step([], Error(ClusterFailure(cluster.trials.error))))
      && (!AddFinalizer(e).0 && s.Synced? && !s.dirty && cluster.trials.Success? ==>
            var p := Provision(e, cluster.trials.value, cluster, remote);
            r == if p.Some? then p.value else Retire(e, cluster.trials.value, 0, remote))
  {
  }

  /** The outcomes one trial's retirement rules can produce. */
  lemma RetireTrialOutcomes(e: Experiment, t: Trial, i: nat, reportFails: bool)
    ensures var a := RetireTrial(e, t, i, reportFails).action;
      a.Some? ==>
        || a.value == DeleteTrial(i)
        || (Finalizer in t.meta.finalizers && a.value == UpdateTrial(i, ReleaseTrial(t)))
        || a.value == Error(ReportTrialFailed(i))
  {
  }

  /** The first trial the retirement rules act on, at position `i`. */
  ghost predicate FirstToRetire(e: Experiment, trials: seq<Trial>, i: nat, remote: RemoteAnswers) {
    i < |trials| && !PassesOver(e, trials, i, remote) &&
    forall j :: 0 <= j < i ==> PassesOver(e, trials, j, remote)
  }

  /** The retirement loop makes no call but reports. */
  lemma RetireOnlyReports(e: Experiment, trials: seq<Trial>, remote: RemoteAnswers)
    ensures forall c :: c in Retire(e, trials, 0, remote).calls ==> c.ReportTrial?
  {
  }

  /** The retirement loop writes the experiment (or does nothing) only through
      the experiment finalizer rule, after every trial passed over. */
  lemma RetireWritesExperimentLast(e: Experiment, trials: seq<Trial>, remote: RemoteAnswers)
    ensures Retire(e, trials, 0, remote).action.UpdateExperiment? || Retire(e, trials, 0, remote).action.NoOp? ==>
      Retire(e, trials, 0, remote).action == ReleaseExperiment(e) &&
      forall j :: 0 <= j < |trials| ==> PassesOver(e, trials, j, remote)
  {
    var r := Retire(e, trials, 0, remote);
    if !forall j :: 0 <= j < |trials| ==> PassesOver(e, trials, j, remote) {
      var i :| 0 <= i < |trials| && RetireTrial(e, trials[i], i, remote.reportTrialFails(i)).action == Some(r.action);
      RetireTrialOutcomes(e, trials[i], i, remote.reportTrialFails(i));
    }
  }

  /** The outcomes the retirement loop can produce: a trial deletion, a trial
      finalizer release, a failed report, or the experiment finalizer rule. */
  lemma RetireOutcomeKinds(e: Experiment, trials: seq<Trial>, remote: RemoteAnswers)
    ensures var a := Retire(e, trials, 0, remote).action;
      a.DeleteTrial? || a.UpdateTrial? || (a.Error? && a.failure.ReportTrialFailed?) || a.UpdateExperiment? || a.NoOp?
  {
    var r := Retire(e, trials, 0, remote);
    if !forall j :: 0 <= j < |trials| ==> PassesOver(e, trials, j, remote) {
      var i :| 0 <= i < |trials| && RetireTrial(e, trials[i], i, remote.reportTrialFails(i)).action == Some(r.action);
      RetireTrialOutcomes(e, trials[i], i, remote.reportTrialFails(i));
    }
  }

  /** Any other outcome of the retirement loop is what the first acting
      trial's rules say, with that trial's calls among the step's. */
  lemma RetireFirstActs(e: Experiment, trials: seq<Trial>, remote: RemoteAnswers)
    ensures !(Retire(e, trials, 0, remote).action.UpdateExperiment? || Retire(e, trials, 0, remote).action.NoOp?) ==>
      exists i: nat :: (
        && FirstToRetire(e, trials, i, remote)
        && RetireTrial(e, trials[i], i, remote.reportTrialFails(i)).action == Some(Retire(e, trials, 0, remote).action)
        && forall c :: c in RetireTrial(e, trials[i], i, remote.reportTrialFails(i)).calls ==> c in Retire(e, trials, 0, remote).calls)
  {
    var r := Retire(e, trials, 0, remote);
    if !forall j :: 0 <= j < |trials| ==> PassesOver(e, trials, j, remote) {
      var i :| 0 <= i < |trials| && (forall j :: 0 <= j < i ==> PassesOver(e, trials, j, remote)) &&
        RetireTrial(e, trials[i], i, remote.reportTrialFails(i)).action == Some(r.action) &&
        (forall c :: c in RetireTrial(e, trials[i], i, remote.reportTrialFails(i)).calls ==> c in r.calls);
      assert FirstToRetire(e, trials, i, remote);
    }
  }

  // ---------------------------------------------------------------------------
  // Finalizer first, and never twice
  // ---------------------------------------------------------------------------

  /** A live experiment without the finalizer gets it before anything else
      happens: no remote call, one update that only appends the finalizer. */
  lemma FinalizerComesFirst(cluster: ClusterReads, remote: RemoteAnswers, e: Experiment)
    requires cluster.experiment == Success(e)
    requires !IsDeleting(e.meta) && Finalizer !in e.meta.finalizers
    ensures Reconcile(cluster, remote) ==
      Step([], UpdateExperiment(e.(meta := e.meta.(finalizers := e.meta.finalizers + [Finalizer]))))
  {
    Stages(cluster, remote, e);
  }

  /** Reconciling an experiment that already carries the finalizer never adds
      another copy of it. */
  lemma FinalizerNeverDuplicated(cluster: ClusterReads, remote: RemoteAnswers, e: Experiment)
    requires cluster.experiment == Success(e)
    requires Finalizer in e.meta.finalizers
    ensures Reconcile(cluster, remote).action.UpdateExperiment? ==>
      multiset(Reconcile(cluster, remote).action.experiment.meta.finalizers)[Finalizer]
        <= multiset(e.meta.finalizers)[Finalizer]
  {
    Stages(cluster, remote, e);
    var s := SyncWithServer(e, remote);
    if s.Synced? && !s.dirty && cluster.trials.Success? {
      var p := Provision(e, cluster.trials.value, cluster, remote);
      if p.None? {
        RetireWritesExperimentLast(e, cluster.trials.value, remote);
      }
    }
  }

  // ---------------------------------------------------------------------------
  // Remote experiment creation and deletion
  // ---------------------------------------------------------------------------

  /** CreateExperiment is called only for an experiment that wants replicas
      and has no experiment URL, and then it is the step's only call; on
      success the step records both URLs and never raises replicas. */
  lemma CreateOnlyWhenUnlinked(cluster: ClusterReads, remote: RemoteAnswers, e: Experiment)
    requires cluster.experiment == Success(e)
    ensures CallsCreate(Reconcile(cluster, remote)) ==>
      e.replicas > 0 && ExperimentUrl(e) == "" &&
      Reconcile(cluster, remote).calls == [RemoteApi.CreateExperiment(e.meta.name, CopyExperimentToRemote(e))]
    ensures CallsCreate(Reconcile(cluster, remote)) && remote.createExperiment.Ok? ==>
      var created := remote.createExperiment.value;
      Reconcile(cluster, remote).action.UpdateExperiment? &&
      var e' := Reconcile(cluster, remote).action.experiment;
      ExperimentUrl(e') == created.self && NextTrialUrl(e') == created.nextTrial &&
      e'.replicas <= e.replicas &&
      (e'.replicas < e.replicas <==> 0 < created.optimization.parallelTrials < e.replicas)
  {
    Stages(cluster, remote, e);
    if cluster.trials.Success? {
      RetireOnlyReports(e, cluster.trials.value, remote);
    }
  }

  /** When deletion is requested and an experiment URL is recorded, the step
      calls DeleteExperiment and, whatever the server answers, writes the
      experiment back with both URLs removed and replicas at zero. */
  lemma DeletionUnlinksWhateverTheAnswer(cluster: ClusterReads, remote: RemoteAnswers, e: Experiment)
    requires cluster.experiment == Success(e)
    requires IsDeleting(e.meta) && ExperimentUrl(e) != ""
    ensures Reconcile(cluster, remote).calls == [RemoteApi.DeleteExperiment(ExperimentUrl(e))]
    ensures Reconcile(cluster, remote).action.UpdateExperiment?
    ensures var e' := Reconcile(cluster, remote).action.experiment;
      ExperimentUrl(e') == "" && NextTrialUrl(e') == "" && e'.replicas == 0 &&
      e'.meta.finalizers == e.meta.finalizers
    ensures Reconcile(cluster, remote) == Reconcile(cluster, remote.(deleteExperimentFails := !remote.deleteExperimentFails))
  {
    Stages(cluster, remote, e);
  }

  /** No step raises the replica count of a non-negative experiment. */
  lemma ReplicasNeverRaised(cluster: ClusterReads, remote: RemoteAnswers, e: Experiment)
    requires cluster.experiment == Success(e)
    requires e.replicas >= 0
    ensures Reconcile(cluster, remote).action.UpdateExperiment? ==>
      0 <= Reconcile(cluster, remote).action.experiment.replicas <= e.replicas
  {
    Stages(cluster, remote, e);
    if cluster.trials.Success? {
      RetireWritesExperimentLast(e, cluster.trials.value, remote);
    }
  }

  // ---------------------------------------------------------------------------
  // Provisioning
  // ---------------------------------------------------------------------------

  /** NextTrial is asked only when a next-trial URL is recorded and fewer
      trials are listed than replicas are wanted, and it is then the only call. */
  lemma NextTrialOnlyUnderCapacity(cluster: ClusterReads, remote: RemoteAnswers, e: Experiment)
    requires cluster.experiment == Success(e)
    ensures CallsNextTrial(Reconcile(cluster, remote)) ==>
      cluster.trials.Success? && NextTrialUrl(e) != "" && e.replicas > |cluster.trials.value| &&
      Provision(e, cluster.trials.value, cluster, remote) == Some(Reconcile(cluster, remote)) &&
      Reconcile(cluster, remote).calls == [RemoteApi.NextTrial(NextTrialUrl(e))]
  {
    Stages(cluster, remote, e);
    if cluster.trials.Success? {
      RetireOnlyReports(e, cluster.trials.value, remote);
    }
  }

  /** How the step reacts to the server's answer once it asked for a trial:
      "stopped" scrubs the experiment in one update, "unavailable" retries
      after the advised delay without writing, any other error is returned,
      and a suggestion becomes exactly one new trial. */
  lemma NextTrialAnswerHandling(cluster: ClusterReads, remote: RemoteAnswers, e: Experiment)
    requires cluster.experiment == Success(e)
    requires CallsNextTrial(Reconcile(cluster, remote))
    ensures remote.nextTrial == RemoteApi.Err(RemoteApi.ExperimentStopped) ==>
      Reconcile(cluster, remote).action == UpdateExperiment(StopExperiment(e))
    ensures remote.nextTrial.Err? && remote.nextTrial.error.TrialUnavailable? ==>
      Reconcile(cluster, remote).action == RequeueAfter(remote.nextTrial.error.retryAfter)
    ensures remote.nextTrial.Err? && remote.nextTrial.error.OtherError? ==>
      Reconcile(cluster, remote).action == Error(NextTrialFailed(remote.nextTrial.error))
    ensures remote.nextTrial.Ok? ==> Reconcile(cluster, remote).action.CreateTrial?
  {
    NextTrialOnlyUnderCapacity(cluster, remote, e);
  }

  /** A created trial: materialised from the template (with the finalizer),
      owned by the experiment, linked to the server's report URL, and carrying
      the template's assignments followed by the integer-valued suggested ones,
      in a namespace no listed trial occupies. */
  lemma CreatedTrialShape(cluster: ClusterReads, remote: RemoteAnswers, e: Experiment)
    requires cluster.experiment == Success(e)
    requires Reconcile(cluster, remote).action.CreateTrial?
    ensures remote.nextTrial.Ok? && cluster.controllerRef.Some? && cluster.trials.Success?
    ensures Reconcile(cluster, remote).calls == [RemoteApi.NextTrial(NextTrialUrl(e))]
    ensures var t := Reconcile(cluster, remote).action.trial;
      var s := remote.nextTrial.value;
      && ReportTrialUrl(t) == s.reportTrialUrl
      && t.spec.assignments == e.template.spec.assignments + IntegerAssignments(s.assignments)
      && t.meta.finalizers == e.template.meta.finalizers + [Finalizer]
      && t.meta.controller == cluster.controllerRef
      && t.spec.experimentRef.Some?
      && (e.template.meta.namespace == "" ==> !Listed(cluster.trials.value, t.meta.namespace))
    // everything else is the template materialised in the allocated namespace
    ensures var t := Reconcile(cluster, remote).action.trial;
      var p := PopulateTrialFromTemplate(e, FindAvailableNamespace(e, cluster.trials.value, cluster.namespaces).value);
      && FindAvailableNamespace(e, cluster.trials.value, cluster.namespaces).Success?
      && t.(meta := t.meta.(controller := p.meta.controller, annotations := p.meta.annotations),
            spec := t.spec.(assignments := p.spec.assignments)) == p
      && forall k :: k != ReportTrialUrlAnnotation ==> Annotation(t.meta.annotations, k) == Annotation(p.meta.annotations, k)
  {
    Stages(cluster, remote, e);
    var r := Reconcile(cluster, remote);
    RetireOutcomeKinds(e, cluster.trials.value, remote);
    assert r.calls[0] in r.calls;
    NextTrialOnlyUnderCapacity(cluster, remote, e);
  }

  // ---------------------------------------------------------------------------
  // The stopped projection is absorbing
  // ---------------------------------------------------------------------------

  /** The state a "stopped" answer leaves behind. */
  predicate Stopped(e: Experiment) {
    e.replicas == 0 && NextTrialUrl(e) == ""
  }

  /** Once stopped, an experiment never asks the server for a trial or for a
      new remote experiment again, and every write keeps it stopped. */
  lemma StoppedIsAbsorbing(cluster: ClusterReads, remote: RemoteAnswers, e: Experiment)
    requires cluster.experiment == Success(e)
    requires Stopped(e)
    ensures !CallsNextTrial(Reconcile(cluster, remote))
    ensures !CallsCreate(Reconcile(cluster, remote))
    ensures Reconcile(cluster, remote).action.UpdateExperiment? ==> Stopped(Reconcile(cluster, remote).action.experiment)
  {
    NextTrialOnlyUnderCapacity(cluster, remote, e);
    CreateOnlyWhenUnlinked(cluster, remote, e);
    AnnotationKeysDistinct();
    Stages(cluster, remote, e);
    if cluster.trials.Success? {
      RetireWritesExperimentLast(e, cluster.trials.value, remote);
    }
  }

  /** The two-step consequence: after a step that reacted to "stopped" has
      been written back, no later step asks for a trial again. */
  lemma StoppedNeverAsksAgain(cluster: ClusterReads, remote: RemoteAnswers, e: Experiment,
                              next: ClusterReads, later: RemoteAnswers)
    requires cluster.experiment == Success(e)
    requires CallsNextTrial(Reconcile(cluster, remote))
    requires remote.nextTrial == RemoteApi.Err(RemoteApi.ExperimentStopped)
    requires next.experiment == Success(Reconcile(cluster, remote).action.experiment)
    ensures !CallsNextTrial(Reconcile(next, later))
    ensures !CallsCreate(Reconcile(next, later))
  {
    NextTrialAnswerHandling(cluster, remote, e);
    StoppedIsAbsorbing(next, later, StopExperiment(e));
  }

  // ---------------------------------------------------------------------------
  // Retiring trials
  // ---------------------------------------------------------------------------

  /** Retirement acts on the first trial its rules apply to, and whatever it
      does to that trial is what the rules for that trial say. */
  lemma RetiresFirstMatchingTrial(cluster: ClusterReads, remote: RemoteAnswers, e: Experiment)
    requires cluster.experiment == Success(e)
    requires var a := Reconcile(cluster, remote).action;
      a.DeleteTrial? || a.UpdateTrial? || (a.Error? && a.failure.ReportTrialFailed?)
    ensures cluster.trials.Success?
    ensures exists i: nat :: (
      && FirstToRetire(e, cluster.trials.value, i, remote)
      && RetireTrial(e, cluster.trials.value[i], i, remote.reportTrialFails(i)).action == Some(Reconcile(cluster, remote).action)
      && forall c :: c in RetireTrial(e, cluster.trials.value[i], i, remote.reportTrialFails(i)).calls ==>
           c in Reconcile(cluster, remote).calls)
  {
    Stages(cluster, remote, e);
    RetireFirstActs(e, cluster.trials.value, remote);
  }

  /** A trial's finalizer is removed only while it is being deleted, and a
      finished trial's only after its observation was reported in the same
      step; the update removes exactly one copy of the finalizer. */
  lemma ReportBeforeRelease(cluster: ClusterReads, remote: RemoteAnswers, e: Experiment)
    requires cluster.experiment == Success(e)
    ensures Reconcile(cluster, remote).action.UpdateTrial? ==> cluster.trials.Success?
    ensures Reconcile(cluster, remote).action.UpdateTrial? ==>
      var i := Reconcile(cluster, remote).action.index;
      var trials := cluster.trials.value;
      && i < |trials|
      && IsDeleting(trials[i].meta)
      && Finalizer in trials[i].meta.finalizers
      && Reconcile(cluster, remote).action.trial == ReleaseTrial(trials[i])
      && (IsTrialFinished(trials[i]) ==>
            RemoteApi.ReportTrial(ReportTrialUrl(trials[i]), Observation(trials[i])) in Reconcile(cluster, remote).calls)
  {
    if Reconcile(cluster, remote).action.UpdateTrial? {
      RetiresFirstMatchingTrial(cluster, remote, e);
    }
  }

  /** A failed report stops the step only while the experiment itself lives. */
  lemma ReportFailureBlocksOnlyLiveExperiments(cluster: ClusterReads, remote: RemoteAnswers, e: Experiment)
    requires cluster.experiment == Success(e)
    requires Reconcile(cluster, remote).action.Error?
    requires Reconcile(cluster, remote).action.failure.ReportTrialFailed?
    ensures !IsDeleting(e.meta)
    ensures var i := Reconcile(cluster, remote).action.failure.index;
      cluster.trials.Success? && i < |cluster.trials.value| && remote.reportTrialFails(i) &&
      IsTrialFinished(cluster.trials.value[i]) && IsDeleting(cluster.trials.value[i].meta)
  {
    RetiresFirstMatchingTrial(cluster, remote, e);
  }

  /** A trial is deleted only if it finished or its experiment is going away,
      and only once (never while its deletion is already under way). */
  lemma DeleteOnlyFinishedOrOrphaned(cluster: ClusterReads, remote: RemoteAnswers, e: Experiment)
    requires cluster.experiment == Success(e)
    requires Reconcile(cluster, remote).action.DeleteTrial?
    ensures var i := Reconcile(cluster, remote).action.index;
      cluster.trials.Success? && i < |cluster.trials.value| &&
      !IsDeleting(cluster.trials.value[i].meta) &&
      (IsTrialFinished(cluster.trials.value[i]) || IsDeleting(e.meta))
  {
    RetiresFirstMatchingTrial(cluster, remote, e);
  }

  // ---------------------------------------------------------------------------
  // The experiment finalizer is released last
  // ---------------------------------------------------------------------------

  /** A trial the retirement loop passes over while the experiment is being
      deleted is one that is itself deleting and no longer holds the finalizer. */
  lemma PassesOverWhileDeleting(e: Experiment, trials: seq<Trial>, j: nat, remote: RemoteAnswers)
    requires j < |trials| && IsDeleting(e.meta)
    ensures PassesOver(e, trials, j, remote) <==>
      IsDeleting(trials[j].meta) && Finalizer !in trials[j].meta.finalizers
  {
  }

  /** The experiment loses a copy of its finalizer only when it is being
      deleted, its remote experiment is already unlinked, and every listed
      trial is itself deleting without the finalizer (nothing left to retire). */
  lemma ExperimentFinalizerReleasedLast(cluster: ClusterReads, remote: RemoteAnswers, e: Experiment)
    requires cluster.experiment == Success(e)
    requires Reconcile(cluster, remote).action.UpdateExperiment?
    requires multiset(Reconcile(cluster, remote).action.experiment.meta.finalizers)[Finalizer]
               < multiset(e.meta.finalizers)[Finalizer]
    ensures IsDeleting(e.meta) && ExperimentUrl(e) == ""
    ensures cluster.trials.Success?
    ensures forall j :: 0 <= j < |cluster.trials.value| ==>
      IsDeleting(cluster.trials.value[j].meta) && Finalizer !in cluster.trials.value[j].meta.finalizers
  {
    Stages(cluster, remote, e);
    var trials := cluster.trials.value;
    RetireWritesExperimentLast(e, trials, remote);
    forall j | 0 <= j < |trials|
      ensures IsDeleting(trials[j].meta) && Finalizer !in trials[j].meta.finalizers
    {
      PassesOverWhileDeleting(e, trials, j, remote);
    }
  }

  // ---------------------------------------------------------------------------
  // Scenarios
  // ---------------------------------------------------------------------------

  /** Three replicas wanted, no trials yet, a next-trial URL recorded and a
      suggestion available: the step creates exactly one trial, not three,
      carrying the suggested integer assignments. */
  lemma ProvisionsOneTrialAtATime(cluster: ClusterReads, remote: RemoteAnswers, e: Experiment)
    requires cluster.experiment == Success(e)
    requires Finalizer in e.meta.finalizers && !IsDeleting(e.meta)
    requires e.replicas == 3 && ExperimentUrl(e) != "" && NextTrialUrl(e) != ""
    requires e.namespaceSelector.None? && e.meta.namespace != ""
    requires cluster.trials == Success([]) && cluster.controllerRef.Some?
    requires remote.nextTrial.Ok?
    ensures Reconcile(cluster, remote).calls == [RemoteApi.NextTrial(NextTrialUrl(e))]
    ensures Reconcile(cluster, remote).action.CreateTrial?
    ensures Reconcile(cluster, remote).action.trial.spec.assignments ==
      e.template.spec.assignments + IntegerAssignments(remote.nextTrial.value.assignments)
  {
    Stages(cluster, remote, e);
    assert !Listed([], e.meta.namespace);
  }

  /** The server has no suggestion yet: the step retries after the advised
      delay and writes nothing. */
  lemma UnavailableWaits(cluster: ClusterReads, remote: RemoteAnswers, e: Experiment, delay: int)
    requires cluster.experiment == Success(e)
    requires Finalizer in e.meta.finalizers && !IsDeleting(e.meta)
    requires e.replicas > 0 && ExperimentUrl(e) != "" && NextTrialUrl(e) != ""
    requires e.namespaceSelector.None? && e.meta.namespace != ""
    requires cluster.trials == Success([]) && cluster.controllerRef.Some?
    requires remote.nextTrial == RemoteApi.Err(RemoteApi.TrialUnavailable(delay))
    ensures Reconcile(cluster, remote) == Step([RemoteApi.NextTrial(NextTrialUrl(e))], RequeueAfter(delay))
  {
    Stages(cluster, remote, e);
    assert !Listed([], e.meta.namespace);
  }

  // ---------------------------------------------------------------------------
  // The two copies of the materialiser and the allocator
  // ---------------------------------------------------------------------------

  /** The controller's materialiser is the helpers' one plus the finalizer. */
  lemma MaterialiserCopiesAgree(e: Experiment, ns: string)
    ensures PopulateTrialFromTemplate(e, ns).(meta := PopulateTrialFromTemplate(e, ns).meta.(finalizers := [])) ==
            Helpers.PopulateTrialFromTemplate(e, ns).(meta := Helpers.PopulateTrialFromTemplate(e, ns).meta.(finalizers := []))
    ensures PopulateTrialFromTemplate(e, ns).meta.finalizers ==
            Helpers.PopulateTrialFromTemplate(e, ns).meta.finalizers + [Finalizer]
  {
  }

  /** Below capacity, and when every listed trial is active and runs in its own
      namespace, the helpers' allocator and the controller's agree. */
  lemma AllocatorCopiesAgree(e: Experiment, trials: seq<Trial>, namespaces: Result<seq<string>, ClusterError>)
    requires e.activeTrials < e.replicas
    requires forall i :: 0 <= i < |trials| ==> IsTrialActive(trials[i]) && trials[i].spec.targetNamespace == ""
    ensures Helpers.FindAvailableNamespace(e, trials, namespaces) == FindAvailableNamespace(e, trials, namespaces)
  {
    forall n ensures Helpers.InUse(trials, n) <==> Listed(trials, n) {
      if Listed(trials, n) {
        var i :| 0 <= i < |trials| && trials[i].meta.namespace == n;
        assert Helpers.EffectiveNamespace(trials[i]) == n;
      }
    }
    assert Helpers.InUseNamespaces(trials) == set i | 0 <= i < |trials| :: trials[i].meta.namespace;
  }
}
