/**
  The experiment helpers: the template materialiser (the copy that adds no
  finalizer), the capacity-guarded namespace allocator, and the time-to-live
  rule that says when a finished trial may be garbage-collected.
 */
module Helpers {
  import opened Basics
  import opened Resources

  // ---------------------------------------------------------------------------
  // Trial materialisation
  // ---------------------------------------------------------------------------

  /** Builds a new trial for experiment `e` in namespace `ns` from the
      experiment's trial template, filling in only what the template left unset. */
  function PopulateTrialFromTemplate(e: Experiment, ns: string): (t: Trial)
    ensures PopulatedFrom(e, ns, t)
    ensures t.meta.finalizers == e.template.meta.finalizers
  {
    var m := e.template.meta;
    var s := e.template.spec;
    var target := if e.replicas > 1 || e.namespaceSelector.Some? || m.namespace != "" then ns else s.targetNamespace;
    var namespace := if m.namespace == "" then ns else m.namespace;
    var name := if m.name == "" && namespace != e.meta.namespace then e.meta.name else m.name;
    var generateName :=
      if m.name == "" && namespace == e.meta.namespace && m.generateName == "" then e.meta.name + "-" else m.generateName;
    var labels := if |m.labels| == 0 then e.defaultLabels else m.labels;
    var annotations := if m.annotations.None? then Some(map[]) else m.annotations;
    var ref := if s.experimentRef.None? then Some(e.selfRef) else s.experimentRef;
    Trial(
      m.(namespace := namespace, name := name, generateName := generateName, labels := labels, annotations := annotations),
      s.(targetNamespace := target, experimentRef := ref),
      [])
  }

  // ---------------------------------------------------------------------------
  // Namespace allocation
  // ---------------------------------------------------------------------------

  /** Where a trial runs: its target namespace when set, else its own namespace. */
  function EffectiveNamespace(t: Trial): string {
    if t.spec.targetNamespace != "" then t.spec.targetNamespace else t.meta.namespace
  }

  /** Some active trial runs in namespace `n`. */
  ghost predicate InUse(trials: seq<Trial>, n: string) {
    exists i :: 0 <= i < |trials| && IsTrialActive(trials[i]) && EffectiveNamespace(trials[i]) == n
  }

  /** The namespaces in use, collected trial by trial. */
  function InUseNamespaces(trials: seq<Trial>): (inuse: set<string>)
    ensures forall n :: n in inuse <==> InUse(trials, n)
  {
    if |trials| == 0 then {}
    else
      var rest := InUseNamespaces(trials[1..]);
      assert forall n :: InUse(trials[1..], n) ==> InUse(trials, n) by {
        forall n | InUse(trials[1..], n) ensures InUse(trials, n) {
          var i :| 0 <= i < |trials[1..]| && IsTrialActive(trials[1..][i]) && EffectiveNamespace(trials[1..][i]) == n;
          assert trials[i + 1] == trials[1..][i];
        }
      }
      assert forall n :: InUse(trials, n) ==>
          (IsTrialActive(trials[0]) && EffectiveNamespace(trials[0]) == n) || InUse(trials[1..], n) by {
        forall n | InUse(trials, n)
          ensures (IsTrialActive(trials[0]) && EffectiveNamespace(trials[0]) == n) || InUse(trials[1..], n)
        {
          var i :| 0 <= i < |trials| && IsTrialActive(trials[i]) && EffectiveNamespace(trials[i]) == n;
          if i > 0 {
            assert trials[1..][i - 1] == trials[i];
          }
        }
      }
      if IsTrialActive(trials[0]) then {EffectiveNamespace(trials[0])} + rest else rest
  }

  /** Picks a namespace for the next trial, or "" when none is available.
      A failure is the selector conversion or the namespace listing failing. */
  function FindAvailableNamespace(e: Experiment, trials: seq<Trial>, namespaces: Result<seq<string>, ClusterError>)
    : (r: Result<string, ClusterError>)
    // capacity guard: nothing is handed out once the desired population is active
    ensures e.activeTrials >= e.replicas ==> r == Success("")
    ensures r.Failure? <==> e.activeTrials < e.replicas && e.namespaceSelector.Some? && namespaces.Failure?
    ensures r.Failure? ==> r.error == namespaces.error
    // never a namespace an active trial already runs in
    ensures r.Success? && r.value != "" ==> !InUse(trials, r.value)
    // with a selector: the first listed namespace not in use
    ensures e.activeTrials < e.replicas && e.namespaceSelector.Some? && namespaces.Success? && r.value != "" ==>
              exists k :: 0 <= k < |namespaces.value| && namespaces.value[k] == r.value &&
                forall j :: 0 <= j < k ==> InUse(trials, namespaces.value[j])
    ensures (e.activeTrials < e.replicas && e.namespaceSelector.Some? && namespaces.Success? &&
             forall j :: 0 <= j < |namespaces.value| ==> InUse(trials, namespaces.value[j]))
            ==> r == Success("")
    // and whenever some listed namespace is free, the first free one is handed out
    ensures (e.activeTrials < e.replicas && e.namespaceSelector.Some? && namespaces.Success? &&
             exists k :: 0 <= k < |namespaces.value| && !InUse(trials, namespaces.value[k]))
            ==> exists k :: (0 <= k < |namespaces.value| && r == Success(namespaces.value[k]) &&
                  !InUse(trials, namespaces.value[k]) &&
                  forall j :: 0 <= j < k ==> InUse(trials, namespaces.value[j]))
    // without one: the experiment's own namespace, unless it is in use
    ensures e.activeTrials < e.replicas && e.namespaceSelector.None? ==>
              r == Success(if InUse(trials, e.meta.namespace) then "" else e.meta.namespace)
  {
    if e.activeTrials >= e.replicas then Success("")
    else
      var inuse := InUseNamespaces(trials);
      if e.namespaceSelector.Some? then
        match namespaces
        case Failure(err) => Failure(err)
        case Success(names) =>
          match FirstOutside(names, inuse)
          case Some(k) => Success(names[k])
          case None => Success("")
      else if e.meta.namespace !in inuse then Success(e.meta.namespace)
      else Success("")
  }

  // ---------------------------------------------------------------------------
  // Time-to-live clean-up
  // ---------------------------------------------------------------------------

  /** Conditions that fix a trial's finish time: a true completion, failure or
      setup-deleted condition. */
  predicate IsFinishTimeCondition(c: TrialCondition) {
    match c.kind
    case TrialComplete => c.status == ConditionTrue
    case TrialFailed => c.status == ConditionTrue
    case TrialSetupDeleted => c.status == ConditionTrue
    case OtherCondition(_) => false
  }

  /** A trial is active exactly when none of its conditions fixes a finish time. */
  lemma FinishTimeConditionsEndActivity(t: Trial)
    ensures IsTrialActive(t) <==> forall i :: 0 <= i < |t.conditions| ==> !IsFinishTimeCondition(t.conditions[i])
  {
  }

  /** Deletion requested with a non-zero timestamp (Go's `!IsZero()` on a
      possibly nil time pointer). */
  predicate IsDeleted(t: Trial) {
    t.meta.deletionTimestamp.Some? && t.meta.deletionTimestamp.value != 0
  }

  /** The retention window in seconds that applies to a trial: the failure
      window once a true failure condition is present and that window is set,
      otherwise the general one. */
  function EffectiveTtl(t: Trial): (ttl: Option<int>)
    // the window the condition loop settles on, whatever the order of the conditions
    ensures ttl == ScanConditions(t.conditions, t.spec.ttlSecondsAfterFailure, 0, t.spec.ttlSecondsAfterFinished).1
  {
    if HasTrueCondition(t, TrialFailed) && t.spec.ttlSecondsAfterFailure.Some? then t.spec.ttlSecondsAfterFailure
    else t.spec.ttlSecondsAfterFinished
  }

  /** The condition loop: the latest finish time seen (starting from `finish`)
      and the TTL in force (starting from `ttl`). */
  function ScanConditions(conds: seq<TrialCondition>, failureTtl: Option<int>, finish: Time, ttl: Option<int>)
    : (r: (Time, Option<int>))
    ensures r.0 >= finish
    ensures forall i :: 0 <= i < |conds| && IsFinishTimeCondition(conds[i]) ==> conds[i].lastTransitionTime <= r.0
    ensures r.0 == finish ||
            exists i :: 0 <= i < |conds| && IsFinishTimeCondition(conds[i]) && conds[i].lastTransitionTime == r.0
    ensures r.1 ==
            if (exists i :: 0 <= i < |conds| && conds[i].kind == TrialFailed && conds[i].status == ConditionTrue)
               && failureTtl.Some?
            then failureTtl else ttl
  {
    if |conds| == 0 then (finish, ttl)
    else
      var c := conds[0];
      var r := if IsFinishTimeCondition(c) then
        var ttl' := if c.kind == TrialFailed && failureTtl.Some? then failureTtl else ttl;
        var finish' := if finish < c.lastTransitionTime then c.lastTransitionTime else finish;
        ScanConditions(conds[1..], failureTtl, finish', ttl')
      else
        ScanConditions(conds[1..], failureTtl, finish, ttl);
      assert forall i :: 1 <= i < |conds| ==> conds[i] == conds[1..][i - 1];
      r
  }

  /** Whether a finished trial's retention window has elapsed at instant `now`. */
  function NeedsCleanup(t: Trial, now: Time): (r: bool)
    ensures IsDeleted(t) || IsTrialActive(t) ==> !r
    ensures r <==>
      && !IsDeleted(t)
      && !IsTrialActive(t)
      && EffectiveTtl(t).Some? && EffectiveTtl(t).value >= 0
      // there is a finish time: some qualifying condition carries a non-zero time
      && (exists i :: 0 <= i < |t.conditions| && IsFinishTimeCondition(t.conditions[i])
                      && t.conditions[i].lastTransitionTime > 0)
      // and every qualifying condition is more than the window in the past
      && (forall i :: 0 <= i < |t.conditions| && IsFinishTimeCondition(t.conditions[i]) ==>
            t.conditions[i].lastTransitionTime + EffectiveTtl(t).value * NanosPerSecond < now)
  {
    if IsDeleted(t) || IsTrialActive(t) then false
    else
      var (finish, ttl) := ScanConditions(t.conditions, t.spec.ttlSecondsAfterFailure, 0, t.spec.ttlSecondsAfterFinished);
      if finish == 0 || ttl.None? || ttl.value < 0 then false
      else finish + ttl.value * NanosPerSecond < now
  }

  /** Once a trial needs clean-up it keeps needing it as time passes. */
  lemma NeedsCleanupMonotone(t: Trial, now: Time, later: Time)
    requires now <= later
    requires NeedsCleanup(t, now)
    ensures NeedsCleanup(t, later)
  {
  }

  /** Inside the window (some finish condition not yet `ttl` seconds old) a
      trial is kept. */
  lemma NeedsCleanupWaitsForWindow(t: Trial, now: Time, i: nat)
    requires i < |t.conditions| && IsFinishTimeCondition(t.conditions[i])
    requires EffectiveTtl(t).Some?
    requires now <= t.conditions[i].lastTransitionTime + EffectiveTtl(t).value * NanosPerSecond
    ensures !NeedsCleanup(t, now)
  {
  }

  /** A materialised trial always carries an annotation map (so the controller
      can stamp its report URL into it) and an experiment back-reference, and
      gets a name or a name prefix whenever the experiment has a name. */
  lemma PopulatedTrialIsComplete(e: Experiment, ns: string)
    ensures PopulateTrialFromTemplate(e, ns).meta.annotations.Some?
    ensures PopulateTrialFromTemplate(e, ns).spec.experimentRef.Some?
    ensures e.meta.name != "" ==>
      PopulateTrialFromTemplate(e, ns).meta.name != "" || PopulateTrialFromTemplate(e, ns).meta.generateName != ""
  {
    var t := PopulateTrialFromTemplate(e, ns);
    if e.meta.name != "" && e.template.meta.name == "" && t.meta.namespace == e.meta.namespace
       && e.template.meta.generateName == "" {
      assert |t.meta.generateName| == |e.meta.name| + 1;
    }
  }

  /** A single-replica experiment without a namespace selector or template
      namespace runs its trial in place: the target namespace is left as the
      template has it and only the trial's own namespace is filled in. */
  lemma SingleTrialRunsInPlace(e: Experiment, ns: string)
    requires e.replicas <= 1 && e.namespaceSelector.None? && e.template.meta.namespace == ""
    ensures PopulateTrialFromTemplate(e, ns).spec.targetNamespace == e.template.spec.targetNamespace
    ensures PopulateTrialFromTemplate(e, ns).meta.namespace == ns
  {
  }
}
