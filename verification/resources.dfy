/**
  The cluster resources the controller reads and writes: Experiment and Trial
  objects with their metadata, the annotation map as Go reads it, and the
  trial classifier the controller consults.
 */
module Resources {
  import opened Basics

  /** Instants in integer nanoseconds; 0 stands for Go's zero time (an unset
      timestamp). Durations are nanoseconds too. */
  type Time = int

  const NanosPerSecond: int := 1_000_000_000

  /** Why a read from the cluster gave no value. */
  datatype ClusterError = NotFound | InvalidSelector | RequestFailed

  datatype ConditionType = TrialComplete | TrialFailed | TrialSetupDeleted | OtherCondition(name: string)

  datatype ConditionStatus = ConditionTrue | ConditionFalse | ConditionUnknown

  datatype TrialCondition = TrialCondition(kind: ConditionType, status: ConditionStatus, lastTransitionTime: Time)

  /** A reference to another object (owner, experiment back-reference). */
  datatype ObjectRef = ObjectRef(namespace: string, name: string)

  /** Object metadata. `annotations` is None for Go's nil map, which reads as
      empty but cannot be written to. `controller` is the owner reference
      marked as controller, if any. */
  datatype ObjectMeta = ObjectMeta(
    name: string,
    generateName: string,
    namespace: string,
    labels: map<string, string>,
    annotations: Option<map<string, string>>,
    finalizers: seq<string>,
    deletionTimestamp: Option<Time>,
    controller: Option<ObjectRef>)

  /** Deletion has been requested (Go: `DeletionTimestamp != nil`). */
  predicate IsDeleting(meta: ObjectMeta) {
    meta.deletionTimestamp.Some?
  }

  /** Reads an annotation the way Go indexes a possibly nil map: a missing key
      (or a nil map) reads as the empty string. */
  function Annotation(a: Option<map<string, string>>, key: string): string {
    if a.Some? && key in a.value then a.value[key] else ""
  }

  /** Stores an annotation, allocating the map when it is nil. */
  function SetAnnotation(a: Option<map<string, string>>, key: string, value: string): (r: Option<map<string, string>>)
    ensures r.Some?
    ensures Annotation(r, key) == value
    ensures forall k :: k != key ==> Annotation(r, k) == Annotation(a, k)
    ensures a.Some? ==> r.value.Keys == a.value.Keys + {key}
  {
    Some((if a.Some? then a.value else map[])[key := value])
  }

  /** Go's `delete(m, key)`: a no-op on a nil map. */
  function RemoveAnnotation(a: Option<map<string, string>>, key: string): (r: Option<map<string, string>>)
    ensures r.None? <==> a.None?
    ensures Annotation(r, key) == ""
    ensures r.Some? ==> r.value.Keys == a.value.Keys - {key}
    ensures forall k :: k != key ==> Annotation(r, k) == Annotation(a, k)
  {
    if a.Some? then Some(a.value - {key}) else None
  }

  datatype Assignment = Assignment(name: string, value: int)

  /** A reported metric value; `number` is what parsing its text as a 64-bit
      float gave (None when the text does not parse). */
  datatype Value = Value(name: string, number: Option<real>)

  datatype TrialSpec = TrialSpec(
    experimentRef: Option<ObjectRef>,
    targetNamespace: string,
    assignments: seq<Assignment>,
    values: seq<Value>,
    ttlSecondsAfterFinished: Option<int>,
    ttlSecondsAfterFailure: Option<int>)

  datatype Trial = Trial(meta: ObjectMeta, spec: TrialSpec, conditions: seq<TrialCondition>)

  datatype TrialTemplate = TrialTemplate(meta: ObjectMeta, spec: TrialSpec)

  datatype Parameter = Parameter(name: string, min: int, max: int)

  datatype Metric = Metric(name: string, minimize: bool)

  /** A label selector, kept opaque: matching is done by the cluster. */
  datatype LabelSelector = LabelSelector(text: string)

  /** An Experiment. `replicas` is the effective desired count (what the API
      type's replica getter returns); `activeTrials` is the status counter;
      `defaultLabels` and `selfRef` are what the API type's default-label and
      self-reference helpers compute for this experiment. */
  datatype Experiment = Experiment(
    meta: ObjectMeta,
    replicas: int,
    parallelism: Option<int>,
    parameters: seq<Parameter>,
    metrics: seq<Metric>,
    template: TrialTemplate,
    namespaceSelector: Option<LabelSelector>,
    activeTrials: int,
    defaultLabels: map<string, string>,
    selfRef: ObjectRef)

  /** Some condition of the given type has status True. */
  predicate HasTrueCondition(t: Trial, kind: ConditionType) {
    exists i :: 0 <= i < |t.conditions| && t.conditions[i].kind == kind && t.conditions[i].status == ConditionTrue
  }

  /** The trial is still running: no completion, failure or setup-deleted
      condition is true. */
  predicate IsTrialActive(t: Trial) {
    !HasTrueCondition(t, TrialComplete) && !HasTrueCondition(t, TrialFailed) && !HasTrueCondition(t, TrialSetupDeleted)
  }

  /** The trial has an outcome to report: it completed or failed. */
  predicate IsTrialFinished(t: Trial) {
    HasTrueCondition(t, TrialComplete) || HasTrueCondition(t, TrialFailed)
  }

  /** "Fill defaults without overwriting": what both copies of the template
      materialiser promise about the trial `t` they build for experiment `e`
      in namespace `ns` (apart from finalizers, which only one copy touches). */
  ghost predicate PopulatedFrom(e: Experiment, ns: string, t: Trial) {
    var m := e.template.meta;
    var s := e.template.spec;
    // the namespace comes from the template when it names one
    && t.meta.namespace == (if m.namespace != "" then m.namespace else ns)
    // a template name (and generate-name) is never overwritten
    && (m.name != "" ==> t.meta.name == m.name && t.meta.generateName == m.generateName)
    // reuse the experiment name only outside the experiment's namespace ...
    && (m.name == "" && t.meta.namespace != e.meta.namespace ==>
          t.meta.name == e.meta.name && t.meta.generateName == m.generateName)
    // ... otherwise let the cluster generate a name from a prefix
    && (m.name == "" && t.meta.namespace == e.meta.namespace ==>
          t.meta.name == "" &&
          t.meta.generateName == (if m.generateName != "" then m.generateName else e.meta.name + "-"))
    && t.meta.labels == (if |m.labels| == 0 then e.defaultLabels else m.labels)
    && t.meta.annotations == (if m.annotations.Some? then m.annotations else Some(map[]))
    && t.meta.deletionTimestamp == m.deletionTimestamp
    && t.meta.controller == m.controller
    && t.spec.experimentRef == (if s.experimentRef.Some? then s.experimentRef else Some(e.selfRef))
    // the target namespace is pinned unless a lone, unconstrained trial runs in place
    && t.spec.targetNamespace ==
         (if e.replicas > 1 || e.namespaceSelector.Some? || m.namespace != "" then ns else s.targetNamespace)
    && t.spec.(experimentRef := s.experimentRef, targetNamespace := s.targetNamespace) == s
    && t.conditions == []
  }
}
