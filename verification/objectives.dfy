/**
  The objectives part of the experiment generator: every objective of an
  application contributes zero or more Prometheus metrics to the generated
  experiment. Request objectives become a weighted requests metric (plus two
  non-optimized per-resource metrics for "cost" objectives); latency
  objectives become a StormForger latency metric when StormForger can measure
  that latency.
 */
module Objectives {
  import opened Basics

  // ---------------------------------------------------------------------------
  // Data model
  // ---------------------------------------------------------------------------

  /** Latency types after legacy names have been normalised. */
  datatype LatencyType =
    | LatencyMinimum
    | LatencyMaximum
    | LatencyMean
    | LatencyPercentile50
    | LatencyPercentile95
    | LatencyPercentile99
    | OtherLatency(name: string)

  /** Resource weights; a quantity stands as its integer value and an unset
      weight is None. */
  datatype Weights = Weights(cpu: Option<int>, memory: Option<int>)

  /** `selector` is the rendered label selector of the objective's labels. */
  datatype RequestsObjective = RequestsObjective(selector: string, weights: Weights)

  datatype LatencyObjective = LatencyObjective(latencyType: LatencyType)

  datatype Objective = Objective(
    name: string,
    min: Option<int>,
    max: Option<int>,
    optimize: Option<bool>,
    requests: Option<RequestsObjective>,
    latency: Option<LatencyObjective>)

  datatype MetricType = MetricPrometheus

  datatype Metric = Metric(
    name: string,
    minimize: bool,
    kind: MetricType,
    query: string,
    min: Option<int>,
    max: Option<int>,
    optimize: Option<bool>)

  /** The part of the generated object list the objectives touch: whether the
      experiment object exists yet, its metrics, and whether Prometheus is set up. */
  datatype Output = Output(hasExperiment: bool, metrics: seq<Metric>, hasPrometheus: bool)

  // ---------------------------------------------------------------------------
  // Decimal rendering of integers (the `%d` verb)
  // ---------------------------------------------------------------------------

  predicate IsDigit(c: char) {
    '0' <= c <= '9'
  }

  predicate AllDigits(s: string) {
    forall i :: 0 <= i < |s| ==> IsDigit(s[i])
  }

  function DigitChar(d: nat): (c: char)
    requires d < 10
    ensures IsDigit(c) && (c - '0') as int == d
  {
    '0' + d as char
  }

  /** The decimal digits of `n`, most significant first, without leading zeros. */
  function NatToDecimal(n: nat): (s: string)
    ensures |s| >= 1 && AllDigits(s)
    ensures s[0] == '0' ==> n == 0
    decreases n
  {
    if n < 10 then [DigitChar(n)] else NatToDecimal(n / 10) + [DigitChar(n % 10)]
  }

  /** Go's `%d` on a signed integer. */
  function FormatInt(n: int): (s: string)
    ensures |s| >= 1
    ensures n < 0 <==> s[0] == '-'
  {
    if n < 0 then "-" + NatToDecimal(-n) else NatToDecimal(n)
  }

  /** The value of a string of decimal digits. */
  function DecimalValue(s: string): nat
    requires AllDigits(s)
  {
    if |s| == 0 then 0 else DecimalValue(s[..|s| - 1]) * 10 + (s[|s| - 1] - '0') as int
  }

  /** Reads an optionally signed decimal integer back; the reference
      definition `FormatInt` is checked against. */
  function ParseInt(s: string): Option<int> {
    if |s| >= 2 && s[0] == '-' && AllDigits(s[1..]) then Some(0 - DecimalValue(s[1..]))
    else if |s| >= 1 && AllDigits(s) then Some(DecimalValue(s))
    else None
  }

  lemma {:induction false} NatToDecimalRoundTrip(n: nat)
    ensures DecimalValue(NatToDecimal(n)) == n
    decreases n
  {
    if n >= 10 {
      NatToDecimalRoundTrip(n / 10);
      var s := NatToDecimal(n);
      assert s[..|s| - 1] == NatToDecimal(n / 10);
    }
  }

  /** Rendering loses nothing: parsing the rendering gives the number back. */
  lemma FormatIntRoundTrip(n: int)
    ensures ParseInt(FormatInt(n)) == Some(n)
  {
    if n < 0 {
      NatToDecimalRoundTrip(-n);
      assert FormatInt(n)[1..] == NatToDecimal(-n);
    } else {
      NatToDecimalRoundTrip(n);
    }
  }

  /** Distinct weights give distinct renderings. */
  lemma FormatIntInjective(a: int, b: int)
    requires FormatInt(a) == FormatInt(b)
    ensures a == b
  {
    FormatIntRoundTrip(a);
    FormatIntRoundTrip(b);
  }

  // ---------------------------------------------------------------------------
  // Request objectives
  // ---------------------------------------------------------------------------

  /** `sub` occurs somewhere in `s`. */
  predicate Contains(s: string, sub: string) {
    exists i :: 0 <= i <= |s| - |sub| && sub <= s[i..]
  }

  /** An unset weight counts as zero. */
  function WeightValue(w: Option<int>): int {
    if w.Some? then w.value else 0
  }

  /** The text before the CPU weight in a requests query. */
  function CpuPart(selector: string): string {
    "({{ cpuRequests . \"" + selector + "\" }} * "
  }

  /** The text between the CPU and the memory weight in a requests query. */
  function MemoryPart(selector: string): (p: string)
    ensures |p| >= 1 && p[0] == ')'
  {
    ") + ({{ memoryRequests . \"" + selector + "\" | GB }} * "
  }

  /** The weighted requests query: each resource's requests for the selected
      pods times that resource's weight (memory in gigabytes), summed. */
  function RequestsQuery(selector: string, cpuWeight: int, memoryWeight: int): string {
    CpuPart(selector) + (FormatInt(cpuWeight) + (MemoryPart(selector) + (FormatInt(memoryWeight) + ")")))
  }

  /** Whether a requests objective also gets per-resource metrics: a "cost"
      objective with both weights non-zero that is not explicitly excluded
      from optimization. */
  predicate WantsResourceMetrics(obj: Objective)
    requires obj.requests.Some?
  {
    Contains(obj.name, "cost") &&
    WeightValue(obj.requests.value.weights.cpu) != 0 &&
    WeightValue(obj.requests.value.weights.memory) != 0 &&
    (obj.optimize.None? || obj.optimize.value)
  }

  /** Adds the metrics of one requests objective and makes sure the experiment
      and Prometheus are present. */
  function AddRequestsMetric(obj: Objective, out: Output): (r: Output)
    requires obj.requests.Some?
    ensures r.hasExperiment && r.hasPrometheus
    ensures |r.metrics| == |out.metrics| + (if WantsResourceMetrics(obj) then 3 else 1)
    ensures r.metrics[..|out.metrics|] == out.metrics
    ensures forall i :: |out.metrics| <= i < |r.metrics| ==> r.metrics[i].minimize && r.metrics[i].kind == MetricPrometheus
    // the primary metric carries the objective's bounds and optimize flag
    ensures var m := r.metrics[|out.metrics|];
      && m.name == obj.name && m.minimize && m.kind == MetricPrometheus
      && m.min == obj.min && m.max == obj.max && m.optimize == obj.optimize
      && m.query == RequestsQuery(obj.requests.value.selector,
                                  WeightValue(obj.requests.value.weights.cpu),
                                  WeightValue(obj.requests.value.weights.memory))
    // the per-resource metrics are minimized, reported, never optimized, and unbounded
    ensures WantsResourceMetrics(obj) ==>
      var lbl := obj.requests.value.selector;
      && r.metrics[|out.metrics| + 1] ==
           Metric(obj.name + "-cpu-requests", true, MetricPrometheus, "{{ cpuRequests . \"" + lbl + "\" }}", None, None, Some(false))
      && r.metrics[|out.metrics| + 2] ==
           Metric(obj.name + "-memory-requests", true, MetricPrometheus, "{{ memoryRequests . \"" + lbl + "\" }}", None, None, Some(false))
  {
    var lbl := obj.requests.value.selector;
    var cpu := WeightValue(obj.requests.value.weights.cpu);
    var memory := WeightValue(obj.requests.value.weights.memory);
    var primary := Metric(obj.name, true, MetricPrometheus, RequestsQuery(lbl, cpu, memory), obj.min, obj.max, obj.optimize);
    var extra :=
      if Contains(obj.name, "cost") && cpu != 0 && memory != 0 && (obj.optimize.None? || obj.optimize.value) then
        [Metric(obj.name + "-cpu-requests", true, MetricPrometheus, "{{ cpuRequests . \"" + lbl + "\" }}", None, None, Some(false)),
         Metric(obj.name + "-memory-requests", true, MetricPrometheus, "{{ memoryRequests . \"" + lbl + "\" }}", None, None, Some(false))]
      else [];
    Output(true, out.metrics + [primary] + extra, true)
  }

  /** The weights can be read back off the primary requests metric: two
      objectives with the same selector whose queries agree have equal weights. */
  lemma RequestsQueryDeterminesWeights(selector: string, c1: int, m1: int, c2: int, m2: int)
    requires RequestsQuery(selector, c1, m1) == RequestsQuery(selector, c2, m2)
    ensures c1 == c2 && m1 == m2
  {
    var mp := MemoryPart(selector);
    StripPrefix(CpuPart(selector), FormatInt(c1) + (mp + (FormatInt(m1) + ")")), FormatInt(c2) + (mp + (FormatInt(m2) + ")")));
    RenderingDelimited(c1, c2, mp + (FormatInt(m1) + ")"), mp + (FormatInt(m2) + ")"));
    StripPrefix(mp, FormatInt(m1) + ")", FormatInt(m2) + ")");
    RenderingDelimited(m1, m2, ")", ")");
    FormatIntInjective(c1, c2);
    FormatIntInjective(m1, m2);
  }

  lemma StripPrefix(p: string, x: string, y: string)
    requires p + x == p + y
    ensures x == y
  {
    assert x == (p + x)[|p|..];
    assert y == (p + y)[|p|..];
  }

  /** A rendered integer followed by text starting with ')' ends where that
      text starts: digits and '-' are never ')'. */
  lemma RenderingDelimited(a: int, b: int, ta: string, tb: string)
    requires |ta| >= 1 && ta[0] == ')' && |tb| >= 1 && tb[0] == ')'
    requires FormatInt(a) + ta == FormatInt(b) + tb
    ensures FormatInt(a) == FormatInt(b) && ta == tb
  {
    var fa := FormatInt(a);
    var fb := FormatInt(b);
    NoParenthesis(a);
    NoParenthesis(b);
    if |fa| < |fb| {
      ConcatAt(fa, ta, fb, tb);
      assert false;
    }
    if |fb| < |fa| {
      ConcatAt(fb, tb, fa, ta);
      assert false;
    }
    assert fa == (fa + ta)[..|fa|];
    assert fb == (fb + tb)[..|fb|];
    assert ta == (fa + ta)[|fa|..];
    assert tb == (fb + tb)[|fb|..];
  }

  /** Where the shorter prefix ends, the longer one still continues. */
  lemma ConcatAt(x: string, tx: string, y: string, ty: string)
    requires |x| < |y| && |tx| >= 1
    ensures (x + tx)[|x|] == tx[0] && (y + ty)[|x|] == y[|x|]
  {
  }

  lemma NoParenthesis(n: int)
    ensures forall i :: 0 <= i < |FormatInt(n)| ==> FormatInt(n)[i] != ')'
  {
    if n < 0 {
      assert forall i :: 1 <= i < |FormatInt(n)| ==> FormatInt(n)[i] == NatToDecimal(-n)[i - 1];
    }
  }

  /** How many metrics one objective contributes to the generated experiment. */
  function RequestsMetricCount(obj: Objective): nat {
    if obj.requests.None? then 0 else if WantsResourceMetrics(obj) then 3 else 1
  }

  /** How many metrics a list of objectives contributes. */
  function RequestsMetricTotal(objs: seq<Objective>): nat {
    if |objs| == 0 then 0 else RequestsMetricCount(objs[0]) + RequestsMetricTotal(objs[1..])
  }

  /** Some objective of the list is a requests objective. */
  predicate AnyRequests(objs: seq<Objective>) {
    exists j :: 0 <= j < |objs| && objs[j].requests.Some?
  }

  /** The generator's objectives pass: every requests objective, in order,
      adds its metrics; other objectives are skipped. It never fails. */
  function AddObjectives(objs: seq<Objective>, out: Output): (r: Output)
    ensures |r.metrics| == |out.metrics| + RequestsMetricTotal(objs)
    ensures r.metrics[..|out.metrics|] == out.metrics
    ensures forall i :: |out.metrics| <= i < |r.metrics| ==> r.metrics[i].minimize && r.metrics[i].kind == MetricPrometheus
    ensures r.hasExperiment <==> out.hasExperiment || AnyRequests(objs)
    ensures r.hasPrometheus <==> out.hasPrometheus || AnyRequests(objs)
    ensures !AnyRequests(objs) ==> r == out
  {
    if |objs| == 0 then out
    else
      var next := if objs[0].requests.Some? then AddRequestsMetric(objs[0], out) else out;
      var r := AddObjectives(objs[1..], next);
      assert r.metrics[..|out.metrics|] == next.metrics[..|next.metrics|][..|out.metrics|];
      AnyRequestsCons(objs);
      r
  }

  lemma AnyRequestsCons(objs: seq<Objective>)
    requires |objs| > 0
    ensures AnyRequests(objs) <==> objs[0].requests.Some? || AnyRequests(objs[1..])
  {
    if AnyRequests(objs[1..]) {
      var j :| 0 <= j < |objs[1..]| && objs[1..][j].requests.Some?;
      assert objs[j + 1] == objs[1..][j];
    }
    if AnyRequests(objs) && !objs[0].requests.Some? {
      var j :| 0 <= j < |objs| && objs[j].requests.Some?;
      assert objs[1..][j - 1] == objs[j];
    }
  }

  /** The pass is a fold: handling two lists in turn is handling their
      concatenation. */
  lemma {:induction false} AddObjectivesAppend(a: seq<Objective>, b: seq<Objective>, out: Output)
    ensures AddObjectives(a + b, out) == AddObjectives(b, AddObjectives(a, out))
  {
    if |a| > 0 {
      var next := if a[0].requests.Some? then AddRequestsMetric(a[0], out) else out;
      assert (a + b)[0] == a[0];
      assert (a + b)[1..] == a[1..] + b;
      AddObjectivesAppend(a[1..], b, next);
    } else {
      assert a + b == b;
    }
  }

  /** One requests objective at the end of the list contributes its metrics
      last, after those of everything before it. */
  lemma AddObjectivesLast(a: seq<Objective>, obj: Objective, out: Output)
    requires obj.requests.Some?
    ensures AddObjectives(a + [obj], out) == AddRequestsMetric(obj, AddObjectives(a, out))
  {
    AddObjectivesAppend(a, [obj], out);
  }

  // ---------------------------------------------------------------------------
  // Latency objectives (StormForger)
  // ---------------------------------------------------------------------------

  /** The StormForger measure for a latency type, when StormForger produces one. */
  function LatencyMeasure(t: LatencyType): (m: Option<string>)
    ensures m.None? <==> t.OtherLatency?
    ensures m.Some? ==> MeasureLatency(m.value) == Some(t)
  {
    match t
    case LatencyMinimum => Some("min")
    case LatencyMaximum => Some("max")
    case LatencyMean => Some("mean")
    case LatencyPercentile50 => Some("median")
    case LatencyPercentile95 => Some("percentile_95")
    case LatencyPercentile99 => Some("percentile_99")
    case OtherLatency(_) => None
  }

  /** The latency type a StormForger measure name stands for. */
  function MeasureLatency(m: string): Option<LatencyType> {
    if m == "min" then Some(LatencyMinimum)
    else if m == "max" then Some(LatencyMaximum)
    else if m == "mean" then Some(LatencyMean)
    else if m == "median" then Some(LatencyPercentile50)
    else if m == "percentile_95" then Some(LatencyPercentile95)
    else if m == "percentile_99" then Some(LatencyPercentile99)
    else None
  }

  /** The measure table is invertible: a measure names exactly one latency
      type, and only the six StormForger types have a measure. */
  lemma LatencyMeasureInverse(t: LatencyType, m: string)
    ensures LatencyMeasure(t) == Some(m) <==> MeasureLatency(m) == Some(t)
    ensures LatencyMeasure(t).None? <==> t.OtherLatency?
  {
  }

  /** What follows the measure name in a latency query: the series pushed for
      the trial's run. */
  const LatencySeries: string := "{job=\"trialRun\",instance=\"{{ .Trial.Name }}\"}"

  /** Adds the latency metric of one latency objective, if StormForger can
      measure its latency; otherwise the output is left untouched (and no
      experiment is added). */
  function AddStormForgerLatencyMetric(obj: Objective, out: Output): (r: Output)
    requires obj.latency.Some?
    ensures LatencyMeasure(obj.latency.value.latencyType).None? <==> r == out
    ensures LatencyMeasure(obj.latency.value.latencyType).Some? ==>
      && r.hasExperiment && r.hasPrometheus == out.hasPrometheus
      && |r.metrics| == |out.metrics| + 1
      && r.metrics[..|out.metrics|] == out.metrics
      && r.metrics[|out.metrics|].minimize && r.metrics[|out.metrics|].kind == MetricPrometheus
      && var m := r.metrics[|out.metrics|];
         && m.name == obj.name && m.minimize && m.kind == MetricPrometheus
         && m.min == obj.min && m.max == obj.max && m.optimize == obj.optimize
         // the query selects the measure's series, from which the type can be read back
         && |m.query| > |LatencySeries|
         && m.query[|m.query| - |LatencySeries|..] == LatencySeries
         && MeasureLatency(m.query[..|m.query| - |LatencySeries|]) == Some(obj.latency.value.latencyType)
  {
    match LatencyMeasure(obj.latency.value.latencyType)
    case None => out
    case Some(m) =>
      LatencyMeasureInverse(obj.latency.value.latencyType, m);
      var metric := Metric(obj.name, true, MetricPrometheus, m + LatencySeries, obj.min, obj.max, obj.optimize);
      assert metric.query[..|metric.query| - |LatencySeries|] == m;
      Output(true, out.metrics + [metric], out.hasPrometheus)
  }

  /** Some objective of the list is a latency objective StormForger can measure. */
  predicate AnyMeasurableLatency(objs: seq<Objective>) {
    exists j :: 0 <= j < |objs| && objs[j].latency.Some? && LatencyMeasure(objs[j].latency.value.latencyType).Some?
  }

  /** How many latency metrics a list of objectives contributes. */
  function LatencyMetricTotal(objs: seq<Objective>): nat {
    if |objs| == 0 then 0
    else
      (if objs[0].latency.Some? && LatencyMeasure(objs[0].latency.value.latencyType).Some? then 1 else 0)
        + LatencyMetricTotal(objs[1..])
  }

  /** The StormForger objectives pass: every latency objective, in order, adds
      its metric when it can be measured; other objectives are skipped. It
      never fails and never touches the Prometheus set-up. */
  function AddStormForgerObjectives(objs: seq<Objective>, out: Output): (r: Output)
    ensures |r.metrics| == |out.metrics| + LatencyMetricTotal(objs)
    ensures r.metrics[..|out.metrics|] == out.metrics
    ensures forall i :: |out.metrics| <= i < |r.metrics| ==> r.metrics[i].minimize && r.metrics[i].kind == MetricPrometheus
    ensures r.hasExperiment <==> out.hasExperiment || AnyMeasurableLatency(objs)
    ensures r.hasPrometheus == out.hasPrometheus
    ensures !AnyMeasurableLatency(objs) ==> r == out
  {
    if |objs| == 0 then out
    else
      var next := if objs[0].latency.Some? then AddStormForgerLatencyMetric(objs[0], out) else out;
      var r := AddStormForgerObjectives(objs[1..], next);
      assert r.metrics[..|out.metrics|] == next.metrics[..|next.metrics|][..|out.metrics|];
      AnyMeasurableLatencyCons(objs);
      r
  }

  lemma AnyMeasurableLatencyCons(objs: seq<Objective>)
    requires |objs| > 0
    ensures AnyMeasurableLatency(objs) <==>
      (objs[0].latency.Some? && LatencyMeasure(objs[0].latency.value.latencyType).Some?) || AnyMeasurableLatency(objs[1..])
  {
    if AnyMeasurableLatency(objs[1..]) {
      var j :| 0 <= j < |objs[1..]| && objs[1..][j].latency.Some? &&
        LatencyMeasure(objs[1..][j].latency.value.latencyType).Some?;
      assert objs[j + 1] == objs[1..][j];
    }
    if AnyMeasurableLatency(objs) && !(objs[0].latency.Some? && LatencyMeasure(objs[0].latency.value.latencyType).Some?) {
      var j :| 0 <= j < |objs| && objs[j].latency.Some? && LatencyMeasure(objs[j].latency.value.latencyType).Some?;
      assert objs[1..][j - 1] == objs[j];
    }
  }

  /** The StormForger pass is a fold too. */
  lemma {:induction false} AddStormForgerObjectivesAppend(a: seq<Objective>, b: seq<Objective>, out: Output)
    ensures AddStormForgerObjectives(a + b, out) == AddStormForgerObjectives(b, AddStormForgerObjectives(a, out))
  {
    if |a| > 0 {
      var next := if a[0].latency.Some? then AddStormForgerLatencyMetric(a[0], out) else out;
      assert (a + b)[0] == a[0];
      assert (a + b)[1..] == a[1..] + b;
      AddStormForgerObjectivesAppend(a[1..], b, next);
    } else {
      assert a + b == b;
    }
  }

  /** One latency objective at the end of the list contributes its metric (if
      StormForger can measure it) last, after those of everything before it. */
  lemma AddStormForgerObjectivesLast(a: seq<Objective>, obj: Objective, out: Output)
    requires obj.latency.Some?
    ensures AddStormForgerObjectives(a + [obj], out) == AddStormForgerLatencyMetric(obj, AddStormForgerObjectives(a, out))
  {
    AddStormForgerObjectivesAppend(a, [obj], out);
  }

  /** A requests-only application gets nothing from the StormForger pass, and
      a latency-only application nothing from the objectives pass: the two
      passes handle disjoint kinds of objective. */
  lemma PassesHandleDisjointKinds(objs: seq<Objective>, out: Output)
    ensures (forall j :: 0 <= j < |objs| ==> objs[j].latency.None?) ==> AddStormForgerObjectives(objs, out) == out
    ensures (forall j :: 0 <= j < |objs| ==> objs[j].requests.None?) ==> AddObjectives(objs, out) == out
  {
  }
}
