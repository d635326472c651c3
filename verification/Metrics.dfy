/** The part of the pdata metric model the exporter reads and writes. Timestamps are natural numbers. */
module Metrics {
  import opened Machine
  import opened Attributes

  datatype Temporality = Unspecified | Delta | Cumulative

  datatype Kind =
    | Empty
    | Gauge
    | Sum(sumTemporality: Temporality, monotonic: bool)
    | Histogram(histogramTemporality: Temporality)
    | ExponentialHistogram
    | Summary

  /** MetricType.String(). */
  function TypeName(kind: Kind): string {
    match kind
    case Empty => "Empty"
    case Gauge => "Gauge"
    case Sum(_, _) => "Sum"
    case Histogram(_) => "Histogram"
    case ExponentialHistogram => "ExponentialHistogram"
    case Summary => "Summary"
  }

  datatype Number = NoNumber | IntNumber(i: I64) | DoubleNumber(d: real)

  datatype Payload =
    | NumberValue(number: Number)
    | HistogramValue(count: U64, sum: real, bounds: seq<real>, counts: seq<U64>)
    | SummaryValue(summaryCount: U64, summarySum: real, quantiles: seq<(real, real)>)
    | ExponentialValue

  datatype Point = Point(attrs: Attrs, start: nat, time: nat, noRecordedValue: bool, payload: Payload)

  datatype Meta = Meta(name: string, description: string, unit: string)

  datatype Metric = Metric(meta: Meta, kind: Kind, points: seq<Point>)

  /** A point of the Go type that metrics of this kind carry. */
  predicate PayloadFits(kind: Kind, payload: Payload) {
    match kind
    case Empty => false
    case Gauge => payload.NumberValue?
    case Sum(_, _) => payload.NumberValue?
    case Histogram(_) => payload.HistogramValue?
    case ExponentialHistogram => payload.ExponentialValue?
    case Summary => payload.SummaryValue?
  }

  predicate PointsFit(kind: Kind, points: seq<Point>) {
    forall i | 0 <= i < |points| :: PayloadFits(kind, points[i].payload)
  }

  /** A typed accessor such as Summary().DataPoints().At(0): it panics on any other metric type. */
  function FirstPoint(m: Metric, typeName: string): Point
    requires TypeName(m.kind) == typeName && m.points != []
  {
    m.points[0]
  }

  /** An incoming metric; its list of points is rewritten in place along the pipeline. */
  class MetricRef {
    const meta: Meta
    const kind: Kind
    var points: seq<Point>

    constructor (meta: Meta, kind: Kind, points: seq<Point>)
      ensures this.meta == meta && this.kind == kind && this.points == points
    {
      this.meta, this.kind, this.points := meta, kind, points;
    }
  }

  datatype ScopeMetrics = ScopeMetrics(scope: string, metrics: seq<MetricRef>)

  datatype ResourceMetrics = ResourceMetrics(resource: Attrs, scopes: seq<ScopeMetrics>)

  datatype ScopedMetric = ScopedMetric(scope: string, metric: MetricRef)

  /** The metrics of a batch in visiting order, scope by scope. */
  function Flatten(scopes: seq<ScopeMetrics>): seq<ScopedMetric> {
    if scopes == [] then [] else
      var last := scopes[|scopes| - 1];
      Flatten(scopes[..|scopes| - 1])
      + seq(|last.metrics|, j requires 0 <= j < |last.metrics| => ScopedMetric(last.scope, last.metrics[j]))
  }

  function MetricsOf(scopes: seq<ScopeMetrics>): set<MetricRef> {
    set x | x in Flatten(scopes) :: x.metric
  }

  lemma InMetricsOf(scopes: seq<ScopeMetrics>, k: nat)
    requires k < |Flatten(scopes)|
    ensures Flatten(scopes)[k].metric in MetricsOf(scopes)
  {}

  /** The points of every metric, in visiting order. */
  function PointsIn(scopes: seq<ScopeMetrics>): seq<seq<Point>>
    reads MetricsOf(scopes)
  {
    var flat := Flatten(scopes);
    seq(|flat|, k requires 0 <= k < |flat| reads MetricsOf(scopes) => flat[k].metric.points)
  }

  /** No metric object occurs at two places of the batch. */
  ghost predicate DistinctMetrics(scopes: seq<ScopeMetrics>) {
    forall k, k' | 0 <= k < k' < |Flatten(scopes)| :: Flatten(scopes)[k].metric != Flatten(scopes)[k'].metric
  }

  lemma FlattenNone(scopes: seq<ScopeMetrics>)
    ensures |Flatten(scopes[..0])| == 0
  {}

  lemma {:induction false} FlattenPrefix(scopes: seq<ScopeMetrics>, i: nat)
    requires i <= |scopes|
    ensures Flatten(scopes[..i]) <= Flatten(scopes)
  {
    if i < |scopes| {
      var init := scopes[..|scopes| - 1];
      FlattenPrefix(init, i);
      assert init[..i] == scopes[..i];
    } else {
      assert scopes[..i] == scopes;
    }
  }

  /** Where metric j of scope i stands in the visiting order. */
  lemma FlattenAt(scopes: seq<ScopeMetrics>, i: nat)
    requires i < |scopes|
    ensures |Flatten(scopes[..i + 1])| == |Flatten(scopes[..i])| + |scopes[i].metrics| <= |Flatten(scopes)|
    ensures forall j | 0 <= j < |scopes[i].metrics| ::
      Flatten(scopes)[|Flatten(scopes[..i])| + j] == ScopedMetric(scopes[i].scope, scopes[i].metrics[j])
  {
    assert scopes[..i + 1][..i] == scopes[..i];
    FlattenPrefix(scopes, i + 1);
  }
}
