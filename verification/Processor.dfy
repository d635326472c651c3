/** metricresourcesattrstolabels.go: copies resource attributes onto the data points of every metric. */
module Processor {
  import opened Sequences
  import opened Attributes
  import opened Metrics
  import opened Resource
  import opened Relabelling
  import opened ProcessorLaws

  function MapAttrs(kind: Kind, points: seq<Point>, fn: Attrs -> Attrs): seq<Point> {
    if kind.Empty? then points
    else seq(|points|, i requires 0 <= i < |points| => points[i].(attrs := fn(points[i].attrs)))
  }

  /** What the processor promises for a point: every field but the attributes stays, and the attributes are those of the
      closed form. */
  ghost predicate Processed(was: Point, p: Point, resource: Attrs) {
    && p == was.(attrs := p.attrs)
    && (UniqueKeys(was.attrs) && UniqueKeys(resource) ==>
          UniqueKeys(p.attrs) && forall k :: Get(p.attrs, k) == ClosedForm(was.attrs, resource, k))
  }

  /** Every point that a metric of any type can carry is processed. */
  lemma AllProcessed(kind: Kind, points: seq<Point>, resource: Attrs)
    requires PointsFit(kind, points)
    ensures |RelabelPoints(kind, points, resource)| == |points|
    ensures forall l | 0 <= l < |points| :: Processed(points[l], RelabelPoints(kind, points, resource)[l], resource)
  {
    hide Relabelled, ClosedForm, UniqueKeys, Get;
    forall l | 0 <= l < |points| ensures Processed(points[l], RelabelPoints(kind, points, resource)[l], resource) {
      var am, q := points[l].attrs, RelabelPoints(kind, points, resource)[l];
      assert PayloadFits(kind, points[l].payload) && q == points[l].(attrs := Relabelled(am, resource));
      if UniqueKeys(am) && UniqueKeys(resource) {
        RelabelledIsClosedForm(am, resource, "");
        forall k ensures Get(q.attrs, k) == ClosedForm(am, resource, k) {
          RelabelledIsClosedForm(am, resource, k);
        }
      }
    }
  }

  /** The points of a metric after processing. */
  function RelabelPoints(kind: Kind, points: seq<Point>, resource: Attrs): seq<Point> {
    MapAttrs(kind, points, am => Relabelled(am, resource))
  }

  /** Applies `fn` to the attributes of each data point, whatever the metric type. */
  method ApplyToMetricAttributes(metric: MetricRef, fn: Attrs -> Attrs)
    modifies metric`points
    ensures metric.points == MapAttrs(metric.kind, old(metric.points), fn)
    ensures PointsFit(metric.kind, old(metric.points)) ==>
      && |metric.points| == |old(metric.points)|
      && forall l | 0 <= l < |metric.points| ::
           metric.points[l] == old(metric.points)[l].(attrs := fn(old(metric.points)[l].attrs))
  {
    if metric.kind.Empty? { return; }
    ghost var before := metric.points;
    for l := 0 to |metric.points|
      invariant |metric.points| == |before|
      invariant forall i | 0 <= i < |before| ::
        metric.points[i] == if i < l then before[i].(attrs := fn(before[i].attrs)) else before[i]
    {
      metric.points := metric.points[l := metric.points[l].(attrs := fn(metric.points[l].attrs))];
    }
  }

  /** Key-outer, point-inner: every point ends up with the per-point closed form. */
  method ProcessMetric(metric: MetricRef, resource: Attrs)
    modifies metric`points
    ensures metric.points == RelabelPoints(metric.kind, old(metric.points), resource)
    ensures PointsFit(metric.kind, old(metric.points)) ==>
      && |metric.points| == |old(metric.points)|
      && forall l | 0 <= l < |metric.points| :: Processed(old(metric.points)[l], metric.points[l], resource)
  {
    hide Find, CopyOne, RemoveIdentity, Processed, PointsFit;
    ghost var before := metric.points;
    var hasName, hasInstance := Has(resource, SERVICE_NAME), Has(resource, SERVICE_INSTANCE_ID);
    for i := 0 to |resource|
      invariant |metric.points| == |before| && (metric.kind.Empty? ==> metric.points == before)
      invariant !metric.kind.Empty? ==> forall l | 0 <= l < |before| ::
        metric.points[l] == before[l].(attrs := CopyFirst(before[l].attrs, resource, i))
    {
      var kv := resource[i];
      if (kv.key == JOB_LABEL && hasName) || (kv.key == INSTANCE_LABEL && hasInstance) {
        continue;
      }
      ApplyToMetricAttributes(metric, am => CopyOne(am, kv));
    }
    if hasName || hasInstance {
      ApplyToMetricAttributes(metric, am => RemoveIdentity(am, resource));
    }
    ghost var after := RelabelPoints(metric.kind, before, resource);
    forall l | 0 <= l < |before| ensures metric.points[l] == after[l] {
      NothingToRemove(CopyFirst(before[l].attrs, resource, |resource|), resource);
    }
    if PointsFit(metric.kind, before) { AllProcessed(metric.kind, before, resource); }
  }

  lemma NothingToRemove(am: Attrs, resource: Attrs)
    ensures !Has(resource, SERVICE_NAME) && !Has(resource, SERVICE_INSTANCE_ID) ==> RemoveIdentity(am, resource) == am
  {}

  /** ProcessMetric on one of many distinct metrics: the others keep their points. */
  method ProcessOneOf(ghost flat: seq<ScopedMetric>, ghost c: nat, ghost points: seq<seq<Point>>,
                      metric: MetricRef, resource: Attrs)
    requires |points| == |flat| && forall k | 0 <= k < |flat| :: flat[k].metric.points == points[k]
    requires c < |flat| && flat[c].metric == metric
    requires forall k, k' | 0 <= k < k' < |flat| :: flat[k].metric != flat[k'].metric
    modifies metric`points
    ensures metric.points == RelabelPoints(metric.kind, points[c], resource)
    ensures forall k | 0 <= k < |flat| :: flat[k].metric.points == points[c := metric.points][k]
  {
    ProcessMetric(metric, resource);
  }

  /** Of the metrics of a resource, the first c are processed. */
  ghost predicate ProcessedUpTo(flat: seq<ScopedMetric>, before: seq<seq<Point>>, resource: Attrs,
                                c: nat, points: seq<seq<Point>>) {
    && c <= |flat| == |before| == |points|
    && forall k | 0 <= k < |flat| ::
         points[k] == if k < c then RelabelPoints(flat[k].metric.kind, before[k], resource) else before[k]
  }

  lemma ProcessOneMore(flat: seq<ScopedMetric>, before: seq<seq<Point>>, resource: Attrs,
                       c: nat, points: seq<seq<Point>>, next: seq<Point>)
    requires ProcessedUpTo(flat, before, resource, c, points) && c < |flat|
    ensures |points| == |flat|
    ensures next == RelabelPoints(flat[c].metric.kind, points[c], resource) ==>
      ProcessedUpTo(flat, before, resource, c + 1, points[c := next])
  {
    hide RelabelPoints;
  }

  /** The metrics of one scope, which stand at c and after. */
  method ProcessScope(ghost flat: seq<ScopedMetric>, ghost before: seq<seq<Point>>, ghost c: nat,
                      ghost points: seq<seq<Point>>, sm: ScopeMetrics, resource: Attrs)
    returns (ghost after: seq<seq<Point>>)
    requires forall k, k' | 0 <= k < k' < |flat| :: flat[k].metric != flat[k'].metric
    requires c + |sm.metrics| <= |flat|
    requires forall i | 0 <= i < |sm.metrics| :: flat[c + i] == ScopedMetric(sm.scope, sm.metrics[i])
    requires ProcessedUpTo(flat, before, resource, c, points)
    requires |points| == |flat| && forall k | 0 <= k < |flat| :: flat[k].metric.points == points[k]
    modifies set m | m in sm.metrics
    ensures ProcessedUpTo(flat, before, resource, c + |sm.metrics|, after)
    ensures |after| == |flat| && forall k | 0 <= k < |flat| :: flat[k].metric.points == after[k]
  {
    hide RelabelPoints, ProcessedUpTo;
    after := points;
    for i := 0 to |sm.metrics|
      invariant ProcessedUpTo(flat, before, resource, c + i, after)
      invariant |after| == |flat| && forall k | 0 <= k < |flat| :: flat[k].metric.points == after[k]
    {
      ghost var was := after;
      ProcessOneOf(flat, c + i, after, sm.metrics[i], resource);
      ProcessOneMore(flat, before, resource, c + i, was, sm.metrics[i].points);
      after := after[c + i := sm.metrics[i].points];
    }
  }

  lemma ScopeInMetricsOf(rm: ResourceMetrics, j: nat)
    requires j < |rm.scopes|
    ensures forall m | m in rm.scopes[j].metrics :: m in MetricsOf(rm.scopes)
  {
    FlattenAt(rm.scopes, j);
    forall m | m in rm.scopes[j].metrics ensures m in MetricsOf(rm.scopes) {
      var i :| 0 <= i < |rm.scopes[j].metrics| && rm.scopes[j].metrics[i] == m;
      InMetricsOf(rm.scopes, |Flatten(rm.scopes[..j])| + i);
    }
  }

  /** One resource: every point of every metric gets its closed form. */
  method ProcessResource(rm: ResourceMetrics)
    requires DistinctMetrics(rm.scopes)
    modifies MetricsOf(rm.scopes)
    ensures forall k | 0 <= k < |Flatten(rm.scopes)| :: var m := Flatten(rm.scopes)[k].metric;
      m.points == RelabelPoints(m.kind, old(PointsIn(rm.scopes))[k], rm.resource)
  {
    ghost var flat, before := Flatten(rm.scopes), PointsIn(rm.scopes);
    ghost var points := before;
    assert ProcessedUpTo(flat, before, rm.resource, 0, points);
    hide Flatten, MetricsOf, PointsIn, RelabelPoints, ProcessedUpTo;
    FlattenNone(rm.scopes);
    for j := 0 to |rm.scopes|
      invariant ProcessedUpTo(flat, before, rm.resource, |Flatten(rm.scopes[..j])|, points)
      invariant |points| == |flat| && forall k | 0 <= k < |flat| :: flat[k].metric.points == points[k]
    {
      FlattenAt(rm.scopes, j);
      ScopeInMetricsOf(rm, j);
      points := ProcessScope(flat, before, |Flatten(rm.scopes[..j])|, points, rm.scopes[j], rm.resource);
    }
    assert rm.scopes[..|rm.scopes|] == rm.scopes;
    ProcessedAll(flat, before, rm.resource, points);
  }

  lemma ProcessedAll(flat: seq<ScopedMetric>, before: seq<seq<Point>>, resource: Attrs, points: seq<seq<Point>>)
    requires ProcessedUpTo(flat, before, resource, |flat|, points)
    ensures |flat| == |before| == |points|
    ensures forall k | 0 <= k < |flat| :: points[k] == RelabelPoints(flat[k].metric.kind, before[k], resource)
  {
    hide RelabelPoints;
  }

  function AllMetrics(rms: seq<ResourceMetrics>): set<MetricRef> {
    set i, m | 0 <= i < |rms| && m in MetricsOf(rms[i].scopes) :: m
  }

  function AllPoints(rms: seq<ResourceMetrics>): seq<seq<seq<Point>>>
    reads AllMetrics(rms)
  {
    seq(|rms|, i requires 0 <= i < |rms| reads AllMetrics(rms) => PointsIn(rms[i].scopes))
  }

  /** ProcessResource on one of many resources with metrics of their own. */
  method ProcessResourceOf(ghost flats: seq<seq<ScopedMetric>>, ghost i: nat, ghost points: seq<seq<seq<Point>>>,
                           rm: ResourceMetrics)
    requires DistinctMetrics(rm.scopes) && i < |flats| && flats[i] == Flatten(rm.scopes)
    requires forall j, k | 0 <= j < |flats| && 0 <= k < |flats[j]| && j != i ::
      flats[j][k].metric !in MetricsOf(rm.scopes)
    requires |points| == |flats| && forall j | 0 <= j < |flats| :: |points[j]| == |flats[j]|
    requires forall j, k | 0 <= j < |flats| && 0 <= k < |flats[j]| :: flats[j][k].metric.points == points[j][k]
    modifies MetricsOf(rm.scopes)
    ensures forall k | 0 <= k < |flats[i]| ::
      flats[i][k].metric.points == RelabelPoints(flats[i][k].metric.kind, points[i][k], rm.resource)
    ensures forall j, k | 0 <= j < |flats| && 0 <= k < |flats[j]| && j != i :: flats[j][k].metric.points == points[j][k]
  {
    hide Flatten, RelabelPoints;
    assert forall k | 0 <= k < |flats[i]| :: PointsIn(rm.scopes)[k] == points[i][k];
    ProcessResource(rm);
  }

  /** Every point of every metric gets the closed form for its own resource. */
  method ProcessMetrics(rms: seq<ResourceMetrics>)
    requires forall i | 0 <= i < |rms| :: DistinctMetrics(rms[i].scopes)
    requires forall i, j | 0 <= i < |rms| && 0 <= j < |rms| && i != j ::
      MetricsOf(rms[i].scopes) !! MetricsOf(rms[j].scopes)
    modifies AllMetrics(rms)
    ensures forall i, k | 0 <= i < |rms| && 0 <= k < |Flatten(rms[i].scopes)| ::
      var m := Flatten(rms[i].scopes)[k].metric;
      m.points == RelabelPoints(m.kind, old(AllPoints(rms))[i][k], rms[i].resource)
    ensures forall i, k | 0 <= i < |rms| && 0 <= k < |Flatten(rms[i].scopes)| ::
      var m, was := Flatten(rms[i].scopes)[k].metric, old(AllPoints(rms))[i][k];
      PointsFit(m.kind, was) ==>
        && |m.points| == |was|
        && forall l | 0 <= l < |was| :: Processed(was[l], m.points[l], rms[i].resource)
  {
    hide Flatten, RelabelPoints, Processed, PointsFit;
    ghost var before, points := AllPoints(rms), AllPoints(rms);
    ghost var flats: seq<seq<ScopedMetric>> := seq(|rms|, i requires 0 <= i < |rms| => Flatten(rms[i].scopes));
    for i := 0 to |rms|
      invariant |points| == |rms| && forall j | 0 <= j < |rms| :: |points[j]| == |flats[j]|
      invariant forall j, k | 0 <= j < |rms| && 0 <= k < |flats[j]| :: flats[j][k].metric.points == points[j][k]
      invariant forall j, k | 0 <= j < i && 0 <= k < |flats[j]| ::
        points[j][k] == RelabelPoints(flats[j][k].metric.kind, before[j][k], rms[j].resource)
      invariant forall j | i <= j < |rms| :: points[j] == before[j]
    {
      forall j, k | 0 <= j < |flats| && 0 <= k < |flats[j]| && j != i
        ensures flats[j][k].metric !in MetricsOf(rms[i].scopes)
      {
        assert flats[j][k].metric in MetricsOf(rms[j].scopes);
      }
      ProcessResourceOf(flats, i, points, rms[i]);
      points := points[i := PointsIn(rms[i].scopes)];
    }
    forall i, k | 0 <= i < |rms| && 0 <= k < |flats[i]| && PointsFit(flats[i][k].metric.kind, before[i][k])
      ensures |points[i][k]| == |before[i][k]|
      ensures forall l | 0 <= l < |points[i][k]| :: Processed(before[i][k][l], points[i][k][l], rms[i].resource)
    {
      AllProcessed(flats[i][k].metric.kind, before[i][k], rms[i].resource);
    }
  }
}
