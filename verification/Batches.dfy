/** A batch of accumulator.go: from resource metrics to the arrivals of their points. */
module Batches {
  import opened Sequences
  import opened Attributes
  import opened Metrics
  import opened Signature
  import opened HistogramMerge
  import opened Accumulation
  import Resource

  function OriginOf(metric: MetricRef, scope: string, resource: Attrs, now: nat): Origin {
    Origin(metric.kind, metric.meta, scope, resource, now)
  }

  /** A metric as it arrives: what its points share, and the points. */
  datatype Work = Work(origin: Origin, points: seq<Point>)

  function WorksOf(rm: ResourceMetrics, now: nat): seq<Work>
    reads MetricsOf(rm.scopes)
  {
    var flat := Flatten(rm.scopes);
    seq(|flat|, k requires 0 <= k < |flat| reads MetricsOf(rm.scopes) =>
          Work(OriginOf(flat[k].metric, flat[k].scope, rm.resource, now), flat[k].metric.points))
  }

  /** The arrivals of a batch, metric by metric. */
  function BatchArrivals(ws: seq<Work>): seq<Arrival> {
    if ws == [] then [] else
      BatchArrivals(ws[..|ws| - 1]) + Live(ws[|ws| - 1].origin, ws[|ws| - 1].points)
  }

  /** The number reported for a batch. */
  function BatchProcessed(reg: Register, ws: seq<Work>): nat {
    if ws == [] then 0 else
      var init, w := ws[..|ws| - 1], ws[|ws| - 1];
      BatchProcessed(reg, init) + Processed(Fold(reg, BatchArrivals(init)), w.origin, w.points)
  }

  /** Where metric j of scope i stands among the metrics of a batch, and what its points share. */
  lemma WorkAt(rm: ResourceMetrics, now: nat, i: nat, j: nat)
    requires i < |rm.scopes| && j < |rm.scopes[i].metrics|
    ensures var ws, c, m := WorksOf(rm, now), |Flatten(rm.scopes[..i])| + j, rm.scopes[i].metrics[j];
      && c < |ws| && Flatten(rm.scopes)[c] == ScopedMetric(rm.scopes[i].scope, m)
      && ws[c] == Work(Origin(m.kind, m.meta, rm.scopes[i].scope, rm.resource, now), m.points)
  {
    FlattenAt(rm.scopes, i);
  }

  // ---------- Which series a point belongs to ----------

  function SeriesOf(h: Origin, p: Point): Series {
    Series(h.scope, h.kind, h.meta.name, p.attrs, h.resource)
  }

  /** Points arrive in the same series exactly if metric type, scope, metric name, rendered attributes, job and instance
      agree, for '*'-free parts and no attribute keyed "job" or "instance". */
  lemma PointSeries(h: Origin, p: Point, h': Origin, q: Point)
    requires StarFree(SeriesOf(h, p)) && NoIdentityKeys(p.attrs)
    requires StarFree(SeriesOf(h', q)) && NoIdentityKeys(q.attrs)
    ensures ArrivalOf(h, p).sig == ArrivalOf(h', q).sig <==>
      && TypeName(h.kind) == TypeName(h'.kind) && h.scope == h'.scope && h.meta.name == h'.meta.name
      && multiset(Rendered(p.attrs)) == multiset(Rendered(q.attrs))
      && Resource.ExtractJob(h.resource) == Resource.ExtractJob(h'.resource)
      && Resource.ExtractInstance(h.resource) == Resource.ExtractInstance(h'.resource)
  {
    hide TimeseriesSignature, StarFree, NoIdentityKeys, Rendered, Resource.ExtractJob, Resource.ExtractInstance;
    NoCollision(SeriesOf(h, p), SeriesOf(h', q));
  }

  // ---------- New series ----------

  lemma {:induction false} OtherSeries(reg: Register, xs: seq<Arrival>, s: string)
    requires forall i | 0 <= i < |xs| :: xs[i].sig != s
    ensures Lookup(Fold(reg, xs), s) == Lookup(reg, s)
  {
    hide SeriesStep;
    if xs != [] { OtherSeries(reg, xs[..|xs| - 1], s); }
  }

  lemma OnlyArrival(reg: Register, xs: seq<Arrival>, k: nat)
    requires k < |xs| && forall i | 0 <= i < |xs| && i != k :: xs[i].sig != xs[k].sig
    ensures Lookup(Fold(reg, xs), xs[k].sig) == SeriesStep(Lookup(reg, xs[k].sig), xs[k])
  {
    hide SeriesStep;
    assert xs == xs[..k + 1] + xs[k + 1..] && xs[..k + 1][..k] == xs[..k];
    FoldConcat(reg, xs[..k + 1], xs[k + 1..]);
    OtherSeries(Fold(reg, xs[..k + 1]), xs[k + 1..], xs[k].sig);
    OtherSeries(reg, xs[..k], xs[k].sig);
  }

  /** The kinds that are accumulated: all but empty and exponential-histogram metrics, sums of unspecified temporality
      and non-monotonic delta sums. */
  predicate Accepted(kind: Kind) {
    match kind
    case Gauge => true
    case Summary => true
    case Histogram(_) => true
    case Sum(t, monotonic) => t == Cumulative || (t == Delta && monotonic)
    case _ => false
  }

  lemma AcceptedNotGated(kind: Kind)
    ensures Accepted(kind) <==> !Gated(kind)
  {}

  predicate IsPoint(ws: seq<Work>, c: nat, k: nat) {
    c < |ws| && k < |ws[c].points|
  }

  function SigAt(ws: seq<Work>, c: nat, k: nat): string
    requires IsPoint(ws, c, k)
  {
    TimeseriesSignature(SeriesOf(ws[c].origin, ws[c].points[k]))
  }

  /** No other point of the batch is of the series of point k of metric c. */
  ghost predicate Alone(ws: seq<Work>, c: nat, k: nat)
    requires IsPoint(ws, c, k)
  {
    forall d, l | IsPoint(ws, d, l) && (d != c || l != k) :: SigAt(ws, d, l) != SigAt(ws, c, k)
  }

  predicate MarkerFree(ws: seq<Work>) {
    forall k, i | 0 <= k < |ws| && 0 <= i < |ws[k].points| :: !ws[k].points[i].noRecordedValue
  }

  lemma LiveOfAll(h: Origin, points: seq<Point>)
    requires Accepted(h.kind) && forall k | 0 <= k < |points| :: !points[k].noRecordedValue
    ensures |Live(h, points)| == |points|
    ensures forall k | 0 <= k < |points| :: Live(h, points)[k] == ArrivalOf(h, points[k])
  {
    hide TimeseriesSignature;
  }

  lemma ForeignWork(h: Origin, points: seq<Point>, reg: Register, s: string)
    requires forall k | 0 <= k < |points| :: TimeseriesSignature(SeriesOf(h, points[k])) != s
    ensures Lookup(Fold(reg, Live(h, points)), s) == Lookup(reg, s)
  {
    hide TimeseriesSignature, Fold;
    OtherSeries(reg, Live(h, points), s);
  }

  lemma {:induction false} ForeignWorks(ws: seq<Work>, reg: Register, s: string)
    requires forall c, k | IsPoint(ws, c, k) :: SigAt(ws, c, k) != s
    ensures Lookup(Fold(reg, BatchArrivals(ws)), s) == Lookup(reg, s)
  {
    hide TimeseriesSignature, Fold, Live;
    if ws == [] {
      OtherSeries(reg, [], s);
    } else {
      var n := |ws| - 1;
      var init, w := ws[..n], ws[n];
      forall c: nat, k: nat | IsPoint(init, c, k) ensures SigAt(init, c, k) != s { assert IsPoint(ws, c, k); }
      forall k | 0 <= k < |w.points| ensures TimeseriesSignature(SeriesOf(w.origin, w.points[k])) != s {
        assert IsPoint(ws, n, k) && SigAt(ws, n, k) != s;
      }
      ForeignWorks(init, reg, s);
      FoldConcat(reg, BatchArrivals(init), Live(w.origin, w.points));
      ForeignWork(w.origin, w.points, Fold(reg, BatchArrivals(init)), s);
    }
  }

  /** A point that is alone in its series takes its one step, whatever else the batch brings. */
  lemma {:induction false} AloneSteps(ws: seq<Work>, reg: Register, c: nat, k: nat)
    requires MarkerFree(ws) && IsPoint(ws, c, k) && Alone(ws, c, k) && Accepted(ws[c].origin.kind)
    ensures var a := ArrivalOf(ws[c].origin, ws[c].points[k]);
      Lookup(Fold(reg, BatchArrivals(ws)), SigAt(ws, c, k)) == SeriesStep(Lookup(reg, SigAt(ws, c, k)), a)
  {
    hide TimeseriesSignature, Fold, Live, SeriesStep;
    var n := |ws| - 1;
    var init, w, s := ws[..n], ws[n], SigAt(ws, c, k);
    FoldConcat(reg, BatchArrivals(init), Live(w.origin, w.points));
    var mid := Fold(reg, BatchArrivals(init));
    forall d: nat, l: nat | IsPoint(init, d, l) ensures IsPoint(ws, d, l) && SigAt(init, d, l) == SigAt(ws, d, l) {}
    if c < n {
      assert MarkerFree(init) by {
        assert forall d | 0 <= d < n :: init[d] == ws[d];
      }
      AloneSteps(init, reg, c, k);
      forall l | 0 <= l < |w.points| ensures TimeseriesSignature(SeriesOf(w.origin, w.points[l])) != s {
        assert IsPoint(ws, n, l) && SigAt(ws, n, l) != s;
      }
      ForeignWork(w.origin, w.points, mid, s);
    } else {
      ForeignWorks(init, reg, s);
      forall l | 0 <= l < |w.points| ensures !w.points[l].noRecordedValue && (l != k ==> SigAt(ws, n, l) != s) {
        assert IsPoint(ws, n, l);
      }
      LiveOfAll(w.origin, w.points);
      OnlyArrival(mid, Live(w.origin, w.points), k);
    }
  }

  /** How a kind is stored. */
  function AsCumulative(kind: Kind): Kind {
    match kind
    case Sum(_, monotonic) => Sum(Cumulative, monotonic)
    case Histogram(_) => Histogram(Cumulative)
    case _ => kind
  }

  /** The first point of a series is stored as it came, under the metric's name, description and unit, as cumulative,
      with resource, scope and the time of the batch. */
  lemma NewSeries(ws: seq<Work>, reg: Register, c: nat, k: nat)
    requires MarkerFree(ws) && IsPoint(ws, c, k) && Alone(ws, c, k) && Accepted(ws[c].origin.kind)
    requires SigAt(ws, c, k) !in reg
    ensures var after, h := Fold(reg, BatchArrivals(ws)), ws[c].origin;
      && SigAt(ws, c, k) in after
      && after[SigAt(ws, c, k)] ==
           Entry(Metric(h.meta, AsCumulative(h.kind), [ws[c].points[k]]), h.resource, h.scope, h.now)
  {
    hide TimeseriesSignature, Fold, BatchArrivals;
    AloneSteps(ws, reg, c, k);
    assert IsPoint(ws, c, k) && !ws[c].points[k].noRecordedValue;
  }

  /** What a marker-free batch makes of points that are alone in a series not stored before. */
  ghost predicate NewSeriesStored(ws: seq<Work>, before: Register, after: Register) {
    MarkerFree(ws) ==>
      forall c: nat, k: nat | IsPoint(ws, c, k) && Alone(ws, c, k) && Accepted(ws[c].origin.kind)
                              && SigAt(ws, c, k) !in before ::
        var h := ws[c].origin;
        && SigAt(ws, c, k) in after
        && after[SigAt(ws, c, k)] ==
             Entry(Metric(h.meta, AsCumulative(h.kind), [ws[c].points[k]]), h.resource, h.scope, h.now)
  }

  lemma AllNewSeriesStored(ws: seq<Work>, reg: Register)
    ensures NewSeriesStored(ws, reg, Fold(reg, BatchArrivals(ws)))
  {
    hide SigAt, Fold, BatchArrivals, Alone;
    if MarkerFree(ws) {
      forall c: nat, k: nat | IsPoint(ws, c, k) && Alone(ws, c, k) && Accepted(ws[c].origin.kind)
                              && SigAt(ws, c, k) !in reg
        ensures var after, h := Fold(reg, BatchArrivals(ws)), ws[c].origin;
          && SigAt(ws, c, k) in after
          && after[SigAt(ws, c, k)] ==
               Entry(Metric(h.meta, AsCumulative(h.kind), [ws[c].points[k]]), h.resource, h.scope, h.now)
      {
        NewSeries(ws, reg, c, k);
      }
    }
  }

  // ---------- Markers ----------

  /** The first marker of a metric deletes its series and hides the points behind it. */
  lemma FirstMarkerEnds(reg: Register, h: Origin, points: seq<Point>, i: nat)
    requires Accepted(h.kind) && i < |points| && points[i].noRecordedValue
    requires forall k | 0 <= k < i :: !points[k].noRecordedValue
    ensures Fold(reg, Live(h, points)) ==
      Fold(reg, Live(h, points[..i])) - {TimeseriesSignature(SeriesOf(h, points[i]))}
  {
    hide TimeseriesSignature;
    var xs := Live(h, points);
    assert |xs| == i + 1;
    LiveOfAll(h, points[..i]);
    assert xs[..i] == Live(h, points[..i]) && xs[i] == ArrivalOf(h, points[i]);
  }

  // ---------- The reported number ----------

  function Stamped(reg: Register, now: nat): set<string> {
    set s | s in reg && reg[s].updated == now
  }

  lemma StampedStep(reg: Register, a: Arrival)
    requires !a.point.noRecordedValue && a.sig !in Stamped(reg, a.now)
    ensures |Stamped(Apply(reg, a), a.now)| == |Stamped(reg, a.now)| + StoreCount(reg, a)
    ensures forall s | s in Stamped(Apply(reg, a), a.now) :: s in Stamped(reg, a.now) || s == a.sig
  {
    hide Decide;
    assert Stamped(Apply(reg, a), a.now) ==
      Stamped(reg, a.now) + if StoreCount(reg, a) == 1 then {a.sig} else {};
  }

  /** Arrivals at the same moment, of pairwise different series. */
  ghost predicate AtOnce(xs: seq<Arrival>, now: nat) {
    && (forall i | 0 <= i < |xs| :: xs[i].now == now && !xs[i].point.noRecordedValue)
    && (forall i, j | 0 <= i < j < |xs| :: xs[i].sig != xs[j].sig)
  }

  lemma {:induction false} StoresAreStamped(reg: Register, xs: seq<Arrival>, now: nat)
    requires AtOnce(xs, now) && Stamped(reg, now) == {}
    ensures CountStores(reg, xs) == |Stamped(Fold(reg, xs), now)|
    ensures forall s | s in Stamped(Fold(reg, xs), now) :: exists i :: 0 <= i < |xs| && xs[i].sig == s
  {
    hide Apply, StoreCount;
    if xs == [] {
      assert Fold(reg, xs) == reg;
    } else {
      var init, a := xs[..|xs| - 1], xs[|xs| - 1];
      StoresAreStamped(reg, init, now);
      StampedStep(Fold(reg, init), a);
      forall s | s in Stamped(Fold(reg, xs), now) ensures exists i :: 0 <= i < |xs| && xs[i].sig == s {
        if s != a.sig {
          var i :| 0 <= i < |init| && init[i].sig == s;
          assert xs[i].sig == s;
        } else {
          assert xs[|xs| - 1].sig == s;
        }
      }
    }
  }

  lemma {:induction false} CountConcat(reg: Register, xs: seq<Arrival>, ys: seq<Arrival>)
    ensures CountStores(reg, xs + ys) == CountStores(reg, xs) + CountStores(Fold(reg, xs), ys)
  {
    hide StoreCount;
    if ys == [] {
      assert xs + ys == xs;
    } else {
      var b := ys[..|ys| - 1];
      assert (xs + ys)[..|xs + ys| - 1] == xs + b;
      CountConcat(reg, xs, b);
      FoldConcat(reg, xs, b);
    }
  }

  lemma {:induction false} ProcessedIsCount(reg: Register, ws: seq<Work>)
    requires MarkerFree(ws)
    ensures BatchProcessed(reg, ws) == CountStores(reg, BatchArrivals(ws))
  {
    hide Live, StoreCount;
    if ws != [] {
      var init, w := ws[..|ws| - 1], ws[|ws| - 1];
      assert forall d | 0 <= d < |init| :: init[d] == ws[d];
      ProcessedIsCount(reg, init);
      CountConcat(reg, BatchArrivals(init), Live(w.origin, w.points));
    }
  }

  /** The number a batch reports is the number of entries it stored: with one point per series, those that carry the
      batch's time afterwards. */
  lemma ProcessedIsStamped(reg: Register, ws: seq<Work>, now: nat)
    requires MarkerFree(ws) && AtOnce(BatchArrivals(ws), now) && Stamped(reg, now) == {}
    ensures BatchProcessed(reg, ws) == |Stamped(Fold(reg, BatchArrivals(ws)), now)|
  {
    ProcessedIsCount(reg, ws);
    StoresAreStamped(reg, BatchArrivals(ws), now);
  }

  // ---------- The input points ----------

  /** Only the points of monotonic delta sums are ever rewritten, and of those only the start and the value. */
  lemma InputKept(reg: Register, h: Origin, points: seq<Point>, k: nat)
    requires k < |points|
    ensures |Rewritten(reg, h, points)| == |points|
    ensures var p, q := points[k], Rewritten(reg, h, points)[k];
      && q == p.(start := q.start, payload := q.payload)
      && (h.kind != Sum(Delta, true) ==> q == p)
  {
    hide TimeseriesSignature, Fold, Merged;
    if k < |Live(h, points)| {
      assert Live(h, points)[k] == ArrivalOf(h, points[k]);
      RewrittenKept(Fold(reg, Live(h, points)[..k]), ArrivalOf(h, points[k]));
    }
  }

  lemma RewrittenKept(reg: Register, a: Arrival)
    requires !Gated(a.kind)
    ensures var q := RewrittenPoint(reg, a);
      && q == a.point.(start := q.start, payload := q.payload)
      && (a.kind != Sum(Delta, true) ==> q == a.point)
  {}
}
