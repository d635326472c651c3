/** accumulator.go: the last-value accumulator, a map from series signature to one stored point. */
module Accumulator {
  import opened Sequences
  import opened Attributes
  import opened Metrics
  import opened Machine
  import opened Signature
  import opened HistogramMerge
  import opened Accumulation
  import opened Batches

  /** Entries last updated before `expirationTime` are expired. */
  function Unexpired(reg: Register, expirationTime: int): Register {
    map s | s in reg && !(expirationTime > reg[s].updated) :: reg[s]
  }

  /** The state of the batch loop before metric c; `now` holds the points of every metric. */
  ghost predicate BatchState(was: Register, ws: seq<Work>, c: nat, reg: Register, n: nat, now: seq<seq<Point>>) {
    && c <= |ws| && WellFormed(reg) && reg == Fold(was, BatchArrivals(ws[..c]))
    && n == BatchProcessed(was, ws[..c])
    && |now| == |ws|
    && (forall k | 0 <= k < c :: now[k] == Rewritten(Fold(was, BatchArrivals(ws[..k])), ws[k].origin, ws[k].points))
    && (forall k | c <= k < |ws| :: now[k] == ws[k].points)
  }

  lemma {:induction false} BatchArrivalsPrefix(ws: seq<Work>, c: nat)
    requires c <= |ws|
    ensures BatchArrivals(ws[..c]) <= BatchArrivals(ws)
  {
    if c < |ws| {
      BatchArrivalsPrefix(ws[..|ws| - 1], c);
      assert ws[..|ws| - 1][..c] == ws[..c];
    } else {
      assert ws[..c] == ws;
    }
  }

  lemma BatchStart(was: Register, ws: seq<Work>, points: seq<seq<Point>>)
    requires WellFormed(was) && |points| == |ws| && forall k | 0 <= k < |ws| :: points[k] == ws[k].points
    ensures BatchState(was, ws, 0, was, 0, points)
  {}

  lemma BatchSafe(was: Register, ws: seq<Work>, c: nat, reg: Register, n: nat, now: seq<seq<Point>>)
    requires c < |ws| && RunSafe(was, BatchArrivals(ws)) && BatchState(was, ws, c, reg, n, now)
    ensures WellFormed(reg) && RunSafe(reg, Live(ws[c].origin, ws[c].points)) && |now| == |ws| && now[c] == ws[c].points
  {
    hide Fold, Live, RunSafe, WellFormed, Rewritten, BatchProcessed;
    BatchArrivalsPrefix(ws, c + 1);
    assert ws[..c + 1][..c] == ws[..c];
    RunSafePart(was, BatchArrivals(ws[..c]), Live(ws[c].origin, ws[c].points), BatchArrivals(ws));
  }

  lemma BatchEnd(was: Register, ws: seq<Work>, reg: Register, n: nat, now: seq<seq<Point>>)
    requires BatchState(was, ws, |ws|, reg, n, now)
    ensures WellFormed(reg) && reg == Fold(was, BatchArrivals(ws)) && n == BatchProcessed(was, ws) && |now| == |ws|
    ensures forall k | 0 <= k < |ws| ::
      now[k] == Rewritten(Fold(was, BatchArrivals(ws[..k])), ws[k].origin, ws[k].points)
  {
    assert ws[..|ws|] == ws;
  }

  lemma BatchStep(was: Register, ws: seq<Work>, c: nat, reg: Register, n: nat, now: seq<seq<Point>>,
                  reg': Register, k: nat, points: seq<Point>)
    requires c < |ws| && BatchState(was, ws, c, reg, n, now)
    requires LoopResult(reg, ws[c].origin, ws[c].points, reg', k, points)
    ensures BatchState(was, ws, c + 1, reg', n + k, now[c := points])
  {
    hide Fold, Live, WellFormed, Rewritten, Processed;
    assert ws[..c + 1][..c] == ws[..c];
    FoldConcat(was, BatchArrivals(ws[..c]), Live(ws[c].origin, ws[c].points));
  }

  /** The state of the loop over a metric's points before point i, none of the earlier ones being a marker. */
  ghost predicate LoopState(was: Register, h: Origin, points: seq<Point>, i: nat,
                            reg: Register, n: nat, now: seq<Point>) {
    && i <= |points| && i <= |Live(h, points)|
    && (forall k | 0 <= k < i :: !points[k].noRecordedValue)
    && WellFormed(reg) && reg == Fold(was, Live(h, points)[..i])
    && n == CountStores(was, Live(h, points)[..i])
    && now == RewrittenUpTo(was, h, points, i)
  }

  ghost predicate LoopResult(was: Register, h: Origin, points: seq<Point>, reg: Register, n: nat, now: seq<Point>) {
    && WellFormed(reg) && reg == Fold(was, Live(h, points))
    && n == Processed(was, h, points)
    && now == Rewritten(was, h, points)
  }

  lemma LoopStart(was: Register, h: Origin, points: seq<Point>)
    requires WellFormed(was)
    ensures LoopState(was, h, points, 0, was, 0, points)
  {}

  lemma LoopVisit(was: Register, h: Origin, points: seq<Point>, i: nat, reg: Register, n: nat, now: seq<Point>)
    requires i < |points| && !Gated(h.kind) && PointsFit(h.kind, points) && RunSafe(was, Live(h, points))
    requires LoopState(was, h, points, i, reg, n, now)
    ensures |now| == |points| && now[i] == points[i] && WellFormed(reg) && i < |Live(h, points)|
    ensures ArrivalFits(ArrivalOf(h, points[i]))
    ensures StepSafe(StoredPoint(Lookup(reg, ArrivalOf(h, points[i]).sig)), ArrivalOf(h, points[i]))
  {
    LiveFits(h, points);
  }

  /** An ordinary point moves the loop on by one. */
  lemma LoopStep(was: Register, h: Origin, points: seq<Point>, i: nat, reg: Register, n: nat, now: seq<Point>,
                 a: Arrival, reg': Register, k: nat, q: Point)
    requires i < |points| && !Gated(h.kind) && PointsFit(h.kind, points) && RunSafe(was, Live(h, points))
    requires LoopState(was, h, points, i, reg, n, now)
    requires a == ArrivalOf(h, points[i]) && !a.point.noRecordedValue && reg' == Apply(reg, a)
    requires k == StoreCount(reg, a)
    requires q == RewrittenPoint(reg, a) && |now| == |points|
    ensures LoopState(was, h, points, i + 1, reg', n + k, now[i := q])
  {
    hide StoreCount, RewrittenPoint, Decide, Fold, Apply, CountStores, TimeseriesSignature, WellFormed, ArrivalFits;
    LoopVisit(was, h, points, i, reg, n, now);
    var xs := Live(h, points);
    FoldStep(was, xs, i);
    CountStep(was, xs, i);
    ApplyFits(reg, a);
    var next := RewrittenUpTo(was, h, points, i + 1);
    forall k | 0 <= k < |points| ensures now[i := q][k] == next[k] {}
  }

  /** A marker ends the loop. */
  lemma LoopStop(was: Register, h: Origin, points: seq<Point>, i: nat, reg: Register, n: nat, now: seq<Point>)
    requires i < |points| && !Gated(h.kind) && PointsFit(h.kind, points) && RunSafe(was, Live(h, points))
    requires LoopState(was, h, points, i, reg, n, now) && points[i].noRecordedValue
    ensures LoopResult(was, h, points, Apply(reg, ArrivalOf(h, points[i])), 0, now)
  {
    LoopVisit(was, h, points, i, reg, n, now);
    var xs, q := Live(h, points), Rewritten(was, h, points);
    FoldStep(was, xs, i);
    ApplyFits(reg, xs[i]);
    assert xs[..i + 1] == xs;
    forall k | 0 <= k < |points| ensures now[k] == q[k] {
      assert k == i ==> q[k] == RewrittenPoint(Fold(was, xs[..i]), xs[i]);
    }
  }

  lemma LoopEnd(was: Register, h: Origin, points: seq<Point>, reg: Register, n: nat, now: seq<Point>)
    requires !Gated(h.kind) && LoopState(was, h, points, |points|, reg, n, now)
    ensures LoopResult(was, h, points, reg, n, now) && WellFormed(reg)
    ensures forall k | 0 <= k < |points| :: !points[k].noRecordedValue
  {
    assert Live(h, points)[..|points|] == Live(h, points);
  }

  /** The entry stored under an arrival's key has the arrival's type. */
  lemma TypedAccess(reg: Register, a: Arrival)
    requires WellFormed(reg) && ArrivalFits(a)
    ensures a.sig in reg ==>
      && EntryFits(a.sig, reg[a.sig]) && TypeName(reg[a.sig].value.kind) == TypeName(a.kind)
      && PayloadFits(a.kind, reg[a.sig].value.points[0].payload)
  {
    if a.sig in reg { TypeNameDetermines(a.kind, reg[a.sig].value.kind); }
  }

  class LastValueAccumulator {
    var registeredMetrics: Register
    const metricExpiration: nat

    ghost predicate Valid()
      reads this
    {
      WellFormed(registeredMetrics)
    }

    constructor (metricExpiration: nat)
      ensures Valid() && registeredMetrics == map[] && this.metricExpiration == metricExpiration
    {
      this.metricExpiration := metricExpiration;
      registeredMetrics := map[];
    }

    /** Accumulates scope by scope and metric by metric. */
    method Accumulate(rm: ResourceMetrics, now: nat) returns (n: nat)
      requires Valid() && DistinctMetrics(rm.scopes)
      requires forall m | m in MetricsOf(rm.scopes) :: PointsFit(m.kind, m.points)
      requires RunSafe(registeredMetrics, BatchArrivals(WorksOf(rm, now)))
      modifies this`registeredMetrics, MetricsOf(rm.scopes)
      ensures Valid()
      ensures registeredMetrics == Fold(old(registeredMetrics), BatchArrivals(old(WorksOf(rm, now))))
      ensures n == BatchProcessed(old(registeredMetrics), old(WorksOf(rm, now)))
      ensures var ws := old(WorksOf(rm, now)); forall k | 0 <= k < |Flatten(rm.scopes)| ::
        Flatten(rm.scopes)[k].metric.points
        == Rewritten(Fold(old(registeredMetrics), BatchArrivals(ws[..k])), ws[k].origin, ws[k].points)
      ensures NewSeriesStored(old(WorksOf(rm, now)), old(registeredMetrics), registeredMetrics)
    {
      hide Flatten, BatchState, BatchArrivals, BatchProcessed, LoopResult, RunSafe, Fold, Live, Rewritten;
      hide NewSeriesStored;
      n := 0;
      ghost var was, ws, flat := registeredMetrics, WorksOf(rm, now), Flatten(rm.scopes);
      ghost var c, points := 0, seq(|ws|, k requires 0 <= k < |ws| => ws[k].points);
      BatchStart(was, ws, points);
      FlattenNone(rm.scopes);
      for i := 0 to |rm.scopes|
        invariant c == |Flatten(rm.scopes[..i])| && BatchState(was, ws, c, registeredMetrics, n, points)
        invariant |points| == |flat| && forall k | 0 <= k < |flat| :: flat[k].metric.points == points[k]
      {
        var ilm := rm.scopes[i];
        FlattenAt(rm.scopes, i);
        for j := 0 to |ilm.metrics|
          invariant c == |Flatten(rm.scopes[..i])| + j && BatchState(was, ws, c, registeredMetrics, n, points)
          invariant |points| == |flat| && forall k | 0 <= k < |flat| :: flat[k].metric.points == points[k]
        {
          assert flat[c] == ScopedMetric(ilm.scope, ilm.metrics[j]) && flat[c].metric in MetricsOf(rm.scopes);
          BatchSafe(was, ws, c, registeredMetrics, n, points);
          ghost var reg := registeredMetrics;
          var k := AddOneOf(flat, c, points, ilm.metrics[j], ilm.scope, rm.resource, now);
          BatchStep(was, ws, c, reg, n, points, registeredMetrics, k, ilm.metrics[j].points);
          n := n + k;
          c, points := c + 1, points[c := ilm.metrics[j].points];
        }
      }
      assert rm.scopes[..|rm.scopes|] == rm.scopes;
      BatchEnd(was, ws, registeredMetrics, n, points);
      AllNewSeriesStored(ws, was);
    }

    /** AddMetric on one of many distinct metrics: the others keep their points. */
    method AddOneOf(ghost flat: seq<ScopedMetric>, ghost c: nat, ghost points: seq<seq<Point>>,
                    metric: MetricRef, scope: string, resource: Attrs, now: nat) returns (n: nat)
      requires Valid() && PointsFit(metric.kind, metric.points)
      requires RunSafe(registeredMetrics, Live(OriginOf(metric, scope, resource, now), metric.points))
      requires |points| == |flat| && forall k | 0 <= k < |flat| :: flat[k].metric.points == points[k]
      requires c < |flat| && flat[c].metric == metric
      requires forall k, k' | 0 <= k < k' < |flat| :: flat[k].metric != flat[k'].metric
      modifies this`registeredMetrics, metric`points
      ensures LoopResult(old(registeredMetrics), OriginOf(metric, scope, resource, now), points[c],
                         registeredMetrics, n, metric.points)
      ensures forall k | 0 <= k < |flat| :: flat[k].metric.points == points[c := metric.points][k]
    {
      n := AddMetric(metric, scope, resource, now);
    }

    /** Dispatches on the metric type. Sums of unspecified temporality and non-monotonic delta sums are dropped. */
    method AddMetric(metric: MetricRef, scope: string, resource: Attrs, now: nat) returns (n: nat)
      requires Valid() && PointsFit(metric.kind, metric.points)
      requires RunSafe(registeredMetrics, Live(OriginOf(metric, scope, resource, now), metric.points))
      modifies this`registeredMetrics, metric`points
      ensures LoopResult(old(registeredMetrics), OriginOf(metric, scope, resource, now), old(metric.points),
                         registeredMetrics, n, metric.points)
      ensures !Accepted(metric.kind) ==>
        registeredMetrics == old(registeredMetrics) && metric.points == old(metric.points) && n == 0
    {
      AcceptedNotGated(metric.kind);
      match metric.kind
      case Empty => n := 0;
      case ExponentialHistogram => n := 0;
      case Sum(temporality, monotonic) =>
        if temporality == Unspecified {
          return 0;
        }
        if temporality == Delta && !monotonic {
          return 0;
        }
        n := AccumulatePoints(metric, scope, resource, now);
      case _ => n := AccumulatePoints(metric, scope, resource, now);
    }

    /** The loop of accumulateSummary, accumulateGauge, accumulateSum and accumulateHistogram: a no-recorded-value
        point deletes its series and ends the metric; any other point goes to the body for its type. */
    method AccumulatePoints(metric: MetricRef, scope: string, resource: Attrs, now: nat) returns (n: nat)
      requires Valid() && PointsFit(metric.kind, metric.points) && !Gated(metric.kind)
      requires RunSafe(registeredMetrics, Live(OriginOf(metric, scope, resource, now), metric.points))
      modifies this`registeredMetrics, metric`points
      ensures LoopResult(old(registeredMetrics), OriginOf(metric, scope, resource, now), old(metric.points),
                         registeredMetrics, n, metric.points)
      ensures (exists i :: 0 <= i < |old(metric.points)| && old(metric.points)[i].noRecordedValue) ==> n == 0
    {
      hide LoopState, LoopResult, RunSafe, TimeseriesSignature, StoreCount, RewrittenPoint, StepSafe, Fold, Live;
      n := 0;
      ghost var h, was, before := OriginOf(metric, scope, resource, now), registeredMetrics, metric.points;
      LoopStart(was, h, before);
      for i := 0 to |metric.points|
        invariant |metric.points| == |before| && LoopState(was, h, before, i, registeredMetrics, n, metric.points)
      {
        var ip := metric.points[i];
        var signature := TimeseriesSignature(Series(scope, metric.kind, metric.meta.name, ip.attrs, resource));
        var a := Arrival(signature, metric.kind, metric.meta, scope, resource, now, ip);
        LoopVisit(was, h, before, i, registeredMetrics, n, metric.points);
        if ip.noRecordedValue {
          LoopStop(was, h, before, i, registeredMetrics, n, metric.points);
          registeredMetrics := registeredMetrics - {signature};
          return 0;
        }
        ghost var reg, points := registeredMetrics, metric.points;
        var k, q := AccumulatePoint(a);
        LoopStep(was, h, before, i, reg, n, points, a, registeredMetrics, k, q);
        metric.points := metric.points[i := q];
        n := n + k;
      }
      LoopEnd(was, h, before, registeredMetrics, n, metric.points);
    }

    /** The loop body for the arrival's type; `ip` is the input point afterwards. */
    method AccumulatePoint(a: Arrival) returns (n: nat, ip: Point)
      requires Valid() && ArrivalFits(a) && !a.point.noRecordedValue
      requires StepSafe(StoredPoint(Lookup(registeredMetrics, a.sig)), a)
      modifies this`registeredMetrics
      ensures registeredMetrics == Apply(old(registeredMetrics), a)
      ensures n == StoreCount(old(registeredMetrics), a)
      ensures ip == RewrittenPoint(old(registeredMetrics), a)
    {
      ip := a.point;
      if a.kind.Gauge? {
        n := AccumulateGaugePoint(a);
      } else if a.kind.Sum? {
        n, ip := AccumulateSumPoint(a);
      } else if a.kind.Histogram? {
        n := AccumulateHistogramPoint(a);
      } else {
        n := AccumulateSummaryPoint(a);
      }
    }

    method AccumulateSummaryPoint(a: Arrival) returns (n: nat)
      requires Valid() && ArrivalFits(a) && !a.point.noRecordedValue && a.kind.Summary?
      modifies this`registeredMetrics
      ensures registeredMetrics == Apply(old(registeredMetrics), a)
      ensures n == StoreCount(old(registeredMetrics), a)
    {
      TypedAccess(registeredMetrics, a);
      var ok := a.sig in registeredMetrics;
      var stalePoint := ok && a.point.time < FirstPoint(registeredMetrics[a.sig].value, "Summary").time;
      if stalePoint {
        return 0;
      }
      var m := Metric(a.meta, Summary, [a.point]);
      registeredMetrics := registeredMetrics[a.sig := Entry(m, a.resource, a.scope, a.now)];
      return 1;
    }

    method AccumulateGaugePoint(a: Arrival) returns (n: nat)
      requires Valid() && ArrivalFits(a) && !a.point.noRecordedValue && a.kind.Gauge?
      modifies this`registeredMetrics
      ensures registeredMetrics == Apply(old(registeredMetrics), a)
      ensures n == StoreCount(old(registeredMetrics), a)
    {
      TypedAccess(registeredMetrics, a);
      var m := Metric(a.meta, Gauge, [a.point]);
      if a.sig !in registeredMetrics {
        registeredMetrics := registeredMetrics[a.sig := Entry(m, a.resource, a.scope, a.now)];
        return 1;
      }
      var mv := registeredMetrics[a.sig];
      if a.point.time < FirstPoint(mv.value, "Gauge").time {
        return 0;
      }
      registeredMetrics := registeredMetrics[a.sig := Entry(m, a.resource, a.scope, a.now)];
      return 1;
    }

    /** A delta point that starts where the stored point ends is added to it; `ip` is the rewritten input point. */
    method AccumulateSumPoint(a: Arrival) returns (n: nat, ip: Point)
      requires Valid() && ArrivalFits(a) && !a.point.noRecordedValue && a.kind.Sum?
      modifies this`registeredMetrics
      ensures registeredMetrics == Apply(old(registeredMetrics), a)
      ensures n == StoreCount(old(registeredMetrics), a)
      ensures ip == RewrittenPoint(old(registeredMetrics), a)
    {
      TypedAccess(registeredMetrics, a);
      ip := a.point;
      if a.sig !in registeredMetrics {
        var m := Metric(a.meta, Sum(Cumulative, a.kind.monotonic), [ip]);
        registeredMetrics := registeredMetrics[a.sig := Entry(m, a.resource, a.scope, a.now)];
        return 1, ip;
      }
      var pp := FirstPoint(registeredMetrics[a.sig].value, "Sum");
      if ip.time < pp.time {
        return 0, ip;
      }
      if a.kind.sumTemporality == Delta && ip.start == pp.time {
        var stored := pp.payload.number;
        ip := ip.(start := pp.start);
        match ip.payload.number {
          case IntNumber(v) =>
            ip := ip.(payload := NumberValue(IntNumber(AddI64(v, if stored.IntNumber? then stored.i else 0))));
          case DoubleNumber(v) =>
            ip := ip.(payload := NumberValue(DoubleNumber(v + if stored.DoubleNumber? then stored.d else 0.0)));
          case NoNumber =>
        }
      }
      var m := Metric(a.meta, Sum(Cumulative, a.kind.monotonic), [ip]);
      registeredMetrics := registeredMetrics[a.sig := Entry(m, a.resource, a.scope, a.now)];
      return 1, ip;
    }

    /** Delta points are merged when aligned, reset the series when they start later, and are dropped otherwise. */
    method AccumulateHistogramPoint(a: Arrival) returns (n: nat)
      requires Valid() && ArrivalFits(a) && !a.point.noRecordedValue && a.kind.Histogram?
      requires StepSafe(StoredPoint(Lookup(registeredMetrics, a.sig)), a)
      modifies this`registeredMetrics
      ensures registeredMetrics == Apply(old(registeredMetrics), a)
      ensures n == StoreCount(old(registeredMetrics), a)
    {
      TypedAccess(registeredMetrics, a);
      var ip := a.point;
      if a.sig !in registeredMetrics {
        var m := Metric(a.meta, Histogram(Cumulative), [ip]);
        registeredMetrics := registeredMetrics[a.sig := Entry(m, a.resource, a.scope, a.now)];
        return 1;
      }
      var pp := FirstPoint(registeredMetrics[a.sig].value, "Histogram");
      var m := Metric(a.meta, Histogram(Cumulative), []);
      match a.kind.histogramTemporality {
        case Delta =>
          if ip.start != pp.time {
            if ip.start > pp.time {
              m := m.(points := [ip]);
            } else {
              return 0;
            }
          } else {
            var dest := AccumulateHistogramValues(pp, ip);
            m := m.(points := [dest]);
          }
        case Cumulative =>
          if ip.time < pp.time {
            return 0;
          }
          m := m.(points := [ip]);
        case Unspecified =>
          return 0;
      }
      registeredMetrics := registeredMetrics[a.sig := Entry(m, a.resource, a.scope, a.now)];
      return 1;
    }

    /** Returns the live entries as two aligned lists and deletes the expired ones. `keys` is the visiting order. */
    method Collect(now: nat) returns (metrics: seq<Metric>, resourceAttrs: seq<Attrs>, ghost keys: seq<string>)
      requires Valid()
      modifies this`registeredMetrics
      ensures Valid()
      ensures registeredMetrics == Unexpired(old(registeredMetrics), now - metricExpiration)
      ensures forall s | s in old(registeredMetrics) ::
        && (s in registeredMetrics <==> old(registeredMetrics)[s].updated + metricExpiration >= now)
        && (s in registeredMetrics ==> registeredMetrics[s] == old(registeredMetrics)[s])
      ensures NoDuplicates(keys) && forall s :: s in keys <==> s in registeredMetrics
      ensures |metrics| == |resourceAttrs| == |keys|
      ensures forall i | 0 <= i < |keys| ::
        metrics[i] == registeredMetrics[keys[i]].value && resourceAttrs[i] == registeredMetrics[keys[i]].resource
    {
      hide EntryFits;
      metrics, resourceAttrs, keys := [], [], [];
      ghost var was := registeredMetrics;
      var expirationTime := now - metricExpiration;
      var todo := registeredMetrics.Keys;
      while todo != {}
        invariant todo <= registeredMetrics.Keys && forall s | s in todo :: s !in keys
        invariant NoDuplicates(keys) && |metrics| == |resourceAttrs| == |keys|
        invariant forall i | 0 <= i < |keys| ::
          && keys[i] in registeredMetrics && !(expirationTime > registeredMetrics[keys[i]].updated)
          && metrics[i] == registeredMetrics[keys[i]].value && resourceAttrs[i] == registeredMetrics[keys[i]].resource
        invariant forall s | s in registeredMetrics ::
          s in was && registeredMetrics[s] == was[s] && (s in todo || s in keys)
        invariant forall s | s in was && s !in registeredMetrics :: expirationTime > was[s].updated
        decreases todo
      {
        var key :| key in todo;
        todo := todo - {key};
        var v := registeredMetrics[key];
        if expirationTime > v.updated {
          registeredMetrics := registeredMetrics - {key};
        } else {
          metrics := metrics + [v.value];
          resourceAttrs := resourceAttrs + [v.resource];
          keys := keys + [key];
        }
      }
      assert registeredMetrics == Unexpired(was, expirationTime);
    }
  }

  /** Repeated scrapes leave what the one with the latest expiration time leaves. */
  lemma CollectsCompose(reg: Register, t: int, u: int)
    ensures Unexpired(Unexpired(reg, t), u) == Unexpired(reg, if t <= u then u else t)
  {}
}
