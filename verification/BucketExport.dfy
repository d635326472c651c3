/** convertDoubleHistogram of collector.go: from stored buckets to Prometheus cumulative buckets. */
module BucketExport {
  import opened Sequences
  import opened Machine
  import opened Metrics
  import opened HistogramMerge
  import opened Accumulation
  import opened DeltaSums
  import opened DeltaHistograms

  datatype ConstHistogram = ConstHistogram(count: U64, sum: real, buckets: map<real, U64>)

  predicate RealLeq(a: real, b: real) { a <= b }

  predicate FirstAt(bounds: seq<real>, i: nat)
    requires i < |bounds|
  {
    bounds[i] !in bounds[..i]
  }

  function CountAt(counts: seq<U64>, i: nat): U64 {
    if i < |counts| then counts[i] else 0
  }

  /** The sum, over the distinct bounds b' <= b among the first n, of the count at the first occurrence of b'. */
  function CumulativeCount(bounds: seq<real>, counts: seq<U64>, n: nat, b: real): U64
    requires n <= |bounds|
  {
    if n == 0 then 0 else
      Add64(CumulativeCount(bounds, counts, n - 1, b),
            if FirstAt(bounds, n - 1) && bounds[n - 1] <= b then CountAt(counts, n - 1) else 0)
  }

  function ExportedBucket(v: Payload, b: real): U64
    requires v.HistogramValue?
  {
    CumulativeCount(v.bounds, v.counts, |v.bounds|, b)
  }

  /** No bound below b lies above `low`; None stands for below all bounds. */
  ghost predicate NextBound(bounds: seq<real>, low: Option<real>, b: real) {
    (low.Some? ==> low.value < b) &&
    forall x | x in bounds && x < b :: low.Some? && x <= low.value
  }

  /** From one bound to the next the cumulative count grows by the count at the bound's first occurrence. */
  lemma {:induction false} CumulativeStep(bounds: seq<real>, counts: seq<U64>, n: nat,
                                          low: Option<real>, b: real, i: nat)
    requires n <= |bounds| && NextBound(bounds, low, b) && i < |bounds| && bounds[i] == b && FirstAt(bounds, i)
    ensures CumulativeCount(bounds, counts, n, b)
         == Add64(if low.Some? then CumulativeCount(bounds, counts, n, low.value) else 0,
                  if i < n then CountAt(counts, i) else 0)
  {
    if n > 0 {
      CumulativeStep(bounds, counts, n - 1, low, b, i);
      assert bounds[n - 1] in bounds;
      if n - 1 > i { assert bounds[i] in bounds[..n - 1]; }
      if n - 1 < i { assert bounds[n - 1] in bounds[..i]; }
    }
  }

  lemma RealLeqTotal()
    ensures TotalOrder(RealLeq)
  {}

  /** Sorting a duplicate-free list of bounds lists them in strictly increasing order. */
  lemma SortedDistinct(bs: seq<real>)
    requires NoDuplicates(bs)
    ensures |SortBy(RealLeq, bs)| == |bs| && forall x :: x in SortBy(RealLeq, bs) <==> x in bs
    ensures forall i, j | 0 <= i < j < |bs| :: SortBy(RealLeq, bs)[i] < SortBy(RealLeq, bs)[j]
  {
    var s := SortBy(RealLeq, bs);
    RealLeqTotal();
    SortBySpec(RealLeq, bs);
    assert |multiset(s)| == |multiset(bs)|;
    forall x ensures x in s <==> x in bs {
      assert x in s <==> x in multiset(s);
      assert x in bs <==> x in multiset(bs);
    }
    forall i, j | 0 <= i < j < |s| ensures s[i] < s[j] {
      assert RealLeq(s[i], s[j]);
      TwoOccurrences(s, i, j);
      MultisetOfDistinct(bs, s[i]);
    }
  }

  lemma NextBucket(bounds: seq<real>, counts: seq<U64>, buckets: seq<real>, k: nat, i: nat)
    requires k < |buckets| && (forall x :: x in buckets <==> x in bounds)
    requires forall i, j | 0 <= i < j < |buckets| :: buckets[i] < buckets[j]
    requires i < |bounds| && bounds[i] == buckets[k] && FirstAt(bounds, i)
    ensures CumulativeCount(bounds, counts, |bounds|, buckets[k])
         == Add64(if k == 0 then 0 else CumulativeCount(bounds, counts, |bounds|, buckets[k - 1]), CountAt(counts, i))
  {
    var low, b := if k == 0 then None else Some(buckets[k - 1]), buckets[k];
    forall x | x in bounds && x < b ensures low.Some? && x <= low.value {
      var j :| 0 <= j < |buckets| && buckets[j] == x;
    }
    CumulativeStep(bounds, counts, |bounds|, low, b, i);
  }

  /** The export: every distinct bound with its cumulative count. */
  method ConvertDoubleHistogram(metric: Metric) returns (h: ConstHistogram)
    requires metric.kind.Histogram? && metric.points != [] && metric.points[0].payload.HistogramValue?
    requires var v := metric.points[0].payload; forall i | 0 <= i < |v.bounds| && FirstAt(v.bounds, i) :: i < |v.counts|
    ensures var v := metric.points[0].payload;
      && h.count == v.count && h.sum == v.sum
      && (forall b :: b in h.buckets <==> b in v.bounds)
      && forall b | b in h.buckets :: h.buckets[b] == ExportedBucket(v, b)
  {
    hide CumulativeCount, SortBy, Add64;
    var ip := FirstPoint(metric, "Histogram");
    var bounds, counts := ip.payload.bounds, ip.payload.counts;

    var indicesMap: map<real, nat> := map[];
    var buckets: seq<real> := [];
    for index := 0 to |bounds|
      invariant NoDuplicates(buckets) && forall b :: b in buckets <==> b in indicesMap
      invariant forall b :: b in indicesMap <==> b in bounds[..index]
      invariant forall b | b in indicesMap ::
        indicesMap[b] < index && bounds[indicesMap[b]] == b && FirstAt(bounds, indicesMap[b])
    {
      var bucket := bounds[index];
      if bucket !in indicesMap {
        indicesMap := indicesMap[bucket := index];
        buckets := buckets + [bucket];
      }
    }
    assert bounds[..|bounds|] == bounds;
    SortedDistinct(buckets);
    buckets := SortBy(RealLeq, buckets);

    var cumCount: U64 := 0;
    var points: map<real, U64> := map[];
    for k := 0 to |buckets|
      invariant cumCount == if k == 0 then 0 else ExportedBucket(ip.payload, buckets[k - 1])
      invariant forall b :: b in points <==> b in buckets[..k]
      invariant forall b | b in points :: points[b] == ExportedBucket(ip.payload, b)
    {
      var bucket := buckets[k];
      var index := indicesMap[bucket];
      var countPerBucket: U64 := 0;
      if |bounds| > 0 && index < |bounds| {
        countPerBucket := counts[index];
      }
      NextBucket(bounds, counts, buckets, k, index);
      cumCount := Add64(cumCount, countPerBucket);
      points := points[bucket := cumCount];
    }
    assert buckets[..|buckets|] == buckets;
    h := ConstHistogram(ip.payload.count, ip.payload.sum, points);
  }

  // ---------- Export commutes with accumulation ----------

  lemma AddSwap(x: U64, y: U64, u: U64, v: U64)
    ensures Add64(Add64(x, y), Add64(u, v)) == Add64(Add64(x, u), Add64(y, v))
  {}

  lemma AddZero()
    ensures Add64(0, 0) == 0
  {}

  lemma CountsAdd(c: seq<U64>, d: seq<U64>, i: nat)
    requires |c| == |d|
    ensures CountAt(AddCounts(c, d), i) == Add64(CountAt(c, i), CountAt(d, i))
  {}

  lemma {:induction false} CumulativeAdds(bounds: seq<real>, c: seq<U64>, d: seq<U64>, n: nat, b: real)
    requires n <= |bounds| && |c| == |d|
    ensures CumulativeCount(bounds, AddCounts(c, d), n, b)
         == Add64(CumulativeCount(bounds, c, n, b), CumulativeCount(bounds, d, n, b))
  {
    if n > 0 {
      hide Add64;
      CumulativeAdds(bounds, c, d, n - 1, b);
      CountsAdd(c, d, n - 1);
      var x, y := CumulativeCount(bounds, c, n - 1, b), CumulativeCount(bounds, d, n - 1, b);
      AddSwap(x, y, CountAt(c, n - 1), CountAt(d, n - 1));
      AddSwap(x, y, 0, 0);
      AddZero();
    }
  }

  /** The export of a merged point is the sum of the exports, bound by bound. */
  lemma ExportCommutesWithMerge(prev: Point, current: Point, b: real)
    requires prev.payload.HistogramValue? && current.payload.HistogramValue?
    requires prev.payload.bounds == current.payload.bounds && |prev.payload.counts| == |current.payload.counts|
    ensures var m := Merged(prev, current).payload;
      && m.HistogramValue? && m.bounds == current.payload.bounds
      && m.count == Add64(prev.payload.count, current.payload.count)
      && ExportedBucket(m, b) == Add64(ExportedBucket(prev.payload, b), ExportedBucket(current.payload, b))
  {
    var o, n := Older(prev, current).payload, Newer(prev, current).payload;
    assert o.counts[..|n.counts|] == o.counts;
    CumulativeAdds(n.bounds, n.counts, o.counts, |n.bounds|, b);
  }

  function ExportsOf(xs: seq<Arrival>, b: real): seq<U64>
    requires forall a | a in xs :: a.point.payload.HistogramValue?
  {
    seq(|xs|, i requires 0 <= i < |xs| => assert xs[i] in xs; ExportedBucket(xs[i].point.payload, b))
  }

  lemma PooledShape(xs: seq<Arrival>, bounds: seq<real>)
    requires xs != [] && AllDeltaHistograms(xs, bounds)
    ensures var v := Pooled(xs, bounds).payload; v.HistogramValue? && v.bounds == bounds && |v.counts| == |bounds| + 1
  {}

  lemma ExportsSnoc(xs: seq<Arrival>, a: Arrival, b: real)
    requires a.point.payload.HistogramValue? && forall x | x in xs :: x.point.payload.HistogramValue?
    ensures forall x | x in xs + [a] :: x.point.payload.HistogramValue?
    ensures Sum64(ExportsOf(xs + [a], b)) == Add64(Sum64(ExportsOf(xs, b)), ExportedBucket(a.point.payload, b))
    ensures xs == [] ==> Sum64(ExportsOf(xs + [a], b)) == ExportedBucket(a.point.payload, b)
  {
    hide ExportedBucket;
    assert ExportsOf(xs + [a], b)[..|xs|] == ExportsOf(xs, b);
  }

  /** Exporting the pooled chain gives at each bound the sum of what its points would have exported. */
  lemma {:induction false} ExportOfPooled(xs: seq<Arrival>, bounds: seq<real>, b: real)
    requires xs != [] && AllDeltaHistograms(xs, bounds) && Aligned(xs)
    ensures Pooled(xs, bounds).payload.HistogramValue?
    ensures ExportedBucket(Pooled(xs, bounds).payload, b) == Sum64(ExportsOf(xs, b))
  {
    hide Merged, ExportedBucket, Pooled, Add64, Sum64;
    PooledShape(xs, bounds);
    var n := |xs| - 1;
    var init, a := xs[..n], xs[n];
    assert xs == init + [a] && a in xs;
    forall x | x in init ensures x in xs {}
    ExportsSnoc(init, a, b);
    if n == 0 {
      PooledOne(a, bounds);
    } else {
      assert xs[n - 1 + 1].point.start == xs[n - 1].point.time;
      ExportOfPooled(init, bounds, b);
      PooledShape(init, bounds);
      PooledMore(init, a, bounds);
      ExportCommutesWithMerge(Pooled(init, bounds), a.point, b);
    }
  }

  /** A scrape after an aligned delta chain, with any redeliveries, reports at each bound the sum over the chain. */
  lemma ScrapeOfChain(xs: seq<Arrival>, bounds: seq<real>, b: real)
    requires xs != [] && AllDeltaHistograms(xs, bounds) && Aligned(FirstDeliveries(xs))
    ensures var p := StoredPoint(SeriesRun(None, xs));
      && p.Some? && p.value.payload.HistogramValue?
      && ExportedBucket(p.value.payload, b) == Sum64(ExportsOf(FirstDeliveries(xs), b))
  {
    ChainCountedOnce(xs, bounds);
    ExportOfPooled(FirstDeliveries(xs), bounds, b);
  }
}
