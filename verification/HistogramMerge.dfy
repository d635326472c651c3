/** accumulateHistogramValues of accumulator.go: merging two histogram points. */
module HistogramMerge {
  import opened Machine
  import opened Metrics

  function Older(prev: Point, current: Point): Point {
    if current.time < prev.time then current else prev
  }

  function Newer(prev: Point, current: Point): Point {
    if current.time < prev.time then prev else current
  }

  /** The merge reads the older buckets at every index of the newer ones. */
  predicate MergeDefined(prev: Point, current: Point) {
    var o, n := Older(prev, current).payload, Newer(prev, current).payload;
    o.HistogramValue? && n.HistogramValue? && (o.bounds == n.bounds ==> |n.counts| <= |o.counts|)
  }

  function MergedValue(o: Payload, n: Payload): Payload {
    if o.HistogramValue? && n.HistogramValue? && o.bounds == n.bounds && |n.counts| <= |o.counts| then
      HistogramValue(Add64(n.count, o.count), n.sum + o.sum, n.bounds, AddCounts(n.counts, o.counts[..|n.counts|]))
    else n
  }

  function Merged(prev: Point, current: Point): Point {
    Point(Newer(prev, current).attrs, prev.start, Newer(prev, current).time, false,
          MergedValue(Older(prev, current).payload, Newer(prev, current).payload))
  }

  method AccumulateHistogramValues(prev: Point, current: Point) returns (dest: Point)
    requires MergeDefined(prev, current)
    ensures dest == Merged(prev, current)
    ensures dest.start == prev.start && !dest.noRecordedValue
    ensures prev.time <= current.time ==> dest.time == current.time && dest.attrs == current.attrs
    ensures prev.time > current.time ==> dest.time == prev.time && dest.attrs == prev.attrs
    ensures var v, p, c := dest.payload, prev.payload, current.payload;
      && v.HistogramValue?
      && (p.bounds == c.bounds && |p.counts| == |c.counts| ==>
            && v.count == Add64(p.count, c.count) && v.sum == p.sum + c.sum && v.bounds == c.bounds
            && |v.counts| == |c.counts|
            && forall i | 0 <= i < |c.counts| :: v.counts[i] == Add64(p.counts[i], c.counts[i]))
      && (p.bounds != c.bounds ==> v == if prev.time <= current.time then c else p)
  {
    dest := Point([], prev.start, 0, false, HistogramValue(0, 0.0, [], []));
    var older, newer := prev, current;
    if current.time < prev.time {
      older, newer := current, prev;
    }
    dest := dest.(attrs := newer.attrs, time := newer.time);

    var aligned := |older.payload.bounds| == |newer.payload.bounds|;
    var i := 0;
    while aligned && i < |newer.payload.bounds|
      invariant 0 <= i <= |newer.payload.bounds|
      invariant aligned ==> |older.payload.bounds| == |newer.payload.bounds|
      invariant aligned ==> older.payload.bounds[..i] == newer.payload.bounds[..i]
      invariant !aligned ==> older.payload.bounds != newer.payload.bounds
      decreases |newer.payload.bounds| - i
    {
      aligned := older.payload.bounds[i] == newer.payload.bounds[i];
      i := i + 1;
    }

    if aligned {
      assert older.payload.bounds == newer.payload.bounds;
      dest := dest.(payload := dest.payload.(count := Add64(newer.payload.count, older.payload.count),
                                             sum := newer.payload.sum + older.payload.sum));
      var counts := new U64[|newer.payload.counts|];
      for j := 0 to |newer.payload.counts|
        invariant forall k | 0 <= k < j :: counts[k] == Add64(newer.payload.counts[k], older.payload.counts[k])
      {
        counts[j] := Add64(newer.payload.counts[j], older.payload.counts[j]);
      }
      dest := dest.(payload := dest.payload.(counts := counts[..]));
      assert counts[..] == AddCounts(newer.payload.counts, older.payload.counts[..|newer.payload.counts|]);
    } else {
      dest := dest.(payload := dest.payload.(count := newer.payload.count, sum := newer.payload.sum,
                                             counts := newer.payload.counts));
    }
    dest := dest.(payload := dest.payload.(bounds := newer.payload.bounds));
  }

  // ---------- Conservation: the count is the sum of the buckets ----------

  /** One bucket more than bounds. */
  predicate Shaped(v: Payload) {
    v.HistogramValue? ==> |v.counts| == |v.bounds| + 1
  }

  /** The count is the (wrapping) sum of the buckets. */
  predicate Conserved(v: Payload) {
    v.HistogramValue? ==> v.count == Sum64(v.counts)
  }

  lemma MergeConserves(prev: Point, current: Point)
    requires prev.payload.HistogramValue? && current.payload.HistogramValue?
    requires Shaped(prev.payload) && Shaped(current.payload) && Conserved(prev.payload) && Conserved(current.payload)
    ensures MergeDefined(prev, current)
    ensures Shaped(Merged(prev, current).payload) && Conserved(Merged(prev, current).payload)
  {
    var o, n := Older(prev, current).payload, Newer(prev, current).payload;
    if o.bounds == n.bounds {
      assert o.counts[..|n.counts|] == o.counts;
      SumOfAddCounts(n.counts, o.counts);
    }
  }
}
