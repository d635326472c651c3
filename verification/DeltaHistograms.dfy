/** Delta-to-cumulative conversion of histograms: every interval is counted exactly once. */
module DeltaHistograms {
  import opened Sequences
  import opened Machine
  import opened Metrics
  import opened HistogramMerge
  import opened Accumulation
  import opened SeriesIndependence
  import opened DeltaSums

  /** A delta histogram point over a non-empty interval, with these bounds and one bucket more. */
  predicate DeltaHistogram(a: Arrival, bounds: seq<real>) {
    && a.kind == Histogram(Delta) && !a.point.noRecordedValue && a.point.start < a.point.time
    && a.point.payload.HistogramValue? && a.point.payload.bounds == bounds
    && |a.point.payload.counts| == |bounds| + 1
  }

  predicate AllDeltaHistograms(xs: seq<Arrival>, bounds: seq<real>) {
    forall a | a in xs :: DeltaHistogram(a, bounds)
  }

  /** The same with bounds of its own. */
  predicate AnyDeltaHistogram(a: Arrival) {
    a.point.payload.HistogramValue? && DeltaHistogram(a, a.point.payload.bounds)
  }

  predicate AnyDeltaHistograms(xs: seq<Arrival>) {
    forall a | a in xs :: AnyDeltaHistogram(a)
  }

  /** The arrivals accepted since the last reset: a gap resets, an overlap is dropped. */
  function Accepted(xs: seq<Arrival>): (acc: seq<Arrival>)
    ensures xs != [] ==> acc != []
    ensures forall a | a in acc :: a in xs
    ensures Aligned(acc)
  {
    if xs == [] then [] else
      var acc, a := Accepted(xs[..|xs| - 1]), xs[|xs| - 1];
      if acc == [] || a.point.start > Last(acc).time then [a]
      else if a.point.start == Last(acc).time then acc + [a]
      else acc
  }

  lemma {:induction false} AcceptedInOrder(xs: seq<Arrival>)
    ensures Subsequence(Accepted(xs), xs)
  {
    if xs != [] { AcceptedInOrder(xs[..|xs| - 1]); }
  }

  function CountsOf(xs: seq<Arrival>): seq<U64>
    requires forall a | a in xs :: a.point.payload.HistogramValue?
  {
    seq(|xs|, i requires 0 <= i < |xs| => assert xs[i] in xs; xs[i].point.payload.count)
  }

  /** The counts of bucket j, point by point. */
  function Column(xs: seq<Arrival>, j: nat): seq<U64>
    requires forall a | a in xs :: a.point.payload.HistogramValue? && j < |a.point.payload.counts|
  {
    seq(|xs|, i requires 0 <= i < |xs| => assert xs[i] in xs; xs[i].point.payload.counts[j])
  }

  function SumOfSums(xs: seq<Arrival>): real
    requires forall a | a in xs :: a.point.payload.HistogramValue?
  {
    if xs == [] then 0.0 else
      assert xs[|xs| - 1] in xs;
      SumOfSums(xs[..|xs| - 1]) + xs[|xs| - 1].point.payload.sum
  }

  /** The stored point of a chain: its whole interval, and in every field the sum over the chain. */
  function Pooled(xs: seq<Arrival>, bounds: seq<real>): Point
    requires xs != [] && AllDeltaHistograms(xs, bounds)
  {
    Point(Last(xs).attrs, xs[0].point.start, Last(xs).time, false,
          HistogramValue(Sum64(CountsOf(xs)), SumOfSums(xs), bounds,
                         seq(|bounds| + 1, j requires 0 <= j < |bounds| + 1 => Sum64(Column(xs, j)))))
  }

  lemma PooledOne(a: Arrival, bounds: seq<real>)
    requires DeltaHistogram(a, bounds)
    ensures Pooled([a], bounds) == a.point
  {
    var p := Pooled([a], bounds).payload;
    assert [a][..0] == [] && SumOfSums([a]) == SumOfSums([a][..0]) + a.point.payload.sum;
    assert Sum64(CountsOf([a])) == Add64(Sum64(CountsOf([a])[..0]), a.point.payload.count);
    assert CountsOf([a]) == [a.point.payload.count] && CountsOf([a])[..0] == [];
    forall j | 0 <= j < |bounds| + 1 ensures p.counts[j] == a.point.payload.counts[j] {
      var c := Column([a], j);
      assert c == [a.point.payload.counts[j]] && c[..0] == [];
      assert Sum64(c) == Add64(Sum64(c[..0]), c[0]);
    }
    assert p.counts == a.point.payload.counts;
  }

  lemma PooledMore(xs: seq<Arrival>, a: Arrival, bounds: seq<real>)
    requires xs != [] && AllDeltaHistograms(xs + [a], bounds) && a.point.start == Last(xs).time
    ensures AllDeltaHistograms(xs, bounds)
    ensures Pooled(xs + [a], bounds) == Merged(Pooled(xs, bounds), a.point)
  {
    var ys := xs + [a];
    assert forall x | x in xs :: x in ys;
    assert a in ys && ys[..|xs|] == xs;
    var p, q := Pooled(ys, bounds).payload, Merged(Pooled(xs, bounds), a.point).payload;
    assert CountsOf(ys)[..|xs|] == CountsOf(xs);
    forall j | 0 <= j < |bounds| + 1 ensures p.counts[j] == q.counts[j] {
      assert Column(ys, j)[..|xs|] == Column(xs, j);
    }
    assert p.counts == q.counts;
  }

  function BoundsOf(a: Arrival): seq<real> {
    if a.point.payload.HistogramValue? then a.point.payload.bounds else []
  }

  /** Where the last arrivals that share their bounds start. */
  function TailStart(xs: seq<Arrival>): (k: nat)
    ensures xs != [] ==> k < |xs|
    ensures forall i | k <= i < |xs| :: BoundsOf(xs[i]) == BoundsOf(xs[|xs| - 1])
  {
    var n := |xs| - 1;
    if n <= 0 then 0 else if BoundsOf(xs[n - 1]) == BoundsOf(xs[n]) then TailStart(xs[..n]) else n
  }

  /** The last arrivals that share their bounds. */
  function SameBoundsTail(xs: seq<Arrival>): seq<Arrival> {
    if xs == [] then [] else xs[TailStart(xs)..]
  }

  lemma TailPools(xs: seq<Arrival>)
    requires xs != [] && AnyDeltaHistograms(xs)
    ensures SameBoundsTail(xs) != [] && Last(SameBoundsTail(xs)) == Last(xs)
    ensures AllDeltaHistograms(SameBoundsTail(xs), BoundsOf(xs[|xs| - 1]))
  {
    hide DeltaHistogram;
    var tail, k := SameBoundsTail(xs), TailStart(xs);
    forall a | a in tail ensures DeltaHistogram(a, BoundsOf(xs[|xs| - 1])) {
      var i :| 0 <= i < |tail| && tail[i] == a;
      assert xs[k + i] == a && AnyDeltaHistogram(a);
    }
  }

  lemma TailMore(xs: seq<Arrival>, a: Arrival)
    requires xs != []
    ensures SameBoundsTail(xs + [a])
         == if BoundsOf(xs[|xs| - 1]) == BoundsOf(a) then SameBoundsTail(xs) + [a] else [a]
  {
    var ys := xs + [a];
    assert ys[..|xs|] == xs && ys[|xs|] == a && ys[|xs| - 1] == xs[|xs| - 1];
  }

  /** What is stored for a chain: its whole interval, but only the values since the bounds last changed. */
  function Covered(xs: seq<Arrival>): Point
    requires xs != [] && AnyDeltaHistograms(xs)
  {
    TailPools(xs);
    Pooled(SameBoundsTail(xs), BoundsOf(xs[|xs| - 1])).(start := xs[0].point.start)
  }

  lemma CoveredOne(a: Arrival)
    requires AnyDeltaHistogram(a)
    ensures Covered([a]) == a.point
  {
    hide Pooled, DeltaHistogram;
    assert SameBoundsTail([a]) == [a];
    PooledOne(a, BoundsOf(a));
  }

  lemma CoveredShape(xs: seq<Arrival>)
    requires xs != [] && AnyDeltaHistograms(xs)
    ensures Covered(xs).start == xs[0].point.start && Covered(xs).time == Last(xs).time
    ensures Covered(xs).payload.HistogramValue?
    ensures Covered(xs).payload.bounds == BoundsOf(xs[|xs| - 1])
    ensures AllDeltaHistograms(SameBoundsTail(xs), BoundsOf(xs[|xs| - 1]))
    ensures Covered(xs).payload.count == Sum64(CountsOf(SameBoundsTail(xs)))
  {
    hide SameBoundsTail, DeltaHistogram;
    TailPools(xs);
  }

  lemma CoveredMore(xs: seq<Arrival>, a: Arrival)
    requires xs != [] && AnyDeltaHistograms(xs) && AnyDeltaHistogram(a) && a.point.start == Last(xs).time
    ensures AnyDeltaHistograms(xs + [a]) && Covered(xs + [a]) == Merged(Covered(xs), a.point)
  {
    hide Pooled, Merged, DeltaHistogram, SameBoundsTail;
    var tail, b := SameBoundsTail(xs), BoundsOf(xs[|xs| - 1]);
    TailMore(xs, a);
    TailPools(xs);
    if b == BoundsOf(a) {
      PooledMore(tail, a, b);
      MergeStart(Pooled(tail, b), xs[0].point.start, a.point);
    } else {
      PooledOne(a, BoundsOf(a));
      CoveredShape(xs);
      MergeReplaces(Covered(xs), a);
    }
  }

  lemma MergeStart(p: Point, start: nat, q: Point)
    ensures Merged(p.(start := start), q) == Merged(p, q).(start := start)
  {}

  /** A later point with other bounds replaces the value. */
  lemma MergeReplaces(p: Point, a: Arrival)
    requires AnyDeltaHistogram(a) && a.point.start == p.time
    requires p.payload.HistogramValue? && p.payload.bounds != a.point.payload.bounds
    ensures Merged(p, a.point) == a.point.(start := p.start)
  {}

  /** Any run of delta histograms leaves the chain of the arrivals accepted since the last reset: their whole
      interval, and in every field the sum since the bounds last changed. */
  lemma {:induction false} MixedRun(xs: seq<Arrival>)
    requires xs != [] && AnyDeltaHistograms(xs)
    ensures SeriesRun(None, xs) == Some(EntryOf(Accepted(xs)[|Accepted(xs)| - 1], Covered(Accepted(xs))))
  {
    hide Covered, Merged;
    var init, a := xs[..|xs| - 1], xs[|xs| - 1];
    assert a in xs;
    CoveredOne(a);
    if init != [] {
      MixedRun(init);
      var acc := Accepted(init);
      CoveredShape(acc);
      if a.point.start == Last(acc).time { CoveredMore(acc, a); }
    }
  }

  lemma {:induction false} EqualBoundsTail(xs: seq<Arrival>, bounds: seq<real>)
    requires forall i | 0 <= i < |xs| :: BoundsOf(xs[i]) == bounds
    ensures SameBoundsTail(xs) == xs
  {
    if |xs| > 1 { EqualBoundsTail(xs[..|xs| - 1], bounds); }
  }

  /** With equal bounds all of a chain is covered. */
  lemma CoveredIsPooled(xs: seq<Arrival>, bounds: seq<real>)
    requires xs != [] && AllDeltaHistograms(xs, bounds)
    ensures AnyDeltaHistograms(xs) && Covered(xs) == Pooled(xs, bounds)
  {
    hide SameBoundsTail;
    forall i | 0 <= i < |xs| ensures BoundsOf(xs[i]) == bounds { assert xs[i] in xs; }
    EqualBoundsTail(xs, bounds);
  }

  /** With equal bounds throughout nothing is lost: the pooled arrivals accepted since the last reset are stored. */
  lemma HistogramRun(xs: seq<Arrival>, bounds: seq<real>)
    requires xs != [] && AllDeltaHistograms(xs, bounds)
    ensures SeriesRun(None, xs) == Some(EntryOf(Accepted(xs)[|Accepted(xs)| - 1], Pooled(Accepted(xs), bounds)))
  {
    hide DeltaHistogram, SeriesRun, Covered, Pooled;
    CoveredIsPooled(xs, bounds);
    CoveredIsPooled(Accepted(xs), bounds);
    MixedRun(xs);
  }

  // ---------- Exactly once ----------

  /** The intervals of an aligned chain tile the stored interval: each instant lies in exactly one of them. */
  lemma {:induction false} IntervalsTile(xs: seq<Arrival>, t: nat) returns (i: nat)
    requires xs != [] && Aligned(xs) && xs[0].point.start <= t < Last(xs).time
    requires forall a | a in xs :: a.point.start < a.point.time
    ensures i < |xs| && forall j | 0 <= j < |xs| :: xs[j].point.start <= t < xs[j].point.time <==> j == i
  {
    var n := |xs| - 1;
    assert xs[n] in xs;
    EndsIncrease(xs);
    if n == 0 || t >= xs[n].point.start {
      i := n;
    } else {
      assert xs[n - 1 + 1].point.start == xs[n - 1].point.time;
      i := IntervalsTile(xs[..n], t);
    }
  }

  lemma {:induction false} EndsIncrease(xs: seq<Arrival>)
    requires Aligned(xs) && forall a | a in xs :: a.point.start < a.point.time
    ensures forall i | 0 <= i < |xs| :: xs[i].point.time <= Last(xs).time
    ensures forall i | 0 <= i < |xs| - 1 :: xs[i].point.time <= Last(xs).start
  {
    if |xs| > 1 {
      var n := |xs| - 1;
      EndsIncrease(xs[..n]);
      assert xs[n] in xs && xs[n - 1] in xs && xs[n - 1 + 1].point.start == xs[n - 1].point.time;
    }
  }

  /** Whatever was delivered, accepted or dropped, starts before the stored end. */
  lemma {:induction false} DeliveredStartsBeforeEnd(xs: seq<Arrival>)
    requires xs != [] && forall a | a in xs :: a.point.start < a.point.time
    ensures forall a | a in xs :: a.point.start < Last(Accepted(xs)).time
  {
    var init, a := xs[..|xs| - 1], xs[|xs| - 1];
    assert xs == init + [a] && a in xs;
    if init != [] { DeliveredStartsBeforeEnd(init); }
  }

  /** A point that starts before the stored end changes nothing. */
  lemma EarlyPointIgnored(prev: Option<Entry>, a: Arrival)
    requires AnyDeltaHistogram(a) && StoredPoint(prev).Some? && a.point.start < StoredPoint(prev).value.time
    ensures SeriesStep(prev, a) == prev
  {}

  lemma SeriesRunSnoc(prev: Option<Entry>, xs: seq<Arrival>, a: Arrival)
    ensures SeriesRun(prev, xs + [a]) == SeriesStep(SeriesRun(prev, xs), a)
  {
    hide SeriesStep;
    assert (xs + [a])[..|xs|] == xs;
  }

  /** Delivering a point again, at any later moment and under any metadata, changes nothing. */
  lemma RedeliveryIgnored(xs: seq<Arrival>, a: Arrival)
    requires AnyDeltaHistograms(xs) && AnyDeltaHistogram(a)
    requires exists x :: x in xs && x.point == a.point
    ensures SeriesRun(None, xs + [a]) == SeriesRun(None, xs)
  {
    hide Covered, Accepted, SeriesStep, SeriesRun;
    MixedRun(xs);
    DeliveredStartsBeforeEnd(xs);
    CoveredShape(Accepted(xs));
    EarlyPointIgnored(SeriesRun(None, xs), a);
    SeriesRunSnoc(None, xs, a);
  }

  /** At-least-once delivery has the effect of exactly-once delivery, whatever the bounds. */
  lemma {:induction false} AtLeastOnce(xs: seq<Arrival>)
    requires AnyDeltaHistograms(xs)
    ensures SeriesRun(None, xs) == SeriesRun(None, FirstDeliveries(xs))
  {
    hide SeriesRun, AnyDeltaHistogram;
    if xs != [] {
      var init, a := xs[..|xs| - 1], xs[|xs| - 1];
      assert a in xs && xs == init + [a];
      AtLeastOnce(init);
      if exists x :: x in init && x.point == a.point {
        RedeliveryIgnored(init, a);
      } else {
        SeriesRunSnoc(None, init, a);
        SeriesRunSnoc(None, FirstDeliveries(init), a);
      }
    }
  }

  lemma {:induction false} ChainAccepted(xs: seq<Arrival>)
    requires Aligned(xs)
    ensures Accepted(xs) == xs
  {
    if xs != [] { ChainAccepted(xs[..|xs| - 1]); }
  }

  /** If the first deliveries form an aligned chain, the stored point is the sum over all of it. */
  lemma ChainCountedOnce(xs: seq<Arrival>, bounds: seq<real>)
    requires xs != [] && AllDeltaHistograms(xs, bounds) && Aligned(FirstDeliveries(xs))
    ensures StoredPoint(SeriesRun(None, xs)) == Some(Pooled(FirstDeliveries(xs), bounds))
  {
    hide Pooled, SeriesRun, Aligned;
    AtLeastOnce(xs);
    HistogramRun(FirstDeliveries(xs), bounds);
    ChainAccepted(FirstDeliveries(xs));
  }

  lemma {:induction false} SumOfConcat(s: seq<U64>, t: seq<U64>)
    ensures Sum64(s + t) == Add64(Sum64(s), Sum64(t))
  {
    if t == [] {
      assert s + t == s;
    } else {
      assert (s + t)[..|s + t| - 1] == s + t[..|t| - 1];
      SumOfConcat(s, t[..|t| - 1]);
    }
  }

  lemma CountsSplit(xs: seq<Arrival>, k: nat)
    requires k <= |xs| && forall a | a in xs :: a.point.payload.HistogramValue?
    ensures Sum64(CountsOf(xs)) == Add64(Sum64(CountsOf(xs[..k])), Sum64(CountsOf(xs[k..])))
  {
    assert CountsOf(xs) == CountsOf(xs[..k]) + CountsOf(xs[k..]);
    SumOfConcat(CountsOf(xs[..k]), CountsOf(xs[k..]));
  }

  lemma CoveredCount(xs: seq<Arrival>)
    requires xs != [] && AnyDeltaHistograms(xs)
    ensures Covered(xs).payload.HistogramValue?
    ensures Sum64(CountsOf(xs))
         == Add64(Sum64(CountsOf(xs[..TailStart(xs)])), Covered(xs).payload.count)
  {
    hide Covered, DeltaHistogram, Sum64;
    CoveredShape(xs);
    CountsSplit(xs, TailStart(xs));
  }

  /** When bounds change along the chain, the stored interval is still the whole chain's, but the stored count is the
      sum over that interval exactly when the points before the last change of bounds count nothing. */
  lemma BoundsChangeLoses(xs: seq<Arrival>)
    requires xs != [] && AnyDeltaHistograms(xs) && Aligned(FirstDeliveries(xs))
    ensures var chain, stored := FirstDeliveries(xs), StoredPoint(SeriesRun(None, xs));
      && stored.Some? && stored.value.payload.HistogramValue?
      && stored.value.start == chain[0].point.start && stored.value.time == Last(chain).time
      && (stored.value.payload.count == Sum64(CountsOf(chain)) <==>
          Sum64(CountsOf(chain[..TailStart(chain)])) == 0)
  {
    hide SeriesRun, Aligned, SameBoundsTail, TailStart, Covered, AnyDeltaHistogram;
    var chain := FirstDeliveries(xs);
    AtLeastOnce(xs);
    MixedRun(chain);
    ChainAccepted(chain);
    CoveredShape(chain);
    CoveredCount(chain);
  }

  /** The same within a register fed with any mix of series, provided this one was not stored before. */
  lemma SeriesCountedOnce(reg: Register, xs: seq<Arrival>, s: string, bounds: seq<real>)
    requires s !in reg && Of(xs, s) != [] && AllDeltaHistograms(Of(xs, s), bounds)
    requires Aligned(FirstDeliveries(Of(xs, s)))
    ensures StoredPoint(Lookup(Fold(reg, xs), s)) == Some(Pooled(FirstDeliveries(Of(xs, s)), bounds))
  {
    SeriesIndependent(reg, xs, s);
    ChainCountedOnce(Of(xs, s), bounds);
  }
}
