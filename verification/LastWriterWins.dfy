/** Gauges, summaries and cumulative sums and histograms: the point with the latest timestamp survives. */
module LastWriterWins {
  import opened Sequences
  import opened Metrics
  import opened HistogramMerge
  import opened Accumulation
  import opened SeriesIndependence

  predicate ByTimestamp(kind: Kind) {
    kind.Gauge? || kind.Summary? || (kind.Sum? && kind.sumTemporality.Cumulative?)
    || (kind.Histogram? && kind.histogramTemporality.Cumulative?)
  }

  predicate AllByTimestamp(xs: seq<Arrival>) {
    forall a | a in xs :: ByTimestamp(a.kind) && !a.point.noRecordedValue
  }

  /** No other arrival is later; ties go to the later arrival. */
  predicate IsLatest(xs: seq<Arrival>, i: nat) {
    i < |xs| && forall j | 0 <= j < |xs| ::
      xs[j].point.time <= xs[i].point.time && (j > i ==> xs[j].point.time < xs[i].point.time)
  }

  lemma {:induction false} SomeIsLatest(xs: seq<Arrival>) returns (i: nat)
    requires xs != []
    ensures IsLatest(xs, i)
  {
    i := |xs| - 1;
    if i > 0 {
      var k := SomeIsLatest(xs[..i]);
      if xs[i].point.time < xs[k].point.time { i := k; }
    }
  }

  /** What a run whose latest arrival is `a` leaves behind: `a`, unless the entry before the run is later still. */
  function Survivor(prev: Option<Entry>, a: Arrival): Option<Entry> {
    if StoredPoint(prev).Some? && a.point.time < StoredPoint(prev).value.time then prev else Some(EntryOf(a, a.point))
  }

  lemma ByTimestampStep(prev: Option<Entry>, a: Arrival)
    requires ByTimestamp(a.kind) && !a.point.noRecordedValue
    ensures SeriesStep(prev, a) == Survivor(prev, a)
  {}

  /** The stored point of a series is the one with the greatest timestamp. */
  lemma {:induction false} LatestSurvives(prev: Option<Entry>, xs: seq<Arrival>, i: nat)
    requires AllByTimestamp(xs) && IsLatest(xs, i)
    ensures SeriesRun(prev, xs) == Survivor(prev, xs[i])
  {
    hide Decide;
    var n := |xs| - 1;
    var init := xs[..n];
    if n > 0 {
      var k := SomeIsLatest(init);
      LatestSurvives(prev, init, k);
      assert xs[k] == init[k] && xs[n] in xs;
      ByTimestampStep(SeriesRun(prev, init), xs[n]);
      if i < n {
        assert init[i] == xs[i];
      }
    } else {
      ByTimestampStep(prev, xs[0]);
    }
  }

  lemma {:induction false} MultisetOf(xs: seq<Arrival>, s: string, a: Arrival)
    ensures multiset(Of(xs, s))[a] == if a.sig == s then multiset(xs)[a] else 0
  {
    if xs != [] {
      assert xs == xs[..|xs| - 1] + [xs[|xs| - 1]];
      MultisetOf(xs[..|xs| - 1], s, a);
    }
  }

  lemma PermutationIrrelevant(reg: Register, xs: seq<Arrival>, ys: seq<Arrival>)
    requires AllByTimestamp(xs) && multiset(xs) == multiset(ys)
    requires forall a, b | a in xs && b in xs && a.sig == b.sig && a.point.time == b.point.time :: a == b
    ensures Fold(reg, xs) == Fold(reg, ys)
  {
    forall s ensures Lookup(Fold(reg, xs), s) == Lookup(Fold(reg, ys), s) {
      SeriesIndependent(reg, xs, s);
      SeriesIndependent(reg, ys, s);
      SeriesOrderIrrelevant(Lookup(reg, s), xs, ys, s);
    }
    SameEntries(Fold(reg, xs), Fold(reg, ys));
  }

  lemma SeriesOrderIrrelevant(prev: Option<Entry>, xs: seq<Arrival>, ys: seq<Arrival>, s: string)
    requires AllByTimestamp(xs) && multiset(xs) == multiset(ys)
    requires forall a, b | a in xs && b in xs && a.sig == b.sig && a.point.time == b.point.time :: a == b
    ensures SeriesRun(prev, Of(xs, s)) == SeriesRun(prev, Of(ys, s))
  {
    var p, q := Of(xs, s), Of(ys, s);
    forall a ensures (a in p <==> a.sig == s && a in xs) && (a in q <==> a in p) {
      MultisetOf(xs, s, a);
      MultisetOf(ys, s, a);
      assert a in p <==> a in multiset(p);
      assert a in q <==> a in multiset(q);
      assert a in xs <==> a in multiset(xs);
    }
    assert q != [] ==> q[0] in p;
    if p != [] {
      assert p[0] in q;
      var i := SomeIsLatest(p);
      var j := SomeIsLatest(q);
      LatestSurvives(prev, p, i);
      LatestSurvives(prev, q, j);
      assert p[i] in q && q[j] in p;
      assert p[i] == q[j];
    }
  }

  /** The arrivals without their wall-clock times. */
  function Contents(xs: seq<Arrival>): seq<Arrival> {
    seq(|xs|, i requires 0 <= i < |xs| => xs[i].(now := 0))
  }

  lemma ContentsOf(xs: seq<Arrival>, a: Arrival) returns (b: Arrival)
    requires a in Contents(xs)
    ensures b in xs && a == b.(now := 0)
  {
    var i :| 0 <= i < |xs| && Contents(xs)[i] == a;
    b := xs[i];
  }

  /** Convergence: arrivals in any other order, and so at other wall-clock times, leave the same register up to stamps,
      provided that within a series equal timestamps belong to equal arrivals. */
  lemma OrderIrrelevant(reg: Register, xs: seq<Arrival>, ys: seq<Arrival>)
    requires AllByTimestamp(xs) && multiset(Contents(xs)) == multiset(Contents(ys))
    requires forall a, b | a in xs && b in xs && a.sig == b.sig && a.point.time == b.point.time ::
      a.(now := 0) == b.(now := 0)
    ensures SameButStamps(Fold(reg, xs), Fold(reg, ys))
  {
    hide Fold, ByTimestamp;
    var us, vs := Contents(xs), Contents(ys);
    forall a | a in us ensures ByTimestamp(a.kind) && !a.point.noRecordedValue {
      var b := ContentsOf(xs, a);
    }
    forall a, b | a in us && b in us && a.sig == b.sig && a.point.time == b.point.time ensures a == b {
      var a' := ContentsOf(xs, a);
      var b' := ContentsOf(xs, b);
    }
    StampsOnly(reg, reg, xs, us);
    PermutationIrrelevant(reg, us, vs);
    StampsOnly(reg, reg, vs, ys);
  }

  /** Of histograms of unspecified temporality only the first is stored. */
  lemma {:induction false} UnspecifiedFirstSurvives(xs: seq<Arrival>)
    requires xs != [] && forall a | a in xs :: a.kind == Histogram(Unspecified) && !a.point.noRecordedValue
    ensures SeriesRun(None, xs) == Some(EntryOf(xs[0], xs[0].point))
  {
    var init := xs[..|xs| - 1];
    assert xs[|xs| - 1] in xs;
    if init != [] {
      assert init[0] == xs[0];
      UnspecifiedFirstSurvives(init);
    }
  }

  /** A stored timestamp decreases only when a delta histogram is reset by a point that ends before it starts. */
  lemma StoredTimeDecreases(prev: Option<Entry>, a: Arrival)
    requires StoredPoint(prev).Some? && !a.point.noRecordedValue
    ensures StoredPoint(SeriesStep(prev, a)).Some?
    ensures StoredPoint(SeriesStep(prev, a)).value.time < StoredPoint(prev).value.time <==>
            a.kind == Histogram(Delta) && a.point.time < StoredPoint(prev).value.time < a.point.start
  {}
}
