/** Delta-to-cumulative conversion of monotonic sums, over whole runs of one series. */
module DeltaSums {
  import opened Sequences
  import opened Machine
  import opened Metrics
  import opened HistogramMerge
  import opened Accumulation
  import opened Signature
  import opened SeriesIndependence

  predicate DeltaSum(a: Arrival) {
    a.kind == Sum(Delta, true) && !a.point.noRecordedValue && a.point.payload.NumberValue?
  }

  predicate AllDeltaSums(xs: seq<Arrival>) {
    forall a | a in xs :: DeltaSum(a)
  }

  /** Each point starts where the one before it ends. */
  predicate Aligned(xs: seq<Arrival>) {
    forall i | 0 <= i < |xs| - 1 :: xs[i + 1].point.start == xs[i].point.time
  }

  predicate Forward(xs: seq<Arrival>) {
    forall a | a in xs :: a.point.start <= a.point.time
  }

  function Last(xs: seq<Arrival>): Point
    requires xs != []
  {
    xs[|xs| - 1].point
  }

  /** The arrivals the stored total is made of: late ones are ignored, misaligned ones start over. */
  function Contributing(xs: seq<Arrival>): (acc: seq<Arrival>)
    ensures xs != [] ==> acc != []
    ensures forall a | a in acc :: a in xs
    ensures Aligned(acc)
  {
    if xs == [] then [] else
      Contribute(Contributing(xs[..|xs| - 1]), xs[|xs| - 1])
  }

  function Contribute(acc: seq<Arrival>, a: Arrival): seq<Arrival> {
    if acc == [] then [a]
    else if a.point.time < Last(acc).time then acc
    else if a.point.start == Last(acc).time then acc + [a]
    else [a]
  }

  lemma {:induction false} ContributingInOrder(xs: seq<Arrival>)
    ensures Subsequence(Contributing(xs), xs)
  {
    if xs != [] { ContributingInOrder(xs[..|xs| - 1]); }
  }

  function Total(xs: seq<Arrival>): Number
    requires xs != [] && AllDeltaSums(xs)
  {
    var n := |xs| - 1;
    assert xs[0] in xs && xs[n] in xs;
    if n == 0 then xs[0].point.payload.number else AddNumber(xs[n].point.payload.number, Total(xs[..n]))
  }

  /** The point stored for a chain of arrivals: first start, last end, total value. */
  function Cumulated(xs: seq<Arrival>): Point
    requires xs != [] && AllDeltaSums(xs)
  {
    Last(xs).(start := xs[0].point.start, payload := NumberValue(Total(xs)))
  }

  /** Any run of delta sums leaves the total of the aligned chain of contributing arrivals. */
  lemma {:induction false} SumRun(xs: seq<Arrival>)
    requires xs != [] && AllDeltaSums(xs)
    ensures SeriesRun(None, xs) == Some(EntryOf(Contributing(xs)[|Contributing(xs)| - 1], Cumulated(Contributing(xs))))
  {
    var init, a := xs[..|xs| - 1], xs[|xs| - 1];
    assert a in xs;
    if init != [] {
      SumRun(init);
      var acc := Contributing(init);
      assert (acc + [a])[..|acc|] == acc;
    }
  }

  /** Over an aligned chain nothing is lost. */
  lemma {:induction false} ChainContributes(xs: seq<Arrival>)
    requires Aligned(xs) && Forward(xs)
    ensures Contributing(xs) == xs
  {
    if xs != [] {
      ChainContributes(xs[..|xs| - 1]);
      assert xs[|xs| - 1] in xs;
    }
  }

  /** Telescoping: an aligned chain is stored as first start, last end and the sum of the values. */
  lemma Telescoping(xs: seq<Arrival>)
    requires xs != [] && AllDeltaSums(xs) && Aligned(xs) && Forward(xs)
    ensures SeriesRun(None, xs) == Some(EntryOf(xs[|xs| - 1], Cumulated(xs)))
  {
    SumRun(xs);
    ChainContributes(xs);
  }

  // ---------- What the total is ----------

  function IntSum(xs: seq<Arrival>): int
    requires forall a | a in xs :: a.point.payload.NumberValue? && a.point.payload.number.IntNumber?
  {
    if xs == [] then 0 else IntSum(xs[..|xs| - 1]) + xs[|xs| - 1].point.payload.number.i
  }

  function RealSum(xs: seq<Arrival>): real
    requires forall a | a in xs :: a.point.payload.NumberValue? && a.point.payload.number.DoubleNumber?
  {
    if xs == [] then 0.0 else RealSum(xs[..|xs| - 1]) + xs[|xs| - 1].point.payload.number.d
  }

  lemma {:induction false} IntTotalWraps(xs: seq<Arrival>) returns (k: int)
    requires xs != [] && AllDeltaSums(xs) && forall a | a in xs :: a.point.payload.number.IntNumber?
    ensures Total(xs).IntNumber? && Total(xs).i == IntSum(xs) + k * TWO64
  {
    var n := |xs| - 1;
    assert xs[n] in xs;
    k := 0;
    if n > 0 {
      k := IntTotalWraps(xs[..n]);
      var sum := xs[n].point.payload.number.i + Total(xs[..n]).i;
      k := if sum < -TWO63 then k + 1 else if sum >= TWO63 then k - 1 else k;
    } else {
      assert IntSum(xs[..0]) == 0;
    }
  }

  /** The total of integer points is their sum whenever that fits an int64, whatever overflows on the way. */
  lemma IntTotal(xs: seq<Arrival>)
    requires xs != [] && AllDeltaSums(xs) && forall a | a in xs :: a.point.payload.number.IntNumber?
    ensures Total(xs).IntNumber?
    ensures Total(xs).i == IntSum(xs) <==> -TWO63 <= IntSum(xs) < TWO63
  {
    var k := IntTotalWraps(xs);
  }

  lemma {:induction false} DoubleTotal(xs: seq<Arrival>)
    requires xs != [] && AllDeltaSums(xs) && forall a | a in xs :: a.point.payload.number.DoubleNumber?
    ensures Total(xs) == DoubleNumber(RealSum(xs))
  {
    var n := |xs| - 1;
    if n > 0 { DoubleTotal(xs[..n]); } else { assert RealSum(xs[..0]) == 0.0; }
  }

  // ---------- Input points are rewritten in place ----------

  lemma {:induction false} SeriesRunConcat(prev: Option<Entry>, xs: seq<Arrival>, ys: seq<Arrival>)
    ensures SeriesRun(prev, xs + ys) == SeriesRun(SeriesRun(prev, xs), ys)
  {
    if ys == [] {
      assert xs + ys == xs;
    } else {
      var y := ys[..|ys| - 1];
      assert (xs + ys)[..|xs + ys| - 1] == xs + y;
      SeriesRunConcat(prev, xs, y);
    }
  }

  lemma {:induction false} OfConcat(xs: seq<Arrival>, ys: seq<Arrival>, s: string)
    ensures Of(xs + ys, s) == Of(xs, s) + Of(ys, s)
  {
    if ys == [] {
      assert xs + ys == xs;
    } else {
      assert (xs + ys)[..|xs + ys| - 1] == xs + ys[..|ys| - 1];
      OfConcat(xs, ys[..|ys| - 1], s);
    }
  }

  lemma ChainPrefix(xs: seq<Arrival>, ys: seq<Arrival>)
    requires AllDeltaSums(ys) && Aligned(ys) && Forward(ys) && xs <= ys
    ensures AllDeltaSums(xs) && Aligned(xs) && Forward(xs)
  {
    assert forall i | 0 <= i < |xs| :: xs[i] == ys[i];
  }

  lemma CumulatedMore(done: seq<Arrival>, a: Arrival)
    requires AllDeltaSums(done + [a]) && AllDeltaSums(done) && done != []
    ensures Cumulated(done + [a])
         == a.point.(start := done[0].point.start, payload := AddNumberValue(a.point.payload, Cumulated(done).payload))
  {
    assert (done + [a])[..|done|] == done && a in done + [a];
  }

  /** The next point of a chain is stored as, and rewritten to, the new total. */
  lemma ChainStep(done: seq<Arrival>, a: Arrival)
    requires AllDeltaSums(done + [a]) && Aligned(done + [a]) && Forward(done + [a])
    ensures DeltaSum(a)
    ensures Decide(a.kind, StoredPoint(SeriesRun(None, done)), a.point) == Store(Cumulated(done + [a]))
  {
    hide Cumulated, AddNumberValue, SeriesStep;
    var all := done + [a];
    assert a in all && a.point.start <= a.point.time;
    ChainPrefix(done, all);
    if done == [] {
      assert all == [a];
      TotalOfOne([a]);
    } else {
      assert all[|done| - 1 + 1].point.start == all[|done| - 1].point.time;
      Telescoping(done);
      CumulatedShape(done);
      CumulatedMore(done, a);
    }
  }

  lemma CumulatedShape(xs: seq<Arrival>)
    requires xs != [] && AllDeltaSums(xs)
    ensures Cumulated(xs).start == xs[0].point.start && Cumulated(xs).time == Last(xs).time
  {}

  lemma TotalOfOne(xs: seq<Arrival>)
    requires |xs| == 1 && AllDeltaSums(xs)
    ensures Cumulated(xs) == xs[0].point
  {
    assert xs[0] in xs;
  }

  /** However a chain is split over batches, and whatever other series share its metrics, each of its input points
      becomes the running total with the first start. `prior` is what of the chain came before this metric. */
  lemma {:induction false} RunningTotals(was: Register, prior: seq<Arrival>, h: Origin, points: seq<Point>, s: string,
                                         k: nat)
    requires h.kind == Sum(Delta, true) && Lookup(was, s) == SeriesRun(None, prior)
    requires k < |Live(h, points)| && Live(h, points)[k].sig == s
    requires var all := prior + Of(Live(h, points), s); AllDeltaSums(all) && Aligned(all) && Forward(all)
    ensures AllDeltaSums(prior + Of(Live(h, points)[..k + 1], s))
    ensures Rewritten(was, h, points)[k] == Cumulated(prior + Of(Live(h, points)[..k + 1], s))
  {
    hide Decide, TimeseriesSignature, Cumulated, Fold, AllDeltaSums, Aligned, Forward;
    var xs := Live(h, points);
    var done, next := Of(xs[..k], s), Of(xs[..k + 1], s);
    assert xs[..k + 1][..k] == xs[..k];
    assert next == done + [xs[k]];
    OfConcat(xs[..k + 1], xs[k + 1..], s);
    assert xs == xs[..k + 1] + xs[k + 1..];
    assert prior + next == (prior + done) + [xs[k]];
    ChainPrefix(prior + next, prior + Of(xs, s));
    SeriesIndependent(was, xs[..k], s);
    SeriesRunConcat(None, prior, done);
    ChainStep(prior + done, xs[k]);
  }

  // ---------- Redelivery ----------

  /** A delta sum is unaffected by a point exactly if the point is late or identical. */
  lemma SumUnaffected(prev: Option<Entry>, a: Arrival)
    requires StoredPoint(prev).Some? && DeltaSum(a) && a.point.start < a.point.time
    ensures StoredPoint(SeriesStep(prev, a)) == StoredPoint(prev)
      <==> a.point.time < StoredPoint(prev).value.time || a.point == StoredPoint(prev).value
  {}

  lemma {:induction false} EndsIncrease(xs: seq<Arrival>, i: nat, j: nat)
    requires i <= j < |xs| && Aligned(xs) && forall a | a in xs :: a.point.start < a.point.time
    ensures xs[i].point.time <= xs[j].point.time && (i < j ==> xs[i].point.time < xs[j].point.time)
  {
    if i < j {
      EndsIncrease(xs, i, j - 1);
      assert xs[j] in xs && xs[j - 1 + 1].point.start == xs[j - 1].point.time;
    }
  }

  lemma MisalignedReplaces(prev: Option<Entry>, a: Arrival)
    requires DeltaSum(a) && StoredPoint(prev).Some?
    requires a.point.time >= StoredPoint(prev).value.time && a.point.start != StoredPoint(prev).value.time
    ensures StoredPoint(SeriesStep(prev, a)) == Some(a.point)
  {}

  /** Redelivering the last point of a chain replaces the total by that point alone. */
  lemma {:induction false} RedeliveryResetsSum(xs: seq<Arrival>, a: Arrival)
    requires |xs| >= 2 && AllDeltaSums(xs) && Aligned(xs) && forall x | x in xs :: x.point.start < x.point.time
    requires DeltaSum(a) && a.point == Last(xs)
    ensures StoredPoint(SeriesRun(None, xs + [a])) == Some(a.point)
    ensures a.point.start > xs[0].point.start
  {
    hide DeltaSum, SeriesStep;
    Telescoping(xs);
    var n := |xs| - 1;
    assert (xs + [a])[..|xs|] == xs && xs[n] in xs && xs[0] in xs;
    MisalignedReplaces(SeriesRun(None, xs), a);
    EndsIncrease(xs, 0, n - 1);
    assert xs[n - 1 + 1].point.start == xs[n - 1].point.time;
  }

  /** Redelivering point j of an aligned chain is harmless exactly when it is not the last point, or the only one. */
  lemma {:induction false} RedeliveryHarmless(xs: seq<Arrival>, j: nat, a: Arrival)
    requires j < |xs| && AllDeltaSums(xs) && Aligned(xs) && forall x | x in xs :: x.point.start < x.point.time
    requires DeltaSum(a) && a.point == xs[j].point
    ensures StoredPoint(SeriesRun(None, xs + [a])) == StoredPoint(SeriesRun(None, xs)) <==> j < |xs| - 1 || |xs| == 1
  {
    hide SeriesStep, DeltaSum;
    Telescoping(xs);
    if 0 < j == |xs| - 1 {
      RedeliveryResetsSum(xs, a);
    } else {
      assert (xs + [a])[..|xs|] == xs && xs[j] in xs;
      EndsIncrease(xs, j, |xs| - 1);
      if |xs| == 1 { TotalOfOne(xs); }
      SumUnaffected(SeriesRun(None, xs), a);
    }
  }

  /** The arrivals that bring a point for the first time. */
  function FirstDeliveries(xs: seq<Arrival>): (ys: seq<Arrival>)
    ensures xs != [] ==> ys != []
    ensures forall a | a in ys :: a in xs
  {
    if xs == [] then [] else
      var init, a := xs[..|xs| - 1], xs[|xs| - 1];
      if exists x :: x in init && x.point == a.point then FirstDeliveries(init) else FirstDeliveries(init) + [a]
  }

  lemma {:induction false} BroughtBefore(xs: seq<Arrival>, x: Arrival)
    requires x in xs
    ensures exists j :: 0 <= j < |FirstDeliveries(xs)| && FirstDeliveries(xs)[j].point == x.point
  {
    var init, a := xs[..|xs| - 1], xs[|xs| - 1];
    assert xs == init + [a];
    if y :| y in init && y.point == x.point {
      BroughtBefore(init, y);
      var j :| 0 <= j < |FirstDeliveries(init)| && FirstDeliveries(init)[j].point == y.point;
      assert FirstDeliveries(xs)[j] == FirstDeliveries(init)[j];
    } else {
      assert FirstDeliveries(xs)[|FirstDeliveries(xs)| - 1] == a;
    }
  }

  /** Arrival i brings again the latest point so far, which is not the only one. */
  predicate LatestAgain(xs: seq<Arrival>, i: nat)
    requires i < |xs|
  {
    var before := FirstDeliveries(xs[..i]);
    |before| >= 2 && xs[i].point == Last(before)
  }

  predicate SomeLatestAgain(xs: seq<Arrival>) {
    exists i :: 0 <= i < |xs| && LatestAgain(xs, i)
  }

  lemma LatestAgainStep(xs: seq<Arrival>)
    requires xs != []
    ensures SomeLatestAgain(xs) <==> SomeLatestAgain(xs[..|xs| - 1]) || LatestAgain(xs, |xs| - 1)
  {
    hide FirstDeliveries;
    var n, init := |xs| - 1, xs[..|xs| - 1];
    forall i | 0 <= i < n ensures LatestAgain(xs, i) <==> LatestAgain(init, i) {
      assert xs[..i] == init[..i];
    }
    if i :| 0 <= i < n && LatestAgain(init, i) { assert LatestAgain(xs, i); }
    if i :| 0 <= i < n && LatestAgain(xs, i) { assert LatestAgain(init, i); }
  }

  /** Of the chain of first deliveries, the points from number k on make up the stored total. */
  predicate CountsFrom(xs: seq<Arrival>, k: nat) {
    SuffixPoints(Contributing(xs), FirstDeliveries(xs), k)
  }

  predicate SuffixPoints(acc: seq<Arrival>, chain: seq<Arrival>, k: nat) {
    k + |acc| == |chain| && forall i | 0 <= i < |acc| :: acc[i].point == chain[k + i].point
  }

  lemma AlignedPrefix(xs: seq<Arrival>, a: Arrival)
    requires Aligned(xs + [a])
    ensures Aligned(xs) && (xs != [] ==> a.point.start == Last(xs).time)
  {
    var ys := xs + [a];
    assert forall i | 0 <= i < |xs| :: ys[i] == xs[i];
    assert ys[|xs|] == a;
    if xs != [] { assert ys[|xs| - 1 + 1].point.start == ys[|xs| - 1].point.time; }
  }

  lemma Snoc(xs: seq<Arrival>, a: Arrival)
    ensures Contributing(xs + [a]) == Contribute(Contributing(xs), a)
    ensures FirstDeliveries(xs + [a]) ==
      if exists x :: x in xs && x.point == a.point then FirstDeliveries(xs) else FirstDeliveries(xs) + [a]
  {
    assert (xs + [a])[..|xs|] == xs;
  }

  /** A point that was delivered before restarts the total if it is the latest, and is late otherwise. */
  lemma AgainStep(acc: seq<Arrival>, chain: seq<Arrival>, a: Arrival, j: nat, k: nat)
    requires acc != [] && SuffixPoints(acc, chain, k) && Aligned(chain)
    requires forall x | x in chain :: x.point.start < x.point.time
    requires j < |chain| && chain[j].point == a.point
    ensures SuffixPoints(Contribute(acc, a), chain, if a.point == Last(chain) then |chain| - 1 else k)
  {
    assert Last(acc) == chain[k + (|acc| - 1)].point == Last(chain) && chain[j] in chain;
    EndsIncrease(chain, j, |chain| - 1);
  }

  /** The next point of the chain is added. */
  lemma NewStep(acc: seq<Arrival>, chain: seq<Arrival>, a: Arrival, k: nat)
    requires acc != [] && SuffixPoints(acc, chain, k)
    requires Last(chain).time == a.point.start < a.point.time
    ensures SuffixPoints(Contribute(acc, a), chain + [a], k)
  {
    assert Last(acc) == chain[k + (|acc| - 1)].point == Last(chain);
  }

  lemma CountsNext(init: seq<Arrival>, a: Arrival, k: nat) returns (k': nat)
    requires init != [] && k < |FirstDeliveries(init)| && CountsFrom(init, k) && Aligned(FirstDeliveries(init + [a]))
    requires a.point.start < a.point.time && forall x | x in init :: x.point.start < x.point.time
    ensures k' < |FirstDeliveries(init + [a])| && CountsFrom(init + [a], k')
    ensures k' == 0 <==>
      k == 0 && !(|FirstDeliveries(init)| >= 2 && a.point == Last(FirstDeliveries(init)))
  {
    hide Contributing, FirstDeliveries, Contribute, SuffixPoints, Aligned;
    var chain, acc := FirstDeliveries(init), Contributing(init);
    Snoc(init, a);
    k' := k;
    if x :| x in init && x.point == a.point {
      BroughtBefore(init, x);
      var j :| 0 <= j < |chain| && chain[j].point == x.point;
      AgainStep(acc, chain, a, j, k);
      if a.point == Last(chain) { k' := |chain| - 1; }
    } else {
      AlignedPrefix(chain, a);
      NewStep(acc, chain, a, k);
    }
  }

  lemma {:induction false} CountedSince(xs: seq<Arrival>) returns (k: nat)
    requires xs != [] && Aligned(FirstDeliveries(xs)) && forall x | x in xs :: x.point.start < x.point.time
    ensures k < |FirstDeliveries(xs)| && CountsFrom(xs, k)
    ensures k == 0 <==> !SomeLatestAgain(xs)
  {
    hide SomeLatestAgain, CountsFrom, Aligned, FirstDeliveries;
    var n := |xs| - 1;
    var init, a := xs[..n], xs[n];
    assert a in xs && xs == init + [a];
    if n == 0 {
      k := 0;
      OneCounts(xs);
    } else {
      LatestAgainStep(xs);
      Snoc(init, a);
      AlignedInit(FirstDeliveries(init), a);
      k := CountedSince(init);
      k := CountsNext(init, a, k);
    }
  }

  lemma AlignedInit(xs: seq<Arrival>, a: Arrival)
    ensures Aligned(xs + [a]) ==> Aligned(xs)
  {
    if Aligned(xs + [a]) { AlignedPrefix(xs, a); }
  }

  lemma OneCounts(xs: seq<Arrival>)
    requires |xs| == 1
    ensures |FirstDeliveries(xs)| == 1 && CountsFrom(xs, 0) && !SomeLatestAgain(xs)
  {
    assert xs[..0] == [];
  }

  /** The stored point depends on the points only. */
  lemma {:induction false} SamePointsSameTotal(xs: seq<Arrival>, ys: seq<Arrival>)
    requires xs != [] && |xs| == |ys| && AllDeltaSums(xs) && AllDeltaSums(ys)
    requires forall i | 0 <= i < |xs| :: xs[i].point == ys[i].point
    ensures Total(xs) == Total(ys) && Cumulated(xs) == Cumulated(ys)
  {
    var n := |xs| - 1;
    if n > 0 { SamePointsSameTotal(xs[..n], ys[..n]); }
  }

  /** Only the whole of an aligned chain has its total: a later part starts later. */
  lemma WholeChainOnly(acc: seq<Arrival>, chain: seq<Arrival>, k: nat)
    requires SuffixPoints(acc, chain, k) && acc != [] && Aligned(chain)
    requires forall x | x in chain :: x.point.start < x.point.time
    requires AllDeltaSums(chain)
    requires AllDeltaSums(acc)
    ensures Cumulated(acc) == Cumulated(chain) <==> k == 0
  {
    hide DeltaSum;
    assert acc[0].point == chain[k + 0].point;
    if k == 0 {
      SamePointsSameTotal(acc, chain);
    } else {
      EndsIncrease(chain, 0, k - 1);
      assert chain[k - 1 + 1].point.start == chain[k - 1].point.time && chain[0] in chain;
    }
  }

  lemma StoredOf(a: Arrival, p: Point)
    ensures StoredPoint(Some(EntryOf(a, p))) == Some(p)
  {}

  /** At-least-once delivery of an aligned chain leaves its whole total exactly if no point but the first comes again
      while it is the latest. */
  lemma AtLeastOnceSum(xs: seq<Arrival>)
    requires xs != [] && AllDeltaSums(xs) && Aligned(FirstDeliveries(xs))
    requires forall x | x in xs :: x.point.start < x.point.time
    ensures AllDeltaSums(FirstDeliveries(xs))
    ensures StoredPoint(SeriesRun(None, xs)) == Some(Cumulated(FirstDeliveries(xs))) <==> !SomeLatestAgain(xs)
  {
    hide Contributing, FirstDeliveries, SomeLatestAgain, SeriesRun, DeltaSum, Cumulated, EntryOf, StoredPoint, Aligned,
         SuffixPoints;
    var chain, acc := FirstDeliveries(xs), Contributing(xs);
    var k := CountedSince(xs);
    assert AllDeltaSums(chain) && AllDeltaSums(acc);
    SumRun(xs);
    StoredOf(acc[|acc| - 1], Cumulated(acc));
    WholeChainOnly(acc, chain, k);
  }
}
