/** Series do not influence each other, and batching changes nothing but the `updated` stamps. */
module SeriesIndependence {
  import opened Sequences
  import opened Metrics
  import opened Signature
  import opened Accumulation
  import opened Batches

  /** The arrivals of one series, in order. */
  function Of(xs: seq<Arrival>, s: string): seq<Arrival> {
    if xs == [] then [] else
      Of(xs[..|xs| - 1], s) + if xs[|xs| - 1].sig == s then [xs[|xs| - 1]] else []
  }

  /** After any run, the entry of a series is what its own arrivals make of it. */
  lemma {:induction false} SeriesIndependent(reg: Register, xs: seq<Arrival>, s: string)
    ensures Lookup(Fold(reg, xs), s) == SeriesRun(Lookup(reg, s), Of(xs, s))
  {
    if xs != [] {
      var init, a := xs[..|xs| - 1], xs[|xs| - 1];
      SeriesIndependent(reg, init, s);
      assert a.sig == s ==> Of(xs, s)[..|Of(xs, s)| - 1] == Of(init, s);
      assert a.sig != s ==> Of(xs, s) == Of(init, s);
    }
  }

  lemma SameEntries(a: Register, b: Register)
    requires forall s :: Lookup(a, s) == Lookup(b, s)
    ensures a == b
  {
    forall s ensures s in a <==> s in b {
      assert Lookup(a, s) == Lookup(b, s);
    }
    forall s | s in a ensures a[s] == b[s] {
      assert Lookup(a, s) == Lookup(b, s);
    }
  }

  /** Interleavings that keep the order within each series end in the same register. */
  lemma InterleavingIrrelevant(reg: Register, xs: seq<Arrival>, ys: seq<Arrival>)
    requires forall s :: Of(xs, s) == Of(ys, s)
    ensures Fold(reg, xs) == Fold(reg, ys)
  {
    forall s ensures Lookup(Fold(reg, xs), s) == Lookup(Fold(reg, ys), s) {
      SeriesIndependent(reg, xs, s);
      SeriesIndependent(reg, ys, s);
    }
    SameEntries(Fold(reg, xs), Fold(reg, ys));
  }

  /** Steps on different series commute. */
  lemma StepsCommute(reg: Register, a: Arrival, b: Arrival)
    requires a.sig != b.sig
    ensures Fold(reg, [a, b]) == Fold(reg, [b, a])
  {
    forall s ensures Of([a, b], s) == Of([b, a], s) {
      assert [a, b][..1] == [a] && [b, a][..1] == [b] && [a][..0] == [] && [b][..0] == [];
      assert Of([a], s) == (if a.sig == s then [a] else []) && Of([b], s) == (if b.sig == s then [b] else []);
    }
    InterleavingIrrelevant(reg, [a, b], [b, a]);
  }

  // ---------- Batching ----------

  function Unstamped(e: Option<Entry>): Option<Entry> {
    if e.Some? then Some(e.value.(updated := 0)) else None
  }

  /** Equal up to the times at which entries were updated. */
  ghost predicate SameButStamps(a: Register, b: Register) {
    forall s :: Unstamped(Lookup(a, s)) == Unstamped(Lookup(b, s))
  }

  lemma StepIgnoresStamps(e: Option<Entry>, e': Option<Entry>, a: Arrival, a': Arrival)
    requires Unstamped(e) == Unstamped(e') && a.(now := 0) == a'.(now := 0)
    ensures Unstamped(SeriesStep(e, a)) == Unstamped(SeriesStep(e', a'))
  {
    assert e.Some? ==> e.value.value == e.value.(updated := 0).value;
    assert e'.Some? ==> e'.value.value == e'.value.(updated := 0).value;
    assert a.point == a.(now := 0).point && a'.point == a'.(now := 0).point;
    assert a.kind == a.(now := 0).kind && a'.kind == a'.(now := 0).kind;
    assert a.meta == a.(now := 0).meta && a'.meta == a'.(now := 0).meta;
    assert a.resource == a.(now := 0).resource && a'.resource == a'.(now := 0).resource;
    assert a.scope == a.(now := 0).scope && a'.scope == a'.(now := 0).scope;
  }

  /** The same arrivals at other wall-clock times, say in other batches, differ only in the stamps. */
  lemma {:induction false} StampsOnly(reg: Register, reg': Register, xs: seq<Arrival>, ys: seq<Arrival>)
    requires SameButStamps(reg, reg') && |xs| == |ys|
    requires forall i | 0 <= i < |xs| :: xs[i].(now := 0) == ys[i].(now := 0)
    ensures SameButStamps(Fold(reg, xs), Fold(reg', ys))
  {
    if xs != [] {
      var init, init', a, b := xs[..|xs| - 1], ys[..|ys| - 1], xs[|xs| - 1], ys[|ys| - 1];
      StampsOnly(reg, reg', init, init');
      var r, r' := Fold(reg, init), Fold(reg', init');
      assert a.sig == a.(now := 0).sig == b.(now := 0).sig == b.sig;
      forall s ensures Unstamped(Lookup(Apply(r, a), s)) == Unstamped(Lookup(Apply(r', b), s)) {
        assert Unstamped(Lookup(r, s)) == Unstamped(Lookup(r', s));
        if s == a.sig { StepIgnoresStamps(Lookup(r, s), Lookup(r', s), a, b); }
      }
    }
  }

  /** All points of a metric arrive exactly when no point before the last is a marker. */
  lemma AllPointsArrive(h: Origin, points: seq<Point>)
    requires !Gated(h.kind)
    ensures |Live(h, points)| == |points| <==> forall i | 0 <= i < |points| - 1 :: !points[i].noRecordedValue
  {
    hide TimeseriesSignature;
  }

  /** The points of a batch in order, whatever metric and call they come in. */
  function UnstampedPoints(ws: seq<Work>): seq<Arrival> {
    if ws == [] then [] else
      var h, points := ws[|ws| - 1].origin, ws[|ws| - 1].points;
      UnstampedPoints(ws[..|ws| - 1])
      + if Gated(h.kind) then [] else seq(|points|, i requires 0 <= i < |points| => ArrivalOf(h, points[i]).(now := 0))
  }

  lemma {:induction false} MarkerFreeArrivals(ws: seq<Work>)
    requires MarkerFree(ws)
    ensures |BatchArrivals(ws)| == |UnstampedPoints(ws)|
    ensures forall i | 0 <= i < |BatchArrivals(ws)| :: BatchArrivals(ws)[i].(now := 0) == UnstampedPoints(ws)[i]
  {
    hide TimeseriesSignature;
    if ws != [] {
      var init, w := ws[..|ws| - 1], ws[|ws| - 1];
      MarkerFreeArrivals(init);
      if !Gated(w.origin.kind) { AllPointsArrive(w.origin, w.points); }
    }
  }

  /** However marker-free points are split over metrics and batches, only the `updated` stamps differ. */
  lemma Rebatching(reg: Register, ws: seq<Work>, ws': seq<Work>)
    requires MarkerFree(ws) && MarkerFree(ws') && UnstampedPoints(ws) == UnstampedPoints(ws')
    ensures SameButStamps(Fold(reg, BatchArrivals(ws)), Fold(reg, BatchArrivals(ws')))
  {
    hide UnstampedPoints, BatchArrivals, Fold;
    MarkerFreeArrivals(ws);
    MarkerFreeArrivals(ws');
    StampsOnly(reg, reg, BatchArrivals(ws), BatchArrivals(ws'));
  }
}
