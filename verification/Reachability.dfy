/** What holds in every state the accumulator can reach by deliveries and scrapes. */
module Reachability {
  import opened Sequences
  import opened Machine
  import opened Metrics
  import opened HistogramMerge
  import opened Accumulation
  import opened Accumulator
  import opened BucketExport
  import opened BucketLaws

  datatype Action = Deliver(a: Arrival) | Scrape(expirationTime: int)

  function Perform(reg: Register, act: Action): Register {
    match act
    case Deliver(a) => Apply(reg, a)
    case Scrape(t) => Unexpired(reg, t)
  }

  function Reached(acts: seq<Action>): Register {
    if acts == [] then map[] else Perform(Reached(acts[..|acts| - 1]), acts[|acts| - 1])
  }

  /** A point as the data model asks: one bucket more than bounds, and the count is the sum of the buckets. */
  predicate Honest(a: Arrival) {
    ArrivalFits(a) && Shaped(a.point.payload) && Conserved(a.point.payload)
  }

  predicate HonestEntry(s: string, e: Entry) {
    EntryFits(s, e) && Shaped(e.value.points[0].payload) && Conserved(e.value.points[0].payload)
  }

  ghost predicate Sound(reg: Register) {
    forall s | s in reg :: HonestEntry(s, reg[s])
  }

  /** One delivery keeps a series honest and never reads a missing bucket. */
  lemma StepSound(prev: Option<Entry>, a: Arrival)
    requires Honest(a) && (prev.Some? ==> HonestEntry(a.sig, prev.value))
    ensures SeriesStep(prev, a).Some? ==> HonestEntry(a.sig, SeriesStep(prev, a).value)
    ensures StepSafe(StoredPoint(prev), a)
  {
    StepFits(prev, a);
    if prev.Some? {
      TypeNameDetermines(a.kind, prev.value.value.kind);
      if a.kind.Histogram? { MergeConserves(prev.value.value.points[0], a.point); }
    }
  }

  /** Histogram conservation and typing hold after any sequence of deliveries and scrapes. */
  lemma {:induction false} ReachableSound(acts: seq<Action>)
    requires forall i | 0 <= i < |acts| && acts[i].Deliver? :: Honest(acts[i].a)
    ensures Sound(Reached(acts))
  {
    if acts != [] {
      var init, act := acts[..|acts| - 1], acts[|acts| - 1];
      ReachableSound(init);
      if act.Deliver? { StepSound(Lookup(Reached(init), act.a.sig), act.a); }
    }
  }

  lemma {:induction false} FoldSound(reg: Register, xs: seq<Arrival>)
    requires Sound(reg) && forall i | 0 <= i < |xs| :: Honest(xs[i])
    ensures Sound(Fold(reg, xs))
  {
    if xs != [] {
      var init, a := xs[..|xs| - 1], xs[|xs| - 1];
      FoldSound(reg, init);
      StepSound(Lookup(Fold(reg, init), a.sig), a);
    }
  }

  /** Honest batches meet the precondition of Accumulate: no merge ever indexes out of range. */
  lemma HonestRunSafe(reg: Register, xs: seq<Arrival>)
    requires Sound(reg) && forall i | 0 <= i < |xs| :: Honest(xs[i])
    ensures RunSafe(reg, xs)
  {
    forall k | 0 <= k < |xs| ensures StepSafe(StoredPoint(Lookup(Fold(reg, xs[..k]), xs[k].sig)), xs[k]) {
      FoldSound(reg, xs[..k]);
      StepSound(Lookup(Fold(reg, xs[..k]), xs[k].sig), xs[k]);
    }
  }

  /** What a scrape makes of an honest histogram with largest bound b: that bucket, what repeated bounds hide and the
      overflow bucket make up the count, and the buckets are cumulative exactly when the true number of observations up
      to b neither overflows nor exceeds the count, which for distinct bounds is when the true total fits 64 bits. */
  ghost predicate ExportsHonestly(e: Entry, b: real) {
    && e.value.points != [] && e.value.points[0].payload.HistogramValue?
    && var v := e.value.points[0].payload;
    var n := |v.bounds|;
    && |v.counts| == n + 1
    && (Largest(v.bounds, b) ==>
          && v.count == Add64(Add64(ExportedBucket(v, b), RepeatedCount(v.bounds, v.counts, n)), v.counts[n])
          && (CumulativeBuckets(v) <==> CumulativeNat(v.bounds, v.counts, n, b) < TWO64
                                        && CumulativeNat(v.bounds, v.counts, n, b) <= v.count))
    && (NoDuplicates(v.bounds) ==>
          RepeatedCount(v.bounds, v.counts, n) == 0 && (CumulativeBuckets(v) <==> SumNat(v.counts) < TWO64))
  }

  lemma HonestExport(s: string, e: Entry, b: real)
    requires HonestEntry(s, e) && e.value.kind.Histogram?
    ensures ExportsHonestly(e, b)
  {
    var v := e.value.points[0].payload;
    if Largest(v.bounds, b) {
      OverflowBucket(v, b);
      CumulativeExactly(v, b);
    }
    if NoDuplicates(v.bounds) {
      CumulativeIffNoOverflow(v);
      NothingRepeated(v.bounds, v.counts, |v.bounds|);
    }
  }

  /** Every histogram that deliveries and scrapes can leave is exported honestly. */
  lemma ReachableExport(acts: seq<Action>, s: string, b: real)
    requires forall i | 0 <= i < |acts| && acts[i].Deliver? :: Honest(acts[i].a)
    requires s in Reached(acts) && Reached(acts)[s].value.kind.Histogram?
    ensures ExportsHonestly(Reached(acts)[s], b)
  {
    ReachableSound(acts);
    HonestExport(s, Reached(acts)[s], b);
  }
}
