/** The meaning of accumulator.go: what one arriving point does to the register of stored series. */
module Accumulation {
  import opened Sequences
  import opened Machine
  import opened Attributes
  import opened Metrics
  import opened Signature
  import opened HistogramMerge

  /** accumulatedValue: a metric with one aggregated point. */
  datatype Entry = Entry(value: Metric, resource: Attrs, scope: string, updated: nat)

  type Register = map<string, Entry>

  /** A point on its way into the series `sig`. */
  datatype Arrival =
    Arrival(sig: string, kind: Kind, meta: Meta, scope: string, resource: Attrs, now: nat, point: Point)

  datatype Verdict = Drop | Store(point: Point)

  /** Getters of the other number type return zero. */
  function AddNumber(incoming: Number, stored: Number): Number {
    match incoming
    case NoNumber => NoNumber
    case IntNumber(i) => IntNumber(AddI64(i, if stored.IntNumber? then stored.i else 0))
    case DoubleNumber(d) => DoubleNumber(d + if stored.DoubleNumber? then stored.d else 0.0)
  }

  function AddNumberValue(incoming: Payload, stored: Payload): Payload {
    if incoming.NumberValue? && stored.NumberValue?
    then NumberValue(AddNumber(incoming.number, stored.number)) else incoming
  }

  /** Sums that are not accumulated at all, and metric types the exporter does not know. */
  predicate Gated(kind: Kind) {
    match kind
    case Sum(t, monotonic) => t.Unspecified? || (t.Delta? && !monotonic)
    case Empty => true
    case ExponentialHistogram => true
    case _ => false
  }

  /** What is stored, if anything, when `ip` meets the stored point. */
  function Decide(kind: Kind, stored: Option<Point>, ip: Point): Verdict {
    if stored.None? then Store(ip) else
      var pp := stored.value;
      match kind
      case Sum(t, _) =>
        if ip.time < pp.time then Drop
        else if t.Delta? && ip.start == pp.time
        then Store(ip.(start := pp.start, payload := AddNumberValue(ip.payload, pp.payload)))
        else Store(ip)
      case Histogram(t) =>
        if t.Delta? then
          if ip.start == pp.time then Store(Merged(pp, ip))
          else if ip.start > pp.time then Store(ip)
          else Drop
        else if t.Cumulative? then if ip.time < pp.time then Drop else Store(ip)
        else Drop
      case _ => if ip.time < pp.time then Drop else Store(ip)
  }

  /** Sums and histograms are stored as cumulative. */
  function StoredKind(kind: Kind): Kind {
    match kind
    case Sum(_, monotonic) => Sum(Cumulative, monotonic)
    case Histogram(_) => Histogram(Cumulative)
    case _ => kind
  }

  function EntryOf(a: Arrival, p: Point): Entry {
    Entry(Metric(a.meta, StoredKind(a.kind), [p]), a.resource, a.scope, a.now)
  }

  function StoredPoint(prev: Option<Entry>): Option<Point> {
    if prev.Some? && prev.value.value.points != [] then Some(prev.value.value.points[0]) else None
  }

  /** A no-recorded-value point deletes its series. */
  function SeriesStep(prev: Option<Entry>, a: Arrival): Option<Entry> {
    if a.point.noRecordedValue then None else
      match Decide(a.kind, StoredPoint(prev), a.point)
      case Drop => prev
      case Store(p) => Some(EntryOf(a, p))
  }

  function Lookup(reg: Register, s: string): Option<Entry> {
    if s in reg then Some(reg[s]) else None
  }

  function Update(reg: Register, s: string, e: Option<Entry>): Register {
    if e.Some? then reg[s := e.value] else reg - {s}
  }

  function Apply(reg: Register, a: Arrival): Register {
    Update(reg, a.sig, SeriesStep(Lookup(reg, a.sig), a))
  }

  function Fold(reg: Register, xs: seq<Arrival>): Register {
    if xs == [] then reg else Apply(Fold(reg, xs[..|xs| - 1]), xs[|xs| - 1])
  }

  /** The accumulation of a single series. */
  function SeriesRun(prev: Option<Entry>, xs: seq<Arrival>): Option<Entry> {
    if xs == [] then prev else SeriesStep(SeriesRun(prev, xs[..|xs| - 1]), xs[|xs| - 1])
  }

  lemma FoldStep(reg: Register, xs: seq<Arrival>, i: nat)
    requires i < |xs|
    ensures Fold(reg, xs[..i + 1]) == Apply(Fold(reg, xs[..i]), xs[i])
  {
    assert xs[..i + 1][..i] == xs[..i];
  }

  lemma {:induction false} FoldConcat(reg: Register, xs: seq<Arrival>, ys: seq<Arrival>)
    ensures Fold(reg, xs + ys) == Fold(Fold(reg, xs), ys)
  {
    if ys == [] {
      assert xs + ys == xs;
    } else {
      var b := ys[..|ys| - 1];
      assert (xs + ys)[..|xs + ys| - 1] == xs + b;
      FoldConcat(reg, xs, b);
    }
  }

  // ---------- From a metric to its arrivals ----------

  /** All that the points of one metric share. */
  datatype Origin = Origin(kind: Kind, meta: Meta, scope: string, resource: Attrs, now: nat)

  function ArrivalOf(h: Origin, p: Point): Arrival {
    Arrival(TimeseriesSignature(Series(h.scope, h.kind, h.meta.name, p.attrs, h.resource)),
            h.kind, h.meta, h.scope, h.resource, h.now, p)
  }

  /** How many points of a metric are visited: all, or up to the first no-recorded-value point. */
  function Cut(points: seq<Point>): (c: nat)
    ensures c <= |points|
    ensures forall i | 0 <= i < c - 1 :: !points[i].noRecordedValue
    ensures c < |points| ==> c > 0 && points[c - 1].noRecordedValue
  {
    if points == [] then 0 else if points[0].noRecordedValue then 1 else 1 + Cut(points[1..])
  }

  function Live(h: Origin, points: seq<Point>): seq<Arrival> {
    if Gated(h.kind) then [] else seq(Cut(points), i requires 0 <= i < Cut(points) => ArrivalOf(h, points[i]))
  }

  /** One if the arrival is stored, else zero. */
  function StoreCount(reg: Register, a: Arrival): nat {
    if !a.point.noRecordedValue && Decide(a.kind, StoredPoint(Lookup(reg, a.sig)), a.point).Store? then 1 else 0
  }

  /** Number of arrivals that are stored. */
  function CountStores(reg: Register, xs: seq<Arrival>): nat {
    if xs == [] then 0 else
      var init, a := xs[..|xs| - 1], xs[|xs| - 1];
      CountStores(reg, init) + StoreCount(Fold(reg, init), a)
  }

  lemma CountStep(reg: Register, xs: seq<Arrival>, i: nat)
    requires i < |xs|
    ensures CountStores(reg, xs[..i + 1]) == CountStores(reg, xs[..i]) + StoreCount(Fold(reg, xs[..i]), xs[i])
  {
    assert xs[..i + 1][..i] == xs[..i];
  }

  /** The number reported for a metric: zero as soon as it holds a no-recorded-value point. */
  function Processed(reg: Register, h: Origin, points: seq<Point>): nat {
    if exists i | 0 <= i < |points| :: points[i].noRecordedValue then 0 else CountStores(reg, Live(h, points))
  }

  function RewrittenPoint(reg: Register, a: Arrival): Point {
    if a.kind.Sum? && !a.point.noRecordedValue then
      match Decide(a.kind, StoredPoint(Lookup(reg, a.sig)), a.point)
      case Drop => a.point
      case Store(p) => p
    else a.point
  }

  /** The points of a metric once the first n are visited: stored sum points are rewritten in place. */
  function RewrittenUpTo(reg: Register, h: Origin, points: seq<Point>, n: nat): seq<Point> {
    var xs := Live(h, points);
    seq(|points|, i requires 0 <= i < |points| =>
          if i < n && i < |xs| then RewrittenPoint(Fold(reg, xs[..i]), xs[i]) else points[i])
  }

  function Rewritten(reg: Register, h: Origin, points: seq<Point>): seq<Point> {
    RewrittenUpTo(reg, h, points, |points|)
  }

  // ---------- Panic freedom and well-formedness ----------

  /** The step does not read a bucket that is not there. */
  predicate StepSafe(prev: Option<Point>, a: Arrival) {
    a.kind == Histogram(Delta) && !a.point.noRecordedValue && prev.Some? && a.point.start == prev.value.time
    ==> MergeDefined(prev.value, a.point)
  }

  predicate RunSafe(reg: Register, xs: seq<Arrival>) {
    forall k | 0 <= k < |xs| :: StepSafe(StoredPoint(Lookup(Fold(reg, xs[..k]), xs[k].sig)), xs[k])
  }

  lemma RunSafeSplit(reg: Register, xs: seq<Arrival>, ys: seq<Arrival>)
    requires RunSafe(reg, xs + ys)
    ensures RunSafe(reg, xs) && RunSafe(Fold(reg, xs), ys)
  {
    var zs := xs + ys;
    forall k | 0 <= k < |xs| ensures StepSafe(StoredPoint(Lookup(Fold(reg, xs[..k]), xs[k].sig)), xs[k]) {
      assert zs[k] == xs[k] && zs[..k] == xs[..k];
    }
    forall k | 0 <= k < |ys| ensures StepSafe(StoredPoint(Lookup(Fold(Fold(reg, xs), ys[..k]), ys[k].sig)), ys[k]) {
      assert zs[|xs| + k] == ys[k] && zs[..|xs| + k] == xs + ys[..k];
      FoldConcat(reg, xs, ys[..k]);
    }
  }

  lemma RunSafePart(reg: Register, xs: seq<Arrival>, ys: seq<Arrival>, all: seq<Arrival>)
    requires RunSafe(reg, all) && xs + ys <= all
    ensures RunSafe(Fold(reg, xs), ys)
  {
    var zs := xs + ys;
    assert all == zs + all[|zs|..];
    RunSafeSplit(reg, zs, all[|zs|..]);
    RunSafeSplit(reg, xs, ys);
  }

  /** An entry belongs under its key: the key names its type, it is cumulative and holds one point of that type. */
  predicate EntryFits(s: string, e: Entry) {
    && FirstField(s) == TypeName(e.value.kind)
    && StoredKind(e.value.kind) == e.value.kind
    && |e.value.points| == 1
    && PayloadFits(e.value.kind, e.value.points[0].payload)
    && !e.value.points[0].noRecordedValue
  }

  predicate WellFormed(reg: Register) {
    forall s | s in reg :: EntryFits(s, reg[s])
  }

  predicate ArrivalFits(a: Arrival) {
    FirstField(a.sig) == TypeName(a.kind) && PayloadFits(a.kind, a.point.payload) && !Gated(a.kind)
  }

  lemma LiveFits(h: Origin, points: seq<Point>)
    requires PointsFit(h.kind, points)
    ensures forall i | 0 <= i < |Live(h, points)| :: ArrivalFits(Live(h, points)[i])
  {
    forall i | 0 <= i < |Live(h, points)| ensures ArrivalFits(Live(h, points)[i]) {
      SignatureStartsWithType(Series(h.scope, h.kind, h.meta.name, points[i].attrs, h.resource));
    }
  }

  lemma TypeNameDetermines(k: Kind, k': Kind)
    requires TypeName(k) == TypeName(k')
    ensures k.Gauge? == k'.Gauge? && k.Sum? == k'.Sum? && k.Histogram? == k'.Histogram? && k.Summary? == k'.Summary?
  {
    assert |TypeName(k)| == |TypeName(k')| && TypeName(k)[0] == TypeName(k')[0];
  }

  /** Each step keeps an entry under its key, so typed accessors never meet another type. */
  lemma StepFits(prev: Option<Entry>, a: Arrival)
    requires ArrivalFits(a) && (prev.Some? ==> EntryFits(a.sig, prev.value))
    ensures var next := SeriesStep(prev, a); next.Some? ==> EntryFits(a.sig, next.value)
  {
    if prev.Some? { TypeNameDetermines(a.kind, prev.value.value.kind); }
  }

  lemma ApplyFits(reg: Register, a: Arrival)
    requires WellFormed(reg) && ArrivalFits(a)
    ensures WellFormed(Apply(reg, a))
  {
    StepFits(Lookup(reg, a.sig), a);
  }
}
