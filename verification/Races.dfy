/** When overlapping calls on one series end as if run one after the other, in some order. */
module Races {
  import opened Sequences
  import opened Machine
  import opened Attributes
  import opened Metrics
  import opened HistogramMerge
  import opened Accumulation
  import opened LastWriterWins
  import opened DeltaSums
  import opened DeltaHistograms
  import opened Interleaving

  // ---------- Two accumulating calls ----------

  /** Calls t and u each have one point for the same series, and neither has loaded yet. */
  predicate TwoCalls(s: State, t: nat, u: nat, a: Arrival, b: Arrival) {
    && t < |s.threads| && u < |s.threads| && t != u && a.sig == b.sig
    && s.threads[t] == Accumulating([a], None) && s.threads[u] == Accumulating([b], None)
    && !a.point.noRecordedValue && !b.point.noRecordedValue
  }

  predicate Stored(prev: Option<Entry>, a: Arrival) {
    Decide(a.kind, StoredPoint(prev), a.point).Store?
  }

  /** What is left when both calls load before either stores. */
  function Overlapped(prev: Option<Entry>, a: Arrival, b: Arrival): Option<Entry> {
    if Stored(prev, b) then SeriesStep(prev, b) else SeriesStep(prev, a)
  }

  lemma OverlapResult(s: State, t: nat, u: nat, a: Arrival, b: Arrival)
    requires TwoCalls(s, t, u, a, b)
    ensures Run(s, [Load(t), Load(u), Finish(t), Finish(u)]).reg
         == Update(s.reg, a.sig, Overlapped(Lookup(s.reg, a.sig), a, b))
  {
    hide Step, Decide;
    var prev := Lookup(s.reg, a.sig);
    var s1, s2 := Step(s, Load(t)), Step(Step(s, Load(t)), Load(u));
    assert [Load(t), Load(u), Finish(t), Finish(u)] == [Load(t), Load(u)] + [Finish(t), Finish(u)];
    RunConcat(s, [Load(t), Load(u)], [Finish(t), Finish(u)]);
    RunPair(s, Load(t), Load(u));
    RunPair(s2, Finish(t), Finish(u));
    Loads(s, t, a);
    Loads(s1, u, b);
    Finishes(s2, t, a, prev);
    Finishes(Step(s2, Finish(t)), u, b, prev);
    assert Update(s.reg, a.sig, prev) == s.reg;
  }

  /** The order of the two loads makes no difference. */
  lemma LoadsCommute(s: State, t: nat, u: nat, a: Arrival, b: Arrival)
    requires TwoCalls(s, t, u, a, b)
    ensures Run(s, [Load(u), Load(t), Finish(t), Finish(u)]) == Run(s, [Load(t), Load(u), Finish(t), Finish(u)])
  {
    hide Step;
    assert [Load(t), Load(u), Finish(t), Finish(u)] == [Load(t), Load(u)] + [Finish(t), Finish(u)];
    assert [Load(u), Load(t), Finish(t), Finish(u)] == [Load(u), Load(t)] + [Finish(t), Finish(u)];
    RunConcat(s, [Load(t), Load(u)], [Finish(t), Finish(u)]);
    RunConcat(s, [Load(u), Load(t)], [Finish(t), Finish(u)]);
    RunPair(s, Load(t), Load(u));
    RunPair(s, Load(u), Load(t));
    Loads(s, t, a);
    Loads(s, u, b);
    Loads(Step(s, Load(t)), u, b);
    Loads(Step(s, Load(u)), t, a);
    assert Step(Step(s, Load(t)), Load(u)).threads == Step(Step(s, Load(u)), Load(t)).threads;
  }

  lemma Loads(s: State, t: nat, a: Arrival)
    requires t < |s.threads| && s.threads[t] == Accumulating([a], None) && !a.point.noRecordedValue
    ensures Step(s, Load(t)) == WithThread(s, t, Accumulating([a], Some(Lookup(s.reg, a.sig))))
  {}

  lemma Finishes(s: State, t: nat, a: Arrival, prev: Option<Entry>)
    requires t < |s.threads| && s.threads[t] == Accumulating([a], Some(prev)) && !a.point.noRecordedValue
    ensures Step(s, Finish(t)).threads == s.threads[t := Accumulating([], None)]
    ensures var d := Decide(a.kind, StoredPoint(prev), a.point);
      Step(s, Finish(t)).reg == if d.Store? then s.reg[a.sig := EntryOf(a, d.point)] else s.reg
  {
    assert [a][1..] == [];
  }

  lemma UpdateInjective(reg: Register, s: string, e: Option<Entry>, e': Option<Entry>)
    ensures Update(reg, s, e) == Update(reg, s, e') <==> e == e'
  {
    assert Lookup(Update(reg, s, e), s) == e && Lookup(Update(reg, s, e'), s) == e';
  }

  /** The overlapped calls end as if t's call came first. */
  ghost predicate InOrder(s: State, t: nat, u: nat, a: Arrival, b: Arrival) {
    Run(s, [Load(t), Load(u), Finish(t), Finish(u)]).reg == Apply(Apply(s.reg, a), b)
  }

  /** The overlapped calls end as if run one after the other, in one order or the other. */
  ghost predicate Serial(s: State, t: nat, u: nat, a: Arrival, b: Arrival) {
    InOrder(s, t, u, a, b) || Run(s, [Load(t), Load(u), Finish(t), Finish(u)]).reg == Apply(Apply(s.reg, b), a)
  }

  lemma ApplyTwice(reg: Register, a: Arrival, b: Arrival, e: Option<Entry>)
    requires a.sig == b.sig
    ensures Update(reg, a.sig, e) == Apply(Apply(reg, a), b) <==> e == SeriesStep(SeriesStep(Lookup(reg, a.sig), a), b)
  {
    hide SeriesStep;
    var one := SeriesStep(Lookup(reg, a.sig), a);
    assert Lookup(Apply(reg, a), a.sig) == one;
    assert Apply(Apply(reg, a), b) == Update(reg, a.sig, SeriesStep(one, b));
    UpdateInjective(reg, a.sig, e, SeriesStep(one, b));
  }

  lemma SerialIff(s: State, t: nat, u: nat, a: Arrival, b: Arrival)
    requires TwoCalls(s, t, u, a, b)
    ensures var prev := Lookup(s.reg, a.sig);
      && (InOrder(s, t, u, a, b) <==> Overlapped(prev, a, b) == SeriesStep(SeriesStep(prev, a), b))
      && (Serial(s, t, u, a, b) <==>
            || Overlapped(prev, a, b) == SeriesStep(SeriesStep(prev, a), b)
            || Overlapped(prev, a, b) == SeriesStep(SeriesStep(prev, b), a))
  {
    hide SeriesStep, Overlapped, Run;
    var e := Overlapped(Lookup(s.reg, a.sig), a, b);
    OverlapResult(s, t, u, a, b);
    ApplyTwice(s.reg, a, b, e);
    ApplyTwice(s.reg, b, a, e);
  }

  /** Gauges, summaries and cumulative metrics: a newer point is lost to an older one that is stored after it. */
  lemma LatestRace(s: State, t: nat, u: nat, a: Arrival, b: Arrival)
    requires TwoCalls(s, t, u, a, b) && ByTimestamp(a.kind) && ByTimestamp(b.kind)
    ensures Serial(s, t, u, a, b) <==> a.point.time <= b.point.time || !Stored(Lookup(s.reg, a.sig), b)
    ensures Serial(s, t, u, a, b) <==> InOrder(s, t, u, a, b)
  {
    SerialIff(s, t, u, a, b);
    hide Run, Serial, InOrder;
  }

  /** The stored point ends where b starts. */
  predicate Continues(prev: Option<Entry>, b: Arrival) {
    StoredPoint(prev).Some? && b.point.start == StoredPoint(prev).value.time
  }

  predicate IntervalStored(prev: Option<Entry>) {
    StoredPoint(prev).Some? ==> StoredPoint(prev).value.start < StoredPoint(prev).value.time
  }

  /** a is what b adds up to with the stored point. */
  predicate AddsUpTo(prev: Option<Entry>, b: Arrival, a: Arrival) {
    StoredPoint(prev).Some? && var p := StoredPoint(prev).value;
    a == b.(point := b.point.(start := p.start, payload := AddNumberValue(b.point.payload, p.payload)))
  }

  /** Delta sums: unless one of the two is too late to count at all, the point stored last must also end last. If both
      end together it must not continue what was stored before, or must add up with that to the other. */
  lemma SumRace(s: State, t: nat, u: nat, a: Arrival, b: Arrival)
    requires TwoCalls(s, t, u, a, b) && DeltaSum(a) && DeltaSum(b)
    requires a.point.start < a.point.time && b.point.start < b.point.time && IntervalStored(Lookup(s.reg, a.sig))
    ensures var prev := Lookup(s.reg, a.sig);
      Serial(s, t, u, a, b) <==>
        || !Stored(prev, a) || !Stored(prev, b) || a.point.time < b.point.time
        || (a.point.time == b.point.time && (!Continues(prev, b) || AddsUpTo(prev, b, a)))
  {
    SerialIff(s, t, u, a, b);
    hide Run, Serial, InOrder, AddNumberValue;
  }

  /** Delta histograms: unless one of the two overlaps what is stored, the point stored last must end after the other
      starts. */
  lemma HistogramRace(s: State, t: nat, u: nat, a: Arrival, b: Arrival)
    requires TwoCalls(s, t, u, a, b) && AnyDeltaHistogram(a) && AnyDeltaHistogram(b)
    requires var p := StoredPoint(Lookup(s.reg, a.sig)); StepSafe(p, a) && StepSafe(p, b)
    ensures var prev := Lookup(s.reg, a.sig);
      Serial(s, t, u, a, b) <==> !Stored(prev, a) || !Stored(prev, b) || a.point.start < b.point.time
  {
    SerialIff(s, t, u, a, b);
    hide Run, Serial, InOrder, MergedValue;
  }

  /** A point of the integer counter "s". */
  function Increment(s: string, start: nat, time: nat, i: I64): Arrival {
    Arrival(s, Sum(Delta, true), Meta("s", "", ""), "", [], 0, Point([], start, time, false, NumberValue(IntNumber(i))))
  }

  /** Two calls count 2 over [10, 20] and 1 over [0, 10]. In one order 3 over [0, 20] is stored, in the other 2 over
      [10, 20]; overlapped, only 1 over [0, 10] may remain. */
  lemma LostIncrement(sig: string)
    ensures var a, b := Increment(sig, 10, 20, 2), Increment(sig, 0, 10, 1);
      var s := State(map[], [Accumulating([a], None), Accumulating([b], None)]);
      && !Serial(s, 0, 1, a, b)
      && Run(s, [Load(0), Load(1), Finish(0), Finish(1)]).reg == map[sig := EntryOf(b, b.point)]
      && Apply(Apply(s.reg, a), b) == map[sig := EntryOf(a, a.point)]
      && Apply(Apply(s.reg, b), a) == map[sig := EntryOf(a, Increment(sig, 0, 20, 3).point)]
  {
    hide Run;
    var a, b := Increment(sig, 10, 20, 2), Increment(sig, 0, 10, 1);
    var s := State(map[], [Accumulating([a], None), Accumulating([b], None)]);
    OverlapResult(s, 0, 1, a, b);
    SumRace(s, 0, 1, a, b);
  }

  // ---------- An accumulating call and a marker ----------

  /** Call t has a point for a series, call u a marker. */
  predicate CallAndMarker(s: State, t: nat, u: nat, a: Arrival, m: Arrival) {
    && t < |s.threads| && u < |s.threads| && t != u && a.sig == m.sig
    && s.threads[t] == Accumulating([a], None) && s.threads[u] == Accumulating([m], None)
    && !a.point.noRecordedValue && m.point.noRecordedValue
  }

  predicate DeltaKind(kind: Kind) {
    match kind
    case Sum(t, _) => t.Delta?
    case Histogram(t) => t.Delta?
    case _ => false
  }

  /** The point is stored as if nothing were stored before. */
  predicate StoredAlone(prev: Option<Entry>, a: Arrival) {
    SeriesStep(prev, a) == SeriesStep(None, a)
  }

  lemma Forgets(s: State, u: nat, m: Arrival)
    requires u < |s.threads| && s.threads[u] == Accumulating([m], None) && m.point.noRecordedValue
    ensures Step(s, DeleteMarked(u)) == WithThread(s, u, Accumulating([], None)).(reg := s.reg - {m.sig})
  {
    assert [m][1..] == [];
  }

  lemma MarkerBetween(s: State, t: nat, u: nat, a: Arrival, m: Arrival)
    requires CallAndMarker(s, t, u, a, m)
    ensures var prev := Lookup(s.reg, a.sig);
      Run(s, [Load(t), DeleteMarked(u), Finish(t)]).reg
        == Update(s.reg, a.sig, if Stored(prev, a) then SeriesStep(prev, a) else None)
  {
    hide Step, Decide;
    var prev, s1 := Lookup(s.reg, a.sig), Step(s, Load(t));
    var s2 := Step(s1, DeleteMarked(u));
    assert [Load(t), DeleteMarked(u), Finish(t)] == [Load(t)] + [DeleteMarked(u), Finish(t)];
    RunConcat(s, [Load(t)], [DeleteMarked(u), Finish(t)]);
    RunPair(s, Load(t), DeleteMarked(u));
    RunPair(s1, DeleteMarked(u), Finish(t));
    Loads(s, t, a);
    Forgets(s1, u, m);
    Finishes(s2, t, a, prev);
  }

  /** A marker between a point's load and store leaves what one of the two orders leaves exactly if the point is dropped
      or does not continue the series that the marker ended. */
  lemma MarkerRace(s: State, t: nat, u: nat, a: Arrival, m: Arrival)
    requires CallAndMarker(s, t, u, a, m)
    ensures var prev, end := Lookup(s.reg, a.sig), Run(s, [Load(t), DeleteMarked(u), Finish(t)]).reg;
      (end == Apply(Apply(s.reg, a), m) || end == Apply(Apply(s.reg, m), a)) <==>
        !Stored(prev, a) || StoredAlone(prev, a)
    ensures var prev := Lookup(s.reg, a.sig);
      IntervalStored(prev) && Stored(prev, a) ==>
        (StoredAlone(prev, a) <==> !DeltaKind(a.kind) || !Continues(prev, a))
  {
    var prev := Lookup(s.reg, a.sig);
    var e := if Stored(prev, a) then SeriesStep(prev, a) else None;
    MarkerBetween(s, t, u, a, m);
    ApplyTwice(s.reg, a, m, e);
    ApplyTwice(s.reg, m, a, e);
    hide Run, MergedValue, AddNumberValue;
  }

  /** The total of an ended counter comes back: 1 over [0, 10] is ended, yet 3 over [0, 20] is stored. */
  lemma EndedTotalReturns(sig: string, m: Arrival)
    requires m.sig == sig && m.point.noRecordedValue
    ensures var ended, a := Increment(sig, 0, 10, 1), Increment(sig, 10, 20, 2);
      var s := State(map[sig := EntryOf(ended, ended.point)], [Accumulating([a], None), Accumulating([m], None)]);
      Run(s, [Load(0), DeleteMarked(1), Finish(0)]).reg == map[sig := EntryOf(a, Increment(sig, 0, 20, 3).point)]
  {
    hide Run;
    var ended, a := Increment(sig, 0, 10, 1), Increment(sig, 10, 20, 2);
    var s := State(map[sig := EntryOf(ended, ended.point)], [Accumulating([a], None), Accumulating([m], None)]);
    MarkerBetween(s, 0, 1, a, m);
  }

  // ---------- An accumulating call and a scrape ----------

  /** Thread t is about to store a point into the expired series `key`, and thread u is about to visit it. */
  predicate CallAndScrape(s: State, t: nat, u: nat, a: Arrival) {
    && t < |s.threads| && s.threads[t] == Accumulating([a], None) && !a.point.noRecordedValue
    && ReadyCollect(s, u, false) && a.sig in s.reg && a.sig !in s.threads[u].visited
    && s.threads[u].expirationTime > s.reg[a.sig].updated
  }

  /** A scrape that has found an entry expired deletes whatever is stored under its key by then, and does so to a fresh
      entry exactly when a fresh point was stored in between. */
  lemma ScrapeRace(s: State, t: nat, u: nat, a: Arrival)
    requires CallAndScrape(s, t, u, a)
    ensures var mid := Run(s, [Visit(u, a.sig), Load(t), Finish(t)]);
      && ReadyCollect(mid, u, true) && mid.threads[u].doomed == Some(a.sig) && a.sig in mid.reg
      && Step(mid, DeleteExpired(u)).reg == s.reg - {a.sig}
      && (mid.reg[a.sig].updated >= s.threads[u].expirationTime <==>
          Stored(Lookup(s.reg, a.sig), a) && a.now >= s.threads[u].expirationTime)
  {
    hide Step, Decide;
    var prev, seen := Lookup(s.reg, a.sig), Step(s, Visit(u, a.sig));
    Dooms(s, u, a.sig);
    assert [Visit(u, a.sig), Load(t), Finish(t)] == [Visit(u, a.sig)] + [Load(t), Finish(t)];
    RunConcat(s, [Visit(u, a.sig)], [Load(t), Finish(t)]);
    RunPair(s, Visit(u, a.sig), Load(t));
    RunPair(seen, Load(t), Finish(t));
    Loads(seen, t, a);
    Finishes(Step(seen, Load(t)), t, a, prev);
    Removes(Step(Step(seen, Load(t)), Finish(t)), u, a.sig);
    assert Step(Step(seen, Load(t)), Finish(t)).reg - {a.sig} == s.reg - {a.sig};
  }

  lemma Dooms(s: State, u: nat, key: string)
    requires ReadyCollect(s, u, false) && key in s.reg && key !in s.threads[u].visited
    requires s.threads[u].expirationTime > s.reg[key].updated
    ensures Step(s, Visit(u, key))
         == WithThread(s, u, s.threads[u].(visited := s.threads[u].visited + {key}, doomed := Some(key)))
  {}

  lemma Removes(s: State, u: nat, key: string)
    requires ReadyCollect(s, u, true) && s.threads[u].doomed == Some(key)
    ensures Step(s, DeleteExpired(u)) == WithThread(s, u, s.threads[u].(doomed := None)).(reg := s.reg - {key})
  {}

  /** A whole scrape of one key. */
  function Swept(reg: Register, key: string, expirationTime: int): Register {
    if key in reg && expirationTime > reg[key].updated then reg - {key} else reg
  }

  /** As if the call ran before the scrape of its key, or after it. */
  predicate SerialScrape(s: State, u: nat, a: Arrival, end: Register)
    requires u < |s.threads| && s.threads[u].Collecting?
  {
    var e := s.threads[u].expirationTime;
    end == Swept(Apply(s.reg, a), a.sig, e) || end == Apply(Swept(s.reg, a.sig, e), a)
  }

  lemma SerialScrapeIff(s: State, t: nat, u: nat, a: Arrival, e: Option<Entry>)
    requires CallAndScrape(s, t, u, a)
    ensures var prev := Lookup(s.reg, a.sig);
      SerialScrape(s, u, a, Update(s.reg, a.sig, e)) <==>
        || e == SeriesStep(None, a)
        || e == if Stored(prev, a) && a.now >= s.threads[u].expirationTime then SeriesStep(prev, a) else None
  {
    hide Decide;
    var k, exp, prev := a.sig, s.threads[u].expirationTime, Lookup(s.reg, a.sig);
    var after := if Stored(prev, a) && a.now >= exp then SeriesStep(prev, a) else None;
    assert Swept(Apply(s.reg, a), k, exp) == Update(s.reg, k, after);
    assert Apply(Swept(s.reg, k, exp), a) == Update(s.reg, k, SeriesStep(None, a));
    UpdateInjective(s.reg, k, e, after);
    UpdateInjective(s.reg, k, e, SeriesStep(None, a));
  }

  /** Deleting what a call stored since the visit is as good as scraping after the call exactly if the call stored
      nothing, or nothing fresh. */
  lemma ScrapeAroundCall(s: State, t: nat, u: nat, a: Arrival)
    requires CallAndScrape(s, t, u, a)
    ensures SerialScrape(s, u, a, Step(Run(s, [Visit(u, a.sig), Load(t), Finish(t)]), DeleteExpired(u)).reg) <==>
      !Stored(Lookup(s.reg, a.sig), a) || a.now < s.threads[u].expirationTime
  {
    ScrapeRace(s, t, u, a);
    SerialScrapeIff(s, t, u, a, None);
    hide Run;
  }

  lemma ScrapeBetween(s: State, t: nat, u: nat, a: Arrival)
    requires CallAndScrape(s, t, u, a)
    ensures var prev := Lookup(s.reg, a.sig);
      Run(s, [Load(t), Visit(u, a.sig), DeleteExpired(u), Finish(t)]).reg
        == Update(s.reg, a.sig, if Stored(prev, a) then SeriesStep(prev, a) else None)
  {
    hide Step, Decide;
    var k, prev, s1 := a.sig, Lookup(s.reg, a.sig), Step(s, Load(t));
    var s2 := Step(s1, Visit(u, k));
    var s3 := Step(s2, DeleteExpired(u));
    var early, late := [Load(t), Visit(u, k)], [DeleteExpired(u), Finish(t)];
    assert [Load(t), Visit(u, k), DeleteExpired(u), Finish(t)] == early + late;
    RunConcat(s, early, late);
    RunPair(s, Load(t), Visit(u, k));
    RunPair(s2, DeleteExpired(u), Finish(t));
    Loads(s, t, a);
    Dooms(s1, u, k);
    Removes(s2, u, k);
    Finishes(s3, t, a, prev);
  }

  /** A whole scrape between a point's load and store is harmless exactly if the point is dropped, is fresh, or does not
      continue the series that the scrape ended. */
  lemma ScrapeInsideCall(s: State, t: nat, u: nat, a: Arrival)
    requires CallAndScrape(s, t, u, a)
    ensures var prev := Lookup(s.reg, a.sig);
      SerialScrape(s, u, a, Run(s, [Load(t), Visit(u, a.sig), DeleteExpired(u), Finish(t)]).reg) <==>
        !Stored(prev, a) || a.now >= s.threads[u].expirationTime || StoredAlone(prev, a)
    ensures var prev := Lookup(s.reg, a.sig);
      IntervalStored(prev) && Stored(prev, a) ==>
        (StoredAlone(prev, a) <==> !DeltaKind(a.kind) || !Continues(prev, a))
  {
    var prev := Lookup(s.reg, a.sig);
    ScrapeBetween(s, t, u, a);
    SerialScrapeIff(s, t, u, a, if Stored(prev, a) then SeriesStep(prev, a) else None);
    hide Run, SerialScrape, MergedValue, AddNumberValue;
  }

  /** The action stores a fresh entry under the key. */
  predicate StoresFresh(s: State, act: Action, key: string, expirationTime: int) {
    exists x :: x in Stores(s, act) && x.0 == key && x.1.updated >= expirationTime
  }

  predicate Deletes(s: State, act: Action, key: string) {
    || (act.DeleteMarked? && ReadyPoint(s, act.t, false, true) && s.threads[act.t].todo[0].sig == key)
    || (act.DeleteExpired? && ReadyCollect(s, act.t, true) && s.threads[act.t].doomed == Some(key))
  }

  /** The action stores or deletes the entry of the key. */
  predicate Touches(s: State, act: Action, key: string) {
    Deletes(s, act, key) || exists x :: x in Stores(s, act) && x.0 == key
  }

  predicate Fresh(reg: Register, key: string, expirationTime: int) {
    key in reg && reg[key].updated >= expirationTime
  }

  lemma TouchStep(s: State, act: Action, key: string, expirationTime: int)
    ensures Fresh(Step(s, act).reg, key, expirationTime) <==>
      StoresFresh(s, act, key, expirationTime) || (Fresh(s.reg, key, expirationTime) && !Touches(s, act, key))
  {
    hide Decide;
    if x :| x in Stores(s, act) && x.0 == key {
      assert Step(s, act).reg[key] == x.1 && !Deletes(s, act, key);
    }
  }

  /** Action i stores a fresh entry under the key, and nothing touches the key after that. */
  predicate StoredLast(s: State, acts: seq<Action>, i: nat, key: string, expirationTime: int) {
    i < |acts| && StoresFresh(Run(s, acts[..i]), acts[i], key, expirationTime)
    && forall j | i < j < |acts| :: !Touches(Run(s, acts[..j]), acts[j], key)
  }

  predicate LeavesAlone(u: nat, act: Action) {
    act.StartAccumulate? || act.StartCollect? || act.t != u
  }

  lemma OthersKeepThread(s: State, u: nat, act: Action)
    requires u < |s.threads| && LeavesAlone(u, act)
    ensures u < |Step(s, act).threads| && Step(s, act).threads[u] == s.threads[u]
  {}

  /** When a scrape deletes an entry that has not expired: exactly when, since it visited the expired entry, some call
      stored a fresh one and nothing has touched the key since. */
  lemma {:induction false} FreshDeleted(s: State, u: nat, acts: seq<Action>, key: string)
    requires ReadyCollect(s, u, true) && s.threads[u].doomed == Some(key)
    requires !Fresh(s.reg, key, s.threads[u].expirationTime)
    requires forall act | act in acts :: LeavesAlone(u, act)
    ensures var s' := Run(s, acts);
      && ReadyCollect(s', u, true) && s'.threads[u] == s.threads[u] && key !in Step(s', DeleteExpired(u)).reg
      && (Fresh(s'.reg, key, s.threads[u].expirationTime) <==>
          exists i: nat :: StoredLast(s, acts, i, key, s.threads[u].expirationTime))
  {
    hide StoresFresh, Touches, Fresh, LeavesAlone;
    if acts != [] {
      var n, e := |acts| - 1, s.threads[u].expirationTime;
      var init, act := acts[..n], acts[n];
      FreshDeleted(s, u, init, key);
      assert act in acts;
      OthersKeepThread(Run(s, init), u, act);
      TouchStep(Run(s, init), act, key, e);
      StoredLastStep(s, acts, key, e);
    }
  }

  lemma StoredLastPrefix(s: State, acts: seq<Action>, i: nat, key: string, expirationTime: int)
    requires i < |acts| - 1
    ensures var n := |acts| - 1;
      StoredLast(s, acts, i, key, expirationTime) <==>
        StoredLast(s, acts[..n], i, key, expirationTime) && !Touches(Run(s, acts[..n]), acts[n], key)
  {
    hide StoresFresh, Touches, Run;
    var init := acts[..|acts| - 1];
    forall j | 0 <= j < |init| ensures acts[..j] == init[..j] && acts[j] == init[j] {}
  }

  lemma StoredLastStep(s: State, acts: seq<Action>, key: string, expirationTime: int)
    requires acts != []
    ensures var n := |acts| - 1;
      (exists i: nat :: StoredLast(s, acts, i, key, expirationTime)) <==>
        StoresFresh(Run(s, acts[..n]), acts[n], key, expirationTime)
        || (!Touches(Run(s, acts[..n]), acts[n], key)
            && exists i: nat :: StoredLast(s, acts[..n], i, key, expirationTime))
  {
    hide StoredLast, StoresFresh, Touches, Run;
    var n := |acts| - 1;
    forall i: nat | i < n
      ensures StoredLast(s, acts, i, key, expirationTime) <==>
        StoredLast(s, acts[..n], i, key, expirationTime) && !Touches(Run(s, acts[..n]), acts[n], key)
    {
      StoredLastPrefix(s, acts, i, key, expirationTime);
    }
    StoredLastBounds(s, acts, key, expirationTime);
    StoredLastBounds(s, acts[..n], key, expirationTime);
  }

  lemma StoredLastBounds(s: State, acts: seq<Action>, key: string, expirationTime: int)
    ensures forall i: nat | StoredLast(s, acts, i, key, expirationTime) :: i < |acts|
    ensures acts != [] ==> (StoredLast(s, acts, |acts| - 1, key, expirationTime) <==>
              StoresFresh(Run(s, acts[..|acts| - 1]), acts[|acts| - 1], key, expirationTime))
  {
    hide StoresFresh, Touches, Run;
  }
}
