/** What concurrency does to the stored values: it can lose updates, and nothing else. */
module Concurrency {
  import opened Sequences
  import opened Machine
  import opened Metrics
  import opened HistogramMerge
  import opened Accumulation
  import opened SeriesIndependence
  import opened LastWriterWins
  import opened DeltaSums
  import opened DeltaHistograms
  import opened Interleaving
  import Reachability

  // ---------- Each delivered point is handled at most once ----------

  function Handled(s: State, act: Action): seq<Arrival> {
    if act.Finish? && ReadyPoint(s, act.t, true, false) then [s.threads[act.t].todo[0]] else []
  }

  /** The points a schedule has handled, in the order of their Finish actions. */
  function Log(acts: seq<Action>): seq<Arrival> {
    if acts == [] then [] else Log(acts[..|acts| - 1]) + Handled(Run(START, acts[..|acts| - 1]), acts[|acts| - 1])
  }

  /** The points the Accumulate calls of a schedule bring, each as often as it is delivered. */
  function Delivered(acts: seq<Action>): multiset<Arrival> {
    if acts == [] then multiset{} else
      var act := acts[|acts| - 1];
      Delivered(acts[..|acts| - 1]) + if act.StartAccumulate? then multiset(act.arrivals) else multiset{}
  }

  /** How often a point is still waiting to be handled. */
  function Waiting(threads: seq<Thread>, a: Arrival): nat {
    if threads == [] then 0 else Waiting(threads[..|threads| - 1], a) + TodoCount(threads[|threads| - 1], a)
  }

  function TodoCount(th: Thread, a: Arrival): nat {
    if th.Accumulating? then multiset(th.todo)[a] else 0
  }

  lemma {:induction false} WaitingUpdate(threads: seq<Thread>, t: nat, th: Thread, a: Arrival)
    requires t < |threads|
    ensures Waiting(threads[t := th], a) + TodoCount(threads[t], a) == Waiting(threads, a) + TodoCount(th, a)
  {
    hide TodoCount;
    var n, threads' := |threads| - 1, threads[t := th];
    if t < n {
      WaitingUpdate(threads[..n], t, th, a);
      assert threads'[..n] == threads[..n][t := th];
    } else {
      assert threads'[..n] == threads[..n];
    }
  }

  lemma TodoShrinks(todo: seq<Arrival>, a: Arrival)
    requires todo != []
    ensures multiset(todo)[a] == multiset([todo[0]])[a] + multiset(todo[1..])[a]
  {
    assert todo == [todo[0]] + todo[1..];
  }

  function Brought(act: Action, a: Arrival): nat {
    if act.StartAccumulate? then multiset(act.arrivals)[a] else 0
  }

  /** What an action does to the calls in progress. */
  lemma StepThreads(s: State, act: Action)
    ensures var ts := Step(s, act).threads;
      || (act.StartAccumulate? && ts == s.threads + [Accumulating(act.arrivals, None)] && Handled(s, act) == [])
      || (act.StartCollect? && |ts| == |s.threads| + 1 && ts[..|s.threads|] == s.threads && ts[|s.threads|].Collecting?)
      || (!act.StartAccumulate? && ts == s.threads && Handled(s, act) == [])
      || (!act.StartAccumulate? && !act.StartCollect? && act.t < |s.threads| == |ts|
          && ts == s.threads[act.t := ts[act.t]] && Advances(s.threads[act.t], ts[act.t], Handled(s, act)))
  {
    hide Decide;
    if act.StartAccumulate? || act.StartCollect? {
      assert Step(s, act).threads[..|s.threads|] == s.threads;
    }
  }

  /** A call goes on: an accumulating call keeps its points or drops the first, having handled it or not. */
  predicate Advances(th: Thread, next: Thread, handled: seq<Arrival>) {
    if th.Accumulating? then next.Accumulating? &&
      ((next.todo == th.todo && handled == [])
       || (th.todo != [] && next.todo == th.todo[1..] && handled <= [th.todo[0]]))
    else next.Collecting? && handled == []
  }

  lemma AdvanceAccounts(th: Thread, next: Thread, handled: seq<Arrival>, a: Arrival)
    requires Advances(th, next, handled)
    ensures multiset(handled)[a] + TodoCount(next, a) <= TodoCount(th, a)
  {
    if th.Accumulating? && th.todo != [] && next.todo == th.todo[1..] { TodoShrinks(th.todo, a); }
  }

  lemma StepAccounts(s: State, act: Action, a: Arrival)
    ensures multiset(Handled(s, act))[a] + Waiting(Step(s, act).threads, a) <= Waiting(s.threads, a) + Brought(act, a)
  {
    hide Step, Advances;
    var ts := Step(s, act).threads;
    StepThreads(s, act);
    if |ts| > |s.threads| {
      assert ts[..|s.threads|] == s.threads;
    } else if ts != s.threads || Handled(s, act) != [] {
      WaitingUpdate(s.threads, act.t, ts[act.t], a);
      AdvanceAccounts(s.threads[act.t], ts[act.t], Handled(s, act), a);
    }
  }

  /** A delivered point is handled at most once; until then it waits. */
  lemma {:induction false} Accounted(acts: seq<Action>, a: Arrival)
    ensures multiset(Log(acts))[a] + Waiting(Run(START, acts).threads, a) <= Delivered(acts)[a]
  {
    hide Step, Handled;
    if acts != [] {
      var init, act := acts[..|acts| - 1], acts[|acts| - 1];
      Accounted(init, a);
      StepAccounts(Run(START, init), act, a);
    }
  }

  // ---------- Every value is the sequential result of some of the handled points, in their order ----------

  predicate OfSeries(xs: seq<Arrival>, s: string) {
    forall a | a in xs :: a.sig == s && !a.point.noRecordedValue
  }

  /** Replaying some handled points of the series, in the order they were handled, gives the value. */
  predicate Replays(acts: seq<Action>, s: string, e: Entry, xs: seq<Arrival>) {
    Subsequence(xs, Log(acts)) && OfSeries(xs, s) && SeriesRun(None, xs) == Some(e)
  }

  lemma StoresHandled(s: State, act: Action, key: string, e: Entry) returns (a: Arrival, prev: Option<Entry>)
    requires (key, e) in Stores(s, act)
    ensures act.Finish? && ReadyPoint(s, act.t, true, false) && s.threads[act.t].loaded == Some(prev)
    ensures a == s.threads[act.t].todo[0] && Handled(s, act) == [a]
    ensures a.sig == key && !a.point.noRecordedValue && SeriesStep(prev, a) == Some(e)
  {
    hide Decide;
    a, prev := s.threads[act.t].todo[0], s.threads[act.t].loaded.value;
  }

  lemma ReplayMore(xs: seq<Arrival>, prev: Option<Entry>, a: Arrival, log: seq<Arrival>, s: string)
    requires Subsequence(xs, log) && OfSeries(xs, s) && SeriesRun(None, xs) == prev
    requires a.sig == s && !a.point.noRecordedValue
    ensures Subsequence(xs + [a], log + [a]) && OfSeries(xs + [a], s)
    ensures SeriesRun(None, xs + [a]) == SeriesStep(prev, a)
  {
    hide SeriesStep;
    assert (xs + [a])[..|xs|] == xs && (log + [a])[..|log|] == log;
  }

  lemma Skip(xs: seq<Arrival>, log: seq<Arrival>, more: seq<Arrival>)
    requires Subsequence(xs, log) && |more| <= 1
    ensures Subsequence(xs, log + more)
  {
    if |more| == 0 { assert log + more == log; } else { assert (log + more)[..|log|] == log; }
  }

  lemma {:induction false} Replay(acts: seq<Action>, s: string, e: Entry) returns (xs: seq<Arrival>)
    requires Legal(acts) && (s, e) in StoredBy(acts)
    ensures Replays(acts, s, e, xs)
    decreases |acts|
  {
    hide Step, SeriesStep, SeriesRun, Stores, Handled, Subsequence, OfSeries, EntryFits, ArrivalFits, Run;
    var init, act := acts[..|acts| - 1], acts[|acts| - 1];
    var state := Run(START, init);
    if (s, e) in StoredBy(init) {
      xs := Replay(init, s, e);
      HandledOne(state, act);
      Skip(xs, Log(init), Handled(state, act));
    } else {
      var a, prev := StoresHandled(state, act, s, e);
      InterleavingSafe(init);
      assert ThreadOk(state.threads[act.t], StoredBy(init));
      var ys: seq<Arrival> := [];
      EmptyReplay(s, Log(init));
      if prev.Some? { ys := Replay(init, s, prev.value); }
      xs := ys + [a];
      ReplayMore(ys, prev, a, Log(init), s);
    }
  }

  lemma HandledOne(s: State, act: Action)
    ensures |Handled(s, act)| <= 1
  {}

  lemma EmptyReplay(s: string, log: seq<Arrival>)
    ensures Subsequence([], log) && OfSeries([], s) && SeriesRun(None, []) == None
  {}

  /** Only losses: under every interleaving each value ever stored, and so each value in the register, loaded or
      collected, is the sequential result of some of the delivered points, none used more often than it was
      delivered. */
  lemma OnlyLosses(acts: seq<Action>, s: string, e: Entry) returns (xs: seq<Arrival>)
    requires Legal(acts) && (s, e) in StoredBy(acts)
    ensures Replays(acts, s, e, xs) && multiset(xs) <= Delivered(acts)
  {
    xs := Replay(acts, s, e);
    forall a ensures multiset(Log(acts))[a] <= Delivered(acts)[a] { Accounted(acts, a); }
    SubsequenceCounts(xs, Log(acts));
  }

  // ---------- Conservation and merge safety under every interleaving ----------

  lemma {:induction false} BroughtDelivered(acts: seq<Action>, i: nat, a: Arrival)
    requires i < |acts| && acts[i].StartAccumulate? && a in acts[i].arrivals
    ensures a in Delivered(acts)
  {
    var n := |acts| - 1;
    if i < n { BroughtDelivered(acts[..n], i, a); }
  }

  lemma {:induction false} TodoWaits(threads: seq<Thread>, t: nat, a: Arrival)
    requires t < |threads|
    ensures TodoCount(threads[t], a) <= Waiting(threads, a)
  {
    var n := |threads| - 1;
    if t < n { TodoWaits(threads[..n], t, a); }
  }

  /** Every delivered point has one bucket more than bounds and the sum of its buckets as count. */
  ghost predicate AllHonest(acts: seq<Action>) {
    forall a | a in Delivered(acts) :: Reachability.Honest(a)
  }

  lemma HonestIsLegal(acts: seq<Action>)
    requires AllHonest(acts)
    ensures Legal(acts)
  {
    hide ArrivalFits;
    forall i, a | 0 <= i < |acts| && acts[i].StartAccumulate? && a in acts[i].arrivals ensures ArrivalFits(a) {
      BroughtDelivered(acts, i, a);
      assert Reachability.Honest(a);
    }
  }

  lemma {:induction false} HonestRun(xs: seq<Arrival>, s: string)
    requires OfSeries(xs, s) && forall a | a in xs :: Reachability.Honest(a)
    ensures SeriesRun(None, xs).Some? ==> Reachability.HonestEntry(s, SeriesRun(None, xs).value)
  {
    hide SeriesStep, Reachability.Honest, Reachability.HonestEntry;
    if xs != [] {
      var init, a := xs[..|xs| - 1], xs[|xs| - 1];
      assert a in xs && forall x | x in init :: x in xs;
      HonestRun(init, s);
      Reachability.StepSound(SeriesRun(None, init), a);
    }
  }

  lemma StoredHonest(acts: seq<Action>, s: string, e: Entry)
    requires AllHonest(acts) && (s, e) in StoredBy(acts)
    ensures Reachability.HonestEntry(s, e)
  {
    hide SeriesRun, Reachability.Honest, Reachability.HonestEntry, Subsequence;
    HonestIsLegal(acts);
    var xs := OnlyLosses(acts, s, e);
    forall a | a in xs ensures Reachability.Honest(a) { assert a in multiset(xs); }
    HonestRun(xs, s);
  }

  /** All that a call has read or collected conserves its count, and a merge it is about to do reads no missing
      bucket. */
  ghost predicate ThreadSound(th: Thread) {
    match th
    case Accumulating(todo, loaded) =>
      && (loaded.Some? && todo != [] && !todo[0].point.noRecordedValue ==> StepSafe(StoredPoint(loaded.value), todo[0]))
      && (loaded.Some? && loaded.value.Some? ==>
            todo != [] && Reachability.HonestEntry(todo[0].sig, loaded.value.value))
    case Collecting(_, _, _, out) => forall x | x in out :: Reachability.HonestEntry(x.0, x.1)
  }

  /** Conservation, typing and merge safety hold under every interleaving of any number of calls. */
  lemma InterleavingSound(acts: seq<Action>)
    requires AllHonest(acts)
    ensures Reachability.Sound(Run(START, acts).reg)
    ensures forall t | 0 <= t < |Run(START, acts).threads| :: ThreadSound(Run(START, acts).threads[t])
  {
    hide Run, StoredBy, Reachability.Honest, Reachability.HonestEntry, AllHonest;
    HonestIsLegal(acts);
    InterleavingSafe(acts);
    var s := Run(START, acts);
    forall x | x in StoredBy(acts) ensures Reachability.HonestEntry(x.0, x.1) { StoredHonest(acts, x.0, x.1); }
    forall t | 0 <= t < |s.threads| ensures ThreadSound(s.threads[t]) {
      var th := s.threads[t];
      assert ThreadOk(th, StoredBy(acts));
      if th.Accumulating? && th.todo != [] && th.loaded.Some? {
        TodoHonest(acts, t);
        Reachability.StepSound(th.loaded.value, th.todo[0]);
      }
    }
  }

  lemma TodoHonest(acts: seq<Action>, t: nat)
    requires AllHonest(acts) && t < |Run(START, acts).threads|
    requires Run(START, acts).threads[t].Accumulating? && Run(START, acts).threads[t].todo != []
    ensures Reachability.Honest(Run(START, acts).threads[t].todo[0])
  {
    hide Run, Reachability.Honest;
    var th := Run(START, acts).threads[t];
    Accounted(acts, th.todo[0]);
    TodoWaits(Run(START, acts).threads, t, th.todo[0]);
  }

  /** So is every histogram that any Collect call returns. */
  lemma CollectedExport(acts: seq<Action>, t: nat, x: (string, Entry), b: real)
    requires AllHonest(acts) && t < |Run(START, acts).threads| && Run(START, acts).threads[t].Collecting?
    requires x in Run(START, acts).threads[t].out && x.1.value.kind.Histogram?
    ensures Reachability.ExportsHonestly(x.1, b)
  {
    InterleavingSound(acts);
    assert ThreadSound(Run(START, acts).threads[t]);
    Reachability.HonestExport(x.0, x.1, b);
  }

  // ---------- What the values are ----------

  lemma ReplayNotEmpty(acts: seq<Action>, s: string, e: Entry) returns (xs: seq<Arrival>)
    requires Legal(acts) && (s, e) in StoredBy(acts)
    ensures Replays(acts, s, e, xs) && multiset(xs) <= Delivered(acts) && xs != []
    ensures forall a | a in xs :: a in Delivered(acts) && a.sig == s && !a.point.noRecordedValue
  {
    hide Log, StoredBy, Delivered, Subsequence;
    xs := OnlyLosses(acts, s, e);
    forall a | a in xs ensures a in Delivered(acts) { assert a in multiset(xs); }
  }

  /** A gauge, summary or cumulative series always shows a point that was delivered to it, unaltered. */
  lemma ConcurrentLatest(acts: seq<Action>, s: string, e: Entry) returns (a: Arrival)
    requires Legal(acts) && (s, e) in StoredBy(acts)
    requires forall x | x in Delivered(acts) && x.sig == s :: ByTimestamp(x.kind)
    ensures a in Delivered(acts) && a.sig == s && e == EntryOf(a, a.point)
  {
    var xs := ReplayNotEmpty(acts, s, e);
    hide ByTimestamp, Log, StoredBy, Delivered, SeriesRun, Subsequence;
    var i := SomeIsLatest(xs);
    LatestSurvives(None, xs, i);
    a := xs[i];
  }

  /** A delta sum always shows the total of an aligned chain of points delivered to it, none counted twice. */
  lemma ConcurrentSum(acts: seq<Action>, s: string, e: Entry) returns (chain: seq<Arrival>)
    requires Legal(acts) && (s, e) in StoredBy(acts)
    requires forall a | a in Delivered(acts) && a.sig == s && !a.point.noRecordedValue :: DeltaSum(a)
    ensures chain != [] && AllDeltaSums(chain) && Aligned(chain) && multiset(chain) <= Delivered(acts)
    ensures e == EntryOf(chain[|chain| - 1], Cumulated(chain))
  {
    var xs := ReplayNotEmpty(acts, s, e);
    hide Log, StoredBy, Delivered, DeltaSum, SeriesRun, Cumulated, Subsequence;
    SumRun(xs);
    chain := Contributing(xs);
    ContributingInOrder(xs);
    SubsequenceCounts(chain, xs);
  }

  /** A delta histogram always shows an aligned chain of points delivered to it, none counted twice. */
  lemma ConcurrentHistogram(acts: seq<Action>, s: string, e: Entry) returns (chain: seq<Arrival>)
    requires Legal(acts) && (s, e) in StoredBy(acts)
    requires forall a | a in Delivered(acts) && a.sig == s && !a.point.noRecordedValue :: AnyDeltaHistogram(a)
    ensures chain != [] && AnyDeltaHistograms(chain) && Aligned(chain) && multiset(chain) <= Delivered(acts)
    ensures e == EntryOf(chain[|chain| - 1], Covered(chain))
  {
    var xs := ReplayNotEmpty(acts, s, e);
    hide Log, StoredBy, Delivered, AnyDeltaHistogram, SeriesRun, Covered, Subsequence;
    MixedRun(xs);
    chain := Accepted(xs);
    AcceptedInOrder(xs);
    SubsequenceCounts(chain, xs);
  }
}
