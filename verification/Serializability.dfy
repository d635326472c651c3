/** Schedules in which no call is disturbed between its load and its store are as good as sequential. */
module Serializability {
  import opened Sequences
  import opened Metrics
  import opened Accumulation
  import opened Interleaving
  import opened Races

  /** What takes effect on the register. */
  datatype Event = Arrive(a: Arrival) | Expire(key: string)

  function EventsOf(s: State, act: Action): seq<Event> {
    if (act.Finish? && ReadyPoint(s, act.t, true, false)) || (act.DeleteMarked? && ReadyPoint(s, act.t, false, true))
    then [Arrive(s.threads[act.t].todo[0])]
    else if act.DeleteExpired? && ReadyCollect(s, act.t, true) then [Expire(s.threads[act.t].doomed.value)]
    else []
  }

  /** The points and markers handled and the keys expired by a schedule, in order. */
  function History(acts: seq<Action>): seq<Event> {
    if acts == [] then [] else
      History(acts[..|acts| - 1]) + EventsOf(Run(START, acts[..|acts| - 1]), acts[|acts| - 1])
  }

  function Happen(reg: Register, e: Event): Register {
    match e
    case Arrive(a) => Apply(reg, a)
    case Expire(key) => reg - {key}
  }

  /** The events one after the other, each atomic. */
  function Sequentially(events: seq<Event>): Register {
    if events == [] then map[] else Happen(Sequentially(events[..|events| - 1]), events[|events| - 1])
  }

  /** Action i stores, or drops, a point for which action l has loaded. */
  predicate LoadsFor(acts: seq<Action>, l: nat, i: nat) {
    l < i < |acts| && acts[i].Finish? && acts[l] == Load(acts[i].t)
    && ReadyPoint(Run(START, acts[..l]), acts[i].t, false, false)
    && ReadyPoint(Run(START, acts[..i]), acts[i].t, true, false)
    && forall j | l < j < i :: acts[j] != acts[i]
  }

  /** The series of the point at the head of thread t. */
  function KeyOf(s: State, t: nat): string
    requires t < |s.threads| && s.threads[t].Accumulating? && s.threads[t].todo != []
  {
    s.threads[t].todo[0].sig
  }

  predicate Undisturbed(acts: seq<Action>, l: nat, i: nat)
    requires LoadsFor(acts, l, i)
  {
    forall j | l < j < i :: !Touches(Run(START, acts[..j]), acts[j], KeyOf(Run(START, acts[..i]), acts[i].t))
  }

  /** Between a load and its store no action stores or deletes the entry of the same series. */
  ghost predicate Isolated(acts: seq<Action>) {
    forall l, i | LoadsFor(acts, l, i) :: Undisturbed(acts, l, i)
  }

  lemma PrefixLoads(acts: seq<Action>, l: nat, i: nat)
    requires i < |acts| - 1
    ensures var init := acts[..|acts| - 1];
      (LoadsFor(init, l, i) <==> LoadsFor(acts, l, i))
      && (LoadsFor(init, l, i) ==> (Undisturbed(init, l, i) <==> Undisturbed(acts, l, i)))
  {
    hide Run, ReadyPoint, Touches, KeyOf;
    var init := acts[..|acts| - 1];
    forall j | 0 <= j <= i ensures acts[..j] == init[..j] && acts[j] == init[j] {}
  }

  lemma IsolatedPrefix(acts: seq<Action>)
    requires acts != [] && Isolated(acts)
    ensures Isolated(acts[..|acts| - 1])
  {
    hide LoadsFor, Undisturbed;
    var init := acts[..|acts| - 1];
    forall l: nat, i: nat | LoadsFor(init, l, i) ensures Undisturbed(init, l, i) {
      LoadsForBound(init, l, i);
      PrefixLoads(acts, l, i);
    }
  }

  lemma LoadsForBound(acts: seq<Action>, l: nat, i: nat)
    requires LoadsFor(acts, l, i)
    ensures l < i < |acts|
  {}

  lemma Untouched(s: State, act: Action, key: string)
    requires !Touches(s, act, key)
    ensures Lookup(Step(s, act).reg, key) == Lookup(s.reg, key)
  {
    hide Decide;
  }

  lemma {:induction false} UntouchedRun(acts: seq<Action>, l: nat, n: nat, key: string)
    requires l <= n <= |acts|
    requires forall j | l <= j < n :: !Touches(Run(START, acts[..j]), acts[j], key)
    ensures Lookup(Run(START, acts[..n]).reg, key) == Lookup(Run(START, acts[..l]).reg, key)
  {
    hide Touches, Step;
    if l < n {
      UntouchedRun(acts, l, n - 1, key);
      assert acts[..n][..n - 1] == acts[..n - 1];
      Untouched(Run(START, acts[..n - 1]), acts[n - 1], key);
    }
  }

  predicate HasLoaded(s: State, t: nat) {
    t < |s.threads| && s.threads[t].Accumulating? && s.threads[t].loaded.Some?
  }

  /** What a thread holds changes only by its own Load and Finish. */
  lemma LoadedStep(s: State, act: Action, t: nat)
    requires HasLoaded(Step(s, act), t)
    ensures var th := Step(s, act).threads[t];
      if act == Load(t) && ReadyPoint(s, t, false, false)
      then s.threads[t] == th.(loaded := None) && th.loaded == Some(Lookup(s.reg, th.todo[0].sig))
      else HasLoaded(s, t) && s.threads[t] == th
    ensures act == Finish(t) ==> !ReadyPoint(s, t, true, false)
  {
    hide Decide;
  }

  /** Where the value that a thread holds was loaded. */
  lemma {:induction false} LoadedSince(acts: seq<Action>, t: nat) returns (l: nat)
    requires HasLoaded(Run(START, acts), t)
    ensures l < |acts| && acts[l] == Load(t) && ReadyPoint(Run(START, acts[..l]), t, false, false)
    ensures var th, s := Run(START, acts).threads[t], Run(START, acts[..l]);
      && s.threads[t] == th.(loaded := None) && th.todo != [] && !th.todo[0].point.noRecordedValue
      && th.loaded.value == Lookup(s.reg, th.todo[0].sig)
    ensures forall j | l < j < |acts| :: acts[j] != Finish(t)
  {
    hide Step;
    var n := |acts| - 1;
    var init, act := acts[..n], acts[n];
    LoadedStep(Run(START, init), act, t);
    if act == Load(t) && ReadyPoint(Run(START, init), t, false, false) {
      l := n;
    } else {
      l := LoadedSince(init, t);
      assert acts[..l] == init[..l];
      forall j | l < j < |acts| ensures acts[j] != Finish(t) {
        if j < n { assert acts[j] == init[j]; }
      }
    }
  }

  lemma LoadTouchesNothing(s: State, t: nat, key: string)
    ensures !Touches(s, Load(t), key)
  {}

  /** In an isolated schedule a store works on the current value. */
  lemma LoadedIsCurrent(acts: seq<Action>, t: nat)
    requires acts != [] && acts[|acts| - 1] == Finish(t) && Isolated(acts)
    requires ReadyPoint(Run(START, acts[..|acts| - 1]), t, true, false)
    ensures var s := Run(START, acts[..|acts| - 1]); s.threads[t].loaded.value == Lookup(s.reg, KeyOf(s, t))
  {
    hide Run, Touches;
    var n := |acts| - 1;
    var init := acts[..n];
    var l := LoadedSince(init, t);
    assert acts[..l] == init[..l];
    assert forall j | l < j < n :: acts[j] == init[j];
    assert LoadsFor(acts, l, n);
    assert Undisturbed(acts, l, n);
    var key := KeyOf(Run(START, init), t);
    LoadTouchesNothing(Run(START, acts[..l]), t, key);
    UntouchedRun(acts, l, n, key);
  }

  lemma FinishApplies(s: State, t: nat)
    requires ReadyPoint(s, t, true, false) && s.threads[t].loaded.value == Lookup(s.reg, KeyOf(s, t))
    ensures Step(s, Finish(t)).reg == Apply(s.reg, s.threads[t].todo[0])
  {
    hide Decide;
    assert Update(s.reg, KeyOf(s, t), Lookup(s.reg, KeyOf(s, t))) == s.reg;
  }

  lemma OtherSteps(s: State, act: Action)
    requires act.Finish? ==> !ReadyPoint(s, act.t, true, false)
    ensures Step(s, act).reg == (if EventsOf(s, act) == [] then s.reg else Happen(s.reg, EventsOf(s, act)[0]))
    ensures |EventsOf(s, act)| <= 1
  {}

  /** An isolated schedule leaves what its events leave one after the other. */
  lemma {:induction false} Serializable(acts: seq<Action>)
    requires Isolated(acts)
    ensures Run(START, acts).reg == Sequentially(History(acts))
  {
    hide Step, Happen, Isolated;
    if acts != [] {
      var n := |acts| - 1;
      var init, act := acts[..n], acts[n];
      var s, log := Run(START, init), History(init);
      IsolatedPrefix(acts);
      Serializable(init);
      var events := EventsOf(s, act);
      if act.Finish? && ReadyPoint(s, act.t, true, false) {
        LoadedIsCurrent(acts, act.t);
        FinishApplies(s, act.t);
        ArriveIsApply(s.reg, s.threads[act.t].todo[0]);
      } else {
        OtherSteps(s, act);
      }
      if events == [] {
        assert log + events == log;
      } else {
        assert (log + events)[..|log|] == log;
      }
    }
  }

  lemma ArriveIsApply(reg: Register, a: Arrival)
    ensures Happen(reg, Arrive(a)) == Apply(reg, a)
  {}

  // ---------- Without scrapes ----------

  function Arrivals(events: seq<Event>): seq<Arrival>
    requires forall e | e in events :: e.Arrive?
  {
    if events == [] then [] else
      assert events[|events| - 1] in events;
      Arrivals(events[..|events| - 1]) + [events[|events| - 1].a]
  }

  lemma {:induction false} SequentiallyIsFold(events: seq<Event>)
    requires forall e | e in events :: e.Arrive?
    ensures Sequentially(events) == Fold(map[], Arrivals(events))
  {
    hide Apply;
    if events != [] {
      var init := events[..|events| - 1];
      SequentiallyIsFold(init);
      assert events[|events| - 1] in events;
      ArriveIsApply(Sequentially(init), events[|events| - 1].a);
      assert Arrivals(events)[..|Arrivals(events)| - 1] == Arrivals(init);
    }
  }

  lemma {:induction false} NoScrapes(acts: seq<Action>)
    requires forall act | act in acts :: !act.StartCollect?
    ensures forall t | 0 <= t < |Run(START, acts).threads| :: Run(START, acts).threads[t].Accumulating?
    ensures forall e | e in History(acts) :: e.Arrive?
  {
    hide Decide;
    if acts != [] {
      var init, act := acts[..|acts| - 1], acts[|acts| - 1];
      assert act in acts;
      NoScrapes(init);
    }
  }

  /** Undisturbed Accumulate calls together leave the sequential fold of all points and markers, in the order in which
      they were handled. */
  lemma IsolatedCallsFold(acts: seq<Action>)
    requires Isolated(acts) && forall act | act in acts :: !act.StartCollect?
    ensures forall e | e in History(acts) :: e.Arrive?
    ensures Run(START, acts).reg == Fold(map[], Arrivals(History(acts)))
  {
    NoScrapes(acts);
    Serializable(acts);
    SequentiallyIsFold(History(acts));
  }
}
