/** Any number of Accumulate and Collect calls, interleaved at their atomic loads, stores, deletes and visits. */
module Interleaving {
  import opened Sequences
  import opened Metrics
  import opened Accumulation
  import opened Accumulator

  /** A call in progress. `loaded` is what an accumulating call has read for its next point; `doomed` is the key a
      collecting call is about to delete. */
  datatype Thread =
    | Accumulating(todo: seq<Arrival>, loaded: Option<Option<Entry>>)
    | Collecting(expirationTime: int, visited: set<string>, doomed: Option<string>, out: seq<(string, Entry)>)

  datatype State = State(reg: Register, threads: seq<Thread>)

  datatype Action =
    | StartAccumulate(arrivals: seq<Arrival>)
    | StartCollect(expirationTime: int)
    | Load(t: nat)
    | Finish(t: nat)
    | DeleteMarked(t: nat)
    | Visit(t: nat, key: string)
    | DeleteExpired(t: nat)

  function WithThread(s: State, t: nat, th: Thread): State
    requires t < |s.threads|
  {
    s.(threads := s.threads[t := th])
  }

  predicate ReadyPoint(s: State, t: nat, loaded: bool, marker: bool) {
    && t < |s.threads| && s.threads[t].Accumulating? && s.threads[t].todo != []
    && s.threads[t].loaded.Some? == loaded && s.threads[t].todo[0].point.noRecordedValue == marker
  }

  predicate ReadyCollect(s: State, t: nat, doomed: bool) {
    t < |s.threads| && s.threads[t].Collecting? && s.threads[t].doomed.Some? == doomed
  }

  /** One atomic action; an action that is not enabled changes nothing. */
  function Step(s: State, act: Action): State {
    match act
    case StartAccumulate(arrivals) => s.(threads := s.threads + [Accumulating(arrivals, None)])
    case StartCollect(e) => s.(threads := s.threads + [Collecting(e, {}, None, [])])
    case Load(t) =>
      if !ReadyPoint(s, t, false, false) then s else
        var th := s.threads[t];
        WithThread(s, t, th.(loaded := Some(Lookup(s.reg, th.todo[0].sig))))
    case Finish(t) =>
      if !ReadyPoint(s, t, true, false) then s else
        var th := s.threads[t];
        var a := th.todo[0];
        var next := WithThread(s, t, Accumulating(th.todo[1..], None));
        (match Decide(a.kind, StoredPoint(th.loaded.value), a.point)
         case Drop => next
         case Store(p) => next.(reg := s.reg[a.sig := EntryOf(a, p)]))
    case DeleteMarked(t) =>
      if !ReadyPoint(s, t, false, true) then s else
        var th := s.threads[t];
        WithThread(s, t, Accumulating(th.todo[1..], None)).(reg := s.reg - {th.todo[0].sig})
    case Visit(t, key) =>
      if !ReadyCollect(s, t, false) || key in s.threads[t].visited || key !in s.reg then s else
        var th, e := s.threads[t], s.reg[key];
        if th.expirationTime > e.updated
        then WithThread(s, t, th.(visited := th.visited + {key}, doomed := Some(key)))
        else WithThread(s, t, th.(visited := th.visited + {key}, out := th.out + [(key, e)]))
    case DeleteExpired(t) =>
      if !ReadyCollect(s, t, true) then s else
        WithThread(s, t, s.threads[t].(doomed := None)).(reg := s.reg - {s.threads[t].doomed.value})
  }

  function Run(s: State, acts: seq<Action>): State {
    if acts == [] then s else Step(Run(s, acts[..|acts| - 1]), acts[|acts| - 1])
  }

  /** Nothing stored and no call in progress. */
  const START := State(map[], [])

  /** What an action puts into the register. */
  function Stores(s: State, act: Action): set<(string, Entry)> {
    if !act.Finish? || !ReadyPoint(s, act.t, true, false) then {} else
      var th := s.threads[act.t];
      match Decide(th.todo[0].kind, StoredPoint(th.loaded.value), th.todo[0].point)
      case Drop => {}
      case Store(p) => {(th.todo[0].sig, EntryOf(th.todo[0], p))}
  }

  /** Everything that the Accumulate calls of a schedule have ever stored. */
  function StoredBy(acts: seq<Action>): set<(string, Entry)> {
    if acts == [] then {} else
      StoredBy(acts[..|acts| - 1]) + Stores(Run(START, acts[..|acts| - 1]), acts[|acts| - 1])
  }

  ghost predicate ThreadOk(th: Thread, stored: set<(string, Entry)>) {
    match th
    case Accumulating(todo, loaded) =>
      && (forall a | a in todo :: ArrivalFits(a))
      && (loaded.Some? ==> todo != [])
      && (loaded.Some? && loaded.value.Some? ==> (todo[0].sig, loaded.value.value) in stored)
    case Collecting(_, _, _, out) => forall x | x in out :: x in stored
  }

  /** Stored entries belong under their keys, and no other value occurs: not in the register, not as a loaded value,
      not in what a scrape has collected. */
  ghost predicate Invariant(s: State, stored: set<(string, Entry)>) {
    && (forall x | x in stored :: EntryFits(x.0, x.1))
    && (forall k | k in s.reg :: (k, s.reg[k]) in stored)
    && (forall t | 0 <= t < |s.threads| :: ThreadOk(s.threads[t], stored))
  }

  ghost predicate Legal(acts: seq<Action>) {
    forall i | 0 <= i < |acts| && acts[i].StartAccumulate? :: forall a | a in acts[i].arrivals :: ArrivalFits(a)
  }

  lemma StoresFit(s: State, act: Action, stored: set<(string, Entry)>)
    requires Invariant(s, stored)
    ensures forall x | x in Stores(s, act) :: EntryFits(x.0, x.1)
  {
    hide EntryFits, Decide;
    if act.Finish? && ReadyPoint(s, act.t, true, false) {
      var th := s.threads[act.t];
      assert ThreadOk(th, stored) && ArrivalFits(th.todo[0]);
      if th.loaded.value.Some? { assert EntryFits(th.todo[0].sig, th.loaded.value.value); }
      StepFits(th.loaded.value, th.todo[0]);
    }
  }

  lemma MoreStored(s: State, stored: set<(string, Entry)>, more: set<(string, Entry)>)
    requires Invariant(s, stored) && forall x | x in more :: EntryFits(x.0, x.1)
    ensures Invariant(s, stored + more)
  {
    hide EntryFits, ArrivalFits;
    forall t | 0 <= t < |s.threads| ensures ThreadOk(s.threads[t], stored + more) {
      assert ThreadOk(s.threads[t], stored);
    }
  }

  lemma StepKeepsInvariant(s: State, act: Action, stored: set<(string, Entry)>)
    requires Invariant(s, stored) && Stores(s, act) <= stored
    requires act.StartAccumulate? ==> forall a | a in act.arrivals :: ArrivalFits(a)
    ensures Invariant(Step(s, act), stored)
  {
    hide EntryFits, ArrivalFits, Decide;
    if (act.Load? || act.Finish? || act.DeleteMarked? || act.Visit? || act.DeleteExpired?) && act.t < |s.threads| {
      assert ThreadOk(s.threads[act.t], stored);
    }
  }

  /** Every interleaving keeps the map well formed: each entry has the type its key names, is cumulative and holds one
      point. It was stored by some Accumulate, and so were the values loaded and the values collected. */
  lemma {:induction false} InterleavingSafe(acts: seq<Action>)
    requires Legal(acts)
    ensures Invariant(Run(START, acts), StoredBy(acts))
  {
    hide Step, Stores;
    if acts != [] {
      var init, act := acts[..|acts| - 1], acts[|acts| - 1];
      InterleavingSafe(init);
      assert acts[|acts| - 1] == act;
      var s := Run(START, init);
      StoresFit(s, act, StoredBy(init));
      MoreStored(s, StoredBy(init), Stores(s, act));
      StepKeepsInvariant(s, act, StoredBy(acts));
    }
  }

  /** So a loaded entry always has the type of the point it is loaded for: typed accessors do not panic. */
  lemma LoadedHasPointType(acts: seq<Action>, t: nat)
    requires Legal(acts) && ReadyPoint(Run(START, acts), t, true, false)
    ensures LoadedFits(Run(START, acts).threads[t])
  {
    InterleavingSafe(acts);
    ThreadLoadedFits(Run(START, acts).threads[t], StoredBy(acts));
  }

  predicate LoadedFits(th: Thread) {
    th.Accumulating? && th.todo != [] && th.loaded.Some? && th.loaded.value.Some? ==>
      var m := th.loaded.value.value.value;
      && TypeName(m.kind) == TypeName(th.todo[0].kind) && |m.points| == 1
      && PayloadFits(th.todo[0].kind, m.points[0].payload)
  }

  lemma ThreadLoadedFits(th: Thread, stored: set<(string, Entry)>)
    requires ThreadOk(th, stored) && forall x | x in stored :: EntryFits(x.0, x.1)
    ensures LoadedFits(th)
  {
    if th.Accumulating? && th.todo != [] && th.loaded.Some? && th.loaded.value.Some? {
      assert ArrivalFits(th.todo[0]);
      assert EntryFits(th.todo[0].sig, th.loaded.value.value);
      TypeNameDetermines(th.todo[0].kind, th.loaded.value.value.value.kind);
    }
  }

  // ---------- Sequential and concurrent results ----------

  /** The schedule that runs one Accumulate call without interruption. */
  function Solo(t: nat, todo: seq<Arrival>): seq<Action> {
    if todo == [] then []
    else (if todo[0].point.noRecordedValue then [DeleteMarked(t)] else [Load(t), Finish(t)]) + Solo(t, todo[1..])
  }

  lemma {:induction false} RunConcat(s: State, xs: seq<Action>, ys: seq<Action>)
    ensures Run(s, xs + ys) == Run(Run(s, xs), ys)
  {
    if ys == [] {
      assert xs + ys == xs;
    } else {
      var y := ys[..|ys| - 1];
      assert (xs + ys)[..|xs + ys| - 1] == xs + y;
      RunConcat(s, xs, y);
    }
  }

  lemma RunPair(s: State, x: Action, y: Action)
    ensures Run(s, [x]) == Step(s, x) && Run(s, [x, y]) == Step(Step(s, x), y)
  {
    assert [x, y][..1] == [x] && [x][..0] == [];
  }

  lemma LoadThenFinish(s: State, t: nat, todo: seq<Arrival>)
    requires t < |s.threads| && s.threads[t] == Accumulating(todo, None) && todo != [] && !todo[0].point.noRecordedValue
    ensures Step(Step(s, Load(t)), Finish(t))
         == State(Apply(s.reg, todo[0]), s.threads[t := Accumulating(todo[1..], None)])
  {
    hide Decide;
    var a, mid := todo[0], Step(s, Load(t));
    assert mid.threads[t := Accumulating(todo[1..], None)] == s.threads[t := Accumulating(todo[1..], None)];
    assert Update(s.reg, a.sig, Lookup(s.reg, a.sig)) == s.reg;
  }

  lemma SoloPoint(s: State, t: nat, todo: seq<Arrival>)
    requires t < |s.threads| && s.threads[t] == Accumulating(todo, None) && todo != []
    ensures Run(s, if todo[0].point.noRecordedValue then [DeleteMarked(t)] else [Load(t), Finish(t)])
         == State(Apply(s.reg, todo[0]), s.threads[t := Accumulating(todo[1..], None)])
  {
    if todo[0].point.noRecordedValue {
      RunPair(s, DeleteMarked(t), DeleteMarked(t));
    } else {
      RunPair(s, Load(t), Finish(t));
      LoadThenFinish(s, t, todo);
    }
  }

  /** Run alone, a call has the effect of the sequential fold. */
  lemma {:induction false} SoloRunIsFold(s: State, t: nat, todo: seq<Arrival>)
    requires t < |s.threads| && s.threads[t] == Accumulating(todo, None)
    ensures Run(s, Solo(t, todo)).reg == Fold(s.reg, todo)
    decreases |todo|
  {
    if todo != [] {
      var acts := if todo[0].point.noRecordedValue then [DeleteMarked(t)] else [Load(t), Finish(t)];
      SoloPoint(s, t, todo);
      var mid := Run(s, acts);
      RunConcat(s, acts, Solo(t, todo[1..]));
      SoloRunIsFold(mid, t, todo[1..]);
      FoldConcat(s.reg, [todo[0]], todo[1..]);
      assert [todo[0]] + todo[1..] == todo && [todo[0]][..0] == [];
    }
  }

  /** The schedule that runs one Collect call over these keys without interruption. */
  function Sweep(t: nat, keys: seq<string>): seq<Action> {
    if keys == [] then [] else Sweep(t, keys[..|keys| - 1]) + [Visit(t, keys[|keys| - 1]), DeleteExpired(t)]
  }

  function LiveOf(reg: Register, expirationTime: int, keys: seq<string>): seq<(string, Entry)>
    requires forall k | k in keys :: k in reg
  {
    if keys == [] then [] else
      var key := keys[|keys| - 1];
      LiveOf(reg, expirationTime, keys[..|keys| - 1])
      + if expirationTime > reg[key].updated then [] else [(key, reg[key])]
  }

  function ExpiredOf(reg: Register, expirationTime: int, keys: seq<string>): set<string>
    requires forall k | k in keys :: k in reg
  {
    set k | k in keys && expirationTime > reg[k].updated
  }

  lemma SweepStep(s: State, t: nat, key: string)
    requires ReadyCollect(s, t, false) && key in s.reg && key !in s.threads[t].visited
    ensures var th, e := s.threads[t], s.reg[key];
      Run(s, [Visit(t, key), DeleteExpired(t)]) ==
        if th.expirationTime > e.updated
        then State(s.reg - {key}, s.threads[t := th.(visited := th.visited + {key})])
        else State(s.reg, s.threads[t := th.(visited := th.visited + {key}, out := th.out + [(key, e)])])
  {
    RunPair(s, Visit(t, key), DeleteExpired(t));
    var th, mid := s.threads[t], Step(s, Visit(t, key));
    if th.expirationTime > s.reg[key].updated {
      assert mid.threads[t := th.(visited := th.visited + {key})] == s.threads[t := th.(visited := th.visited + {key})];
    }
  }

  /** Run alone over distinct keys of the map, a Collect call returns the live ones in visiting order and deletes the
      expired ones. */
  lemma {:induction false} SoloSweep(s: State, t: nat, expirationTime: int, keys: seq<string>)
    requires t < |s.threads| && s.threads[t] == Collecting(expirationTime, {}, None, [])
    requires NoDuplicates(keys) && forall k | k in keys :: k in s.reg
    ensures Run(s, Sweep(t, keys)) ==
      State(s.reg - ExpiredOf(s.reg, expirationTime, keys),
            s.threads[t := Collecting(expirationTime, (set k | k in keys), None, LiveOf(s.reg, expirationTime, keys))])
  {
    hide Step, ExpiredOf, LiveOf, ReadyCollect;
    if keys == [] {
      assert s.threads[t := s.threads[t]] == s.threads;
      SweepNothing(s.reg, expirationTime);
    } else {
      var init, key := keys[..|keys| - 1], keys[|keys| - 1];
      SweepNext(s.reg, expirationTime, keys);
      SoloSweep(s, t, expirationTime, init);
      var mid := Run(s, Sweep(t, init));
      RunConcat(s, Sweep(t, init), [Visit(t, key), DeleteExpired(t)]);
      SweepStep(mid, t, key);
    }
  }

  lemma SweepNothing(reg: Register, expirationTime: int)
    ensures (set k: string | k in []) == {} && ExpiredOf(reg, expirationTime, []) == {}
    ensures reg - ExpiredOf(reg, expirationTime, []) == reg && LiveOf(reg, expirationTime, []) == []
  {}

  /** What the last key of a list adds to the visited, the live and the expired ones. */
  lemma SweepNext(reg: Register, expirationTime: int, keys: seq<string>)
    requires keys != [] && NoDuplicates(keys) && forall k | k in keys :: k in reg
    ensures var init, key := keys[..|keys| - 1], keys[|keys| - 1];
      && NoDuplicates(init) && (forall k | k in init :: k in reg) && key !in (set k | k in init) && key in reg
      && (set k | k in keys) == (set k | k in init) + {key}
      && var rest := reg - ExpiredOf(reg, expirationTime, init);
      && key in rest && rest[key] == reg[key]
      && if expirationTime > reg[key].updated
         then reg - ExpiredOf(reg, expirationTime, keys) == rest - {key}
              && LiveOf(reg, expirationTime, keys) == LiveOf(reg, expirationTime, init)
         else reg - ExpiredOf(reg, expirationTime, keys) == rest
              && LiveOf(reg, expirationTime, keys) == LiveOf(reg, expirationTime, init) + [(key, reg[key])]
  {
    var init, key := keys[..|keys| - 1], keys[|keys| - 1];
    assert keys == init + [key];
    var gone := ExpiredOf(reg, expirationTime, init);
    if expirationTime > reg[key].updated {
      assert ExpiredOf(reg, expirationTime, keys) == gone + {key};
      assert reg - (gone + {key}) == reg - gone - {key};
    } else {
      assert ExpiredOf(reg, expirationTime, keys) == gone;
    }
  }

  /** Over all keys that is the scrape: what stays is exactly what is not expired. */
  lemma SoloSweepIsUnexpired(s: State, t: nat, expirationTime: int, keys: seq<string>)
    requires t < |s.threads| && s.threads[t] == Collecting(expirationTime, {}, None, [])
    requires NoDuplicates(keys) && forall k :: k in keys <==> k in s.reg
    ensures Run(s, Sweep(t, keys)).reg == Unexpired(s.reg, expirationTime)
  {
    hide Step;
    SoloSweep(s, t, expirationTime, keys);
  }

  lemma {:induction false} LiveOfIn(reg: Register, expirationTime: int, keys: seq<string>, x: (string, Entry))
    requires forall k | k in keys :: k in reg
    ensures x in LiveOf(reg, expirationTime, keys) <==>
      x.0 in keys && x.1 == reg[x.0] && !(expirationTime > reg[x.0].updated)
  {
    if keys != [] {
      var init, key := keys[..|keys| - 1], keys[|keys| - 1];
      assert keys == init + [key];
      LiveOfIn(reg, expirationTime, init, x);
    }
  }

  /** A scrape after a scrape, in whatever order it visits the keys, returns those entries of the first that have not
      expired since, and together they leave what the later expiration time leaves. In particular a scrape with the same
      expiration time returns the same entries and deletes nothing. */
  lemma SweepAgain(s: State, t: nat, u: nat, e: int, e': int, keys: seq<string>, left: seq<string>)
    requires t < |s.threads| && u < |s.threads| && t != u
    requires s.threads[t] == Collecting(e, {}, None, []) && s.threads[u] == Collecting(e', {}, None, [])
    requires NoDuplicates(keys) && forall k :: k in keys <==> k in s.reg
    requires NoDuplicates(left) && forall k :: k in left <==> k in Unexpired(s.reg, e)
    ensures var once := Run(s, Sweep(t, keys));
      var twice := Run(once, Sweep(u, left));
      && twice.reg == Unexpired(s.reg, if e <= e' then e' else e) && (e' <= e ==> twice.reg == once.reg)
      && t < |once.threads| && u < |twice.threads| && once.threads[t].Collecting? && twice.threads[u].Collecting?
      && forall x :: x in twice.threads[u].out <==> x in once.threads[t].out && !(e' > x.1.updated)
  {
    hide Step, Run, Sweep;
    SoloSweepIsUnexpired(s, t, e, keys);
    SoloSweep(s, t, e, keys);
    var once := Run(s, Sweep(t, keys));
    SoloSweepIsUnexpired(once, u, e', left);
    SoloSweep(once, u, e', left);
    CollectsCompose(s.reg, e, e');
    forall x ensures x in LiveOf(once.reg, e', left) <==> x in LiveOf(s.reg, e, keys) && !(e' > x.1.updated) {
      LiveOfIn(once.reg, e', left, x);
      LiveOfIn(s.reg, e, keys, x);
    }
  }
}
