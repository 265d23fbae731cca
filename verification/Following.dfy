/** Convergence over whole entries and whole runs: exactly when one diff brings a cached name in line, and
    the run-level results with registry changes, lookups, deliveries and watcher restarts interleaved. */
module Following {
  import opened Values
  import opened Registry
  import opened SelectorCache
  import opened Watcher
  import opened Convergence

  ghost predicate Agrees(m: Snapshot, t: Snapshot)
  {
    forall v :: Live(At(m, v)) == Live(At(t, v))
  }

  /** What a run of events makes of a cached name; None once it is dropped. */
  function ReplayEntry(q: seq<Event>, m: Snapshot): Option<Snapshot>
  {
    if q == [] then Some(m) else
      var r := ReplayEntry(q[..|q| - 1], m);
      if r.None? then None else ApplyMap(r.value, q[|q| - 1])
  }

  lemma ApplyMapIsVersions(m: Snapshot, ev: Event, v: string)
    requires ApplyMap(m, ev).Some?
    ensures At(ApplyMap(m, ev).value, v) == StepVersion(At(m, v), ev, v)
  {
  }

  lemma {:induction false} EntryIsVersions(q: seq<Event>, m: Snapshot, v: string)
    requires ReplayEntry(q, m).Some?
    ensures At(ReplayEntry(q, m).value, v) == Replay(q, At(m, v), v)
  {
    if q != [] {
      EntryIsVersions(q[..|q| - 1], m, v);
      ApplyMapIsVersions(ReplayEntry(q[..|q| - 1], m).value, q[|q| - 1], v);
    }
  }

  // ------------------------------------------------------------ exactly when a diff suffices

  /** Every cached node of every version was in the old snapshot or is in the new one. */
  ghost predicate Covered(m: Snapshot, was: Option<seq<Service>>, neu: Snapshot)
  {
    forall v, id :: id in IdsAt(At(m, v)) ==> InOld(was, v, id) || id in IdsAt(At(neu, v))
  }

  lemma {:induction false} Survives(q: seq<Event>, o: Option<Service>, v: string, was: Option<seq<Service>>, neu: Snapshot, id: string)
    requires forall ev :: ev in q ==> FromDiff(ev, was, neu)
    requires id in IdsAt(o) && !InOld(was, v, id)
    ensures id in IdsAt(Replay(q, o, v))
  {
    if q != [] {
      Survives(q[..|q| - 1], o, v, was, neu, id);
      assert q[|q| - 1] in q;
      StepIds(Replay(q[..|q| - 1], o, v), q[|q| - 1], v);
    }
  }

  /** A name that stays cached through a diff ends up agreeing with the new snapshot if and only if
      every cached node was known: in the old snapshot, or in the new one. */
  lemma DiffConvergesIff(m: Snapshot, was: Option<seq<Service>>, neu: Snapshot, order: seq<string>)
    requires WellKeyed(neu) && IsOrder(order, neu.Keys)
    requires ReplayEntry(Diff(was, neu, order), m).Some?
    ensures Agrees(ReplayEntry(Diff(was, neu, order), m).value, neu) <==> Covered(m, was, neu)
  {
    var d := Diff(was, neu, order);
    var r := ReplayEntry(d, m).value;
    DiffEvents(was, neu, order);
    if Covered(m, was, neu) {
      forall v
        ensures Live(At(r, v)) == Live(At(neu, v))
      {
        EntryIsVersions(d, m, v);
        AfterDiff(was, neu, order, At(m, v), v);
      }
    }
    if Agrees(r, neu) {
      forall v, id | id in IdsAt(At(m, v)) && !InOld(was, v, id)
        ensures id in IdsAt(At(neu, v))
      {
        EntryIsVersions(d, m, v);
        Survives(d, At(m, v), v, was, neu, id);
        NoIds(At(r, v));
        NoIds(At(neu, v));
        assert Live(At(r, v)) == Live(At(neu, v));
      }
    }
  }

  /** The uncovered case exists: a node cached before the watcher's first snapshot, and missing from
      it, is served for good. */
  lemma StaleNodeStays()
    ensures
      var gone := Node("gone", "10.0.0.1", 80, map[]);
      var kept := Node("kept", "10.0.0.2", 80, map[]);
      var cached := map["1" := Service("s", "1", [], [gone, kept])];
      var neu := map["1" := Service("s", "1", [], [kept])];
      && ReplayEntry(Diff(None, neu, ["1"]), cached).Some?
      && !Agrees(ReplayEntry(Diff(None, neu, ["1"]), cached).value, neu)
  {
    var gone := Node("gone", "10.0.0.1", 80, map[]);
    var kept := Node("kept", "10.0.0.2", 80, map[]);
    var cached := map["1" := Service("s", "1", [], [gone, kept])];
    var neu := map["1" := Service("s", "1", [], [kept])];
    var order := ["1"];
    var d := Diff(None, neu, order);
    assert order[..0] == [] && NewEvents(None, neu, order[..0]) == [];
    assert EventsFor(None, neu["1"]) == [Event(Create, neu["1"])];
    assert NewEvents(None, neu, order) == [Event(Create, neu["1"])];
    assert d[..0] == [];
    assert ReplayEntry(d, cached) == ApplyMap(cached, d[0]);
    assert "1" in ApplyMap(cached, d[0]).value;
    assert gone in cached["1"].nodes && "gone" in IdsAt(At(cached, "1"));
    assert "gone" !in IdsAt(At(neu, "1"));
    assert !InOld(None, "1", "gone");
    DiffConvergesIff(cached, None, neu, ["1"]);
  }

  // ------------------------------------------------------------ whole runs

  /** One service name: the registry's content, whether the watcher has handled it, the last snapshot it
      handled with the list it keeps of it, whether it watches the name, the events on their way, and the
      cached entry if there is one. A refill is an entry that was cached from a content the watcher had
      not handled, or that the watcher forgot. */
  datatype State = State(
    registry: Snapshot, seen: bool, snap: Snapshot, was: Option<seq<Service>>, watched: bool,
    queue: seq<Event>, entry: Option<Snapshot>, refilled: bool)

  datatype Step =
    | Change(content: Snapshot)       // nodes come and go in the registry
    | Enlist                          // handle, when the service is new in the catalog
    | Observe(order: seq<string>)     // serviceHandler on a snapshot with entries
    | Leave                           // handle, when the service is not in the catalog
    | Lookup                          // get asks the registry and caches the answer
    | Deliver                         // update on the next event
    | Restart                         // run replaces the watcher by a new one

  const NEWS: Event := Event(Create, Service("", "", [], []))
  const GONE: Event := Event(Delete, Service("", "", [], []))

  ghost predicate Enabled(s: State, step: Step)
  {
    match step
    case Change(content) => WellKeyed(content)
    case Enlist => !s.watched && s.registry != map[]
    case Observe(order) => s.watched && s.registry != map[] && IsOrder(order, s.registry.Keys)
    case Leave => s.registry == map[]
    case Lookup => true
    case Deliver => s.queue != []
    case Restart => true
  }

  ghost function Next(s: State, step: Step): State
    requires Enabled(s, step)
  {
    match step
    case Change(content) => s.(registry := content, seen := false)
    case Enlist => s.(watched := true, queue := s.queue + [NEWS])
    case Observe(order) =>
      s.(seen := true, snap := s.registry, was := Some(InOrder(s.registry, order)), refilled := false,
         queue := s.queue + Diff(s.was, s.registry, order))
    case Leave =>
      s.(seen := true, snap := map[], was := None, watched := false, refilled := false,
         queue := if s.watched then s.queue + [GONE] else s.queue)
    case Lookup => s.(entry := Some(s.registry), refilled := !s.seen)
    case Deliver =>
      s.(queue := s.queue[1..], entry := if s.entry.None? then None else ApplyMap(s.entry.value, s.queue[0]))
    case Restart =>
      s.(seen := false, snap := map[], was := None, watched := false, queue := [], refilled := s.entry.Some?)
  }

  /** Nothing is watched yet, and nothing is cached but what the registry holds. */
  ghost predicate Init(s: State)
  {
    && WellKeyed(s.registry) && !s.seen && s.snap == map[] && s.was.None? && !s.watched && s.queue == []
    && (s.entry.None? || s.entry.value == s.registry) && s.refilled == s.entry.Some?
  }

  ghost predicate IsRun(states: seq<State>, steps: seq<Step>)
  {
    && |states| == |steps| + 1
    && Init(states[0])
    && forall i :: 0 <= i < |steps| ==> Enabled(states[i], steps[i]) && states[i + 1] == Next(states[i], steps[i])
  }

  /** No event of the queue drops the name. */
  ghost predicate DropFree(q: seq<Event>)
  {
    forall ev :: ev in q ==> !Drops(ev)
  }

  /** The queue turns the content into the target, version by version. */
  ghost predicate Settles(q: seq<Event>, m: Snapshot, t: Snapshot)
  {
    forall v :: Live(Replay(q, At(m, v), v)) == Live(At(t, v))
  }

  ghost predicate Bounded(q: seq<Event>, m: Snapshot, a: Snapshot, b: Snapshot)
  {
    forall v :: IdsAt(Replay(q, At(m, v), v)) <= IdsAt(At(a, v)) + IdsAt(At(b, v))
  }

  /** The list the watcher keeps holds exactly the ids of its last snapshot. */
  ghost predicate Remembers(was: Option<seq<Service>>, snap: Snapshot)
  {
    forall v, id :: id in IdsAt(At(snap, v)) <==> InOld(was, v, id)
  }

  /** Caching the last snapshot now, at whatever point of the queue, would not be undone. */
  ghost predicate Steady(q: seq<Event>, snap: Snapshot)
  {
    forall k :: 0 <= k <= |q| && DropFree(q[k..]) ==> Settles(q[k..], snap, snap)
  }

  /** What holds in every reachable state. */
  ghost predicate Inv(s: State)
  {
    && WellKeyed(s.registry)
    && Remembers(s.was, s.snap)
    && Steady(s.queue, s.snap)
    && (s.watched || (s.was.None? && s.snap == map[]))
    && (s.seen ==> s.registry == s.snap)
  }

  lemma SettlesIsBounded(q: seq<Event>, m: Snapshot, t: Snapshot, b: Snapshot)
    requires Settles(q, m, t)
    ensures Bounded(q, m, t, b)
  {
    forall v
      ensures IdsAt(Replay(q, At(m, v), v)) <= IdsAt(At(t, v)) + IdsAt(At(b, v))
    {
      NoIds(Replay(q, At(m, v), v));
      NoIds(At(t, v));
      assert Live(Replay(q, At(m, v), v)) == Live(At(t, v));
    }
  }

  /** A refill is bounded by what it holds and by what the queue is about to add. */
  lemma RefillBounded(q: seq<Event>, snap: Snapshot, m: Snapshot)
    requires Settles(q, snap, snap)
    ensures Bounded(q, m, snap, m)
  {
    SettlesIsBounded(q, snap, snap, snap);
    forall v
      ensures IdsAt(Replay(q, At(m, v), v)) <= IdsAt(At(snap, v)) + IdsAt(At(m, v))
    {
      ReplayIds(q, At(m, v), v);
      ReplayIds(q, At(snap, v), v);
      assert IdsAt(Replay(q, At(snap, v), v)) <= IdsAt(At(snap, v)) + IdsAt(At(snap, v));
    }
  }

  /** A diff at the end of the queue settles exactly what the queue leaves within old and new. */
  lemma DiffSettlesIff(q: seq<Event>, m: Snapshot, was: Option<seq<Service>>, snap: Snapshot, neu: Snapshot, order: seq<string>)
    requires WellKeyed(neu) && IsOrder(order, neu.Keys) && Remembers(was, snap)
    ensures Settles(q + Diff(was, neu, order), m, neu) <==> Bounded(q, m, snap, neu)
  {
    var d := Diff(was, neu, order);
    DiffEvents(was, neu, order);
    forall v
      ensures Live(Replay(q + d, At(m, v), v)) == Live(At(neu, v)) <==>
        IdsAt(Replay(q, At(m, v), v)) <= IdsAt(At(snap, v)) + IdsAt(At(neu, v))
    {
      var o := Replay(q, At(m, v), v);
      ReplayConcat(q, d, At(m, v), v);
      if IdsAt(o) <= IdsAt(At(snap, v)) + IdsAt(At(neu, v)) {
        AfterDiff(was, neu, order, o, v);
      } else {
        var id :| id in IdsAt(o) && id !in IdsAt(At(snap, v)) + IdsAt(At(neu, v));
        Survives(d, o, v, was, neu, id);
        NoIds(Replay(d, o, v));
        NoIds(At(neu, v));
      }
    }
  }

  lemma DiffIsSteady(q: seq<Event>, was: Option<seq<Service>>, snap: Snapshot, neu: Snapshot, order: seq<string>)
    requires WellKeyed(neu) && IsOrder(order, neu.Keys) && Remembers(was, snap)
    requires Steady(q, snap)
    ensures Steady(q + Diff(was, neu, order), neu)
  {
    var d := Diff(was, neu, order);
    DiffEvents(was, neu, order);
    forall k | 0 <= k <= |q + d| && DropFree((q + d)[k..])
      ensures Settles((q + d)[k..], neu, neu)
    {
      if k <= |q| {
        assert (q + d)[k..] == q[k..] + d;
        assert DropFree(q[k..]);
        RefillBounded(q[k..], snap, neu);
        DiffSettlesIff(q[k..], neu, was, snap, neu, order);
      } else {
        assert (q + d)[k..] == d[k - |q|..];
        forall v
          ensures Live(Replay(d[k - |q|..], At(neu, v), v)) == Live(At(neu, v))
        {
          StableReplay(d[k - |q|..], At(neu, v), v, was, neu);
        }
      }
    }
  }

  lemma {:induction false} ListMembers(m: Snapshot, order: seq<string>)
    requires WellKeyed(m) && forall v :: v in order ==> v in m
    ensures forall s :: s in InOrder(m, order) <==> s.version in order && s == m[s.version]
  {
    if order != [] {
      var init, v := order[..|order| - 1], order[|order| - 1];
      assert order == init + [v];
      ListMembers(m, init);
    }
  }

  lemma {:induction false} ListVersions(m: Snapshot, order: seq<string>)
    requires WellKeyed(m) && forall v :: v in order ==> v in m
    requires forall i, j :: 0 <= i < j < |order| ==> order[i] != order[j]
    ensures DistinctVersions(InOrder(m, order))
    ensures |InOrder(m, order)| == |order| && forall i :: 0 <= i < |order| ==> InOrder(m, order)[i] == m[order[i]]
  {
    if order != [] {
      ListVersions(m, order[..|order| - 1]);
    }
  }

  lemma {:induction false} ListMap(m: Snapshot, order: seq<string>)
    requires WellKeyed(m) && forall v :: v in order ==> v in m
    ensures ToMap(InOrder(m, order)) == map v | v in order :: m[v]
  {
    if order != [] {
      var init, v := order[..|order| - 1], order[|order| - 1];
      assert order == init + [v];
      ListMap(m, init);
      ToMapAppend(InOrder(m, init), m[v]);
    }
  }

  /** The list a lookup or the watcher makes of a snapshot, in any order, is that snapshot. */
  lemma ListIsSnapshot(m: Snapshot, order: seq<string>)
    requires WellKeyed(m) && IsOrder(order, m.Keys)
    ensures ToMap(InOrder(m, order)) == m && DistinctVersions(InOrder(m, order))
  {
    ListMap(m, order);
    ListVersions(m, order);
  }

  lemma ListRemembers(m: Snapshot, order: seq<string>)
    requires WellKeyed(m) && IsOrder(order, m.Keys)
    ensures Remembers(Some(InOrder(m, order)), m)
  {
    ListMembers(m, order);
    forall v, id | id in IdsAt(At(m, v))
      ensures InOld(Some(InOrder(m, order)), v, id)
    {
      assert m[v] in InOrder(m, order);
    }
  }

  /** A create without nodes changes nothing. */
  lemma NewsIsNothing(q: seq<Event>, o: Option<Service>, v: string)
    ensures Replay(q + [NEWS], o, v) == Replay(q, o, v)
  {
    assert (q + [NEWS])[..|q|] == q;
  }

  lemma EnlistIsSteady(q: seq<Event>, snap: Snapshot)
    requires Steady(q, snap)
    ensures Steady(q + [NEWS], snap)
  {
    forall k | 0 <= k <= |q + [NEWS]| && DropFree((q + [NEWS])[k..])
      ensures Settles((q + [NEWS])[k..], snap, snap)
    {
      if k <= |q| {
        assert (q + [NEWS])[k..] == q[k..] + [NEWS];
        assert DropFree(q[k..]);
        assert Settles(q[k..], snap, snap);
        forall v
          ensures Live(Replay(q[k..] + [NEWS], At(snap, v), v)) == Live(At(snap, v))
        {
          NewsIsNothing(q[k..], At(snap, v), v);
        }
      } else {
        assert (q + [NEWS])[k..] == [];
      }
    }
  }

  lemma LeaveIsSteady(q: seq<Event>)
    ensures !DropFree(q + [GONE]) && Steady(q + [GONE], map[])
  {
    var t := q + [GONE];
    assert t[|q|] == GONE && Drops(GONE);
    forall k | 0 <= k <= |q|
      ensures !DropFree(t[k..])
    {
      assert t[k..][|q| - k] == GONE;
    }
    assert t[0..] == t && t[|t|..] == [];
  }

  lemma StepKeepsInv(s: State, step: Step)
    requires Inv(s) && Enabled(s, step)
    ensures Inv(Next(s, step))
  {
    hide Replay, Diff, InOrder, InOld;
    match step
    case Enlist => EnlistIsSteady(s.queue, s.snap);
    case Observe(order) =>
      DiffIsSteady(s.queue, s.was, s.snap, s.registry, order);
      ListRemembers(s.registry, order);
    case Leave =>
      NoneRemembered();
      LeaveIsSteady(s.queue);
    case Restart =>
      NoneRemembered();
      NothingIsSteady(s.queue[..0]);
    case Deliver => DeliverIsSteady(s.queue, s.snap);
    case _ =>
  }

  lemma NoneRemembered()
    ensures Remembers(None, map[])
  {
  }

  lemma NothingIsSteady(q: seq<Event>)
    requires q == []
    ensures Steady(q, map[])
  {
    assert q[0..] == [];
  }

  lemma DeliverIsSteady(q: seq<Event>, snap: Snapshot)
    requires Steady(q, snap) && q != []
    ensures Steady(q[1..], snap)
  {
    forall k | 0 <= k <= |q[1..]| && DropFree(q[1..][k..])
      ensures Settles(q[1..][k..], snap, snap)
    {
      assert q[1..][k..] == q[k + 1..];
    }
  }

  lemma {:induction false} RunKeepsInv(states: seq<State>, steps: seq<Step>, i: nat)
    requires IsRun(states, steps) && i < |states|
    ensures Inv(states[i])
  {
    hide Inv, Enabled, Next;
    if i == 0 {
      InitIsInv(states[0]);
    } else {
      RunKeepsInv(states, steps, i - 1);
      StepKeepsInv(states[i - 1], steps[i - 1]);
    }
  }

  lemma InitIsInv(s: State)
    requires Init(s)
    ensures Inv(s)
  {
    NoneRemembered();
    NothingIsSteady(s.queue);
  }

  // ------------------------------------------------------------ exactly when the cache gets in line

  /** The next event makes no difference to what the whole queue leaves. */
  lemma DeliverReplays(s: State)
    requires s.queue != []
    ensures
      var t := Next(s, Deliver);
      t.entry.Some? ==>
        && s.entry.Some? && !Drops(s.queue[0])
        && forall v :: Replay(t.queue, At(t.entry.value, v), v) == Replay(s.queue, At(s.entry.value, v), v)
  {
    var t := Next(s, Deliver);
    if t.entry.Some? {
      forall v
        ensures Replay(t.queue, At(t.entry.value, v), v) == Replay(s.queue, At(s.entry.value, v), v)
      {
        ApplyMapIsVersions(s.entry.value, s.queue[0], v);
        ReplayFirst(s.queue, At(s.entry.value, v), v);
      }
    }
  }

  ghost predicate OnlyDelivers(steps: seq<Step>, j: nat, i: nat)
    requires i <= |steps|
  {
    forall k :: j <= k < i ==> steps[k] == Deliver
  }

  /** A name still cached once everything is delivered holds what the queue made of it. */
  lemma {:induction false} Delivered(states: seq<State>, steps: seq<Step>, j: nat, i: nat)
    requires IsRun(states, steps) && j <= i < |states| && OnlyDelivers(steps, j, i)
    requires states[i].queue == [] && states[i].entry.Some?
    ensures states[j].entry.Some? && DropFree(states[j].queue)
    ensures states[j].registry == states[i].registry && states[j].snap == states[i].snap
    ensures forall v :: At(states[i].entry.value, v) == Replay(states[j].queue, At(states[j].entry.value, v), v)
    decreases i - j
  {
    if j < i {
      Delivered(states, steps, j + 1, i);
      assert steps[j] == Deliver;
      DeliverReplays(states[j]);
      assert states[j].queue == [states[j].queue[0]] + states[j + 1].queue;
    }
  }

  /** After the watcher has handled a content and its events are delivered, a name still cached is in line
      if and only if the events that were on their way before would have left nothing of it but ids of the
      last snapshot handled or of the new content. */
  lemma InLineIff(states: seq<State>, steps: seq<Step>, k: nat, i: nat)
    requires IsRun(states, steps) && k < i < |states|
    requires (steps[k].Observe? || steps[k].Leave?) && OnlyDelivers(steps, k + 1, i)
    requires states[i].queue == [] && states[i].entry.Some?
    ensures states[k].entry.Some?
    ensures Agrees(states[i].entry.value, states[i].registry) <==>
      Bounded(states[k].queue, states[k].entry.value, states[k].snap, states[k].registry)
  {
    var s, t := states[k], states[k + 1];
    RunKeepsInv(states, steps, k);
    Delivered(states, steps, k + 1, i);
    assert Agrees(states[i].entry.value, states[i].registry) <==> Settles(t.queue, t.entry.value, t.registry);
    hide Replay, Diff;
    if steps[k].Observe? {
      DiffSettlesIff(s.queue, s.entry.value, s.was, s.snap, s.registry, steps[k].order);
    } else {
      LeaveIsSteady(s.queue);
      NothingLeft(s.queue, s.entry.value);
    }
  }

  lemma NothingLeft(q: seq<Event>, m: Snapshot)
    ensures Settles(q, m, map[]) <==> Bounded(q, m, map[], map[])
  {
    forall v
      ensures Live(Replay(q, At(m, v), v)) == Live(At(map[], v)) <==>
        IdsAt(Replay(q, At(m, v), v)) <= IdsAt(At(map[], v)) + IdsAt(At(map[], v))
    {
      NoIds(Replay(q, At(m, v), v));
    }
  }

  // ------------------------------------------------------------ runs that always get in line

  /** The name is not cached, or is about to be dropped. */
  ghost predicate Leaving(s: State)
  {
    s.entry.None? || !DropFree(s.queue)
  }

  /** The registry keeps a refill until the watcher has handled it, and a watcher is replaced only while
      every cached node is registered. */
  ghost predicate Shown(s: State, step: Step)
  {
    match step
    case Change(_) => s.refilled ==> Leaving(s)
    case Restart => s.entry.Some? ==> forall v :: IdsAt(At(s.entry.value, v)) <= IdsAt(At(s.registry, v))
    case _ => true
  }

  ghost predicate AllShown(states: seq<State>, steps: seq<Step>)
    requires |states| == |steps| + 1
  {
    forall i :: 0 <= i < |steps| ==> Shown(states[i], steps[i])
  }

  /** What the queue makes of the entry is the last snapshot, or for a refill within it and the registry. */
  ghost predicate Held(s: State)
  {
    && (s.seen ==> !s.refilled)
    && (!Leaving(s) ==>
          if s.refilled then Bounded(s.queue, s.entry.value, s.snap, s.registry)
          else Settles(s.queue, s.entry.value, s.snap))
  }

  lemma StepKeepsHeld(s: State, step: Step)
    requires Inv(s) && Held(s) && Enabled(s, step) && Shown(s, step)
    ensures Held(Next(s, step))
  {
    hide Replay, Diff, Live, IdsAt, InOrder;
    match step
    case Change(content) =>
    case Enlist => EnlistKeepsHeld(s);
    case Observe(order) => ObserveKeepsHeld(s, order);
    case Leave => LeaveKeepsHeld(s);
    case Lookup =>
      assert s.queue[0..] == s.queue;
      if DropFree(s.queue) {
        RefillBounded(s.queue, s.snap, s.registry);
      }
    case Deliver => DeliverKeepsHeld(s);
    case Restart => RestartKeepsHeld(s);
  }

  lemma EnlistKeepsHeld(s: State)
    requires Held(s) && Enabled(s, Enlist)
    ensures Held(Next(s, Enlist))
  {
    if !Leaving(Next(s, Enlist)) {
      assert forall ev :: ev in s.queue ==> ev in s.queue + [NEWS];
      assert !Leaving(s);
      forall v
        ensures Replay(s.queue + [NEWS], At(s.entry.value, v), v) == Replay(s.queue, At(s.entry.value, v), v)
      {
        NewsIsNothing(s.queue, At(s.entry.value, v), v);
      }
      hide Replay;
    }
  }

  lemma ObserveKeepsHeld(s: State, order: seq<string>)
    requires Inv(s) && Held(s) && Enabled(s, Observe(order))
    ensures Held(Next(s, Observe(order)))
  {
    hide Replay, Diff, Live, IdsAt, InOrder;
    var t := Next(s, Observe(order));
    if !Leaving(t) {
      assert forall ev :: ev in s.queue ==> ev in t.queue;
      assert !Leaving(s);
      if !s.refilled {
        SettlesIsBounded(s.queue, s.entry.value, s.snap, s.registry);
      }
      DiffSettlesIff(s.queue, s.entry.value, s.was, s.snap, s.registry, order);
    }
  }

  lemma LeaveKeepsHeld(s: State)
    requires Inv(s) && Held(s) && Enabled(s, Leave)
    ensures Held(Next(s, Leave))
  {
    hide Replay, Live, IdsAt;
    LeaveIsSteady(s.queue);
    if !s.watched && s.refilled && !Leaving(s) {
      NothingLeft(s.queue, s.entry.value);
    }
  }

  lemma DeliverKeepsHeld(s: State)
    requires Held(s) && Enabled(s, Deliver)
    ensures Held(Next(s, Deliver))
  {
    DeliverReplays(s);
    hide Replay;
    assert s.queue == [s.queue[0]] + s.queue[1..];
  }

  lemma RestartKeepsHeld(s: State)
    requires Shown(s, Restart)
    ensures Held(Next(s, Restart))
  {
    var t := Next(s, Restart);
    if t.entry.Some? {
      assert forall v :: Replay(t.queue, At(t.entry.value, v), v) == At(s.entry.value, v);
    }
  }

  lemma {:induction false} RunKeepsHeld(states: seq<State>, steps: seq<Step>, i: nat)
    requires IsRun(states, steps) && i < |states| && AllShown(states, steps)
    ensures Held(states[i])
  {
    hide Inv, Enabled, Next, Shown;
    if i == 0 {
      InitIsHeld(states[0]);
    } else {
      RunKeepsHeld(states, steps, i - 1);
      RunKeepsInv(states, steps, i - 1);
      StepKeepsHeld(states[i - 1], steps[i - 1]);
    }
  }

  lemma InitIsHeld(s: State)
    requires Init(s)
    ensures Held(s)
  {
    if s.entry.Some? {
      assert forall v :: Replay(s.queue, At(s.entry.value, v), v) == At(s.registry, v);
    }
  }

  /** The cache follows the registry. Registry changes, watcher, lookups and deliveries interleave at will,
      contents may pass unseen, and watchers may be replaced, as long as the registry keeps a refill until
      the watcher has handled it and covers the cache when a watcher is replaced: then, whenever the watcher
      is up to date and its events are delivered, the name is uncached or cached exactly as registered. */
  lemma CacheFollowsRegistry(states: seq<State>, steps: seq<Step>, i: nat)
    requires IsRun(states, steps) && i < |states| && AllShown(states, steps)
    requires states[i].seen && states[i].queue == [] && states[i].entry.Some?
    ensures Agrees(states[i].entry.value, states[i].registry)
  {
    var s := states[i];
    RunKeepsInv(states, steps, i);
    RunKeepsHeld(states, steps, i);
    assert !Leaving(s) && Settles(s.queue, s.entry.value, s.snap);
    forall v
      ensures Live(At(s.entry.value, v)) == Live(At(s.registry, v))
    {
      assert Live(Replay(s.queue, At(s.entry.value, v), v)) == Live(At(s.snap, v));
    }
  }
}
