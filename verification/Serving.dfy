/** What the selector cache serves along a run: only nodes that were registered, and how a node that is
    not registered any more can be served for good when the watcher did not know it. */
module Serving {
  import opened Values
  import opened Registry
  import opened SelectorCache
  import opened Watcher
  import opened Convergence
  import opened Following

  // ------------------------------------------------------------ only registered nodes are served

  function Registered(m: Snapshot): set<(string, Node)>
  {
    set v, n | v in m && n in m[v].nodes :: (v, n)
  }

  /** Nodes that are cached, or that an event on its way will cache. */
  ghost predicate Offered(s: State, v: string, n: Node)
  {
    || (s.entry.Some? && (v, n) in Registered(s.entry.value))
    || exists ev :: ev in s.queue && !ev.action.Delete? && ev.service.version == v && n in ev.service.nodes
  }

  ghost predicate RegisteredSince(states: seq<State>, j: nat, i: nat, v: string, n: Node)
    requires j <= i < |states|
  {
    exists k :: j <= k <= i && (v, n) in Registered(states[k].registry)
  }

  lemma ApplyMapNodes(m: Snapshot, ev: Event)
    requires ApplyMap(m, ev).Some?
    ensures forall v, n :: (v, n) in Registered(ApplyMap(m, ev).value) ==>
      (v, n) in Registered(m) || (v == ev.service.version && !ev.action.Delete? && n in ev.service.nodes)
  {
    var v := ev.service.version;
    if v in m {
      KeepMembers(m[v].nodes, ev.service.nodes);
      MergeMembers(ev.service.nodes, m[v].nodes);
    }
  }

  /** Nothing is offered but what was offered before or is registered. */
  lemma StepOffers(s: State, step: Step, v: string, n: Node)
    requires WellKeyed(s.registry) && Enabled(s, step) && Offered(Next(s, step), v, n)
    ensures Offered(s, v, n) || (v, n) in Registered(s.registry)
  {
    match step
    case Observe(order) => DiffEvents(s.was, s.registry, order);
    case Deliver =>
      if s.entry.Some? && ApplyMap(s.entry.value, s.queue[0]).Some? {
        ApplyMapNodes(s.entry.value, s.queue[0]);
      }
    case _ =>
  }

  lemma {:induction false} ServedSince(states: seq<State>, steps: seq<Step>, j: nat, i: nat, v: string, n: Node)
    requires IsRun(states, steps) && j <= i < |states|
    requires forall w, m :: Offered(states[j], w, m) ==> (w, m) in Registered(states[j].registry)
    requires Offered(states[i], v, n)
    ensures RegisteredSince(states, j, i, v, n)
    decreases i
  {
    hide Enabled, Next, Offered, Registered;
    if i > j {
      RunKeepsInv(states, steps, i - 1);
      StepOffers(states[i - 1], steps[i - 1], v, n);
      if Offered(states[i - 1], v, n) {
        ServedSince(states, steps, j, i - 1, v, n);
      }
    }
  }

  /** On every run, at every point, a cached node was registered under that version at some time. */
  lemma OnlyRegisteredServed(states: seq<State>, steps: seq<Step>, i: nat, v: string, n: Node)
    requires IsRun(states, steps) && i < |states|
    requires states[i].entry.Some? && (v, n) in Registered(states[i].entry.value)
    ensures RegisteredSince(states, 0, i, v, n)
  {
    ServedSince(states, steps, 0, i, v, n);
  }

  /** Once the cache was in line, whatever happens next, a cached node was registered then or since: over
      one change that is old or new. */
  lemma OldOrNewServed(states: seq<State>, steps: seq<Step>, j: nat, i: nat, v: string, n: Node)
    requires IsRun(states, steps) && j <= i < |states| && AllShown(states[..j + 1], steps[..j])
    requires states[j].seen && states[j].queue == []
    requires states[i].entry.Some? && (v, n) in Registered(states[i].entry.value)
    ensures RegisteredSince(states, j, i, v, n)
  {
    if states[j].entry.Some? {
      assert IsRun(states[..j + 1], steps[..j]);
      CacheFollowsRegistry(states[..j + 1], steps[..j], j);
      AgreesNodes(states[j].entry.value, states[j].registry);
    }
    ServedSince(states, steps, j, i, v, n);
  }

  lemma AgreesNodes(m: Snapshot, t: Snapshot)
    requires Agrees(m, t)
    ensures forall v, n :: (v, n) in Registered(m) ==> (v, n) in Registered(t)
  {
    forall v, n | (v, n) in Registered(m)
      ensures (v, n) in Registered(t)
    {
      assert Live(At(m, v)) == Live(At(t, v));
    }
  }

  // ------------------------------------------------------------ runs that leave a stale node

  function Alone(n: Node): Snapshot
  {
    map["1" := Service("s", "1", [], [n])]
  }

  function Both(n: Node, m: Node): Snapshot
  {
    map["1" := Service("s", "1", [], [n, m])]
  }

  /** Where the watcher remembers nothing, a cached node that left the registry outlives the next snapshot. */
  lemma StaleEnding(s: State, gone: Node, kept: Node)
    requires gone.id != kept.id
    requires s.registry == Alone(kept) && s.entry == Some(Both(gone, kept))
    requires s.queue == [] && s.was.None? && !s.watched
    ensures Enabled(s, Enlist)
    ensures
      var s1 := Next(s, Enlist);
      && Enabled(s1, Observe(["1"]))
      && var s2 := Next(s1, Observe(["1"]));
      && Enabled(s2, Deliver)
      && var s3 := Next(s2, Deliver);
      && Enabled(s3, Deliver)
      && var s4 := Next(s3, Deliver);
      && Stale(s4)
  {
    var neu := Alone(kept);
    var order := ["1"];
    assert "1" in neu;
    var s1 := Next(s, Enlist);
    assert Enabled(s1, Observe(order));
    OneCreate(neu, order);
    var s2 := Next(s1, Observe(order));
    assert s2.queue == [NEWS, Event(Create, neu["1"])];
    var s3 := Next(s2, Deliver);
    assert Put(Both(gone, kept), "", At(Both(gone, kept), "")) == Both(gone, kept);
    assert "1" in Both(gone, kept);
    assert s3.entry == s.entry && s3.queue == [Event(Create, neu["1"])];
    var s4 := Next(s3, Deliver);
    MergeBoth(gone, kept);
    assert "1" in s4.entry.value;
    GoneIsStale(s4, gone, kept);
  }

  lemma OneCreate(neu: Snapshot, order: seq<string>)
    requires order == ["1"] && "1" in neu
    ensures Diff(None, neu, order) == [Event(Create, neu["1"])]
  {
    assert order[..0] == [] && NewEvents(None, neu, order[..0]) == [];
    assert EventsFor(None, neu["1"]) == [Event(Create, neu["1"])];
  }

  lemma MergeBoth(gone: Node, kept: Node)
    requires gone.id != kept.id
    ensures gone in Merge([kept], [gone, kept])
  {
    var more := [gone, kept];
    assert more[..1] == [gone] && more[..1][..0] == [];
    MergeMembers([kept], more);
    assert more[0] == gone && gone in more;
    assert gone.id in Ids(more);
    var n :| n in Merge([kept], more) && n.id == gone.id;
    assert n in [kept] || n in more;
  }

  ghost predicate Stale(s: State)
  {
    s.seen && s.queue == [] && s.entry.Some? && !Agrees(s.entry.value, s.registry)
  }

  lemma GoneIsStale(s: State, gone: Node, kept: Node)
    requires gone.id != kept.id && s.seen && s.queue == [] && s.entry.Some?
    requires s.registry == Alone(kept) && gone in NodesAt(At(s.entry.value, "1"))
    ensures Stale(s)
  {
    assert At(s.registry, "1").value.nodes == [kept];
    assert Live(At(s.entry.value, "1")) != Live(At(s.registry, "1"));
  }

  lemma Extend(states: seq<State>, steps: seq<Step>, step: Step) returns (t: seq<State>, u: seq<Step>)
    requires IsRun(states, steps) && Enabled(states[|steps|], step)
    ensures IsRun(t, u) && u == steps + [step] && t == states + [Next(states[|steps|], step)]
  {
    hide Enabled, Next;
    t, u := states + [Next(states[|steps|], step)], steps + [step];
  }

  lemma ExtendStale(states: seq<State>, steps: seq<Step>, gone: Node, kept: Node) returns (t: seq<State>, u: seq<Step>)
    requires IsRun(states, steps) && gone.id != kept.id
    requires
      var s := states[|steps|];
      && s.registry == Alone(kept) && s.entry == Some(Both(gone, kept))
      && s.queue == [] && s.was.None? && !s.watched
    ensures IsRun(t, u) && u == steps + [Enlist, Observe(["1"]), Deliver, Deliver] && Stale(t[|u|])
    ensures states <= t
  {
    hide Enabled, Next, Stale;
    StaleEnding(states[|steps|], gone, kept);
    t, u := Extend(states, steps, Enlist);
    t, u := Extend(t, u, Observe(["1"]));
    t, u := Extend(t, u, Deliver);
    t, u := Extend(t, u, Deliver);
  }

  /** A content that was looked up and then passed unseen: one of its nodes is served for good. */
  lemma SkippedContentStays(gone: Node, kept: Node) returns (states: seq<State>, steps: seq<Step>)
    requires gone.id != kept.id
    ensures IsRun(states, steps) && Stale(states[|steps|])
    ensures steps == [Lookup, Change(Alone(kept)), Enlist, Observe(["1"]), Deliver, Deliver]
    ensures !Shown(states[1], steps[1])
  {
    var s := State(Both(gone, kept), false, map[], None, false, [], None, false);
    states, steps := [s], [];
    states, steps := Extend(states, steps, Lookup);
    states, steps := Extend(states, steps, Change(Alone(kept)));
    ghost var before := states;
    states, steps := ExtendStale(states, steps, gone, kept);
    assert states[1] == before[1];
  }

  /** A watcher replaced just after a node left: the node is served for good, though every content was seen. */
  lemma RestartStays(gone: Node, kept: Node) returns (states: seq<State>, steps: seq<Step>)
    requires gone.id != kept.id
    ensures IsRun(states, steps) && Stale(states[|steps|])
    ensures steps == [Enlist, Observe(["1"]), Lookup, Change(Alone(kept)), Restart, Enlist, Observe(["1"]), Deliver, Deliver]
    ensures !Shown(states[4], steps[4]) && forall i :: 0 <= i < |steps| && i != 4 ==> Shown(states[i], steps[i])
  {
    var s := State(Both(gone, kept), false, map[], None, false, [], None, false);
    states, steps := [s], [];
    assert "1" in s.registry;
    states, steps := Extend(states, steps, Enlist);
    states, steps := Extend(states, steps, Observe(["1"]));
    states, steps := Extend(states, steps, Lookup);
    assert !states[3].refilled;
    states, steps := Extend(states, steps, Change(Alone(kept)));
    assert gone in Both(gone, kept)["1"].nodes;
    assert gone.id in IdsAt(At(states[4].entry.value, "1")) && gone.id !in IdsAt(At(states[4].registry, "1"));
    ghost var before := states;
    states, steps := Extend(states, steps, Restart);
    states, steps := ExtendStale(states, steps, gone, kept);
    assert states[3] == before[3] && states[4] == before[4];
  }

  /** A service that leaves before the watcher has listed it: the watcher announces nothing, and what was
      looked up is served for good. */
  lemma UnlistedLeaveStays(n: Node) returns (states: seq<State>, steps: seq<Step>)
    ensures IsRun(states, steps) && Stale(states[|steps|])
    ensures steps == [Lookup, Change(map[]), Leave]
    ensures !Shown(states[1], steps[1])
  {
    var s := State(Alone(n), false, map[], None, false, [], None, false);
    states, steps := [s], [];
    states, steps := Extend(states, steps, Lookup);
    states, steps := Extend(states, steps, Change(map[]));
    states, steps := Extend(states, steps, Leave);
    assert Live(At(states[3].entry.value, "1")) != Live(At(states[3].registry, "1"));
  }
}
