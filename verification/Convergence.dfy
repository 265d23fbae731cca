/** What the events of one diff make of a cached version: exactly the new one, from any content within the
    old and the new snapshot, in any order of versions, and wherever a lookup refills it in between. */
module Convergence {
  import opened Values
  import opened Registry
  import opened SelectorCache
  import opened Watcher

  // ------------------------------------------------------------ one version at a time

  /** A version without nodes counts as absent. */
  function Live(o: Option<Service>): Option<Service>
  {
    if o.Some? && o.value.nodes != [] then o else None
  }

  function IdsAt(o: Option<Service>): set<string>
  {
    if o.Some? then Ids(o.value.nodes) else {}
  }

  function NodesAt(o: Option<Service>): seq<Node>
  {
    if o.Some? then o.value.nodes else []
  }

  function StepVersion(o: Option<Service>, ev: Event, v: string): Option<Service>
  {
    if ev.service.version == v then ApplyVersion(o, ev) else o
  }

  /** What a run of events makes of one version. */
  function Replay(q: seq<Event>, o: Option<Service>, v: string): Option<Service>
  {
    if q == [] then o else StepVersion(Replay(q[..|q| - 1], o, v), q[|q| - 1], v)
  }

  lemma {:induction false} ReplayConcat(a: seq<Event>, b: seq<Event>, o: Option<Service>, v: string)
    ensures Replay(a + b, o, v) == Replay(b, Replay(a, o, v), v)
  {
    if b == [] {
      assert a + b == a;
    } else {
      ReplayConcat(a, b[..|b| - 1], o, v);
      assert (a + b)[..|a + b| - 1] == a + b[..|b| - 1];
    }
  }

  lemma ReplayFirst(q: seq<Event>, o: Option<Service>, v: string)
    requires q != []
    ensures Replay(q, o, v) == Replay(q[1..], StepVersion(o, q[0], v), v)
  {
    assert q == [q[0]] + q[1..];
    ReplayConcat([q[0]], q[1..], o, v);
    assert Replay([], o, v) == o;
    assert [q[0]][..0] == [];
  }

  lemma {:induction false} ReplayOther(q: seq<Event>, o: Option<Service>, v: string)
    requires forall ev :: ev in q ==> ev.service.version != v
    ensures Replay(q, o, v) == o
  {
    if q != [] {
      assert q[|q| - 1] in q;
      ReplayOther(q[..|q| - 1], o, v);
    }
  }

  lemma StepIds(o: Option<Service>, ev: Event, v: string)
    ensures IdsAt(StepVersion(o, ev, v)) ==
      if ev.service.version != v then IdsAt(o)
      else if ev.action.Delete? then IdsAt(o) - Ids(ev.service.nodes)
      else IdsAt(o) + Ids(ev.service.nodes)
  {
    if o.Some? {
      KeepMembers(o.value.nodes, ev.service.nodes);
      MergeMembers(ev.service.nodes, o.value.nodes);
    }
  }

  /** What a replay leaves comes from its start or from the events. */
  lemma {:induction false} ReplayIds(q: seq<Event>, o: Option<Service>, v: string)
    ensures IdsAt(Replay(q, o, v)) <= IdsAt(o) + IdsAt(Replay(q, None, v))
    ensures IdsAt(Replay(q, None, v)) <= IdsAt(Replay(q, o, v))
  {
    if q != [] {
      ReplayIds(q[..|q| - 1], o, v);
      StepIds(Replay(q[..|q| - 1], o, v), q[|q| - 1], v);
      StepIds(Replay(q[..|q| - 1], None, v), q[|q| - 1], v);
    }
  }

  lemma NoIds(o: Option<Service>)
    ensures IdsAt(o) == {} <==> Live(o) == None
    ensures Live(o).Some? ==> Live(o) == o
    ensures IdsAt(Live(o)) == IdsAt(o)
  {
    if o.Some? && o.value.nodes != [] {
      assert o.value.nodes[0] in o.value.nodes;
      assert o.value.nodes[0].id in IdsAt(o);
    }
  }

  // ------------------------------------------------------------ one diff

  ghost predicate WellKeyed(m: Snapshot)
  {
    forall v :: v in m ==> m[v].version == v
  }

  /** Some old entry of the version has a node with the id. */
  ghost predicate InOld(was: Option<seq<Service>>, v: string, id: string)
  {
    was.Some? && exists w :: w in was.value && w.version == v && id in Ids(w.nodes)
  }

  lemma {:induction false} GoneNodesIs(was: seq<Service>, neu: Service)
    ensures forall ev :: ev in GoneNodes(was, neu) ==>
      && ev.action.Delete? && ev.service.version == neu.version
      && Ids(ev.service.nodes) !! Ids(neu.nodes)
      && forall id :: id in Ids(ev.service.nodes) ==> InOld(Some(was), neu.version, id)
  {
    if was != [] {
      var init, w := was[..|was| - 1], was[|was| - 1];
      assert was == init + [w];
      GoneNodesIs(init, neu);
      KeepMembers(w.nodes, neu.nodes);
      forall ev | ev in GoneNodes(was, neu)
        ensures forall id :: id in Ids(ev.service.nodes) ==> InOld(Some(was), neu.version, id)
      {
        forall id | id in Ids(ev.service.nodes)
          ensures InOld(Some(was), neu.version, id)
        {
          if ev in GoneNodes(init, neu) {
            var x :| x in init && x.version == neu.version && id in Ids(x.nodes);
            assert x in was;
          }
        }
      }
    }
  }

  /** After its deletes no id is left that the old version had and the new one has not. */
  lemma {:induction false} AfterGoneNodes(was: seq<Service>, neu: Service, o: Option<Service>, id: string)
    requires id in IdsAt(Replay(GoneNodes(was, neu), o, neu.version))
    ensures id in IdsAt(o)
    ensures InOld(Some(was), neu.version, id) ==> id in Ids(neu.nodes)
  {
    if was != [] {
      var init, w := was[..|was| - 1], was[|was| - 1];
      assert was == init + [w];
      var gone := Keep(w.nodes, neu.nodes);
      KeepMembers(w.nodes, neu.nodes);
      if w.version == neu.version && gone != [] {
        var g := GoneNodes(init, neu);
        var ev := Event(Delete, w.(nodes := gone));
        assert (g + [ev])[..|g|] == g;
        StepIds(Replay(g, o, neu.version), ev, neu.version);
      } else if w.version == neu.version {
        assert Ids(gone) == {};
      }
      AfterGoneNodes(init, neu, o, id);
    }
  }

  lemma AfterEventsFor(was: Option<seq<Service>>, neu: Service, o: Option<Service>)
    requires forall id :: id in IdsAt(o) ==> InOld(was, neu.version, id) || id in Ids(neu.nodes)
    ensures Live(Replay(EventsFor(was, neu), o, neu.version)) == Live(Some(neu))
  {
    var v := neu.version;
    var g := if was.Some? then GoneNodes(was.value, neu) else [];
    var ev := Event(if was.Some? && HasVersion(was.value, v) then Update else Create, neu);
    assert EventsFor(was, neu) == g + [ev] && (g + [ev])[..|g|] == g;
    var p := Replay(g, o, v);
    forall id | id in IdsAt(p)
      ensures id in Ids(neu.nodes)
    {
      if was.Some? {
        AfterGoneNodes(was.value, neu, o, id);
      }
    }
    NoIds(p);
    if neu.nodes != [] && p.Some? {
      MergeNothing(neu.nodes, p.value.nodes);
    } else if neu.nodes == [] {
      assert Ids(neu.nodes) == {};
    }
  }

  lemma EventsForVersion(was: Option<seq<Service>>, neu: Service)
    ensures forall ev :: ev in EventsFor(was, neu) ==> ev.service.version == neu.version
  {
    if was.Some? {
      GoneNodesIs(was.value, neu);
    }
  }

  /** The new versions' events make each of them exact, in whatever order they come. */
  lemma {:induction false} AfterNewEvents(
      was: Option<seq<Service>>, neu: Snapshot, order: seq<string>, o: Option<Service>, v: string)
    requires WellKeyed(neu) && forall w :: w in order ==> w in neu
    requires forall i, j :: 0 <= i < j < |order| ==> order[i] != order[j]
    requires v in order ==> forall id :: id in IdsAt(o) ==> InOld(was, v, id) || id in IdsAt(At(neu, v))
    ensures v in order ==> Live(Replay(NewEvents(was, neu, order), o, v)) == Live(At(neu, v))
    ensures v !in order ==> Replay(NewEvents(was, neu, order), o, v) == o
  {
    if order != [] {
      var init, w := order[..|order| - 1], order[|order| - 1];
      assert order == init + [w];
      AfterNewEvents(was, neu, init, o, v);
      ReplayConcat(NewEvents(was, neu, init), EventsFor(was, neu[w]), o, v);
      if w == v {
        AfterEventsFor(was, neu[v], o);
      } else {
        EventsForVersion(was, neu[w]);
        ReplayOther(EventsFor(was, neu[w]), Replay(NewEvents(was, neu, init), o, v), v);
      }
    }
  }

  lemma {:induction false} GoneVersionsIs(was: seq<Service>, neu: Snapshot)
    ensures forall ev :: ev in GoneVersions(was, neu) ==>
      ev.action.Delete? && ev.service.version !in neu && ev.service in was
  {
    if was != [] {
      assert was == was[..|was| - 1] + [was[|was| - 1]];
      GoneVersionsIs(was[..|was| - 1], neu);
    }
  }

  lemma {:induction false} AfterGoneVersions(was: seq<Service>, neu: Snapshot, o: Option<Service>, v: string, id: string)
    requires v !in neu && id in IdsAt(Replay(GoneVersions(was, neu), o, v))
    ensures id in IdsAt(o) && !InOld(Some(was), v, id)
  {
    if was != [] {
      var init, w := was[..|was| - 1], was[|was| - 1];
      assert was == init + [w];
      var g := GoneVersions(init, neu);
      if w.version !in neu {
        assert (g + [Event(Delete, w)])[..|g|] == g;
        StepIds(Replay(g, o, v), Event(Delete, w), v);
      }
      AfterGoneVersions(init, neu, o, v, id);
    }
  }

  /** Replaying a diff on any content within old and new leaves exactly new. */
  lemma AfterDiff(was: Option<seq<Service>>, neu: Snapshot, order: seq<string>, o: Option<Service>, v: string)
    requires WellKeyed(neu) && IsOrder(order, neu.Keys)
    requires forall id :: id in IdsAt(o) ==> InOld(was, v, id) || id in IdsAt(At(neu, v))
    ensures Live(Replay(Diff(was, neu, order), o, v)) == Live(At(neu, v))
  {
    AfterNewEvents(was, neu, order, o, v);
    var g := if was.Some? then GoneVersions(was.value, neu) else [];
    ReplayConcat(NewEvents(was, neu, order), g, o, v);
    if was.Some? {
      GoneVersionsIs(was.value, neu);
    }
    if v in neu {
      ReplayOther(g, Replay(NewEvents(was, neu, order), o, v), v);
    } else {
      NoIds(Replay(g, o, v));
      forall id | id in IdsAt(Replay(g, o, v))
        ensures false
      {
        if was.Some? {
          AfterGoneVersions(was.value, neu, o, v, id);
        }
      }
    }
  }

  // ------------------------------------------------------------ events of a diff

  /** An event of a diff either carries a new version, or deletes old nodes that are not new. */
  ghost predicate FromDiff(ev: Event, was: Option<seq<Service>>, neu: Snapshot)
  {
    var v := ev.service.version;
    if ev.action.Delete? then
      && Ids(ev.service.nodes) !! IdsAt(At(neu, v))
      && forall id :: id in Ids(ev.service.nodes) ==> InOld(was, v, id)
    else v in neu && ev.service == neu[v]
  }

  lemma EventsForFromDiff(was: Option<seq<Service>>, neu: Snapshot, v: string)
    requires WellKeyed(neu) && v in neu
    ensures forall ev :: ev in EventsFor(was, neu[v]) ==> FromDiff(ev, was, neu)
  {
    if was.Some? {
      GoneNodesIs(was.value, neu[v]);
    }
  }

  lemma {:induction false} NewEventsFromDiff(was: Option<seq<Service>>, neu: Snapshot, order: seq<string>)
    requires WellKeyed(neu) && forall v :: v in order ==> v in neu
    ensures forall ev :: ev in NewEvents(was, neu, order) ==> FromDiff(ev, was, neu)
  {
    if order != [] {
      NewEventsFromDiff(was, neu, order[..|order| - 1]);
      EventsForFromDiff(was, neu, order[|order| - 1]);
    }
  }

  lemma DiffEvents(was: Option<seq<Service>>, neu: Snapshot, order: seq<string>)
    requires WellKeyed(neu) && forall v :: v in order ==> v in neu
    ensures forall ev :: ev in Diff(was, neu, order) ==> FromDiff(ev, was, neu)
  {
    NewEventsFromDiff(was, neu, order);
    if was.Some? {
      GoneVersionsIs(was.value, neu);
    }
  }

  lemma {:induction false} KeepAll(nodes: seq<Node>, gone: seq<Node>)
    requires Ids(nodes) !! Ids(gone)
    ensures Keep(nodes, gone) == nodes
  {
    if nodes != [] {
      var init, n := nodes[..|nodes| - 1], nodes[|nodes| - 1];
      assert nodes == init + [n];
      IdsAppend(init, n);
      KeepAll(init, gone);
    }
  }

  /** A version that is new already stays so under any event of the diff. */
  lemma StableStep(o: Option<Service>, ev: Event, v: string, was: Option<seq<Service>>, neu: Snapshot)
    requires FromDiff(ev, was, neu) && Live(o) == Live(At(neu, v))
    ensures Live(StepVersion(o, ev, v)) == Live(At(neu, v))
  {
    NoIds(o);
    NoIds(At(neu, v));
    StepIds(o, ev, v);
    NoIds(StepVersion(o, ev, v));
    if o.Some? && ev.service.version == v {
      if ev.action.Delete? {
        KeepAll(o.value.nodes, ev.service.nodes);
      } else {
        MergeNothing(ev.service.nodes, o.value.nodes);
      }
    }
  }

  lemma {:induction false} StableReplay(
      q: seq<Event>, o: Option<Service>, v: string, was: Option<seq<Service>>, neu: Snapshot)
    requires forall ev :: ev in q ==> FromDiff(ev, was, neu)
    requires Live(o) == Live(At(neu, v))
    ensures Live(Replay(q, o, v)) == Live(At(neu, v))
  {
    if q != [] {
      StableReplay(q[..|q| - 1], o, v, was, neu);
      assert q[|q| - 1] in q;
      StableStep(Replay(q[..|q| - 1], o, v), q[|q| - 1], v, was, neu);
    }
  }

  /** At every point of a diff's replay, the nodes of a version come from its start or from new. */
  lemma {:induction false} ServedBetween(
      q: seq<Event>, o: Option<Service>, v: string, was: Option<seq<Service>>, neu: Snapshot)
    requires forall ev :: ev in q ==> FromDiff(ev, was, neu)
    ensures forall n :: n in NodesAt(Replay(q, o, v)) ==> n in NodesAt(o) || n in NodesAt(At(neu, v))
  {
    if q != [] {
      var p, ev := Replay(q[..|q| - 1], o, v), q[|q| - 1];
      ServedBetween(q[..|q| - 1], o, v, was, neu);
      assert ev in q;
      if p.Some? {
        KeepMembers(p.value.nodes, ev.service.nodes);
        MergeMembers(ev.service.nodes, p.value.nodes);
      }
    }
  }
}
