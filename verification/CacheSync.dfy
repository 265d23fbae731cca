/** Watcher and cache put together: the events of one snapshot, replayed through the cache's own
    update, bring the cached name in line with it. */
module CacheSync {
  import opened Values
  import opened Registry
  import opened SelectorCache
  import opened Watcher
  import opened Convergence
  import opened Following

  ghost predicate AllOf(events: seq<Event>, name: string)
  {
    forall ev :: ev in events ==> ev.service.name == name
  }

  /** What the watcher diffs and what a lookup caches are the same snapshot of the same entries. */
  lemma SnapshotsAgree(entries: seq<Entry>, name: string)
    requires AllNamed(entries, name)
    ensures WellKeyed(Group(entries)) && Group(OfName(entries, name)) == Group(entries)
    ensures forall v :: v in Group(entries) ==> Group(entries)[v].name == name
  {
    OfNameAll(entries, name);
    forall v | v in Group(entries)
      ensures Group(entries)[v].version == v && Group(entries)[v].name == name
    {
      GroupIs(entries, name, v);
    }
  }

  lemma {:induction false} GoneNodesNamed(was: seq<Service>, neu: Service, name: string)
    requires Named(was, name)
    ensures AllOf(GoneNodes(was, neu), name)
  {
    if was != [] {
      assert was[|was| - 1] in was;
      GoneNodesNamed(was[..|was| - 1], neu, name);
    }
  }

  lemma {:induction false} NewEventsNamed(was: Option<seq<Service>>, neu: Snapshot, order: seq<string>, name: string)
    requires was.Some? ==> Named(was.value, name)
    requires forall v :: v in order ==> v in neu && neu[v].name == name
    ensures AllOf(NewEvents(was, neu, order), name)
  {
    if order != [] {
      var init, v := order[..|order| - 1], order[|order| - 1];
      NewEventsNamed(was, neu, init, name);
      assert v in order;
      if was.Some? {
        GoneNodesNamed(was.value, neu[v], name);
      }
    }
  }

  lemma DiffNamed(was: Option<seq<Service>>, neu: Snapshot, order: seq<string>, name: string)
    requires was.Some? ==> Named(was.value, name)
    requires forall v :: v in order ==> v in neu && neu[v].name == name
    ensures AllOf(Diff(was, neu, order), name)
  {
    NewEventsNamed(was, neu, order, name);
    if was.Some? {
      GoneVersionsIs(was.value, neu);
    }
  }

  /** The watch loop on the events of one name. */
  method ReplayAll(c: CacheSelector, name: string, events: seq<Event>, now: int)
    requires c.Valid() && AllOf(events, name)
    modifies c`cache, c`ttls, c`storedAt
    ensures c.Valid()
    ensures c.cache - {name} == old(c.cache) - {name}
    ensures name !in old(c.cache) ==> name !in c.cache
    ensures name in old(c.cache) ==>
      var r := ReplayEntry(events, ToMap(old(c.cache)[name]));
      if r.None? then name !in c.cache else name in c.cache && ToMap(c.cache[name]) == r.value
  {
    hide Apply, ApplyMap, ToMap;
    ghost var m := if name in c.cache then Some(ToMap(c.cache[name])) else None;
    for i := 0 to |events|
      invariant c.Valid() && c.cache - {name} == old(c.cache) - {name}
      invariant m.None? ==> name !in c.cache
      invariant m.Some? ==>
        var r := ReplayEntry(events[..i], m.value);
        if r.None? then name !in c.cache else name in c.cache && ToMap(c.cache[name]) == r.value
    {
      assert events[..i + 1][..i] == events[..i];
      assert events[i] in events;
      if name in c.cache {
        ApplyIsApplyMap(c.cache[name], events[i]);
      }
      ghost var before := c.cache;
      var _ := c.Update(events[i], now);
      OtherNames(before, c.cache, name);
    }
    assert events[..|events|] == events;
  }

  lemma OtherNames(a: map<string, seq<Service>>, b: map<string, seq<Service>>, name: string)
    requires b == a || b == a - {name} || (name in b && b == a[name := b[name]])
    ensures b - {name} == a - {name}
  {
  }

  /** One snapshot through watcher and cache: afterwards the name is uncached, or cached exactly as the
      entries have it, provided every cached node was known to the watcher or is still registered. */
  method Sync(w: ConsulWatcher, c: CacheSelector, entries: seq<Entry>, name: string, now: int)
    requires c.Valid() && entries != [] && AllNamed(entries, name)
    requires name in w.services ==> Named(w.services[name], name)
    requires name in c.cache ==>
      Covered(ToMap(c.cache[name]), if name in w.services then Some(w.services[name]) else None, Group(entries))
    modifies w`services, c`cache, c`ttls, c`storedAt
    ensures c.Valid()
    ensures name in c.cache ==> Agrees(ToMap(c.cache[name]), Group(entries))
    ensures name in w.services && ToMap(w.services[name]) == Group(entries) && Named(w.services[name], name)
  {
    hide ReplayEntry, Diff, Group, ToMap;
    SnapshotsAgree(entries, name);
    ghost var was := if name in w.services then Some(w.services[name]) else None;
    ghost var cached := if name in c.cache then Some(ToMap(c.cache[name])) else None;
    assert entries[|entries| - 1] in entries;
    var next, order := w.ServiceHandler(entries);
    DiffNamed(was, Group(entries), order, name);
    ListIsSnapshot(Group(entries), order);
    ListNamed(Group(entries), order, name);
    ReplayAll(c, name, next, now);
    if cached.Some? && ReplayEntry(next, cached.value).Some? {
      DiffConvergesIff(cached.value, was, Group(entries), order);
    }
  }

  lemma {:induction false} ListNamed(m: Snapshot, order: seq<string>, name: string)
    requires forall v :: v in order ==> v in m && m[v].name == name
    ensures Named(InOrder(m, order), name)
  {
    if order != [] {
      ListNamed(m, order[..|order| - 1], name);
      assert order[|order| - 1] in order;
    }
  }
}
