/** The selector cache of selector/cache/cache.go: what one watch event does to one cached name,
    first on lists of services as the source has it, then on version-keyed maps. */
module SelectorCache {
  import opened Values
  import opened Registry

  /** Index of the last service with the version, or -1. */
  function FindLast(services: seq<Service>, version: string): int
  {
    if services == [] then -1
    else if services[|services| - 1].version == version then |services| - 1
    else FindLast(services[..|services| - 1], version)
  }

  function WithoutVersion(services: seq<Service>, version: string): seq<Service>
  {
    if services == [] then [] else
      var init, s := services[..|services| - 1], services[|services| - 1];
      if s.version != version then WithoutVersion(init, version) + [s] else WithoutVersion(init, version)
  }

  ghost predicate DistinctVersions(services: seq<Service>)
  {
    forall i, j :: 0 <= i < j < |services| ==> services[i].version != services[j].version
  }

  lemma {:induction false} FindLastIs(services: seq<Service>, version: string)
    ensures -1 <= FindLast(services, version) < |services|
    ensures FindLast(services, version) >= 0 ==> services[FindLast(services, version)].version == version
    ensures forall i :: FindLast(services, version) < i < |services| ==> services[i].version != version
  {
    if services != [] {
      FindLastIs(services[..|services| - 1], version);
    }
  }

  lemma VersionFound(services: seq<Service>, version: string)
    ensures FindLast(services, version) >= 0 <==> exists s :: s in services && s.version == version
  {
    FindLastIs(services, version);
    if FindLast(services, version) >= 0 {
      assert services[FindLast(services, version)] in services;
    }
  }

  /** What an event leaves of a cached list; None when the name is dropped from the cache. */
  function Apply(services: seq<Service>, ev: Event): Option<seq<Service>>
  {
    var svc := ev.service;
    if svc.nodes == [] then
      if ev.action.Delete? then None else Some(services)
    else
      FindLastIs(services, svc.version);
      var i := FindLast(services, svc.version);
      if ev.action.Delete? then
        if i < 0 then Some(services) else
        var kept := Keep(services[i].nodes, svc.nodes);
        if kept != [] then Some(services[i := services[i].(nodes := kept)])
        else if |services| == 1 then None
        else Some(WithoutVersion(services, svc.version))
      else
        if i < 0 then Some(services + [svc])
        else Some(services[i := svc.(nodes := Merge(svc.nodes, services[i].nodes))])
  }

  // ------------------------------------------------------------ on maps

  /** The version-keyed content of a list. */
  function ToMap(services: seq<Service>): Snapshot
  {
    if services == [] then map[]
    else ToMap(services[..|services| - 1])[services[|services| - 1].version := services[|services| - 1]]
  }

  /** What an event does to the one version it is about. */
  function ApplyVersion(o: Option<Service>, ev: Event): Option<Service>
  {
    var svc := ev.service;
    if svc.nodes == [] then o
    else if ev.action.Delete? then
      if o.None? then None else
      var kept := Keep(o.value.nodes, svc.nodes);
      if kept == [] then None else Some(o.value.(nodes := kept))
    else
      Some(if o.None? then svc else svc.(nodes := Merge(svc.nodes, o.value.nodes)))
  }

  function At(m: Snapshot, version: string): Option<Service>
  {
    if version in m then Some(m[version]) else None
  }

  function Put(m: Snapshot, version: string, o: Option<Service>): Snapshot
  {
    if o.Some? then m[version := o.value] else m - {version}
  }

  /** Drops the name from the cache. */
  predicate Drops(ev: Event)
  {
    ev.service.nodes == [] && ev.action.Delete?
  }

  /** The cached name as a map: an event changes its own version only, and the name is dropped by
      a delete without nodes or when a delete takes the last version. */
  function ApplyMap(m: Snapshot, ev: Event): Option<Snapshot>
  {
    if Drops(ev) then None else
    var v := ev.service.version;
    var m' := Put(m, v, ApplyVersion(At(m, v), ev));
    if m' == map[] && v in m then None else Some(m')
  }

  lemma {:induction false} ToMapIs(services: seq<Service>, v: string)
    ensures v in ToMap(services) <==> FindLast(services, v) >= 0
    ensures v in ToMap(services) ==> FindLast(services, v) < |services| && ToMap(services)[v] == services[FindLast(services, v)]
  {
    FindLastIs(services, v);
    if services != [] {
      FindLastIs(services[..|services| - 1], v);
      ToMapIs(services[..|services| - 1], v);
    }
  }

  lemma {:induction false} ToMapReplace(services: seq<Service>, i: nat, s: Service)
    requires i < |services| && DistinctVersions(services) && s.version == services[i].version
    ensures ToMap(services[i := s]) == ToMap(services)[s.version := s]
    ensures DistinctVersions(services[i := s])
  {
    var init, last := services[..|services| - 1], services[|services| - 1];
    if i < |init| {
      ToMapReplace(init, i, s);
      assert services[i := s][..|init|] == init[i := s];
    } else {
      assert services[i := s][..|init|] == init;
    }
  }

  lemma {:induction false} WithoutMembers(services: seq<Service>, v: string)
    requires DistinctVersions(services)
    ensures DistinctVersions(WithoutVersion(services, v))
    ensures forall s :: s in WithoutVersion(services, v) <==> s in services && s.version != v
  {
    if services != [] {
      var init, last := services[..|services| - 1], services[|services| - 1];
      assert services == init + [last];
      WithoutMembers(init, v);
      var w := WithoutVersion(init, v);
      forall i | 0 <= i < |w|
        ensures w[i].version != last.version
      {
        assert w[i] in init;
      }
    }
  }

  lemma {:induction false} ToMapWithout(services: seq<Service>, v: string)
    ensures ToMap(WithoutVersion(services, v)) == ToMap(services) - {v}
  {
    if services != [] {
      var init, last := services[..|services| - 1], services[|services| - 1];
      ToMapWithout(init, v);
      if last.version != v {
        ToMapAppend(WithoutVersion(init, v), last);
      }
    }
  }

  lemma ToMapAppend(services: seq<Service>, s: Service)
    ensures ToMap(services + [s]) == ToMap(services)[s.version := s]
  {
    assert (services + [s])[..|services|] == services;
  }

  lemma ToMapEmpty(services: seq<Service>)
    ensures ToMap(services) == map[] <==> services == []
  {
    if services != [] {
      assert services[|services| - 1].version in ToMap(services);
    }
  }

  /** The list operation is the map operation, and it keeps versions distinct. */
  lemma ApplyIsApplyMap(services: seq<Service>, ev: Event)
    requires DistinctVersions(services)
    ensures Apply(services, ev).None? <==> ApplyMap(ToMap(services), ev).None?
    ensures Apply(services, ev).Some? ==>
      && ToMap(Apply(services, ev).value) == ApplyMap(ToMap(services), ev).value
      && DistinctVersions(Apply(services, ev).value)
  {
    if ev.service.nodes != [] {
      if ev.action.Delete? {
        ApplyDelete(services, ev);
      } else {
        ApplyAdd(services, ev);
      }
    } else {
      var v := ev.service.version;
      assert Put(ToMap(services), v, At(ToMap(services), v)) == ToMap(services);
      if v in ToMap(services) {
        assert ToMap(services) != map[];
      }
    }
  }

  lemma ApplyAdd(services: seq<Service>, ev: Event)
    requires DistinctVersions(services) && ev.service.nodes != [] && !ev.action.Delete?
    ensures Apply(services, ev).Some? && DistinctVersions(Apply(services, ev).value)
    ensures ApplyMap(ToMap(services), ev) == Some(ToMap(Apply(services, ev).value))
  {
    var svc := ev.service;
    ToMapIs(services, svc.version);
    FindLastIs(services, svc.version);
    var i := FindLast(services, svc.version);
    if i < 0 {
      ToMapAppend(services, svc);
      assert DistinctVersions(services + [svc]);
    } else {
      ToMapReplace(services, i, svc.(nodes := Merge(svc.nodes, services[i].nodes)));
    }
    var m' := ToMap(Apply(services, ev).value);
    assert svc.version in m';
  }

  lemma ApplyDelete(services: seq<Service>, ev: Event)
    requires DistinctVersions(services) && ev.service.nodes != [] && ev.action.Delete?
    ensures Apply(services, ev).None? <==> ApplyMap(ToMap(services), ev).None?
    ensures Apply(services, ev).Some? ==>
      && ToMap(Apply(services, ev).value) == ApplyMap(ToMap(services), ev).value
      && DistinctVersions(Apply(services, ev).value)
  {
    var v := ev.service.version;
    ToMapIs(services, v);
    FindLastIs(services, v);
    var i := FindLast(services, v);
    if i < 0 {
      assert Put(ToMap(services), v, None) == ToMap(services);
    } else {
      var kept := Keep(services[i].nodes, ev.service.nodes);
      if kept != [] {
        ToMapReplace(services, i, services[i].(nodes := kept));
        assert v in ToMap(services)[v := services[i].(nodes := kept)];
      } else {
        ToMapWithout(services, v);
        WithoutMembers(services, v);
        ToMapEmpty(WithoutVersion(services, v));
        SoleVersion(services, i, v);
      }
    }
  }

  lemma SoleVersion(services: seq<Service>, i: nat, v: string)
    requires DistinctVersions(services) && i < |services| && services[i].version == v
    ensures |services| == 1 <==> WithoutVersion(services, v) == []
  {
    WithoutMembers(services, v);
    if |services| > 1 {
      var j := if i == 0 then 1 else 0;
      assert services[j] in services && services[j].version != v;
    }
  }

  // ------------------------------------------------------------ the cache

  /** What the registry answers. */
  datatype Answer = Ok(services: seq<Service>) | NotFound | Failed

  datatype Lookup = Found(found: seq<Service>) | Error(error: Answer)

  ghost predicate Named(services: seq<Service>, name: string)
  {
    forall s :: s in services ==> s.name == name
  }

  /** An event that stores the list again, and so renews its time to live. */
  ghost predicate Renews(services: seq<Service>, ev: Event)
  {
    ev.service.nodes != [] && (ev.action.Delete? ==> FindLast(services, ev.service.version) >= 0)
  }

  /** The nodes an event takes out of a list. */
  ghost function Reported(services: seq<Service>, ev: Event): seq<Node>
  {
    FindLastIs(services, ev.service.version);
    var i := FindLast(services, ev.service.version);
    if ev.action.Delete? && ev.service.nodes != [] && i >= 0 then Dropped(services[i].nodes, ev.service.nodes) else []
  }

  /** The nodes a cache holds for a version of a name. */
  ghost function NodesIn(cache: map<string, seq<Service>>, name: string, version: string): seq<Node>
  {
    if name !in cache then [] else
      FindLastIs(cache[name], version);
      var i := FindLast(cache[name], version);
      if i >= 0 then cache[name][i].nodes else []
  }

  /** A delete that may take nodes out of what is cached. */
  predicate Deletes(ev: Event)
  {
    ev.action.Delete? && ev.service.nodes != []
  }

  /** What is reported and what is left make up what was there, and the event names exactly the former. */
  lemma ReportedAreGone(cache: map<string, seq<Service>>, ev: Event)
    requires ev.service.name in cache && DistinctVersions(cache[ev.service.name]) && Deletes(ev)
    ensures
      var name, v := ev.service.name, ev.service.version;
      var services := cache[name];
      var after := match Apply(services, ev) case None => cache - {name} case Some(s) => cache[name := s];
      && multiset(Reported(services, ev)) + multiset(NodesIn(after, name, v)) == multiset(NodesIn(cache, name, v))
      && (forall n :: n in Reported(services, ev) ==> exists d :: d in ev.service.nodes && d.id == n.id)
      && (forall n, d :: n in NodesIn(after, name, v) && d in ev.service.nodes ==> n.id != d.id)
  {
    var name, v := ev.service.name, ev.service.version;
    var services := cache[name];
    FindLastIs(services, v);
    var i := FindLast(services, v);
    if i >= 0 {
      KeepOrDrop(services[i].nodes, ev.service.nodes);
      KeepMembers(services[i].nodes, ev.service.nodes);
      DroppedMembers(services[i].nodes, ev.service.nodes);
      NodesLeft(cache, ev);
    }
  }

  lemma NodesLeft(cache: map<string, seq<Service>>, ev: Event)
    requires ev.service.name in cache && DistinctVersions(cache[ev.service.name]) && Deletes(ev)
    requires 0 <= FindLast(cache[ev.service.name], ev.service.version) < |cache[ev.service.name]|
    ensures
      var name, v := ev.service.name, ev.service.version;
      var services := cache[name];
      var after := match Apply(services, ev) case None => cache - {name} case Some(s) => cache[name := s];
      NodesIn(after, name, v) == Keep(services[FindLast(services, v)].nodes, ev.service.nodes)
  {
    var services, v := cache[ev.service.name], ev.service.version;
    ApplyIsApplyMap(services, ev);
    if Apply(services, ev).Some? {
      ToMapIs(Apply(services, ev).value, v);
      ToMapIs(services, v);
    }
  }

  class CacheSelector {
    const ttl: int
    const hasWatcher: bool
    var cache: map<string, seq<Service>>
    var ttls: map<string, int>
    var watched: set<string>
    ghost var storedAt: map<string, int>

    /** Cached lists hold one entry per version, all of the cached name, and a deadline one time to
        live after they were stored. */
    ghost predicate Valid()
      reads this
    {
      && storedAt.Keys == cache.Keys <= ttls.Keys
      && forall name :: name in cache ==>
        && DistinctVersions(cache[name])
        && Named(cache[name], name)
        && ttls[name] == storedAt[name] + ttl
    }

    constructor (ttl: int, hasWatcher: bool)
      ensures Valid() && cache == map[] && watched == {}
      ensures this.ttl == ttl && this.hasWatcher == hasWatcher
    {
      this.ttl, this.hasWatcher := ttl, hasWatcher;
      cache, ttls, watched, storedAt := map[], map[], {}, map[];
    }

    method Set(name: string, services: seq<Service>, now: int)
      requires Valid() && DistinctVersions(services) && Named(services, name)
      modifies this`cache, this`ttls, this`storedAt
      ensures Valid() && cache == old(cache)[name := services] && storedAt == old(storedAt)[name := now]
      ensures ttls == old(ttls)[name := now + ttl]
    {
      cache := cache[name := services];
      ttls := ttls[name := now + ttl];
      storedAt := storedAt[name := now];
    }

    method Del(name: string)
      requires Valid()
      modifies this`cache, this`ttls, this`storedAt
      ensures Valid() && cache == old(cache) - {name} && storedAt == old(storedAt) - {name}
      ensures ttls == old(ttls) - {name}
    {
      cache := cache - {name};
      ttls := ttls - {name};
      storedAt := storedAt - {name};
    }

    /** Served from the cache only while less than twice the time to live has passed since the entry
        was stored; otherwise the registry's answer is stored and returned. An expired entry is not
        a last resort: when the registry fails in another way than "not found", the result is an
        empty list without an error. */
    method Get(name: string, now: int, answer: Answer) returns (r: Lookup, asked: bool)
      requires Valid()
      requires answer.Ok? ==> DistinctVersions(answer.services) && Named(answer.services, name)
      modifies this
      ensures Valid() && watched == old(watched) + {name}
      ensures !asked <==> name in old(cache) && old(cache)[name] != [] && now - old(storedAt)[name] < 2 * ttl
      ensures !asked ==> r == Found(old(cache)[name])
      ensures asked && answer.Ok? ==> r == Found(answer.services)
      ensures asked && !answer.Ok? ==>
        r == if answer.Failed? && name in old(cache) && old(cache)[name] != [] then Found([]) else Error(answer)
      ensures cache == if asked && answer.Ok? then old(cache)[name := answer.services] else old(cache)
      ensures storedAt == if asked && answer.Ok? then old(storedAt)[name := now] else old(storedAt)
    {
      if name !in watched {
        watched := watched + {name};
      }
      if name !in cache || |cache[name]| == 0 {
        asked := true;
        if answer.Ok? {
          Set(name, answer.services, now);
          r := Found(answer.services);
        } else {
          r := Error(answer);
        }
        return;
      }
      if name in ttls && now - ttls[name] < ttl {
        return Found(cache[name]), false;
      }
      asked := true;
      var services := [];
      if answer.Ok? {
        services := answer.services;
        Set(name, services, now);
        return Found(services), true;
      }
      if answer.NotFound? {
        return Error(NotFound), true;
      }
      r := Found(services);
    }

    /** Replays one event on its name and touches no other name. */
    method Update(ev: Event, now: int) returns (reported: seq<Node>)
      requires Valid()
      modifies this`cache, this`ttls, this`storedAt
      ensures Valid()
      ensures
        var name := ev.service.name;
        if name !in old(cache) then
          cache == old(cache) && storedAt == old(storedAt) && reported == []
        else
          var services := old(cache)[name];
          && cache == (match Apply(services, ev)
              case None => old(cache) - {name}
              case Some(s) => old(cache)[name := s])
          && (name in cache ==>
            storedAt == if Renews(services, ev) then old(storedAt)[name := now] else old(storedAt))
          && reported == if hasWatcher then Reported(services, ev) else []
      ensures
        var v := ev.service.version;
        if hasWatcher && ev.service.name in old(cache) && Deletes(ev) then
          && multiset(reported) + multiset(NodesIn(cache, ev.service.name, v)) ==
               multiset(NodesIn(old(cache), ev.service.name, v))
          && (forall n :: n in reported ==> exists d :: d in ev.service.nodes && d.id == n.id)
          && (forall n, d :: n in NodesIn(cache, ev.service.name, v) && d in ev.service.nodes ==> n.id != d.id)
        else
          reported == []
      ensures
        var name := ev.service.name;
        name in old(cache) && name in cache ==>
          ttls[name] == if ev.service.nodes != [] &&
              (ev.action.Delete? ==> exists s :: s in old(cache)[name] && s.version == ev.service.version)
            then now + ttl else old(ttls)[name]
    {
      reported := [];
      if ev.service.name in cache && Deletes(ev) {
        ReportedAreGone(cache, ev);
      }
      var svc := ev.service;
      if svc.name !in cache {
        return;
      }
      var services := cache[svc.name];
      ApplyIsApplyMap(services, ev);
      VersionFound(services, svc.version);
      hide ApplyMap, ToMap, Keep, Merge, Dropped, WithoutVersion, FindLast, NodesIn, Reported, DistinctVersions;
      if |svc.nodes| == 0 {
        if ev.action.Delete? {
          Del(svc.name);
        }
        return;
      }
      var index := FindVersion(services, svc.version);
      FindLastIs(services, svc.version);
      if !ev.action.Delete? {
        AddNodes(services, index, ev, now);
        return;
      }
      if index < 0 {
        return;
      }
      reported := DeleteNodes(services, index, ev, now);
    }

    /** The part of Update that adds a version, or adds the old nodes to the new ones of a version. */
    method AddNodes(services: seq<Service>, index: int, ev: Event, now: int)
      requires Valid() && ev.service.name in cache && services == cache[ev.service.name]
      requires !ev.action.Delete? && ev.service.nodes != []
      requires index == FindLast(services, ev.service.version)
      modifies this`cache, this`ttls, this`storedAt
      ensures Valid() && Apply(services, ev).Some?
      ensures cache == old(cache)[ev.service.name := Apply(services, ev).value]
      ensures storedAt == old(storedAt)[ev.service.name := now]
    {
      ApplyIsApplyMap(services, ev);
      FindLastIs(services, ev.service.version);
      var svc := ev.service;
      if index < 0 {
        Set(svc.name, services + [svc], now);
        return;
      }
      var nodes := AppendMissing(svc.nodes, services[index].nodes);
      Set(svc.name, services[index := svc.(nodes := nodes)], now);
    }

    /** The part of Update that takes nodes out of the version found at index. */
    method DeleteNodes(services: seq<Service>, index: nat, ev: Event, now: int) returns (reported: seq<Node>)
      requires Valid() && ev.service.name in cache && services == cache[ev.service.name]
      requires ev.action.Delete? && ev.service.nodes != []
      requires index == FindLast(services, ev.service.version) < |services|
      modifies this`cache, this`ttls, this`storedAt
      ensures Valid()
      ensures Apply(services, ev).None? ==> cache == old(cache) - {ev.service.name}
      ensures Apply(services, ev).Some? ==>
        && cache == old(cache)[ev.service.name := Apply(services, ev).value]
        && storedAt == old(storedAt)[ev.service.name := now]
      ensures reported == if hasWatcher then Reported(services, ev) else []
    {
      ApplyIsApplyMap(services, ev);
      FindLastIs(services, ev.service.version);
      var service := services[index];
      assert service in services;
      var nodes, dropped := Filter(service.nodes, ev.service.nodes);
      reported := if hasWatcher then dropped else [];
      if |nodes| > 0 {
        Set(service.name, services[index := service.(nodes := nodes)], now);
        return;
      }
      if |services| == 1 {
        Del(service.name);
        return;
      }
      var srvs := OtherVersions(services, service.version);
      Set(service.name, srvs, now);
    }
  }

  method FindVersion(services: seq<Service>, version: string) returns (index: int)
    ensures index == FindLast(services, version)
  {
    index := -1;
    for i := 0 to |services|
      invariant index == FindLast(services[..i], version)
    {
      assert services[..i + 1][..i] == services[..i];
      if services[i].version == version {
        index := i;
      }
    }
    assert services[..|services|] == services;
  }

  method OtherVersions(services: seq<Service>, version: string) returns (srvs: seq<Service>)
    requires DistinctVersions(services)
    ensures srvs == WithoutVersion(services, version)
    ensures forall s :: s in srvs ==> s in services
  {
    srvs := [];
    for i := 0 to |services|
      invariant srvs == WithoutVersion(services[..i], version)
    {
      assert services[..i + 1][..i] == services[..i];
      if services[i].version != version {
        srvs := srvs + [services[i]];
      }
    }
    assert services[..|services|] == services;
    WithoutMembers(services, version);
  }
}
