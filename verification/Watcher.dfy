/** The consul watcher of registry/consul_watcher.go: grouping service entries by version, and
    turning two snapshots of a service into create, update and delete events. */
module Watcher {
  import opened Values
  import opened Registry

  /** A consul service entry with its tags decoded. */
  datatype Entry = Entry(
    name: string, id: string, address: string, nodeAddress: string, port: int,
    version: string, endpoints: seq<string>, metadata: map<string, string>, statuses: seq<string>)

  function NodeOf(e: Entry): Node
  {
    Node(e.id, if |e.address| == 0 then e.nodeAddress else e.address, e.port, e.metadata)
  }

  predicate IsCritical(e: Entry)
  {
    "critical" in e.statuses
  }

  /** An entry opens its version, and adds its node unless a check is critical. */
  function Grouped(m: Snapshot, e: Entry): Snapshot
  {
    var svc := if e.version in m then m[e.version] else Service(e.name, e.version, e.endpoints, []);
    m[e.version := if IsCritical(e) then svc else svc.(nodes := svc.nodes + [NodeOf(e)])]
  }

  function Group(entries: seq<Entry>): Snapshot
  {
    if entries == [] then map[] else Grouped(Group(entries[..|entries| - 1]), entries[|entries| - 1])
  }

  function OfName(entries: seq<Entry>, name: string): seq<Entry>
  {
    if entries == [] then [] else
      var init, e := entries[..|entries| - 1], entries[|entries| - 1];
      if e.name == name then OfName(init, name) + [e] else OfName(init, name)
  }

  ghost predicate AllNamed(entries: seq<Entry>, name: string)
  {
    forall e :: e in entries ==> e.name == name
  }

  /** A node with the data of an entry, under the address of its host if it has none of its own. */
  predicate IsNodeOf(n: Node, e: Entry)
  {
    && n.id == e.id && n.port == e.port && n.metadata == e.metadata
    && n.address == if e.address == "" then e.nodeAddress else e.address
  }

  /** The entries of a version without a critical check, in order. */
  function Healthy(entries: seq<Entry>, v: string): seq<Entry>
  {
    if entries == [] then [] else
      var init, e := entries[..|entries| - 1], entries[|entries| - 1];
      if e.version == v && "critical" !in e.statuses then Healthy(init, v) + [e] else Healthy(init, v)
  }

  /** Services are filed under their own version and carry the name of the entries; a version is there
      exactly when an entry has it. */
  lemma {:induction false} GroupIs(entries: seq<Entry>, name: string, v: string)
    requires AllNamed(entries, name)
    ensures v in Group(entries) <==> exists e :: e in entries && e.version == v
    ensures v in Group(entries) ==> Group(entries)[v].version == v && Group(entries)[v].name == name
  {
    if entries != [] {
      var init, e := entries[..|entries| - 1], entries[|entries| - 1];
      assert entries == init + [e];
      assert e in entries;
      GroupIs(init, name, v);
      hide Group;
      GroupAppend(init, e);
    }
  }

  ghost predicate AreNodesOf(nodes: seq<Node>, entries: seq<Entry>)
  {
    |nodes| == |entries| && forall i :: 0 <= i < |nodes| ==> IsNodeOf(nodes[i], entries[i])
  }

  /** The nodes of a version are, one by one and in order, those of its healthy entries. */
  lemma {:induction false} GroupNodes(entries: seq<Entry>, v: string)
    ensures AreNodesOf(if v in Group(entries) then Group(entries)[v].nodes else [], Healthy(entries, v))
  {
    if entries != [] {
      var init, e := entries[..|entries| - 1], entries[|entries| - 1];
      assert entries == init + [e];
      GroupNodes(init, v);
      hide Group, Healthy;
      GroupAppend(init, e);
      HealthyAppend(init, e, v);
    }
  }

  ghost predicate IsFirstOf(entries: seq<Entry>, i: nat, v: string)
    requires i < |entries|
  {
    entries[i].version == v && forall j :: 0 <= j < i ==> entries[j].version != v
  }

  /** The endpoints of a version are those of its first entry, healthy or not. */
  lemma {:induction false} GroupEndpoints(entries: seq<Entry>, i: nat)
    requires i < |entries| && IsFirstOf(entries, i, entries[i].version)
    ensures entries[i].version in Group(entries)
    ensures Group(entries)[entries[i].version].endpoints == entries[i].endpoints
  {
    var init, e, v := entries[..|entries| - 1], entries[|entries| - 1], entries[i].version;
    assert entries == init + [e];
    GroupAppend(init, e);
    if i < |init| {
      GroupEndpoints(init, i);
    } else {
      NotGrouped(init, v);
    }
    hide Group;
  }

  lemma {:induction false} NotGrouped(entries: seq<Entry>, v: string)
    requires forall e :: e in entries ==> e.version != v
    ensures v !in Group(entries)
  {
    if entries != [] {
      NotGrouped(entries[..|entries| - 1], v);
    }
  }

  lemma GroupAppend(init: seq<Entry>, e: Entry)
    ensures Group(init + [e]) == Grouped(Group(init), e)
  {
    assert (init + [e])[..|init|] == init;
  }

  lemma HealthyAppend(init: seq<Entry>, e: Entry, v: string)
    ensures Healthy(init + [e], v) ==
      if e.version == v && "critical" !in e.statuses then Healthy(init, v) + [e] else Healthy(init, v)
  {
    assert (init + [e])[..|init|] == init;
  }

  lemma {:induction false} OfNameAll(entries: seq<Entry>, name: string)
    requires AllNamed(entries, name)
    ensures OfName(entries, name) == entries
  {
    if entries != [] {
      assert entries[|entries| - 1] in entries;
      OfNameAll(entries[..|entries| - 1], name);
    }
  }

  // ------------------------------------------------------------ the diff

  predicate HasVersion(services: seq<Service>, version: string)
  {
    exists s :: s in services && s.version == version
  }

  /** For each old entry of the version, a delete of the nodes that are not in the new one. */
  function GoneNodes(was: seq<Service>, neu: Service): seq<Event>
  {
    if was == [] then [] else
      var init, o := was[..|was| - 1], was[|was| - 1];
      var gone := Keep(o.nodes, neu.nodes);
      if o.version == neu.version && gone != [] then GoneNodes(init, neu) + [Event(Delete, o.(nodes := gone))]
      else GoneNodes(init, neu)
  }

  /** Each delete for a version that is still there is an old entry of it with exactly its nodes that no new
      node has the id of, and at least one. */
  lemma {:induction false} GoneNodesExactly(was: seq<Service>, neu: Service)
    ensures forall ev :: ev in GoneNodes(was, neu) ==>
      exists o :: o in was && GoneFrom(ev, o, neu)
  {
    if was != [] {
      var init, last := was[..|was| - 1], was[|was| - 1];
      assert was == init + [last];
      GoneNodesExactly(init, neu);
      KeepMembers(last.nodes, neu.nodes);
      forall ev | ev in GoneNodes(was, neu)
        ensures exists o :: o in was && GoneFrom(ev, o, neu)
      {
        if ev in GoneNodes(init, neu) {
          var o :| o in init && GoneFrom(ev, o, neu);
          assert o in was;
        } else {
          assert last in was && GoneFrom(ev, last, neu);
        }
      }
    }
  }

  ghost predicate GoneFrom(ev: Event, o: Service, neu: Service)
  {
    && o.version == neu.version && ev == Event(Delete, o.(nodes := ev.service.nodes)) && ev.service.nodes != []
    && forall n :: n in ev.service.nodes <==> n in o.nodes && forall x :: x in neu.nodes ==> x.id != n.id
  }

  function EventsFor(was: Option<seq<Service>>, neu: Service): seq<Event>
  {
    if was.None? then [Event(Create, neu)]
    else GoneNodes(was.value, neu) + [Event(if HasVersion(was.value, neu.version) then Update else Create, neu)]
  }

  function NewEvents(was: Option<seq<Service>>, neu: Snapshot, order: seq<string>): seq<Event>
    requires forall v :: v in order ==> v in neu
  {
    if order == [] then [] else
      var init, v := order[..|order| - 1], order[|order| - 1];
      NewEvents(was, neu, init) + EventsFor(was, neu[v])
  }

  /** A delete of every old version that is not there any more. */
  function GoneVersions(was: seq<Service>, neu: Snapshot): seq<Event>
  {
    if was == [] then [] else
      var init, o := was[..|was| - 1], was[|was| - 1];
      if o.version !in neu then GoneVersions(init, neu) + [Event(Delete, o)] else GoneVersions(init, neu)
  }

  function Diff(was: Option<seq<Service>>, neu: Snapshot, order: seq<string>): seq<Event>
    requires forall v :: v in order ==> v in neu
  {
    NewEvents(was, neu, order) + if was.Some? then GoneVersions(was.value, neu) else []
  }

  /** A map's keys in some order, each once. */
  ghost predicate IsOrder(order: seq<string>, keys: set<string>)
  {
    && (forall v :: v in order <==> v in keys)
    && forall i, j :: 0 <= i < j < |order| ==> order[i] != order[j]
  }

  function InOrder(neu: Snapshot, order: seq<string>): seq<Service>
    requires forall v :: v in order ==> v in neu
  {
    if order == [] then [] else InOrder(neu, order[..|order| - 1]) + [neu[order[|order| - 1]]]
  }

  // ------------------------------------------------------------ the watcher

  class ConsulWatcher {
    const watchOnly: string
    var services: map<string, seq<Service>>
    var watchers: set<string>

    constructor (watchOnly: string)
      ensures this.watchOnly == watchOnly && services == map[] && watchers == {}
    {
      this.watchOnly := watchOnly;
      services, watchers := map[], {};
    }

    /** Sends the differences to the last snapshot of the service, versions in any order, and
        remembers the new one. Without an entry the name is unknown, nothing is sent, and the new
        snapshot is filed under the empty name. */
    method ServiceHandler(entries: seq<Entry>) returns (next: seq<Event>, ghost order: seq<string>)
      modifies this`services
      ensures IsOrder(order, Group(entries).Keys)
      ensures
        var name := if entries == [] then "" else entries[|entries| - 1].name;
        var was := if name in old(services) then Some(old(services)[name]) else None;
        && next == Diff(was, Group(entries), order)
        && services == old(services)[name := InOrder(Group(entries), order)]
    {
      var serviceMap, serviceName := GroupLoop(entries);
      var rservices := services;
      var oldServices := if serviceName in rservices then Some(rservices[serviceName]) else None;
      var newServices := [];
      next, order := [], [];
      var todo := serviceMap.Keys;
      while todo != {}
        invariant services == rservices
        invariant todo <= serviceMap.Keys && IsOrder(order, serviceMap.Keys - todo)
        invariant newServices == InOrder(serviceMap, order)
        invariant next == NewEvents(oldServices, serviceMap, order)
        decreases |todo|
      {
        var v :| v in todo;
        assert (order + [v])[..|order|] == order;
        newServices := newServices + [serviceMap[v]];
        var evs := VersionEvents(oldServices, serviceMap[v]);
        next := next + evs;
        order := order + [v];
        todo := todo - {v};
      }
      if oldServices.Some? {
        var evs := GoneLoop(oldServices.value, serviceMap);
        next := next + evs;
      }
      services := services[serviceName := newServices];
    }

    /** Starts watchers for new catalog names, forgets the snapshots and watchers of names that
        left the catalog, and announces each of them by one event without nodes, the new ones first. */
    method Handle(catalog: set<string>)
      returns (next: seq<Event>, ghost created: seq<string>, ghost deleted: seq<string>)
      modifies this
      ensures services == map name | name in old(services) && name in catalog :: old(services)[name]
      ensures watchers ==
        set name | name in catalog && (name in old(watchers) || |watchOnly| == 0 || name == watchOnly)
      ensures IsOrder(created, watchers - old(watchers)) && IsOrder(deleted, old(watchers) - watchers)
      ensures |next| == |created| + |deleted|
      ensures forall i :: 0 <= i < |created| ==> next[i] == Event(Create, Service(created[i], "", [], []))
      ensures forall i :: 0 <= i < |deleted| ==> next[|created| + i] == Event(Delete, Service(deleted[i], "", [], []))
    {
      var added := set name | name in catalog && name !in watchers && (|watchOnly| == 0 || name == watchOnly);
      next, created := Announce(Create, added);
      watchers := watchers + added;
      services := map name | name in services && name in catalog :: services[name];
      var gone := set name | name in watchers && name !in catalog;
      var evs;
      evs, deleted := Announce(Delete, gone);
      next := next + evs;
      watchers := watchers - gone;
    }
  }

  method Announce(action: Action, names: set<string>) returns (next: seq<Event>, ghost order: seq<string>)
    ensures IsOrder(order, names) && |next| == |order|
    ensures forall i :: 0 <= i < |order| ==> next[i] == Event(action, Service(order[i], "", [], []))
  {
    next, order := [], [];
    var todo := names;
    while todo != {}
      invariant todo <= names && IsOrder(order, names - todo)
      invariant |next| == |order|
      invariant forall i :: 0 <= i < |order| ==> next[i] == Event(action, Service(order[i], "", [], []))
      decreases |todo|
    {
      var name :| name in todo;
      next := next + [Event(action, Service(name, "", [], []))];
      order := order + [name];
      todo := todo - {name};
    }
  }

  method GroupLoop(entries: seq<Entry>) returns (serviceMap: Snapshot, serviceName: string)
    ensures serviceMap == Group(entries)
    ensures serviceName == if entries == [] then "" else entries[|entries| - 1].name
  {
    serviceMap, serviceName := map[], "";
    for i := 0 to |entries|
      invariant serviceMap == Group(entries[..i])
      invariant serviceName == if i == 0 then "" else entries[i - 1].name
    {
      assert entries[..i + 1][..i] == entries[..i];
      serviceName := entries[i].name;
      serviceMap := FileEntry(serviceMap, entries[i]);
    }
    assert entries[..|entries|] == entries;
  }

  /** What both grouping loops do with one entry. */
  method FileEntry(serviceMap: Snapshot, e: Entry) returns (m: Snapshot)
    ensures m == Grouped(serviceMap, e)
  {
    m := serviceMap;
    var address := e.address;
    if |address| == 0 {
      address := e.nodeAddress;
    }
    if e.version !in m {
      m := m[e.version := Service(e.name, e.version, e.endpoints, [])];
    }
    var del := false;
    for i := 0 to |e.statuses|
      invariant !del && forall j :: 0 <= j < i ==> e.statuses[j] != "critical"
    {
      if e.statuses[i] == "critical" {
        del := true;
        break;
      }
    }
    if del {
      return;
    }
    var svc := m[e.version];
    m := m[e.version := svc.(nodes := svc.nodes + [Node(e.id, address, e.port, e.metadata)])];
  }

  /** The registry lookup of registry/consul_registry.go: the same grouping, by name. */
  method GetService(entries: seq<Entry>, name: string) returns (services: Snapshot)
    ensures services == Group(OfName(entries, name))
  {
    services := map[];
    for i := 0 to |entries|
      invariant services == Group(OfName(entries[..i], name))
    {
      assert entries[..i + 1][..i] == entries[..i];
      if entries[i].name == name {
        ghost var named := OfName(entries[..i], name);
        assert (named + [entries[i]])[..|named|] == named;
        services := FileEntry(services, entries[i]);
      }
    }
    assert entries[..|entries|] == entries;
  }

  method VersionEvents(oldServices: Option<seq<Service>>, newService: Service) returns (next: seq<Event>)
    ensures next == EventsFor(oldServices, newService)
  {
    if oldServices.None? {
      return [Event(Create, newService)];
    }
    var action := Create;
    next := [];
    var was := oldServices.value;
    for i := 0 to |was|
      invariant next == GoneNodes(was[..i], newService)
      invariant action == if HasVersion(was[..i], newService.version) then Update else Create
    {
      assert was[..i + 1][..i] == was[..i] && was[..i + 1] == was[..i] + [was[i]];
      if was[i].version == newService.version {
        action := Update;
        assert was[i] in was[..i + 1];
        var nodes, _ := Filter(was[i].nodes, newService.nodes);
        if |nodes| > 0 {
          next := next + [Event(Delete, was[i].(nodes := nodes))];
        }
      }
    }
    assert was[..|was|] == was;
    next := next + [Event(action, newService)];
  }

  method GoneLoop(was: seq<Service>, serviceMap: Snapshot) returns (next: seq<Event>)
    ensures next == GoneVersions(was, serviceMap)
  {
    next := [];
    for i := 0 to |was|
      invariant next == GoneVersions(was[..i], serviceMap)
    {
      assert was[..i + 1][..i] == was[..i];
      if was[i].version !in serviceMap {
        next := next + [Event(Delete, was[i])];
      }
    }
    assert was[..|was|] == was;
  }
}
