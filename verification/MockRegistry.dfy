/** The mock registry's list helpers of registry/mock/helper.go, used as the simple reference for
    the selector cache: both do the same to the version-to-node maps they represent. */
module MockRegistry {
  import opened Values
  import opened Registry
  import opened SelectorCache
  import opened Convergence
  import opened Following

  /** Nodes by id. */
  function ById(nodes: seq<Node>): map<string, Node>
  {
    if nodes == [] then map[]
    else ById(nodes[..|nodes| - 1])[nodes[|nodes| - 1].id := nodes[|nodes| - 1]]
  }

  lemma {:induction false} ByIdKeys(nodes: seq<Node>)
    ensures ById(nodes).Keys == Ids(nodes)
  {
    if nodes != [] {
      ByIdKeys(nodes[..|nodes| - 1]);
      assert nodes == nodes[..|nodes| - 1] + [nodes[|nodes| - 1]];
      IdsAppend(nodes[..|nodes| - 1], nodes[|nodes| - 1]);
    }
  }

  lemma ByIdAppend(nodes: seq<Node>, n: Node)
    ensures ById(nodes + [n]) == ById(nodes)[n.id := n]
  {
    assert (nodes + [n])[..|nodes|] == nodes;
  }

  lemma {:induction false} ByIdReplace(nodes: seq<Node>, i: nat, n: Node)
    requires i < |nodes| && DistinctIds(nodes) && nodes[i].id == n.id
    ensures ById(nodes[i := n]) == ById(nodes)[n.id := n] && DistinctIds(nodes[i := n])
  {
    var init := nodes[..|nodes| - 1];
    if i < |init| {
      ByIdReplace(init, i, n);
      assert nodes[i := n][..|init|] == init[i := n];
    } else {
      assert nodes[i := n][..|init|] == init;
    }
  }

  // ------------------------------------------------------------ the helpers

  /** New nodes overwrite old ones with their id; ids stay distinct. */
  method AddNodes(was: seq<Node>, neu: seq<Node>) returns (r: seq<Node>)
    requires DistinctIds(was)
    ensures DistinctIds(r) && ById(r) == ById(was) + ById(neu)
  {
    r := was;
    for k := 0 to |neu|
      invariant DistinctIds(r) && ById(r) == ById(was) + ById(neu[..k])
    {
      assert neu[..k + 1] == neu[..k] + [neu[k]];
      ByIdAppend(neu[..k], neu[k]);
      UpdateSum(ById(was), ById(neu[..k]), neu[k]);
      r := AddNode(r, neu[k]);
    }
    assert neu[..|neu|] == neu;
  }

  method AddNode(nodes: seq<Node>, n: Node) returns (r: seq<Node>)
    requires DistinctIds(nodes)
    ensures DistinctIds(r) && ById(r) == ById(nodes)[n.id := n]
  {
    for i := 0 to |nodes|
      invariant forall j :: 0 <= j < i ==> nodes[j].id != n.id
    {
      if nodes[i].id == n.id {
        ByIdReplace(nodes, i, n);
        return nodes[i := n];
      }
    }
    ByIdAppend(nodes, n);
    r := nodes + [n];
  }

  lemma UpdateSum(a: map<string, Node>, b: map<string, Node>, n: Node)
    ensures (a + b)[n.id := n] == a + b[n.id := n]
  {
  }

  lemma SumUpdate(b: map<string, Node>, a: map<string, Node>, n: Node)
    ensures n.id in a ==> b[n.id := n] + a == b + a
    ensures n.id !in a ==> b[n.id := n] + a == (b + a)[n.id := n]
  {
  }

  method DelNodes(was: seq<Node>, del: seq<Node>) returns (nodes: seq<Node>)
    ensures nodes == Keep(was, del)
  {
    var dropped;
    nodes, dropped := Filter(was, del);
  }

  /** Adding services, one after the other, merges the nodes of each over those of its version; versions
      and ids stay distinct. */
  method AddServices(was: seq<Service>, neu: seq<Service>) returns (r: seq<Service>)
    requires DistinctVersions(was) && IdsDistinct(was) && IdsDistinct(neu)
    ensures DistinctVersions(r) && IdsDistinct(r)
    ensures View(ToMap(r)) == AddedAll(View(ToMap(was)), neu)
  {
    hide View, ToMap, Added;
    r := was;
    for k := 0 to |neu|
      invariant DistinctVersions(r) && IdsDistinct(r)
      invariant View(ToMap(r)) == AddedAll(View(ToMap(was)), neu[..k])
    {
      assert neu[..k + 1][..k] == neu[..k];
      assert neu[k] in neu;
      r := AddService(r, neu[k]);
    }
    assert neu[..|neu|] == neu;
  }

  method AddService(was: seq<Service>, s: Service) returns (r: seq<Service>)
    requires DistinctVersions(was) && IdsDistinct(was) && DistinctIds(s.nodes)
    ensures DistinctVersions(r) && IdsDistinct(r)
    ensures View(ToMap(r)) == Added(View(ToMap(was)), s)
  {
    for i := 0 to |was|
      invariant forall j :: 0 <= j < i ==> was[j].version != s.version
    {
      if was[i].version == s.version {
        assert was[i] in was;
        var nodes := AddNodes(was[i].nodes, s.nodes);
        ReplaceVersion(was, i, s.(nodes := nodes));
        return was[i := s.(nodes := nodes)];
      }
    }
    AppendVersion(was, s);
    r := was + [s];
  }

  lemma ReplaceVersion(services: seq<Service>, i: nat, s: Service)
    requires i < |services| && DistinctVersions(services) && services[i].version == s.version
    ensures DistinctVersions(services[i := s])
    ensures View(ToMap(services[i := s])) == View(ToMap(services))[s.version := ById(s.nodes)]
    ensures s.version in View(ToMap(services)) && View(ToMap(services))[s.version] == ById(services[i].nodes)
  {
    ToMapReplace(services, i, s);
    ViewUpdate(ToMap(services), s);
    VersionAt(services, i);
  }

  lemma AppendVersion(services: seq<Service>, s: Service)
    requires DistinctVersions(services) && forall j :: 0 <= j < |services| ==> services[j].version != s.version
    ensures DistinctVersions(services + [s]) && s.version !in View(ToMap(services))
    ensures View(ToMap(services + [s])) == View(ToMap(services))[s.version := ById(s.nodes)]
  {
    NoVersion(services, s.version);
    ToMapAppend(services, s);
    ViewUpdate(ToMap(services), s);
  }

  /** Deleting services takes the nodes of each from its version, and the version once none is left;
      versions and ids stay distinct. */
  method DelServices(was: seq<Service>, del: seq<Service>) returns (services: seq<Service>)
    requires DistinctVersions(was)
    ensures DistinctVersions(services) && (IdsDistinct(was) ==> IdsDistinct(services))
    ensures View(ToMap(services)) == DeletedAll(View(ToMap(was)), del)
  {
    hide View, ToMap;
    services := [];
    NothingToDelete(del);
    for i := 0 to |was|
      invariant View(ToMap(services)) == DeletedAll(View(ToMap(was[..i])), del)
      invariant DistinctVersions(services) && (IdsDistinct(was) ==> IdsDistinct(services))
      invariant forall k :: 0 <= k < |services| ==> exists j :: 0 <= j < i && was[j].version == services[k].version
    {
      assert was[..i + 1] == was[..i] + [was[i]];
      NoVersion(was[..i], was[i].version);
      ToMapAppend(was[..i], was[i]);
      ViewUpdate(ToMap(was[..i]), was[i]);
      ViewHas(ToMap(was[..i]), was[i].version);
      DeletedApart(View(ToMap(was[..i])), was[i].version, ById(was[i].nodes), del);
      var o, rem := DelFrom(was[i], del);
      assert IdsDistinct(was) ==> DistinctIds(was[i].nodes) by { assert was[i] in was; }
      if !rem {
        ToMapAppend(services, o);
        ViewUpdate(ToMap(services), o);
        services := services + [o];
      }
    }
    assert was[..|was|] == was;
  }

  /** The inner loop: what the deletes leave of one service, and whether they leave nothing. */
  method DelFrom(was: Service, del: seq<Service>) returns (o: Service, rem: bool)
    ensures o.version == was.version && (DistinctIds(was.nodes) ==> DistinctIds(o.nodes))
    ensures rem <==> LeftOf(Some(ById(was.nodes)), was.version, del).None?
    ensures !rem ==> LeftOf(Some(ById(was.nodes)), was.version, del) == Some(ById(o.nodes))
  {
    o, rem := was, false;
    for k := 0 to |del|
      invariant o.version == was.version && (DistinctIds(was.nodes) ==> DistinctIds(o.nodes))
      invariant rem ==> o.nodes == []
      invariant LeftOf(Some(ById(was.nodes)), was.version, del[..k]) == if rem then None else Some(ById(o.nodes))
    {
      assert del[..k + 1][..k] == del[..k];
      if o.version == del[k].version {
        ghost var before := o.nodes;
        var nodes := DelNodes(o.nodes, del[k].nodes);
        ByIdKeep(before, del[k].nodes);
        if DistinctIds(before) {
          KeepDistinct(before, del[k].nodes);
        }
        o := o.(nodes := nodes);
        if |nodes| == 0 {
          rem := true;
        }
      }
    }
    assert del[..|del|] == del;
  }

  // ------------------------------------------------------------ what they mean

  type Nodes = map<string, map<string, Node>>

  /** Per version, its nodes by id. */
  function View(m: Snapshot): Nodes
  {
    map v | v in m :: ById(m[v].nodes)
  }

  function Added(m: Nodes, s: Service): Nodes
  {
    m[s.version := if s.version in m then m[s.version] + ById(s.nodes) else ById(s.nodes)]
  }

  /** The version without the deleted ids; gone when nothing is left of it. */
  function Deleted(m: Nodes, d: Service): Nodes
  {
    if d.version !in m then m else
    var left := m[d.version] - Ids(d.nodes);
    if left == map[] then m - {d.version} else m[d.version := left]
  }

  function AddedAll(m: Nodes, neu: seq<Service>): Nodes
  {
    if neu == [] then m else Added(AddedAll(m, neu[..|neu| - 1]), neu[|neu| - 1])
  }

  function DeletedAll(m: Nodes, del: seq<Service>): Nodes
  {
    if del == [] then m else Deleted(DeletedAll(m, del[..|del| - 1]), del[|del| - 1])
  }

  /** What deletes leave of one version. */
  function LeftOf(o: Option<map<string, Node>>, v: string, del: seq<Service>): Option<map<string, Node>>
  {
    if del == [] then o else
      var r, d := LeftOf(o, v, del[..|del| - 1]), del[|del| - 1];
      if r.None? || d.version != v then r
      else if r.value - Ids(d.nodes) == map[] then None
      else Some(r.value - Ids(d.nodes))
  }

  lemma {:induction false} NothingToDelete(del: seq<Service>)
    ensures DeletedAll(View(ToMap([])), del) == View(ToMap([])) == map[]
  {
    if del != [] {
      NothingToDelete(del[..|del| - 1]);
    }
  }

  /** Deletes treat every version on its own. */
  lemma {:induction false} DeletedApart(m: Nodes, v: string, nodes: map<string, Node>, del: seq<Service>)
    requires v !in m
    ensures v !in DeletedAll(m, del)
    ensures DeletedAll(m[v := nodes], del) ==
      match LeftOf(Some(nodes), v, del)
      case None => DeletedAll(m, del)
      case Some(left) => DeletedAll(m, del)[v := left]
  {
    if del != [] {
      var init, d := del[..|del| - 1], del[|del| - 1];
      DeletedApart(m, v, nodes, init);
      var r := LeftOf(Some(nodes), v, init);
      if r.Some? {
        DeletedOne(DeletedAll(m, init), v, r.value, d);
      }
    }
  }

  lemma DeletedOne(m: Nodes, v: string, nodes: map<string, Node>, d: Service)
    requires v !in m
    ensures v !in Deleted(m, d)
    ensures Deleted(m[v := nodes], d) ==
      if d.version != v then Deleted(m, d)[v := nodes]
      else if nodes - Ids(d.nodes) == map[] then Deleted(m, d)
      else Deleted(m, d)[v := nodes - Ids(d.nodes)]
  {
    if d.version == v {
      assert m[v := nodes] - {v} == m;
    }
  }

  lemma ViewHas(m: Snapshot, v: string)
    ensures v in View(m) <==> v in m
    ensures View(m) == map[] <==> m == map[]
  {
    if m != map[] {
      var w :| w in m;
      assert w in View(m);
    }
  }

  lemma ViewUpdate(m: Snapshot, s: Service)
    ensures View(m[s.version := s]) == View(m)[s.version := ById(s.nodes)]
  {
  }

  lemma ViewRemove(m: Snapshot, v: string)
    ensures View(m - {v}) == View(m) - {v}
  {
  }

  lemma VersionAt(services: seq<Service>, i: nat)
    requires i < |services| && DistinctVersions(services)
    ensures services[i].version in ToMap(services) && ToMap(services)[services[i].version] == services[i]
  {
    var v := services[i].version;
    ToMapIs(services, v);
    FindLastIs(services, v);
    assert FindLast(services, v) == i;
  }

  lemma NoVersion(services: seq<Service>, v: string)
    requires forall j :: 0 <= j < |services| ==> services[j].version != v
    ensures v !in ToMap(services)
  {
    ToMapIs(services, v);
    FindLastIs(services, v);
  }

  lemma {:induction false} ByIdKeep(nodes: seq<Node>, gone: seq<Node>)
    ensures ById(Keep(nodes, gone)) == ById(nodes) - Ids(gone)
    ensures Keep(nodes, gone) == [] <==> ById(nodes) - Ids(gone) == map[]
  {
    if nodes != [] {
      var init, n := nodes[..|nodes| - 1], nodes[|nodes| - 1];
      ByIdKeep(init, gone);
      if n.id !in Ids(gone) {
        ByIdAppend(Keep(init, gone), n);
        assert n.id in ById(nodes) - Ids(gone);
      }
    }
  }

  // ------------------------------------------------------------ the cache against the reference

  lemma {:induction false} ByIdMerge(acc: seq<Node>, more: seq<Node>)
    requires DistinctIds(more)
    ensures ById(Merge(acc, more)) == ById(more) + ById(acc)
  {
    if more != [] {
      var init, n := more[..|more| - 1], more[|more| - 1];
      ByIdMerge(acc, init);
      MergeMembers(acc, init);
      ByIdKeys(acc);
      ByIdAppend(Merge(acc, init), n);
      SumUpdate(ById(init), ById(acc), n);
      assert more == init + [n];
      NewId(init, n);
    }
  }

  /** On a cached name an event with nodes acts as the reference does: create and update as
      addServices, delete as delServices, where an empty result drops the name. */
  lemma CacheIsReference(m: Snapshot, ev: Event)
    requires ev.service.nodes != []
    requires ev.service.version in m ==> DistinctIds(m[ev.service.version].nodes) && m[ev.service.version].version == ev.service.version
    ensures !ev.action.Delete? ==>
      ApplyMap(m, ev).Some? && View(ApplyMap(m, ev).value) == Added(View(m), ev.service)
    ensures ev.action.Delete? ==>
      if ApplyMap(m, ev).None? then Deleted(View(m), ev.service) == map[]
      else View(ApplyMap(m, ev).value) == Deleted(View(m), ev.service)
  {
    var v := ev.service.version;
    var o := ApplyVersion(At(m, v), ev);
    if v in m {
      ByIdMerge(ev.service.nodes, m[v].nodes);
      ByIdKeep(m[v].nodes, ev.service.nodes);
    }
    if o.Some? {
      ViewUpdate(m, o.value);
      assert v in m[v := o.value];
    } else {
      ViewRemove(m, v);
    }
  }

  /** Whereas an event without nodes acts as the reference only where that changes nothing: an update of
      a version that is there, or a delete of the last version once it has no nodes. */
  lemma NodelessIsReferenceIff(m: Snapshot, ev: Event)
    requires ev.service.nodes == []
    ensures !ev.action.Delete? ==>
      && ApplyMap(m, ev) == Some(m)
      && (View(m) == Added(View(m), ev.service) <==> ev.service.version in m)
    ensures ev.action.Delete? ==>
      && ApplyMap(m, ev).None?
      && (Deleted(View(m), ev.service) == map[] <==>
          m == map[] || (m.Keys == {ev.service.version} && m[ev.service.version].nodes == []))
  {
    var v := ev.service.version;
    ViewHas(m, v);
    if ev.action.Delete? {
      if v in m {
        ByIdKeys(m[v].nodes);
        ByIdKeep(m[v].nodes, []);
        KeepAll(m[v].nodes, []);
        assert View(m)[v] - Ids([]) == View(m)[v];
        OnlyKey(View(m), v);
        assert View(m).Keys == m.Keys;
      }
    } else {
      assert Put(m, v, At(m, v)) == m;
      if v in m {
        assert View(m)[v] + ById([]) == View(m)[v];
      }
    }
  }

  lemma OnlyKey(m: Nodes, v: string)
    requires v in m
    ensures m - {v} == map[] <==> m.Keys == {v}
  {
    if m - {v} == map[] {
      assert forall w :: w in m && w != v ==> w in m - {v};
    }
  }

  // ------------------------------------------------------------ whole replays against the reference

  /** Each version filed under itself, with distinct ids. */
  ghost predicate Sound(m: Snapshot)
  {
    WellKeyed(m) && forall v :: v in m ==> DistinctIds(m[v].nodes)
  }

  ghost predicate CarryNodes(q: seq<Event>)
  {
    forall ev :: ev in q ==> ev.service.nodes != [] && DistinctIds(ev.service.nodes)
  }

  /** An event keeps versions and every version's ids distinct. */
  lemma ApplyKeepsSound(m: Snapshot, ev: Event)
    requires Sound(m) && DistinctIds(ev.service.nodes)
    ensures ApplyMap(m, ev).Some? ==> Sound(ApplyMap(m, ev).value)
  {
    var v := ev.service.version;
    if v in m {
      KeepDistinct(m[v].nodes, ev.service.nodes);
      MergeDistinct(ev.service.nodes, m[v].nodes);
    }
  }

  function ReferenceStep(m: Nodes, ev: Event): Nodes
  {
    if ev.action.Delete? then Deleted(m, ev.service) else Added(m, ev.service)
  }

  function ReferenceReplay(q: seq<Event>, m: Nodes): Nodes
  {
    if q == [] then m else ReferenceStep(ReferenceReplay(q[..|q| - 1], m), q[|q| - 1])
  }

  /** The reference loses its last version at some point of the replay. */
  ghost predicate RunsEmpty(q: seq<Event>, m: Nodes)
  {
    exists k :: 0 < k <= |q| && ReferenceReplay(q[..k], m) == map[] && ReferenceReplay(q[..k - 1], m) != map[]
  }

  /** Over any list of events with nodes, the cached name holds, version by version and id by id, what the
      mock registry's helpers make of it, with versions and ids distinct throughout; and it is dropped
      exactly if the helpers run it empty on the way. */
  lemma {:induction false} ReplayIsReference(q: seq<Event>, m: Snapshot)
    requires Sound(m) && CarryNodes(q)
    ensures ReplayEntry(q, m).Some? ==>
      Sound(ReplayEntry(q, m).value) && View(ReplayEntry(q, m).value) == ReferenceReplay(q, View(m))
    ensures ReplayEntry(q, m).None? <==> RunsEmpty(q, View(m))
  {
    hide ApplyMap, View, ReferenceStep, Sound;
    if q != [] {
      var init, ev := q[..|q| - 1], q[|q| - 1];
      assert q == init + [ev] && ev in q;
      ReplayIsReference(init, m);
      EmptyEarlier(init, ev, View(m));
      if ReplayEntry(init, m).Some? {
        ReplayStep(ReplayEntry(init, m).value, ev);
      }
    }
  }

  lemma ReplayStep(m: Snapshot, ev: Event)
    requires Sound(m) && ev.service.nodes != [] && DistinctIds(ev.service.nodes)
    ensures ApplyMap(m, ev).Some? ==>
      Sound(ApplyMap(m, ev).value) && View(ApplyMap(m, ev).value) == ReferenceStep(View(m), ev)
    ensures ApplyMap(m, ev).None? <==> ReferenceStep(View(m), ev) == map[] && View(m) != map[]
  {
    CacheIsReference(m, ev);
    ApplyKeepsSound(m, ev);
    ViewHas(m, ev.service.version);
    if ApplyMap(m, ev).Some? {
      ViewHas(ApplyMap(m, ev).value, ev.service.version);
      if ApplyMap(m, ev).value == map[] {
        assert ev.service.version !in m;
        assert m - {ev.service.version} == m;
      }
    }
  }

  lemma EmptyEarlier(init: seq<Event>, ev: Event, m: Nodes)
    ensures RunsEmpty(init + [ev], m) <==>
      RunsEmpty(init, m) || (ReferenceReplay(init + [ev], m) == map[] && ReferenceReplay(init, m) != map[])
  {
    hide ReferenceReplay;
    var q := init + [ev];
    assert q[..|init|] == init && q[..|q|] == q;
    if RunsEmpty(q, m) {
      var k :| 0 < k <= |q| && ReferenceReplay(q[..k], m) == map[] && ReferenceReplay(q[..k - 1], m) != map[];
      if k <= |init| {
        assert q[..k] == init[..k] && q[..k - 1] == init[..k - 1];
      }
    }
    if RunsEmpty(init, m) {
      var k :| 0 < k <= |init| && ReferenceReplay(init[..k], m) == map[] && ReferenceReplay(init[..k - 1], m) != map[];
      assert q[..k] == init[..k] && q[..k - 1] == init[..k - 1];
    }
    if ReferenceReplay(q, m) == map[] && ReferenceReplay(init, m) != map[] {
      assert ReferenceReplay(q[..|q|], m) == map[] && ReferenceReplay(q[..|q| - 1], m) != map[];
    }
  }
}
