/** Services, nodes and watch events of the registry, and the two loops over nodes that the
    watcher, the selector cache and the mock registry all share. */
module Registry {
  import opened Values

  datatype Node = Node(id: string, address: string, port: int, metadata: map<string, string>)

  datatype Service = Service(name: string, version: string, endpoints: seq<string>, nodes: seq<Node>)

  datatype Action = Create | Update | Delete

  datatype Event = Event(action: Action, service: Service)

  /** One version of a service per key. */
  type Snapshot = map<string, Service>

  function Ids(nodes: seq<Node>): set<string>
  {
    set n | n in nodes :: n.id
  }

  /** The nodes whose id is not among the ids of gone, in order. */
  function Keep(nodes: seq<Node>, gone: seq<Node>): seq<Node>
  {
    if nodes == [] then [] else
      var init, n := nodes[..|nodes| - 1], nodes[|nodes| - 1];
      if n.id in Ids(gone) then Keep(init, gone) else Keep(init, gone) + [n]
  }

  /** The nodes whose id is among the ids of gone, in order. */
  function Dropped(nodes: seq<Node>, gone: seq<Node>): seq<Node>
  {
    if nodes == [] then [] else
      var init, n := nodes[..|nodes| - 1], nodes[|nodes| - 1];
      if n.id in Ids(gone) then Dropped(init, gone) + [n] else Dropped(init, gone)
  }

  /** acc followed by each of more whose id is not there yet. */
  function Merge(acc: seq<Node>, more: seq<Node>): seq<Node>
  {
    if more == [] then acc else
      var init, n := more[..|more| - 1], more[|more| - 1];
      var m := Merge(acc, init);
      if n.id in Ids(m) then m else m + [n]
  }

  lemma {:induction false} KeepMembers(nodes: seq<Node>, gone: seq<Node>)
    ensures forall n :: n in Keep(nodes, gone) <==> n in nodes && n.id !in Ids(gone)
    ensures Ids(Keep(nodes, gone)) == Ids(nodes) - Ids(gone)
  {
    if nodes != [] {
      var init, n := nodes[..|nodes| - 1], nodes[|nodes| - 1];
      assert nodes == init + [n];
      KeepMembers(init, gone);
      assert n in nodes;
    }
  }

  /** Every node is either kept or dropped, as often as it occurs. */
  lemma {:induction false} KeepOrDrop(nodes: seq<Node>, gone: seq<Node>)
    ensures multiset(Keep(nodes, gone)) + multiset(Dropped(nodes, gone)) == multiset(nodes)
  {
    if nodes != [] {
      var init, n := nodes[..|nodes| - 1], nodes[|nodes| - 1];
      assert nodes == init + [n];
      KeepOrDrop(init, gone);
    }
  }

  lemma {:induction false} DroppedMembers(nodes: seq<Node>, gone: seq<Node>)
    ensures forall n :: n in Dropped(nodes, gone) <==> n in nodes && n.id in Ids(gone)
  {
    if nodes != [] {
      var init, n := nodes[..|nodes| - 1], nodes[|nodes| - 1];
      assert nodes == init + [n];
      DroppedMembers(init, gone);
      assert n in nodes;
    }
  }

  /** The part is made of the nodes at some increasing indexes. */
  ghost predicate InOrderAt(part: seq<Node>, nodes: seq<Node>, at: seq<nat>)
  {
    && |at| == |part|
    && (forall i :: 0 <= i < |at| ==> at[i] < |nodes| && nodes[at[i]] == part[i])
    && forall i, j :: 0 <= i < j < |at| ==> at[i] < at[j]
  }

  /** Kept and dropped nodes are in the order they had. */
  lemma {:induction false} OrderKept(nodes: seq<Node>, gone: seq<Node>) returns (kept: seq<nat>, dropped: seq<nat>)
    ensures InOrderAt(Keep(nodes, gone), nodes, kept) && InOrderAt(Dropped(nodes, gone), nodes, dropped)
  {
    kept, dropped := [], [];
    if nodes != [] {
      var init, n := nodes[..|nodes| - 1], nodes[|nodes| - 1];
      assert nodes == init + [n];
      kept, dropped := OrderKept(init, gone);
      OneMoreNode(Keep(init, gone), init, n, kept);
      OneMoreNode(Dropped(init, gone), init, n, dropped);
      hide InOrderAt;
      if n.id in Ids(gone) {
        dropped := dropped + [|init|];
      } else {
        kept := kept + [|init|];
      }
    }
  }

  lemma OneMoreNode(part: seq<Node>, init: seq<Node>, n: Node, at: seq<nat>)
    requires InOrderAt(part, init, at)
    ensures InOrderAt(part, init + [n], at) && InOrderAt(part + [n], init + [n], at + [|init|])
  {
  }

  lemma {:induction false} MergeMembers(acc: seq<Node>, more: seq<Node>)
    ensures forall n :: n in Merge(acc, more) ==> n in acc || n in more
    ensures forall n :: n in acc ==> n in Merge(acc, more)
    ensures Ids(Merge(acc, more)) == Ids(acc) + Ids(more)
  {
    if more != [] {
      var init, n := more[..|more| - 1], more[|more| - 1];
      assert more == init + [n];
      MergeMembers(acc, init);
      IdsAppend(init, n);
      IdsAppend(Merge(acc, init), n);
    }
  }

  lemma IdsAppend(nodes: seq<Node>, n: Node)
    ensures Ids(nodes + [n]) == Ids(nodes) + {n.id}
  {
    assert n in nodes + [n];
    assert forall x :: x in nodes + [n] <==> x in nodes || x == n;
  }

  /** Nothing is appended when every id is there already. */
  lemma {:induction false} MergeNothing(acc: seq<Node>, more: seq<Node>)
    requires Ids(more) <= Ids(acc)
    ensures Merge(acc, more) == acc
  {
    if more != [] {
      var init, n := more[..|more| - 1], more[|more| - 1];
      assert more == init + [n];
      IdsAppend(init, n);
      MergeNothing(acc, init);
    }
  }

  /** The search for a node's id. */
  method HasId(nodes: seq<Node>, id: string) returns (seen: bool)
    ensures seen <==> id in Ids(nodes)
  {
    seen := false;
    for i := 0 to |nodes|
      invariant seen <==> exists j :: 0 <= j < i && nodes[j].id == id
    {
      if nodes[i].id == id {
        seen := true;
        assert nodes[i] in nodes;
        break;
      }
    }
    if id in Ids(nodes) {
      var n :| n in nodes && n.id == id;
      var j :| 0 <= j < |nodes| && nodes[j] == n;
    }
  }

  /** The loop that sorts nodes into those to keep and those that are gone. */
  method Filter(nodes: seq<Node>, gone: seq<Node>) returns (kept: seq<Node>, dropped: seq<Node>)
    ensures kept == Keep(nodes, gone) && dropped == Dropped(nodes, gone)
  {
    kept, dropped := [], [];
    for i := 0 to |nodes|
      invariant kept == Keep(nodes[..i], gone) && dropped == Dropped(nodes[..i], gone)
    {
      assert nodes[..i + 1][..i] == nodes[..i];
      var seen := HasId(gone, nodes[i].id);
      if !seen {
        kept := kept + [nodes[i]];
      } else {
        dropped := dropped + [nodes[i]];
      }
    }
    assert nodes[..|nodes|] == nodes;
  }

  /** The loop that appends the nodes that are not there yet. */
  method AppendMissing(acc: seq<Node>, more: seq<Node>) returns (r: seq<Node>)
    ensures r == Merge(acc, more)
  {
    r := acc;
    for i := 0 to |more|
      invariant r == Merge(acc, more[..i])
    {
      assert more[..i + 1][..i] == more[..i];
      var seen := HasId(r, more[i].id);
      if !seen {
        r := r + [more[i]];
      }
    }
    assert more[..|more|] == more;
  }

  // ------------------------------------------------------------ distinct ids

  ghost predicate DistinctIds(nodes: seq<Node>)
  {
    forall i, j :: 0 <= i < j < |nodes| ==> nodes[i].id != nodes[j].id
  }

  ghost predicate IdsDistinct(services: seq<Service>)
  {
    forall s :: s in services ==> DistinctIds(s.nodes)
  }

  lemma AppendDistinct(nodes: seq<Node>, n: Node)
    requires DistinctIds(nodes) && n.id !in Ids(nodes)
    ensures DistinctIds(nodes + [n])
  {
    forall i | 0 <= i < |nodes| ensures nodes[i].id != n.id { assert nodes[i] in nodes; }
  }

  lemma NewId(init: seq<Node>, n: Node)
    requires DistinctIds(init + [n])
    ensures DistinctIds(init) && n.id !in Ids(init)
  {
    assert (init + [n])[..|init|] == init;
    forall i | 0 <= i < |init|
      ensures init[i].id != n.id
    {
      assert (init + [n])[i].id != (init + [n])[|init|].id;
    }
  }

  /** Taking nodes out keeps ids distinct. */
  lemma {:induction false} KeepDistinct(nodes: seq<Node>, gone: seq<Node>)
    requires DistinctIds(nodes)
    ensures DistinctIds(Keep(nodes, gone))
  {
    if nodes != [] {
      var init, n := nodes[..|nodes| - 1], nodes[|nodes| - 1];
      assert nodes == init + [n];
      NewId(init, n);
      KeepDistinct(init, gone);
      KeepMembers(init, gone);
      if n.id !in Ids(gone) {
        AppendDistinct(Keep(init, gone), n);
      }
    }
  }

  /** So does appending those that are not there yet, whatever they are. */
  lemma {:induction false} MergeDistinct(acc: seq<Node>, more: seq<Node>)
    requires DistinctIds(acc)
    ensures DistinctIds(Merge(acc, more))
  {
    if more != [] {
      var init, n := more[..|more| - 1], more[|more| - 1];
      MergeDistinct(acc, init);
      if n.id !in Ids(Merge(acc, init)) {
        AppendDistinct(Merge(acc, init), n);
      }
    }
  }
}
