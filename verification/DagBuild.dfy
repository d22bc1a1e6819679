/** From the user's description of a task graph to what each thread pends on. */
module DagBuild {
  import opened Basics

  /** A node names its function and the functions of its predecessors. */
  datatype UserNode = UserNode(route: nat, prev: seq<nat>)

  datatype Node = Node(route: nat, inDegree: nat)

  /** Both ends are positions in the node list. */
  datatype Edge = Edge(prev: nat, next: nat)

  /** Functions identify nodes, predecessors exist, and nobody precedes itself. */
  predicate Described(user: seq<UserNode>) {
    && (forall i, j :: 0 <= i < j < |user| ==> user[i].route != user[j].route)
    && (forall i :: 0 <= i < |user| ==> |user[i].prev| < 0x1_0000)
    && (forall i, p :: 0 <= i < |user| && p in user[i].prev ==> p != user[i].route && HasRoute(user, p))
  }

  predicate HasRoute(user: seq<UserNode>, route: nat) {
    exists i :: 0 <= i < |user| && user[i].route == route
  }

  /** Nodes are put in front of the list, so they stand in reverse order. */
  function Source(user: seq<UserNode>, k: nat): UserNode
    requires k < |user|
  {
    user[|user| - 1 - k]
  }

  predicate NodesOf(user: seq<UserNode>, nodes: seq<Node>) {
    && |nodes| == |user|
    && forall k :: 0 <= k < |nodes| ==> nodes[k] == Node(Source(user, k).route, |Source(user, k).prev|)
  }

  method BuildNodes(user: seq<UserNode>) returns (nodes: seq<Node>)
    requires Described(user)
    ensures NodesOf(user, nodes)
  {
    nodes := [];
    for i := 0 to |user|
      invariant |nodes| == i
      invariant forall k :: 0 <= k < i ==> nodes[k] == Node(user[i - 1 - k].route, |user[i - 1 - k].prev|)
    {
      nodes := [Node(user[i].route, |user[i].prev| % 0x1_0000)] + nodes;
    }
  }

  /** Walk to the node of a function, passing over the node `skip`. */
  method FindNode(user: seq<UserNode>, nodes: seq<Node>, route: nat, skip: Option<nat>) returns (k: nat)
    requires Described(user) && NodesOf(user, nodes) && HasRoute(user, route) && skip != Some(route)
    ensures k < |nodes| && nodes[k].route == route
    ensures forall j :: 0 <= j < |nodes| && nodes[j].route == route ==> j == k
  {
    ghost var i :| 0 <= i < |user| && user[i].route == route;
    ghost var here := |user| - 1 - i;
    assert Source(user, here) == user[i] && nodes[here].route == route;
    k := 0;
    while nodes[k].route != route
      invariant k <= here
      decreases |user| - k
    {
      if skip == Some(nodes[k].route) { k := k + 1; continue; }
      k := k + 1;
    }
    RoutesDistinct(user, nodes, k);
  }

  lemma RoutesDistinct(user: seq<UserNode>, nodes: seq<Node>, k: nat)
    requires Described(user) && NodesOf(user, nodes) && k < |nodes|
    ensures forall j :: 0 <= j < |nodes| && nodes[j].route == nodes[k].route ==> j == k
  {
    forall j | 0 <= j < |nodes| && nodes[j].route == nodes[k].route
      ensures j == k
    {
      var a, b := |user| - 1 - j, |user| - 1 - k;
      assert user[a].route == nodes[j].route && user[b].route == nodes[k].route;
    }
  }

  /** The sources of the edges into node `k`, in list order. */
  function Into(edges: seq<Edge>, k: nat): seq<nat> {
    if edges == [] then [] else (if edges[0].next == k then [edges[0].prev] else []) + Into(edges[1..], k)
  }

  /** `sources` are the nodes of the first `n` predecessors, last one first. */
  predicate SourcesOf(nodes: seq<Node>, prev: seq<nat>, n: nat, sources: seq<nat>) {
    && |sources| == n <= |prev|
    && forall i :: 0 <= i < n ==> sources[i] < |nodes| && nodes[sources[i]].route == prev[n - 1 - i]
  }

  lemma SourcesGrow(nodes: seq<Node>, prev: seq<nat>, n: nat, sources: seq<nat>, k: nat)
    requires SourcesOf(nodes, prev, n, sources) && n < |prev| && k < |nodes| && nodes[k].route == prev[n]
    ensures SourcesOf(nodes, prev, n + 1, [k] + sources)
  {
    var more := [k] + sources;
    forall i | 0 <= i < n + 1
      ensures more[i] < |nodes| && nodes[more[i]].route == prev[n - i]
    {
      if i > 0 { assert more[i] == sources[i - 1]; }
    }
  }

  /** Edges into node `k`, put in front of the list one by one. */
  method BuildEdgesOf(user: seq<UserNode>, nodes: seq<Node>, k: nat, edges: seq<Edge>) returns (more: seq<Edge>)
    requires Described(user) && NodesOf(user, nodes) && k < |user|
    requires Into(edges, k) == []
    ensures SourcesOf(nodes, Source(user, k).prev, |Source(user, k).prev|, Into(more, k))
    ensures forall j :: j != k ==> Into(more, j) == Into(edges, j)
  {
    var u := Source(user, k);
    assert nodes[k].route == u.route;
    assert HasRoute(user, u.route) by { assert user[|user| - 1 - k] == u; }
    var next := FindNode(user, nodes, u.route, None);
    assert next == k;
    more := edges;
    for i := 0 to nodes[next].inDegree
      invariant SourcesOf(nodes, u.prev, i, Into(more, k))
      invariant forall j :: j != k ==> Into(more, j) == Into(edges, j)
    {
      assert u.prev[i] in u.prev && u == user[|user| - 1 - k];
      var prev := FindNode(user, nodes, u.prev[i], Some(u.route));
      IntoGrows(more, Edge(prev, next));
      SourcesGrow(nodes, u.prev, i, Into(more, k), prev);
      hide Into, SourcesOf;
      more := [Edge(prev, next)] + more;
    }
  }

  lemma IntoGrows(edges: seq<Edge>, e: Edge)
    ensures Into([e] + edges, e.next) == [e.prev] + Into(edges, e.next)
    ensures forall j: nat :: j != e.next ==> Into([e] + edges, j) == Into(edges, j)
  {
    assert ([e] + edges)[1..] == edges;
  }

  method BuildEdges(user: seq<UserNode>, nodes: seq<Node>) returns (edges: seq<Edge>)
    requires Described(user) && NodesOf(user, nodes)
    ensures forall k :: 0 <= k < |user| ==>
              SourcesOf(nodes, Source(user, k).prev, |Source(user, k).prev|, Into(edges, k))
  {
    edges := [];
    hide SourcesOf, Described, NodesOf;
    for u := 0 to |user|
      invariant forall k :: |user| - u <= k < |user| ==>
                  SourcesOf(nodes, Source(user, k).prev, |Source(user, k).prev|, Into(edges, k))
      invariant forall k :: 0 <= k < |user| - u ==> Into(edges, k) == []
    {
      hide Into;
      edges := BuildEdgesOf(user, nodes, |user| - 1 - u, edges);
    }
  }

  function Byte(n: nat): nat { n % 256 }

  lemma ByteNext(n: nat)
    ensures Byte(Byte(n) + 1) == Byte(n + 1) && Byte(n) < 256 && (n < 256 ==> Byte(n) == n)
  {
  }

  predicate Filled(slots: seq<Option<nat>>, all: seq<nat>, n: nat)
    requires |slots| == |all| && n <= |all|
  {
    && (|all| <= 256 ==> forall i :: 0 <= i < n ==> slots[i] == Some(all[i]))
    && (forall i :: 256 <= i < |all| ==> slots[i] == None)
  }

  lemma FillNext(slots: seq<Option<nat>>, all: seq<nat>, n: nat)
    requires |slots| == |all| && n < |all| && Filled(slots, all, n) && Byte(n) < |all|
    ensures Filled(slots[Byte(n) := Some(all[n])], all, n + 1)
  {
  }

  /** The walk over the edge list that fills the slots; the position counter is one byte. */
  method Fill(edges: seq<Edge>, k: nat, empty: seq<Option<nat>>) returns (slots: seq<Option<nat>>)
    requires |Into(edges, k)| == |empty| > 0 && Filled(empty, Into(edges, k), 0)
    ensures |slots| == |empty| && Filled(slots, Into(edges, k), |empty|)
  {
    ghost var all := Into(edges, k);
    slots := empty;
    var count, e := 0, 0;
    ghost var found := 0;
    assert edges[0..] == edges && all[0..] == all;
    while e < |edges|
      invariant e <= |edges| && |slots| == |all| && 0 <= found <= |all| && count == Byte(found)
      invariant Into(edges[e..], k) == all[found..] && Filled(slots, all, found)
    {
      IntoStep(edges, k, e, all, found);
      ByteNext(found);
      ByteNext(found + 1);
      hide Into, Filled, Byte;
      if edges[e].next == k {
        FillNext(slots, all, found);
        slots := slots[count := Some(edges[e].prev)];
        count := Byte(count + 1);
        found := found + 1;
        if count >= |slots| {
          assert found == |all|;
          return;
        }
      }
      e := e + 1;
    }
    assert edges[|edges|..] == [];
    assert found == |all|;
  }

  /** The semaphores a thread pends on, `None` where nothing was written: all slots are filled exactly
      when the node has at most 256 predecessors. */
  method Collect(edges: seq<Edge>, k: nat, inDegree: nat) returns (slots: seq<Option<nat>>)
    requires |Into(edges, k)| == inDegree
    ensures |slots| == inDegree
    ensures inDegree <= 256 ==> forall i :: 0 <= i < inDegree ==> slots[i] == Some(Into(edges, k)[i])
    ensures (forall i :: 0 <= i < inDegree ==> slots[i].Some?) <==> inDegree <= 256
  {
    slots := seq(inDegree, i => None);
    if inDegree > 0 { slots := Fill(edges, k, slots); }
    assert inDegree > 256 ==> slots[256] == None;
  }

  lemma IntoStep(edges: seq<Edge>, k: nat, e: nat, all: seq<nat>, found: nat)
    requires e < |edges| && found <= |all| && Into(edges[e..], k) == all[found..]
    ensures edges[e].next == k ==>
              found < |all| && all[found] == edges[e].prev && Into(edges[e + 1..], k) == all[found + 1..]
    ensures edges[e].next != k ==> Into(edges[e + 1..], k) == all[found..]
  {
    assert edges[e..][1..] == edges[e + 1..];
    if edges[e].next == k {
      assert all[found..] == [edges[e].prev] + Into(edges[e + 1..], k);
      assert all[found..][0] == all[found];
      assert all[found..][1..] == all[found + 1..];
    }
  }

  predicate Pended(nodes: seq<Node>, prev: seq<nat>, slots: seq<Option<nat>>) {
    && |slots| == |prev|
    && forall i :: 0 <= i < |slots| ==>
         slots[i].Some? && slots[i].value < |nodes| && nodes[slots[i].value].route == prev[|prev| - 1 - i]
  }

  /** The whole translation: every thread pends on exactly the nodes of its declared predecessors,
      in reverse order of declaration, when there are at most 256 of them. */
  method Decode(user: seq<UserNode>) returns (nodes: seq<Node>, pends: seq<seq<Option<nat>>>)
    requires Described(user)
    ensures NodesOf(user, nodes) && |pends| == |nodes|
    ensures forall k :: 0 <= k < |pends| && |Source(user, k).prev| <= 256 ==>
              Pended(nodes, Source(user, k).prev, pends[k])
  {
    nodes := BuildNodes(user);
    var edges := BuildEdges(user, nodes);
    pends := [];
    for k := 0 to |nodes|
      invariant |pends| == k
      invariant forall j :: 0 <= j < k && |Source(user, j).prev| <= 256 ==>
                  Pended(nodes, Source(user, j).prev, pends[j])
    {
      hide Described, Into;
      assert nodes[k].inDegree == |Source(user, k).prev|;
      var slots := Collect(edges, k, nodes[k].inDegree);
      pends := pends + [slots];
    }
  }
}
