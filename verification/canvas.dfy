/**
  The canvas helpers of ui/src/components/Canvas.tsx: flattening the pod tree into canvas
  nodes, checking the shared (Yjs) node and edge maps against the database, the edges
  rebuilt from arrows, and choosing the node a keyboard jump lands on.
*/
module Canvas {
  import opened Wrappers
  import opened Flow

  /** The id of the tree's root; it is never a canvas node itself. */
  const Root := "ROOT"

  /** The selector of the element by which a pod node is dragged. */
  const DragHandle := ".custom-drag-handle"

  // ---------------------------------------------------------------------------
  // store2nodes
  // ---------------------------------------------------------------------------

  /** What `getPod(id)` returns, as far as `store2nodes` reads it. */
  datatype Pod = Pod(
    kind: string,
    name: Option<string>,
    parent: string,
    x: real,
    y: real,
    width: Option<real>,
    height: Option<real>)

  /** `v || undefined`: a missing or zero size is left unset. */
  function Measure(v: Option<real>): (r: Option<real>)
    ensures r.None? <==> v.None? || v.value == 0.0
    ensures r.Some? ==> r == v
  {
    if v.Some? && v.value != 0.0 then v else None
  }

  /** The canvas node `store2nodes` pushes for pod `id`. */
  function PodNode(id: string, pod: Pod): (n: Node)
    ensures n.id == id && n.data.caption == id && n.kind == pod.kind
    ensures n.data.name == pod.name && n.data.parent == pod.parent
    ensures n.position == Point(pod.x, pod.y)
    ensures n.parentNode.None? <==> pod.parent == Root
    ensures n.parentNode.Some? ==> n.parentNode.value == pod.parent
    ensures n.width == Measure(pod.width) && n.height == Measure(pod.height)
    ensures n.style.width == n.width && n.style.height == n.height
    ensures n.dragHandle == Some(DragHandle)
  {
    Node(id, pod.kind, NodeData(id, pod.name, pod.parent), Point(pod.x, pod.y),
      if pod.parent != Root then Some(pod.parent) else None,
      Style(Measure(pod.width), Measure(pod.height)),
      Measure(pod.width), Measure(pod.height), Some(DragHandle))
  }

  /** `getId2children(id) || []`. */
  function ChildrenOf(children: map<string, seq<string>>, id: string): seq<string> {
    if id in children then children[id] else []
  }

  /**
    `rank` witnesses that the child lists form no cycle: every child ranks below its
    parent. Without it `store2nodes` would recurse for ever.
  */
  predicate Ranked(children: map<string, seq<string>>, rank: map<string, nat>) {
    forall p :: p in children ==>
      (p in rank && forall k :: 0 <= k < |children[p]| ==> children[p][k] in rank && rank[children[p][k]] < rank[p])
  }

  function Height(children: map<string, seq<string>>, rank: map<string, nat>, id: string): nat
    requires Ranked(children, rank)
  {
    if id in children then rank[id] + 1 else 0
  }

  /** Every id below `bound` in the ranking. */
  predicate Below(children: map<string, seq<string>>, rank: map<string, nat>, ids: seq<string>, bound: nat)
    requires Ranked(children, rank)
  {
    forall k :: 0 <= k < |ids| ==> Height(children, rank, ids[k]) < bound
  }

  lemma ChildrenBelow(children: map<string, seq<string>>, rank: map<string, nat>, id: string)
    requires Ranked(children, rank)
    ensures Below(children, rank, ChildrenOf(children, id), Height(children, rank, id))
  {
    var cs := ChildrenOf(children, id);
    forall k | 0 <= k < |cs| ensures Height(children, rank, cs[k]) < Height(children, rank, id) {
      assert cs[k] in rank && rank[cs[k]] < rank[id];
    }
  }

  /** The ids `store2nodes(id)` visits, in pre-order, with the root left out. */
  ghost function Subtree(children: map<string, seq<string>>, rank: map<string, nat>, id: string): (ids: seq<string>)
    requires Ranked(children, rank)
    ensures Root !in ids
    ensures id != Root ==> |ids| > 0 && ids[0] == id
    decreases Height(children, rank, id), 1
  {
    ChildrenBelow(children, rank, id);
    (if id == Root then [] else [id]) + Subforest(children, rank, ChildrenOf(children, id), Height(children, rank, id))
  }

  ghost function Subforest(children: map<string, seq<string>>, rank: map<string, nat>, cs: seq<string>, bound: nat): (ids: seq<string>)
    requires Ranked(children, rank) && Below(children, rank, cs, bound)
    ensures Root !in ids
    decreases bound, 0, |cs|
  {
    if |cs| == 0 then []
    else Subtree(children, rank, cs[0]) + Subforest(children, rank, cs[1..], bound)
  }

  /** Every pod in `ids` is known to the store. */
  predicate AllKnown(ids: seq<string>, pods: map<string, Pod>) {
    forall k :: 0 <= k < |ids| ==> ids[k] in pods
  }

  /** The canvas nodes of the pods `ids`, in order. */
  function NodesOf(ids: seq<string>, pods: map<string, Pod>): (ns: seq<Node>)
    requires AllKnown(ids, pods)
    ensures |ns| == |ids|
    ensures forall k :: 0 <= k < |ids| ==> ns[k] == PodNode(ids[k], pods[ids[k]])
  {
    seq(|ids|, k requires 0 <= k < |ids| => PodNode(ids[k], pods[ids[k]]))
  }

  lemma AllKnownAppend(a: seq<string>, b: seq<string>, pods: map<string, Pod>)
    ensures AllKnown(a + b, pods) <==> AllKnown(a, pods) && AllKnown(b, pods)
  {
    if AllKnown(a, pods) && AllKnown(b, pods) {
      forall k | 0 <= k < |a + b| ensures (a + b)[k] in pods {
        if k >= |a| { assert (a + b)[k] == b[k - |a|]; }
      }
    }
    if AllKnown(a + b, pods) {
      forall k | 0 <= k < |a| ensures a[k] in pods {
        assert (a + b)[k] == a[k];
      }
      forall k | 0 <= k < |b| ensures b[k] in pods {
        assert (a + b)[|a| + k] == b[k];
      }
    }
  }

  lemma NodesOfAppend(a: seq<string>, b: seq<string>, pods: map<string, Pod>)
    requires AllKnown(a, pods) && AllKnown(b, pods)
    ensures AllKnown(a + b, pods)
    ensures NodesOf(a + b, pods) == NodesOf(a, pods) + NodesOf(b, pods)
  {
    AllKnownAppend(a, b, pods);
  }

  /**
    `store2nodes(id)`: the canvas nodes of the subtree under `id`, parents before their
    children and children in list order. Reading a pod the store does not know throws.
  */
  function Store2Nodes(id: string, children: map<string, seq<string>>, pods: map<string, Pod>, ghost rank: map<string, nat>): (r: Result<seq<Node>>)
    requires Ranked(children, rank)
    ensures r.Ok? <==> AllKnown(Subtree(children, rank, id), pods)
    ensures r.Ok? ==> r.value == NodesOf(Subtree(children, rank, id), pods)
    decreases Height(children, rank, id), 1
  {
    ChildrenBelow(children, rank, id);
    var own: Result<seq<Node>> :=
      if id == Root then Ok([])
      else if id !in pods then Err("TypeError")
      else Ok([PodNode(id, pods[id])]);
    var cs := ChildrenOf(children, id);
    var rest := Store2Forest(cs, children, pods, rank, Height(children, rank, id));
    var head: seq<string> := if id == Root then [] else [id];
    AllKnownAppend(head, Subforest(children, rank, cs, Height(children, rank, id)), pods);
    assert Subtree(children, rank, id) == head + Subforest(children, rank, cs, Height(children, rank, id));
    if own.Err? then own
    else if rest.Err? then rest
    else
      NodesOfAppend(head, Subforest(children, rank, cs, Height(children, rank, id)), pods);
      Ok(own.value + rest.value)
  }

  /** The loop of `store2nodes` over one child list. */
  function Store2Forest(cs: seq<string>, children: map<string, seq<string>>, pods: map<string, Pod>, ghost rank: map<string, nat>, ghost bound: nat): (r: Result<seq<Node>>)
    requires Ranked(children, rank) && Below(children, rank, cs, bound)
    ensures r.Ok? <==> AllKnown(Subforest(children, rank, cs, bound), pods)
    ensures r.Ok? ==> r.value == NodesOf(Subforest(children, rank, cs, bound), pods)
    decreases bound, 0, |cs|
  {
    if |cs| == 0 then Ok([])
    else
      var first := Store2Nodes(cs[0], children, pods, rank);
      var rest := Store2Forest(cs[1..], children, pods, rank, bound);
      AllKnownAppend(Subtree(children, rank, cs[0]), Subforest(children, rank, cs[1..], bound), pods);
      if first.Err? then first
      else if rest.Err? then rest
      else
        NodesOfAppend(Subtree(children, rank, cs[0]), Subforest(children, rank, cs[1..], bound), pods);
        Ok(first.value + rest.value)
  }

  /** Every id of a child list appears in the list's pre-order (roots aside), with its own subtree. */
  lemma {:induction false} SubforestContains(children: map<string, seq<string>>, rank: map<string, nat>, cs: seq<string>, bound: nat, j: nat)
    requires Ranked(children, rank) && Below(children, rank, cs, bound)
    requires j < |cs|
    ensures forall x :: x in Subtree(children, rank, cs[j]) ==> x in Subforest(children, rank, cs, bound)
    decreases j
  {
    if j > 0 {
      assert Below(children, rank, cs[1..], bound) by {
        forall k | 0 <= k < |cs[1..]| ensures Height(children, rank, cs[1..][k]) < bound {
          assert cs[1..][k] == cs[k + 1];
        }
      }
      SubforestContains(children, rank, cs[1..], bound, j - 1);
      assert cs[1..][j - 1] == cs[j];
    }
  }

  /**
    Pre-order: a pod's children, and everything under them, follow it in the list
    `store2nodes` builds.
  */
  lemma ChildAfterParent(children: map<string, seq<string>>, rank: map<string, nat>, id: string, j: nat)
    requires Ranked(children, rank)
    requires j < |ChildrenOf(children, id)|
    ensures forall x :: x in Subtree(children, rank, ChildrenOf(children, id)[j]) ==>
      x in Subtree(children, rank, id)
      && (id != Root ==> exists k :: 0 < k < |Subtree(children, rank, id)| && Subtree(children, rank, id)[k] == x)
  {
    var cs := ChildrenOf(children, id);
    ChildrenBelow(children, rank, id);
    SubforestContains(children, rank, cs, Height(children, rank, id), j);
    var head: seq<string> := if id == Root then [] else [id];
    var rest := Subforest(children, rank, cs, Height(children, rank, id));
    assert Subtree(children, rank, id) == head + rest;
    forall x | x in Subtree(children, rank, cs[j])
      ensures id != Root ==> exists k :: 0 < k < |head + rest| && (head + rest)[k] == x
    {
      if id != Root {
        var i :| 0 <= i < |rest| && rest[i] == x;
        assert (head + rest)[i + 1] == x;
      }
    }
  }

  // ---------------------------------------------------------------------------
  // verifyConsistency / verifyEdgeConsistency
  // ---------------------------------------------------------------------------

  /** `nodes.forEach(node => map.set(node.id, node))`: the last node with an id wins. */
  function NodesById(nodes: seq<Node>): (m: map<string, Node>)
  {
    if |nodes| == 0 then map[]
    else NodesById(nodes[..|nodes| - 1])[nodes[|nodes| - 1].id := nodes[|nodes| - 1]]
  }

  /** Every id is a key, and each key holds one of the nodes with that id. */
  lemma {:induction false} NodesByIdKeys(nodes: seq<Node>)
    ensures forall i :: 0 <= i < |nodes| ==> nodes[i].id in NodesById(nodes)
    ensures forall k :: k in NodesById(nodes) ==> NodesById(nodes)[k].id == k && NodesById(nodes)[k] in nodes
  {
    if |nodes| > 0 {
      var p := nodes[..|nodes| - 1];
      NodesByIdKeys(p);
      assert forall i :: 0 <= i < |nodes| - 1 ==> p[i] == nodes[i];
      assert forall x :: x in p ==> x in nodes;
    }
  }

  /** Two copies of a node agree: same id and parent, positions within 0.01 on each axis. */
  predicate NodesAgree(n1: Node, n2: Node) {
    n1.id == n2.id && n1.parentNode == n2.parentNode
    && Abs(n1.position.x - n2.position.x) <= 0.01
    && Abs(n1.position.y - n2.position.y) <= 0.01
  }

  /** What `verifyConsistency(nodes, nodesMap)` answers. */
  predicate Consistent(nodes: seq<Node>, nodesMap: map<string, Node>) {
    var byId := NodesById(nodes);
    |nodesMap.Keys| == |byId.Keys|
    && forall key :: key in nodesMap ==> key in byId && NodesAgree(nodesMap[key], byId[key])
  }

  /** Equal sizes plus inclusion: the size check and the per-key lookups compare the key sets exactly. */
  lemma SameKeys<V, W>(a: map<string, V>, b: map<string, W>)
    requires |a.Keys| == |b.Keys| && forall k :: k in a ==> k in b
    ensures a.Keys == b.Keys
  {
    var extra := b.Keys - a.Keys;
    assert b.Keys == a.Keys + extra;
    assert a.Keys !! extra;
    assert |b.Keys| == |a.Keys| + |extra|;
  }

  /** The check holds exactly when both sides have the same ids and every pair agrees. */
  lemma ConsistentIff(nodes: seq<Node>, nodesMap: map<string, Node>)
    ensures Consistent(nodes, nodesMap) <==>
      nodesMap.Keys == NodesById(nodes).Keys
      && forall key :: key in nodesMap ==> NodesAgree(nodesMap[key], NodesById(nodes)[key])
  {
    if Consistent(nodes, nodesMap) {
      SameKeys(nodesMap, NodesById(nodes));
    }
  }

  /** Resetting the shared map from the nodes (`clear`, then `set` each) makes the check pass. */
  lemma ResetIsConsistent(nodes: seq<Node>)
    ensures Consistent(nodes, NodesById(nodes))
  {
  }

  /** `verifyConsistency(nodes, nodesMap)`. The loop comparing `keys[i]` with `keys2[i]` indexes a `Set`, reads `undefined` on both sides and never fails; it is left out. */
  method VerifyConsistency(nodes: seq<Node>, nodesMap: map<string, Node>) returns (ok: bool)
    ensures ok == Consistent(nodes, nodesMap)
  {
    var nodesMap2: map<string, Node> := map[];
    var i := 0;
    while i < |nodes|
      invariant 0 <= i <= |nodes|
      invariant nodesMap2 == NodesById(nodes[..i])
    {
      assert nodes[..i + 1][..i] == nodes[..i];
      nodesMap2 := nodesMap2[nodes[i].id := nodes[i]];
      i := i + 1;
    }
    assert nodes[..i] == nodes;
    if |nodesMap.Keys| != |nodesMap2.Keys| {
      return false;
    }
    var keys := nodesMap.Keys;
    while keys != {}
      invariant keys <= nodesMap.Keys
      invariant forall key :: key in nodesMap && key !in keys ==> key in nodesMap2 && NodesAgree(nodesMap[key], nodesMap2[key])
      decreases keys
    {
      var key :| key in keys;
      var node1 := nodesMap[key];
      if key !in nodesMap2 {
        return false;
      }
      var node2 := nodesMap2[key];
      if node1.id != node2.id {
        return false;
      }
      if node1.parentNode != node2.parentNode {
        return false;
      }
      if Abs(node1.position.x - node2.position.x) > 0.01 {
        return false;
      }
      if Abs(node1.position.y - node2.position.y) > 0.01 {
        return false;
      }
      keys := keys - {key};
    }
    return true;
  }

  /** `edges.forEach(edge => map.set(edge.id, edge))`: the last edge with an id wins. */
  function EdgesById(edges: seq<Edge>): (m: map<string, Edge>)
  {
    if |edges| == 0 then map[]
    else EdgesById(edges[..|edges| - 1])[edges[|edges| - 1].id := edges[|edges| - 1]]
  }

  /** Every id is a key, and each key holds one of the edges with that id. */
  lemma {:induction false} EdgesByIdKeys(edges: seq<Edge>)
    ensures forall i :: 0 <= i < |edges| ==> edges[i].id in EdgesById(edges)
    ensures forall k :: k in EdgesById(edges) ==> EdgesById(edges)[k].id == k && EdgesById(edges)[k] in edges
  {
    if |edges| > 0 {
      var p := edges[..|edges| - 1];
      EdgesByIdKeys(p);
      assert forall i :: 0 <= i < |edges| - 1 ==> p[i] == edges[i];
      assert forall x :: x in p ==> x in edges;
    }
  }

  /** Two copies of an edge agree: same id, source and target. */
  predicate EdgesAgree(e1: Edge, e2: Edge) {
    e1.id == e2.id && e1.source == e2.source && e1.target == e2.target
  }

  /** What `verifyEdgeConsistency(edges, edgesMap)` answers. */
  predicate EdgeConsistent(edges: seq<Edge>, edgesMap: map<string, Edge>) {
    var byId := EdgesById(edges);
    |edgesMap.Keys| == |byId.Keys|
    && forall key :: key in edgesMap ==> key in byId && EdgesAgree(edgesMap[key], byId[key])
  }

  lemma EdgeConsistentIff(edges: seq<Edge>, edgesMap: map<string, Edge>)
    ensures EdgeConsistent(edges, edgesMap) <==>
      edgesMap.Keys == EdgesById(edges).Keys
      && forall key :: key in edgesMap ==> EdgesAgree(edgesMap[key], EdgesById(edges)[key])
  {
    if EdgeConsistent(edges, edgesMap) {
      SameKeys(edgesMap, EdgesById(edges));
    }
  }

  /** `verifyEdgeConsistency(edges, edgesMap)`; as for nodes, the `Set`-indexing loop never fails and is left out. */
  method VerifyEdgeConsistency(edges: seq<Edge>, edgesMap: map<string, Edge>) returns (ok: bool)
    ensures ok == EdgeConsistent(edges, edgesMap)
  {
    var edgesMap2: map<string, Edge> := map[];
    var i := 0;
    while i < |edges|
      invariant 0 <= i <= |edges|
      invariant edgesMap2 == EdgesById(edges[..i])
    {
      assert edges[..i + 1][..i] == edges[..i];
      edgesMap2 := edgesMap2[edges[i].id := edges[i]];
      i := i + 1;
    }
    assert edges[..i] == edges;
    if |edgesMap.Keys| != |edgesMap2.Keys| {
      return false;
    }
    var keys := edgesMap.Keys;
    while keys != {}
      invariant keys <= edgesMap.Keys
      invariant forall key :: key in edgesMap && key !in keys ==> key in edgesMap2 && EdgesAgree(edgesMap[key], edgesMap2[key])
      decreases keys
    {
      var key :| key in keys;
      var edge1 := edgesMap[key];
      if key !in edgesMap2 {
        return false;
      }
      var edge2 := edgesMap2[key];
      if edge1.id != edge2.id {
        return false;
      }
      if edge1.source != edge2.source {
        return false;
      }
      if edge1.target != edge2.target {
        return false;
      }
      keys := keys - {key};
    }
    return true;
  }

  // ---------------------------------------------------------------------------
  // Arrows to edges
  // ---------------------------------------------------------------------------

  /** A stored arrow between two pods. */
  datatype Arrow = Arrow(source: string, target: string)

  /** The id an arrow's edge gets: `${source}_${target}`. */
  function ArrowEdgeId(a: Arrow): (id: string)
    ensures |id| == |a.source| + 1 + |a.target|
    ensures id[..|a.source|] == a.source && id[|a.source|] == '_' && id[|a.source| + 1..] == a.target
  {
    a.source + "_" + a.target
  }

  /** Ids that contain no `_` give every arrow its own edge id. */
  lemma ArrowEdgeIdInjective(a1: Arrow, a2: Arrow)
    requires '_' !in a1.source && '_' !in a2.source
    requires ArrowEdgeId(a1) == ArrowEdgeId(a2)
    ensures a1 == a2
  {
  }

  /** With `_` inside ids, two different arrows share an edge id: the later one replaces the earlier. */
  lemma ArrowEdgeIdsCollide()
    ensures ArrowEdgeId(Arrow("a_b", "c")) == ArrowEdgeId(Arrow("a", "b_c"))
  {
  }

  /** The edges handed to `verifyEdgeConsistency`: ids, sources and targets only. */
  function ArrowProbes(arrows: seq<Arrow>): (es: seq<Edge>)
    ensures |es| == |arrows|
    ensures forall i :: 0 <= i < |arrows| ==>
      (es[i].id == ArrowEdgeId(arrows[i]) && es[i].source == arrows[i].source && es[i].target == arrows[i].target)
  {
    seq(|arrows|, i requires 0 <= i < |arrows| => Edge(ArrowEdgeId(arrows[i]), arrows[i].source, arrows[i].target, None, None))
  }

  /** The edges written to the shared map when it is rebuilt from the arrows. */
  function ArrowEdges(arrows: seq<Arrow>): (es: seq<Edge>)
    ensures |es| == |arrows|
    ensures forall i :: 0 <= i < |arrows| ==>
      (es[i].id == ArrowEdgeId(arrows[i]) && es[i].source == arrows[i].source && es[i].target == arrows[i].target
       && es[i].sourceHandle == Some("top") && es[i].targetHandle == Some("top"))
  {
    seq(|arrows|, i requires 0 <= i < |arrows| => Edge(ArrowEdgeId(arrows[i]), arrows[i].source, arrows[i].target, Some("top"), Some("top")))
  }

  lemma {:induction false} ProbesMatchEdges(arrows: seq<Arrow>)
    ensures EdgesById(ArrowProbes(arrows)).Keys == EdgesById(ArrowEdges(arrows)).Keys
    ensures forall key :: key in EdgesById(ArrowProbes(arrows)) ==>
      EdgesAgree(EdgesById(ArrowEdges(arrows))[key], EdgesById(ArrowProbes(arrows))[key])
  {
    if |arrows| > 0 {
      var n := |arrows| - 1;
      ProbesMatchEdges(arrows[..n]);
      assert ArrowProbes(arrows)[..n] == ArrowProbes(arrows[..n]);
      assert ArrowEdges(arrows)[..n] == ArrowEdges(arrows[..n]);
    }
  }

  /** Rebuilding the edge map from the arrows makes the edge check pass on the next load. */
  lemma RebuiltEdgesConsistent(arrows: seq<Arrow>)
    ensures EdgeConsistent(ArrowProbes(arrows), EdgesById(ArrowEdges(arrows)))
  {
    ProbesMatchEdges(arrows);
  }

  // ---------------------------------------------------------------------------
  // getBestNode
  // ---------------------------------------------------------------------------

  datatype Direction = Up | Down | Left | Right

  /** A node whose width and height are known; otherwise its centre is `NaN`. */
  predicate Measured(n: Node) {
    n.width.Some? && n.height.Some?
  }

  function CenterX(n: Node): real
    requires Measured(n)
  {
    n.position.x + n.width.value / 2.0
  }

  function CenterY(n: Node): real
    requires Measured(n)
  {
    n.position.y + n.height.value / 2.0
  }

  /**
    `n` can be jumped to from `from`: its centre lies strictly beyond `from`'s in the
    direction, and its distance is a number (`NaN` never compares below the best).
  */
  predicate Candidate(n: Node, from: Node, dir: Direction) {
    Measured(n) && Measured(from)
    && match dir
       case Up => CenterY(n) < CenterY(from)
       case Down => CenterY(n) > CenterY(from)
       case Left => CenterX(n) < CenterX(from)
       case Right => CenterX(n) > CenterX(from)
  }

  /** The midpoint of `from`'s edge facing the direction. */
  function StartPoint(from: Node, dir: Direction): Point
    requires Measured(from)
  {
    match dir
    case Up => Point(CenterX(from), from.position.y)
    case Down => Point(CenterX(from), from.position.y + from.height.value)
    case Left => Point(from.position.x, CenterY(from))
    case Right => Point(from.position.x + from.width.value, CenterY(from))
  }

  /** The squared distance from the start point, with the off-axis term counted twice. */
  function Distance(n: Node, from: Node, dir: Direction): real
    requires Measured(n) && Measured(from)
  {
    var s := StartPoint(from, dir);
    var dx := CenterX(n) - s.x;
    var dy := CenterY(n) - s.y;
    dx * dx * (if dir == Left || dir == Right then 1.0 else 2.0)
    + dy * dy * (if dir == Up || dir == Down then 1.0 else 2.0)
  }

  /** Among `nodes[..n]`, node `i` is a candidate at least as close as any other and closer than every earlier one. */
  predicate FirstNearest(nodes: seq<Node>, n: int, from: Node, dir: Direction, i: int)
    requires 0 <= i < n <= |nodes|
  {
    Candidate(nodes[i], from, dir)
    && (forall j :: 0 <= j < n && Candidate(nodes[j], from, dir) ==> Distance(nodes[i], from, dir) <= Distance(nodes[j], from, dir))
    && (forall j :: 0 <= j < i && Candidate(nodes[j], from, dir) ==> Distance(nodes[i], from, dir) < Distance(nodes[j], from, dir))
  }

  /** A node is never a candidate from itself. */
  lemma NotOwnCandidate(from: Node, dir: Direction)
    ensures !Candidate(from, from, dir)
  {
  }

  /** `getBestNode(nodes, from, direction)`. */
  method GetBestNode(nodes: seq<Node>, from: Node, dir: Direction) returns (best: Option<Node>)
    ensures best.None? <==> forall j :: 0 <= j < |nodes| ==> !Candidate(nodes[j], from, dir)
    ensures best.Some? ==> exists i :: 0 <= i < |nodes| && nodes[i] == best.value && FirstNearest(nodes, |nodes|, from, dir, i)
    ensures best.Some? ==> best.value != from
  {
    best := None;
    var bestDistance: real := 0.0;
    ghost var at := 0;
    var i := 0;
    while i < |nodes|
      invariant 0 <= i <= |nodes|
      invariant best.None? <==> forall j :: 0 <= j < i ==> !Candidate(nodes[j], from, dir)
      invariant best.Some? ==>
        (0 <= at < i && nodes[at] == best.value && FirstNearest(nodes, i, from, dir, at)
         && bestDistance == Distance(best.value, from, dir))
    {
      var node := nodes[i];
      if Candidate(node, from, dir) {
        var distance := Distance(node, from, dir);
        if best.None? || distance < bestDistance {
          best, bestDistance, at := Some(node), distance, i;
        }
      }
      i := i + 1;
    }
    if best.Some? {
      NotOwnCandidate(from, dir);
    }
  }
}
