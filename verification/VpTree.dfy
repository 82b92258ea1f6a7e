/** The vantage-point tree (core/spacetime_ledger.py): for any symmetric distance with the triangle
    inequality the pruned search finds the minimum over every stored item. */
module VpTree {
  import opened Collections
  import opened MellTypes

  datatype Coord = Coord(x: real, y: real, z: real, t: int)

  type Distance = (Coord, Coord) -> real

  ghost predicate Metric(dist: Distance) {
    && (forall a, b :: dist(a, b) == dist(b, a))
    && (forall a, b, c :: dist(a, c) <= dist(a, b) + dist(b, c))
  }

  class VpNode {
    const key: string
    const coord: Coord
    var radius: real
    var inside: VpNode?
    var outside: VpNode?
    ghost var repr: set<VpNode>

    constructor (key: string, coord: Coord)
      ensures this.key == key && this.coord == coord && inside == null && outside == null && radius == 0.0
    {
      this.key, this.coord, radius, inside, outside := key, coord, 0.0, null, null;
    }

    /** A tree of distinct nodes: within the radius inside, beyond it outside. */
    ghost predicate Valid(dist: Distance)
      reads this, repr
      decreases repr
    {
      && this in repr
      && (inside != null ==> inside in repr && inside.repr < repr && this !in inside.repr && inside.Valid(dist))
      && (outside != null ==> outside in repr && outside.repr < repr && this !in outside.repr && outside.Valid(dist))
      && (inside != null && outside != null ==> inside.repr !! outside.repr)
      && repr == {this} + (if inside == null then {} else inside.repr) + (if outside == null then {} else outside.repr)
      && (inside != null ==> forall n :: n in inside.repr ==> dist(coord, n.coord) <= radius)
      && (outside != null ==> forall n :: n in outside.repr ==> dist(coord, n.coord) > radius)
    }
  }

  ghost function Nodes(root: VpNode?): set<VpNode> reads root {
    if root == null then {} else root.repr
  }

  // ----- sorting and splitting by distance -----

  function Insert(nodes: seq<VpNode>, n: VpNode, from: Coord, dist: Distance): (r: seq<VpNode>)
    ensures multiset(r) == multiset(nodes) + multiset{n}
  {
    if nodes == [] || dist(from, n.coord) <= dist(from, nodes[0].coord) then [n] + nodes
    else
      assert nodes == [nodes[0]] + nodes[1..];
      [nodes[0]] + Insert(nodes[1..], n, from, dist)
  }

  function Sorted(nodes: seq<VpNode>, from: Coord, dist: Distance): (r: seq<VpNode>)
    ensures multiset(r) == multiset(nodes)
  {
    if nodes == [] then []
    else
      assert nodes == [nodes[0]] + nodes[1..];
      Insert(Sorted(nodes[1..], from, dist), nodes[0], from, dist)
  }

  /** The nodes within, or beyond, the radius. */
  function Split(nodes: seq<VpNode>, from: Coord, radius: real, within: bool, dist: Distance): (r: seq<VpNode>)
    ensures |r| <= |nodes|
    ensures forall n :: n in r ==> n in nodes && (dist(from, n.coord) <= radius) == within
    ensures forall n :: n in nodes && (dist(from, n.coord) <= radius) == within ==> n in r
  {
    if nodes == [] then []
    else
      var rest := Split(nodes[1..], from, radius, within, dist);
      assert nodes == [nodes[0]] + nodes[1..];
      if (dist(from, nodes[0].coord) <= radius) == within then [nodes[0]] + rest else rest
  }

  lemma SplitDistinct(nodes: seq<VpNode>, from: Coord, radius: real, within: bool, dist: Distance)
    requires Distinct(nodes)
    ensures Distinct(Split(nodes, from, radius, within, dist))
  {
  }

  lemma SortedDistinct(nodes: seq<VpNode>, from: Coord, dist: Distance)
    requires Distinct(nodes)
    ensures Distinct(Sorted(nodes, from, dist)) && |Sorted(nodes, from, dist)| == |nodes|
    ensures forall n :: n in Sorted(nodes, from, dist) <==> n in nodes
  {
    var sorted := Sorted(nodes, from, dist);
    OnceEach(nodes);
    OnceEach(sorted);
    assert |multiset(sorted)| == |sorted| && |multiset(nodes)| == |nodes|;
    forall n ensures n in sorted <==> n in nodes { assert n in multiset(sorted) <==> n in multiset(nodes); }
  }

  // ----- building -----

  function NodeSet(nodes: seq<VpNode>): set<VpNode> {
    set n | n in nodes
  }

  ghost predicate Leaves(nodes: set<VpNode>) reads nodes {
    forall n :: n in nodes ==> n.inside == null && n.outside == null
  }

  /** The radius is the median distance; ties go inside. */
  method Partition(vantage: VpNode, rest: seq<VpNode>, dist: Distance) returns (radius: real, inner: seq<VpNode>, outer: seq<VpNode>)
    requires Distinct(rest) && rest != []
    ensures Distinct(inner) && Distinct(outer) && |inner| <= |rest| && |outer| <= |rest|
    ensures NodeSet(inner) + NodeSet(outer) == NodeSet(rest) && NodeSet(inner) !! NodeSet(outer)
    ensures forall n :: n in NodeSet(inner) ==> dist(vantage.coord, n.coord) <= radius
    ensures forall n :: n in NodeSet(outer) ==> dist(vantage.coord, n.coord) > radius
  {
    SortedDistinct(rest, vantage.coord, dist);
    var distances := Sorted(rest, vantage.coord, dist);
    radius := dist(vantage.coord, distances[|distances| / 2].coord);
    SplitDistinct(distances, vantage.coord, radius, true, dist);
    SplitDistinct(distances, vantage.coord, radius, false, dist);
    inner := Split(distances, vantage.coord, radius, true, dist);
    outer := Split(distances, vantage.coord, radius, false, dist);
  }

  /** Hangs two finished subtrees under a vantage node. */
  method Attach(vantage: VpNode, radius: real, a: VpNode?, b: VpNode?, dist: Distance)
    requires (a != null ==> a.Valid(dist)) && (b != null ==> b.Valid(dist))
    requires vantage !in Nodes(a) && vantage !in Nodes(b) && Nodes(a) !! Nodes(b)
    requires forall n :: n in Nodes(a) ==> dist(vantage.coord, n.coord) <= radius
    requires forall n :: n in Nodes(b) ==> dist(vantage.coord, n.coord) > radius
    modifies vantage
    ensures vantage.Valid(dist) && vantage.repr == {vantage} + old(Nodes(a)) + old(Nodes(b))
  {
    ghost var below := Nodes(a) + Nodes(b);
    vantage.radius := radius;
    vantage.inside, vantage.outside := a, b;
    vantage.repr := {vantage} + below;
  }

  /** _build: the tree holds exactly the given nodes. */
  method Build(nodes: seq<VpNode>, dist: Distance) returns (root: VpNode?)
    requires Distinct(nodes) && Leaves(NodeSet(nodes))
    modifies NodeSet(nodes)
    ensures Built(root, nodes, dist)
    decreases |nodes|, 1
  {
    if nodes == [] {
      return null;
    }
    HeadApart(nodes);
    if nodes[1..] == [] {
      nodes[0].repr := {nodes[0]};
      return nodes[0];
    }
    root := BuildBranch(nodes[0], nodes[1..], dist);
  }

  ghost predicate Built(root: VpNode?, nodes: seq<VpNode>, dist: Distance)
    reads root, Nodes(root)
  {
    && (root == null <==> nodes == [])
    && Nodes(root) == NodeSet(nodes)
    && (root != null ==> root in root.repr && root.Valid(dist))
  }

  /** A vantage node over the trees of its near and far halves. */
  method BuildBranch(vantage: VpNode, rest: seq<VpNode>, dist: Distance) returns (root: VpNode)
    requires Distinct(rest) && rest != [] && vantage !in NodeSet(rest) && Leaves(NodeSet(rest))
    modifies NodeSet(rest), vantage
    ensures root == vantage && root.Valid(dist) && root.repr == {vantage} + NodeSet(rest)
    decreases |rest|, 2
  {
    var radius, inner, outer := Partition(vantage, rest, dist);
    LeavesSplit(inner, outer, rest);
    hide Leaves, NodeSet, Distinct, VpNode.Valid;
    var a := Build(inner, dist);
    var b := Build(outer, dist);
    Attach(vantage, radius, a, b, dist);
    root := vantage;
  }

  lemma LeavesSplit(inner: seq<VpNode>, outer: seq<VpNode>, rest: seq<VpNode>)
    requires NodeSet(inner) + NodeSet(outer) == NodeSet(rest) && Leaves(NodeSet(rest))
    ensures Leaves(NodeSet(inner)) && Leaves(NodeSet(outer)) && NodeSet(inner) <= NodeSet(rest) && NodeSet(outer) <= NodeSet(rest)
  {
  }

  lemma HeadApart(nodes: seq<VpNode>)
    requires Distinct(nodes) && nodes != []
    ensures Distinct(nodes[1..]) && nodes[0] !in NodeSet(nodes[1..])
    ensures NodeSet(nodes) == {nodes[0]} + NodeSet(nodes[1..])
    ensures nodes[1..] == [] ==> NodeSet(nodes[1..]) == {}
  {
  }

  // ----- searching -----

  datatype Hit = Hit(key: string, dist: real)

  /** At least as near as every listed node, and as the hit found before. */
  ghost predicate Nearest(best: Option<Hit>, before: Option<Hit>, nodes: set<VpNode>, target: Coord, dist: Distance) {
    && (forall n :: n in nodes ==> best.Some? && best.value.dist <= dist(n.coord, target))
    && (before.Some? ==> best.Some? && best.value.dist <= before.value.dist)
    && (best == before || exists n :: n in nodes && best == Some(Hit(n.key, dist(n.coord, target))))
  }

  lemma NearestThen(first: Option<Hit>, second: Option<Hit>, third: Option<Hit>, a: set<VpNode>, b: set<VpNode>, target: Coord, dist: Distance)
    requires Nearest(second, first, a, target, dist) && Nearest(third, second, b, target, dist)
    ensures Nearest(third, first, a + b, target, dist)
  {
  }

  /** Nothing beyond the radius can beat a hit this near. */
  lemma OutsidePruned(v: VpNode, n: VpNode, target: Coord, best: real, dist: Distance)
    requires Metric(dist) && dist(v.coord, n.coord) > v.radius && dist(v.coord, target) + best <= v.radius
    ensures best <= dist(n.coord, target)
  {
  }

  /** Nor can anything inside the radius, seen from far enough outside. */
  lemma InsidePruned(v: VpNode, n: VpNode, target: Coord, best: real, dist: Distance)
    requires Metric(dist) && dist(v.coord, n.coord) <= v.radius && dist(v.coord, target) - best > v.radius
    ensures best <= dist(n.coord, target)
  {
  }

  lemma OutsideSkipped(v: VpNode, best: Option<Hit>, target: Coord, dist: Distance)
    requires Metric(dist) && v.Valid(dist) && best.Some? && dist(v.coord, target) + best.value.dist <= v.radius
    ensures Nearest(best, best, Nodes(v.outside), target, dist)
  {
    forall n | n in Nodes(v.outside) ensures best.value.dist <= dist(n.coord, target) {
      OutsidePruned(v, n, target, best.value.dist, dist);
    }
  }

  lemma InsideSkipped(v: VpNode, best: Option<Hit>, target: Coord, dist: Distance)
    requires Metric(dist) && v.Valid(dist) && best.Some? && dist(v.coord, target) - best.value.dist > v.radius
    ensures Nearest(best, best, Nodes(v.inside), target, dist)
  {
    forall n | n in Nodes(v.inside) ensures best.value.dist <= dist(n.coord, target) {
      InsidePruned(v, n, target, best.value.dist, dist);
    }
  }

  lemma Subtrees(v: VpNode, dist: Distance)
    requires v.Valid(dist)
    ensures v.inside != null ==> v.inside.Valid(dist) && v.inside.repr < v.repr
    ensures v.outside != null ==> v.outside.Valid(dist) && v.outside.repr < v.repr
    ensures v.repr == {v} + Nodes(v.inside) + Nodes(v.outside) == {v} + Nodes(v.outside) + Nodes(v.inside)
  {
  }

  lemma AllThree(v: VpNode, best0: Option<Hit>, here: Option<Hit>, mid: Option<Hit>, best: Option<Hit>, a: VpNode?, b: VpNode?, target: Coord, dist: Distance)
    requires Nearest(here, best0, {v}, target, dist) && Nearest(mid, here, Nodes(a), target, dist) && Nearest(best, mid, Nodes(b), target, dist)
    ensures Nearest(best, best0, {v} + Nodes(a) + Nodes(b), target, dist)
  {
    hide Nearest;
    NearestThen(best0, here, mid, {v}, Nodes(a), target, dist);
    NearestThen(best0, mid, best, {v} + Nodes(a), Nodes(b), target, dist);
  }

  /** Updates the shared best record with the subtree, skipping what cannot improve it. */
  method Visit(node: VpNode?, target: Coord, best0: Option<Hit>, dist: Distance) returns (best: Option<Hit>)
    requires Metric(dist) && (node != null ==> node.Valid(dist))
    ensures Nearest(best, best0, Nodes(node), target, dist)
    decreases Nodes(node), 1
  {
    best := best0;
    if node == null {
      return;
    }
    var d := dist(node.coord, target);
    if best.None? || d < best.value.dist {
      best := Some(Hit(node.key, d));
    }
    assert Nearest(best, best0, {node}, target, dist);
    ghost var here := best;
    Subtrees(node, dist);
    hide VpNode.Valid, Metric, Nearest;
    ghost var mid: Option<Hit>;
    if d <= node.radius {
      mid, best := VisitInsideFirst(node, d, target, best, dist);
      AllThree(node, best0, here, mid, best, node.inside, node.outside, target, dist);
    } else {
      mid, best := VisitOutsideFirst(node, d, target, best, dist);
      AllThree(node, best0, here, mid, best, node.outside, node.inside, target, dist);
    }
  }

  method VisitInsideFirst(node: VpNode, d: real, target: Coord, best0: Option<Hit>, dist: Distance) returns (ghost mid: Option<Hit>, best: Option<Hit>)
    requires Metric(dist) && node.Valid(dist) && d == dist(node.coord, target)
    ensures Nearest(mid, best0, Nodes(node.inside), target, dist) && Nearest(best, mid, Nodes(node.outside), target, dist)
    decreases node.repr, 0
  {
    Subtrees(node, dist);
    hide VpNode.Valid, Metric, Nearest;
    best := Visit(node.inside, target, best0, dist);
    mid := best;
    if best.None? || d + best.value.dist > node.radius {
      best := Visit(node.outside, target, best, dist);
    } else {
      OutsideSkipped(node, best, target, dist);
    }
  }

  method VisitOutsideFirst(node: VpNode, d: real, target: Coord, best0: Option<Hit>, dist: Distance) returns (ghost mid: Option<Hit>, best: Option<Hit>)
    requires Metric(dist) && node.Valid(dist) && d == dist(node.coord, target)
    ensures Nearest(mid, best0, Nodes(node.outside), target, dist) && Nearest(best, mid, Nodes(node.inside), target, dist)
    decreases node.repr, 0
  {
    Subtrees(node, dist);
    hide VpNode.Valid, Metric, Nearest;
    best := Visit(node.outside, target, best0, dist);
    mid := best;
    if best.None? || d - best.value.dist <= node.radius {
      best := Visit(node.inside, target, best, dist);
    } else {
      InsideSkipped(node, best, target, dist);
    }
  }

  type Item = (string, Coord)

  ghost function ItemOf(n: VpNode): Item {
    (n.key, n.coord)
  }

  method MakeNodes(items: seq<Item>) returns (nodes: seq<VpNode>)
    ensures |nodes| == |items| && Distinct(nodes) && Leaves(NodeSet(nodes)) && fresh(NodeSet(nodes))
    ensures forall k :: 0 <= k < |items| ==> ItemOf(nodes[k]) == items[k]
  {
    nodes := [];
    for i := 0 to |items|
      invariant |nodes| == i && Distinct(nodes)
      invariant forall k :: 0 <= k < i ==> fresh(nodes[k]) && nodes[k].inside == null && nodes[k].outside == null
      invariant forall k :: 0 <= k < i ==> ItemOf(nodes[k]) == items[k]
    {
      var n := new VpNode(items[i].0, items[i].1);
      nodes := nodes + [n];
    }
  }

  class VantagePointTree {
    var root: VpNode?

    /** The nodes carry exactly the items, one node each. */
    ghost predicate Holds(items: seq<Item>, dist: Distance) reads this, root, Nodes(root) {
      && (root != null ==> root.Valid(dist))
      && |Nodes(root)| == |items|
      && (forall n :: n in Nodes(root) ==> ItemOf(n) in items)
      && (forall i :: 0 <= i < |items| ==> exists n :: n in Nodes(root) && ItemOf(n) == items[i])
    }

    constructor (items: seq<Item>, dist: Distance)
      ensures Holds(items, dist)
    {
      root := null;
      new;
      var nodes := MakeNodes(items);
      hide VpNode.Valid;
      var built := Build(nodes, dist);
      root := built;
      SizeOf(nodes);
      forall k | 0 <= k < |items| ensures exists n :: n in Nodes(root) && ItemOf(n) == items[k] {
        assert nodes[k] in NodeSet(nodes);
      }
    }

    /** nearest: the minimum over all items, as a scan of the list would find. */
    method FindNearest(target: Coord, dist: Distance, ghost items: seq<Item>) returns (best: Option<Hit>)
      requires Holds(items, dist) && Metric(dist)
      ensures best.None? <==> items == []
      ensures best.Some? ==> exists i :: 0 <= i < |items| && best.value == Hit(items[i].0, dist(items[i].1, target))
      ensures best.Some? ==> forall i :: 0 <= i < |items| ==> best.value.dist <= dist(items[i].1, target)
    {
      hide VpNode.Valid, Metric;
      best := Visit(root, target, None, dist);
      if best.Some? {
        ghost var n :| n in Nodes(root) && best == Some(Hit(n.key, dist(n.coord, target)));
        assert ItemOf(n) in items;
      }
      forall i | 0 <= i < |items| ensures best.Some? && best.value.dist <= dist(items[i].1, target) {
        var n :| n in Nodes(root) && ItemOf(n) == items[i];
      }
    }
  }

  lemma {:induction false} SizeOf(nodes: seq<VpNode>)
    requires Distinct(nodes)
    ensures |NodeSet(nodes)| == |nodes|
  {
    if nodes != [] {
      HeadApart(nodes);
      SizeOf(nodes[1..]);
    }
  }
}
