/** The termination measure: the number of ports of the live nodes. Every firing
    lowers it by at least 2, except duplication of a node with auxiliary ports. */
module Measure {
  import opened Collections
  import opened Wiring
  import opened Nets

  function NodePorts(n: NodeId, x: Node): set<Port> {
    set i | 0 <= i <= |x.aux| :: Port(n, i)
  }

  function PortSet(nodes: NodeMap): set<Port> {
    set n, i | n in nodes && 0 <= i <= |nodes[n].aux| :: Port(n, i)
  }

  function PortCount(nodes: NodeMap): nat {
    |PortSet(nodes)|
  }

  function Weight(more: seq<Node>): nat {
    if more == [] then 0 else 1 + |more[0].aux| + Weight(more[1..])
  }

  lemma {:induction false} FirstPorts(n: NodeId, k: nat)
    ensures |set i | 0 <= i < k :: Port(n, i)| == k
  {
    if k > 0 {
      FirstPorts(n, k - 1);
      assert (set i | 0 <= i < k :: Port(n, i)) == (set i | 0 <= i < k - 1 :: Port(n, i)) + {Port(n, k - 1)};
    }
  }

  lemma NodePortCount(n: NodeId, x: Node)
    ensures |NodePorts(n, x)| == 1 + |x.aux|
  {
    FirstPorts(n, |x.aux| + 1);
    assert NodePorts(n, x) == set i | 0 <= i < |x.aux| + 1 :: Port(n, i);
  }

  lemma PortsSplit(nodes: NodeMap, n: NodeId, x: Node)
    requires n !in nodes
    ensures PortSet(nodes[n := x]) == PortSet(nodes) + NodePorts(n, x) && PortSet(nodes) !! NodePorts(n, x)
  {
  }

  lemma AddedNode(nodes: NodeMap, n: NodeId, x: Node)
    requires n !in nodes
    ensures PortCount(nodes[n := x]) == PortCount(nodes) + 1 + |x.aux|
  {
    hide PortSet, NodePorts;
    NodePortCount(n, x);
    PortsSplit(nodes, n, x);
  }

  lemma RemovedNode(nodes: NodeMap, n: NodeId)
    requires n in nodes
    ensures PortCount(nodes) == PortCount(nodes - {n}) + 1 + |nodes[n].aux|
  {
    AddedNode(nodes - {n}, n, nodes[n]);
    assert (nodes - {n})[n := nodes[n]] == nodes;
  }

  lemma {:induction false} AddedNodes(nodes: NodeMap, ids: seq<NodeId>, more: seq<Node>)
    requires |ids| == |more| && Distinct(ids) && forall i :: 0 <= i < |ids| ==> ids[i] !in nodes
    ensures PortCount(AddNodes(nodes, ids, more)) == PortCount(nodes) + Weight(more)
    decreases |ids|
  {
    if ids != [] {
      AddedNode(nodes, ids[0], more[0]);
      AddedNodes(nodes[ids[0] := more[0]], ids[1..], more[1..]);
    }
  }

  lemma {:induction false} UniformWeight(k: nat, x: Node)
    ensures Weight(seq(k, _ => x)) == k * (1 + |x.aux|)
  {
    var s := seq(k, _ => x);
    if k > 0 {
      UniformWeight(k - 1, x);
      assert s[1..] == seq(k - 1, _ => x);
    }
  }

  lemma {:induction false} WeightConcat(s: seq<Node>, t: seq<Node>)
    ensures Weight(s + t) == Weight(s) + Weight(t)
  {
    if s == [] {
      assert s + t == t;
    } else {
      WeightConcat(s[1..], t);
      assert (s + t)[1..] == s[1..] + t;
    }
  }

  lemma CreatedWeight(rule: Rule, x: Node, y: Node, yId: NodeId)
    requires rule == Duplicate ==> |x.aux| == 2
    ensures Weight(Created(rule, x, y, yId)) ==
      match rule
      case Annihilate => 0
      case Duplicate => 2 + 5 * |y.aux|
      case Erase => |y.aux|
      case Select => 1
      case Project => 1
  {
    match rule
    case Annihilate =>
    case Duplicate =>
      WeightConcat(seq(|x.aux|, _ => y), seq(|y.aux|, _ => FreshDuplicator(x)));
      UniformWeight(|x.aux|, y);
      UniformWeight(|y.aux|, FreshDuplicator(x));
    case Erase => UniformWeight(|y.aux|, EraserNode());
    case Select =>
    case Project =>
  }

  lemma ReplacedPair(nodes: NodeMap, a: NodeId, b: NodeId, ids: seq<NodeId>, more: seq<Node>)
    requires a in nodes && b in nodes && a != b
    requires |ids| == |more| && Distinct(ids) && forall i :: 0 <= i < |ids| ==> ids[i] !in nodes
    ensures PortCount(AddNodes(nodes - {a, b}, ids, more)) + 2 + |nodes[a].aux| + |nodes[b].aux| == PortCount(nodes) + Weight(more)
  {
    RemovedNode(nodes, a);
    RemovedNode(nodes - {a}, b);
    assert nodes - {a} - {b} == nodes - {a, b};
    AddedNodes(nodes - {a, b}, ids, more);
  }

  /** The exact effect of a firing on the number of ports. */
  lemma FireCount(net: Net, a: NodeId, b: NodeId, ids: seq<NodeId>)
    requires WellFormed(net.nodes) && Reducible(net, a, b)
    requires |ids| == |CreatedAt(net, a, b)| && Fresh(net, ids)
    ensures
      var before, after := PortCount(net.nodes), PortCount(Fire(net, a, b, ids).nodes);
      var (x, y) := (net.nodes[Lead(net, a, b)], net.nodes[Other(net, a, b)]);
      match RuleAt(net, a, b)
      case Annihilate => after + 2 + |x.aux| + |y.aux| == before
      case Duplicate => after + 2 == before + 4 * |y.aux|
      case Erase => after + 2 == before
      case Select => after + 4 + |y.aux| == before
      case Project => after + 2 + |y.aux| == before
  {
    ReplacedPair(net.nodes, a, b, ids, CreatedAt(net, a, b));
    CreatedWeight(RuleAt(net, a, b), net.nodes[Lead(net, a, b)], net.nodes[Other(net, a, b)], Other(net, a, b));
  }

  /** Duplication of a node that has auxiliary ports. */
  ghost predicate Copying(net: Net, a: NodeId, b: NodeId)
    requires a in net.nodes && b in net.nodes
  {
    RuleAt(net, a, b) == Duplicate && net.nodes[Other(net, a, b)].aux != []
  }

  /** The number of ports falls, and then by at least 2, exactly when the firing
      is not a duplication of a node with auxiliary ports. */
  lemma FireShrinks(net: Net, a: NodeId, b: NodeId, ids: seq<NodeId>)
    requires WellFormed(net.nodes) && Reducible(net, a, b)
    requires |ids| == |CreatedAt(net, a, b)| && Fresh(net, ids)
    ensures PortCount(Fire(net, a, b, ids).nodes) + 2 <= PortCount(net.nodes) <==> !Copying(net, a, b)
    ensures PortCount(Fire(net, a, b, ids).nodes) < PortCount(net.nodes) <==> !Copying(net, a, b)
  {
    FireCount(net, a, b, ids);
  }
}
