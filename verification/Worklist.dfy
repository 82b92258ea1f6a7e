/** Rebuilding the worklist from the wires (core/translator.py, _rescan_active;
    core/aeroc.py, the last pass of deserialize_network). */
module Worklist {
  import opened Wiring
  import opened Nets

  /** _rescan_active: every wire between two principal ports, exactly once. */
  method RescanActive(net: Net, order: seq<NodeId>) returns (pairs: seq<(NodeId, NodeId)>)
    requires forall n :: n in order <==> n in net.nodes
    ensures Lists(net, pairs)
  {
    pairs := [];
    var seen: set<set<NodeId>> := {};
    for i := 0 to |order|
      invariant forall k :: 0 <= k < |pairs| ==> Facing(net, pairs[k].0, pairs[k].1)
      invariant forall a, b :: Facing(net, a, b) && a in order[..i] ==> (a, b) in pairs || (b, a) in pairs
      invariant forall j, k :: 0 <= j < k < |pairs| ==> pairs[j] != pairs[k] && pairs[j] != (pairs[k].1, pairs[k].0)
      invariant forall a, b :: {a, b} in seen <==> (a, b) in pairs || (b, a) in pairs
    {
      var n := order[i];
      assert n in order && order[..i + 1] == order[..i] + [n];
      if P(n) in net.wires && net.wires[P(n)].index == 0 && net.wires[P(n)].owner in net.nodes {
        var other := net.wires[P(n)].owner;
        if {n, other} !in seen {
          KeysOnce(n, other);
          seen := seen + {{n, other}};
          pairs := pairs + [(n, other)];
        }
      }
    }
    assert order[..|order|] == order;
  }

  /** Exactly the wires between two principal ports, each once. */
  ghost predicate Lists(net: Net, pairs: seq<(NodeId, NodeId)>) {
    && (forall k :: 0 <= k < |pairs| ==> Facing(net, pairs[k].0, pairs[k].1))
    && (forall a, b :: Facing(net, a, b) ==> (a, b) in pairs || (b, a) in pairs)
    && (forall j, k :: 0 <= j < k < |pairs| ==> pairs[j] != pairs[k] && pairs[j] != (pairs[k].1, pairs[k].0))
  }

  ghost predicate Facing(net: Net, a: NodeId, b: NodeId) {
    a in net.nodes && b in net.nodes && P(a) in net.wires && net.wires[P(a)] == P(b)
  }

  lemma KeysOnce(n: NodeId, other: NodeId)
    ensures forall a, b :: {a, b} == {n, other} <==> (a, b) == (n, other) || (b, a) == (n, other)
  {
  }
}
