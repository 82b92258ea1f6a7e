/** Subject reduction: rules that splice wires bypass the typing guardrail of
    Port.connect, and yet every wire they make joins unifiable types. */
module SubjectReduction {
  import opened MellTypes
  import opened Wiring
  import opened Nets
  import opened Conservation
  import opened Polarity

  /** The port types that the agents' constructors give. */
  ghost predicate NodeTyped(x: Node) {
    && |x.aux| == Arity(x.kind)
    && (x.kind in {Constructor, Destructor} ==> x.principal == ImplicationOf(x.aux[0], x.aux[1]))
    && (x.kind == Switch ==> x.aux[0] == x.aux[1] == x.aux[2])
    && (x.kind == Eraser ==> x.principal == ANY)
  }

  ghost predicate NodesTyped(nodes: NodeMap) {
    forall n :: n in nodes ==> NodeTyped(nodes[n])
  }

  ghost predicate Matched(nodes: NodeMap, p: Port, q: Port) {
    Live(nodes, p) && Live(nodes, q) && Unifiable(TypeAt(nodes, p), TypeAt(nodes, q))
  }

  /** Every wire satisfies what Port.connect demands. */
  ghost predicate WellTyped(net: Net) {
    forall p :: p in net.wires ==> Matched(net.nodes, p, net.wires[p])
  }

  ghost predicate AuxComplete(x: Node) {
    forall i :: 0 <= i < |x.aux| ==> Complete(x.aux[i])
  }

  /** The firings whose splices go through complete types. */
  ghost predicate TypeSafe(net: Net, a: NodeId, b: NodeId)
    requires a in net.nodes && b in net.nodes
  {
    match RuleAt(net, a, b)
    case Annihilate =>
      && {net.nodes[a].kind, net.nodes[b].kind} == {Constructor, Destructor}
      && AuxComplete(net.nodes[a]) && AuxComplete(net.nodes[b])
    case Duplicate => false
    case Erase => true
    case Select => AuxComplete(net.nodes[Lead(net, a, b)])
    case Project => true
  }

  lemma MatchedSymmetric(nodes: NodeMap, p: Port, q: Port)
    requires Matched(nodes, p, q)
    ensures Matched(nodes, q, p)
  {
    UnifiableSymmetric(TypeAt(nodes, p), TypeAt(nodes, q));
  }

  /** Joining through two ports whose own types are complete and unify. */
  lemma SpliceMatched(nodes: NodeMap, x: Port, y: Port, s: Port, t: Port)
    requires Matched(nodes, s, x) && Matched(nodes, x, y) && Matched(nodes, y, t)
    requires Complete(TypeAt(nodes, x)) && Complete(TypeAt(nodes, y))
    ensures Matched(nodes, s, t)
  {
    UnifiableThrough(TypeAt(nodes, s), TypeAt(nodes, x), TypeAt(nodes, y));
    UnifiableThrough(TypeAt(nodes, s), TypeAt(nodes, y), TypeAt(nodes, t));
  }

  /** An edit that keeps wires matched. */
  ghost predicate KeepsTypes(nodes: NodeMap, op: Op) {
    && (forall p :: p in op.Ports() ==> Live(nodes, p))
    && match op
       case Splice(x, y) => Matched(nodes, x, y) && Complete(TypeAt(nodes, x)) && Complete(TypeAt(nodes, y))
       case Graft(x, h) => TypeAt(nodes, h) == ANY || TypeAt(nodes, h) == TypeAt(nodes, x)
       case Join(x, y) => Matched(nodes, x, y)
  }

  lemma KeepsTypesBridges(nodes: NodeMap, op: Op)
    requires KeepsTypes(nodes, op)
    ensures Bridges(op, (p, q) => Matched(nodes, p, q))
  {
    match op
    case Splice(x, y) =>
      forall s, t | Matched(nodes, s, x) && Matched(nodes, y, t) ensures Matched(nodes, s, t) {
        SpliceMatched(nodes, x, y, s, t);
      }
    case Graft(x, h) => assert x in op.Ports() && h in op.Ports();
    case Join(x, y) =>
  }

  /** Constructor meets destructor: the principals agree, so the components do. */
  lemma ComponentsAgree(x: Node, y: Node, i: nat)
    requires NodeTyped(x) && NodeTyped(y) && {x.kind, y.kind} == {Constructor, Destructor} && i < 2
    requires Unifiable(x.principal, y.principal)
    ensures Unifiable(x.aux[i], y.aux[i])
  {
  }

  lemma RuleKeepsTypes(all: NodeMap, rule: Rule, a: NodeId, x: Node, b: NodeId, y: Node, ids: seq<NodeId>, k: nat)
    requires Hosts(all, a, x, b, y, ids, Created(rule, x, y, b)) && NodeTyped(x) && NodeTyped(y)
    requires match rule
      case Annihilate =>
        && {x.kind, y.kind} == {Constructor, Destructor} && Unifiable(x.principal, y.principal)
        && AuxComplete(x) && AuxComplete(y)
      case Duplicate => false
      case Erase => true
      case Select => x.kind == Switch && AuxComplete(x)
      case Project => x.kind == Projection
    requires 1 <= k < |Edits(rule, a, x, b, y, ids)|
    ensures KeepsTypes(all, Edits(rule, a, x, b, y, ids)[k])
  {
    match rule
    case Annihilate => ComponentsAgree(x, y, k - 1);
    case Erase =>
    case Select => UnifiableReflexive(x.aux[0]);
    case Project =>
  }

  lemma EditKeepsTypes(net: Net, a: NodeId, b: NodeId, ids: seq<NodeId>, k: nat)
    requires WellWired(net) && WellTyped(net) && NodesTyped(net.nodes)
    requires Reducible(net, a, b) && Regular(net, a, b) && TypeSafe(net, a, b)
    requires |ids| == |CreatedAt(net, a, b)| && Fresh(net, ids)
    requires 1 <= k < |EditsAt(net, a, b, ids)|
    ensures KeepsTypes(Union(net, a, b, ids), EditsAt(net, a, b, ids)[k])
  {
    var (x, y) := (Lead(net, a, b), Other(net, a, b));
    UnionAgrees(net, a, b, ids);
    assert NodeTyped(net.nodes[x]) && NodeTyped(net.nodes[y]);
    assert Matched(net.nodes, P(a), P(b));
    RuleKeepsTypes(Union(net, a, b, ids), RuleAt(net, a, b), x, net.nodes[x], y, net.nodes[y], ids, k);
  }

  lemma FireMatched(net: Net, a: NodeId, b: NodeId, ids: seq<NodeId>)
    requires WellWired(net) && WellTyped(net) && NodesTyped(net.nodes)
    requires Reducible(net, a, b) && Regular(net, a, b) && TypeSafe(net, a, b)
    requires |ids| == |CreatedAt(net, a, b)| && Fresh(net, ids)
    ensures Related(Fire(net, a, b, ids).wires, (p, q) => Matched(Union(net, a, b, ids), p, q))
  {
    var ops, all := EditsAt(net, a, b, ids), Union(net, a, b, ids);
    var rel := (p, q) => Matched(all, p, q);
    FireFaithful(net, a, b, ids);
    RewriteLinear(net, RewriteAt(net, a, b, ids));
    UnionAgrees(net, a, b, ids);
    forall k | 1 <= k < |ops| ensures Bridges(ops[k], rel) {
      EditKeepsTypes(net, a, b, ids, k);
      KeepsTypesBridges(all, ops[k]);
    }
    forall s, t | rel(s, t) ensures rel(t, s) { MatchedSymmetric(all, s, t); }
    assert Related(net.wires, rel);
    EditsRelated(net.wires, ops, rel);
  }

  /** Beta reduction, erasure, switching and projection keep every wire typed. */
  lemma FireWellTyped(net: Net, a: NodeId, b: NodeId, ids: seq<NodeId>)
    requires WellWired(net) && WellTyped(net) && NodesTyped(net.nodes)
    requires Reducible(net, a, b) && Regular(net, a, b) && TypeSafe(net, a, b)
    requires |ids| == |CreatedAt(net, a, b)| && Fresh(net, ids)
    ensures WellTyped(Fire(net, a, b, ids)) && NodesTyped(Fire(net, a, b, ids).nodes)
  {
    var after := Fire(net, a, b, ids);
    FireMatched(net, a, b, ids);
    FireConserves(net, a, b, ids);
    UnionAgrees(net, a, b, ids);
    forall p | p in after.wires ensures Matched(after.nodes, p, after.wires[p]) {
      assert Matched(Union(net, a, b, ids), p, after.wires[p]);
      assert Live(after.nodes, p) && Live(after.nodes, after.wires[p]);
    }
    CreatedTyped(net, a, b, ids);
  }

  lemma RuleCreatesTyped(rule: Rule, x: Node, y: Node, yId: NodeId, i: nat)
    requires NodeTyped(y) && i < |Created(rule, x, y, yId)|
    ensures NodeTyped(Created(rule, x, y, yId)[i])
  {
  }

  lemma CreatedTyped(net: Net, a: NodeId, b: NodeId, ids: seq<NodeId>)
    requires NodesTyped(net.nodes) && a in net.nodes && b in net.nodes
    requires |ids| == |CreatedAt(net, a, b)| && Fresh(net, ids)
    ensures NodesTyped(Fire(net, a, b, ids).nodes)
  {
    var more, after := CreatedAt(net, a, b), Fire(net, a, b, ids).nodes;
    AddNodesAll(net.nodes - {a, b}, ids, more);
    forall n | n in after ensures NodeTyped(after[n]) {
      if n in ids {
        var i :| 0 <= i < |ids| && ids[i] == n;
        RuleCreatesTyped(RuleAt(net, a, b), net.nodes[Lead(net, a, b)], net.nodes[Other(net, a, b)], Other(net, a, b), i);
      }
    }
  }
}
