/** Polarity: in a polarised net every wire joins an output to an input, or
    touches an eraser or a boundary cap. Every rule except duplication of a node
    with auxiliary ports keeps a net polarised, so a polarised net never makes two
    switches or two projections meet. */
module Polarity {
  import opened Wiring
  import opened Nets
  import opened Conservation
  import opened Measure

  datatype Flow = Out | In | Either

  function FlowOf(k: Kind, index: nat): Flow {
    match k
    case Constructor => if index == 2 then In else Out
    case Destructor => if index == 2 then Out else In
    case Duplicator => if index == 0 then In else Out
    case Eraser => Either
    case Boundary => Either
    case Value => Out
    case Switch => if index == 3 then Out else In
    case Projection => if index == 0 then In else Out
  }

  predicate Opposed(s: Flow, t: Flow) {
    s == Either || t == Either || s != t
  }

  ghost predicate Agree(nodes: NodeMap, p: Port, q: Port) {
    && p.owner in nodes && q.owner in nodes
    && Opposed(FlowOf(nodes[p.owner].kind, p.index), FlowOf(nodes[q.owner].kind, q.index))
  }

  ghost predicate Polarised(net: Net) {
    forall p :: p in net.wires ==> Agree(net.nodes, p, net.wires[p])
  }

  /** Two flows that a splice may join through: exactly one output. */
  predicate Dual(nodes: NodeMap, p: Port, q: Port)
    requires p.owner in nodes && q.owner in nodes
  {
    {FlowOf(nodes[p.owner].kind, p.index), FlowOf(nodes[q.owner].kind, q.index)} == {Out, In}
  }

  /** An edit that keeps wires polarised. */
  ghost predicate Keeps(nodes: NodeMap, op: Op) {
    && (forall p :: p in op.Ports() ==> p.owner in nodes)
    && match op
       case Splice(x, y) => Dual(nodes, x, y)
       case Graft(x, h) =>
         var f := FlowOf(nodes[h.owner].kind, h.index);
         f == Either || f == FlowOf(nodes[x.owner].kind, x.index)
       case Join(x, y) => Agree(nodes, x, y)
  }

  lemma KeepsBridges(nodes: NodeMap, op: Op)
    requires Keeps(nodes, op)
    ensures Bridges(op, (p, q) => Agree(nodes, p, q))
  {
    match op
    case Splice(x, y) => assert x in op.Ports() && y in op.Ports();
    case Graft(x, h) => assert x in op.Ports() && h in op.Ports();
    case Join(x, y) => assert x in op.Ports() && y in op.Ports();
  }

  /** Dropping the wire between the two principal ports changes no other wire. */
  lemma DropPrincipals(w: Wires, x: Port, y: Port)
    requires Paired(w) && x in w && w[x] == y
    ensures forall p :: p in Apply(w, Splice(x, y)) ==> p in w && Apply(w, Splice(x, y))[p] == w[p]
  {
    forall p | p in Apply(w, Splice(x, y)) ensures p in w && Apply(w, Splice(x, y))[p] == w[p] {
      assert Look(Apply(w, Splice(x, y)), p) == LookAfter(w, Splice(x, y), p);
    }
  }

  /** Any relation on ports that the edits after the first bridge survives a firing. */
  lemma EditsRelated(w: Wires, ops: seq<Op>, rel: (Port, Port) -> bool)
    requires Paired(w) && Linear(w, ops) && |ops| > 0 && ops[0].Splice?
    requires ops[0].x in w && w[ops[0].x] == ops[0].y
    requires Related(w, rel) && forall s, t :: rel(s, t) ==> rel(t, s)
    requires forall k :: 1 <= k < |ops| ==> Bridges(ops[k], rel)
    ensures Related(ApplyAll(w, ops), rel)
  {
    DropPrincipals(w, ops[0].x, ops[0].y);
    LinearRest(w, ops);
    ApplyAllRelated(Apply(w, ops[0]), ops[1..], rel);
  }

  /** The nodes before a firing together with those it creates. */
  function Union(net: Net, a: NodeId, b: NodeId, ids: seq<NodeId>): NodeMap
    requires a in net.nodes && b in net.nodes && |ids| == |CreatedAt(net, a, b)|
  {
    AddNodes(net.nodes, ids, CreatedAt(net, a, b))
  }

  lemma UnionAgrees(net: Net, a: NodeId, b: NodeId, ids: seq<NodeId>)
    requires a in net.nodes && b in net.nodes && |ids| == |CreatedAt(net, a, b)| && Fresh(net, ids)
    ensures forall n :: n in net.nodes ==> n in Union(net, a, b, ids) && Union(net, a, b, ids)[n] == net.nodes[n]
    ensures forall n :: n in Fire(net, a, b, ids).nodes ==>
      n in Union(net, a, b, ids) && Union(net, a, b, ids)[n] == Fire(net, a, b, ids).nodes[n]
    ensures forall i :: 0 <= i < |ids| ==> ids[i] in Union(net, a, b, ids) && Union(net, a, b, ids)[ids[i]] == CreatedAt(net, a, b)[i]
  {
    AddNodesAll(net.nodes, ids, CreatedAt(net, a, b));
    AddNodesAll(net.nodes - {a, b}, ids, CreatedAt(net, a, b));
    var all, after := Union(net, a, b, ids), Fire(net, a, b, ids).nodes;
    forall n | n in after ensures n in all && all[n] == after[n] {
      if n in ids { var i :| 0 <= i < |ids| && ids[i] == n; }
    }
  }

  /** In a polarised net the reacting principals are opposed, so only these pairs
      of agents ever react. */
  lemma ReactingKinds(net: Net, a: NodeId, b: NodeId)
    requires WellWired(net) && Polarised(net) && Reducible(net, a, b)
    ensures
      var (x, y) := (net.nodes[Lead(net, a, b)].kind, net.nodes[Other(net, a, b)].kind);
      match RuleAt(net, a, b)
      case Annihilate => {x, y} == {Constructor, Destructor} || x == y == Boundary
      case Duplicate => x == Duplicator && y in {Value, Constructor, Boundary}
      case Erase => x == Eraser
      case Select => x == Switch && y == Value
      case Project => x == Projection && y == Value
  {
    assert Agree(net.nodes, P(a), P(b));
  }

  /** No firing of a polarised net makes a switch or a projection, as a copy or otherwise. */
  lemma NoNewSelectors(net: Net, a: NodeId, b: NodeId, i: nat)
    requires WellWired(net) && Polarised(net) && Reducible(net, a, b) && i < |CreatedAt(net, a, b)|
    ensures CreatedAt(net, a, b)[i].kind !in {Switch, Projection}
  {
    ReactingKinds(net, a, b);
  }

  /** Two switches or two projections never meet, and unless a constructor is
      being duplicated the pair is one that the rules rewrite faithfully. */
  lemma PolarisedIsRegular(net: Net, a: NodeId, b: NodeId)
    requires WellWired(net) && Polarised(net) && Reducible(net, a, b) && !Copying(net, a, b)
    ensures Regular(net, a, b)
  {
    ReactingKinds(net, a, b);
    if RuleAt(net, a, b) == Duplicate {
      forall p | p in net.wires && p.owner in {a, b} && p.index > 0 ensures net.wires[p].owner !in {a, b} {
        assert Live(net.nodes, p) && Live(net.nodes, net.wires[p]);
        assert Agree(net.nodes, p, net.wires[p]);
        assert net.wires[P(b)] == P(a);
      }
    }
  }

  /** all holds the reacting nodes and the created ones. */
  ghost predicate Hosts(all: NodeMap, a: NodeId, x: Node, b: NodeId, y: Node, ids: seq<NodeId>, created: seq<Node>) {
    && a in all && all[a] == x && b in all && all[b] == y
    && |ids| == |created| && forall i :: 0 <= i < |ids| ==> ids[i] in all && all[ids[i]] == created[i]
  }

  lemma RuleKeepsFlows(all: NodeMap, rule: Rule, a: NodeId, x: Node, b: NodeId, y: Node, ids: seq<NodeId>, k: nat)
    requires Hosts(all, a, x, b, y, ids, Created(rule, x, y, b))
    requires match rule
      case Annihilate => {x.kind, y.kind} == {Constructor, Destructor} || x.aux == y.aux == []
      case Duplicate => x.kind == Duplicator && y.kind in {Value, Boundary} && y.aux == [] && |x.aux| == 2
      case Erase => true
      case Select => x.kind == Switch
      case Project => x.kind == Projection
    requires |x.aux| == Arity(x.kind) && |y.aux| == Arity(y.kind)
    requires 1 <= k < |Edits(rule, a, x, b, y, ids)|
    ensures Keeps(all, Edits(rule, a, x, b, y, ids)[k])
  {
    match rule
    case Annihilate =>
    case Duplicate => DuplicateShape(a, x, b, y, ids, k);
    case Erase =>
    case Select =>
    case Project =>
  }

  lemma FireKeepsFlows(net: Net, a: NodeId, b: NodeId, ids: seq<NodeId>, k: nat)
    requires WellWired(net) && Polarised(net) && Reducible(net, a, b) && !Copying(net, a, b)
    requires |ids| == |CreatedAt(net, a, b)| && Fresh(net, ids)
    requires 1 <= k < |EditsAt(net, a, b, ids)|
    ensures Keeps(Union(net, a, b, ids), EditsAt(net, a, b, ids)[k])
  {
    ReactingKinds(net, a, b);
    UnionAgrees(net, a, b, ids);
    var (x, y) := (Lead(net, a, b), Other(net, a, b));
    RuleKeepsFlows(Union(net, a, b, ids), RuleAt(net, a, b), x, net.nodes[x], y, net.nodes[y], ids, k);
  }

  /** Every rule except duplication of a node with auxiliary ports keeps a net polarised. */
  lemma FirePolarised(net: Net, a: NodeId, b: NodeId, ids: seq<NodeId>)
    requires WellWired(net) && Polarised(net) && Reducible(net, a, b) && !Copying(net, a, b)
    requires |ids| == |CreatedAt(net, a, b)| && Fresh(net, ids)
    ensures Polarised(Fire(net, a, b, ids))
  {
    var ops, all, after := EditsAt(net, a, b, ids), Union(net, a, b, ids), Fire(net, a, b, ids);
    var rel := (p, q) => Agree(all, p, q);
    PolarisedIsRegular(net, a, b);
    FireFaithful(net, a, b, ids);
    RewriteLinear(net, RewriteAt(net, a, b, ids));
    UnionAgrees(net, a, b, ids);
    forall k | 1 <= k < |ops| ensures Bridges(ops[k], rel) {
      FireKeepsFlows(net, a, b, ids, k);
      KeepsBridges(all, ops[k]);
    }
    assert Related(net.wires, rel);
    EditsRelated(net.wires, ops, rel);
    FireConserves(net, a, b, ids);
    forall p | p in after.wires ensures Agree(after.nodes, p, after.wires[p]) {
      assert rel(p, after.wires[p]) && Live(after.nodes, p) && Live(after.nodes, after.wires[p]);
    }
  }

  /** A wire that one edit joins is still there after all of them. */
  lemma {:induction false} JoinStays(w: Wires, ops: seq<Op>, k: nat)
    requires Paired(w) && Linear(w, ops) && k < |ops| && ops[k].Join?
    ensures ops[k].x in ApplyAll(w, ops) && ApplyAll(w, ops)[ops[k].x] == ops[k].y
    decreases ops
  {
    LinearRest(w, ops);
    if k > 0 {
      JoinStays(Apply(w, ops[0]), ops[1..], k - 1);
    } else {
      assert Ready(w, ops[0]);
      assert Look(Apply(w, ops[0]), ops[0].x) == LookAfter(w, ops[0], ops[0].x);
      LookUntouched(Apply(w, ops[0]), ops[1..], ops[0].x);
    }
  }

  /** The auxiliary index that is an output, which every agent with auxiliary ports other than a duplicator has once. */
  function OutputAux(k: Kind): nat {
    match k
    case Destructor => 1
    case Switch => 2
    case _ => 0
  }

  lemma CopyOfOutput(net: Net, a: NodeId, b: NodeId, ids: seq<NodeId>)
    requires WellFormed(net.nodes) && Reducible(net, a, b) && Copying(net, a, b) && |ids| == |CreatedAt(net, a, b)|
    ensures var j, n := OutputAux(net.nodes[Other(net, a, b)].kind), |net.nodes[Other(net, a, b)].aux|;
            && j < n && |ids| == 2 + n && |EditsAt(net, a, b, ids)| == 3 + 3 * n
            && EditsAt(net, a, b, ids)[3 + n + j] == Join(A(ids[0], j), A(ids[2 + j], 0))
            && CreatedAt(net, a, b)[0].kind == net.nodes[Other(net, a, b)].kind && CreatedAt(net, a, b)[2 + j].kind == Duplicator
            && FlowOf(CreatedAt(net, a, b)[0].kind, j + 1) == Out
  {
    var (x, y) := (Lead(net, a, b), Other(net, a, b));
    DuplicateShape(x, net.nodes[x], y, net.nodes[y], ids, 3 + |net.nodes[y].aux| + OutputAux(net.nodes[y].kind));
  }

  /** Duplicating a node with auxiliary ports joins two outputs: the copy's and a new duplicator's. */
  lemma CopyingUnpolarises(net: Net, a: NodeId, b: NodeId, ids: seq<NodeId>)
    requires WellWired(net) && Reducible(net, a, b) && Regular(net, a, b) && Copying(net, a, b)
    requires |ids| == |CreatedAt(net, a, b)| && Fresh(net, ids)
    ensures !Polarised(Fire(net, a, b, ids))
  {
    hide Edits, ApplyAll, Faithful, Linear, Regular;
    var y := Other(net, a, b);
    var j, n := OutputAux(net.nodes[y].kind), |net.nodes[y].aux|;
    FireFaithful(net, a, b, ids);
    RewriteLinear(net, RewriteAt(net, a, b, ids));
    CopyOfOutput(net, a, b, ids);
    JoinStays(net.wires, EditsAt(net, a, b, ids), 3 + n + j);
    AddNodesAll(net.nodes - {a, b}, ids, CreatedAt(net, a, b));
    var after := Fire(net, a, b, ids);
    assert after.wires[A(ids[0], j)] == A(ids[2 + j], 0);
    assert !Agree(after.nodes, A(ids[0], j), A(ids[2 + j], 0));
  }

  /** A regular firing keeps a net polarised exactly when it is not a duplication of a node with auxiliary ports. */
  lemma PolarityExactly(net: Net, a: NodeId, b: NodeId, ids: seq<NodeId>)
    requires WellWired(net) && Polarised(net) && Reducible(net, a, b) && Regular(net, a, b)
    requires |ids| == |CreatedAt(net, a, b)| && Fresh(net, ids)
    ensures Polarised(Fire(net, a, b, ids)) <==> !Copying(net, a, b)
  {
    hide Polarised, Copying, Regular, WellWired, Fire;
    if Copying(net, a, b) { CopyingUnpolarises(net, a, b, ids); } else { FirePolarised(net, a, b, ids); }
  }
}
