/** Interaction nets and the five local rewrite rules (core/hin_vm.py, the node
    classes and class HINNetwork), as values: what one firing does to a net. */
module Nets {
  import opened Collections
  import opened MellTypes
  import opened Wiring

  /** A held constant with its Python truth value, or a node passed where a
      constant was expected (truthy like any object). */
  datatype Payload = Const(code: int, truthy: bool) | NodeObject(id: NodeId)

  predicate Truthy(v: Payload) {
    v.NodeObject? || v.truthy
  }

  const NOTHING := Const(0, false)

  datatype Node = Node(kind: Kind, payload: Payload, principal: MellType, aux: seq<MellType>)

  function Arity(k: Kind): nat {
    match k
    case Constructor => 2
    case Destructor => 2
    case Duplicator => 2
    case Switch => 3
    case Projection => 1
    case _ => 0
  }

  function ConstructorNode(arg: MellType, ret: MellType): Node {
    Node(Constructor, NOTHING, ImplicationOf(arg, ret), [arg, ret])
  }

  function DestructorNode(arg: MellType, ret: MellType): Node {
    Node(Destructor, NOTHING, ImplicationOf(arg, ret), [arg, ret])
  }

  function DuplicatorNode(shared: MellType): Node {
    Node(Duplicator, NOTHING, ANY, [BangOf(shared), BangOf(shared)])
  }

  function EraserNode(): Node { Node(Eraser, NOTHING, ANY, []) }

  function ValueNode(v: Payload, t: MellType): Node { Node(Value, v, t, []) }

  function SwitchNode(branch: MellType): Node {
    Node(Switch, NOTHING, UNIT, [branch, branch, branch])
  }

  function ProjectionNode(t: MellType): Node { Node(Projection, NOTHING, UNIT, [t]) }

  function BoundaryNode(): Node { Node(Boundary, NOTHING, ANY, []) }

  // ----- nets -----

  type NodeMap = map<NodeId, Node>

  datatype Net = Net(nodes: NodeMap, wires: Wires)

  predicate Live(nodes: NodeMap, p: Port) {
    p.owner in nodes && p.index <= |nodes[p.owner].aux|
  }

  function TypeAt(nodes: NodeMap, p: Port): MellType
    requires Live(nodes, p)
  {
    if p.index == 0 then nodes[p.owner].principal else nodes[p.owner].aux[p.index - 1]
  }

  ghost predicate WellFormed(nodes: NodeMap) {
    forall n :: n in nodes ==> |nodes[n].aux| == Arity(nodes[n].kind)
  }

  /** Conservation of edges for a net that may have free ports: every bound port
      belongs to a live node and is bound symmetrically to another such port. */
  ghost predicate WellWired(net: Net) {
    && WellFormed(net.nodes)
    && Paired(net.wires)
    && (forall p :: p in net.wires ==> Live(net.nodes, p))
  }

  /** Every port of a live node is bound. */
  ghost predicate Closed(net: Net) {
    WellWired(net) && forall p :: Live(net.nodes, p) ==> p in net.wires
  }

  // ----- which pairs react, and how -----

  predicate HasRule(a: Kind, b: Kind) {
    || a == Eraser || b == Eraser
    || a == Duplicator || b == Duplicator
    || {a, b} == {Switch, Value}
    || {a, b} == {Projection, Value}
    || {a, b} == {Constructor, Destructor}
    || a == b
  }

  datatype Rule = Annihilate | Duplicate | Erase | Select | Project

  /** The rule that reduce_step dispatches to. */
  function RuleFor(a: Kind, b: Kind): Rule {
    if a == Eraser || b == Eraser then Erase
    else if (a == Duplicator) != (b == Duplicator) then Duplicate
    else if a == Switch || b == Switch then Select
    else if a == Projection || b == Projection then Project
    else Annihilate
  }

  /** Whether the second node of the pair plays the rule's leading role. */
  predicate Swapped(a: Kind, b: Kind) {
    match RuleFor(a, b)
    case Annihilate => false
    case Duplicate => a != Duplicator
    case Erase => a != Eraser
    case Select => a != Switch
    case Project => a != Projection
  }

  /** The nodes a rule creates, in the order in which it asks for fresh ids. */
  function Created(rule: Rule, x: Node, y: Node, yId: NodeId): seq<Node> {
    match rule
    case Annihilate => []
    case Duplicate => seq(|x.aux|, _ => y) + seq(|y.aux|, _ => FreshDuplicator(x))
    case Erase => seq(|y.aux|, _ => EraserNode())
    case Select => [EraserNode()]
    case Project => [ValueNode(Coordinate(y, yId), if x.aux == [] then UNIT else x.aux[0])]
  }

  function FreshDuplicator(template: Node): Node {
    DuplicatorNode(if template.principal.left.Some? then template.principal.left.value else UNIT)
  }

  function Coordinate(y: Node, yId: NodeId): Payload {
    if y.kind == Value then y.payload else NodeObject(yId)
  }

  /** Auxiliary index of the branch a switch keeps when it meets y. */
  function Kept(y: Node): nat {
    if y.kind != Value || Truthy(y.payload) then 0 else 1
  }

  /** The wire edits of a rule that fires x (at a) against y (at b). */
  function Edits(rule: Rule, a: NodeId, x: Node, b: NodeId, y: Node, ids: seq<NodeId>): seq<Op>
    requires |ids| == |Created(rule, x, y, b)|
  {
    [Splice(P(a), P(b))] +
    match rule
    case Annihilate =>
      seq(if |x.aux| < |y.aux| then |x.aux| else |y.aux|, i requires 0 <= i => Splice(A(a, i), A(b, i)))
    case Duplicate =>
      var m, n := |x.aux|, |y.aux|;
      seq(m, i requires 0 <= i < m => Graft(A(a, i), P(ids[i]))) +
      seq(n, j requires 0 <= j < n => Graft(A(b, j), P(ids[m + j]))) +
      (if m != 2 then [] else
       seq(n, j requires 0 <= j < n => Join(A(ids[0], j), A(ids[2 + j], 0))) +
       seq(n, j requires 0 <= j < n => Join(A(ids[1], j), A(ids[2 + j], 1))))
    case Erase =>
      seq(|y.aux|, i requires 0 <= i < |y.aux| => Graft(A(b, i), P(ids[i])))
    case Select =>
      [Splice(A(a, Kept(y)), A(a, 2)), Graft(A(a, 1 - Kept(y)), P(ids[0]))]
    case Project =>
      [Graft(A(a, 0), P(ids[0]))]
  }

  /** Register new nodes one after the other. */
  function AddNodes(nodes: NodeMap, ids: seq<NodeId>, more: seq<Node>): NodeMap
    requires |ids| == |more|
    decreases |ids|
  {
    if ids == [] then nodes
    else AddNodes(nodes[ids[0] := more[0]], ids[1..], more[1..])
  }

  lemma {:induction false} AddNodesKeys(nodes: NodeMap, ids: seq<NodeId>, more: seq<Node>)
    requires |ids| == |more|
    ensures forall n :: n in AddNodes(nodes, ids, more) <==> n in nodes || n in ids
    decreases |ids|
  {
    if ids != [] {
      AddNodesKeys(nodes[ids[0] := more[0]], ids[1..], more[1..]);
    }
  }

  lemma {:induction false} AddNodesOld(nodes: NodeMap, ids: seq<NodeId>, more: seq<Node>, n: NodeId)
    requires |ids| == |more| && n in nodes && n !in ids
    ensures n in AddNodes(nodes, ids, more) && AddNodes(nodes, ids, more)[n] == nodes[n]
    decreases |ids|
  {
    if ids != [] {
      AddNodesOld(nodes[ids[0] := more[0]], ids[1..], more[1..], n);
    }
  }

  lemma {:induction false} AddNodesNew(nodes: NodeMap, ids: seq<NodeId>, more: seq<Node>, i: nat)
    requires |ids| == |more| && Distinct(ids) && i < |ids|
    ensures ids[i] in AddNodes(nodes, ids, more) && AddNodes(nodes, ids, more)[ids[i]] == more[i]
    decreases |ids|
  {
    if i == 0 {
      AddNodesOld(nodes[ids[0] := more[0]], ids[1..], more[1..], ids[0]);
    } else {
      AddNodesNew(nodes[ids[0] := more[0]], ids[1..], more[1..], i - 1);
    }
  }

  lemma AddNodesAll(nodes: NodeMap, ids: seq<NodeId>, more: seq<Node>)
    requires |ids| == |more| && Distinct(ids)
    ensures forall n :: n in AddNodes(nodes, ids, more) <==> n in nodes || n in ids
    ensures forall n :: n in nodes && n !in ids ==> AddNodes(nodes, ids, more)[n] == nodes[n]
    ensures forall i :: 0 <= i < |ids| ==> AddNodes(nodes, ids, more)[ids[i]] == more[i]
  {
    AddNodesKeys(nodes, ids, more);
    forall n | n in nodes && n !in ids ensures AddNodes(nodes, ids, more)[n] == nodes[n] { AddNodesOld(nodes, ids, more, n); }
    forall i | 0 <= i < |ids| ensures AddNodes(nodes, ids, more)[ids[i]] == more[i] { AddNodesNew(nodes, ids, more, i); }
  }

  /** a and b are live, face each other through their principal ports and react. */
  ghost predicate Reducible(net: Net, a: NodeId, b: NodeId) {
    && a in net.nodes && b in net.nodes && a != b
    && P(a) in net.wires && net.wires[P(a)] == P(b)
    && HasRule(net.nodes[a].kind, net.nodes[b].kind)
  }

  function Lead(net: Net, a: NodeId, b: NodeId): NodeId
    requires a in net.nodes && b in net.nodes
  {
    if Swapped(net.nodes[a].kind, net.nodes[b].kind) then b else a
  }

  function Other(net: Net, a: NodeId, b: NodeId): NodeId
    requires a in net.nodes && b in net.nodes
  {
    if Swapped(net.nodes[a].kind, net.nodes[b].kind) then a else b
  }

  function RuleAt(net: Net, a: NodeId, b: NodeId): Rule
    requires a in net.nodes && b in net.nodes
  {
    RuleFor(net.nodes[a].kind, net.nodes[b].kind)
  }

  function CreatedAt(net: Net, a: NodeId, b: NodeId): seq<Node>
    requires a in net.nodes && b in net.nodes
  {
    var (x, y) := (Lead(net, a, b), Other(net, a, b));
    Created(RuleAt(net, a, b), net.nodes[x], net.nodes[y], y)
  }

  function EditsAt(net: Net, a: NodeId, b: NodeId, ids: seq<NodeId>): seq<Op>
    requires a in net.nodes && b in net.nodes && |ids| == |CreatedAt(net, a, b)|
  {
    var (x, y) := (Lead(net, a, b), Other(net, a, b));
    Edits(RuleAt(net, a, b), x, net.nodes[x], y, net.nodes[y], ids)
  }

  /** The net after the pair (a, b) has fired, its new nodes named by ids. */
  function Fire(net: Net, a: NodeId, b: NodeId, ids: seq<NodeId>): Net
    requires a in net.nodes && b in net.nodes && |ids| == |CreatedAt(net, a, b)|
  {
    Net(AddNodes(net.nodes - {a, b}, ids, CreatedAt(net, a, b)), ApplyAll(net.wires, EditsAt(net, a, b, ids)))
  }

  /** The pairs that the rules rewrite faithfully whatever they are wired to: two
      switches or two projections drop the second node's wires, and duplication captures
      the far ends of both nodes before it relinks, so it must find none of them inside
      the pair. `Irregular.FiringExactly` says when the other pairs do no harm. */
  ghost predicate Regular(net: Net, a: NodeId, b: NodeId)
    requires a in net.nodes && b in net.nodes
  {
    var (x, y) := (net.nodes[a].kind, net.nodes[b].kind);
    && !(x == y == Switch) && !(x == y == Projection)
    && (RuleFor(x, y) == Duplicate ==> NoInnerWire(net.wires, a, b))
  }

  ghost predicate NoInnerWire(w: Wires, a: NodeId, b: NodeId) {
    forall p :: p in w && p.owner in {a, b} && p.index > 0 ==> w[p].owner !in {a, b}
  }

  /** ids may name the nodes created in net. */
  ghost predicate Fresh(net: Net, ids: seq<NodeId>) {
    Distinct(ids) && forall i :: 0 <= i < |ids| ==> ids[i] !in net.nodes
  }
}
