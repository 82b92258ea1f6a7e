/** The compiled-graph container (core/aeroc.py): writing a net and reading it back gives
    the same nodes, port order, types and wires. */
module Aeroc {
  import opened MellTypes
  import opened Wiring
  import opened Nets
  import opened Names
  import opened Worklist

  // ----- types -----

  datatype TypeData = TypeData(kind: string, left: Option<TypeData>, right: Option<TypeData>, wildcard: bool)

  function KindName(k: TypeKind): string {
    match k
    case I => "I"
    case Tensor => "Tensor"
    case Implication => "Implication"
    case Bang => "Bang"
  }

  /** TypeKind(value), which raises on an unknown value. */
  function KindNamed(s: string): Option<TypeKind> {
    if s == "I" then Some(I)
    else if s == "Tensor" then Some(Tensor)
    else if s == "Implication" then Some(Implication)
    else if s == "Bang" then Some(Bang)
    else None
  }

  function SerializeType(t: MellType): TypeData {
    TypeData(KindName(t.kind), SerializePart(t.left), SerializePart(t.right), t.wildcard)
  }

  function SerializePart(t: Option<MellType>): Option<TypeData> {
    if t.None? then None else Some(SerializeType(t.value))
  }

  function DeserializeType(d: TypeData): Option<MellType> {
    var left, right := DeserializePart(d.left), DeserializePart(d.right);
    if KindNamed(d.kind).None? || left.None? || right.None? then None
    else Some(MellType(KindNamed(d.kind).value, left.value, right.value, d.wildcard))
  }

  /** A missing component is fine; a component that cannot be read is not. */
  function DeserializePart(d: Option<TypeData>): Option<Option<MellType>> {
    if d.None? then Some(None)
    else
      var t := DeserializeType(d.value);
      if t.None? then None else Some(t)
  }

  lemma {:induction false} TypeRoundTrip(t: MellType)
    ensures DeserializeType(SerializeType(t)) == Some(t)
  {
    if t.left.Some? { TypeRoundTrip(t.left.value); }
    if t.right.Some? { TypeRoundTrip(t.right.value); }
  }

  // ----- nodes -----

  function ClassName(k: Kind): string {
    match k
    case Constructor => "ConstructorNode"
    case Destructor => "DestructorNode"
    case Duplicator => "DuplicatorNode"
    case Eraser => "EraserNode"
    case Value => "ValueNode"
    case Switch => "SwitchNode"
    case Projection => "CausalProjectionNode"
    case Boundary => "BoundaryPortNode"
  }

  /** The node registry. */
  function ClassNamed(s: string): Option<Kind> {
    if s == "ConstructorNode" then Some(Constructor)
    else if s == "DestructorNode" then Some(Destructor)
    else if s == "DuplicatorNode" then Some(Duplicator)
    else if s == "EraserNode" then Some(Eraser)
    else if s == "ValueNode" then Some(Value)
    else if s == "SwitchNode" then Some(Switch)
    else if s == "CausalProjectionNode" then Some(Projection)
    else if s == "BoundaryPortNode" then Some(Boundary)
    else None
  }

  datatype PortData = PortData(name: string, type_: TypeData, target: Option<(NodeId, string)>)

  datatype NodeData = NodeData(cls: string, id: NodeId, ports: seq<PortData>, value: Option<Payload>)

  datatype Container = Container(version: string, count: nat, activePairs: seq<(NodeId, NodeId)>, nodes: seq<NodeData>)

  const VERSION := "aeroc_v1"

  function Endpoint(q: Option<Port>): Option<(NodeId, string)> {
    if q.None? then None else Some((q.value.owner, PortName(q.value.index)))
  }

  function PortsOut(net: Net, n: NodeId): (ports: seq<PortData>)
    requires n in net.nodes
    ensures |ports| == |net.nodes[n].aux| + 1
  {
    seq(|net.nodes[n].aux| + 1, k requires 0 <= k <= |net.nodes[n].aux| =>
      PortData(PortName(k), SerializeType(TypeAt(net.nodes, Port(n, k))), Endpoint(Look(net.wires, Port(n, k)))))
  }

  function NodeOut(net: Net, n: NodeId): NodeData
    requires n in net.nodes
  {
    NodeData(ClassName(net.nodes[n].kind), n, PortsOut(net, n),
             if net.nodes[n].kind == Value then Some(net.nodes[n].payload) else None)
  }

  /** serialize_network: one record per node, in registration order. */
  function SerializeNetwork(net: Net, order: seq<NodeId>, activePairs: seq<(NodeId, NodeId)>): Container
    requires forall n :: n in order ==> n in net.nodes
  {
    Container(VERSION, |order|, activePairs, seq(|order|, i requires 0 <= i < |order| => assert order[i] in order; NodeOut(net, order[i])))
  }

  // ----- what is written -----

  const CLASSES: set<(Kind, string)> := {
    (Constructor, "ConstructorNode"), (Destructor, "DestructorNode"), (Duplicator, "DuplicatorNode"), (Eraser, "EraserNode"),
    (Value, "ValueNode"), (Switch, "SwitchNode"), (Projection, "CausalProjectionNode"), (Boundary, "BoundaryPortNode") }

  /** The names of the classes, written and read. */
  lemma ClassesNamed(k: Kind, s: string)
    ensures (k, s) in CLASSES <==> s == ClassName(k)
    ensures (k, s) in CLASSES <==> ClassNamed(s) == Some(k)
  {
    match k
    case Constructor =>
    case Destructor =>
    case Duplicator =>
    case Eraser =>
    case Value =>
    case Switch =>
    case Projection =>
    case Boundary =>
  }

  const KINDS: set<(TypeKind, string)> := { (I, "I"), (Tensor, "Tensor"), (Implication, "Implication"), (Bang, "Bang") }

  /** The names of the connectives, written and read. */
  lemma KindsNamed(k: TypeKind, s: string)
    ensures (k, s) in KINDS <==> s == KindName(k)
    ensures (k, s) in KINDS <==> KindNamed(s) == Some(k)
  {
  }

  /** A written type names its connective and holds its written parts; nothing stands for a part that is missing. */
  ghost predicate TypeWritten(t: MellType, d: TypeData)
    decreases t
  {
    && (t.kind, d.kind) in KINDS && d.wildcard == t.wildcard
    && d.left.Some? == t.left.Some? && d.right.Some? == t.right.Some?
    && (t.left.Some? ==> TypeWritten(t.left.value, d.left.value))
    && (t.right.Some? ==> TypeWritten(t.right.value, d.right.value))
  }

  lemma {:induction false} TypesWritten(t: MellType, d: TypeData)
    ensures TypeWritten(t, d) <==> d == SerializeType(t)
    decreases t
  {
    KindsNamed(t.kind, d.kind);
    if t.left.Some? && d.left.Some? { TypesWritten(t.left.value, d.left.value); }
    if t.right.Some? && d.right.Some? { TypesWritten(t.right.value, d.right.value); }
  }

  /** One port record: the principal port is called p and the others a_1, a_2 and so on; the far end is named likewise. */
  ghost predicate PortWritten(net: Net, p: Port, d: PortData)
    requires Live(net.nodes, p)
  {
    && d.name == (if p.index == 0 then "p" else "a_" + Decimal(p.index)) && TypeWritten(TypeAt(net.nodes, p), d.type_)
    && (d.target.Some? <==> p in net.wires)
    && (p in net.wires ==>
          var q := net.wires[p];
          d.target == Some((q.owner, if q.index == 0 then "p" else "a_" + Decimal(q.index))))
  }

  /** One node record: the principal port first and the others in their order; only a value node has a value. */
  ghost predicate NodeWritten(net: Net, n: NodeId, d: NodeData)
    requires n in net.nodes
  {
    var x := net.nodes[n];
    && (x.kind, d.cls) in CLASSES && d.id == n && |d.ports| == 1 + |x.aux|
    && (forall k :: 0 <= k < |d.ports| ==> PortWritten(net, Port(n, k), d.ports[k]))
    && (if x.kind.Value? then d.value == Some(x.payload) else d.value == None)
  }

  /** The version, the number of nodes, the active pairs as they are listed, and one record for each node in its turn. */
  lemma Written(net: Net, order: seq<NodeId>, activePairs: seq<(NodeId, NodeId)>)
    requires forall n :: n in order ==> n in net.nodes
    ensures var c := SerializeNetwork(net, order, activePairs);
      && c.version == "aeroc_v1" && c.count == |c.nodes| == |order| && c.activePairs == activePairs
      && forall i :: 0 <= i < |order| ==> order[i] in order && NodeWritten(net, order[i], c.nodes[i])
  {
    hide NodeWritten;
    forall i | 0 <= i < |order| ensures NodeWritten(net, order[i], NodeOut(net, order[i])) {
      assert order[i] in order;
      NodesWritten(net, order[i]);
    }
  }

  lemma NodesWritten(net: Net, n: NodeId)
    requires n in net.nodes
    ensures NodeWritten(net, n, NodeOut(net, n))
  {
    ClassesNamed(net.nodes[n].kind, ClassName(net.nodes[n].kind));
    hide Decimal, TypeWritten, SerializeType, ClassName;
    forall k | 0 <= k <= |net.nodes[n].aux| ensures PortWritten(net, Port(n, k), PortsOut(net, n)[k]) {
      TypesWritten(TypeAt(net.nodes, Port(n, k)), SerializeType(TypeAt(net.nodes, Port(n, k))));
    }
  }

  // ----- reading a container -----

  function AuxOf(ports: seq<PortData>): (aux: seq<PortData>)
    ensures forall p :: p in aux ==> p in ports && p.name != PRINCIPAL
  {
    if ports == [] then []
    else
      var rest, last := AuxOf(ports[..|ports| - 1]), ports[|ports| - 1];
      if last.name == PRINCIPAL then rest else rest + [last]
  }

  function PrincipalOf(ports: seq<PortData>): (p: Option<PortData>)
    ensures p.Some? ==> p.value in ports && p.value.name == PRINCIPAL
  {
    if ports == [] then None
    else if ports[|ports| - 1].name == PRINCIPAL then Some(ports[|ports| - 1])
    else PrincipalOf(ports[..|ports| - 1])
  }

  /** The index that a record gives to the port of that name; a repeated name means its last port. */
  function IndexIn(ports: seq<PortData>, name: string): Option<nat> {
    if ports == [] then None
    else
      var init := ports[..|ports| - 1];
      if ports[|ports| - 1].name != name then IndexIn(init, name)
      else if name == PRINCIPAL then Some(0)
      else Some(|AuxOf(init)| + 1)
  }

  predicate Readable(d: PortData) {
    DeserializeType(d.type_).Some?
  }

  predicate ReadableNode(d: NodeData) {
    && ClassNamed(d.cls).Some? && PrincipalOf(d.ports).Some?
    && forall p :: p in d.ports ==> Readable(p)
  }

  ghost predicate ReadableContainer(ds: seq<NodeData>) {
    && (forall i :: 0 <= i < |ds| ==> ReadableNode(ds[i]))
    && (forall i, j :: 0 <= i < j < |ds| ==> ds[i].id != ds[j].id)
  }

  function AuxTypes(ports: seq<PortData>): seq<MellType>
    requires forall p :: p in ports ==> Readable(p)
  {
    seq(|ports|, k requires 0 <= k < |ports| => assert ports[k] in ports; assert Readable(ports[k]); DeserializeType(ports[k].type_).value)
  }

  function NodeIn(d: NodeData): Node
    requires ReadableNode(d)
  {
    var kind := ClassNamed(d.cls).value;
    Node(kind, if kind == Value && d.value.Some? then d.value.value else NOTHING,
         DeserializeType(PrincipalOf(d.ports).value.type_).value, AuxTypes(AuxOf(d.ports)))
  }

  /** The record with that id. */
  function RecordOf(ds: seq<NodeData>, id: NodeId): Option<NodeData> {
    if ds == [] then None
    else if ds[|ds| - 1].id == id then Some(ds[|ds| - 1])
    else RecordOf(ds[..|ds| - 1], id)
  }

  /** The port index: owner and name to port. */
  function PortOf(ds: seq<NodeData>, owner: NodeId, name: string): Option<Port> {
    var d := RecordOf(ds, owner);
    if d.None? then None
    else
      var k := IndexIn(d.value.ports, name);
      if k.None? then None else Some(Port(owner, k.value))
  }

  function NodesIn(ds: seq<NodeData>): NodeMap
    requires forall i :: 0 <= i < |ds| ==> ReadableNode(ds[i])
  {
    if ds == [] then map[] else NodesIn(ds[..|ds| - 1])[ds[|ds| - 1].id := NodeIn(ds[|ds| - 1])]
  }

  /** Wires of the listed ports, found by name in the whole container. */
  function PortWires(all: seq<NodeData>, owner: NodeId, ports: seq<PortData>): Wires {
    if ports == [] then map[]
    else
      var w, p := PortWires(all, owner, ports[..|ports| - 1]), ports[|ports| - 1];
      var src := PortOf(all, owner, p.name);
      var tgt := if p.target.None? then None else PortOf(all, p.target.value.0, p.target.value.1);
      if src.Some? && tgt.Some? then w[src.value := tgt.value] else w
  }

  function NodeWires(all: seq<NodeData>, ds: seq<NodeData>): Wires {
    if ds == [] then map[] else NodeWires(all, ds[..|ds| - 1]) + PortWires(all, ds[|ds| - 1].id, ds[|ds| - 1].ports)
  }

  // ----- the two passes -----

  type NameIndex = map<string, Port>

  ghost predicate IndexesNode(index: NameIndex, id: NodeId, ports: seq<PortData>) {
    forall name :: (name in index <==> IndexIn(ports, name).Some?)
                   && (name in index ==> index[name] == Port(id, IndexIn(ports, name).value))
  }

  function PrincipalType(ports: seq<PortData>): Option<MellType> {
    if PrincipalOf(ports).None? then None else DeserializeType(PrincipalOf(ports).value.type_)
  }

  /** What the first j ports of a record amount to. */
  ghost predicate ReadSoFar(d: NodeData, j: nat, principal: Option<MellType>, aux: seq<MellType>, index: NameIndex)
    requires j <= |d.ports|
  {
    && (forall p :: p in AuxOf(d.ports[..j]) ==> Readable(p))
    && principal == PrincipalType(d.ports[..j]) && aux == AuxTypes(AuxOf(d.ports[..j]))
    && IndexesNode(index, d.id, d.ports[..j])
  }

  lemma ReadMore(d: NodeData, j: nat, principal: Option<MellType>, aux: seq<MellType>, index: NameIndex)
    requires j < |d.ports| && Readable(d.ports[j]) && ReadSoFar(d, j, principal, aux, index)
    ensures var (p, t) := (d.ports[j], DeserializeType(d.ports[j].type_));
            && (p.name == PRINCIPAL ==> ReadSoFar(d, j + 1, t, aux, index[p.name := Port(d.id, 0)]))
            && (p.name != PRINCIPAL ==> ReadSoFar(d, j + 1, principal, aux + [t.value], index[p.name := Port(d.id, |aux| + 1)]))
  {
    hide DeserializeType, AuxOf, AuxTypes, PrincipalType, IndexesNode;
    PortsMore(d.ports, j);
    IndexMore(d, index, j);
    AuxTypesMore(AuxOf(d.ports[..j]), d.ports[j]);
  }

  lemma ReadAll(d: NodeData, principal: Option<MellType>, aux: seq<MellType>, index: NameIndex)
    requires ReadableNode(d) && ReadSoFar(d, |d.ports|, principal, aux, index)
    ensures principal == PrincipalType(d.ports) && aux == AuxTypes(AuxOf(d.ports)) && IndexesNode(index, d.id, d.ports)
  {
    assert d.ports[..|d.ports|] == d.ports;
  }

  /** Materialises the ports of one record. */
  method ReadPorts(d: NodeData) returns (principal: Option<MellType>, aux: seq<MellType>, index: NameIndex)
    requires ReadableNode(d)
    ensures principal == PrincipalType(d.ports) && aux == AuxTypes(AuxOf(d.ports))
    ensures IndexesNode(index, d.id, d.ports)
  {
    PortsReadable(d);
    hide ReadableNode, DeserializeType, AuxOf, AuxTypes, PrincipalType, IndexesNode, ReadSoFar;
    principal, aux, index := None, [], map[];
    NoPorts(d);
    for j := 0 to |d.ports|
      invariant ReadSoFar(d, j, principal, aux, index)
    {
      var p := d.ports[j];
      assert p in d.ports && Readable(p);
      ReadMore(d, j, principal, aux, index);
      if p.name == PRINCIPAL {
        principal := DeserializeType(p.type_);
        index := index[p.name := Port(d.id, 0)];
      } else {
        aux := aux + [DeserializeType(p.type_).value];
        index := index[p.name := Port(d.id, |aux|)];
      }
    }
    ReadAll(d, principal, aux, index);
  }

  lemma NoPorts(d: NodeData)
    ensures ReadSoFar(d, 0, None, [], map[])
  {
  }

  lemma AuxTypesMore(ports: seq<PortData>, p: PortData)
    requires (forall q :: q in ports ==> Readable(q)) && Readable(p)
    ensures forall q :: q in ports + [p] ==> Readable(q)
    ensures AuxTypes(ports + [p]) == AuxTypes(ports) + [DeserializeType(p.type_).value] && |AuxTypes(ports)| == |ports|
  {
  }

  lemma PortsReadable(d: NodeData)
    requires ReadableNode(d)
    ensures forall p :: p in d.ports ==> Readable(p)
  {
  }

  lemma PortsMore(ports: seq<PortData>, j: nat)
    requires j < |ports|
    ensures PrincipalType(ports[..j + 1]) == if ports[j].name == PRINCIPAL then DeserializeType(ports[j].type_) else PrincipalType(ports[..j])
    ensures AuxOf(ports[..j + 1]) == if ports[j].name == PRINCIPAL then AuxOf(ports[..j]) else AuxOf(ports[..j]) + [ports[j]]
    ensures ports[..j + 1] == ports[..j] + [ports[j]]
  {
    assert ports[..j + 1][..j] == ports[..j];
  }

  lemma IndexMore(d: NodeData, index: NameIndex, j: nat)
    requires j < |d.ports| && IndexesNode(index, d.id, d.ports[..j])
    ensures var p := d.ports[j];
            IndexesNode(index[p.name := Port(d.id, if p.name == PRINCIPAL then 0 else |AuxOf(d.ports[..j])| + 1)], d.id, d.ports[..j + 1])
  {
    assert d.ports[..j + 1][..j] == d.ports[..j];
    forall name ensures IndexIn(d.ports[..j + 1], name) == if d.ports[j].name != name then IndexIn(d.ports[..j], name)
                        else if name == PRINCIPAL then Some(0) else Some(|AuxOf(d.ports[..j])| + 1) {}
  }

  ghost predicate IndexesAll(index: map<NodeId, NameIndex>, ds: seq<NodeData>) {
    forall id :: (id in index <==> RecordOf(ds, id).Some?)
                 && (id in index ==> IndexesNode(index[id], id, RecordOf(ds, id).value.ports))
  }

  lemma RecordMore(ds: seq<NodeData>, i: nat, id: NodeId)
    requires i < |ds|
    ensures RecordOf(ds[..i + 1], id) == if ds[i].id == id then Some(ds[i]) else RecordOf(ds[..i], id)
  {
    assert ds[..i + 1][..i] == ds[..i];
  }

  lemma NodesMore(ds: seq<NodeData>, i: nat)
    requires i < |ds| && forall k :: 0 <= k < |ds| ==> ReadableNode(ds[k])
    ensures NodesIn(ds[..i + 1]) == NodesIn(ds[..i])[ds[i].id := NodeIn(ds[i])]
  {
    assert ds[..i + 1][..i] == ds[..i];
  }

  lemma IndexesMore(index: map<NodeId, NameIndex>, ds: seq<NodeData>, i: nat, ports: NameIndex)
    requires i < |ds| && IndexesAll(index, ds[..i]) && IndexesNode(ports, ds[i].id, ds[i].ports)
    ensures IndexesAll(index[ds[i].id := ports], ds[..i + 1])
  {
    forall id ensures RecordOf(ds[..i + 1], id) == if ds[i].id == id then Some(ds[i]) else RecordOf(ds[..i], id) { RecordMore(ds, i, id); }
    hide RecordOf, IndexesNode;
  }

  /** First pass: every node with its ports, unwired. */
  method ReadNodes(ds: seq<NodeData>) returns (nodes: NodeMap, index: map<NodeId, NameIndex>)
    requires ReadableContainer(ds)
    ensures nodes == NodesIn(ds) && IndexesAll(index, ds)
  {
    hide ReadableNode, NodesIn, IndexesNode, RecordOf;
    nodes, index := map[], map[];
    NothingRead();
    for i := 0 to |ds|
      invariant nodes == NodesIn(ds[..i]) && IndexesAll(index, ds[..i])
    {
      var d := ds[i];
      var principal, aux, ports := ReadPorts(d);
      NodesMore(ds, i);
      IndexesMore(index, ds, i, ports);
      var node := BuildNode(d, principal, aux);
      nodes, index := nodes[d.id := node], index[d.id := ports];
    }
    assert ds[..|ds|] == ds;
  }

  lemma NothingRead()
    ensures NodesIn([]) == map[] && IndexesAll(map[], [])
  {
  }

  function BuildNode(d: NodeData, principal: Option<MellType>, aux: seq<MellType>): Node
    requires ReadableNode(d) && principal == PrincipalType(d.ports) && aux == AuxTypes(AuxOf(d.ports))
    ensures BuildNode(d, principal, aux) == NodeIn(d)
  {
    var kind := ClassNamed(d.cls).value;
    Node(kind, if kind == Value && d.value.Some? then d.value.value else NOTHING, principal.value, aux)
  }

  method ReadWires(ds: seq<NodeData>, index: map<NodeId, NameIndex>) returns (wires: Wires)
    requires ReadableContainer(ds) && IndexesAll(index, ds)
    ensures wires == NodeWires(ds, ds)
  {
    hide ReadableContainer;
    wires := map[];
    for i := 0 to |ds|
      invariant wires == NodeWires(ds, ds[..i])
    {
      assert ds[..i + 1][..i] == ds[..i];
      wires := ReadNodeWires(ds, index, ds[i], wires);
    }
    assert ds[..|ds|] == ds;
  }

  lemma Found(ds: seq<NodeData>, index: map<NodeId, NameIndex>, owner: NodeId, name: string)
    requires IndexesAll(index, ds)
    ensures PortOf(ds, owner, name) == if owner in index && name in index[owner] then Some(index[owner][name]) else None
  {
  }

  /** Second pass, one record: look both ends up by name. */
  method ReadNodeWires(ds: seq<NodeData>, index: map<NodeId, NameIndex>, d: NodeData, wires0: Wires) returns (wires: Wires)
    requires IndexesAll(index, ds)
    ensures wires == wires0 + PortWires(ds, d.id, d.ports)
  {
    hide IndexesAll, PortOf;
    wires := wires0;
    for j := 0 to |d.ports|
      invariant wires == wires0 + PortWires(ds, d.id, d.ports[..j])
    {
      var p := d.ports[j];
      assert d.ports[..j + 1][..j] == d.ports[..j];
      Found(ds, index, d.id, p.name);
      if p.target.Some? {
        var (owner, name) := p.target.value;
        Found(ds, index, owner, name);
        if d.id in index && p.name in index[d.id] && owner in index && name in index[owner] {
          wires := wires[index[d.id][p.name] := index[owner][name]];
        }
      }
    }
    assert d.ports[..|d.ports|] == d.ports;
  }

  /** deserialize_network: the nodes and wires the container describes, and a worklist rebuilt from the wires. */
  method DeserializeNetwork(data: Container) returns (net: Net, pairs: seq<(NodeId, NodeId)>)
    requires ReadableContainer(data.nodes)
    ensures net == Net(NodesIn(data.nodes), NodeWires(data.nodes, data.nodes))
    ensures Lists(net, pairs)
  {
    hide ReadableNode, NodesIn, NodeWires, Lists, IndexesAll, Ids;
    var nodes, index := ReadNodes(data.nodes);
    var wires := ReadWires(data.nodes, index);
    net := Net(nodes, wires);
    NodesInKeys(data.nodes);
    pairs := RescanActive(net, Ids(data.nodes));
  }

  function Ids(ds: seq<NodeData>): seq<NodeId> {
    if ds == [] then [] else Ids(ds[..|ds| - 1]) + [ds[|ds| - 1].id]
  }

  lemma {:induction false} NodesInKeys(ds: seq<NodeData>)
    requires forall i :: 0 <= i < |ds| ==> ReadableNode(ds[i])
    ensures forall n :: n in Ids(ds) <==> n in NodesIn(ds)
  {
    hide ReadableNode, NodeIn;
    if ds != [] { NodesInKeys(ds[..|ds| - 1]); }
  }

  // ----- the round trip -----

  /** Only value nodes hold a value. */
  ghost predicate Plain(net: Net) {
    forall n :: n in net.nodes && net.nodes[n].kind != Value ==> net.nodes[n].payload == NOTHING
  }

  /** Ports saved under their positional names. */
  ghost predicate Positional(ports: seq<PortData>) {
    forall k :: 0 <= k < |ports| ==> ports[k].name == PortName(k)
  }

  lemma PrincipalMore(ports: seq<PortData>, j: nat)
    requires j < |ports|
    ensures PrincipalOf(ports[..j + 1]) == if ports[j].name == PRINCIPAL then Some(ports[j]) else PrincipalOf(ports[..j])
  {
    assert ports[..j + 1][..j] == ports[..j];
  }

  lemma {:induction false} PositionalRead(ports: seq<PortData>, m: nat)
    requires Positional(ports) && 1 <= m <= |ports|
    ensures AuxOf(ports[..m]) == ports[1..m] && PrincipalOf(ports[..m]) == Some(ports[0])
  {
    hide *;
    var k: nat := m - 1;
    PortsMore(ports, k);
    PrincipalMore(ports, k);
    AuxName(k);
    NamedAt(ports, k);
    if k > 0 {
      PositionalRead(ports, k);
      assert ports[1..m] == ports[1..k] + [ports[k]];
    } else {
      NoAux(ports);
    }
  }

  lemma NoAux(ports: seq<PortData>)
    ensures AuxOf(ports[..0]) == []
  {
  }

  lemma NamedAt(ports: seq<PortData>, k: nat)
    requires Positional(ports) && k < |ports|
    ensures ports[k].name == PortName(k) && PortName(0) == PRINCIPAL
  {
  }

  lemma IndexInMore(ports: seq<PortData>, j: nat, name: string)
    requires j < |ports|
    ensures IndexIn(ports[..j + 1], name) == if ports[j].name != name then IndexIn(ports[..j], name)
                                             else if name == PRINCIPAL then Some(0) else Some(|AuxOf(ports[..j])| + 1)
    ensures IndexIn([], name) == None
  {
    assert ports[..j + 1][..j] == ports[..j];
  }

  lemma {:induction false} PositionalIndex(ports: seq<PortData>, m: nat, k: nat)
    requires Positional(ports) && m <= |ports|
    ensures IndexIn(ports[..m], PortName(k)) == if k < m then Some(k) else None
  {
    if m > 0 {
      var j: nat := m - 1;
      IndexInMore(ports, j, PortName(k));
      AuxName(k);
      PositionalIndex(ports, j, k);
      NamedAt(ports, j);
      if j > 0 { PositionalRead(ports, j); }
      if PortName(j) == PortName(k) { PortNamesApart(j, k); }
      hide *;
    }
  }

  lemma PortsOutAre(net: Net, n: NodeId)
    requires n in net.nodes
    ensures Positional(PortsOut(net, n))
    ensures forall k :: 0 <= k < |PortsOut(net, n)| ==> DeserializeType(PortsOut(net, n)[k].type_) == Some(TypeAt(net.nodes, Port(n, k)))
  {
    forall k | 0 <= k < |PortsOut(net, n)| ensures DeserializeType(PortsOut(net, n)[k].type_) == Some(TypeAt(net.nodes, Port(n, k))) {
      TypeRoundTrip(TypeAt(net.nodes, Port(n, k)));
    }
  }

  lemma ClassRoundTrip(k: Kind)
    ensures ClassNamed(ClassName(k)) == Some(k)
  {
  }

  lemma NodeReadable(net: Net, n: NodeId)
    requires n in net.nodes
    ensures ReadableNode(NodeOut(net, n)) && PrincipalOf(PortsOut(net, n)) == Some(PortsOut(net, n)[0])
    ensures AuxOf(PortsOut(net, n)) == PortsOut(net, n)[1..]
  {
    var ports := PortsOut(net, n);
    PortsOutAre(net, n);
    PositionalRead(ports, |ports|);
    assert ports[..|ports|] == ports && ports[1..|ports|] == ports[1..];
    ClassRoundTrip(net.nodes[n].kind);
    hide DeserializeType, AuxOf, PrincipalOf, PortsOut, ClassName, ClassNamed, Positional;
    forall p | p in ports ensures Readable(p) {
      var k :| 0 <= k < |ports| && ports[k] == p;
    }
  }

  lemma NodeRoundTrip(net: Net, n: NodeId)
    requires n in net.nodes && Plain(net)
    ensures ReadableNode(NodeOut(net, n)) && NodeIn(NodeOut(net, n)) == net.nodes[n]
  {
    NodeReadable(net, n);
    PortsOutAre(net, n);
    ClassRoundTrip(net.nodes[n].kind);
    hide DeserializeType, AuxOf, PrincipalOf, PortsOut, ClassName, ClassNamed, Positional, ReadableNode;
    AuxRead(net, n);
  }

  lemma AuxRead(net: Net, n: NodeId)
    requires n in net.nodes && forall p :: p in PortsOut(net, n)[1..] ==> Readable(p)
    ensures AuxTypes(PortsOut(net, n)[1..]) == net.nodes[n].aux
  {
    PortsOutAre(net, n);
    hide DeserializeType, PortsOut, Positional;
    forall k | 0 <= k < |net.nodes[n].aux| ensures AuxTypes(PortsOut(net, n)[1..])[k] == net.nodes[n].aux[k] {
      assert PortsOut(net, n)[1..][k] == PortsOut(net, n)[k + 1];
    }
  }

  function NodesOut(net: Net, order: seq<NodeId>): (ds: seq<NodeData>)
    requires forall n :: n in order ==> n in net.nodes
    ensures |ds| == |order|
  {
    SerializeNetwork(net, order, []).nodes
  }

  ghost predicate Order(net: Net, order: seq<NodeId>) {
    && (forall n :: n in order <==> n in net.nodes)
    && (forall i, j :: 0 <= i < j < |order| ==> order[i] != order[j])
  }

  lemma {:induction false} RecordsOut(net: Net, order: seq<NodeId>, i: nat, n: NodeId)
    requires Order(net, order) && i <= |order|
    ensures RecordOf(NodesOut(net, order)[..i], n) == if n in order[..i] then Some(NodeOut(net, n)) else None
  {
    hide NodesOut, NodeOut, Order;
    Ordered(net, order);
    var ds := NodesOut(net, order);
    if i > 0 {
      NodesOutAt(net, order, i - 1);
      RecordMore(ds, i - 1, n);
      assert order[..i] == order[..i - 1] + [order[i - 1]];
      RecordsOut(net, order, i - 1, n);
    }
  }

  lemma NodesOutAt(net: Net, order: seq<NodeId>, k: nat)
    requires Order(net, order) && k < |order|
    ensures order[k] in net.nodes && NodesOut(net, order)[k] == NodeOut(net, order[k]) && NodesOut(net, order)[k].id == order[k]
  {
  }

  lemma NodesOutReadable(net: Net, order: seq<NodeId>)
    requires Order(net, order)
    ensures ReadableContainer(NodesOut(net, order))
  {
    var ds := NodesOut(net, order);
    forall k | 0 <= k < |order| ensures ReadableNode(ds[k]) && ds[k].id == order[k] {
      NodesOutAt(net, order, k);
      NodeReadable(net, order[k]);
    }
    hide NodesOut, ReadableNode;
  }

  lemma {:induction false} NodesRoundTrip(net: Net, order: seq<NodeId>, i: nat)
    requires Order(net, order) && Plain(net) && i <= |order| && ReadableContainer(NodesOut(net, order))
    ensures forall n :: n in NodesIn(NodesOut(net, order)[..i]) <==> n in order[..i]
    ensures forall n :: n in order[..i] ==> n in net.nodes && NodesIn(NodesOut(net, order)[..i])[n] == net.nodes[n]
  {
    if i > 0 {
      hide NodesOut, NodesIn, NodeIn, NodeOut, ReadableNode, Plain, Order;
      var ds, k: nat := NodesOut(net, order), i - 1;
      assert order[..i] == order[..k] + [order[k]];
      NodesRoundTrip(net, order, k);
      NodesMore(ds, k);
      NodesOutAt(net, order, k);
      NodeRoundTrip(net, order[k]);
    }
  }

  /** Looking a live port up by its saved name finds that port. */
  lemma EndpointFound(net: Net, order: seq<NodeId>, p: Port)
    requires Order(net, order) && Live(net.nodes, p)
    ensures PortOf(NodesOut(net, order), p.owner, PortName(p.index)) == Some(p)
  {
    var ds := NodesOut(net, order);
    RecordsOut(net, order, |order|, p.owner);
    assert ds[..|order|] == ds && order[..|order|] == order;
    PortsOutAre(net, p.owner);
    PositionalIndex(PortsOut(net, p.owner), |PortsOut(net, p.owner)|, p.index);
    assert PortsOut(net, p.owner)[..|PortsOut(net, p.owner)|] == PortsOut(net, p.owner);
  }

  lemma PortWiresMore(all: seq<NodeData>, owner: NodeId, ports: seq<PortData>, j: nat)
    requires j < |ports|
    ensures PortWires(all, owner, ports[..j + 1])
         == var w := PortWires(all, owner, ports[..j]);
            var src := PortOf(all, owner, ports[j].name);
            var tgt := if ports[j].target.None? then None else PortOf(all, ports[j].target.value.0, ports[j].target.value.1);
            if src.Some? && tgt.Some? then w[src.value := tgt.value] else w
    ensures PortWires(all, owner, []) == map[]
  {
    assert ports[..j + 1][..j] == ports[..j];
  }

  /** A saved port is rewired to exactly where it led. */
  lemma PortRewired(net: Net, order: seq<NodeId>, n: NodeId, k: nat)
    requires Order(net, order) && WellWired(net) && n in net.nodes && k <= |net.nodes[n].aux|
    ensures var p := PortsOut(net, n)[k];
            && PortOf(NodesOut(net, order), n, p.name) == Some(Port(n, k))
            && (if p.target.None? then None else PortOf(NodesOut(net, order), p.target.value.0, p.target.value.1)) == Look(net.wires, Port(n, k))
  {
    EndpointFound(net, order, Port(n, k));
    if Port(n, k) in net.wires { EndpointFound(net, order, net.wires[Port(n, k)]); }
    hide NodesOut, PortOf;
  }

  lemma PortWiresNone(all: seq<NodeData>, owner: NodeId, ports: seq<PortData>, p: Port)
    ensures Look(PortWires(all, owner, ports[..0]), p) == None
  {
  }

  lemma LookUpdated(w: Wires, s: Port, t: Port, p: Port)
    ensures Look(w[s := t], p) == if p == s then Some(t) else Look(w, p)
  {
  }

  lemma PortWiresStep(net: Net, order: seq<NodeId>, n: NodeId, k: nat, p: Port)
    requires Order(net, order) && WellWired(net) && n in net.nodes && k <= |net.nodes[n].aux|
    requires forall v :: v in order ==> v in net.nodes
    ensures Look(PortWires(NodesOut(net, order), n, PortsOut(net, n)[..k + 1]), p)
         == if p == Port(n, k) && p in net.wires then Look(net.wires, p) else Look(PortWires(NodesOut(net, order), n, PortsOut(net, n)[..k]), p)
  {
    hide NodesOut, PortsOut, PortWires, PortOf, WellWired, Order;
    PortWiresMore(NodesOut(net, order), n, PortsOut(net, n), k);
    PortRewired(net, order, n, k);
    if Port(n, k) in net.wires {
      LookUpdated(PortWires(NodesOut(net, order), n, PortsOut(net, n)[..k]), Port(n, k), net.wires[Port(n, k)], p);
    }
  }

  lemma {:induction false} PortWiresOut(net: Net, order: seq<NodeId>, n: NodeId, m: nat, p: Port)
    requires Order(net, order) && WellWired(net) && n in net.nodes && m <= |net.nodes[n].aux| + 1
    requires forall v :: v in order ==> v in net.nodes
    ensures Look(PortWires(NodesOut(net, order), n, PortsOut(net, n)[..m]), p)
         == if p.owner == n && p.index < m then Look(net.wires, p) else None
    decreases m
  {
    hide *;
    if m > 0 {
      PortWiresOut(net, order, n, m - 1, p);
      PortWiresStep(net, order, n, m - 1, p);
      NotBound(net.wires, p);
      assert p == Port(p.owner, p.index);
    } else {
      PortWiresNone(NodesOut(net, order), n, PortsOut(net, n), p);
    }
  }

  lemma NodeWiresMore(all: seq<NodeData>, ds: seq<NodeData>, i: nat)
    requires i < |ds|
    ensures NodeWires(all, ds[..i + 1]) == NodeWires(all, ds[..i]) + PortWires(all, ds[i].id, ds[i].ports)
    ensures NodeWires(all, ds[..0]) == map[]
  {
    assert ds[..i + 1][..i] == ds[..i];
  }

  lemma LookSum(a: Wires, b: Wires, p: Port)
    ensures Look(a + b, p) == if Look(b, p).Some? then Look(b, p) else Look(a, p)
  {
  }

  lemma {:induction false} NodeWiresOut(net: Net, order: seq<NodeId>, i: nat, p: Port)
    requires Order(net, order) && WellWired(net) && i <= |order|
    ensures Look(NodeWires(NodesOut(net, order), NodesOut(net, order)[..i]), p)
         == if p.owner in order[..i] then Look(net.wires, p) else None
  {
    hide *;
    Ordered(net, order);
    var ds := NodesOut(net, order);
    if i > 0 {
      assert order[..i] == order[..i - 1] + [order[i - 1]];
      NodeWiresOut(net, order, i - 1, p);
      NodeWiresMore(ds, ds, i - 1);
      LookSum(NodeWires(ds, ds[..i - 1]), PortWires(ds, ds[i - 1].id, ds[i - 1].ports), p);
      NodeRewired(net, order, i - 1, p);
    } else {
      NoWires(ds, p);
    }
  }

  lemma Ordered(net: Net, order: seq<NodeId>)
    requires Order(net, order)
    ensures forall n :: n in order ==> n in net.nodes
  {
  }

  lemma NoWires(ds: seq<NodeData>, p: Port)
    ensures Look(NodeWires(ds, ds[..0]), p) == None
  {
  }

  lemma NodeRewired(net: Net, order: seq<NodeId>, k: nat, p: Port)
    requires Order(net, order) && WellWired(net) && k < |order| && forall n :: n in order ==> n in net.nodes
    ensures var ds := NodesOut(net, order);
            ds[k].id == order[k] && Look(PortWires(ds, ds[k].id, ds[k].ports), p) == if p.owner == order[k] then Look(net.wires, p) else None
  {
    hide NodesOut, PortWires, PortsOut;
    var n := order[k];
    NodesOutAt(net, order, k);
    assert PortsOut(net, n)[..|PortsOut(net, n)|] == PortsOut(net, n);
    PortWiresOut(net, order, n, |net.nodes[n].aux| + 1, p);
    NotBound(net.wires, p);
  }

  lemma NotBound(w: Wires, p: Port)
    ensures p !in w <==> Look(w, p) == None
  {
  }

  /** Reading back what was written gives the same net: classes, types, port order and wiring. */
  lemma RoundTrip(net: Net, order: seq<NodeId>, pairs: seq<(NodeId, NodeId)>)
    requires Order(net, order) && WellWired(net) && Plain(net)
    ensures ReadableContainer(SerializeNetwork(net, order, pairs).nodes)
    ensures var ds := SerializeNetwork(net, order, pairs).nodes; Net(NodesIn(ds), NodeWires(ds, ds)) == net
  {
    hide ReadableNode, NodesIn, NodeWires, NodesOut, SerializeNetwork, WellWired, Plain, Order;
    Ordered(net, order);
    SameRecords(net, order, pairs);
    NodesBack(net, order);
    WiresRoundTrip(net, order);
  }

  lemma SameRecords(net: Net, order: seq<NodeId>, pairs: seq<(NodeId, NodeId)>)
    requires forall n :: n in order ==> n in net.nodes
    ensures SerializeNetwork(net, order, pairs).nodes == NodesOut(net, order)
  {
  }

  lemma NodesBack(net: Net, order: seq<NodeId>)
    requires Order(net, order) && Plain(net)
    ensures ReadableContainer(NodesOut(net, order)) && NodesIn(NodesOut(net, order)) == net.nodes
  {
    NodesOutReadable(net, order);
    hide ReadableNode, NodesIn, NodesOut, Plain;
    var ds := NodesOut(net, order);
    assert ds[..|order|] == ds && order[..|order|] == order;
    NodesRoundTrip(net, order, |order|);
    assert NodesIn(ds) == net.nodes;
  }

  lemma WiresRoundTrip(net: Net, order: seq<NodeId>)
    requires Order(net, order) && WellWired(net)
    ensures NodeWires(NodesOut(net, order), NodesOut(net, order)) == net.wires
  {
    var ds := NodesOut(net, order);
    assert ds[..|order|] == ds && order[..|order|] == order;
    hide NodeWires, NodesOut;
    forall p ensures Look(NodeWires(ds, ds), p) == Look(net.wires, p) {
      NodeWiresOut(net, order, |order|, p);
    }
    SameLooks(NodeWires(ds, ds), net.wires);
  }

  /** Write, then read: the same net, with a worklist of exactly its active wires. */
  method SaveAndLoad(net: Net, order: seq<NodeId>, pairs0: seq<(NodeId, NodeId)>) returns (loaded: Net, pairs: seq<(NodeId, NodeId)>)
    requires Order(net, order) && WellWired(net) && Plain(net)
    ensures loaded == net && Lists(net, pairs)
  {
    RoundTrip(net, order, pairs0);
    hide *;
    loaded, pairs := DeserializeNetwork(SerializeNetwork(net, order, pairs0));
  }
}
