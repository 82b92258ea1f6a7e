/** Module mitosis (core/translator.py, split_module): cutting a net along any two-way side
    assignment, with a boundary cap on each severed end, loses nothing. */
module ModuleSplit {
  import opened MellTypes
  import opened Wiring
  import opened Nets
  import W = Worklist

  /** The two ends of a severed wire and the parts they went to. */
  datatype Contract = Contract(sideA: bool, sideB: bool, a: Port, b: Port, wireType: MellType)

  /** The k-th cap of either part: each contract caps one end in each, so the parts count alike. */
  function Cap(k: nat): NodeId {
    Gensym(Boundary, k)
  }

  function Caps(n: nat): set<NodeId> {
    set k: nat | k < n :: Cap(k)
  }

  predicate Meets(c: Contract, p: Port) {
    c.a == p || c.b == p
  }

  /** The last contract that severed p. */
  function CapOf(cs: seq<Contract>, p: Port): Option<nat> {
    if cs == [] then None
    else if Meets(cs[|cs| - 1], p) then Some(|cs| - 1)
    else CapOf(cs[..|cs| - 1], p)
  }

  lemma {:induction false} CapOfMeets(cs: seq<Contract>, p: Port)
    ensures CapOf(cs, p).Some? ==> CapOf(cs, p).value < |cs| && Meets(cs[CapOf(cs, p).value], p)
    ensures CapOf(cs, p).None? ==> forall k :: 0 <= k < |cs| ==> !Meets(cs[k], p)
  {
    if cs != [] { CapOfMeets(cs[..|cs| - 1], p); }
  }

  function OtherEnd(c: Contract, p: Port): Port {
    if c.a == p then c.b else c.a
  }

  function EndOn(c: Contract, s: bool): Port {
    if c.sideA == s then c.a else c.b
  }

  /** A net whose nodes all have a side, and none of whose ids is a future cap id. */
  ghost predicate Sided(net: Net, side: map<NodeId, bool>) {
    && WellWired(net) && side.Keys == net.nodes.Keys
    && forall k: nat :: Cap(k) !in net.nodes
  }

  ghost predicate Crosses(net: Net, side: map<NodeId, bool>, p: Port)
    requires Sided(net, side)
  {
    p in net.wires && side[p.owner] != side[net.wires[p].owner]
  }

  /** Every contract is a crossing wire, and no wire has two contracts. */
  ghost predicate Cuts(net: Net, side: map<NodeId, bool>, cs: seq<Contract>)
    requires Sided(net, side)
  {
    && (forall k :: 0 <= k < |cs| ==> Severs(net, side, cs[k]))
    && (forall j, k :: 0 <= j < k < |cs| ==> !Meets(cs[j], cs[k].a))
  }

  ghost predicate Severs(net: Net, side: map<NodeId, bool>, c: Contract)
    requires Sided(net, side)
  {
    && Crosses(net, side, c.a) && net.wires[c.a] == c.b
    && c.sideA == side[c.a.owner] && c.sideB == side[c.b.owner]
    && c.wireType == TypeAt(net.nodes, c.a)
  }

  /** Every crossing wire has a contract. */
  ghost predicate Complete(net: Net, side: map<NodeId, bool>, cs: seq<Contract>)
    requires Sided(net, side)
  {
    forall p :: Crosses(net, side, p) ==> CapOf(cs, p).Some?
  }

  // ----- the parts -----

  function CapNodes(n: nat): NodeMap {
    map c | c in Caps(n) :: BoundaryNode()
  }

  /** Where the caps of one part lead. */
  function CapWires(cs: seq<Contract>, s: bool): Wires {
    if cs == [] then map[]
    else CapWires(cs[..|cs| - 1], s)[P(Cap(|cs| - 1)) := EndOn(cs[|cs| - 1], s)]
  }

  lemma {:induction false} CapWiresAt(cs: seq<Contract>, s: bool)
    ensures forall k: nat :: k < |cs| ==> P(Cap(k)) in CapWires(cs, s) && CapWires(cs, s)[P(Cap(k))] == EndOn(cs[k], s)
    ensures forall p :: p in CapWires(cs, s) ==> p.index == 0 && p.owner in Caps(|cs|)
  {
    if cs != [] {
      CapWiresAt(cs[..|cs| - 1], s);
      assert Cap(|cs| - 1) in Caps(|cs|);
      forall c | c in Caps(|cs| - 1) ensures c in Caps(|cs|) {}
    }
  }

  /** The wires after the cut: severed ports lead to their caps. */
  function CutWires(w: Wires, cs: seq<Contract>): Wires {
    map p | p in w :: if CapOf(cs, p).Some? then P(Cap(CapOf(cs, p).value)) else w[p]
  }

  function Owned(w: Wires, side: map<NodeId, bool>, s: bool): Wires {
    map p | p in w && p.owner in side && side[p.owner] == s :: w[p]
  }

  function NodesOn(nodes: NodeMap, side: map<NodeId, bool>, s: bool): NodeMap {
    map n | n in nodes && n in side && side[n] == s :: nodes[n]
  }

  /** One part: its own nodes and the caps, its own wires and the capped ends. */
  function Part(net: Net, side: map<NodeId, bool>, cs: seq<Contract>, s: bool): Net {
    Net(CapNodes(|cs|) + NodesOn(net.nodes, side, s), Owned(CutWires(net.wires, cs), side, s) + CapWires(cs, s))
  }

  // ----- the cut in place -----

  /** Every wire seen so far is internal or severed. */
  ghost predicate Settled(net: Net, side: map<NodeId, bool>, cs: seq<Contract>, p: Port)
    requires Sided(net, side)
  {
    Crosses(net, side, p) ==> CapOf(cs, p).Some?
  }

  ghost predicate Cutting(net: Net, side: map<NodeId, bool>, cs: seq<Contract>, target: Wires, seen: set<set<Port>>)
    requires Sided(net, side)
  {
    && Cuts(net, side, cs)
    && target == CutWires(net.wires, cs)
    && (forall key, p :: key in seen && p in key ==> Settled(net, side, cs, p))
  }

  lemma CutsMore(net: Net, side: map<NodeId, bool>, cs: seq<Contract>, c: Contract)
    requires Sided(net, side) && Cuts(net, side, cs) && Severs(net, side, c) && CapOf(cs, c.a).None?
    ensures Cuts(net, side, cs + [c])
  {
    CapOfMeets(cs, c.a);
    hide Severs, Sided;
  }

  lemma CutWiresMore(w: Wires, cs: seq<Contract>, c: Contract)
    requires c.a in w && c.b in w
    ensures CutWires(w, cs + [c]) == CutWires(w, cs)[c.a := P(Cap(|cs|))][c.b := P(Cap(|cs|))]
  {
  }

  lemma StillSettled(net: Net, side: map<NodeId, bool>, cs: seq<Contract>, c: Contract, p: Port)
    requires Sided(net, side)
    ensures Settled(net, side, cs, p) || Meets(c, p) ==> Settled(net, side, cs + [c], p)
  {
  }

  lemma SeversInside(net: Net, side: map<NodeId, bool>, c: Contract)
    requires Sided(net, side) && Severs(net, side, c)
    ensures c.a in net.wires && c.b in net.wires
  {
  }

  /** Severing an untouched crossing wire keeps the cut consistent. */
  lemma SeverStep(net: Net, side: map<NodeId, bool>, cs: seq<Contract>, target: Wires, seen: set<set<Port>>, c: Contract)
    requires Sided(net, side) && Cutting(net, side, cs, target, seen) && Severs(net, side, c) && CapOf(cs, c.a).None?
    ensures Cutting(net, side, cs + [c], target[c.a := P(Cap(|cs|))][c.b := P(Cap(|cs|))], seen + {{c.a, c.b}})
  {
    hide Sided, Cuts, Severs, CutWires, Settled, CapOf;
    CutsMore(net, side, cs, c);
    SeversInside(net, side, c);
    CutWiresMore(net.wires, cs, c);
    forall key, p | key in seen + {{c.a, c.b}} && p in key ensures Settled(net, side, cs + [c], p) {
      StillSettled(net, side, cs, c, p);
    }
  }

  /** Contracts, heap entries and capped parts agree. */
  ghost predicate Scanning(net: Net, side: map<NodeId, bool>, cs: seq<Contract>, target: Wires, seen: set<set<Port>>,
                           caps: (Wires, Wires), nodes: (NodeMap, NodeMap))
    requires Sided(net, side)
  {
    && Cutting(net, side, cs, target, seen)
    && caps == (CapWires(cs, false), CapWires(cs, true)) && nodes == (CapNodes(|cs|), CapNodes(|cs|))
  }

  /** What the guards of the scan tell about a port. */
  lemma GuardsDecide(net: Net, side: map<NodeId, bool>, cs: seq<Contract>, target: Wires, seen: set<set<Port>>,
                     caps: (Wires, Wires), nodes: (NodeMap, NodeMap), p: Port)
    requires Sided(net, side) && Scanning(net, side, cs, target, seen, caps, nodes)
    ensures p !in target ==> p !in net.wires && Settled(net, side, cs, p)
    ensures p in target ==> p in net.wires && p.owner in side
    ensures p in target && target[p].owner !in side ==> Settled(net, side, cs, p)
    ensures p in target && target[p].owner in side ==> target[p] == net.wires[p] && CapOf(cs, p).None?
    ensures p in target && {p, target[p]} in seen ==> Settled(net, side, cs, p)
  {
    if p in target && {p, target[p]} in seen { assert p in {p, target[p]}; }
  }

  lemma InternalSeen(net: Net, side: map<NodeId, bool>, cs: seq<Contract>, target: Wires, seen: set<set<Port>>,
                     caps: (Wires, Wires), nodes: (NodeMap, NodeMap), p: Port, q: Port)
    requires Sided(net, side) && Scanning(net, side, cs, target, seen, caps, nodes)
    requires p in net.wires && net.wires[p] == q && side[p.owner] == side[q.owner]
    ensures Scanning(net, side, cs, target, seen + {{p, q}}, caps, nodes) && Settled(net, side, cs, p)
  {
  }

  lemma SeveredScan(net: Net, side: map<NodeId, bool>, cs: seq<Contract>, target: Wires, seen: set<set<Port>>,
                    caps: (Wires, Wires), nodes: (NodeMap, NodeMap), c: Contract)
    requires Sided(net, side) && Scanning(net, side, cs, target, seen, caps, nodes) && Severs(net, side, c) && CapOf(cs, c.a).None?
    ensures var id := Cap(|cs|);
            Scanning(net, side, cs + [c], target[c.a := P(id)][c.b := P(id)], seen + {{c.a, c.b}},
                     (caps.0[P(id) := EndOn(c, false)], caps.1[P(id) := EndOn(c, true)]), (nodes.0[id := BoundaryNode()], nodes.1[id := BoundaryNode()]))
    ensures Settled(net, side, cs + [c], c.a)
    ensures forall q :: Settled(net, side, cs, q) ==> Settled(net, side, cs + [c], q)
  {
    hide Sided, Severs, Cutting, Settled, CapNodes, CapWires, CapOf;
    SeverStep(net, side, cs, target, seen, c);
    CapsMore(cs, c);
    StillSettled(net, side, cs, c, c.a);
    forall q ensures Settled(net, side, cs, q) ==> Settled(net, side, cs + [c], q) { StillSettled(net, side, cs, c, q); }
  }

  /** The scan of one port of one node. */
  method ScanPort(net: Net, side: map<NodeId, bool>, p: Port, cs0: seq<Contract>, target0: Wires, seen0: set<set<Port>>,
                  caps0: (Wires, Wires), nodes0: (NodeMap, NodeMap))
    returns (cs: seq<Contract>, target: Wires, seen: set<set<Port>>, caps: (Wires, Wires), nodes: (NodeMap, NodeMap))
    requires Sided(net, side) && Scanning(net, side, cs0, target0, seen0, caps0, nodes0) && Live(net.nodes, p)
    ensures Scanning(net, side, cs, target, seen, caps, nodes) && Settled(net, side, cs, p)
    ensures forall q :: Settled(net, side, cs0, q) ==> Settled(net, side, cs, q)
  {
    hide Scanning, Settled, CapOf;
    cs, target, seen, caps, nodes := cs0, target0, seen0, caps0, nodes0;
    GuardsDecide(net, side, cs, target, seen, caps, nodes, p);
    if p !in target {
      return;
    }
    var q := target[p];
    if q.owner !in side || {p, q} in seen {
      return;
    }
    if side[p.owner] == side[q.owner] {
      InternalSeen(net, side, cs, target, seen, caps, nodes, p, q);
      seen := seen + {{p, q}};
      return;
    }
    var c := Contract(side[p.owner], side[q.owner], p, q, TypeAt(net.nodes, p));
    SeveredScan(net, side, cs, target, seen, caps, nodes, c);
    var id := Cap(|cs|);
    seen := seen + {{p, q}};
    nodes := (nodes.0[id := BoundaryNode()], nodes.1[id := BoundaryNode()]);
    target := target[p := P(id)][q := P(id)];
    if c.sideA {
      caps := (caps.0[P(id) := q], caps.1[P(id) := p]);
    } else {
      caps := (caps.0[P(id) := p], caps.1[P(id) := q]);
    }
    cs := cs + [c];
  }

  lemma CapsMore(cs: seq<Contract>, c: Contract)
    ensures CapNodes(|cs| + 1) == CapNodes(|cs|)[Cap(|cs|) := BoundaryNode()]
    ensures forall s :: CapWires(cs + [c], s) == CapWires(cs, s)[P(Cap(|cs|)) := EndOn(c, s)]
  {
  }

  /** The scan of all ports of one node. */
  method ScanNode(net: Net, side: map<NodeId, bool>, n: NodeId, cs0: seq<Contract>, target0: Wires, seen0: set<set<Port>>,
                  caps0: (Wires, Wires), nodes0: (NodeMap, NodeMap))
    returns (cs: seq<Contract>, target: Wires, seen: set<set<Port>>, caps: (Wires, Wires), nodes: (NodeMap, NodeMap))
    requires Sided(net, side) && Scanning(net, side, cs0, target0, seen0, caps0, nodes0) && n in net.nodes
    ensures Scanning(net, side, cs, target, seen, caps, nodes)
    ensures forall p :: Live(net.nodes, p) && p.owner == n ==> Settled(net, side, cs, p)
    ensures forall q :: Settled(net, side, cs0, q) ==> Settled(net, side, cs, q)
  {
    hide Sided, Scanning, Settled;
    cs, target, seen, caps, nodes := cs0, target0, seen0, caps0, nodes0;
    for j := 0 to |net.nodes[n].aux| + 1
      invariant Scanning(net, side, cs, target, seen, caps, nodes)
      invariant forall q :: Settled(net, side, cs0, q) ==> Settled(net, side, cs, q)
      invariant forall k: nat :: k < j ==> Settled(net, side, cs, Port(n, k))
    {
      cs, target, seen, caps, nodes := ScanPort(net, side, Port(n, j), cs, target, seen, caps, nodes);
    }
    forall p | Live(net.nodes, p) && p.owner == n ensures Settled(net, side, cs, p) { assert p == Port(n, p.index); }
  }

  /** Every node is on the first side. */
  ghost predicate AllFirst(net: Net, side: map<NodeId, bool>) {
    forall n :: n in side ==> !side[n]
  }

  /** Then nothing is cut, the first part is the net and the second is empty. */
  lemma FirstIsWhole(net: Net, side: map<NodeId, bool>, cs: seq<Contract>)
    requires Sided(net, side) && AllFirst(net, side) && Cuts(net, side, cs)
    ensures cs == [] && Part(net, side, cs, false) == net && Part(net, side, cs, true) == Net(map[], map[])
  {
    NoneCross(net, side);
    assert cs != [] ==> Severs(net, side, cs[0]);
    WholePart(net, side);
  }

  lemma NoneCross(net: Net, side: map<NodeId, bool>)
    requires Sided(net, side) && AllFirst(net, side)
    ensures forall p :: !Crosses(net, side, p)
  {
  }

  lemma WholePart(net: Net, side: map<NodeId, bool>)
    requires Sided(net, side) && AllFirst(net, side)
    ensures Part(net, side, [], false) == net && Part(net, side, [], true) == Net(map[], map[])
  {
    OwnersSided(net, side);
    hide Sided;
    assert CapNodes(0) == map[] && Caps(0) == {};
    assert CutWires(net.wires, []) == net.wires;
    assert Owned(net.wires, side, false) == net.wires && Owned(net.wires, side, true) == map[];
    assert NodesOn(net.nodes, side, false) == net.nodes && NodesOn(net.nodes, side, true) == map[];
  }

  lemma OwnersSided(net: Net, side: map<NodeId, bool>)
    requires Sided(net, side)
    ensures side.Keys == net.nodes.Keys && forall p :: p in net.wires ==> p.owner in side
  {
  }

  /** A net of fewer than two nodes is not bisected. */
  function EffectiveSide(net: Net, order: seq<NodeId>, side: map<NodeId, bool>): (cut: map<NodeId, bool>)
    requires Sided(net, side)
    ensures Sided(net, cut) && (|order| >= 2 ==> cut == side) && (|order| < 2 ==> AllFirst(net, cut))
  {
    if |order| < 2 then map n | n in net.nodes :: false else side
  }

  /** split_module: the cut takes exactly the crossing wires, and each part gets its own nodes,
      its own wires and its caps. A net of fewer than two nodes goes to the first part whole. */
  method SplitModule(net: Net, order: seq<NodeId>, side: map<NodeId, bool>)
    returns (part1: Net, part2: Net, contracts: seq<Contract>, cut: map<NodeId, bool>, pairs1: seq<(NodeId, NodeId)>, pairs2: seq<(NodeId, NodeId)>)
    requires Sided(net, side) && forall n :: n in order <==> n in net.nodes
    ensures Sided(net, cut) && (|order| >= 2 ==> cut == side)
    ensures Cuts(net, cut, contracts) && Complete(net, cut, contracts)
    ensures part1 == Part(net, cut, contracts, false) && part2 == Part(net, cut, contracts, true)
    ensures |order| < 2 ==> contracts == [] && part1 == net && part2 == Net(map[], map[])
    ensures W.Lists(part1, pairs1) && W.Lists(part2, pairs2)
  {
    cut := EffectiveSide(net, order, side);
    hide Sided, Scanning, Cuts, Settled, CutWires, NodesOn, Owned, Complete, Part, AllFirst;
    contracts := [];
    var target, seen := net.wires, {};
    var caps: (Wires, Wires) := (map[], map[]);
    var nodes: (NodeMap, NodeMap) := (map[], map[]);
    NothingCut(net, cut);
    for i := 0 to |order|
      invariant Scanning(net, cut, contracts, target, seen, caps, nodes)
      invariant forall p :: Live(net.nodes, p) && p.owner in order[..i] ==> Settled(net, cut, contracts, p)
    {
      assert order[i] in order && order[..i + 1] == order[..i] + [order[i]];
      contracts, target, seen, caps, nodes := ScanNode(net, cut, order[i], contracts, target, seen, caps, nodes);
    }
    assert order[..|order|] == order;
    AllSettled(net, cut, contracts, target, seen, caps, nodes);
    part1 := Net(nodes.0 + NodesOn(net.nodes, cut, false), Owned(target, cut, false) + caps.0);
    part2 := Net(nodes.1 + NodesOn(net.nodes, cut, true), Owned(target, cut, true) + caps.1);
    var order1, order2 := RegisteredOn(order, cut, false, |contracts|), RegisteredOn(order, cut, true, |contracts|);
    AllRegistered(net, order, cut, contracts, false);
    AllRegistered(net, order, cut, contracts, true);
    pairs1 := W.RescanActive(part1, order1);
    pairs2 := W.RescanActive(part2, order2);
    if |order| < 2 { FirstIsWhole(net, cut, contracts); }
  }

  /** The nodes of a part in the order of their registration: its caps, and then its side's nodes. */
  function RegisteredOn(order: seq<NodeId>, side: map<NodeId, bool>, s: bool, caps: nat): (ids: seq<NodeId>)
    ensures forall n :: n in ids <==> n in Caps(caps) || (n in order && n in side && side[n] == s)
  {
    if order == [] then CapIds(caps)
    else
      var init, n := order[..|order| - 1], order[|order| - 1];
      assert order == init + [n];
      RegisteredOn(init, side, s, caps) + (if n in side && side[n] == s then [n] else [])
  }

  function CapIds(n: nat): (ids: seq<NodeId>)
    ensures forall c :: c in ids <==> c in Caps(n)
  {
    if n == 0 then [] else CapSetMore(n - 1); CapIds(n - 1) + [Cap(n - 1)]
  }

  lemma CapSetMore(n: nat)
    ensures Caps(n + 1) == Caps(n) + {Cap(n)}
  {
  }

  lemma AllRegistered(net: Net, order: seq<NodeId>, side: map<NodeId, bool>, cs: seq<Contract>, s: bool)
    requires Sided(net, side) && forall n :: n in order <==> n in net.nodes
    ensures forall n :: n in RegisteredOn(order, side, s, |cs|) <==> n in Part(net, side, cs, s).nodes
  {
  }

  lemma NothingCut(net: Net, cut: map<NodeId, bool>)
    requires Sided(net, cut)
    ensures Scanning(net, cut, [], net.wires, {}, (map[], map[]), (map[], map[]))
  {
  }

  lemma AllSettled(net: Net, cut: map<NodeId, bool>, cs: seq<Contract>, target: Wires, seen: set<set<Port>>, caps: (Wires, Wires), nodes: (NodeMap, NodeMap))
    requires Sided(net, cut) && Scanning(net, cut, cs, target, seen, caps, nodes)
    requires forall p :: Live(net.nodes, p) ==> Settled(net, cut, cs, p)
    ensures Cuts(net, cut, cs) && Complete(net, cut, cs)
    ensures Part(net, cut, cs, false) == Net(nodes.0 + NodesOn(net.nodes, cut, false), Owned(target, cut, false) + caps.0)
    ensures Part(net, cut, cs, true) == Net(nodes.1 + NodesOn(net.nodes, cut, true), Owned(target, cut, true) + caps.1)
  {
  }

  // ----- what the parts are -----

  /** The caps aside, every node is in exactly the part of its side, unchanged. */
  lemma PartsPartitionNodes(net: Net, side: map<NodeId, bool>, cs: seq<Contract>)
    requires Sided(net, side)
    ensures forall n, s :: n in Part(net, side, cs, s).nodes && n !in Caps(|cs|) <==> n in net.nodes && side[n] == s
    ensures forall n, s :: n in net.nodes && side[n] == s ==> Part(net, side, cs, s).nodes[n] == net.nodes[n]
  {
    forall n | n in Caps(|cs|) ensures n !in net.nodes {
      var k: nat :| k < |cs| && n == Cap(k);
    }
  }

  lemma CapOfPartner(net: Net, side: map<NodeId, bool>, cs: seq<Contract>, k: nat, p: Port)
    requires Sided(net, side) && Cuts(net, side, cs) && k < |cs| && Meets(cs[k], p)
    ensures p in net.wires && net.wires[p] == OtherEnd(cs[k], p) && Crosses(net, side, p)
    ensures EndOn(cs[k], side[p.owner]) == p
  {
  }

  /** Contracts are on different wires: an end belongs to one contract only. */
  lemma OneContract(net: Net, side: map<NodeId, bool>, cs: seq<Contract>, j: nat, k: nat, p: Port)
    requires Sided(net, side) && Cuts(net, side, cs) && j < |cs| && k < |cs| && Meets(cs[j], p) && Meets(cs[k], p)
    ensures j == k
  {
  }

  /** The wires of a part, port by port. */
  lemma PartWires(net: Net, side: map<NodeId, bool>, cs: seq<Contract>, s: bool, p: Port)
    requires Sided(net, side) && Cuts(net, side, cs)
    ensures var w := Part(net, side, cs, s).wires;
            if p.owner in Caps(|cs|)
            then (p in w <==> p.index == 0) && forall k: nat :: k < |cs| && p == P(Cap(k)) ==> w[p] == EndOn(cs[k], s)
            else (p in w <==> p in net.wires && side[p.owner] == s) && (p in w ==> w[p] == CutWires(net.wires, cs)[p])
  {
    CapWiresAt(cs, s);
    if p.owner in Caps(|cs|) {
      var k: nat :| k < |cs| && p.owner == Cap(k);
      assert p.index == 0 ==> p == P(Cap(k));
    }
  }

  lemma CapIn(k: nat, n: nat)
    requires k < n
    ensures Cap(k) in Caps(n)
  {
  }

  /** The wire at p joins two live ports, symmetrically. */
  ghost predicate SoundAt(net: Net, p: Port) {
    p in net.wires ==> Live(net.nodes, p) && net.wires[p] in net.wires && net.wires[net.wires[p]] == p && net.wires[p] != p
  }

  lemma WellWiredFrom(net: Net)
    requires WellFormed(net.nodes) && forall p :: SoundAt(net, p)
    ensures WellWired(net)
  {
    forall p | p in net.wires ensures Live(net.nodes, p) && net.wires[p] in net.wires && net.wires[net.wires[p]] == p && net.wires[p] != p {
      assert SoundAt(net, p);
    }
  }

  /** A part is well wired: its wires join live ports of the part, symmetrically. */
  lemma PartPaired(net: Net, side: map<NodeId, bool>, cs: seq<Contract>, s: bool, p: Port)
    requires Sided(net, side) && Cuts(net, side, cs) && Complete(net, side, cs)
    requires p in Part(net, side, cs, s).wires
    ensures SoundAt(Part(net, side, cs, s), p)
  {
    var part := Part(net, side, cs, s);
    var q := part.wires[p];
    PartWires(net, side, cs, s, p);
    PartWires(net, side, cs, s, q);
    CapOfMeets(cs, p);
    PartNodes(net, side, cs, s, p);
    if p.owner in Caps(|cs|) {
      var k: nat :| k < |cs| && p.owner == Cap(k);
      assert Severs(net, side, cs[k]) && p == P(Cap(k)) && q == EndOn(cs[k], s);
      CapOfMeets(cs, q);
      OneContract(net, side, cs, k, CapOf(cs, q).value, q);
    } else if CapOf(cs, p).Some? {
      var k := CapOf(cs, p).value;
      CapIn(k, |cs|);
      CapOfPartner(net, side, cs, k, p);
    } else {
      assert !Crosses(net, side, p);
      CapOfMeets(cs, q);
      if CapOf(cs, q).Some? { CapOfPartner(net, side, cs, CapOf(cs, q).value, q); }
    }
  }

  lemma PartNodes(net: Net, side: map<NodeId, bool>, cs: seq<Contract>, s: bool, p: Port)
    requires Sided(net, side)
    ensures p.owner in Caps(|cs|) ==> (Live(Part(net, side, cs, s).nodes, p) <==> p.index == 0)
    ensures p.owner !in Caps(|cs|) ==> (Live(Part(net, side, cs, s).nodes, p) <==> Live(net.nodes, p) && side[p.owner] == s)
  {
  }

  lemma PartWellFormed(net: Net, side: map<NodeId, bool>, cs: seq<Contract>, s: bool)
    requires Sided(net, side)
    ensures WellFormed(Part(net, side, cs, s).nodes)
  {
  }

  lemma PartWellWired(net: Net, side: map<NodeId, bool>, cs: seq<Contract>, s: bool)
    requires Sided(net, side) && Cuts(net, side, cs) && Complete(net, side, cs)
    ensures WellWired(Part(net, side, cs, s))
  {
    PartWellFormed(net, side, cs, s);
    hide *;
    forall p ensures SoundAt(Part(net, side, cs, s), p) { PartSound(net, side, cs, s, p); }
    WellWiredFrom(Part(net, side, cs, s));
  }

  lemma PartSound(net: Net, side: map<NodeId, bool>, cs: seq<Contract>, s: bool, p: Port)
    requires Sided(net, side) && Cuts(net, side, cs) && Complete(net, side, cs)
    ensures SoundAt(Part(net, side, cs, s), p)
  {
    if p in Part(net, side, cs, s).wires { PartPaired(net, side, cs, s, p); }
  }

  /** The parts of a closed net are closed: every severed end is terminated by a cap. */
  lemma PartClosed(net: Net, side: map<NodeId, bool>, cs: seq<Contract>, s: bool)
    requires Sided(net, side) && Cuts(net, side, cs) && Complete(net, side, cs) && Closed(net)
    ensures Closed(Part(net, side, cs, s))
  {
    PartWellWired(net, side, cs, s);
    var part := Part(net, side, cs, s);
    forall p | Live(part.nodes, p) ensures p in part.wires {
      PartWires(net, side, cs, s, p);
      PartNodes(net, side, cs, s, p);
    }
  }

  // ----- one contract per crossing wire -----

  function ContractEnds(cs: seq<Contract>): set<Port> {
    if cs == [] then {} else ContractEnds(cs[..|cs| - 1]) + {cs[|cs| - 1].a, cs[|cs| - 1].b}
  }

  lemma {:induction false} EndsOfContracts(cs: seq<Contract>, p: Port)
    ensures p in ContractEnds(cs) <==> CapOf(cs, p).Some?
  {
    if cs != [] { EndsOfContracts(cs[..|cs| - 1], p); }
  }

  lemma CutsFewer(net: Net, side: map<NodeId, bool>, cs: seq<Contract>)
    requires Sided(net, side) && Cuts(net, side, cs) && cs != []
    ensures Cuts(net, side, cs[..|cs| - 1])
  {
  }

  lemma {:induction false} TwoEndsEach(net: Net, side: map<NodeId, bool>, cs: seq<Contract>)
    requires Sided(net, side) && Cuts(net, side, cs)
    ensures |ContractEnds(cs)| == 2 * |cs|
    decreases |cs|
  {
    if cs != [] {
      var k := |cs| - 1;
      CutsFewer(net, side, cs);
      TwoEndsEach(net, side, cs[..k]);
      EndsApart(net, side, cs);
    }
  }

  lemma EndsApart(net: Net, side: map<NodeId, bool>, cs: seq<Contract>)
    requires Sided(net, side) && Cuts(net, side, cs) && cs != []
    ensures var k := |cs| - 1;
            cs[k].a != cs[k].b && cs[k].a !in ContractEnds(cs[..k]) && cs[k].b !in ContractEnds(cs[..k])
  {
    var k := |cs| - 1;
    assert Severs(net, side, cs[k]);
    forall p | Meets(cs[k], p) ensures p !in ContractEnds(cs[..k]) {
      EndsOfContracts(cs[..k], p);
      CapOfMeets(cs[..k], p);
      if CapOf(cs[..k], p).Some? {
        assert cs[..k][CapOf(cs[..k], p).value] == cs[CapOf(cs[..k], p).value];
        OneContract(net, side, cs, CapOf(cs[..k], p).value, k, p);
      }
    }
    assert Meets(cs[k], cs[k].a) && Meets(cs[k], cs[k].b);
  }

  function CrossingPorts(net: Net, side: map<NodeId, bool>): set<Port>
    requires Sided(net, side)
  {
    set p | p in net.wires && side[p.owner] != side[net.wires[p].owner]
  }

  lemma CrossingPortsAre(net: Net, side: map<NodeId, bool>, p: Port)
    requires Sided(net, side)
    ensures p in CrossingPorts(net, side) <==> Crosses(net, side, p)
  {
  }

  /** Each crossing wire has exactly one contract, and each contract one crossing wire. */
  lemma OneContractPerCrossing(net: Net, side: map<NodeId, bool>, cs: seq<Contract>)
    requires Sided(net, side) && Cuts(net, side, cs) && Complete(net, side, cs)
    ensures CrossingPorts(net, side) == ContractEnds(cs)
    ensures |CrossingPorts(net, side)| == 2 * |cs|
  {
    hide *;
    TwoEndsEach(net, side, cs);
    forall p ensures p in CrossingPorts(net, side) <==> p in ContractEnds(cs) {
      CrossingEnds(net, side, cs, p);
      CrossingPortsAre(net, side, p);
    }
    assert CrossingPorts(net, side) == ContractEnds(cs);
  }

  lemma CrossingEnds(net: Net, side: map<NodeId, bool>, cs: seq<Contract>, p: Port)
    requires Sided(net, side) && Cuts(net, side, cs) && Complete(net, side, cs)
    ensures Crosses(net, side, p) <==> p in ContractEnds(cs)
  {
    EndsOfContracts(cs, p);
    CapOfMeets(cs, p);
    if CapOf(cs, p).Some? { CapOfPartner(net, side, cs, CapOf(cs, p).value, p); }
  }

  // ----- putting the parts back together -----

  /** Drops the caps and joins the recorded ends of every contract. */
  function Reglue(part1: Net, part2: Net, cs: seq<Contract>): Net {
    Net(part1.nodes + part2.nodes - Caps(|cs|),
        map p | p in part1.wires.Keys + part2.wires.Keys && p.owner !in Caps(|cs|) ::
          if CapOf(cs, p).Some? && CapOf(cs, p).value < |cs| then OtherEnd(cs[CapOf(cs, p).value], p)
          else if p in part1.wires then part1.wires[p] else part2.wires[p])
  }

  lemma ReglueNodes(net: Net, side: map<NodeId, bool>, cs: seq<Contract>)
    requires Sided(net, side)
    ensures Reglue(Part(net, side, cs, false), Part(net, side, cs, true), cs).nodes == net.nodes
  {
    PartsPartitionNodes(net, side, cs);
    forall n | n in Caps(|cs|) ensures n !in net.nodes {
      var k: nat :| k < |cs| && n == Cap(k);
    }
    assert forall n :: n in net.nodes ==> n in side;
    hide Part, Caps, Sided;
    MapsMerge(net.nodes, side, Part(net, side, cs, false).nodes, Part(net, side, cs, true).nodes, Caps(|cs|));
  }

  lemma MapsMerge(nodes: NodeMap, side: map<NodeId, bool>, first: NodeMap, second: NodeMap, caps: set<NodeId>)
    requires forall n :: n in nodes ==> n in side && n !in caps
    requires forall n :: n in first && n !in caps <==> n in nodes && !side[n]
    requires forall n :: n in second && n !in caps <==> n in nodes && side[n]
    requires forall n :: n in nodes && !side[n] ==> first[n] == nodes[n]
    requires forall n :: n in nodes && side[n] ==> second[n] == nodes[n]
    ensures first + second - caps == nodes
  {
  }

  lemma CapUnwired(net: Net, side: map<NodeId, bool>, n: nat, p: Port)
    requires Sided(net, side) && p.owner in Caps(n)
    ensures p !in net.wires
  {
  }

  lemma ReglueWire(net: Net, side: map<NodeId, bool>, cs: seq<Contract>, p: Port)
    requires Sided(net, side) && Cuts(net, side, cs)
    ensures Look(Reglue(Part(net, side, cs, false), Part(net, side, cs, true), cs).wires, p) == Look(net.wires, p)
  {
    hide Part, CapOf, Cuts, WellWired, Caps;
    PartWires(net, side, cs, false, p);
    PartWires(net, side, cs, true, p);
    CapOfMeets(cs, p);
    if p.owner in Caps(|cs|) {
      CapUnwired(net, side, |cs|, p);
    } else if CapOf(cs, p).Some? {
      CapOfPartner(net, side, cs, CapOf(cs, p).value, p);
    }
  }

  /** Splitting and re-gluing gives the original net back, for any side assignment. */
  lemma SplitThenReglue(net: Net, side: map<NodeId, bool>, cs: seq<Contract>)
    requires Sided(net, side) && Cuts(net, side, cs)
    ensures Reglue(Part(net, side, cs, false), Part(net, side, cs, true), cs) == net
  {
    var back := Reglue(Part(net, side, cs, false), Part(net, side, cs, true), cs);
    ReglueNodes(net, side, cs);
    forall p ensures Look(back.wires, p) == Look(net.wires, p) { ReglueWire(net, side, cs, p); }
    SameLooks(back.wires, net.wires);
  }
}
