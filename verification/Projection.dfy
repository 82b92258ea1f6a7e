/** Projecting an interaction net onto a scheduling graph (core/hin_graph.py, from_hin_network):
    every wire between two nodes becomes one edge, from the smaller id to the larger. */
module Projection {
  import opened Collections
  import opened MellTypes
  import opened Wiring
  import opened Nets
  import opened Names
  import L = Levels
  import E = EdgeConservation
  import M = Measure

  /** The two readings of a node id: its text, and its place in the string order. */
  datatype Naming = Naming(text: map<NodeId, Name>, rank: map<NodeId, L.Id>)

  ghost predicate Named(net: Net, names: Naming) {
    && names.text.Keys == net.nodes.Keys && names.rank.Keys == net.nodes.Keys
    && Injective(names.text) && Injective(names.rank)
  }

  /** A wire seen from its smaller end. */
  predicate Forwards(net: Net, names: Naming, p: Port) {
    && p in net.wires && p.owner in names.rank && net.wires[p].owner in names.rank
    && names.rank[p.owner].rank < names.rank[net.wires[p].owner].rank
  }

  /** Both ends with their port names. */
  function Label(names: Naming, p: Port, q: Port): string
    requires p.owner in names.text && q.owner in names.text
  {
    names.text[p.owner] + ":" + PortName(p.index) + "->" + names.text[q.owner] + ":" + PortName(q.index)
  }

  function RecordOf(net: Net, names: Naming, p: Port): E.Record
    requires WellWired(net) && Named(net, names) && p in net.wires
  {
    var q := net.wires[p];
    E.Record(names.text[p.owner], names.text[q.owner], Label(names, p, q), Some(TypeAt(net.nodes, p)), Some(TypeAt(net.nodes, q)))
  }

  /** The ports of n that lie on a recorded wire. */
  function Touching(net: Net, seen: set<Port>, n: NodeId): set<Port> {
    set q | q in net.wires && q.owner == n && (q in seen || net.wires[q] in seen)
  }

  /** The ports of n wired to another node. */
  function Outward(net: Net, n: NodeId): set<Port> {
    set q | q in net.wires && q.owner == n && net.wires[q].owner != n
  }

  // ----- the scan -----

  /** The edges recorded so far are exactly the wires in `seen`. */
  ghost predicate Records(net: Net, names: Naming, seen: set<Port>, records: seq<E.Record>)
    requires WellWired(net) && Named(net, names)
  {
    && (forall p :: p in seen ==> p in net.wires && Forwards(net, names, p) && RecordOf(net, names, p) in records)
    && (forall r :: r in records ==> exists p :: p in seen && p in net.wires && r == RecordOf(net, names, p))
    && (forall n :: n in net.nodes ==> E.Ends(records)[names.text[n]] == |Touching(net, seen, n)|)
  }

  ghost predicate Edges(net: Net, names: Naming, seen: set<Port>, g: L.Graph)
    requires Named(net, names)
  {
    && L.WellFormed(g) && g.nodes == names.rank.Values
    && g.adjList.Keys == g.nodes && g.reverseAdj.Keys == g.nodes && g.inDegrees.Keys == g.nodes
    && (forall u, v :: L.IsEdge(g, u, v) ==> u.rank < v.rank)
    && (forall p :: p in seen && Forwards(net, names, p) ==> L.IsEdge(g, names.rank[p.owner], names.rank[net.wires[p].owner]))
    && (forall u, v :: L.IsEdge(g, u, v) ==> exists p :: p in seen && Forwards(net, names, p) && names.rank[p.owner] == u && names.rank[net.wires[p].owner] == v)
  }

  lemma FarEnd(net: Net, names: Naming, p: Port)
    requires WellWired(net) && Forwards(net, names, p)
    ensures p in net.wires
    ensures var q := net.wires[p];
            q in net.wires && net.wires[q] == p && q.owner != p.owner && !Forwards(net, names, q) && p.owner in net.nodes && q.owner in net.nodes
  {
  }

  ghost predicate AllForwards(net: Net, names: Naming, seen: set<Port>) {
    forall q :: q in seen ==> Forwards(net, names, q)
  }

  lemma TouchingAt(net: Net, names: Naming, seen: set<Port>, p: Port, n: NodeId, x: Port)
    requires WellWired(net) && Forwards(net, names, p) && p !in seen && AllForwards(net, names, seen)
    ensures x in Touching(net, seen + {p}, n) <==> x in Touching(net, seen, n) || (x.owner == n && x in {p, net.wires[p]})
    ensures x in {p, net.wires[p]} ==> x !in Touching(net, seen, n)
  {
    FarEnd(net, names, p);
  }

  lemma TouchingMore(net: Net, names: Naming, seen: set<Port>, p: Port, n: NodeId)
    requires WellWired(net) && Forwards(net, names, p) && p !in seen && AllForwards(net, names, seen)
    ensures |Touching(net, seen + {p}, n)| == |Touching(net, seen, n)| + (if n == p.owner then 1 else 0) + (if n == net.wires[p].owner then 1 else 0)
  {
    hide WellWired, Touching, Forwards, AllForwards;
    FarEnd(net, names, p);
    var q := net.wires[p];
    var more := (if n == p.owner then {p} else {}) + (if n == q.owner then {q} else {});
    forall x ensures x in Touching(net, seen + {p}, n) <==> x in Touching(net, seen, n) + more { TouchingAt(net, names, seen, p, n, x); }
    forall x | x in more ensures x !in Touching(net, seen, n) { TouchingAt(net, names, seen, p, n, x); }
    assert Touching(net, seen + {p}, n) == Touching(net, seen, n) + more;
    assert Touching(net, seen, n) !! more;
  }

  lemma EndAdded(net: Net, names: Naming, seen: set<Port>, records: seq<E.Record>, p: Port, n: NodeId)
    requires WellWired(net) && Named(net, names) && Forwards(net, names, p) && p !in seen && AllForwards(net, names, seen) && n in net.nodes
    requires E.Ends(records)[names.text[n]] == |Touching(net, seen, n)|
    ensures E.Ends(records + [RecordOf(net, names, p)])[names.text[n]] == |Touching(net, seen + {p}, n)|
  {
    hide E.Ends, Touching, WellWired, AllForwards;
    FarEnd(net, names, p);
    TouchingMore(net, names, seen, p, n);
    E.EndsMore(records, RecordOf(net, names, p));
  }

  lemma RecordMore(net: Net, names: Naming, seen: set<Port>, records: seq<E.Record>, p: Port)
    requires WellWired(net) && Named(net, names) && Records(net, names, seen, records) && Forwards(net, names, p) && p !in seen
    ensures Records(net, names, seen + {p}, records + [RecordOf(net, names, p)])
  {
    hide E.Ends, Touching, WellWired, Named, RecordOf;
    assert AllForwards(net, names, seen);
    forall n | n in net.nodes
      ensures E.Ends(records + [RecordOf(net, names, p)])[names.text[n]] == |Touching(net, seen + {p}, n)|
    {
      EndAdded(net, names, seen, records, p, n);
    }
  }

  lemma EdgeMore(net: Net, names: Naming, seen: set<Port>, g: L.Graph, h: L.Graph, p: Port)
    requires Named(net, names) && Edges(net, names, seen, g) && Forwards(net, names, p)
    requires L.Extends(g, h, names.rank[p.owner], names.rank[net.wires[p].owner])
    ensures Edges(net, names, seen + {p}, h)
  {
    hide L.WellFormed, L.IsEdge;
    var a, b := names.rank[p.owner], names.rank[net.wires[p].owner];
    L.AddArc(g, h, a, b);
    forall u, v ensures L.IsEdge(h, u, v) <==> L.IsEdge(g, u, v) || (u == a && v == b) { L.EdgesGrow(g, h, a, b, u, v); }
  }

  /** Everything recorded about the wires in `seen`. */
  ghost predicate Projected(net: Net, names: Naming, seen: set<Port>, g: L.Graph, records: seq<E.Record>,
                            ins: map<Name, int>, outs: map<Name, int>, types: seq<E.EdgeType>)
    requires WellWired(net) && Named(net, names)
  {
    && Records(net, names, seen, records) && Edges(net, names, seen, g)
    && ins.Keys == names.text.Values && outs.Keys == names.text.Values
    && E.Views(names.text.Values, records, ins, outs, types)
  }

  type Neighbours = map<L.Id, seq<L.Id>>

  /** An edge joins the two, in either direction. */
  ghost predicate Adjacent(g: L.Graph, u: L.Id, v: L.Id) {
    L.IsEdge(g, u, v) || L.IsEdge(g, v, u)
  }

  ghost predicate NearOne(list: seq<L.Id>, g: L.Graph, u: L.Id) {
    Distinct(list) && forall v :: v in list <==> Adjacent(g, u, v)
  }

  /** Each node lists every node that it shares an edge with, once. */
  ghost predicate Near(near: Neighbours, g: L.Graph) {
    near.Keys == g.nodes && forall u :: u in near ==> NearOne(near[u], g, u)
  }

  function Listing(list: seq<L.Id>, v: L.Id): seq<L.Id> {
    list + [v]
  }

  lemma ListingMore(list: seq<L.Id>, v: L.Id)
    requires Distinct(list) && v !in list
    ensures Distinct(Listing(list, v)) && forall w :: w in Listing(list, v) <==> w in list || w == v
  {
  }

  lemma NearMore(near: Neighbours, g: L.Graph, h: L.Graph, a: L.Id, b: L.Id)
    requires Near(near, g) && L.Extends(g, h, a, b) && a != b
    ensures a in near && b in near && (b in near[a] <==> a in near[b])
    ensures Near(if b in near[a] then near else near[a := Listing(near[a], b)][b := Listing(near[b], a)], h)
  {
    assert NearOne(near[a], g, a) && NearOne(near[b], g, b);
    var after := if b in near[a] then near else near[a := Listing(near[a], b)][b := Listing(near[b], a)];
    assert b in near[a] <==> Adjacent(g, a, b);
    if b !in near[a] {
      ListingMore(near[a], b);
      ListingMore(near[b], a);
    }
    hide Adjacent, Listing, L.Extends;
    forall u | u in after ensures NearOne(after[u], h, u) {
      assert NearOne(near[u], g, u);
      forall v ensures v in after[u] <==> Adjacent(h, u, v) { AdjacentMore(g, h, a, b, u, v); }
    }
  }

  lemma AdjacentMore(g: L.Graph, h: L.Graph, a: L.Id, b: L.Id, u: L.Id, v: L.Id)
    requires L.Extends(g, h, a, b)
    ensures Adjacent(h, u, v) <==> Adjacent(g, u, v) || (u == a && v == b) || (u == b && v == a)
  {
    hide L.IsEdge;
    L.EdgesGrow(g, h, a, b, u, v);
    L.EdgesGrow(g, h, a, b, v, u);
  }

  lemma NothingRecorded(net: Net, names: Naming)
    requires WellWired(net) && Named(net, names)
    ensures Records(net, names, {}, [])
  {
    forall n | n in net.nodes ensures E.Ends([])[names.text[n]] == |Touching(net, {}, n)| { assert Touching(net, {}, n) == {}; }
  }

  lemma NoEdges(net: Net, names: Naming, g: L.Graph)
    requires Named(net, names)
    requires g == L.Graph(names.rank.Values, map v | v in names.rank.Values :: [], map v | v in names.rank.Values :: [], map v | v in names.rank.Values :: 0)
    ensures Edges(net, names, {}, g)
  {
    assert L.Arcs(g) == {};
    forall v ensures L.Into(g, v) == {} {}
  }

  lemma NothingNear(g: L.Graph)
    requires forall v :: v in g.adjList ==> g.adjList[v] == []
    ensures Near(map v | v in g.nodes :: [], g)
  {
    forall u | u in g.nodes ensures NearOne([], g, u) {
      forall v ensures !Adjacent(g, u, v) { assert L.Succ(g, u) == [] && L.Succ(g, v) == []; }
    }
  }

  lemma NothingProjected(net: Net, names: Naming, g: L.Graph)
    requires WellWired(net) && Named(net, names)
    requires g == L.Graph(names.rank.Values, map v | v in names.rank.Values :: [], map v | v in names.rank.Values :: [], map v | v in names.rank.Values :: 0)
    ensures Projected(net, names, {}, g, [], map v | v in names.text.Values :: 0, map v | v in names.text.Values :: 0, [])
  {
    hide Records, Edges, WellWired, Named;
    NothingRecorded(net, names);
    NoEdges(net, names, g);
  }

  /** Records one wire from its smaller end, in every view. */
  method AddWire(net: Net, names: Naming, p: Port, ghost seen: set<Port>, g0: L.Graph, near0: Neighbours, records0: seq<E.Record>,
                 ins0: map<Name, int>, outs0: map<Name, int>, types0: seq<E.EdgeType>)
    returns (g: L.Graph, near: Neighbours, records: seq<E.Record>, ins: map<Name, int>, outs: map<Name, int>, types: seq<E.EdgeType>)
    requires WellWired(net) && Named(net, names) && Forwards(net, names, p) && p !in seen
    requires Projected(net, names, seen, g0, records0, ins0, outs0, types0) && Near(near0, g0)
    ensures Projected(net, names, seen + {p}, g, records, ins, outs, types) && Near(near, g)
  {
    hide WellWired, E.Views, Records, L.WellFormed, L.IsEdge, Near;
    FarEnd(net, names, p);
    var q, r := net.wires[p], RecordOf(net, names, p);
    var a, b := names.rank[p.owner], names.rank[q.owner];
    RecordMore(net, names, seen, records0, p);
    E.ViewsMore(names.text.Values, records0, ins0, outs0, types0, r);
    records, types := records0 + [r], types0 + [E.EdgeType(r.edge, r.srcType, r.dstType)];
    outs, ins := outs0[r.src := outs0[r.src] + 1], ins0[r.dst := ins0[r.dst] + 1];
    g := L.Graph(g0.nodes, g0.adjList[a := g0.adjList[a] + [b]], g0.reverseAdj[b := g0.reverseAdj[b] + [a]], g0.inDegrees[b := g0.inDegrees[b] + 1]);
    EdgeMore(net, names, seen, g0, g, p);
    NearMore(near0, g0, g, a, b);
    NearKeys(near0, g0);
    near := near0;
    if b !in near[a] {
      near := near[a := Listing(near[a], b)];
      near := near[b := Listing(near[b], a)];
    }
  }

  lemma NearKeys(near: Neighbours, g: L.Graph)
    requires Near(near, g)
    ensures near.Keys == g.nodes
  {
  }

  /** The wires whose smaller end is on one of the listed nodes. */
  function From(net: Net, names: Naming, nodes: seq<NodeId>): set<Port> {
    set p | p in net.wires && p.owner in nodes && Forwards(net, names, p)
  }

  function FromNode(net: Net, names: Naming, n: NodeId, k: nat): set<Port> {
    set p | p in net.wires && p.owner == n && p.index < k && Forwards(net, names, p)
  }

  /** The ports of one node. */
  method ScanNode(net: Net, names: Naming, n: NodeId, ghost seen: set<Port>, g0: L.Graph, near0: Neighbours, records0: seq<E.Record>,
                  ins0: map<Name, int>, outs0: map<Name, int>, types0: seq<E.EdgeType>)
    returns (g: L.Graph, near: Neighbours, records: seq<E.Record>, ins: map<Name, int>, outs: map<Name, int>, types: seq<E.EdgeType>)
    requires WellWired(net) && Named(net, names) && n in net.nodes && forall p :: p in seen ==> p.owner != n
    requires Projected(net, names, seen, g0, records0, ins0, outs0, types0) && Near(near0, g0)
    ensures Projected(net, names, seen + FromNode(net, names, n, |net.nodes[n].aux| + 1), g, records, ins, outs, types) && Near(near, g)
  {
    hide WellWired, Projected, Near;
    g, near, records, ins, outs, types := g0, near0, records0, ins0, outs0, types0;
    assert seen + FromNode(net, names, n, 0) == seen;
    for k := 0 to |net.nodes[n].aux| + 1
      invariant Projected(net, names, seen + FromNode(net, names, n, k), g, records, ins, outs, types) && Near(near, g)
    {
      var p := Port(n, k);
      NextPort(net, names, seen, n, k);
      if p in net.wires {
        WiredInside(net, p);
        var other := net.wires[p].owner;
        assert Forwards(net, names, p) <==> names.rank[n].rank < names.rank[other].rank;
        if other != n && !(names.rank[other].rank < names.rank[n].rank) {
          RanksApart(net, names, n, other);
          g, near, records, ins, outs, types := AddWire(net, names, p, seen + FromNode(net, names, n, k), g, near, records, ins, outs, types);
        }
      }
    }
  }

  lemma WiredInside(net: Net, p: Port)
    requires WellWired(net) && p in net.wires
    ensures net.wires[p].owner in net.nodes
  {
  }

  lemma RanksApart(net: Net, names: Naming, a: NodeId, b: NodeId)
    requires Named(net, names) && a in net.nodes && b in net.nodes && a != b
    ensures names.rank[a].rank != names.rank[b].rank
  {
    assert names.rank[a] != names.rank[b];
  }

  lemma NextPort(net: Net, names: Naming, seen: set<Port>, n: NodeId, k: nat)
    requires forall p :: p in seen ==> p.owner != n
    ensures var p := Port(n, k);
            && p !in seen + FromNode(net, names, n, k)
            && seen + FromNode(net, names, n, k + 1)
               == if Forwards(net, names, p) then seen + FromNode(net, names, n, k) + {p} else seen + FromNode(net, names, n, k)
  {
    hide Forwards;
    var p := Port(n, k);
    forall x ensures x in FromNode(net, names, n, k + 1) <==> x in FromNode(net, names, n, k) || (x == p && Forwards(net, names, p)) {
      if x.owner == n && x.index == k { assert x == p; }
      ForwardsWired(net, names, x);
    }
  }

  lemma ForwardsWired(net: Net, names: Naming, p: Port)
    ensures Forwards(net, names, p) ==> p in net.wires
  {
  }

  // ----- the projection -----

  ghost predicate NoSelfWire(net: Net) {
    forall p :: p in net.wires ==> net.wires[p].owner != p.owner
  }

  ghost predicate WiresUnifiable(net: Net)
    requires WellWired(net)
  {
    forall p :: p in net.wires && net.wires[p].owner != p.owner ==> Unifiable(TypeAt(net.nodes, p), TypeAt(net.nodes, net.wires[p]))
  }

  /** from_hin_network: the edges run upwards, one for each wire between two nodes. */
  method FromHinNetwork(net: Net, order: seq<NodeId>, names: Naming)
    returns (g: L.Graph, near: Neighbours, arity: map<Name, int>, records: seq<E.Record>, ins: map<Name, int>, outs: map<Name, int>, types: seq<E.EdgeType>)
    requires WellWired(net) && Named(net, names)
    requires (forall n :: n in order <==> n in net.nodes) && forall i, j :: 0 <= i < j < |order| ==> order[i] != order[j]
    ensures Projected(net, names, From(net, names, order), g, records, ins, outs, types) && Near(near, g)
    ensures arity.Keys == names.text.Values && forall n :: n in net.nodes ==> arity[names.text[n]] == |net.nodes[n].aux| + 1
  {
    hide WellWired, Projected, Named, Near;
    g := L.Graph(names.rank.Values, map v | v in names.rank.Values :: [], map v | v in names.rank.Values :: [], map v | v in names.rank.Values :: 0);
    records, types := [], [];
    ins, outs := map v | v in names.text.Values :: 0, map v | v in names.text.Values :: 0;
    NothingProjected(net, names, g);
    near := map v | v in g.nodes :: [];
    NothingNear(g);
    assert From(net, names, order[..0]) == {};
    for i := 0 to |order|
      invariant Projected(net, names, From(net, names, order[..i]), g, records, ins, outs, types) && Near(near, g)
    {
      NextNode(net, names, order, i);
      g, near, records, ins, outs, types := ScanNode(net, names, order[i], From(net, names, order[..i]), g, near, records, ins, outs, types);
    }
    assert order[..|order|] == order;
    arity := Arities(net, order, names);
  }

  lemma NextNode(net: Net, names: Naming, order: seq<NodeId>, i: nat)
    requires WellWired(net) && i < |order| && order[i] in net.nodes && forall j, k :: 0 <= j < k < |order| ==> order[j] != order[k]
    ensures forall p :: p in From(net, names, order[..i]) ==> p.owner != order[i]
    ensures From(net, names, order[..i + 1]) == From(net, names, order[..i]) + FromNode(net, names, order[i], |net.nodes[order[i]].aux| + 1)
  {
    assert order[..i + 1] == order[..i] + [order[i]];
  }

  method Arities(net: Net, order: seq<NodeId>, names: Naming) returns (arity: map<Name, int>)
    requires Named(net, names) && forall n :: n in order <==> n in net.nodes
    ensures arity.Keys == names.text.Values && forall n :: n in net.nodes ==> arity[names.text[n]] == |net.nodes[n].aux| + 1
  {
    arity := map[];
    for i := 0 to |order|
      invariant arity.Keys <= names.text.Values && forall j :: 0 <= j < i ==> names.text[order[j]] in arity
      invariant forall j :: 0 <= j < i ==> arity[names.text[order[j]]] == |net.nodes[order[j]].aux| + 1
    {
      assert order[i] in order;
      arity := arity[names.text[order[i]] := |net.nodes[order[i]].aux| + 1];
    }
    forall n | n in net.nodes ensures names.text[n] in arity && arity[names.text[n]] == |net.nodes[n].aux| + 1 {
      var j :| 0 <= j < |order| && order[j] == n;
    }
  }

  /** A projected graph has no cycle: it can always be scheduled. */
  lemma ProjectionAcyclic(net: Net, names: Naming, seen: set<Port>, g: L.Graph)
    requires Named(net, names) && Edges(net, names, seen, g)
    ensures L.WellFormed(g) && L.Acyclic(g)
  {
    var r: map<L.Id, int> := map v | v in g.nodes :: v.rank;
    assert L.Ranks(g, r);
  }

  lemma AllTouching(net: Net, names: Naming, order: seq<NodeId>, n: NodeId)
    requires WellWired(net) && Named(net, names) && n in net.nodes && forall v :: v in order <==> v in net.nodes
    ensures Touching(net, From(net, names, order), n) == Outward(net, n)
  {
    forall q | q in net.wires && q.owner == n ensures q in Touching(net, From(net, names, order), n) <==> q in Outward(net, n) {
      var p := net.wires[q];
      assert p in net.wires && net.wires[p] == q && p.owner in net.nodes;
      if p.owner != n { RanksApart(net, names, n, p.owner); }
    }
  }

  /** All ports of a node are wired to other nodes exactly when as many are as it has. */
  lemma FullyWired(net: Net, n: NodeId)
    requires WellWired(net) && n in net.nodes
    ensures |Outward(net, n)| == |net.nodes[n].aux| + 1 <==> forall i: nat :: i <= |net.nodes[n].aux| ==> Port(n, i) in net.wires && net.wires[Port(n, i)].owner != n
  {
    var ports := M.NodePorts(n, net.nodes[n]);
    M.NodePortCount(n, net.nodes[n]);
    assert Outward(net, n) <= ports;
    if |Outward(net, n)| == |net.nodes[n].aux| + 1 {
      assert |ports - Outward(net, n)| == 0;
      forall i: nat | i <= |net.nodes[n].aux| ensures Port(n, i) in Outward(net, n) { assert Port(n, i) !in ports - Outward(net, n); }
    }
    if forall i: nat :: i <= |net.nodes[n].aux| ==> Port(n, i) in net.wires && net.wires[Port(n, i)].owner != n {
      assert Outward(net, n) == ports;
    }
  }

  /** The projection passes edge conservation exactly when every port is wired to another node and
      every wire is unifiable: a free port or a wire from a node to itself breaks the arity check. */
  lemma ConservedProjection(net: Net, order: seq<NodeId>, names: Naming, arity: map<Name, int>, records: seq<E.Record>)
    requires WellWired(net) && Named(net, names) && forall v :: v in order <==> v in net.nodes
    requires Records(net, names, From(net, names, order), records)
    requires arity.Keys == names.text.Values && forall n :: n in net.nodes ==> arity[names.text[n]] == |net.nodes[n].aux| + 1
    ensures E.Conserved(names.text.Values, arity, records) <==> Closed(net) && NoSelfWire(net) && WiresUnifiable(net)
  {
    hide E.Ends, Records;
    DegreesDecide(net, order, names, arity, records);
    TypesDecide(net, order, names, records);
  }

  lemma DegreesDecide(net: Net, order: seq<NodeId>, names: Naming, arity: map<Name, int>, records: seq<E.Record>)
    requires WellWired(net) && Named(net, names) && forall v :: v in order <==> v in net.nodes
    requires Records(net, names, From(net, names, order), records)
    requires arity.Keys == names.text.Values && forall n :: n in net.nodes ==> arity[names.text[n]] == |net.nodes[n].aux| + 1
    ensures (forall v :: v in names.text.Values ==> E.At(arity, v) == E.Ends(records)[v]) <==> Closed(net) && NoSelfWire(net)
  {
    hide E.Ends, Touching, From, WellWired, Injective;
    forall n | n in net.nodes ensures NodeDecides(net, names, arity, records, n) {
      AllTouching(net, names, order, n);
      FullyWired(net, n);
      DecideOne(net, order, names, arity, records, n);
    }
    Gather(net, names, arity, records);
  }

  /** The arity of a node matches its degree exactly when all its ports are wired to other nodes. */
  ghost predicate NodeDecides(net: Net, names: Naming, arity: map<Name, int>, records: seq<E.Record>, n: NodeId)
    requires Named(net, names) && n in net.nodes
  {
    E.At(arity, names.text[n]) == E.Ends(records)[names.text[n]]
    <==> forall i: nat :: i <= |net.nodes[n].aux| ==> Port(n, i) in net.wires && net.wires[Port(n, i)].owner != n
  }

  lemma DecideOne(net: Net, order: seq<NodeId>, names: Naming, arity: map<Name, int>, records: seq<E.Record>, n: NodeId)
    requires WellWired(net) && Named(net, names) && n in net.nodes && Records(net, names, From(net, names, order), records)
    requires Touching(net, From(net, names, order), n) == Outward(net, n)
    requires names.text[n] in arity && arity[names.text[n]] == |net.nodes[n].aux| + 1
    requires |Outward(net, n)| == |net.nodes[n].aux| + 1 <==> forall i: nat :: i <= |net.nodes[n].aux| ==> Port(n, i) in net.wires && net.wires[Port(n, i)].owner != n
    ensures NodeDecides(net, names, arity, records, n)
  {
    hide E.Ends, Touching, From, WellWired, Outward;
  }

  lemma Gather(net: Net, names: Naming, arity: map<Name, int>, records: seq<E.Record>)
    requires WellWired(net) && Named(net, names) && forall n :: n in net.nodes ==> NodeDecides(net, names, arity, records, n)
    ensures (forall v :: v in names.text.Values ==> E.At(arity, v) == E.Ends(records)[v]) <==> Closed(net) && NoSelfWire(net)
  {
    hide E.Ends, E.At;
    if forall v :: v in names.text.Values ==> E.At(arity, v) == E.Ends(records)[v] {
      forall p | Live(net.nodes, p) ensures p in net.wires && net.wires[p].owner != p.owner {
        assert NodeDecides(net, names, arity, records, p.owner) && names.text[p.owner] in names.text.Values && p == Port(p.owner, p.index);
      }
    }
    if Closed(net) && NoSelfWire(net) {
      forall v | v in names.text.Values ensures E.At(arity, v) == E.Ends(records)[v] {
        var n :| n in names.text && names.text[n] == v;
        forall i: nat | i <= |net.nodes[n].aux| ensures Port(n, i) in net.wires && net.wires[Port(n, i)].owner != n { assert Live(net.nodes, Port(n, i)); }
        assert NodeDecides(net, names, arity, records, n);
      }
    }
  }

  lemma TypesDecide(net: Net, order: seq<NodeId>, names: Naming, records: seq<E.Record>)
    requires WellWired(net) && Named(net, names) && forall v :: v in order <==> v in net.nodes
    requires Records(net, names, From(net, names, order), records)
    ensures (forall r :: r in records ==> E.Compatible(r.srcType, r.dstType)) <==> WiresUnifiable(net)
  {
    hide E.Ends, Unifiable;
    if WiresUnifiable(net) {
      forall r | r in records ensures E.Compatible(r.srcType, r.dstType) {
        var p :| p in From(net, names, order) && p in net.wires && r == RecordOf(net, names, p);
        FarEnd(net, names, p);
      }
    }
    if forall r :: r in records ==> E.Compatible(r.srcType, r.dstType) {
      forall p | p in net.wires && net.wires[p].owner != p.owner ensures Unifiable(TypeAt(net.nodes, p), TypeAt(net.nodes, net.wires[p])) {
        var q := net.wires[p];
        WiredInside(net, p);
        WiredInside(net, q);
        RanksApart(net, names, p.owner, q.owner);
        if Forwards(net, names, p) {
          assert p in From(net, names, order) && RecordOf(net, names, p) in records;
        } else {
          assert q in From(net, names, order) && RecordOf(net, names, q) in records;
          UnifiableSymmetric(TypeAt(net.nodes, p), TypeAt(net.nodes, q));
        }
      }
    }
  }

  // ----- what the labels say -----

  /** Owner and port, as they stand in a label. */
  function Spelt(names: Naming, p: Port): string
    requires p.owner in names.text
  {
    names.text[p.owner] + ":" + PortName(p.index)
  }

  /** A label spells the owner and the port of either end; principal ports are called p, the others a_1, a_2 and so on. */
  lemma LabelSpells(names: Naming, m: NodeId, n: NodeId, j: nat, k: nat)
    requires m in names.text && n in names.text && j > 0 && k > 0
    ensures Label(names, Port(m, 0), Port(n, 0)) == names.text[m] + ":p->" + names.text[n] + ":p"
    ensures Label(names, Port(m, 0), Port(n, k)) == names.text[m] + ":p->" + names.text[n] + ":a_" + Decimal(k)
    ensures Label(names, Port(m, j), Port(n, 0)) == names.text[m] + ":a_" + Decimal(j) + "->" + names.text[n] + ":p"
    ensures Label(names, Port(m, j), Port(n, k)) == names.text[m] + ":a_" + Decimal(j) + "->" + names.text[n] + ":a_" + Decimal(k)
  {
    hide Decimal;
    assert ":" + "p" + "->" == ":p->" && ":" + "p" == ":p";
    assert ":" + ("a_" + Decimal(j)) == ":a_" + Decimal(j) && ":" + ("a_" + Decimal(k)) == ":a_" + Decimal(k);
  }

  lemma {:induction false} DecimalPlain(n: nat)
    ensures forall c :: c in Decimal(n) ==> c in "0123456789"
  {
    if n >= 10 { DecimalPlain(n / 10); }
  }

  lemma PortNamePlain(k: nat)
    ensures ':' !in PortName(k) && '-' !in PortName(k) && '>' !in PortName(k)
  {
    hide Decimal;
    DecimalPlain(k);
  }

  lemma NoneAfter(u: string, a: string, mark: char, w: string)
    requires mark !in a && w == u + [mark] + a
    ensures forall i :: |u| < i < |w| ==> w[i] != mark
  {
    forall i | |u| < i < |w| ensures w[i] != mark { assert w[i] == a[i - |u| - 1]; }
  }

  /** Texts split alike at their last mark. */
  lemma LastMark(u: string, a: string, v: string, b: string, mark: char)
    requires u + [mark] + a == v + [mark] + b && mark !in a && mark !in b
    ensures u == v && a == b
  {
    var w := u + [mark] + a;
    assert w[|u|] == mark && w[|v|] == mark;
    NoneAfter(u, a, mark, w);
    NoneAfter(v, b, mark, w);
    assert u == w[..|u|] && v == w[..|v|] && a == w[|u| + 1..] && b == w[|v| + 1..];
  }

  lemma NoneBefore(u: string, a: string, mark: char, w: string)
    requires mark !in u && w == u + [mark] + a
    ensures forall i :: 0 <= i < |u| ==> w[i] != mark
  {
    forall i | 0 <= i < |u| ensures w[i] != mark { assert w[i] == u[i]; }
  }

  /** And at their first. */
  lemma FirstMark(u: string, a: string, v: string, b: string, mark: char)
    requires u + [mark] + a == v + [mark] + b && mark !in u && mark !in v
    ensures u == v && a == b
  {
    var w := u + [mark] + a;
    assert w[|u|] == mark && w[|v|] == mark;
    NoneBefore(u, a, mark, w);
    NoneBefore(v, b, mark, w);
    assert u == w[..|u|] && v == w[..|v|] && a == w[|u| + 1..] && b == w[|v| + 1..];
  }

  /** The text before the second end's owner. */
  function Head(a: string, i: string): string {
    a + ":" + i + "->"
  }

  lemma ColonInHead(a: string, i: string, at: nat)
    requires |a| < at < |Head(a, i)| && Head(a, i)[at] == ':'
    ensures ':' in i
  {
    var k := at - |a| - 1;
    assert Head(a, i)[at] == (i + "->")[k];
    assert k < |i| ==> (i + "->")[k] == i[k];
  }

  /** Two heads are the same, or the second owner's name contains the first head. */
  lemma HeadsMeet(a: string, i: string, b: string, c: string, k: string, d: string)
    requires Head(a, i) + b == Head(c, k) + d && |a| <= |c| && ':' !in i && ':' !in k && '-' !in i && '-' !in k
    ensures (a == c && i == k && b == d) || (Head(a, i) <= c && b == Head(c[|Head(a, i)|..], k) + d)
  {
    var w, h := Head(a, i) + b, Head(a, i);
    assert a == w[..|a|] && c == w[..|c|];
    if |a| == |c| {
      assert w[|a| + 1..] == i + "->" + b && w[|a| + 1..] == k + "->" + d;
      assert "->" == ['-'] + ">";
      assert i + "->" + b == i + ['-'] + (">" + b) && k + "->" + d == k + ['-'] + (">" + d);
      FirstMark(i, ">" + b, k, ">" + d, '-');
      assert b == (">" + b)[1..] && d == (">" + d)[1..];
    } else {
      assert w[|c|] == ':';
      if |c| < |h| {
        assert h[|c|] == w[|c|];
        ColonInHead(a, i, |c|);
      }
      if |h| <= |c| { RestOfHead(h, b, c, k, d); }
    }
  }

  lemma RestOfHead(h: string, b: string, c: string, k: string, d: string)
    requires h + b == Head(c, k) + d && |h| <= |c|
    ensures h <= c && b == Head(c[|h|..], k) + d
  {
    var w := h + b;
    assert c == w[..|c|] && h == w[..|h|] && b == w[|h|..];
    assert c == h + c[|h|..];
    assert Head(c, k) == h + Head(c[|h|..], k);
  }

  /** The first wire's label read with the second's smaller end inside its names: that end's owner is called after the
      first wire's own end, and the first wire's larger end after the second's wire. */
  predicate Nested(names: Naming, p: Port, q: Port, r: Port, t: Port)
    requires p.owner in names.text && q.owner in names.text && r.owner in names.text && t.owner in names.text
  {
    var h := Spelt(names, p) + "->";
    && h <= names.text[r.owner] && q.index == t.index
    && names.text[q.owner] == names.text[r.owner][|h|..] + ":" + PortName(r.index) + "->" + names.text[t.owner]
  }

  /** Two wires have one label exactly when they are the same, or one is nested in the other's names. */
  lemma LabelsExactly(names: Naming, p: Port, q: Port, r: Port, t: Port)
    requires p.owner in names.text && q.owner in names.text && r.owner in names.text && t.owner in names.text && Injective(names.text)
    ensures Label(names, p, q) == Label(names, r, t) <==> (p == r && q == t) || Nested(names, p, q, r, t) || Nested(names, r, t, p, q)
  {
    if Label(names, p, q) == Label(names, r, t) { LabelsMeet(names, p, q, r, t); }
    if Nested(names, p, q, r, t) { NestedMeets(names, p, q, r, t); }
    if Nested(names, r, t, p, q) { NestedMeets(names, r, t, p, q); }
  }

  lemma LabelIs(names: Naming, p: Port, q: Port)
    requires p.owner in names.text && q.owner in names.text
    ensures Label(names, p, q) == Head(names.text[p.owner], PortName(p.index)) + names.text[q.owner] + [':'] + PortName(q.index)
  {
    hide PortName;
  }

  lemma LabelsMeet(names: Naming, p: Port, q: Port, r: Port, t: Port)
    requires p.owner in names.text && q.owner in names.text && r.owner in names.text && t.owner in names.text && Injective(names.text)
    requires Label(names, p, q) == Label(names, r, t)
    ensures (p == r && q == t) || Nested(names, p, q, r, t) || Nested(names, r, t, p, q)
  {
    hide Label, PortName, Injective;
    var a, b, c, d := names.text[p.owner], names.text[q.owner], names.text[r.owner], names.text[t.owner];
    var i, j, k, l := PortName(p.index), PortName(q.index), PortName(r.index), PortName(t.index);
    LabelIs(names, p, q);
    LabelIs(names, r, t);
    PortNamePlain(p.index);
    PortNamePlain(q.index);
    PortNamePlain(r.index);
    PortNamePlain(t.index);
    LastMark(Head(a, i) + b, j, Head(c, k) + d, l, ':');
    PortNamesApart(q.index, t.index);
    if |a| <= |c| { HeadsMeet(a, i, b, c, k, d); } else { HeadsMeet(c, k, d, a, i, b); }
    if a == c && i == k && b == d {
      PortNamesApart(p.index, r.index);
      SameText(names, p.owner, r.owner);
      SameText(names, q.owner, t.owner);
    }
  }

  lemma SameText(names: Naming, m: NodeId, n: NodeId)
    requires Injective(names.text) && m in names.text && n in names.text && names.text[m] == names.text[n]
    ensures m == n
  {
  }

  lemma NestedMeets(names: Naming, p: Port, q: Port, r: Port, t: Port)
    requires p.owner in names.text && q.owner in names.text && r.owner in names.text && t.owner in names.text && Nested(names, p, q, r, t)
    ensures Label(names, p, q) == Label(names, r, t)
  {
    hide PortName;
    var h, c := Spelt(names, p) + "->", names.text[r.owner];
    assert c == h + c[|h|..];
    assert Label(names, p, q) == h + (names.text[q.owner] + (":" + PortName(q.index)));
    assert names.text[q.owner] + (":" + PortName(q.index)) == c[|h|..] + (":" + PortName(r.index) + "->" + names.text[t.owner] + (":" + PortName(t.index)));
    assert Label(names, r, t) == c + (":" + PortName(r.index) + "->" + names.text[t.owner] + (":" + PortName(t.index)));
  }

  /** So labels tell wires apart whenever no node's name contains the arrow's head. */
  lemma LabelsApart(names: Naming, p: Port, q: Port, r: Port, t: Port)
    requires p.owner in names.text && q.owner in names.text && r.owner in names.text && t.owner in names.text && Injective(names.text)
    requires forall n :: n in names.text ==> '>' !in names.text[n]
    ensures Label(names, p, q) == Label(names, r, t) <==> p == r && q == t
  {
    hide Label, PortName;
    LabelsExactly(names, p, q, r, t);
    ArrowIn(names, p, r);
    ArrowIn(names, r, p);
  }

  lemma ArrowIn(names: Naming, p: Port, r: Port)
    requires p.owner in names.text && r.owner in names.text && '>' !in names.text[r.owner]
    ensures !(Spelt(names, p) + "->" <= names.text[r.owner])
  {
    var h, c := Spelt(names, p) + "->", names.text[r.owner];
    assert h[|h| - 1] == '>';
    if h <= c { InPrefix(h, c, '>'); }
  }

  lemma InPrefix(h: string, c: string, x: char)
    requires h <= c && x in h
    ensures x in c
  {
  }

  /** Four nodes whose names make two wires look the same. */
  lemma LabelsCollide(names: Naming, a: NodeId, b: NodeId, c: NodeId, d: NodeId)
    requires names.text == map[a := "a", b := "b:p->c", c := "a:p->b", d := "c"]
    requires a != b && a != c && a != d && b != c && b != d && c != d
    ensures Label(names, P(a), P(b)) == Label(names, P(c), P(d))
  {
  }
}
