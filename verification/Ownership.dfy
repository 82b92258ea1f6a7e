/** Linear port ownership: while a program is being compiled, each free port of the
    net under construction is owned exactly once, by a scope entry or by whoever
    is building. The compiler's every move is one of the transfers below. */
module Ownership {
  import opened Collections
  import opened MellTypes
  import opened Wiring
  import opened Nets
  import opened Measure
  import opened Polarity
  import opened Machine
  import opened Dataflow
  import opened Places
  import opened Seats
  import Nesting

  type Frame = map<string, Port>

  ghost predicate InScope(scopes: seq<Frame>, p: Port) {
    exists i, n :: 0 <= i < |scopes| && n in scopes[i] && scopes[i][n] == p
  }

  /** No port is reachable under two names. */
  ghost predicate Unshared(scopes: seq<Frame>) {
    forall i, n, j, m ::
      (0 <= i < |scopes| && n in scopes[i] && 0 <= j < |scopes| && m in scopes[j] && scopes[i][n] == scopes[j][m])
      ==> i == j && n == m
  }

  /** The free ports are those in scope and those pending, and no port is both. */
  ghost predicate Owned(net: Net, scopes: seq<Frame>, pending: set<Port>) {
    && Unshared(scopes)
    && (forall p :: Live(net.nodes, p) && p !in net.wires <==> InScope(scopes, p) || p in pending)
    && (forall p :: InScope(scopes, p) ==> p !in pending)
  }

  predicate Offers(nodes: NodeMap, p: Port)
    requires p.owner in nodes
  {
    FlowOf(nodes[p.owner].kind, p.index) == Out
  }

  /** Data flows from p to q, at their seats. */
  ghost predicate HalfFlows(nodes: NodeMap, f: Plan, p: Port, q: Port) {
    && p.owner in nodes && q.owner in nodes && p.owner in f.at && q.owner in f.at
    && FlowOf(nodes[p.owner].kind, p.index) == Out && FlowOf(nodes[q.owner].kind, q.index) == In
    && Before(SpotAt(nodes, f.at, p), SpotAt(nodes, f.at, q))
  }

  /** An eraser takes an output of a first-order net; elsewhere it may also cap an input. */
  ghost predicate CapFlows(nodes: NodeMap, f: Plan, p: Port, q: Port) {
    && p.owner in nodes && q.owner in nodes && nodes[q.owner].kind == Eraser
    && (f.firstOrder ==> Emits(nodes, p))
  }

  ghost predicate WireFlows(nodes: NodeMap, f: Plan, p: Port, q: Port) {
    HalfFlows(nodes, f, p, q) || CapFlows(nodes, f, p, q)
  }

  ghost predicate AllFlow(net: Net, f: Plan) {
    forall p :: p in net.wires ==> WireFlows(net.nodes, f, p, net.wires[p]) || WireFlows(net.nodes, f, net.wires[p], p)
  }

  ghost predicate FlowsSoFar(net: Net, f: Plan) {
    && AllSeated(net.nodes, f) && AllFlow(net, f)
    && (f.firstOrder ==> forall n :: n in net.nodes ==> net.nodes[n].kind in FLOW_KINDS)
  }

  /** An output that may be used in the closure at depth i of those being compiled. */
  ghost predicate Available(vm: Vm, f: Plan, i: nat, p: Port) {
    && p.owner in vm.nodes && p.owner in f.at && Offers(vm.nodes, p)
    && i <= |f.open| && Clear(SpotAt(vm.nodes, f.at, p), Edge(f, vm.serial)[..i + 1])
  }

  ghost predicate AllAvailable(vm: Vm, scopes: seq<Frame>, f: Plan) {
    forall i, n :: 0 <= i < |scopes| && n in scopes[i] ==> Available(vm, f, i, scopes[i][n])
  }

  /** What the compiler keeps. */
  ghost predicate Building(vm: Vm, scopes: seq<Frame>, pending: set<Port>, f: Plan) {
    && Consistent(vm) && Polarised(View(vm))
    && Owned(View(vm), scopes, pending)
    && |scopes| <= |f.open| + 1 && AllAvailable(vm, scopes, f)
    && FlowsSoFar(View(vm), f)
  }

  /** A port that a builder may hand on: pending, an output, and of a node before the edge. */
  ghost predicate Ready(vm: Vm, pending: set<Port>, f: Plan, p: Port) {
    p in pending && Available(vm, f, |f.open|, p)
  }

  /** The same closures, calls and switches are being compiled, and the nodes have their seats. */
  ghost predicate Onward(vm: Vm, f: Plan, after: Vm, g: Plan) {
    && g.open == f.open && g.stem == f.stem && vm.serial <= after.serial
    && (forall n :: n in f.at ==> n in g.at && g.at[n] == f.at[n])
    && (forall n :: n in vm.nodes ==> n in after.nodes && after.nodes[n] == vm.nodes[n])
  }

  lemma StillAvailable(vm: Vm, f: Plan, after: Vm, g: Plan, i: nat, p: Port)
    requires Available(vm, f, i, p) && Onward(vm, f, after, g)
    ensures Available(after, g, i, p)
  {
    hide Clear;
    EdgeGrows(f, vm.serial, after.serial, SpotAt(vm.nodes, f.at, p), i);
  }

  lemma StillReady(vm: Vm, pending: set<Port>, f: Plan, after: Vm, more: set<Port>, g: Plan, p: Port)
    requires Ready(vm, pending, f, p) && Onward(vm, f, after, g) && p in more
    ensures Ready(after, more, g, p)
  {
    StillAvailable(vm, f, after, g, |f.open|, p);
  }

  // ----- a new node: all its ports are pending -----

  function WithNode(vm: Vm, id: NodeId, x: Node): Vm {
    vm.(nodes := vm.nodes[id := x], serial := vm.serial + 1)
  }

  lemma AddConsistent(vm: Vm, id: NodeId, x: Node)
    requires Consistent(vm) && id == Gensym(x.kind, vm.serial) && |x.aux| == Arity(x.kind)
    ensures Consistent(WithNode(vm, id, x)) && View(WithNode(vm, id, x)).wires == View(vm).wires
  {
    var after := WithNode(vm, id, x);
    assert View(after).wires == View(vm).wires;
  }

  lemma AddOwned(vm: Vm, scopes: seq<Frame>, pending: set<Port>, f: Plan, id: NodeId, x: Node)
    requires Building(vm, scopes, pending, f) && id == Gensym(x.kind, vm.serial) && |x.aux| == Arity(x.kind)
    ensures Owned(View(WithNode(vm, id, x)), scopes, pending + NodePorts(id, x))
  {
    AddConsistent(vm, id, x);
    var before, after := View(vm), View(WithNode(vm, id, x));
    forall p ensures Live(after.nodes, p) && p !in after.wires <==> InScope(scopes, p) || p in pending + NodePorts(id, x) {
      assert Live(before.nodes, p) && p !in before.wires <==> InScope(scopes, p) || p in pending;
      if p.owner == id { assert p !in vm.target; }
    }
    forall p | InScope(scopes, p) ensures p !in pending + NodePorts(id, x) {
      assert Live(before.nodes, p);
    }
  }

  lemma PendingLive(vm: Vm, scopes: seq<Frame>, pending: set<Port>, f: Plan, p: Port)
    requires Building(vm, scopes, pending, f) && p in pending
    ensures Live(vm.nodes, p) && p !in vm.target
  {
    assert Live(vm.nodes, p) && p !in View(vm).wires;
  }

  /** The source of a fork. */
  ghost predicate ForkSource(vm: Vm, f: Plan, k: Kind, src: Port) {
    k == Duplicator ==> src.owner in vm.nodes && src.owner in f.at
  }

  function SourceAt(vm: Vm, f: Plan, src: Port): Place {
    if src.owner in vm.nodes && src.owner in f.at then SpotAt(vm.nodes, f.at, src) else []
  }

  lemma SourceEnclosed(vm: Vm, f: Plan, src: Port)
    requires AllSeated(vm.nodes, f) && src.owner in vm.nodes && src.owner in f.at
    ensures var s := SourceAt(vm, f, src); s != [] && Enclosed(vm.nodes, f.at, s[..|s| - 1])
  {
    var s, u := SourceAt(vm, f, src), f.at[src.owner];
    assert Seated(vm.nodes, f.at, src.owner);
    if s != u {
      assert s[..|s| - 1] == u;
      forall i | 0 < i <= |u| ensures ClosureAt(vm.nodes, f.at, u[..i]) {
        if i < |u| { assert u[..|u| - 1][..i] == u[..i]; } else { assert u[..i] == u; }
      }
    }
  }

  /** The flow once the node is made. */
  function Seating(vm: Vm, f: Plan, id: NodeId, k: Kind, src: Port): Plan
    requires id.Gensym?
  {
    SeatIn(f, id, k, SourceAt(vm, f, src))
  }

  lemma AddSeated(vm: Vm, f: Plan, id: NodeId, x: Node, src: Port)
    requires Consistent(vm) && AllSeated(vm.nodes, f) && id == Gensym(x.kind, vm.serial) && ForkSource(vm, f, x.kind, src)
    ensures id !in vm.nodes && id !in f.at && AllSeated(vm.nodes[id := x], Seating(vm, f, id, x.kind, src))
  {
    hide Enclosed;
    forall n | n in f.at && n.Gensym? ensures n.serial != id.serial { assert Seated(vm.nodes, f.at, n) && Used(n, vm.serial); }
    if x.kind == Duplicator { SourceEnclosed(vm, f, src); }
    AddSeat(vm.nodes, f, id, x, SourceAt(vm, f, src));
  }

  lemma AddFlows(vm: Vm, f: Plan, id: NodeId, x: Node, src: Port)
    requires Consistent(vm) && FlowsSoFar(View(vm), f) && id == Gensym(x.kind, vm.serial) && |x.aux| == Arity(x.kind)
    requires (f.firstOrder ==> x.kind in FLOW_KINDS) && ForkSource(vm, f, x.kind, src)
    ensures id !in vm.nodes && FlowsSoFar(View(WithNode(vm, id, x)), Seating(vm, f, id, x.kind, src))
  {
    hide AllSeated, Before, Enclosed, Consistent, WireFlows, Seating;
    AddSeated(vm, f, id, x, src);
    AddConsistent(vm, id, x);
    var after, g := View(WithNode(vm, id, x)), Seating(vm, f, id, x.kind, src);
    forall p | p in after.wires ensures WireFlows(after.nodes, g, p, after.wires[p]) || WireFlows(after.nodes, g, after.wires[p], p) {
      var q := after.wires[p];
      assert WireFlows(vm.nodes, f, p, q) || WireFlows(vm.nodes, f, q, p);
      if WireFlows(vm.nodes, f, p, q) { AddWire(vm, f, id, x, src, p, q); } else { AddWire(vm, f, id, x, src, q, p); }
    }
    assert g.firstOrder == f.firstOrder by { SeatingFlags(vm, f, id, x.kind, src); }
  }

  lemma SeatingFlags(vm: Vm, f: Plan, id: NodeId, k: Kind, src: Port)
    requires id.Gensym?
    ensures Seating(vm, f, id, k, src).firstOrder == f.firstOrder
  {
  }

  lemma AddWire(vm: Vm, f: Plan, id: NodeId, x: Node, src: Port, p: Port, q: Port)
    requires WireFlows(vm.nodes, f, p, q) && id !in vm.nodes && id !in f.at && id.Gensym?
    ensures WireFlows(vm.nodes[id := x], Seating(vm, f, id, x.kind, src), p, q)
  {
    hide Before;
  }

  lemma AddAvailable(vm: Vm, scopes: seq<Frame>, f: Plan, id: NodeId, x: Node, src: Port, i: nat, p: Port)
    requires id == Gensym(x.kind, vm.serial) && id !in vm.nodes && id !in f.at && Available(vm, f, i, p)
    ensures Available(WithNode(vm, id, x), Seating(vm, f, id, x.kind, src), i, p)
  {
    hide Clear;
    SeatInClear(f, id, x.kind, SourceAt(vm, f, src), SpotAt(vm.nodes, f.at, p), i);
  }

  lemma Add(vm: Vm, scopes: seq<Frame>, pending: set<Port>, f: Plan, id: NodeId, x: Node, src: Port)
    requires Building(vm, scopes, pending, f) && id == Gensym(x.kind, vm.serial) && |x.aux| == Arity(x.kind)
    requires (f.firstOrder ==> x.kind in FLOW_KINDS) && ForkSource(vm, f, x.kind, src)
    ensures Building(WithNode(vm, id, x), scopes, pending + NodePorts(id, x), Seating(vm, f, id, x.kind, src))
    ensures id !in vm.nodes && id !in f.at && NodePorts(id, x) !! pending
  {
    hide FlowsSoFar, Available, Consistent, Owned;
    AddFree(vm, scopes, pending, f, id, x);
    AddFlows(vm, f, id, x, src);
    SeatsKnown(vm, f, id, x, src);
    AddOwned(vm, scopes, pending, f, id, x);
    AddConsistent(vm, id, x);
    AddPolarised(View(vm), id, x);
    forall i, n | 0 <= i < |scopes| && n in scopes[i] ensures Available(WithNode(vm, id, x), Seating(vm, f, id, x.kind, src), i, scopes[i][n]) {
      AddAvailable(vm, scopes, f, id, x, src, i, scopes[i][n]);
    }
  }

  lemma SeatsKnown(vm: Vm, f: Plan, id: NodeId, x: Node, src: Port)
    requires Consistent(vm) && FlowsSoFar(View(vm), f) && id == Gensym(x.kind, vm.serial)
    ensures id !in vm.nodes && id !in f.at && |f.open| <= |Seating(vm, f, id, x.kind, src).open|
  {
    hide Enclosed, AllFlow;
    if id in f.at { assert Seated(vm.nodes, f.at, id); }
    assert id in vm.nodes ==> Used(id, vm.serial);
  }

  lemma AddFree(vm: Vm, scopes: seq<Frame>, pending: set<Port>, f: Plan, id: NodeId, x: Node)
    requires Building(vm, scopes, pending, f) && id == Gensym(x.kind, vm.serial)
    ensures NodePorts(id, x) !! pending
  {
    forall p | p in pending ensures p !in NodePorts(id, x) { PendingLive(vm, scopes, pending, f, p); }
  }

  lemma AddPolarised(net: Net, id: NodeId, x: Node)
    requires Polarised(net) && id !in net.nodes
    ensures Polarised(Net(net.nodes[id := x], net.wires))
  {
    forall p | p in net.wires ensures Agree(net.nodes[id := x], p, net.wires[p]) { assert Agree(net.nodes, p, net.wires[p]); }
  }

  // ----- linking two pending ports -----

  function WithLink(vm: Vm, p: Port, q: Port): Vm {
    var l := LinkUp(Links(vm.target, vm.pairs), Some(p), Some(q));
    vm.(target := l.target, pairs := l.pairs)
  }

  lemma LinkFreeWires(vm: Vm, p: Port, q: Port)
    requires Live(vm.nodes, p) && Live(vm.nodes, q)
    ensures View(WithLink(vm, p, q)).wires == View(vm).wires[p := q][q := p]
  {
  }

  lemma LinkFreePairs(nodes: NodeMap, w: Wires, pairs: seq<Pair>, p: Port, q: Port)
    requires PairsGood(nodes, w, pairs) && Paired(w) && p != q && p !in w && q !in w
    ensures PairsGood(nodes, w[p := q][q := p], Record(pairs, p, q))
  {
    var after := w[p := q][q := p];
    forall e | e in Record(pairs, p, q) && e.0 in nodes && e.1 in nodes ensures P(e.0) in after && after[P(e.0)] == P(e.1) {
      if e in pairs { assert w[P(e.0)] == P(e.1) && w[P(e.1)] == P(e.0); }
    }
  }

  lemma LinkFreePaired(w: Wires, p: Port, q: Port)
    requires Paired(w) && p != q && p !in w && q !in w
    ensures Paired(w[p := q][q := p])
  {
    var after := w[p := q][q := p];
    forall r | r in after ensures after[r] in after && after[after[r]] == r && after[r] != r {
      assert r in w || r == p || r == q;
    }
  }

  lemma LinkFreeKnown(vm: Vm, p: Port, q: Port)
    requires Known(vm) && p.owner in vm.nodes && q.owner in vm.nodes
    ensures Known(WithLink(vm, p, q))
  {
  }

  lemma LinkFree(vm: Vm, p: Port, q: Port)
    requires Consistent(vm) && Live(vm.nodes, p) && Live(vm.nodes, q) && p != q && p !in vm.target && q !in vm.target
    ensures View(WithLink(vm, p, q)).wires == View(vm).wires[p := q][q := p]
    ensures Consistent(WithLink(vm, p, q))
  {
    hide Paired, Known, AllListed, AllBacked;
    LinkFreeWires(vm, p, q);
    LinkFreePaired(View(vm).wires, p, q);
    LinkFreeKnown(vm, p, q);
    LinkFreePairs(vm.nodes, View(vm).wires, vm.pairs, p, q);
  }

  /** A port that may be handed on flows into the input of what is being compiled. */
  lemma HandOn(vm: Vm, scopes: seq<Frame>, pending: set<Port>, f: Plan, p: Port, q: Port)
    requires Building(vm, scopes, pending, f) && Ready(vm, pending, f, p) && q.owner in vm.nodes && q.owner in f.at
    requires FlowOf(vm.nodes[q.owner].kind, q.index) == In && Accepts(f, SpotAt(vm.nodes, f.at, q))
    ensures Live(vm.nodes, p) && p !in vm.target && HalfFlows(vm.nodes, f, p, q)
  {
    hide Clear, Accepts, Before;
    PendingLive(vm, scopes, pending, f, p);
    assert Edge(f, vm.serial)[..|f.open| + 1] == Edge(f, vm.serial);
    Fits(f, vm.serial, SpotAt(vm.nodes, f.at, p), SpotAt(vm.nodes, f.at, q));
  }

  lemma LinkOwned(net: Net, scopes: seq<Frame>, pending: set<Port>, p: Port, q: Port)
    requires Owned(net, scopes, pending) && p in pending && q in pending
    ensures Owned(Net(net.nodes, net.wires[p := q][q := p]), scopes, pending - {p, q})
  {
    var after := net.wires[p := q][q := p];
    forall r ensures Live(net.nodes, r) && r !in after <==> InScope(scopes, r) || r in pending - {p, q} {
      assert Live(net.nodes, r) && r !in net.wires <==> InScope(scopes, r) || r in pending;
    }
  }

  lemma LinkFlows(net: Net, f: Plan, p: Port, q: Port)
    requires FlowsSoFar(net, f) && (WireFlows(net.nodes, f, p, q) || WireFlows(net.nodes, f, q, p))
    ensures FlowsSoFar(Net(net.nodes, net.wires[p := q][q := p]), f)
  {
    hide WireFlows, AllSeated;
    var after := net.wires[p := q][q := p];
    forall r | r in after ensures WireFlows(net.nodes, f, r, after[r]) || WireFlows(net.nodes, f, after[r], r) {
      if r != p && r != q { assert WireFlows(net.nodes, f, r, net.wires[r]) || WireFlows(net.nodes, f, net.wires[r], r); }
    }
  }

  lemma LinkPolarised(net: Net, p: Port, q: Port)
    requires Polarised(net) && Agree(net.nodes, p, q)
    ensures Polarised(Net(net.nodes, net.wires[p := q][q := p]))
  {
    var after := net.wires[p := q][q := p];
    forall r | r in after ensures Agree(net.nodes, r, after[r]) {
      if r != p && r != q { assert Agree(net.nodes, r, net.wires[r]); }
    }
  }

  lemma Link(vm: Vm, scopes: seq<Frame>, pending: set<Port>, f: Plan, p: Port, q: Port)
    requires Building(vm, scopes, pending, f) && p in pending && q in pending && p != q
    requires Agree(vm.nodes, p, q) && (WireFlows(vm.nodes, f, p, q) || WireFlows(vm.nodes, f, q, p))
    ensures Building(WithLink(vm, p, q), scopes, pending - {p, q}, f)
  {
    hide FlowsSoFar, Available, Owned, WireFlows;
    PendingLive(vm, scopes, pending, f, p);
    PendingLive(vm, scopes, pending, f, q);
    LinkFree(vm, p, q);
    LinkOwned(View(vm), scopes, pending, p, q);
    LinkPolarised(View(vm), p, q);
    LinkFlows(View(vm), f, p, q);
    LinkAvailable(vm, scopes, f, p, q);
  }

  lemma LinkAvailable(vm: Vm, scopes: seq<Frame>, f: Plan, p: Port, q: Port)
    requires AllAvailable(vm, scopes, f)
    ensures AllAvailable(WithLink(vm, p, q), scopes, f)
  {
    hide Clear;
    forall i, n | 0 <= i < |scopes| && n in scopes[i] ensures Available(WithLink(vm, p, q), f, i, scopes[i][n]) {
      assert Available(vm, f, i, scopes[i][n]);
    }
  }

  /** The order in which _link is given its ends does not matter. */
  lemma LinkReversed(vm: Vm, scopes: seq<Frame>, pending: set<Port>, f: Plan, p: Port, q: Port)
    requires Building(vm, scopes, pending, f) && p in pending && q in pending && p != q
    requires Agree(vm.nodes, p, q) && (WireFlows(vm.nodes, f, p, q) || WireFlows(vm.nodes, f, q, p))
    ensures Building(WithLink(vm, q, p), scopes, pending - {p, q}, f)
  {
    hide Building, WireFlows;
    assert {p, q} == {q, p};
    LinkBack(vm.nodes, p, q);
    Link(vm, scopes, pending, f, q, p);
  }

  lemma LinkBack(nodes: NodeMap, p: Port, q: Port)
    requires Agree(nodes, p, q)
    ensures Agree(nodes, q, p)
  {
  }

  // ----- scopes -----

  lemma Push(vm: Vm, scopes: seq<Frame>, pending: set<Port>, f: Plan)
    requires Building(vm, scopes, pending, f) && |scopes| <= |f.open|
    ensures Building(vm, scopes + [map[]], pending, f)
  {
    hide FlowsSoFar, Available, Consistent;
    var more := scopes + [map[]];
    forall p ensures InScope(more, p) <==> InScope(scopes, p) {
      if InScope(scopes, p) {
        var i, n :| 0 <= i < |scopes| && n in scopes[i] && scopes[i][n] == p;
        assert n in more[i] && more[i][n] == p;
      }
    }
  }

  function FramePorts(frame: Frame): set<Port> {
    set n | n in frame :: frame[n]
  }

  /** Bind a pending output to a name that the frame does not hold. */
  lemma Enter(vm: Vm, scopes: seq<Frame>, pending: set<Port>, f: Plan, k: nat, name: string, p: Port)
    requires Building(vm, scopes, pending, f) && p in pending && Available(vm, f, k, p)
    requires k < |scopes| && name !in scopes[k]
    ensures Building(vm, scopes[k := scopes[k][name := p]], pending - {p}, f)
  {
    hide FlowsSoFar, Available, Consistent;
    var more := scopes[k := scopes[k][name := p]];
    forall q ensures InScope(more, q) <==> InScope(scopes, q) || q == p {
      if InScope(scopes, q) {
        var i, n :| 0 <= i < |scopes| && n in scopes[i] && scopes[i][n] == q;
        assert n in more[i] && more[i][n] == q;
      }
      assert name in more[k] && more[k][name] == p;
    }
    assert !InScope(scopes, p);
    forall i, n, j, m | 0 <= i < |more| && n in more[i] && 0 <= j < |more| && m in more[j] && more[i][n] == more[j][m]
      ensures i == j && n == m
    {
      if more[i][n] == p {
        assert (i == k && n == name) || InScope(scopes, p);
        assert (j == k && m == name) || InScope(scopes, p);
      }
    }
  }

  /** What may be used in an outer closure may be used here. */
  lemma Deepen(vm: Vm, f: Plan, i: nat, p: Port)
    requires Available(vm, f, i, p)
    ensures Available(vm, f, |f.open|, p)
  {
    hide Clear;
    var e := Edge(f, vm.serial);
    ClearExtends(SpotAt(vm.nodes, f.at, p), e[..i + 1], e[i + 1..]);
    assert e[..i + 1] + e[i + 1..] == e && e[..|f.open| + 1] == e;
  }

  /** Take a name's port out of scope: it becomes pending. */
  lemma Leave(vm: Vm, scopes: seq<Frame>, pending: set<Port>, f: Plan, i: nat, name: string)
    requires Building(vm, scopes, pending, f) && i < |scopes| && name in scopes[i]
    ensures Building(vm, scopes[i := scopes[i] - {name}], pending + {scopes[i][name]}, f)
    ensures scopes[i][name] !in pending && Ready(vm, pending + {scopes[i][name]}, f, scopes[i][name])
    ensures Available(vm, f, i, scopes[i][name])
  {
    hide FlowsSoFar, Available, Consistent;
    var p, less := scopes[i][name], scopes[i := scopes[i] - {name}];
    assert InScope(scopes, p);
    forall q ensures InScope(less, q) <==> InScope(scopes, q) && q != p {
      if InScope(scopes, q) && q != p {
        var j, n :| 0 <= j < |scopes| && n in scopes[j] && scopes[j][n] == q;
        assert n in less[j] && less[j][n] == q;
      }
    }
    assert Live(View(vm).nodes, p);
    Deepen(vm, f, i, p);
  }

  lemma NoPorts()
    ensures FramePorts(map[]) == {}
  {
  }

  lemma LessPorts(frame: Frame, name: string)
    requires Injective(frame) && name in frame
    ensures Injective(frame - {name}) && frame[name] in FramePorts(frame)
    ensures FramePorts(frame - {name}) == FramePorts(frame) - {frame[name]}
    ensures forall n :: n in frame && n != name ==> frame[n] != frame[name]
  {
    forall p | p in FramePorts(frame) && p != frame[name] ensures p in FramePorts(frame - {name}) {
      var n :| n in frame && frame[n] == p;
      assert n in frame - {name};
    }
  }

  /** What is in scope is in the inner frames or in the last one, and not in both. */
  lemma InnermostScope(scopes: seq<Frame>)
    requires Unshared(scopes) && |scopes| > 0
    ensures var (k, frame) := (|scopes| - 1, scopes[|scopes| - 1]);
      && Unshared(scopes[..k]) && Injective(frame)
      && (forall p :: InScope(scopes, p) <==> InScope(scopes[..k], p) || p in FramePorts(frame))
      && (forall p :: InScope(scopes[..k], p) ==> p !in FramePorts(frame))
  {
    var k := |scopes| - 1;
    var less, frame := scopes[..k], scopes[k];
    forall p ensures InScope(scopes, p) <==> InScope(less, p) || p in FramePorts(frame) {
      if InScope(scopes, p) {
        var i, n :| 0 <= i < |scopes| && n in scopes[i] && scopes[i][n] == p;
        if i < k { assert n in less[i] && less[i][n] == p; }
      }
      if InScope(less, p) {
        var i, n :| 0 <= i < |less| && n in less[i] && less[i][n] == p;
        assert n in scopes[i] && scopes[i][n] == p;
      }
    }
    forall p | InScope(less, p) ensures p !in FramePorts(frame) {
      var i, n :| 0 <= i < |less| && n in less[i] && less[i][n] == p;
      assert scopes[i][n] == p && i != k;
    }
  }

  /** Drop the innermost frame: all its ports become pending. */
  lemma Pop(vm: Vm, scopes: seq<Frame>, pending: set<Port>, f: Plan)
    requires Building(vm, scopes, pending, f) && |scopes| > 0
    ensures var (k, frame) := (|scopes| - 1, scopes[|scopes| - 1]);
      && Injective(frame) && FramePorts(frame) !! pending
      && Building(vm, scopes[..k], pending + FramePorts(frame), f)
      && forall n :: n in frame ==> Available(vm, f, k, frame[n])
  {
    hide Injective, Unshared, InScope, Consistent, Polarised, FlowsSoFar, Available;
    InnermostScope(scopes);
    var k := |scopes| - 1;
    forall i, n | 0 <= i < k && n in scopes[..k][i] ensures Available(vm, f, i, scopes[..k][i][n]) { assert scopes[..k][i] == scopes[i]; }
  }

  // ----- starting and finishing -----

  lemma Start(f: Plan)
    requires f.at == map[] && f.open == []
    ensures Building(Vm(map[], [], 0, map[]), [], {}, f)
  {
  }

  /** A call, a switch or a closure has been compiled: what was kept in it is kept around it. */
  lemma Close(vm: Vm, scopes: seq<Frame>, pending: set<Port>, g: Plan, f: Plan, k: nat)
    requires Building(vm, scopes, pending, g) && Closes(g, f, k) && k < vm.serial && |scopes| <= |f.open| + 1
    ensures Building(vm, scopes, pending, g.(open := f.open, stem := f.stem))
  {
    hide Clear, Consistent, Owned, AllFlow, Enclosed;
    var h := g.(open := f.open, stem := f.stem);
    forall i, n | 0 <= i < |scopes| && n in scopes[i] ensures Available(vm, h, i, scopes[i][n]) {
      var p := scopes[i][n];
      assert Available(vm, g, i, p);
      ClosedClear(g, f, k, vm.serial, SpotAt(vm.nodes, g.at, p), i);
      assert Edge(h, vm.serial) == Edge(f, vm.serial);
    }
    CloseFlows(View(vm), g, f, k);
  }

  lemma CloseFlows(net: Net, g: Plan, f: Plan, k: nat)
    requires FlowsSoFar(net, g) && Closes(g, f, k)
    ensures FlowsSoFar(net, g.(open := f.open, stem := f.stem))
  {
    hide Before, Seated;
    var h := g.(open := f.open, stem := f.stem);
    if g.open != f.open {
      forall i | 0 < i <= |f.open| ensures ClosureAt(net.nodes, h.at, f.open[..i]) { assert g.open[..i] == f.open[..i]; }
    }
    forall p | p in net.wires ensures WireFlows(net.nodes, h, p, net.wires[p]) || WireFlows(net.nodes, h, net.wires[p], p) {
      assert WireFlows(net.nodes, g, p, net.wires[p]) || WireFlows(net.nodes, g, net.wires[p], p);
    }
  }

  /** An output of what has been compiled may be handed on. */
  lemma SeatReady(vm: Vm, pending: set<Port>, f: Plan, n: NodeId, p: Port)
    requires p in pending && p.owner == n && n in vm.nodes && n in f.at && Offers(vm.nodes, p)
    requires vm.nodes[n].kind == Constructor ==> p.index == 0
    requires n.Gensym? && n.serial < vm.serial && f.at[n] == Seat(f, n.serial)
    ensures Ready(vm, pending, f, p)
  {
    hide Clear;
    SeatClear(f, n.serial, vm.serial);
    assert Edge(f, vm.serial)[..|f.open| + 1] == Edge(f, vm.serial);
  }

  /** So may the argument of the closure being compiled. */
  lemma ArgumentReady(vm: Vm, pending: set<Port>, f: Plan, n: NodeId)
    requires A(n, 0) in pending && n in vm.nodes && n in f.at && vm.nodes[n].kind == Constructor && f.at[n] == f.open
    ensures Ready(vm, pending, f, A(n, 0))
  {
    hide Clear;
    ArgumentClear(f, vm.serial);
    assert Edge(f, vm.serial)[..|f.open| + 1] == Edge(f, vm.serial);
  }

  /** The copies of a source may be used wherever the source may. */
  lemma CopyAvailable(vm: Vm, f: Plan, i: nat, src: Port, id: NodeId, p: Port)
    requires Available(vm, f, i, src) && id == Gensym(Duplicator, vm.serial) && id !in vm.nodes && id !in f.at
    requires p.owner == id && p.index > 0
    ensures Available(WithNode(vm, id, DuplicatorNode(UNIT)), Seating(vm, f, id, Duplicator, src), i, p)
    ensures HalfFlows(vm.nodes[id := DuplicatorNode(UNIT)], Seating(vm, f, id, Duplicator, src), src, P(id))
  {
    hide Clear, Before;
    var u := SpotAt(vm.nodes, f.at, src);
    BumpClear(u, Edge(f, vm.serial)[..i + 1]);
    EdgeGrows(f, vm.serial, vm.serial + 1, Bump(u), i);
  }

  /** How many nodes have an earlier seat. */
  function SeatRank(at: map<NodeId, Place>, n: NodeId): int
    requires n in at
  {
    |set m | m in at && Less(at[m], at[n])|
  }

  lemma SeatRankLess(at: map<NodeId, Place>, n: NodeId, m: NodeId)
    requires n in at && m in at && Less(at[n], at[m])
    ensures SeatRank(at, n) < SeatRank(at, m) <= |at|
  {
    hide Less;
    var s := set k | k in at && Less(at[k], at[n]);
    var t := set k | k in at && Less(at[k], at[m]);
    forall k | k in s ensures k in t { LessTrans(at[k], at[n], at[m]); }
    PostStrict(at[n]);
    assert n in t && n !in s;
    assert t == s + (t - s) && n in t - s;
    SubsetSize(t, at.Keys);
  }

  lemma SubsetSize(s: set<NodeId>, t: set<NodeId>)
    requires s <= t
    ensures |s| <= |t|
  {
    assert t == s + (t - s);
  }

  function Ranks(nodes: NodeMap, at: map<NodeId, Place>): Ranking {
    map n | n in nodes :: if n in at then SeatRank(at, n) else |at| + 1
  }

  /** The seats of a first-order net rank its nodes. */
  lemma SeatsRank(net: Net, f: Plan)
    requires WellWired(net) && FlowsSoFar(net, f) && f.firstOrder
    ensures Ranked(net, Ranks(net.nodes, f.at))
  {
    hide Before, SeatRank, Seated, Enclosed;
    var rank := Ranks(net.nodes, f.at);
    forall p | p in net.wires ensures Flows(net.nodes, rank, p, net.wires[p]) {
      assert WireFlows(net.nodes, f, p, net.wires[p]) || WireFlows(net.nodes, f, net.wires[p], p);
      assert Live(net.nodes, p) && Live(net.nodes, net.wires[p]) && net.wires[net.wires[p]] == p;
      if WireFlows(net.nodes, f, p, net.wires[p]) { WireRanks(net, f, p, net.wires[p]); } else { WireRanks(net, f, net.wires[p], p); }
    }
  }

  lemma WireRanks(net: Net, f: Plan, p: Port, q: Port)
    requires FlowsSoFar(net, f) && f.firstOrder && WellFormed(net.nodes) && Live(net.nodes, p) && Live(net.nodes, q) && WireFlows(net.nodes, f, p, q)
    ensures Flows(net.nodes, Ranks(net.nodes, f.at), p, q) && Flows(net.nodes, Ranks(net.nodes, f.at), q, p)
  {
    hide Before, SeatRank, Enclosed, AllFlow;
    assert net.nodes[p.owner].kind in FLOW_KINDS && net.nodes[q.owner].kind in FLOW_KINDS;
    if HalfFlows(net.nodes, f, p, q) {
      BeforeGoes({}, f.at[p.owner], f.at[q.owner]);
      SeatRankLess(f.at, p.owner, q.owner);
    } else {
      assert q.owner in f.at ==> Seated(net.nodes, f.at, q.owner);
      assert p.owner in f.at;
      RankBound(f.at, p.owner);
    }
  }

  lemma RankBound(at: map<NodeId, Place>, n: NodeId)
    requires n in at
    ensures SeatRank(at, n) <= |at|
  {
    SubsetSize((set m | m in at && Less(at[m], at[n])), at.Keys);
  }

  /** The place of every port. */
  function SpotsOf(nodes: NodeMap, at: map<NodeId, Place>): Nesting.Spots {
    map n, i | n in nodes && n in at && 0 <= i <= |nodes[n].aux| :: Port(n, i) := SpotAt(nodes, at, Port(n, i))
  }

  lemma SpotThere(nodes: NodeMap, at: map<NodeId, Place>, p: Port)
    requires Live(nodes, p) && p.owner in at
    ensures p in SpotsOf(nodes, at) && SpotsOf(nodes, at)[p] == SpotAt(nodes, at, p)
  {
    assert p == Port(p.owner, p.index);
  }

  /** A program without forks is compiled to a net in which every closure's body is nested. */
  lemma SeatsNest(net: Net, f: Plan)
    requires WellWired(net) && FlowsSoFar(net, f) && forall n :: n in net.nodes ==> net.nodes[n].kind in Nesting.CALL_KINDS
    ensures Nesting.Nested(net, SpotsOf(net.nodes, f.at))
  {
    hide Nesting.Spread, Nesting.AllSteady, Seated, Enclosed, AllFlow, Nesting.Placed;
    var spot := SpotsOf(net.nodes, f.at);
    forall n | Nesting.Solid(net.nodes, n) ensures Nesting.Placed(spot, n, net.nodes[n].kind) { SeatPlaced(net, f, n); }
    SeatsSteady(net, f);
    SeatsAllSpread(net, f);
  }

  lemma SeatPlaced(net: Net, f: Plan, n: NodeId)
    requires WellWired(net) && FlowsSoFar(net, f) && Nesting.Solid(net.nodes, n)
    ensures n in f.at && Nesting.Placed(SpotsOf(net.nodes, f.at), n, net.nodes[n].kind)
  {
    hide Seated, Enclosed, AllFlow, SpotsOf, Paired;
    SpotThere(net.nodes, f.at, P(n));
    if net.nodes[n].kind in {Constructor, Destructor, Switch} {
      SpotThere(net.nodes, f.at, A(n, 0));
      SpotThere(net.nodes, f.at, A(n, 1));
    }
    if net.nodes[n].kind == Switch { SpotThere(net.nodes, f.at, A(n, 2)); }
  }

  lemma SeatsSteady(net: Net, f: Plan)
    requires WellWired(net) && FlowsSoFar(net, f)
    ensures var spot := SpotsOf(net.nodes, f.at); Nesting.AllSteady(net.nodes, net.wires, spot, Nesting.Boxes(net.nodes, spot))
  {
    hide Seated, Enclosed, AllSeated, SpotsOf, Nesting.Boxes, Before, Less, Goes;
    var spot := SpotsOf(net.nodes, f.at);
    forall p | p in net.wires ensures Nesting.Steady(net.nodes, spot, Nesting.Boxes(net.nodes, spot), p, net.wires[p]) {
      var q := net.wires[p];
      assert WireFlows(net.nodes, f, p, q) || WireFlows(net.nodes, f, q, p);
      assert Live(net.nodes, p) && Live(net.nodes, q);
      if p.owner in f.at && q.owner in f.at {
        SpotThere(net.nodes, f.at, p);
        SpotThere(net.nodes, f.at, q);
        if HalfFlows(net.nodes, f, p, q) { BeforeGoes(Nesting.Boxes(net.nodes, spot), spot[p], spot[q]); }
        if HalfFlows(net.nodes, f, q, p) { BeforeGoes(Nesting.Boxes(net.nodes, spot), spot[q], spot[p]); }
      }
    }
  }

  lemma SeatsAllSpread(net: Net, f: Plan)
    requires WellWired(net) && FlowsSoFar(net, f) && forall n :: n in net.nodes ==> net.nodes[n].kind in Nesting.CALL_KINDS
    ensures Nesting.Spread(net.nodes, SpotsOf(net.nodes, f.at))
  {
    hide Seated, Enclosed, AllFlow, SpotsOf, Inside;
    var spot := SpotsOf(net.nodes, f.at);
    forall n, m | Nesting.Solid(net.nodes, n) && Nesting.Solid(net.nodes, m) && n != m && P(n) in spot && P(m) in spot
      ensures spot[P(n)] != spot[P(m)] && (Inside(spot[P(n)], spot[P(m)]) ==> net.nodes[n].kind == Constructor)
    {
      SpotThere(net.nodes, f.at, P(n));
      SpotThere(net.nodes, f.at, P(m));
      SeatsSpread(net.nodes, f, n, m);
    }
  }

  /** With no scope and nothing pending, the net is closed, and a first-order one
      has acyclic data flow. */
  lemma Sealed(vm: Vm, f: Plan)
    requires Building(vm, [], {}, f)
    ensures Closed(View(vm)) && Polarised(View(vm)) && Consistent(vm) && FlowsSoFar(View(vm), f)
    ensures f.firstOrder ==> DataflowNet(View(vm))
  {
    hide FlowsSoFar;
    var net := View(vm);
    forall p | Live(net.nodes, p) ensures p in net.wires {
      assert !InScope([], p);
    }
    if f.firstOrder { SeatsRank(net, f); }
  }
}
