/** What a net of closures and calls comes to. In every run that leaves nothing, each port carries one
    constant, one closure, or nothing, and these fit together node by node: they are found by going
    back through the run, each firing undone edit by edit. */
module Outcomes {
  import opened Wiring
  import opened Nets
  import opened Conservation
  import opened Polarity
  import opened Confluence
  import opened NormalForms
  import opened Places
  import opened Nesting

  /** What a port carries in a run: a constant, a closure of the net, or nothing. */
  datatype Val = Known(payload: Payload) | Clo(id: NodeId) | Void

  /** For every port what it carries, and a time such that everything is later than what it depends on. */
  datatype Values = Values(of: map<Port, Val>, at: map<Port, nat>)

  function Flowing(nodes: NodeMap, p: Port): Flow
    requires p.owner in nodes
  {
    FlowOf(nodes[p.owner].kind, p.index)
  }

  predicate Has(c: Values, p: Port) {
    p in c.of && p in c.at
  }

  /** The ends of a wire carry the same, and the input later than the output. */
  ghost predicate WireOk(nodes: NodeMap, c: Values, p: Port, q: Port) {
    && p.owner in nodes && q.owner in nodes && Has(c, p) && Has(c, q) && c.of[p] == c.of[q]
    && (Flowing(nodes, p) == Out && Flowing(nodes, q) == In ==> c.at[p] < c.at[q])
    && (Flowing(nodes, p) == In && Flowing(nodes, q) == Out ==> c.at[q] < c.at[p])
    && (Flowing(nodes, p) == In ==> c.at[p] >= 1)
  }

  ghost predicate Wired(nodes: NodeMap, w: Wires, c: Values) {
    forall p :: p in w ==> WireOk(nodes, c, p, w[p])
  }

  ghost predicate PortsHave(c: Values, n: NodeId, k: Kind) {
    forall i: nat :: i <= Arity(k) ==> Has(c, Port(n, i))
  }

  ghost predicate NodeOk(nodes: NodeMap, c: Values, n: NodeId, x: Node) {
    && PortsHave(c, n, x.kind) && Has(c, P(n))
    && match x.kind
       case Value => c.of[P(n)] == Known(x.payload)
       case Constructor => c.of[P(n)] == Clo(n)
       case Switch => SwitchOk(c, n)
       case Destructor => CallOk(nodes, c, n)
       case _ => true
  }

  /** A constant selects a branch; nothing selects nothing. */
  ghost predicate SwitchOk(c: Values, n: NodeId) {
    && Has(c, P(n)) && Has(c, A(n, 0)) && Has(c, A(n, 1)) && Has(c, A(n, 2)) && c.at[P(n)] < c.at[A(n, 2)]
    && match c.of[P(n)]
       case Known(v) => var chosen := A(n, if Truthy(v) then 0 else 1); c.of[A(n, 2)] == c.of[chosen] && c.at[chosen] < c.at[A(n, 2)]
       case Void => c.of[A(n, 2)] == Void
       case Clo(_) => false
  }

  /** A call passes its argument to the closure that it calls, and the closure's result on. */
  ghost predicate CallOk(nodes: NodeMap, c: Values, n: NodeId) {
    && Has(c, P(n)) && Has(c, A(n, 0)) && Has(c, A(n, 1)) && c.at[P(n)] < c.at[A(n, 1)]
    && match c.of[P(n)]
       case Clo(g) => g in nodes && nodes[g].kind == Constructor && Passes(c, n, g)
       case Void => c.of[A(n, 1)] == Void
       case Known(_) => false
  }

  predicate Passes(c: Values, n: NodeId, g: NodeId) {
    && Has(c, A(n, 0)) && Has(c, A(n, 1)) && Has(c, A(g, 0)) && Has(c, A(g, 1))
    && c.of[A(n, 0)] == c.of[A(g, 0)] && c.of[A(n, 1)] == c.of[A(g, 1)]
    && c.at[A(n, 0)] < c.at[A(g, 0)] && c.at[A(g, 1)] < c.at[A(n, 1)]
  }

  /** An eraser that feeds an input feeds it nothing. */
  ghost predicate EraserOk(net: Net, c: Values, n: NodeId) {
    P(n) in net.wires && net.wires[P(n)].owner in net.nodes && Flowing(net.nodes, net.wires[P(n)]) != Out ==> P(n) in c.of && c.of[P(n)] == Void
  }

  ghost predicate Certified(net: Net, c: Values) {
    && Wired(net.nodes, net.wires, c)
    && (forall n :: n in net.nodes ==> NodeOk(net.nodes, c, n, net.nodes[n]))
    && (forall n :: n in net.nodes && net.nodes[n].kind == Eraser ==> EraserOk(net, c, n))
  }

  // ----- undoing one edit -----

  /** Away from the ports of an edit everything is as it was, in the same order. */
  ghost predicate Keeps(before: Values, after: Values, ports: set<Port>) {
    && (forall p :: p !in ports && Has(before, p) ==> Has(after, p) && after.of[p] == before.of[p])
    && (forall p, q ::
          (p !in ports && q !in ports && Has(before, p) && Has(before, q) && Has(after, p) && Has(after, q) && before.at[p] < before.at[q])
          ==> after.at[p] < after.at[q])
    && (forall p :: p !in ports && Has(before, p) && Has(after, p) && before.at[p] >= 1 ==> after.at[p] >= 2)
  }

  function Scaled(at: map<Port, nat>): map<Port, nat> {
    map p | p in at :: 4 * at[p]
  }

  /** What undoing an edit says about the ports that it consumed: c before, b after the edit. */
  ghost predicate Undone(nodes: NodeMap, b: Values, c: Values, op: Op) {
    match op
    case Splice(x, y) =>
      && x.owner in nodes && y.owner in nodes && Has(c, x) && Has(c, y) && c.of[x] == c.of[y] && c.at[x] >= 1 && c.at[y] >= 1
      && (Flowing(nodes, x) == In ==> c.at[x] < c.at[y]) && (Flowing(nodes, y) == In ==> c.at[y] < c.at[x])
    case Graft(x, h) => Has(c, x) && Has(b, h) && c.of[x] == b.of[h] && c.at[x] >= 1
    case Join(_, _) => true
  }

  predicate Undoable(nodes: NodeMap, op: Op) {
    match op
    case Splice(x, y) => x.owner in nodes && y.owner in nodes && {Flowing(nodes, x), Flowing(nodes, y)} == {In, Out}
    case Graft(x, h) => x.owner in nodes && h.owner in nodes && Flowing(nodes, x) != Either && Flowing(nodes, h) == Either
    case Join(_, _) => false
  }

  lemma UndoSplice(nodes: NodeMap, w: Wires, x: Port, y: Port, b: Values) returns (c: Values)
    requires Paired(w) && x != y && x in w && y in w && w[x] != y && Wired(nodes, Apply(w, Splice(x, y)), b)
    requires x.owner in nodes && y.owner in nodes && Flowing(nodes, x) == In && Flowing(nodes, y) == Out
    requires forall p :: p in w ==> Agree(nodes, p, w[p])
    ensures Wired(nodes, w, c) && Keeps(b, c, {x, y}) && Undone(nodes, b, c, Splice(x, y))
  {
    var far := w[x];
    var v := Apply(w, Splice(x, y));
    assert Look(v, far) == LookAfter(w, Splice(x, y), far);
    assert WireOk(nodes, b, far, w[y]);
    var t := if Flowing(nodes, far) == Out then 4 * b.at[far] + 1 else 1;
    c := Values(b.of[x := b.of[far]][y := b.of[far]], Scaled(b.at)[x := t][y := t + 1]);
    forall p | p in w ensures WireOk(nodes, c, p, w[p]) {
      SplicedWire(nodes, w, x, y, b, c, p);
    }
  }

  lemma SplicedWire(nodes: NodeMap, w: Wires, x: Port, y: Port, b: Values, c: Values, p: Port)
    requires Paired(w) && x != y && x in w && y in w && w[x] != y && Wired(nodes, Apply(w, Splice(x, y)), b)
    requires x.owner in nodes && y.owner in nodes && Flowing(nodes, x) == In && Flowing(nodes, y) == Out
    requires (forall q :: q in w ==> Agree(nodes, q, w[q])) && p in w && Has(b, w[x]) && w[x].owner in nodes
    requires var t := if Flowing(nodes, w[x]) == Out then 4 * b.at[w[x]] + 1 else 1;
             c == Values(b.of[x := b.of[w[x]]][y := b.of[w[x]]], Scaled(b.at)[x := t][y := t + 1])
    ensures WireOk(nodes, c, p, w[p])
  {
    var v := Apply(w, Splice(x, y));
    assert Agree(nodes, p, w[p]) && Agree(nodes, x, w[x]) && Agree(nodes, y, w[y]);
    assert Look(v, w[x]) == LookAfter(w, Splice(x, y), w[x]) && Look(v, w[y]) == LookAfter(w, Splice(x, y), w[y]);
    assert WireOk(nodes, b, w[x], w[y]) && WireOk(nodes, b, w[y], w[x]);
    if p !in {x, y} && w[p] !in {x, y} {
      assert Look(v, p) == LookAfter(w, Splice(x, y), p);
      assert WireOk(nodes, b, p, w[p]);
    }
  }

  lemma UndoGraft(nodes: NodeMap, w: Wires, x: Port, h: Port, b: Values) returns (c: Values)
    requires Paired(w) && x != h && x in w && h !in w && Wired(nodes, Apply(w, Graft(x, h)), b)
    requires x.owner in nodes && h.owner in nodes && Flowing(nodes, x) != Either && Flowing(nodes, h) == Either
    requires forall p :: p in w ==> Agree(nodes, p, w[p])
    ensures Wired(nodes, w, c) && Keeps(b, c, {x, h}) && Undone(nodes, b, c, Graft(x, h))
  {
    var far := w[x];
    var v := Apply(w, Graft(x, h));
    assert Look(v, h) == LookAfter(w, Graft(x, h), h) && Look(v, far) == LookAfter(w, Graft(x, h), far);
    assert WireOk(nodes, b, far, h);
    var t := if Flowing(nodes, x) == In && Flowing(nodes, far) == Out then 4 * b.at[far] + 2 else 2;
    c := Values(b.of[x := b.of[h]], Scaled(b.at)[x := t]);
    forall p | p in w ensures WireOk(nodes, c, p, w[p]) {
      assert Agree(nodes, p, w[p]) && Agree(nodes, x, far);
      assert WireOk(nodes, b, far, h);
      if p != x && w[p] != x {
        assert Look(v, p) == LookAfter(w, Graft(x, h), p);
        assert WireOk(nodes, b, p, w[p]);
      }
    }
  }

  lemma UndoOp(nodes: NodeMap, w: Wires, op: Op, b: Values) returns (c: Values)
    requires Paired(w) && Wiring.Ready(w, op) && op.Old() <= w.Keys && Wired(nodes, Apply(w, op), b) && Undoable(nodes, op)
    requires op.Splice? ==> w[op.x] != op.y
    requires forall p :: p in w ==> Agree(nodes, p, w[p])
    ensures Wired(nodes, w, c) && Keeps(b, c, op.Ports()) && Undone(nodes, b, c, op)
  {
    hide Wired, Keeps, Agree;
    match op
    case Splice(x, y) =>
      assert op.Ports() == {x, y} == {y, x};
      if Flowing(nodes, x) == In {
        c := UndoSplice(nodes, w, x, y, b);
      } else {
        FlipSplice(w, x, y);
        c := UndoSplice(nodes, w, y, x, b);
      }
    case Graft(x, h) =>
      assert op.Ports() == {x, h};
      c := UndoGraft(nodes, w, x, h, b);
  }

  // ----- undoing a list of edits -----

  function PortsOf(ops: seq<Op>): set<Port> {
    OldPorts(ops) + NewPorts(ops)
  }

  /** Edits may be undone one by one, last first, if the wires stay related and nothing spliced is wired together. */
  ghost predicate Reversible(nodes: NodeMap, w: Wires, ops: seq<Op>, rel: (Port, Port) -> bool) {
    && Paired(w) && Linear(w, ops) && OldPorts(ops) <= w.Keys && Related(w, rel)
    && (forall p, q :: rel(p, q) ==> rel(q, p) && Agree(nodes, p, q))
    && (forall k :: 0 <= k < |ops| ==> StepBack(nodes, ops[k], rel))
  }

  ghost predicate StepBack(nodes: NodeMap, op: Op, rel: (Port, Port) -> bool) {
    Undoable(nodes, op) && Bridges(op, rel) && (op.Splice? ==> !rel(op.x, op.y))
  }

  lemma ReversibleRest(nodes: NodeMap, w: Wires, ops: seq<Op>, rel: (Port, Port) -> bool)
    requires Reversible(nodes, w, ops, rel) && ops != []
    ensures Reversible(nodes, Apply(w, ops[0]), ops[1..], rel) && Wiring.Ready(w, ops[0]) && ops[0].Old() <= w.Keys
    ensures ops[0].Ports() !! PortsOf(ops[1..])
  {
    hide StepBack, Agree;
    var v := Apply(w, ops[0]);
    assert Wiring.Ready(w, ops[0]);
    LinearRest(w, ops);
    OldNewApart(w, ops);
    ApplyKeys(w, ops[0]);
    assert Bridges(ops[0], rel) by { assert StepBack(nodes, ops[0], rel); StepBridges(nodes, ops[0], rel); }
    ApplyRelated(w, ops[0], rel);
    forall k | 0 <= k < |ops[1..]| ensures StepBack(nodes, ops[1..][k], rel) { assert StepBack(nodes, ops[k + 1], rel); }
  }

  lemma StepBridges(nodes: NodeMap, op: Op, rel: (Port, Port) -> bool)
    requires StepBack(nodes, op, rel)
    ensures Bridges(op, rel)
  {
  }

  ghost predicate AllUndone(nodes: NodeMap, b: Values, c: Values, ops: seq<Op>) {
    forall k :: 0 <= k < |ops| ==> Undone(nodes, b, c, ops[k])
  }

  lemma {:induction false} UndoAll(nodes: NodeMap, w: Wires, ops: seq<Op>, rel: (Port, Port) -> bool, b: Values) returns (c: Values)
    requires Reversible(nodes, w, ops, rel) && Wired(nodes, ApplyAll(w, ops), b) && forall h :: h in NewPorts(ops) ==> Has(b, h)
    ensures Wired(nodes, w, c) && Keeps(b, c, PortsOf(ops)) && AllUndone(nodes, b, c, ops)
    decreases |ops|
  {
    hide Wired, Keeps, Undone, StepBack, Linear;
    if ops == [] {
      c := Values(b.of, Scaled(b.at));
      JustScaled(nodes, w, b);
      assert PortsOf(ops) == {};
    } else {
      ReversibleRest(nodes, w, ops, rel);
      var e := UndoAll(nodes, Apply(w, ops[0]), ops[1..], rel, b);
      FirstUndoable(nodes, w, ops, rel);
      c := UndoOp(nodes, w, ops[0], e);
      KeepsBoth(b, e, c, PortsOf(ops[1..]), ops[0].Ports());
      assert PortsOf(ops) == PortsOf(ops[1..]) + ops[0].Ports();
      forall k | 0 <= k < |ops| ensures Undone(nodes, b, c, ops[k]) {
        if k > 0 {
          assert Undone(nodes, b, e, ops[1..][k - 1]);
          PortsOfMember(ops[1..], k - 1);
          LaterUndone(nodes, b, e, c, ops[k], ops[0].Ports());
        } else {
          FirstUndone(nodes, b, e, c, ops, PortsOf(ops[1..]));
        }
      }
    }
  }

  lemma FirstUndoable(nodes: NodeMap, w: Wires, ops: seq<Op>, rel: (Port, Port) -> bool)
    requires Reversible(nodes, w, ops, rel) && ops != []
    ensures Undoable(nodes, ops[0]) && (ops[0].Splice? ==> ops[0].x in w && w[ops[0].x] != ops[0].y)
    ensures forall p :: p in w ==> Agree(nodes, p, w[p])
  {
    assert StepBack(nodes, ops[0], rel);
    forall p | p in w ensures Agree(nodes, p, w[p]) { assert rel(p, w[p]); }
    if ops[0].Splice? {
      assert ops[0].x in ops[0].Old() && ops[0].Old() <= OldPorts(ops);
      assert rel(ops[0].x, w[ops[0].x]);
    }
  }

  lemma JustScaled(nodes: NodeMap, w: Wires, b: Values)
    requires Wired(nodes, w, b)
    ensures Wired(nodes, w, Values(b.of, Scaled(b.at))) && Keeps(b, Values(b.of, Scaled(b.at)), {})
  {
    forall p | p in w ensures WireOk(nodes, Values(b.of, Scaled(b.at)), p, w[p]) { assert WireOk(nodes, b, p, w[p]); }
  }

  lemma KeepsBoth(b: Values, e: Values, c: Values, ports: set<Port>, more: set<Port>)
    requires Keeps(b, e, ports) && Keeps(e, c, more)
    ensures Keeps(b, c, ports + more)
  {
  }

  /** What was undone before stays so. */
  lemma LaterUndone(nodes: NodeMap, b: Values, e: Values, c: Values, op: Op, ports: set<Port>)
    requires Undone(nodes, b, e, op) && Keeps(e, c, ports) && op.Old() !! ports
    ensures Undone(nodes, b, c, op)
  {
    match op
    case Splice(x, y) => assert x in op.Old() && y in op.Old();
    case Graft(x, h) => assert x in op.Old();
    case Join(_, _) =>
  }

  lemma FirstUndone(nodes: NodeMap, b: Values, e: Values, c: Values, ops: seq<Op>, ports: set<Port>)
    requires ops != [] && Undone(nodes, e, c, ops[0]) && Keeps(b, e, ports) && ops[0].Ports() !! ports
    requires forall h :: h in NewPorts(ops) ==> Has(b, h)
    ensures Undone(nodes, b, c, ops[0])
  {
    PortsOfMember(ops, 0);
    match ops[0]
    case Splice(x, y) =>
    case Graft(x, h) => assert h in ops[0].New() && h in ops[0].Ports();
    case Join(_, _) =>
  }

  /** Last, the wire between the two principal ports. */
  lemma UndoPrincipals(nodes: NodeMap, w: Wires, x: Port, y: Port, v: Val, b: Values) returns (c: Values)
    requires Paired(w) && x != y && x in w && w[x] == y && Wired(nodes, Apply(w, Splice(x, y)), b)
    requires x.owner in nodes && y.owner in nodes && Agree(nodes, x, y)
    ensures Wired(nodes, w, c) && Keeps(b, c, {x, y}) && Has(c, x) && Has(c, y) && c.of[x] == c.of[y] == v && c.at[x] <= 1 && c.at[y] <= 1
  {
    var t := if Flowing(nodes, x) == In then 1 else 0;
    var u := if Flowing(nodes, y) == In then 1 else 0;
    c := Values(b.of[x := v][y := v], Scaled(b.at)[x := t][y := u]);
    forall p | p in w ensures WireOk(nodes, c, p, w[p]) {
      if p !in {x, y} {
        assert Look(Apply(w, Splice(x, y)), p) == LookAfter(w, Splice(x, y), p);
        assert WireOk(nodes, b, p, w[p]);
      }
    }
  }

  // ----- undoing a firing -----

  lemma EditBack(net: Net, spot: Spots, s: Firing, k: nat)
    requires WellWired(net) && Nested(net, spot) && Enabled(net, s) && 1 <= k < |EditsAt(net, s.a, s.b, s.ids)|
    ensures var op := EditsAt(net, s.a, s.b, s.ids)[k];
      Undoable(Union(net, s.a, s.b, s.ids), op) && (op.Splice? ==> !SteadyIn(net, spot, s, op.x, op.y))
  {
    hide Nested, WellWired, Created, HasRule;
    CallsReact(net, spot, s);
    if RuleAt(net, s.a, s.b) == Annihilate { CallBack(net, spot, s, k - 1); } else { OtherBack(net, spot, s, k); }
  }

  lemma CallBack(net: Net, spot: Spots, s: Firing, i: nat)
    requires WellWired(net) && Nested(net, spot) && Enabled(net, s) && RuleAt(net, s.a, s.b) == Annihilate && i < 2
    ensures var op := Splice(A(Lead(net, s.a, s.b), i), A(Other(net, s.a, s.b), i));
      Undoable(Union(net, s.a, s.b, s.ids), op) && !SteadyIn(net, spot, s, op.x, op.y)
  {
    hide Goes, Less, Moved, MovedAll, Nested, CallSite, Inside, WellWired;
    FiringIsCall(net, spot, s);
    var (c, d) := if net.nodes[s.a].kind == Constructor then (s.a, s.b) else (s.b, s.a);
    CallPlaces(net, spot, c, d);
    UnionAgrees(net, s.a, s.b, s.ids);
    var v := spot[P(d)];
    LessUnder(v, [First], [Start]);
    LessUnder(v, [End], [Last]);
    BackwardSlots();
    assert {A(Lead(net, s.a, s.b), i), A(Other(net, s.a, s.b), i)} == {A(c, i), A(d, i)};
  }

  lemma BackwardSlots()
    ensures !Less([First], [Start]) && !Less([End], [Last])
  {
  }

  lemma OtherBack(net: Net, spot: Spots, s: Firing, k: nat)
    requires WellWired(net) && Nested(net, spot) && Enabled(net, s) && RuleAt(net, s.a, s.b) in {Erase, Select}
    requires 1 <= k < |EditsAt(net, s.a, s.b, s.ids)|
    ensures var op := EditsAt(net, s.a, s.b, s.ids)[k];
      Undoable(Union(net, s.a, s.b, s.ids), op) && (op.Splice? ==> !SteadyIn(net, spot, s, op.x, op.y))
  {
    hide Goes, Less, Nested, WellWired, Union, HasRule;
    CallsReact(net, spot, s);
    UnionAgrees(net, s.a, s.b, s.ids);
    var (x, y) := (Lead(net, s.a, s.b), Other(net, s.a, s.b));
    CallNodes(net, spot, y);
    var op := EditsAt(net, s.a, s.b, s.ids)[k];
    if op.Splice? {
      assert op == Splice(A(x, Kept(net.nodes[y])), A(x, 2));
      SwitchPlaces(net, spot, x);
      PostStrict(spot[A(x, 2)]);
    } else {
      assert op.Graft? && op.heir.owner in Union(net, s.a, s.b, s.ids) && Union(net, s.a, s.b, s.ids)[op.heir.owner].kind == Eraser;
    }
  }

  /** The edits of a firing after the first may be undone. */
  lemma FiringReversible(net: Net, spot: Spots, s: Firing)
    requires Closed(net) && Nested(net, spot) && Enabled(net, s)
    ensures var ops := EditsAt(net, s.a, s.b, s.ids);
      && |ops| > 0 && ops[0].Splice? && ops[0].x in net.wires && net.wires[ops[0].x] == ops[0].y
      && Reversible(Union(net, s.a, s.b, s.ids), Apply(net.wires, ops[0]), ops[1..], (p, q) => SteadyIn(net, spot, s, p, q))
  {
    hide Nested, EditsAt, Steady, SteadyIn, Faithful, Regular, HasRule, Union, Undoable, Bridges;
    CallsRegular(net, spot, s);
    var ops, all := EditsAt(net, s.a, s.b, s.ids), Union(net, s.a, s.b, s.ids);
    var rel := (p, q) => SteadyIn(net, spot, s, p, q);
    FirstSplice(net, s);
    FireFaithful(net, s.a, s.b, s.ids);
    RewriteLinear(net, RewriteAt(net, s.a, s.b, s.ids));
    LinearRest(net.wires, ops);
    OldNewApart(net.wires, ops);
    DropPrincipals(net.wires, ops[0].x, ops[0].y);
    OldPortsBound(net, s);
    forall p | p in Apply(net.wires, ops[0]) ensures rel(p, Apply(net.wires, ops[0])[p]) { WireIn(net, spot, s, p); }
    forall p, q | rel(p, q) ensures rel(q, p) && Agree(all, p, q) { SteadyAgrees(net, spot, s, p, q); }
    forall k | 0 <= k < |ops[1..]| ensures StepBack(all, ops[1..][k], rel) {
      EditSteady(net, spot, s, k + 1);
      EditBack(net, spot, s, k + 1);
    }
  }

  lemma OldPortsBound(net: Net, s: Firing)
    requires Closed(net) && Enabled(net, s) && Regular(net, s.a, s.b)
    ensures var ops := EditsAt(net, s.a, s.b, s.ids); ops != [] && OldPorts(ops[1..]) <= Apply(net.wires, ops[0]).Keys
  {
    hide EditsAt, Faithful, Regular, HasRule;
    FireFaithful(net, s.a, s.b, s.ids);
    var r := RewriteAt(net, s.a, s.b, s.ids);
    RewriteLinear(net, r);
    assert Wiring.Ready(net.wires, r.ops[0]) by { FirstSplice(net, s); }
    forall q | q in OldPorts(r.ops) ensures q in net.wires { ConsumedIsLive(net, r, q); }
    PortsOfMember(r.ops, 0);
    OldNewApart(net.wires, r.ops);
    ApplyKeys(net.wires, r.ops[0]);
  }

  lemma SteadyAgrees(net: Net, spot: Spots, s: Firing, p: Port, q: Port)
    requires WellWired(net) && Enabled(net, s) && SteadyIn(net, spot, s, p, q)
    ensures SteadyIn(net, spot, s, q, p) && Agree(Union(net, s.a, s.b, s.ids), p, q)
  {
    hide Goes, Less;
  }

  // ----- what erasers do -----

  function IndexOf(ids: seq<NodeId>, n: NodeId): (i: nat)
    requires n in ids
    ensures i < |ids| && ids[i] == n
  {
    if ids[0] == n then 0 else IndexOf(ids[1..], n) + 1
  }

  /** Whether a port acts as an output or an input: an eraser does as what it is wired to makes it, and one
      that takes over a port does as that port did. */
  function Acts(net: Net, s: Firing, p: Port): Flow
    requires s.a in net.nodes && s.b in net.nodes
  {
    if p.owner in s.ids then
      if RuleAt(net, s.a, s.b) == Erase then FlowOf(net.nodes[Other(net, s.a, s.b)].kind, IndexOf(s.ids, p.owner) + 1) else In
    else if p.owner !in net.nodes then Either
    else if net.nodes[p.owner].kind != Eraser then Flowing(net.nodes, p)
    else if p !in net.wires || net.wires[p].owner !in net.nodes || net.nodes[net.wires[p].owner].kind == Eraser then Either
    else if Flowing(net.nodes, net.wires[p]) == Out then In
    else Out
  }

  ghost predicate ActsOpposed(net: Net, s: Firing, p: Port, q: Port)
    requires s.a in net.nodes && s.b in net.nodes
  {
    Opposed(Acts(net, s, p), Acts(net, s, q))
  }

  lemma EditActs(net: Net, spot: Spots, s: Firing, k: nat)
    requires WellWired(net) && Nested(net, spot) && Enabled(net, s) && 1 <= k < |EditsAt(net, s.a, s.b, s.ids)|
    ensures Bridges(EditsAt(net, s.a, s.b, s.ids)[k], (p, q) => ActsOpposed(net, s, p, q))
  {
    hide Nested, WellWired, HasRule;
    CallsReact(net, spot, s);
    var (x, y) := (Lead(net, s.a, s.b), Other(net, s.a, s.b));
    var op := EditsAt(net, s.a, s.b, s.ids)[k];
    CallNodes(net, spot, x);
    CallNodes(net, spot, y);
    if op.Splice? {
      assert {Acts(net, s, op.x), Acts(net, s, op.y)} == {In, Out};
    } else {
      HeirActs(net, spot, s, k);
    }
  }

  lemma HeirActs(net: Net, spot: Spots, s: Firing, k: nat)
    requires WellWired(net) && Nested(net, spot) && Enabled(net, s) && 1 <= k < |EditsAt(net, s.a, s.b, s.ids)| && !EditsAt(net, s.a, s.b, s.ids)[k].Splice?
    ensures var op := EditsAt(net, s.a, s.b, s.ids)[k]; op.Graft? && Acts(net, s, op.heir) == Acts(net, s, op.x)
  {
    hide Nested, WellWired, HasRule;
    CallsReact(net, spot, s);
    var (x, y) := (Lead(net, s.a, s.b), Other(net, s.a, s.b));
    CallNodes(net, spot, y);
    if RuleAt(net, s.a, s.b) == Erase {
      var i := IndexOf(s.ids, s.ids[k - 1]);
      assert s.ids[i] == s.ids[k - 1];
    }
  }

  lemma FiredActs(net: Net, spot: Spots, s: Firing)
    requires WellWired(net) && Nested(net, spot) && Enabled(net, s)
    ensures Related(Fired(net, s).wires, (p, q) => ActsOpposed(net, s, p, q))
  {
    hide EditsAt, Faithful, Linear, Regular, HasRule, Bridges, Acts, Nested;
    CallsRegular(net, spot, s);
    var ops := EditsAt(net, s.a, s.b, s.ids);
    var rel := (p, q) => ActsOpposed(net, s, p, q);
    FireFaithful(net, s.a, s.b, s.ids);
    RewriteLinear(net, RewriteAt(net, s.a, s.b, s.ids));
    FirstSplice(net, s);
    forall k | 1 <= k < |ops| ensures Bridges(ops[k], rel) { EditActs(net, spot, s, k); }
    forall p | p in net.wires ensures rel(p, net.wires[p]) { WireActs(net, spot, s, p); }
    EditsRelated(net.wires, ops, rel);
  }

  lemma WireActs(net: Net, spot: Spots, s: Firing, p: Port)
    requires WellWired(net) && Nested(net, spot) && Enabled(net, s) && p in net.wires
    ensures ActsOpposed(net, s, p, net.wires[p])
  {
    hide AllSteady, Spread, HasRule, Placed;
    NestedIsTame(net, spot);
    var q := net.wires[p];
    assert Agree(net.nodes, p, q) && net.wires[q] == p && Live(net.nodes, p) && Live(net.nodes, q);
    assert net.nodes[p.owner].kind in CALL_KINDS && net.nodes[q.owner].kind in CALL_KINDS;
  }

  /** What acts as an output leads to no output afterwards. */
  lemma FeedsStill(net: Net, spot: Spots, s: Firing, p: Port)
    requires WellWired(net) && Nested(net, spot) && Enabled(net, s) && p in Fired(net, s).wires && Acts(net, s, p) == Out
    ensures var next := Fired(net, s); next.wires[p].owner in next.nodes && Flowing(next.nodes, next.wires[p]) != Out
  {
    hide Nested, HasRule, EditsAt, ApplyAll;
    var next := Fired(net, s);
    FiredActs(net, spot, s);
    FireWired(net, spot, s);
    var q := next.wires[p];
    assert ActsOpposed(net, s, p, q);
    assert Live(next.nodes, q);
    AddNodesAll(net.nodes - {s.a, s.b}, s.ids, CreatedAt(net, s.a, s.b));
    OnlyErasers(net, spot, s, q.owner);
  }

  // ----- one firing back -----

  function PrincipalVal(net: Net, s: Firing): Val
    requires s.a in net.nodes && s.b in net.nodes
  {
    ValOf(net.nodes, s.a, ValOf(net.nodes, s.b, Void))
  }

  function ValOf(nodes: NodeMap, n: NodeId, other: Val): Val
    requires n in nodes
  {
    if nodes[n].kind == Value then Known(nodes[n].payload) else if nodes[n].kind == Constructor then Clo(n) else other
  }

  /** b after the firing, c before it: every edit undone, and the pair's principal ports carry what its
      constant or closure is. */
  ghost predicate Back(net: Net, s: Firing, b: Values, c: Values)
    requires s.a in net.nodes && s.b in net.nodes && |s.ids| == |CreatedAt(net, s.a, s.b)|
  {
    var ops := EditsAt(net, s.a, s.b, s.ids);
    && |ops| > 0 && Keeps(b, c, PortsOf(ops)) && AllUndone(Union(net, s.a, s.b, s.ids), b, c, ops[1..])
    && Has(c, P(s.a)) && Has(c, P(s.b)) && c.of[P(s.a)] == c.of[P(s.b)] == PrincipalVal(net, s)
    && c.at[P(s.a)] <= 1 && c.at[P(s.b)] <= 1
    && (forall k :: 1 <= k < |ops| ==> Later(c, ops[k]))
    && Wired(net.nodes, net.wires, c)
  }

  /** Later than the principal ports. */
  predicate Later(c: Values, op: Op) {
    match op
    case Splice(x, y) => x in c.at && y in c.at && c.at[x] >= 2 && c.at[y] >= 2
    case Graft(x, _) => x in c.at && c.at[x] >= 2
    case Join(_, _) => true
  }

  lemma BackWires(net: Net, spot: Spots, s: Firing, b: Values) returns (c: Values)
    requires Closed(net) && Nested(net, spot) && Enabled(net, s) && Certified(Fired(net, s), b)
    ensures Back(net, s, b, c)
  {
    hide Nested, EditsAt, Wired, Keeps, Undone, Reversible, HasRule, Union, AllUndone, SteadyIn;
    var all, ops := Union(net, s.a, s.b, s.ids), EditsAt(net, s.a, s.b, s.ids);
    var rel := (p, q) => SteadyIn(net, spot, s, p, q);
    FiringReversible(net, spot, s);
    WiredInUnion(net, spot, s, b);
    HeirsHave(net, spot, s, b);
    var e := UndoAll(all, Apply(net.wires, ops[0]), ops[1..], rel, b);
    PrincipalsFace(net, spot, s);
    c := UndoPrincipals(all, net.wires, ops[0].x, ops[0].y, PrincipalVal(net, s), e);
    KeepsBoth(b, e, c, PortsOf(ops[1..]), {ops[0].x, ops[0].y});
    assert PortsOf(ops) == PortsOf(ops[1..]) + {ops[0].x, ops[0].y};
    assert OldPorts(ops[1..]) !! {ops[0].x, ops[0].y} by { RestApart(net, spot, s); }
    forall k | 0 <= k < |ops[1..]| ensures Undone(all, b, c, ops[1..][k]) && Later(c, ops[1..][k]) {
      UndoneAt(all, b, e, ops[1..], k);
      PortsOfMember(ops[1..], k);
      LaterUndone(all, b, e, c, ops[1..][k], {ops[0].x, ops[0].y});
      NowLater(all, b, e, c, ops[1..][k], {ops[0].x, ops[0].y});
    }
    forall k | 1 <= k < |ops| ensures Later(c, ops[k]) { assert ops[k] == ops[1..][k - 1]; }
    AllUndoneIs(all, b, c, ops[1..]);
    WiredBefore(net, spot, s, c);
  }

  lemma UndoneAt(nodes: NodeMap, b: Values, e: Values, ops: seq<Op>, k: nat)
    requires AllUndone(nodes, b, e, ops) && k < |ops|
    ensures Undone(nodes, b, e, ops[k])
  {
  }

  lemma AllUndoneIs(nodes: NodeMap, b: Values, c: Values, ops: seq<Op>)
    requires forall k :: 0 <= k < |ops| ==> Undone(nodes, b, c, ops[k])
    ensures AllUndone(nodes, b, c, ops)
  {
  }

  lemma NowLater(nodes: NodeMap, b: Values, e: Values, c: Values, op: Op, ports: set<Port>)
    requires Undone(nodes, b, e, op) && Keeps(e, c, ports) && op.Old() !! ports
    ensures Later(c, op)
  {
    match op
    case Splice(x, y) => assert x in op.Old() && y in op.Old();
    case Graft(x, h) => assert x in op.Old();
    case Join(_, _) =>
  }

  lemma RestApart(net: Net, spot: Spots, s: Firing)
    requires WellWired(net) && Nested(net, spot) && Enabled(net, s)
    ensures var ops := EditsAt(net, s.a, s.b, s.ids); ops != [] && ops[0].Splice? && OldPorts(ops[1..]) !! {ops[0].x, ops[0].y}
  {
    hide Nested, EditsAt, Faithful, HasRule, Regular;
    CallsRegular(net, spot, s);
    FirstSplice(net, s);
    FireFaithful(net, s.a, s.b, s.ids);
    RewriteLinear(net, RewriteAt(net, s.a, s.b, s.ids));
    OldNewApart(net.wires, EditsAt(net, s.a, s.b, s.ids));
  }

  lemma PrincipalsFace(net: Net, spot: Spots, s: Firing)
    requires WellWired(net) && Nested(net, spot) && Enabled(net, s)
    ensures var op := EditsAt(net, s.a, s.b, s.ids)[0];
      && op.Splice? && {op.x, op.y} == {P(s.a), P(s.b)} && op.x != op.y && op.x in net.wires && net.wires[op.x] == op.y
      && Agree(Union(net, s.a, s.b, s.ids), op.x, op.y)
  {
    hide Nested, HasRule, Union;
    NestedIsTame(net, spot);
    UnionAgrees(net, s.a, s.b, s.ids);
    var op := EditsAt(net, s.a, s.b, s.ids)[0];
    assert net.wires[P(s.b)] == P(s.a);
    assert Agree(net.nodes, op.x, net.wires[op.x]);
  }

  lemma WiredInUnion(net: Net, spot: Spots, s: Firing, b: Values)
    requires WellWired(net) && Nested(net, spot) && Enabled(net, s) && Certified(Fired(net, s), b)
    ensures var ops := EditsAt(net, s.a, s.b, s.ids); ops != [] && Wired(Union(net, s.a, s.b, s.ids), ApplyAll(Apply(net.wires, ops[0]), ops[1..]), b)
  {
    hide Nested, HasRule, EditsAt, NodeOk, EraserOk, Union, Created;
    FirstSplice(net, s);
    UnionAgrees(net, s.a, s.b, s.ids);
    var next := Fired(net, s);
    forall p | p in next.wires ensures WireOk(Union(net, s.a, s.b, s.ids), b, p, next.wires[p]) { assert WireOk(next.nodes, b, p, next.wires[p]); }
  }

  lemma WiredBefore(net: Net, spot: Spots, s: Firing, c: Values)
    requires WellWired(net) && Enabled(net, s) && Wired(Union(net, s.a, s.b, s.ids), net.wires, c)
    ensures Wired(net.nodes, net.wires, c)
  {
    hide Union, HasRule, EditsAt;
    UnionAgrees(net, s.a, s.b, s.ids);
    forall p | p in net.wires ensures WireOk(net.nodes, c, p, net.wires[p]) {
      assert WireOk(Union(net, s.a, s.b, s.ids), c, p, net.wires[p]);
      assert Live(net.nodes, p) && Live(net.nodes, net.wires[p]);
    }
  }

  lemma HeirsHave(net: Net, spot: Spots, s: Firing, b: Values)
    requires WellWired(net) && Nested(net, spot) && Enabled(net, s) && Certified(Fired(net, s), b)
    ensures var ops := EditsAt(net, s.a, s.b, s.ids); ops != [] && forall h :: h in NewPorts(ops[1..]) ==> Has(b, h)
  {
    hide Nested, HasRule, EditsAt, Wired, Regular, EraserOk;
    CallsRegular(net, spot, s);
    FirstSplice(net, s);
    FireFaithful(net, s.a, s.b, s.ids);
    var ops := EditsAt(net, s.a, s.b, s.ids);
    AddNodesAll(net.nodes - {s.a, s.b}, s.ids, CreatedAt(net, s.a, s.b));
    forall h | h in NewPorts(ops[1..]) ensures Has(b, h) {
      var k := NewPortFrom(ops[1..], h);
      assert ops[1..][k] == ops[k + 1];
      var i :| 0 <= i < |s.ids| && PortOf(CreatedAt(net, s.a, s.b)[i], s.ids[i], h);
      CreatedErased(net, spot, s, i);
      assert NodeOk(Fired(net, s).nodes, b, s.ids[i], EraserNode());
      assert h == P(s.ids[i]);
    }
  }

  lemma CreatedErased(net: Net, spot: Spots, s: Firing, i: nat)
    requires WellWired(net) && Nested(net, spot) && Enabled(net, s) && i < |s.ids|
    ensures CreatedAt(net, s.a, s.b)[i] == EraserNode()
  {
    hide Nested, HasRule;
    CallsReact(net, spot, s);
  }

  /** No edit touches a port of another node. */
  lemma TouchesPair(net: Net, spot: Spots, s: Firing, p: Port)
    requires WellWired(net) && Nested(net, spot) && Enabled(net, s) && p in PortsOf(EditsAt(net, s.a, s.b, s.ids))
    ensures p.owner in {s.a, s.b} || p.owner in s.ids
  {
    hide Nested, HasRule, EditsAt, Regular, Untangled;
    CallsRegular(net, spot, s);
    FireFaithful(net, s.a, s.b, s.ids);
    var ops := EditsAt(net, s.a, s.b, s.ids);
    var k: nat;
    if p in OldPorts(ops) { k := OldPortFrom(ops, p); } else { k := NewPortFrom(ops, p); }
    RewriteOwners(net, RewriteAt(net, s.a, s.b, s.ids), k, p);
  }

  ghost predicate BackFrom(net: Net, spot: Spots, s: Firing, b: Values, c: Values) {
    && Closed(net) && Nested(net, spot) && Enabled(net, s) && Certified(Fired(net, s), b) && Back(net, s, b, c)
  }

  lemma PortKept(net: Net, spot: Spots, s: Firing, b: Values, c: Values, p: Port)
    requires BackFrom(net, spot, s, b, c) && p.owner in net.nodes && p.owner !in {s.a, s.b}
    ensures p !in PortsOf(EditsAt(net, s.a, s.b, s.ids))
    ensures Has(b, p) ==> Has(c, p) && c.of[p] == b.of[p]
  {
    hide Nested, Certified, EditsAt, AllUndone, Closed;
    ClosedIs(net);
    if p in PortsOf(EditsAt(net, s.a, s.b, s.ids)) { TouchesPair(net, spot, s, p); }
  }

  /** A node that the firing leaves alone. */
  lemma KeptNode(net: Net, spot: Spots, s: Firing, b: Values, c: Values, n: NodeId)
    requires BackFrom(net, spot, s, b, c) && n in net.nodes && n !in {s.a, s.b}
    ensures NodeOk(net.nodes, c, n, net.nodes[n])
  {
    hide Nested, EditsAt, AllUndone, Closed, Wired, EraserOk, HasRule, Created;
    var next, x, ports := Fired(net, s), net.nodes[n], PortsOf(EditsAt(net, s.a, s.b, s.ids));
    AddNodesAll(net.nodes - {s.a, s.b}, s.ids, CreatedAt(net, s.a, s.b));
    assert n in next.nodes && next.nodes[n] == x && NodeOk(next.nodes, b, n, x);
    forall i: nat { PortKept(net, spot, s, b, c, Port(n, i)); }
    if x.kind == Destructor && b.of[P(n)].Clo? {
      var g := b.of[P(n)].id;
      StillClosure(net, spot, s, g);
      forall i: nat { PortKept(net, spot, s, b, c, Port(g, i)); }
      SameCall(net.nodes, b, c, ports, n, g);
    } else {
      SameNode(next.nodes, net.nodes, b, c, ports, n, x);
    }
  }

  lemma StillClosure(net: Net, spot: Spots, s: Firing, g: NodeId)
    requires Closed(net) && Nested(net, spot) && Enabled(net, s) && g in Fired(net, s).nodes && Fired(net, s).nodes[g].kind == Constructor
    ensures g in net.nodes && g !in {s.a, s.b} && net.nodes[g].kind == Constructor
  {
    OnlyErasers(net, spot, s, g);
  }

  lemma SameCall(nodes: NodeMap, b: Values, c: Values, ports: set<Port>, n: NodeId, g: NodeId)
    requires Keeps(b, c, ports) && PortsHave(b, n, Destructor) && b.at[P(n)] < b.at[A(n, 1)] && Passes(b, n, g)
    requires Has(b, P(n)) && b.of[P(n)] == Clo(g) && g in nodes && nodes[g].kind == Constructor && n in nodes && nodes[n].kind == Destructor
    requires forall i: nat :: Port(n, i) !in ports && Port(g, i) !in ports
    ensures NodeOk(nodes, c, n, nodes[n])
  {
    assert Has(c, P(n)) && Has(c, A(n, 0)) && Has(c, A(n, 1)) && Has(c, A(g, 0)) && Has(c, A(g, 1));
    forall i: nat | i <= Arity(Destructor) ensures Has(c, Port(n, i)) { assert Has(b, Port(n, i)); }
  }

  lemma SameNode(before: NodeMap, nodes: NodeMap, b: Values, c: Values, ports: set<Port>, n: NodeId, x: Node)
    requires Keeps(b, c, ports) && NodeOk(before, b, n, x) && (x.kind == Destructor ==> !b.of[P(n)].Clo?)
    requires forall i: nat :: Port(n, i) !in ports
    ensures NodeOk(nodes, c, n, x)
  {
    forall i: nat | i <= Arity(x.kind) ensures Has(c, Port(n, i)) { assert Has(b, Port(n, i)); }
  }

  // ----- the pair that fired -----

  lemma UndoneEdit(net: Net, spot: Spots, s: Firing, b: Values, c: Values, k: nat)
    requires BackFrom(net, spot, s, b, c) && 1 <= k < |EditsAt(net, s.a, s.b, s.ids)|
    ensures var op := EditsAt(net, s.a, s.b, s.ids)[k]; Undone(Union(net, s.a, s.b, s.ids), b, c, op) && Later(c, op)
  {
    hide Nested, Certified, EditsAt, Closed, Undone, Keeps, Wired, Later;
    assert EditsAt(net, s.a, s.b, s.ids)[1..][k - 1] == EditsAt(net, s.a, s.b, s.ids)[k];
    UndoneAt(Union(net, s.a, s.b, s.ids), b, c, EditsAt(net, s.a, s.b, s.ids)[1..], k - 1);
  }

  /** A closure that was called passes on what the call passes it. */
  lemma CalledOk(net: Net, spot: Spots, s: Firing, b: Values, c: Values)
    requires BackFrom(net, spot, s, b, c) && RuleAt(net, s.a, s.b) == Annihilate
    ensures NodeOk(net.nodes, c, s.a, net.nodes[s.a]) && NodeOk(net.nodes, c, s.b, net.nodes[s.b])
  {
    hide Nested, Certified, Closed, Keeps, Wired, Created, HasRule, Union, AllUndone, SwitchOk;
    assert WellWired(net) by { ClosedIs(net); }
    FiringIsCall(net, spot, s);
    CallsReact(net, spot, s);
    UnionAgrees(net, s.a, s.b, s.ids);
    UndoneEdit(net, spot, s, b, c, 1);
    UndoneEdit(net, spot, s, b, c, 2);
    var (k, d) := if net.nodes[s.a].kind == Constructor then (s.a, s.b) else (s.b, s.a);
    PairIs(net, s, k, d);
    assert EditsAt(net, s.a, s.b, s.ids)[1] in {Splice(A(k, 0), A(d, 0)), Splice(A(d, 0), A(k, 0))};
    assert EditsAt(net, s.a, s.b, s.ids)[2] in {Splice(A(k, 1), A(d, 1)), Splice(A(d, 1), A(k, 1))};
    assert Passes(c, d, k);
    ThreePorts(c, k);
    ThreePorts(c, d);
  }

  lemma PairIs(net: Net, s: Firing, k: NodeId, d: NodeId)
    requires s.a in net.nodes && s.b in net.nodes && {k, d} == {s.a, s.b} && net.nodes[k].kind == Constructor && net.nodes[d].kind == Destructor
    ensures PrincipalVal(net, s) == Clo(k)
  {
  }

  lemma ClosedIs(net: Net)
    requires Closed(net)
    ensures WellWired(net)
  {
  }

  lemma ThreePorts(c: Values, n: NodeId)
    requires Has(c, P(n)) && Has(c, A(n, 0)) && Has(c, A(n, 1))
    ensures PortsHave(c, n, Constructor) && PortsHave(c, n, Destructor)
  {
    forall i: nat | i <= 2 ensures Has(c, Port(n, i)) { assert Port(n, i) in {P(n), A(n, 0), A(n, 1)}; }
  }

  /** A switch that has chosen passes on the branch that it chose. */
  lemma SelectedOk(net: Net, spot: Spots, s: Firing, b: Values, c: Values)
    requires BackFrom(net, spot, s, b, c) && RuleAt(net, s.a, s.b) == Select
    ensures NodeOk(net.nodes, c, s.a, net.nodes[s.a]) && NodeOk(net.nodes, c, s.b, net.nodes[s.b])
  {
    hide Nested, Certified, Closed, Keeps, Wired, Created, HasRule, Union, AllUndone, CallOk;
    assert WellWired(net) by { ClosedIs(net); }
    CallsReact(net, spot, s);
    UnionAgrees(net, s.a, s.b, s.ids);
    UndoneEdit(net, spot, s, b, c, 1);
    UndoneEdit(net, spot, s, b, c, 2);
    var (x, y) := (Lead(net, s.a, s.b), Other(net, s.a, s.b));
    assert EditsAt(net, s.a, s.b, s.ids)[1] == Splice(A(x, Kept(net.nodes[y])), A(x, 2));
    assert EditsAt(net, s.a, s.b, s.ids)[2] == Graft(A(x, 1 - Kept(net.nodes[y])), P(s.ids[0]));
    assert PrincipalVal(net, s) == Known(net.nodes[y].payload);
    FourPorts(c, x);
    OnePort(c, y, Value);
  }

  lemma FourPorts(c: Values, n: NodeId)
    requires Has(c, P(n)) && Has(c, A(n, 0)) && Has(c, A(n, 1)) && Has(c, A(n, 2))
    ensures PortsHave(c, n, Switch)
  {
    forall i: nat | i <= 3 ensures Has(c, Port(n, i)) { assert Port(n, i) in {P(n), A(n, 0), A(n, 1), A(n, 2)}; }
  }

  lemma OnePort(c: Values, n: NodeId, k: Kind)
    requires Has(c, P(n)) && Arity(k) == 0
    ensures PortsHave(c, n, k)
  {
    forall i: nat | i <= Arity(k) ensures Has(c, Port(n, i)) { assert Port(n, i) == P(n); }
  }

  /** An eraser that takes over an output feeds nothing. */
  lemma HeirVoid(net: Net, spot: Spots, s: Firing, b: Values, i: nat)
    requires Closed(net) && Nested(net, spot) && Enabled(net, s) && Certified(Fired(net, s), b)
    requires RuleAt(net, s.a, s.b) == Erase && i < |s.ids| && FlowOf(net.nodes[Other(net, s.a, s.b)].kind, i + 1) == Out
    ensures P(s.ids[i]) in b.of && b.of[P(s.ids[i])] == Void
  {
    hide Nested, EditsAt, Wired, HasRule, Created, ApplyAll, NodeOk;
    var next, n := Fired(net, s), s.ids[i];
    FireWired(net, spot, s);
    AddNodesAll(net.nodes - {s.a, s.b}, s.ids, CreatedAt(net, s.a, s.b));
    CreatedErased(net, spot, s, i);
    assert next.nodes[n] == EraserNode() && Live(next.nodes, P(n));
    var j := IndexOf(s.ids, n);
    assert s.ids[j] == s.ids[i];
    FeedsStill(net, spot, s, P(n));
    assert EraserOk(next, b, n);
  }

  lemma ErasedEdit(net: Net, spot: Spots, s: Firing, b: Values, c: Values, i: nat)
    requires BackFrom(net, spot, s, b, c) && RuleAt(net, s.a, s.b) == Erase && i < |s.ids|
    ensures |s.ids| == |net.nodes[Other(net, s.a, s.b)].aux| == Arity(net.nodes[Other(net, s.a, s.b)].kind)
    ensures var p := A(Other(net, s.a, s.b), i); Has(c, p) && c.at[p] >= 2 && (FlowOf(net.nodes[p.owner].kind, i + 1) == Out ==> c.of[p] == Void)
  {
    hide Nested, Certified, Closed, Keeps, Wired, Created, HasRule, Union, AllUndone;
    ClosedIs(net);
    CallsReact(net, spot, s);
    CallNodes(net, spot, Other(net, s.a, s.b));
    UndoneEdit(net, spot, s, b, c, i + 1);
    assert EditsAt(net, s.a, s.b, s.ids)[i + 1] == Graft(A(Other(net, s.a, s.b), i), P(s.ids[i]));
    if FlowOf(net.nodes[Other(net, s.a, s.b)].kind, i + 1) == Out { HeirVoid(net, spot, s, b, i); }
  }

  /** What an eraser takes away carries nothing further. */
  lemma ErasedOk(net: Net, spot: Spots, s: Firing, b: Values, c: Values)
    requires BackFrom(net, spot, s, b, c) && RuleAt(net, s.a, s.b) == Erase
    ensures NodeOk(net.nodes, c, s.a, net.nodes[s.a]) && NodeOk(net.nodes, c, s.b, net.nodes[s.b])
  {
    hide Nested, Certified, Closed, Keeps, Wired, Created, HasRule, Union, AllUndone, EditsAt;
    ClosedIs(net);
    CallsReact(net, spot, s);
    var (x, y) := (Lead(net, s.a, s.b), Other(net, s.a, s.b));
    CallNodes(net, spot, y);
    forall i: nat | i < |s.ids| ensures Has(c, A(y, i)) && c.at[A(y, i)] >= 2 && (FlowOf(net.nodes[y].kind, i + 1) == Out ==> c.of[A(y, i)] == Void) {
      ErasedEdit(net, spot, s, b, c, i);
    }
    OnePort(c, x, Eraser);
    var k := net.nodes[y].kind;
    forall i: nat | i <= Arity(k) ensures Has(c, Port(y, i)) { if i > 0 { assert Port(y, i) == A(y, i - 1); } }
    ErasedNode(net.nodes, c, y, net.nodes[y], PrincipalVal(net, s));
  }

  lemma ErasedNode(nodes: NodeMap, c: Values, n: NodeId, x: Node, v: Val)
    requires PortsHave(c, n, x.kind) && Has(c, P(n)) && c.of[P(n)] == v && c.at[P(n)] <= 1 && x.kind in CALL_KINDS
    requires v == if x.kind == Value then Known(x.payload) else if x.kind == Constructor then Clo(n) else Void
    requires forall i: nat :: i < Arity(x.kind) ==> Has(c, A(n, i)) && c.at[A(n, i)] >= 2 && (FlowOf(x.kind, i + 1) == Out ==> c.of[A(n, i)] == Void)
    ensures NodeOk(nodes, c, n, x)
  {
  }

  /** An eraser that fed an input still does, or its firing had nothing on the other side. */
  lemma EraserBack(net: Net, spot: Spots, s: Firing, b: Values, c: Values, n: NodeId)
    requires BackFrom(net, spot, s, b, c) && n in net.nodes && net.nodes[n].kind == Eraser
    ensures EraserOk(net, c, n)
  {
    hide Nested, EditsAt, Wired, HasRule, Created, AllUndone, ApplyAll, NodeOk, Acts;
    ClosedIs(net);
    assert Live(net.nodes, P(n)) && Live(net.nodes, net.wires[P(n)]);
    if Flowing(net.nodes, net.wires[P(n)]) != Out {
      if n in {s.a, s.b} {
        PairVoid(net, spot, s, n);
      } else {
        PortKept(net, spot, s, b, c, P(n));
        StillFeeds(net, spot, s, n);
        AddNodesAll(net.nodes - {s.a, s.b}, s.ids, CreatedAt(net, s.a, s.b));
        HasErasers(Fired(net, s), b, n);
        assert EraserOk(Fired(net, s), b, n);
      }
    }
  }

  lemma PairVoid(net: Net, spot: Spots, s: Firing, n: NodeId)
    requires WellWired(net) && Nested(net, spot) && Enabled(net, s) && n in {s.a, s.b} && net.nodes[n].kind == Eraser
    requires Flowing(net.nodes, net.wires[P(n)]) != Out
    ensures PrincipalVal(net, s) == Void
  {
    hide Nested, HasRule;
    assert net.wires[P(s.a)] == P(s.b) && net.wires[P(s.b)] == P(s.a);
  }

  lemma StillFeeds(net: Net, spot: Spots, s: Firing, n: NodeId)
    requires Closed(net) && Nested(net, spot) && Enabled(net, s) && n in net.nodes && net.nodes[n].kind == Eraser && n !in {s.a, s.b}
    requires P(n) in net.wires && Live(net.nodes, net.wires[P(n)]) && Flowing(net.nodes, net.wires[P(n)]) != Out
    ensures var next := Fired(net, s);
      P(n) in next.wires && next.wires[P(n)].owner in next.nodes && Flowing(next.nodes, next.wires[P(n)]) != Out
  {
    hide Nested, EditsAt, HasRule, Created, ApplyAll, Regular;
    var next, q := Fired(net, s), net.wires[P(n)];
    ClosedIs(net);
    FireWired(net, spot, s);
    AddNodesAll(net.nodes - {s.a, s.b}, s.ids, CreatedAt(net, s.a, s.b));
    assert Live(next.nodes, P(n));
    if net.nodes[q.owner].kind == Eraser {
      ErasersStay(net, spot, s, n, q.owner);
    } else {
      assert Acts(net, s, P(n)) == Out;
      FeedsStill(net, spot, s, P(n));
    }
  }

  lemma ErasersStay(net: Net, spot: Spots, s: Firing, n: NodeId, m: NodeId)
    requires WellWired(net) && Nested(net, spot) && Enabled(net, s) && n in net.nodes && n !in {s.a, s.b} && m in net.nodes && net.nodes[m].kind == Eraser
    requires P(n) in net.wires && net.wires[P(n)].owner == m && Live(net.nodes, net.wires[P(n)])
    ensures P(n) in Fired(net, s).wires && Fired(net, s).wires[P(n)] == P(m) && m in Fired(net, s).nodes && Fired(net, s).nodes[m] == net.nodes[m]
  {
    hide Nested, EditsAt, HasRule, Created, ApplyAll, Regular, Faithful;
    CallNodes(net, spot, m);
    assert net.wires[P(n)] == P(m) && net.wires[P(m)] == P(n);
    assert net.wires[P(s.a)] == P(s.b) && net.wires[P(s.b)] == P(s.a);
    assert m !in {s.a, s.b};
    CallsRegular(net, spot, s);
    FireFaithful(net, s.a, s.b, s.ids);
    OthersStay(net, RewriteAt(net, s.a, s.b, s.ids), P(n));
  }

  /** Going back over one firing, what every port carries is found again. */
  lemma CertifyBack(net: Net, spot: Spots, s: Firing, b: Values) returns (c: Values)
    requires Closed(net) && Nested(net, spot) && Enabled(net, s) && Certified(Fired(net, s), b)
    ensures Certified(net, c) && Back(net, s, b, c)
  {
    hide Nested, EditsAt, Wired, HasRule, Created, NodeOk, EraserOk, Back, Closed, Fired;
    c := BackWires(net, spot, s, b);
    forall n | n in net.nodes ensures NodeOk(net.nodes, c, n, net.nodes[n]) {
      if n in {s.a, s.b} { PairOk(net, spot, s, b, c); } else { KeptNode(net, spot, s, b, c, n); }
    }
    forall n | n in net.nodes && net.nodes[n].kind == Eraser ensures EraserOk(net, c, n) { EraserBack(net, spot, s, b, c, n); }
    BackWired(net, s, b, c);
  }

  lemma BackWired(net: Net, s: Firing, b: Values, c: Values)
    requires s.a in net.nodes && s.b in net.nodes && |s.ids| == |CreatedAt(net, s.a, s.b)| && Back(net, s, b, c)
    ensures Wired(net.nodes, net.wires, c)
  {
  }

  lemma PairOk(net: Net, spot: Spots, s: Firing, b: Values, c: Values)
    requires BackFrom(net, spot, s, b, c)
    ensures NodeOk(net.nodes, c, s.a, net.nodes[s.a]) && NodeOk(net.nodes, c, s.b, net.nodes[s.b])
  {
    hide Nested, EditsAt, Wired, HasRule, Created, NodeOk, Back, Closed, Certified;
    ClosedIs(net);
    CallsReact(net, spot, s);
    match RuleAt(net, s.a, s.b)
    case Annihilate => CalledOk(net, spot, s, b, c);
    case Select => SelectedOk(net, spot, s, b, c);
    case Erase => ErasedOk(net, spot, s, b, c);
  }

  // ----- whole runs -----

  /** The first firing that takes e has v on its other side: the constant, a closure, or neither. */
  ghost predicate Meets(net: Net, run: seq<Firing>, e: NodeId, v: Val)
    requires CanRun(net, run)
    decreases |run|
  {
    run != [] &&
    if e == run[0].a then Faced(net.nodes, run[0].b, v)
    else if e == run[0].b then Faced(net.nodes, run[0].a, v)
    else Meets(Fired(net, run[0]), run[1..], e, v)
  }

  ghost predicate Faced(nodes: NodeMap, n: NodeId, v: Val) {
    n in nodes &&
    match v
    case Known(p) => nodes[n].kind == Value && nodes[n].payload == p
    case Clo(_) => nodes[n].kind == Constructor
    case Void => nodes[n].kind !in {Value, Constructor}
  }

  /** Every run that leaves nothing says what each port carries, and brings it to each eraser. */
  lemma {:induction false} RunCertifies(net: Net, spot: Spots, run: seq<Firing>) returns (c: Values)
    requires Closed(net) && Nested(net, spot) && CanRun(net, run) && Result(net, run).nodes == map[]
    ensures Certified(net, c)
    ensures forall e :: e in net.nodes && net.nodes[e].kind == Eraser ==> P(e) in c.of && Meets(net, run, e, c.of[P(e)])
    decreases |run|
  {
    hide Nested, Closed, Certified, Back, Fire;
    if run == [] {
      c := Values(map[], map[]);
      EmptyCertified(net, c);
    } else {
      ClosedIs(net);
      FireNested(net, spot, run[0]);
      var b := RunCertifies(Fired(net, run[0]), SpotsAfter(net, spot, run[0]), run[1..]);
      c := CertifyBack(net, spot, run[0], b);
      forall e | e in net.nodes && net.nodes[e].kind == Eraser ensures P(e) in c.of && Meets(net, run, e, c.of[P(e)]) {
        EraserMeets(net, spot, run, b, c, e);
      }
    }
  }

  lemma EmptyCertified(net: Net, c: Values)
    requires Closed(net) && net.nodes == map[]
    ensures Certified(net, c)
  {
    assert forall p :: p in net.wires ==> Live(net.nodes, p);
    assert net.wires == map[];
  }

  lemma EraserMeets(net: Net, spot: Spots, run: seq<Firing>, b: Values, c: Values, e: NodeId)
    requires run != [] && CanRun(net, run) && BackFrom(net, spot, run[0], b, c) && Certified(net, c)
    requires e in net.nodes && net.nodes[e].kind == Eraser
    requires var next := Fired(net, run[0]); forall n :: n in next.nodes && next.nodes[n].kind == Eraser ==> P(n) in b.of && Meets(next, run[1..], n, b.of[P(n)])
    ensures P(e) in c.of && Meets(net, run, e, c.of[P(e)])
  {
    hide Nested, Closed, Certified, EditsAt, AllUndone, Wired, Keeps, HasRule, Created, ApplyAll;
    var s := run[0];
    if e !in {s.a, s.b} {
      AddNodesAll(net.nodes - {s.a, s.b}, s.ids, CreatedAt(net, s.a, s.b));
      PortKept(net, spot, s, b, c, P(e));
      HasErasers(Fired(net, s), b, e);
    }
  }

  lemma HasErasers(net: Net, c: Values, e: NodeId)
    requires Certified(net, c) && e in net.nodes
    ensures Has(c, P(e))
  {
    assert NodeOk(net.nodes, c, e, net.nodes[e]);
  }
}
