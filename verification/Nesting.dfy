/** Nets of closures and calls without duplicators, with a place for every port: each closure's body is
    nested in it, data flows to later places that are in at least the same closures, and a call moves
    the body to the place of the call. Such a net is stuck only where a constant is called or a
    closure is asked to choose. */
module Nesting {
  import opened Wiring
  import opened Nets
  import opened Conservation
  import opened Polarity
  import opened Confluence
  import opened NormalForms
  import opened Places

  const CALL_KINDS := {Value, Eraser, Switch, Constructor, Destructor}

  type Spots = map<Port, Place>

  predicate Solid(nodes: NodeMap, n: NodeId) {
    n in nodes && nodes[n].kind != Eraser
  }

  /** A call and a switch are at one place; a closure's argument and return path are the first and the
      last place inside it. */
  ghost predicate Placed(spot: Spots, n: NodeId, k: Kind) {
    && P(n) in spot
    && (k == Constructor ==> A(n, 0) in spot && A(n, 1) in spot && spot[A(n, 0)] == spot[P(n)] + [First] && spot[A(n, 1)] == spot[P(n)] + [Last])
    && (k == Destructor ==> A(n, 0) in spot && A(n, 1) in spot && spot[A(n, 0)] == spot[A(n, 1)] == spot[P(n)])
    && (k == Switch ==> A(n, 0) in spot && A(n, 1) in spot && A(n, 2) in spot && spot[A(n, 0)] == spot[A(n, 1)] == spot[A(n, 2)] == spot[P(n)])
  }

  function Boxes(nodes: NodeMap, spot: Spots): set<Place> {
    set n | n in nodes && nodes[n].kind == Constructor && P(n) in spot :: spot[P(n)]
  }

  /** Data flows from p to q. */
  ghost predicate Leads(nodes: NodeMap, spot: Spots, boxes: set<Place>, p: Port, q: Port)
    requires p.owner in nodes && q.owner in nodes
  {
    && p in spot && q in spot && FlowOf(nodes[p.owner].kind, p.index) == Out && FlowOf(nodes[q.owner].kind, q.index) == In
    && Less(spot[p], spot[q]) && Goes(boxes, spot[p], spot[q])
  }

  ghost predicate Steady(nodes: NodeMap, spot: Spots, boxes: set<Place>, p: Port, q: Port) {
    && p.owner in nodes && q.owner in nodes
    && (nodes[p.owner].kind == Eraser || nodes[q.owner].kind == Eraser
        || Leads(nodes, spot, boxes, p, q) || Leads(nodes, spot, boxes, q, p))
  }

  /** No two nodes are at one place, and only closures have other nodes inside. */
  ghost predicate Spread(nodes: NodeMap, spot: Spots) {
    forall n, m :: Solid(nodes, n) && Solid(nodes, m) && n != m && P(n) in spot && P(m) in spot ==>
      spot[P(n)] != spot[P(m)] && (Inside(spot[P(n)], spot[P(m)]) ==> nodes[n].kind == Constructor)
  }

  ghost predicate AllSteady(nodes: NodeMap, w: Wires, spot: Spots, boxes: set<Place>) {
    forall p :: p in w ==> Steady(nodes, spot, boxes, p, w[p])
  }

  ghost predicate Nested(net: Net, spot: Spots) {
    && (forall n :: n in net.nodes ==> net.nodes[n].kind in CALL_KINDS)
    && (forall n :: Solid(net.nodes, n) ==> Placed(spot, n, net.nodes[n].kind))
    && AllSteady(net.nodes, net.wires, spot, Boxes(net.nodes, spot)) && Spread(net.nodes, spot)
  }

  ghost predicate Nestable(net: Net) {
    exists spot :: Nested(net, spot)
  }

  lemma NestedIsTame(net: Net, spot: Spots)
    requires WellWired(net) && Nested(net, spot)
    ensures Tame(net)
  {
    forall p | p in net.wires ensures Agree(net.nodes, p, net.wires[p]) {
      assert Steady(net.nodes, spot, Boxes(net.nodes, spot), p, net.wires[p]);
      assert Live(net.nodes, p) && Live(net.nodes, net.wires[p]);
    }
  }

  /** The three ways for a pair to react. */
  lemma CallsReact(net: Net, spot: Spots, s: Firing)
    requires WellWired(net) && Nested(net, spot) && Enabled(net, s)
    ensures var (x, y) := (net.nodes[Lead(net, s.a, s.b)], net.nodes[Other(net, s.a, s.b)]);
      match RuleAt(net, s.a, s.b)
      case Annihilate => {x.kind, y.kind} == {Constructor, Destructor} && |x.aux| == |y.aux| == 2 && s.ids == []
      case Duplicate => false
      case Erase => x.kind == Eraser && |s.ids| == |y.aux|
      case Select => x.kind == Switch && y.kind == Value && |x.aux| == 3 && y.aux == [] && |s.ids| == 1
      case Project => false
  {
    hide Nested, Polarised, HasRule, WellWired;
    CallKinds(net, spot, s.a, s.b);
    CallNodes(net, spot, s.a);
    CallNodes(net, spot, s.b);
  }

  lemma CallKinds(net: Net, spot: Spots, a: NodeId, b: NodeId)
    requires WellWired(net) && Nested(net, spot) && Reducible(net, a, b)
    ensures var (x, y) := (net.nodes[Lead(net, a, b)].kind, net.nodes[Other(net, a, b)].kind);
      && x in CALL_KINDS && y in CALL_KINDS
      && match RuleAt(net, a, b)
         case Annihilate => {x, y} == {Constructor, Destructor}
         case Duplicate => false
         case Erase => x == Eraser
         case Select => x == Switch && y == Value
         case Project => false
  {
    NestedIsTame(net, spot);
    hide Nested, Polarised, HasRule, WellWired, RuleFor, Swapped, CALL_KINDS;
    CallNodes(net, spot, a);
    CallNodes(net, spot, b);
    ReactingKinds(net, a, b);
    assert forall k :: k in CALL_KINDS ==> k !in {Duplicator, Boundary, Projection} by { OnlyCalls(); }
  }

  lemma OnlyCalls()
    ensures forall k :: k in CALL_KINDS ==> k !in {Duplicator, Boundary, Projection}
  {
  }

  lemma CallNodes(net: Net, spot: Spots, n: NodeId)
    requires WellWired(net) && Nested(net, spot) && n in net.nodes
    ensures net.nodes[n].kind in CALL_KINDS && |net.nodes[n].aux| == Arity(net.nodes[n].kind)
  {
  }

  lemma CallsRegular(net: Net, spot: Spots, s: Firing)
    requires WellWired(net) && Nested(net, spot) && Enabled(net, s)
    ensures Regular(net, s.a, s.b)
  {
    NestedIsTame(net, spot);
    TameIsRegular(net, s);
  }

  // ----- one firing -----

  /** Splicing an input and an output at one place, or at one place and a later one. */
  lemma SpliceSteady(all: NodeMap, spot: Spots, boxes: set<Place>, x: Port, y: Port)
    requires x.owner in all && y.owner in all && x in spot && y in spot
    requires all[x.owner].kind != Eraser && all[y.owner].kind != Eraser
    requires {FlowOf(all[x.owner].kind, x.index), FlowOf(all[y.owner].kind, y.index)} == {In, Out}
    requires FlowOf(all[x.owner].kind, x.index) == In ==> Goes(boxes, spot[x], spot[y])
    requires FlowOf(all[y.owner].kind, y.index) == In ==> Goes(boxes, spot[y], spot[x])
    ensures Bridges(Splice(x, y), (p, q) => Steady(all, spot, boxes, p, q))
  {
    hide Goes, Less;
    forall s, t | Steady(all, spot, boxes, s, x) && Steady(all, spot, boxes, y, t) ensures Steady(all, spot, boxes, s, t) {
      if all[s.owner].kind != Eraser && all[t.owner].kind != Eraser {
        if FlowOf(all[x.owner].kind, x.index) == In {
          GoesTrans(boxes, spot[s], spot[x], spot[y]);
          GoesTrans(boxes, spot[s], spot[y], spot[t]);
        } else {
          GoesTrans(boxes, spot[t], spot[y], spot[x]);
          GoesTrans(boxes, spot[t], spot[x], spot[s]);
        }
      }
    }
  }

  /** The places after a firing: a call moves the closure's body to its own place. */
  function SpotsAfter(net: Net, spot: Spots, s: Firing): Spots
    requires s.a in net.nodes && s.b in net.nodes
  {
    if RuleAt(net, s.a, s.b) != Annihilate then spot
    else
      var (c, d) := if net.nodes[s.a].kind == Constructor then (s.a, s.b) else (s.b, s.a);
      CallSpots(spot, c, d)
  }

  function CallSpots(spot: Spots, c: NodeId, d: NodeId): Spots {
    map p | p in spot :: if P(c) !in spot || P(d) !in spot then spot[p]
                         else if p == A(d, 0) then spot[P(d)] + [Start]
                         else if p == A(d, 1) then spot[P(d)] + [End]
                         else Moved(spot[P(c)], spot[P(d)], spot[p])
  }

  function BoxesAfter(net: Net, spot: Spots, s: Firing): set<Place>
    requires s.a in net.nodes && s.b in net.nodes
  {
    var boxes := Boxes(net.nodes, spot);
    if RuleAt(net, s.a, s.b) != Annihilate then boxes
    else
      var (c, d) := if net.nodes[s.a].kind == Constructor then (s.a, s.b) else (s.b, s.a);
      if P(c) !in spot || P(d) !in spot then boxes else MovedAll(spot[P(c)], spot[P(d)], boxes)
  }

  /** A constructor faces a destructor. */
  ghost predicate CallAt(net: Net, spot: Spots, c: NodeId, d: NodeId) {
    && WellWired(net) && Nested(net, spot) && c in net.nodes && d in net.nodes
    && net.nodes[c].kind == Constructor && net.nodes[d].kind == Destructor
    && P(c) in net.wires && net.wires[P(c)] == P(d)
  }

  lemma NothingInside(net: Net, spot: Spots, d: NodeId, p: Port)
    requires WellWired(net) && Nested(net, spot) && d in net.nodes && net.nodes[d].kind == Destructor
    requires Live(net.nodes, p) && Solid(net.nodes, p.owner)
    ensures p in spot && P(d) in spot && !Inside(spot[P(d)], spot[p])
    ensures p.owner != d && p.index == 0 ==> !Prefix(spot[P(d)], spot[p])
  {
    hide Less, Goes, AllSteady;
    var n := p.owner;
    assert Placed(spot, n, net.nodes[n].kind) && Placed(spot, d, Destructor);
    assert p.index <= 3;
    if n != d { assert !Inside(spot[P(d)], spot[P(n)]) && spot[P(n)] != spot[P(d)]; }
    if p.index > 0 && net.nodes[n].kind == Constructor {
      assert exists x :: spot[p] == spot[P(n)] + [x];
      var x :| spot[p] == spot[P(n)] + [x];
      OneMore(spot[P(d)], spot[P(n)], x);
    }
  }

  lemma OneMore(b: Place, s: Place, x: Slot)
    ensures Inside(b, s + [x]) <==> b == s || Inside(b, s)
  {
    if |b| <= |s| { assert (s + [x])[..|b|] == s[..|b|]; }
  }

  lemma CallIsSite(net: Net, spot: Spots, c: NodeId, d: NodeId)
    requires CallAt(net, spot, c, d)
    ensures P(c) in spot && P(d) in spot && CallSite(Boxes(net.nodes, spot), spot[P(c)], spot[P(d)])
  {
    hide Less, Goes;
    assert Steady(net.nodes, spot, Boxes(net.nodes, spot), P(c), P(d));
    assert Placed(spot, c, Constructor) && Placed(spot, d, Destructor);
    forall b | b in Boxes(net.nodes, spot) ensures !Prefix(spot[P(d)], b) {
      var n :| n in net.nodes && net.nodes[n].kind == Constructor && P(n) in spot && b == spot[P(n)];
      NothingInside(net, spot, d, P(n));
    }
  }

  lemma NoBoxThere(boxes: set<Place>, u: Place, v: Place)
    requires CallSite(boxes, u, v)
    ensures v !in MovedAll(u, v, boxes)
  {
    hide Less, Goes;
    assert v[..|v|] == v;
    forall b | b in boxes ensures Moved(u, v, b) != v { assert !Prefix(v, b); }
  }

  /** A wire before a call, at the places after it. */
  lemma WireMoves(net: Net, spot: Spots, c: NodeId, d: NodeId, p: Port, q: Port)
    requires CallAt(net, spot, c, d) && p in net.wires && net.wires[p] == q && Leads(net.nodes, spot, Boxes(net.nodes, spot), p, q)
    ensures P(c) in spot && P(d) in spot
    ensures Leads(net.nodes, CallSpots(spot, c, d), MovedAll(spot[P(c)], spot[P(d)], Boxes(net.nodes, spot)), p, q)
  {
    hide Goes, Less, Moved, MovedAll, Nested, Inside;
    CallIsSite(net, spot, c, d);
    var u, v, boxes := spot[P(c)], spot[P(d)], Boxes(net.nodes, spot);
    LessStrict(spot[p], spot[q]);
    CallPlaces(net, spot, c, d);
    CallWires(net, spot, c, d);
    NothingInside(net, spot, d, p);
    NothingInside(net, spot, d, q);
    MovedGoes(boxes, u, v, spot[p], spot[q]);
    EndsMove(boxes, u, v, Moved(u, v, spot[p]), Moved(u, v, spot[q]));
    assert p.owner == d ==> p == A(d, 1);
    assert q.owner == d ==> q in {P(d), A(d, 0)};
  }

  /** What goes to the call, or comes from it, goes to its start and comes from its end. */
  lemma EndsMove(boxes: set<Place>, u: Place, v: Place, s: Place, t: Place)
    requires CallSite(boxes, u, v) && Less(s, t) && Goes(MovedAll(u, v, boxes), s, t)
    ensures t == v ==> Less(s, v + [Start]) && Goes(MovedAll(u, v, boxes), s, v + [Start])
    ensures s == v ==> Less(v + [End], t) && Goes(MovedAll(u, v, boxes), v + [End], t)
  {
    hide Less, CallSite, MovedAll;
    NoBoxThere(boxes, u, v);
    forall b, x { OneMore(b, v, x); }
    if t == v { LessInside(s, v, v + [Start]); }
    if s == v { InsideLess(v + [End], v, t); }
  }

  lemma CallPlaces(net: Net, spot: Spots, c: NodeId, d: NodeId)
    requires CallAt(net, spot, c, d)
    ensures A(d, 0) in spot && A(d, 1) in spot && A(c, 0) in spot && A(c, 1) in spot && P(c) in spot && P(d) in spot
    ensures spot[A(d, 0)] == spot[A(d, 1)] == spot[P(d)]
    ensures Moved(spot[P(c)], spot[P(d)], spot[P(d)]) == spot[P(d)] && Moved(spot[P(c)], spot[P(d)], spot[P(c)]) == spot[P(c)]
    ensures Moved(spot[P(c)], spot[P(d)], spot[A(c, 0)]) == spot[P(d)] + [First]
    ensures Moved(spot[P(c)], spot[P(d)], spot[A(c, 1)]) == spot[P(d)] + [Last]
  {
    hide AllSteady, Spread, Less, Goes;
    assert Placed(spot, c, Constructor) && Placed(spot, d, Destructor);
    CallIsSite(net, spot, c, d);
    LessStrict(spot[P(c)], spot[P(d)]);
    OneMore(spot[P(c)], spot[P(c)], First);
    OneMore(spot[P(c)], spot[P(c)], Last);
  }

  lemma CallWires(net: Net, spot: Spots, c: NodeId, d: NodeId)
    requires CallAt(net, spot, c, d)
    ensures forall p :: p in net.wires ==> Live(net.nodes, p) && Live(net.nodes, net.wires[p])
    ensures forall p: Port :: Live(net.nodes, p) && p.owner == d ==> p in {P(d), A(d, 0), A(d, 1)}
    ensures FlowOf(Destructor, 0) == FlowOf(Destructor, 1) == In && FlowOf(Destructor, 2) == Out
  {
    hide Nested;
    forall p: Port | Live(net.nodes, p) && p.owner == d ensures p in {P(d), A(d, 0), A(d, 1)} { assert p.index in {0, 1, 2}; }
  }

  lemma WireStays(net: Net, spot: Spots, s: Firing, p: Port)
    requires WellWired(net) && Nested(net, spot) && Enabled(net, s) && p in net.wires
    ensures Steady(net.nodes, SpotsAfter(net, spot, s), BoxesAfter(net, spot, s), p, net.wires[p])
  {
    hide Nested, WellWired, Leads, MovedAll, CallSpots, Boxes, HasRule;
    SteadyNow(net, spot, p);
    if RuleAt(net, s.a, s.b) == Annihilate {
      var (c, d) := if net.nodes[s.a].kind == Constructor then (s.a, s.b) else (s.b, s.a);
      FiringIsCall(net, spot, s);
      var q := net.wires[p];
      CallIsSite(net, spot, c, d);
      if net.nodes[p.owner].kind != Eraser && net.nodes[q.owner].kind != Eraser {
        if Leads(net.nodes, spot, Boxes(net.nodes, spot), p, q) { WireMoves(net, spot, c, d, p, q); } else { WireMoves(net, spot, c, d, q, p); }
      }
    }
  }

  lemma SteadyNow(net: Net, spot: Spots, p: Port)
    requires WellWired(net) && Nested(net, spot) && p in net.wires
    ensures Steady(net.nodes, spot, Boxes(net.nodes, spot), p, net.wires[p]) && net.wires[p] in net.wires && net.wires[net.wires[p]] == p
  {
  }

  lemma FiringIsCall(net: Net, spot: Spots, s: Firing)
    requires WellWired(net) && Nested(net, spot) && Enabled(net, s) && RuleAt(net, s.a, s.b) == Annihilate
    ensures var (c, d) := if net.nodes[s.a].kind == Constructor then (s.a, s.b) else (s.b, s.a); CallAt(net, spot, c, d)
    ensures s.ids == [] && CreatedAt(net, s.a, s.b) == []
  {
    hide Nested;
    CallsReact(net, spot, s);
  }

  /** From the call's start to the argument, and from the return path to the call's end. */
  lemma CallGoes(boxes: set<Place>, u: Place, v: Place)
    requires CallSite(boxes, u, v)
    ensures Goes(MovedAll(u, v, boxes), v + [Start], v + [First]) && Goes(MovedAll(u, v, boxes), v + [Last], v + [End])
  {
    hide CallSite, MovedAll;
    NoBoxThere(boxes, u, v);
    forall b, x { OneMore(b, v, x); }
    LessUnder(v, [Start], [First]);
    LessUnder(v, [Last], [End]);
  }

  lemma SameBridges(op: Op, rel: (Port, Port) -> bool, alt: (Port, Port) -> bool)
    requires Bridges(op, rel) && forall p, q :: rel(p, q) == alt(p, q)
    ensures Bridges(op, alt)
  {
    forall p, q ensures rel(p, q) == alt(p, q) {}
  }

  /** The nodes of all, with the places after a firing. */
  ghost predicate SteadyIn(net: Net, spot: Spots, s: Firing, p: Port, q: Port)
    requires s.a in net.nodes && s.b in net.nodes && |s.ids| == |CreatedAt(net, s.a, s.b)|
  {
    Steady(Union(net, s.a, s.b, s.ids), SpotsAfter(net, spot, s), BoxesAfter(net, spot, s), p, q)
  }

  lemma CallEditSteady(net: Net, spot: Spots, s: Firing, i: nat)
    requires WellWired(net) && Nested(net, spot) && Enabled(net, s) && RuleAt(net, s.a, s.b) == Annihilate && i < 2
    ensures Bridges(Splice(A(Lead(net, s.a, s.b), i), A(Other(net, s.a, s.b), i)), (p, q) => SteadyIn(net, spot, s, p, q))
  {
    hide Goes, Less, Moved, MovedAll, Nested, CallSite, Steady, Inside, WellWired;
    FiringIsCall(net, spot, s);
    var (c, d) := if net.nodes[s.a].kind == Constructor then (s.a, s.b) else (s.b, s.a);
    var all, next, boxes := Union(net, s.a, s.b, s.ids), SpotsAfter(net, spot, s), BoxesAfter(net, spot, s);
    CallPlaces(net, spot, c, d);
    CallIsSite(net, spot, c, d);
    CallGoes(Boxes(net.nodes, spot), spot[P(c)], spot[P(d)]);
    UnionAgrees(net, s.a, s.b, s.ids);
    var x, y := A(Lead(net, s.a, s.b), i), A(Other(net, s.a, s.b), i);
    assert {x, y} == {A(c, i), A(d, i)};
    SpliceSteady(all, next, boxes, x, y);
    SameBridges(Splice(x, y), (p, q) => Steady(all, next, boxes, p, q), (p, q) => SteadyIn(net, spot, s, p, q));
  }

  lemma OtherEditSteady(net: Net, spot: Spots, s: Firing, k: nat)
    requires WellWired(net) && Nested(net, spot) && Enabled(net, s) && RuleAt(net, s.a, s.b) in {Erase, Select}
    requires 1 <= k < |EditsAt(net, s.a, s.b, s.ids)|
    ensures Bridges(EditsAt(net, s.a, s.b, s.ids)[k], (p, q) => SteadyIn(net, spot, s, p, q))
  {
    hide Goes, Less, Nested, WellWired, Union, Leads;
    CallsReact(net, spot, s);
    UnionAgrees(net, s.a, s.b, s.ids);
    var (x, y) := (Lead(net, s.a, s.b), Other(net, s.a, s.b));
    var op := EditsAt(net, s.a, s.b, s.ids)[k];
    if op.Splice? {
      assert op == Splice(A(x, Kept(net.nodes[y])), A(x, 2));
      SwitchPlaces(net, spot, x);
      var all, boxes := Union(net, s.a, s.b, s.ids), Boxes(net.nodes, spot);
      SpliceSteady(all, spot, boxes, op.x, op.y);
      SameBridges(op, (p, q) => Steady(all, spot, boxes, p, q), (p, q) => SteadyIn(net, spot, s, p, q));
    } else {
      assert op.Graft? && op.heir.owner in Union(net, s.a, s.b, s.ids) && Union(net, s.a, s.b, s.ids)[op.heir.owner].kind == Eraser;
    }
  }

  lemma SwitchPlaces(net: Net, spot: Spots, n: NodeId)
    requires Nested(net, spot) && n in net.nodes && net.nodes[n].kind == Switch
    ensures A(n, 0) in spot && A(n, 1) in spot && A(n, 2) in spot && spot[A(n, 0)] == spot[A(n, 1)] == spot[A(n, 2)]
    ensures Goes(Boxes(net.nodes, spot), spot[A(n, 0)], spot[A(n, 2)]) && Goes(Boxes(net.nodes, spot), spot[A(n, 1)], spot[A(n, 2)])
  {
    assert Placed(spot, n, Switch);
  }

  lemma EditSteady(net: Net, spot: Spots, s: Firing, k: nat)
    requires WellWired(net) && Nested(net, spot) && Enabled(net, s) && 1 <= k < |EditsAt(net, s.a, s.b, s.ids)|
    ensures Bridges(EditsAt(net, s.a, s.b, s.ids)[k], (p, q) => SteadyIn(net, spot, s, p, q))
  {
    hide Nested, WellWired, Bridges, SteadyIn, Created;
    CallsReact(net, spot, s);
    if RuleAt(net, s.a, s.b) == Annihilate { CallEditSteady(net, spot, s, k - 1); } else { OtherEditSteady(net, spot, s, k); }
  }

  lemma FireSteady(net: Net, spot: Spots, s: Firing)
    requires WellWired(net) && Nested(net, spot) && Enabled(net, s)
    ensures Related(Fired(net, s).wires, (p, q) => SteadyIn(net, spot, s, p, q))
  {
    hide Nested, EditsAt, Steady, Faithful, Linear, Regular, HasRule, Bridges, Union, SpotsAfter, BoxesAfter;
    CallsRegular(net, spot, s);
    var ops := EditsAt(net, s.a, s.b, s.ids);
    var rel := (p, q) => SteadyIn(net, spot, s, p, q);
    FireFaithful(net, s.a, s.b, s.ids);
    RewriteLinear(net, RewriteAt(net, s.a, s.b, s.ids));
    FirstSplice(net, s);
    forall k | 1 <= k < |ops| ensures Bridges(ops[k], rel) { EditSteady(net, spot, s, k); }
    forall p | p in net.wires ensures rel(p, net.wires[p]) { WireIn(net, spot, s, p); }
    forall p, q | rel(p, q) ensures rel(q, p) { SteadyBack(Union(net, s.a, s.b, s.ids), SpotsAfter(net, spot, s), BoxesAfter(net, spot, s), p, q); }
    EditsRelated(net.wires, ops, rel);
  }

  lemma FirstSplice(net: Net, s: Firing)
    requires WellWired(net) && Enabled(net, s)
    ensures var ops := EditsAt(net, s.a, s.b, s.ids);
            |ops| > 0 && ops[0].Splice? && ops[0].x in net.wires && net.wires[ops[0].x] == ops[0].y
  {
  }

  lemma SteadyBack(nodes: NodeMap, spot: Spots, boxes: set<Place>, p: Port, q: Port)
    requires Steady(nodes, spot, boxes, p, q)
    ensures Steady(nodes, spot, boxes, q, p)
  {
  }

  lemma WireIn(net: Net, spot: Spots, s: Firing, p: Port)
    requires WellWired(net) && Nested(net, spot) && Enabled(net, s) && p in net.wires
    ensures SteadyIn(net, spot, s, p, net.wires[p])
  {
    hide Nested, WellWired, Union, SpotsAfter, BoxesAfter, Less, Goes, HasRule;
    WireStays(net, spot, s, p);
    UnionAgrees(net, s.a, s.b, s.ids);
  }

  /** A firing makes erasers only. */
  lemma OnlyErasers(net: Net, spot: Spots, s: Firing, n: NodeId)
    requires WellWired(net) && Nested(net, spot) && Enabled(net, s) && n in Fired(net, s).nodes
    ensures Fired(net, s).nodes[n].kind in CALL_KINDS
    ensures Solid(Fired(net, s).nodes, n) ==> n in net.nodes && n != s.a && n != s.b && net.nodes[n] == Fired(net, s).nodes[n]
  {
    hide EditsAt, AllSteady, Spread, WellWired;
    AddNodesAll(net.nodes - {s.a, s.b}, s.ids, CreatedAt(net, s.a, s.b));
    if n in s.ids {
      var i :| 0 <= i < |s.ids| && s.ids[i] == n;
      CallsReact(net, spot, s);
    }
  }

  lemma StillPlaced(net: Net, spot: Spots, s: Firing, n: NodeId)
    requires WellWired(net) && Nested(net, spot) && Enabled(net, s) && Solid(net.nodes, n) && n != s.a && n != s.b
    ensures Placed(SpotsAfter(net, spot, s), n, net.nodes[n].kind)
    ensures net.nodes[n].kind == Constructor ==> SpotsAfter(net, spot, s)[P(n)] in BoxesAfter(net, spot, s)
  {
    hide AllSteady, Less, Goes, WellWired, CreatedAt, HasRule;
    assert Placed(spot, n, net.nodes[n].kind);
    if RuleAt(net, s.a, s.b) == Annihilate {
      FiringIsCall(net, spot, s);
      var (c, d) := if net.nodes[s.a].kind == Constructor then (s.a, s.b) else (s.b, s.a);
      CallPlaces(net, spot, c, d);
      var u, v := spot[P(c)], spot[P(d)];
      if net.nodes[n].kind == Constructor {
        assert spot[P(n)] != u;
        MovedMore(u, v, spot[P(n)], First);
        MovedMore(u, v, spot[P(n)], Last);
        assert spot[P(n)] in Boxes(net.nodes, spot);
      }
    }
  }

  lemma MovedMore(u: Place, v: Place, s: Place, x: Slot)
    requires s != u
    ensures Moved(u, v, s + [x]) == Moved(u, v, s) + [x]
  {
    OneMore(u, s, x);
    if Inside(u, s) { assert (s + [x])[|u|..] == s[|u|..] + [x]; }
  }

  lemma MovedSpread(u: Place, v: Place, s: Place, t: Place)
    requires s != t && Less(u, v) && !Prefix(v, s) && !Prefix(v, t)
    ensures Moved(u, v, s) != Moved(u, v, t)
    ensures Inside(Moved(u, v, s), Moved(u, v, t)) ==> Inside(s, t) || Inside(s, v)
  {
    if Inside(u, s) && Inside(u, t) {
      assert s == u + s[|u|..] && t == u + t[|u|..];
      InsideMoved(u, v, t, s);
    } else if Inside(u, s) {
      assert (v + s[|u|..])[..|v|] == v;
      PrefixInside(v, v + s[|u|..], t);
    } else if Inside(u, t) {
      assert (v + t[|u|..])[..|v|] == v;
      if Inside(s, v + t[|u|..]) { InsideOrBeyond(s, v, t[|u|..]); }
    }
  }

  lemma StillSpread(net: Net, spot: Spots, s: Firing, n: NodeId, m: NodeId)
    requires WellWired(net) && Nested(net, spot) && Enabled(net, s) && Solid(net.nodes, n) && Solid(net.nodes, m) && n != m
    requires n != s.a && n != s.b && m != s.a && m != s.b
    ensures P(n) in SpotsAfter(net, spot, s) && P(m) in SpotsAfter(net, spot, s)
    ensures var next := SpotsAfter(net, spot, s);
      next[P(n)] != next[P(m)] && (Inside(next[P(n)], next[P(m)]) ==> net.nodes[n].kind == Constructor)
  {
    hide AllSteady, Less, Goes, WellWired, CreatedAt, HasRule, Moved, Placed;
    SpreadNow(net, spot, n, m);
    if RuleAt(net, s.a, s.b) == Annihilate {
      FiringIsCall(net, spot, s);
      var (c, d) := if net.nodes[s.a].kind == Constructor then (s.a, s.b) else (s.b, s.a);
      CallIsSite(net, spot, c, d);
      SpreadNow(net, spot, d, n);
      SpreadNow(net, spot, d, m);
      SpreadNow(net, spot, n, d);
      var u, v := spot[P(c)], spot[P(d)];
      MovedSpread(u, v, spot[P(n)], spot[P(m)]);
    }
  }

  lemma SpreadNow(net: Net, spot: Spots, n: NodeId, m: NodeId)
    requires Nested(net, spot) && Solid(net.nodes, n) && Solid(net.nodes, m) && n != m
    ensures P(n) in spot && P(m) in spot && spot[P(n)] != spot[P(m)]
    ensures Inside(spot[P(n)], spot[P(m)]) ==> net.nodes[n].kind == Constructor
    ensures net.nodes[n].kind != Constructor ==> !Prefix(spot[P(n)], spot[P(m)])
  {
    hide AllSteady;
    assert Placed(spot, n, net.nodes[n].kind) && Placed(spot, m, net.nodes[m].kind);
    if |spot[P(n)]| == |spot[P(m)]| { assert spot[P(m)][..|spot[P(n)]|] == spot[P(m)]; }
  }

  lemma StillSteady(net: Net, spot: Spots, s: Firing, p: Port)
    requires WellWired(net) && Nested(net, spot) && Enabled(net, s) && p in Fired(net, s).wires
    ensures var (after, next) := (Fired(net, s), SpotsAfter(net, spot, s)); Steady(after.nodes, next, Boxes(after.nodes, next), p, after.wires[p])
  {
    hide Nested, WellFormed, Paired, EditsAt, HasRule, Less, SpotsAfter, BoxesAfter, Union, Regular, ApplyAll;
    var after, next := Fired(net, s), SpotsAfter(net, spot, s);
    CallsRegular(net, spot, s);
    FireConserves(net, s.a, s.b, s.ids);
    FireSteady(net, spot, s);
    UnionAgrees(net, s.a, s.b, s.ids);
    assert SteadyIn(net, spot, s, p, after.wires[p]);
    forall b | b in Boxes(after.nodes, next) ensures b in BoxesAfter(net, spot, s) {
      var n :| n in after.nodes && after.nodes[n].kind == Constructor && P(n) in next && b == next[P(n)];
      OnlyErasers(net, spot, s, n);
      StillPlaced(net, spot, s, n);
    }
    BothLive(after, p);
  }

  lemma BothLive(net: Net, p: Port)
    requires WellWired(net) && p in net.wires
    ensures p.owner in net.nodes && net.wires[p].owner in net.nodes
  {
    assert Live(net.nodes, net.wires[p]);
  }

  lemma SpreadAfter(net: Net, spot: Spots, s: Firing)
    requires WellWired(net) && Nested(net, spot) && Enabled(net, s)
    ensures Spread(Fired(net, s).nodes, SpotsAfter(net, spot, s))
  {
    hide Nested, Fired, HasRule, Less, SpotsAfter, WellWired, CreatedAt;
    var after, next := Fired(net, s), SpotsAfter(net, spot, s);
    forall n, m | Solid(after.nodes, n) && Solid(after.nodes, m) && n != m && P(n) in next && P(m) in next
      ensures next[P(n)] != next[P(m)] && (Inside(next[P(n)], next[P(m)]) ==> after.nodes[n].kind == Constructor)
    {
      OnlyErasers(net, spot, s, n);
      OnlyErasers(net, spot, s, m);
      StillSpread(net, spot, s, n, m);
    }
  }

  ghost predicate AllPlaced(nodes: NodeMap, spot: Spots) {
    forall n :: n in nodes ==> nodes[n].kind in CALL_KINDS && (Solid(nodes, n) ==> Placed(spot, n, nodes[n].kind))
  }

  lemma SteadyAfter(net: Net, spot: Spots, s: Firing)
    requires WellWired(net) && Nested(net, spot) && Enabled(net, s)
    ensures var (after, next) := (Fired(net, s), SpotsAfter(net, spot, s)); AllSteady(after.nodes, after.wires, next, Boxes(after.nodes, next))
  {
    hide Nested, Fired, HasRule, SpotsAfter, WellWired, CreatedAt, Steady;
    var after, next := Fired(net, s), SpotsAfter(net, spot, s);
    forall p | p in after.wires ensures Steady(after.nodes, next, Boxes(after.nodes, next), p, after.wires[p]) { StillSteady(net, spot, s, p); }
  }

  lemma NodesAfter(net: Net, spot: Spots, s: Firing)
    requires WellWired(net) && Nested(net, spot) && Enabled(net, s)
    ensures var (after, next) := (Fired(net, s), SpotsAfter(net, spot, s));
      AllPlaced(after.nodes, next)
  {
    hide Nested, Fired, HasRule, SpotsAfter, WellWired, CreatedAt, Placed;
    var after, next := Fired(net, s), SpotsAfter(net, spot, s);
    forall n | n in after.nodes ensures after.nodes[n].kind in CALL_KINDS && (Solid(after.nodes, n) ==> Placed(next, n, after.nodes[n].kind)) {
      OnlyErasers(net, spot, s, n);
      if Solid(after.nodes, n) { StillPlaced(net, spot, s, n); }
    }
  }

  /** Reduction keeps every closure's body nested, a called closure's where it is called. */
  lemma FireNested(net: Net, spot: Spots, s: Firing)
    requires WellWired(net) && Nested(net, spot) && Enabled(net, s)
    ensures WellWired(Fired(net, s)) && Nested(Fired(net, s), SpotsAfter(net, spot, s))
    ensures Closed(net) ==> Closed(Fired(net, s))
  {
    hide Nested, Fired, HasRule, SpotsAfter, WellWired, CreatedAt, AllPlaced, AllSteady, Spread, Closed;
    var after, next := Fired(net, s), SpotsAfter(net, spot, s);
    FireWired(net, spot, s);
    NodesAfter(net, spot, s);
    SpreadAfter(net, spot, s);
    SteadyAfter(net, spot, s);
    MakeNested(after, next);
  }

  lemma FireWired(net: Net, spot: Spots, s: Firing)
    requires WellWired(net) && Nested(net, spot) && Enabled(net, s)
    ensures WellWired(Fired(net, s)) && (Closed(net) ==> Closed(Fired(net, s)))
  {
    hide Nested, HasRule, CreatedAt, Regular;
    CallsRegular(net, spot, s);
    FireConserves(net, s.a, s.b, s.ids);
  }

  lemma MakeNested(net: Net, spot: Spots)
    requires AllPlaced(net.nodes, spot)
    requires AllSteady(net.nodes, net.wires, spot, Boxes(net.nodes, spot)) && Spread(net.nodes, spot)
    ensures Nested(net, spot)
  {
  }

  // ----- when such a net is stuck -----

  /** A constant is called, or a closure is to choose. */
  ghost predicate Clash(net: Net, a: NodeId, b: NodeId) {
    && a in net.nodes && b in net.nodes && P(a) in net.wires && net.wires[P(a)] == P(b)
    && ((net.nodes[a].kind == Destructor && net.nodes[b].kind == Value) || (net.nodes[a].kind == Switch && net.nodes[b].kind == Constructor))
  }

  ghost predicate Clashes(net: Net) {
    exists a, b :: Clash(net, a, b)
  }

  predicate Consumer(nodes: NodeMap, n: NodeId) {
    n in nodes && nodes[n].kind in {Destructor, Switch}
  }

  ghost predicate Stuck(net: Net, spot: Spots) {
    Closed(net) && Nested(net, spot) && NormalForm(net) && !Clashes(net)
  }

  /** The last of some nodes, closures after what is in them. */
  lemma {:induction false} LastOf(nodes: set<NodeId>, spot: Spots) returns (n: NodeId)
    requires nodes != {} && forall m :: m in nodes ==> P(m) in spot
    ensures n in nodes && forall m :: m in nodes ==> !Post(spot[P(n)], spot[P(m)])
    decreases nodes
  {
    hide Post;
    n :| n in nodes;
    PostStrict(spot[P(n)]);
    if nodes != {n} {
      var k := LastOf(nodes - {n}, spot);
      if Post(spot[P(k)], spot[P(n)]) {
        forall m | m in nodes - {n} ensures !Post(spot[P(n)], spot[P(m)]) {
          if Post(spot[P(n)], spot[P(m)]) { PostTrans(spot[P(k)], spot[P(n)], spot[P(m)]); }
        }
      } else {
        n := k;
      }
    }
  }

  /** What the principal port of a node that is not an eraser faces: an input faces an output that is
      not a principal port, and an output an input that is not one. */
  lemma Faces(net: Net, spot: Spots, n: NodeId)
    requires Stuck(net, spot) && Solid(net.nodes, n)
    ensures P(n) in net.wires && net.wires[P(n)].index > 0 && Live(net.nodes, net.wires[P(n)]) && Solid(net.nodes, net.wires[P(n)].owner)
    ensures P(n) in spot && net.wires[P(n)] in spot
    ensures Consumer(net.nodes, n) ==> Leads(net.nodes, spot, Boxes(net.nodes, spot), net.wires[P(n)], P(n))
    ensures !Consumer(net.nodes, n) ==> Leads(net.nodes, spot, Boxes(net.nodes, spot), P(n), net.wires[P(n)])
  {
    hide Less, Goes, Spread, Placed;
    assert Live(net.nodes, P(n));
    var q := net.wires[P(n)];
    assert Steady(net.nodes, spot, Boxes(net.nodes, spot), P(n), q) && Live(net.nodes, q) && net.wires[q] == P(n);
    var m := q.owner;
    assert q.index == 0 ==> q == P(m);
    assert net.nodes[m].kind == Eraser ==> q.index == 0;
    assert !Reducible(net, n, m) && !Clash(net, n, m) && !Clash(net, m, n);
  }

  /** Something that consumes comes after every constant and every closure. */
  lemma ConsumerAbove(net: Net, spot: Spots, n: NodeId) returns (m: NodeId)
    requires Stuck(net, spot) && Solid(net.nodes, n) && !Consumer(net.nodes, n)
    ensures Consumer(net.nodes, m) && P(n) in spot && P(m) in spot && Post(spot[P(n)], spot[P(m)])
  {
    hide Post, Stuck, Less;
    var bad := set k | k in net.nodes && Solid(net.nodes, k) && !Consumer(net.nodes, k) && !HasAbove(net, spot, k);
    SpotsThere(net, spot);
    if bad != {} {
      var k := LastOf(bad, spot);
      AboveFrom(net, spot, k);
      assert false;
    }
    assert n !in bad;
    m :| Consumer(net.nodes, m) && P(n) in spot && P(m) in spot && Post(spot[P(n)], spot[P(m)]);
  }

  lemma AboveFrom(net: Net, spot: Spots, n: NodeId)
    requires Stuck(net, spot) && Solid(net.nodes, n) && !Consumer(net.nodes, n) && P(n) in spot
    requires forall m :: Solid(net.nodes, m) && P(m) in spot && Post(spot[P(n)], spot[P(m)]) && !Consumer(net.nodes, m) ==> HasAbove(net, spot, m)
    ensures HasAbove(net, spot, n)
  {
    hide Post, Stuck, Less;
    var next := FollowUp(net, spot, n);
    if !Consumer(net.nodes, next) {
      var c :| Consumer(net.nodes, c) && P(next) in spot && P(c) in spot && Post(spot[P(next)], spot[P(c)]);
      PostTrans(spot[P(n)], spot[P(next)], spot[P(c)]);
    }
  }

  ghost predicate HasAbove(net: Net, spot: Spots, n: NodeId) {
    exists m :: Consumer(net.nodes, m) && P(n) in spot && P(m) in spot && Post(spot[P(n)], spot[P(m)])
  }

  lemma SpotsThere(net: Net, spot: Spots)
    requires Stuck(net, spot)
    ensures forall n :: Solid(net.nodes, n) ==> P(n) in spot
  {
    hide AllSteady, Spread, Closed;
    forall n | Solid(net.nodes, n) ensures P(n) in spot { assert Placed(spot, n, net.nodes[n].kind); }
  }

  /** The node that an output of a constant or a closure goes into comes after it. */
  lemma FollowUp(net: Net, spot: Spots, n: NodeId) returns (m: NodeId)
    requires Stuck(net, spot) && Solid(net.nodes, n) && !Consumer(net.nodes, n)
    ensures Solid(net.nodes, m) && P(n) in spot && P(m) in spot && Post(spot[P(n)], spot[P(m)])
  {
    Faces(net, spot, n);
    hide Stuck, Goes, Less, NormalForm;
    var q := net.wires[P(n)];
    m := q.owner;
    AtNode(net, spot, q);
    if net.nodes[m].kind == Constructor {
      if !Inside(spot[P(m)], spot[P(n)]) { LessOutside(spot[P(n)], spot[P(m)], [Last]); }
    }
  }

  /** Where an input is, or an output that is not of a closure. */
  lemma AtNode(net: Net, spot: Spots, q: Port)
    requires Stuck(net, spot) && Live(net.nodes, q) && Solid(net.nodes, q.owner) && q in spot
    ensures P(q.owner) in spot
    ensures net.nodes[q.owner].kind == Constructor && q.index == 1 ==> spot[q] == spot[P(q.owner)] + [First]
    ensures net.nodes[q.owner].kind == Constructor && q.index == 2 ==> spot[q] == spot[P(q.owner)] + [Last]
    ensures net.nodes[q.owner].kind != Constructor ==> spot[q] == spot[P(q.owner)]
  {
    hide AllSteady, Spread, NormalForm, Clashes;
    assert Placed(spot, q.owner, net.nodes[q.owner].kind);
    assert q.index <= Arity(net.nodes[q.owner].kind) <= 3;
  }

  /** In at least the closures around n. */
  ghost predicate Around(net: Net, spot: Spots, n: NodeId, m: NodeId) {
    P(n) in spot && P(m) in spot && forall b :: b in Boxes(net.nodes, spot) && Inside(b, spot[P(m)]) ==> Inside(b, spot[P(n)])
  }

  /** A consumer that waits waits for an earlier one, or for the argument of a closure that it is in. */
  lemma WaitsFor(net: Net, spot: Spots, n: NodeId) returns (m: NodeId)
    requires Stuck(net, spot) && Consumer(net.nodes, n)
    ensures P(n) in spot && P(m) in spot
    ensures (Consumer(net.nodes, m) && Around(net, spot, n, m) && Less(spot[P(m)], spot[P(n)]))
         || (m in net.nodes && net.nodes[m].kind == Constructor && Inside(spot[P(m)], spot[P(n)]))
  {
    hide Stuck, Less, NormalForm;
    Faces(net, spot, n);
    var q := net.wires[P(n)];
    m := q.owner;
    KindsThere(net, spot, m);
    AtNode(net, spot, q);
    WaitsAt(net, spot, n, q);
  }

  lemma WaitsAt(net: Net, spot: Spots, n: NodeId, q: Port)
    requires Consumer(net.nodes, n) && Solid(net.nodes, q.owner) && net.nodes[q.owner].kind in CALL_KINDS
    requires q.index > 0 && q.index <= Arity(net.nodes[q.owner].kind)
    requires Leads(net.nodes, spot, Boxes(net.nodes, spot), q, P(n)) && P(q.owner) in spot
    requires net.nodes[q.owner].kind == Constructor && q.index == 1 ==> spot[q] == spot[P(q.owner)] + [First]
    requires net.nodes[q.owner].kind != Constructor ==> spot[q] == spot[P(q.owner)]
    ensures P(n) in spot
    ensures (Consumer(net.nodes, q.owner) && Around(net, spot, n, q.owner) && Less(spot[P(q.owner)], spot[P(n)]))
         || (net.nodes[q.owner].kind == Constructor && Inside(spot[P(q.owner)], spot[P(n)]))
  {
    hide Less;
    var m := q.owner;
    if net.nodes[m].kind == Constructor {
      assert spot[P(m)] in Boxes(net.nodes, spot);
      OneMore(spot[P(m)], spot[P(m)], First);
    }
  }

  lemma KindsThere(net: Net, spot: Spots, m: NodeId)
    requires Stuck(net, spot) && m in net.nodes
    ensures net.nodes[m].kind in CALL_KINDS && |net.nodes[m].aux| == Arity(net.nodes[m].kind)
  {
  }

  /** A closed net whose bodies are nested and that is stuck, with no clash in it, is empty. */
  lemma StuckIsEmpty(net: Net, spot: Spots)
    requires Stuck(net, spot)
    ensures net.nodes == map[]
  {
    hide Stuck, Post;
    if n :| n in net.nodes {
      SpotsThere(net, spot);
      var c := SomeConsumer(net, spot, n);
      var consumers := set k | k in net.nodes && Consumer(net.nodes, k);
      assert c in consumers;
      var last := LastOf(consumers, spot);
      var m := LaterConsumer(net, spot, last);
      assert false;
    }
  }

  lemma SomeConsumer(net: Net, spot: Spots, n: NodeId) returns (m: NodeId)
    requires Stuck(net, spot) && n in net.nodes
    ensures Consumer(net.nodes, m)
  {
    hide Stuck, Post;
    m := n;
    if !Solid(net.nodes, n) {
      ErasersReact(net, spot, n);
      m := net.wires[P(n)].owner;
    }
    if !Consumer(net.nodes, m) { m := ConsumerAbove(net, spot, m); }
  }

  lemma ErasersReact(net: Net, spot: Spots, n: NodeId)
    requires Stuck(net, spot) && n in net.nodes && net.nodes[n].kind == Eraser
    ensures P(n) in net.wires && Solid(net.nodes, net.wires[P(n)].owner)
  {
    assert Live(net.nodes, P(n)) && Live(net.nodes, net.wires[P(n)]);
    var m := net.wires[P(n)].owner;
    assert net.nodes[m].kind == Eraser ==> net.wires[P(n)] == P(m) && m != n;
    assert !Reducible(net, n, m);
  }

  /** No consumer is the last: the chain of what it waits for ends in the argument of a closure around
      it, and another consumer comes after that closure. */
  lemma LaterConsumer(net: Net, spot: Spots, n: NodeId) returns (m: NodeId)
    requires Stuck(net, spot) && Consumer(net.nodes, n)
    ensures Consumer(net.nodes, m) && P(n) in spot && P(m) in spot && Post(spot[P(n)], spot[P(m)])
  {
    hide Stuck, Less;
    SpotsThere(net, spot);
    var waits := set k | k in net.nodes && Consumer(net.nodes, k) && Around(net, spot, n, k);
    assert n in waits;
    var k := FirstOf(waits, spot);
    var c := FirstWaits(net, spot, n, k);
    m := ConsumerAbove(net, spot, c);
    PostTrans(spot[P(n)], spot[P(c)], spot[P(m)]);
  }

  lemma FirstWaits(net: Net, spot: Spots, n: NodeId, k: NodeId) returns (c: NodeId)
    requires Stuck(net, spot) && Consumer(net.nodes, k) && Around(net, spot, n, k)
    requires forall m :: m in net.nodes && Consumer(net.nodes, m) && Around(net, spot, n, m) ==> !Less(spot[P(m)], spot[P(k)])
    ensures c in net.nodes && net.nodes[c].kind == Constructor && P(c) in spot && P(n) in spot && Inside(spot[P(c)], spot[P(n)])
  {
    hide Stuck, Less, Inside;
    c := WaitsFor(net, spot, k);
    assert Around(net, spot, k, c) ==> Around(net, spot, n, c);
    assert net.nodes[c].kind == Constructor ==> spot[P(c)] in Boxes(net.nodes, spot);
  }

  lemma {:induction false} FirstOf(nodes: set<NodeId>, spot: Spots) returns (n: NodeId)
    requires nodes != {} && forall m :: m in nodes ==> P(m) in spot
    ensures n in nodes && forall m :: m in nodes ==> !Less(spot[P(m)], spot[P(n)])
    decreases nodes
  {
    hide Less;
    n :| n in nodes;
    PostStrict(spot[P(n)]);
    if nodes != {n} {
      var k := FirstOf(nodes - {n}, spot);
      if Less(spot[P(n)], spot[P(k)]) {
        forall m | m in nodes - {n} ensures !Less(spot[P(m)], spot[P(n)]) {
          if Less(spot[P(m)], spot[P(n)]) { LessTrans(spot[P(m)], spot[P(n)], spot[P(k)]); }
        }
      } else {
        n := k;
      }
    }
  }
}
