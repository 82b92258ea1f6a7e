/** The firings that the rules do not rewrite faithfully (core/hin_vm.py): two
    switches or two projections that meet, whose rule relinks the first node alone,
    and the duplication of a node with auxiliary ports. For each, a concrete net
    that breaks and the exact condition under which none does. */
module Irregular {
  import opened MellTypes
  import opened Wiring
  import opened Nets
  import opened Conservation
  import opened Polarity
  import opened Machine
  import opened MachineRuns
  import opened SubjectReduction
  import opened TypedFirings

  // ----- two switches, two projections -----

  ghost predicate Twins(vm: Vm, a: NodeId, b: NodeId, k: Kind) {
    && Setting(vm, a, b)
    && vm.nodes[a].kind == k && vm.nodes[b].kind == k
  }

  /** q is a port of the node a which the rule joins to the port r of a, and r leads
      to nothing but the retired node b. */
  predicate EndsAt(w: Wires, b: NodeId, q: Port, p: Port, r: Port) {
    q == p && (r !in w || w[r].owner == b)
  }

  /** No wire of b reaches a node that stays: it leads back to b, or to one of the
      two ports of the switch a that the rule joins while the other one of them is
      free or leads to b as well. */
  ghost predicate NothingLost(w: Wires, a: NodeId, b: NodeId, k: Kind) {
    forall p :: p in w && p.owner == b && p.index > 0 ==>
      || w[p].owner == b
      || (k == Switch && (EndsAt(w, b, w[p], A(a, 0), A(a, 2)) || EndsAt(w, b, w[p], A(a, 2), A(a, 0))))
  }

  lemma SwitchesEdits(vm: Vm, a: NodeId, b: NodeId)
    requires Twins(vm, a, b, Switch)
    ensures IdsAt(vm, a, b) == [Gensym(Eraser, vm.serial)] && CreatedAt(View(vm), a, b) == [EraserNode()]
    ensures EditsAt(View(vm), a, b, IdsAt(vm, a, b))[1..] ==
            [Splice(A(a, 0), A(a, 2)), Graft(A(a, 1), P(Gensym(Eraser, vm.serial)))]
  {
  }

  lemma ProjectionsEdits(vm: Vm, a: NodeId, b: NodeId)
    requires Twins(vm, a, b, Projection)
    ensures IdsAt(vm, a, b) == [Gensym(Value, vm.serial)] && |CreatedAt(View(vm), a, b)| == 1
    ensures CreatedAt(View(vm), a, b)[0].kind == Value && CreatedAt(View(vm), a, b)[0].aux == []
    ensures EditsAt(View(vm), a, b, IdsAt(vm, a, b))[1..] == [Graft(A(a, 0), P(Gensym(Value, vm.serial)))]
  {
  }

  lemma RelinkTwo(l: Links, e: Op, f: Op)
    ensures var m := LinkUp(l, Ends(l.target, e).0, Ends(l.target, e).1);
            Relink(l, [e, f]) == LinkUp(m, Ends(m.target, f).0, Ends(m.target, f).1)
  {
    assert [e, f][..1] == [e] && [e][..0] == [];
    assert Relink(l, [e][..0]) == l;
  }

  lemma RelinkOne(l: Links, e: Op)
    ensures Relink(l, [e]) == LinkUp(l, Ends(l.target, e).0, Ends(l.target, e).1)
  {
    assert [e][..0] == [];
  }

  /** Where a port leads once the far ends of x and y have been linked, and then h
      and the far end of z. */
  function BridgedLook(t: Wires, x: Port, y: Port, z: Port, h: Port, p: Port): Option<Port> {
    var (s, u) := (Look(t, x), Look(t, y));
    var side := if s == Some(z) then u else if u == Some(z) then s else Look(t, z);
    if p == h then side
    else if side == Some(p) then Some(h)
    else if u == Some(p) then s
    else if s == Some(p) then u
    else Look(t, p)
  }

  lemma BridgedLinks(l: Links, x: Port, y: Port, z: Port, h: Port, p: Port)
    requires x != y && x != z && y != z && h !in l.target && p !in {x, y, z} && h !in {x, y, z}
    requires Look(l.target, x) != Look(l.target, y) || Look(l.target, x).None?
    requires forall q :: q in {x, y, z} && q in l.target ==> l.target[q] !in {q, h}
    ensures Look(Relink(l, [Splice(x, y), Graft(z, h)]).target, p) == BridgedLook(l.target, x, y, z, h, p)
  {
    RelinkTwo(l, Splice(x, y), Graft(z, h));
  }

  lemma BridgedReads(t: Wires, w: Wires, x: Port, y: Port, z: Port, h: Port, p: Port)
    requires forall q :: q in {x, y, z, p} ==> Look(t, q) == Look(w, q)
    ensures BridgedLook(t, x, y, z, h, p) == BridgedLook(w, x, y, z, h, p)
  {
  }

  lemma SwitchesAfter(vm: Vm, a: NodeId, b: NodeId, p: Port)
    requires Twins(vm, a, b, Switch) && p.owner !in {a, b}
    requires p.owner == Gensym(Eraser, vm.serial) || Live(vm.nodes, p)
    ensures Look(FireVm(vm, a, b).target, p) == BridgedLook(View(vm).wires, A(a, 0), A(a, 2), A(a, 1), P(Gensym(Eraser, vm.serial)), p)
  {
    hide Relink, BridgedLook;
    SwitchesEdits(vm, a, b);
    LiveLooks(vm, a);
    var h := P(Gensym(Eraser, vm.serial));
    BridgedReads(vm.target, View(vm).wires, A(a, 0), A(a, 2), A(a, 1), h, p);
    BridgedLinks(Links(vm.target, vm.pairs), A(a, 0), A(a, 2), A(a, 1), P(Gensym(Eraser, vm.serial)), p);
  }

  lemma LiveLooks(vm: Vm, a: NodeId)
    requires WellWired(View(vm)) && Known(vm) && a in vm.nodes
    ensures forall p :: Live(vm.nodes, p) ==> Look(vm.target, p) == Look(View(vm).wires, p)
    ensures forall p, q :: Live(vm.nodes, p) && Live(vm.nodes, q) && p in vm.target && q in vm.target && vm.target[p] == vm.target[q] ==> p == q
  {
    var w := View(vm).wires;
    forall p, q | Live(vm.nodes, p) && Live(vm.nodes, q) && p in vm.target && q in vm.target && vm.target[p] == vm.target[q] ensures p == q {
      assert w[w[p]] == p && w[w[q]] == q;
    }
  }

  lemma TwinsNodes(vm: Vm, a: NodeId, b: NodeId, k: Kind, id: NodeId)
    requires Twins(vm, a, b, k) && k in {Switch, Projection}
    requires id == Gensym(if k == Switch then Eraser else Value, vm.serial)
    ensures var nodes := FireVm(vm, a, b).nodes;
            && (forall n :: n in nodes <==> (n in vm.nodes && n !in {a, b}) || n == id)
            && (forall n :: n in nodes && n != id ==> nodes[n] == vm.nodes[n])
            && nodes[id].aux == [] && nodes[id].kind in {Eraser, Value}
            && id !in vm.nodes && (forall p: Port :: p.owner == id ==> p !in vm.target)
  {
    hide Relink, FireVm;
    IdsFresh(vm, a, b);
    if k == Switch { SwitchesEdits(vm, a, b); } else { ProjectionsEdits(vm, a, b); }
    assert IdsAt(vm, a, b) == [id];
    AddNodesAll(vm.nodes - {a, b}, [id], CreatedAt(View(vm), a, b));
    FiredNodes(vm, a, b);
  }

  lemma FiredNodes(vm: Vm, a: NodeId, b: NodeId)
    requires a in vm.nodes && b in vm.nodes
    ensures FireVm(vm, a, b).nodes == AddNodes(vm.nodes - {a, b}, IdsAt(vm, a, b), CreatedAt(View(vm), a, b))
  {
  }

  /** Some port that stays is left wired to a port of b. */
  lemma BridgedDangles(w: Wires, a: NodeId, b: NodeId, h: Port, p: Port) returns (q: Port)
    requires Paired(w) && a != b && h.owner !in {a, b} && h !in w
    requires p in w && p.owner == b && w[p].owner != b
    requires w[p].owner == a ==> w[p] in {A(a, 0), A(a, 1), A(a, 2)}
    requires !EndsAt(w, b, w[p], A(a, 0), A(a, 2)) && !EndsAt(w, b, w[p], A(a, 2), A(a, 0))
    requires forall i :: 0 <= i < 3 && A(a, i) in w && w[A(a, i)].owner == a ==> w[A(a, i)] in {A(a, 0), A(a, 1), A(a, 2)}
    ensures q.owner !in {a, b} && (q == h || q in w)
    ensures var r := BridgedLook(w, A(a, 0), A(a, 2), A(a, 1), h, q); r.Some? && r.value.owner == b
  {
    var e := w[p];
    if e.owner != a {
      q := e;
    } else if e == A(a, 1) {
      q := h;
    } else {
      var far := if e == A(a, 0) then A(a, 2) else A(a, 0);
      q := if w[far] == A(a, 1) then h else w[far];
    }
  }

  lemma ViewedLive(vm: Vm, q: Port)
    ensures q in View(vm).wires <==> q in vm.target && Live(vm.nodes, q)
  {
  }

  lemma Dangles(vm: Vm, q: Port)
    requires Live(vm.nodes, q) && q in vm.target && vm.target[q].owner !in vm.nodes
    ensures !WellWired(View(vm))
  {
    assert View(vm).wires[q] == vm.target[q];
  }

  lemma SwitchAux(vm: Vm, a: NodeId)
    requires WellWired(View(vm)) && a in vm.nodes && vm.nodes[a].kind == Switch
    ensures forall q: Port :: q in View(vm).wires && q.owner == a && q.index > 0 ==> q in {A(a, 0), A(a, 1), A(a, 2)}
  {
  }

  lemma TwinsPrincipals(vm: Vm, a: NodeId, b: NodeId, k: Kind)
    requires Twins(vm, a, b, k)
    ensures var w := View(vm).wires;
      && a in vm.nodes && b in vm.nodes && a != b && WellWired(View(vm)) && vm.nodes[a].kind == vm.nodes[b].kind == k && Paired(w)
      && P(a) in w && w[P(a)] == P(b)
      && (forall p: Port :: p in w && p.owner in {a, b} && p.index > 0 ==> w[p] !in {P(a), P(b)})
  {
  }

  /** The wire left dangling when a wire of b led somewhere. */
  lemma SwitchesDangle(vm: Vm, a: NodeId, b: NodeId, p: Port)
    requires Twins(vm, a, b, Switch)
    requires p in View(vm).wires && p.owner == b && p.index > 0
    requires var w := View(vm).wires;
      w[p].owner != b && !EndsAt(w, b, w[p], A(a, 0), A(a, 2)) && !EndsAt(w, b, w[p], A(a, 2), A(a, 0))
    ensures !WellWired(View(FireVm(vm, a, b)))
  {
    hide FireVm, BridgedLook, Relink, EndsAt, Twins, View, WellWired, RuleAt, CreatedAt, EditsAt;
    var w, id := View(vm).wires, Gensym(Eraser, vm.serial);
    TwinsNodes(vm, a, b, Switch, id);
    TwinsPrincipals(vm, a, b, Switch);
    SwitchAux(vm, a);
    ViewedLive(vm, P(id));
    var q := BridgedDangles(w, a, b, P(id), p);
    ViewedLive(vm, q);
    SwitchesAfter(vm, a, b, q);
    Dangles(FireVm(vm, a, b), q);
  }

  /** With nothing lost, what a port that stays leads to stays and leads back. */
  lemma BridgedStays(w: Wires, a: NodeId, b: NodeId, h: Port, p: Port)
    requires Paired(w) && a != b && h.owner !in {a, b} && h !in w
    requires NothingLost(w, a, b, Switch) && P(a) in w && w[P(a)] == P(b)
    requires forall q: Port :: q in w && q.owner == a && q.index > 0 ==> q in {A(a, 0), A(a, 1), A(a, 2)}
    requires p.owner !in {a, b} && BridgedLook(w, A(a, 0), A(a, 2), A(a, 1), h, p).Some?
    ensures var q := BridgedLook(w, A(a, 0), A(a, 2), A(a, 1), h, p).value;
      && q.owner !in {a, b} && (q == h || q in w) && q != p
      && BridgedLook(w, A(a, 0), A(a, 2), A(a, 1), h, q) == Some(p)
  {
    var q := BridgedLook(w, A(a, 0), A(a, 2), A(a, 1), h, p).value;
    assert w[P(b)] == P(a);
    if q.owner == b { assert false; }
  }

  lemma SwitchesStay(vm: Vm, a: NodeId, b: NodeId, p: Port)
    requires Twins(vm, a, b, Switch) && NothingLost(View(vm).wires, a, b, Switch)
    requires p in View(FireVm(vm, a, b)).wires
    ensures var v := View(FireVm(vm, a, b)).wires;
      v[p] in v && v[v[p]] == p && v[p] != p
  {
    hide BridgedLook, Relink, EndsAt, Twins, View, WellWired, RuleAt, CreatedAt, EditsAt, FireVm, NothingLost;
    var w, id := View(vm).wires, Gensym(Eraser, vm.serial);
    TwinsPrincipals(vm, a, b, Switch);
    TwinsNodes(vm, a, b, Switch, id);
    var after := FireVm(vm, a, b);
    SwitchAux(vm, a);
    ViewedLive(vm, P(id));
    ViewedLive(after, p);
    assert p.owner == id || Live(vm.nodes, p);
    SwitchesAfter(vm, a, b, p);
    BridgedStays(w, a, b, P(id), p);
    var q := after.target[p];
    ViewedLive(vm, q);
    ViewedLive(after, q);
    SwitchesAfter(vm, a, b, q);
    ViewedAt(after, p);
    ViewedAt(after, q);
  }

  lemma ViewedAt(vm: Vm, p: Port)
    requires p in View(vm).wires
    ensures p in vm.target && View(vm).wires[p] == vm.target[p]
  {
  }

  /** Two switches that meet keep the wiring symmetric and off retired nodes exactly
      when the second one has no wire to lose. */
  lemma SwitchesExactly(vm: Vm, a: NodeId, b: NodeId)
    requires Twins(vm, a, b, Switch)
    ensures WellWired(View(FireVm(vm, a, b))) <==> NothingLost(View(vm).wires, a, b, Switch)
  {
    var w := View(vm).wires;
    if NothingLost(w, a, b, Switch) {
      TwinsConserve(vm, a, b, Switch) by {
        forall p | p in View(FireVm(vm, a, b)).wires ensures SymmetricAt(View(FireVm(vm, a, b)).wires, p) {
          SwitchesStay(vm, a, b, p);
        }
      }
    } else {
      var p :| p in w && p.owner == b && p.index > 0 && w[p].owner != b
        && !EndsAt(w, b, w[p], A(a, 0), A(a, 2)) && !EndsAt(w, b, w[p], A(a, 2), A(a, 0));
      SwitchesDangle(vm, a, b, p);
    }
  }

  predicate SymmetricAt(w: Wires, p: Port)
    requires p in w
  {
    w[p] in w && w[w[p]] == p && w[p] != p
  }

  lemma TwinsConserve(vm: Vm, a: NodeId, b: NodeId, k: Kind)
    requires Twins(vm, a, b, k) && k in {Switch, Projection}
    requires var v := View(FireVm(vm, a, b)).wires; forall p :: p in v ==> SymmetricAt(v, p)
    ensures WellWired(View(FireVm(vm, a, b)))
  {
    hide FireVm;
    TwinsNodes(vm, a, b, k, Gensym(if k == Switch then Eraser else Value, vm.serial));
    var nodes, v := FireVm(vm, a, b).nodes, View(FireVm(vm, a, b)).wires;
    assert WellFormed(nodes);
    assert forall p :: p in v ==> SymmetricAt(v, p);
  }

  // ----- two projections -----

  /** A projection's only auxiliary port: the second one's wire is lost whatever it leads to. */
  lemma ProjectionsAfter(vm: Vm, a: NodeId, b: NodeId, p: Port)
    requires Twins(vm, a, b, Projection) && p.owner !in {a, b}
    requires p.owner == Gensym(Value, vm.serial) || Live(vm.nodes, p)
    ensures Look(FireVm(vm, a, b).target, p) ==
      (var (w, h) := (View(vm).wires, P(Gensym(Value, vm.serial)));
       if p == h then Look(w, A(a, 0)) else if Look(w, A(a, 0)) == Some(p) then Some(h) else Look(w, p))
  {
    hide Relink;
    ProjectionsEdits(vm, a, b);
    LiveLooks(vm, a);
    var h := P(Gensym(Value, vm.serial));
    RelinkOne(Links(vm.target, vm.pairs), Graft(A(a, 0), h));
  }

  lemma ProjectionsDangle(vm: Vm, a: NodeId, b: NodeId)
    requires Twins(vm, a, b, Projection) && A(b, 0) in View(vm).wires
    ensures !WellWired(View(FireVm(vm, a, b)))
  {
    hide Relink, Twins, View, WellWired, RuleAt, CreatedAt, EditsAt, FireVm;
    var w, h := View(vm).wires, P(Gensym(Value, vm.serial));
    TwinsPrincipals(vm, a, b, Projection);
    TwinsNodes(vm, a, b, Projection, h.owner);
    ProjectionAux(vm, a);
    ProjectionAux(vm, b);
    var e := w[A(b, 0)];
    var q := if e.owner == a then h else e;
    ViewedLive(vm, q);
    ProjectionsAfter(vm, a, b, q);
    Dangles(FireVm(vm, a, b), q);
  }

  lemma ProjectionAux(vm: Vm, a: NodeId)
    requires WellWired(View(vm)) && a in vm.nodes && vm.nodes[a].kind == Projection
    ensures forall q: Port :: q in View(vm).wires && q.owner == a && q.index > 0 ==> q == A(a, 0)
  {
  }

  lemma ProjectionsStay(vm: Vm, a: NodeId, b: NodeId, p: Port)
    requires Twins(vm, a, b, Projection) && A(b, 0) !in View(vm).wires
    requires p in View(FireVm(vm, a, b)).wires
    ensures SymmetricAt(View(FireVm(vm, a, b)).wires, p)
  {
    hide Relink, Twins, View, WellWired, RuleAt, CreatedAt, EditsAt, FireVm;
    var w, h := View(vm).wires, P(Gensym(Value, vm.serial));
    TwinsPrincipals(vm, a, b, Projection);
    TwinsNodes(vm, a, b, Projection, h.owner);
    ProjectionAux(vm, a);
    ProjectionAux(vm, b);
    var after := FireVm(vm, a, b);
    ViewedLive(vm, h);
    ViewedLive(after, p);
    assert p.owner == h.owner || Live(vm.nodes, p);
    ProjectionsAfter(vm, a, b, p);
    var q := after.target[p];
    ViewedLive(vm, q);
    ViewedLive(vm, p);
    ViewedLive(after, q);
    ProjectionsAfter(vm, a, b, q);
    ViewedAt(after, p);
    ViewedAt(after, q);
  }

  /** Two projections that meet keep the wiring symmetric and off retired nodes
      exactly when the second one's auxiliary port is free. */
  lemma ProjectionsExactly(vm: Vm, a: NodeId, b: NodeId)
    requires Twins(vm, a, b, Projection)
    ensures WellWired(View(FireVm(vm, a, b))) <==> A(b, 0) !in View(vm).wires
  {
    hide FireVm, Twins, View, WellWired, SymmetricAt;
    TwinsPrincipals(vm, a, b, Projection);
    if A(b, 0) in View(vm).wires {
      ProjectionsDangle(vm, a, b);
    } else {
      forall p | p in View(FireVm(vm, a, b)).wires ensures SymmetricAt(View(FireVm(vm, a, b)).wires, p) {
        ProjectionsStay(vm, a, b, p);
      }
      TwinsConserve(vm, a, b, Projection);
    }
  }

  // ----- every firing -----

  /** What a pair that is about to react must meet, by the kinds of its nodes. */
  ghost predicate Faultless(net: Net, a: NodeId, b: NodeId)
    requires a in net.nodes && b in net.nodes
  {
    var (x, y) := (net.nodes[a].kind, net.nodes[b].kind);
    if x == y == Switch then NothingLost(net.wires, a, b, Switch)
    else if x == y == Projection then A(b, 0) !in net.wires
    else if RuleFor(x, y) == Duplicate then NoInnerWire(net.wires, a, b)
    else true
  }

  /** A firing of the engine keeps the conservation of edges exactly when the pair it
      fires is faultless, whatever the net. */
  lemma FiringExactly(vm: Vm, a: NodeId, b: NodeId)
    requires Setting(vm, a, b)
    ensures WellWired(View(FireVm(vm, a, b))) <==> Faultless(View(vm), a, b)
  {
    hide FireVm, NothingLost, NoInnerWire, WellWired;
    var (x, y) := (vm.nodes[a].kind, vm.nodes[b].kind);
    if x == y == Switch {
      SwitchesExactly(vm, a, b);
    } else if x == y == Projection {
      ProjectionsExactly(vm, a, b);
    } else if RuleFor(x, y) == Duplicate {
      DuplicationExactly(vm, a, b);
    } else {
      MachineFires(vm, a, b);
      ConsistentWired(FireVm(vm, a, b));
    }
  }

  lemma ConsistentWired(vm: Vm)
    requires Consistent(vm)
    ensures WellWired(View(vm))
  {
  }

  // ----- nets that break -----

  /** A wiring of nodes in which only the principal ports of a and b face each other. */
  ghost predicate Sketch(nodes: NodeMap, w: Wires, a: NodeId, b: NodeId) {
    && Paired(w)
    && (forall p :: p in w ==> Live(nodes, p))
    && (forall p :: p in w && p.index == 0 && w[p].index == 0 ==> {p.owner, w[p].owner} == {a, b})
  }

  function Tie(w: Wires, p: Port, q: Port): (r: Wires)
    ensures r.Keys == w.Keys + {p, q} && r[q] == p && (p != q ==> r[p] == q)
    ensures forall x :: x in w && x !in {p, q} ==> r[x] == w[x]
  {
    w[p := q][q := p]
  }

  lemma TieSketch(nodes: NodeMap, w: Wires, a: NodeId, b: NodeId, p: Port, q: Port)
    requires Sketch(nodes, w, a, b) && p != q && p !in w && q !in w && Live(nodes, p) && Live(nodes, q)
    requires p.index == q.index == 0 ==> {p.owner, q.owner} == {a, b}
    ensures Sketch(nodes, Tie(w, p, q), a, b)
    ensures Agree(nodes, p, q) && Polarised(Net(nodes, w)) ==> Polarised(Net(nodes, Tie(w, p, q)))
  {
    hide Tie, Paired;
    var r := Tie(w, p, q);
    assert Paired(r) by { TiePaired(w, p, q); }
  }

  lemma TiePaired(w: Wires, p: Port, q: Port)
    requires Paired(w) && p != q && p !in w && q !in w
    ensures Paired(Tie(w, p, q))
    ensures forall x :: x in w ==> w[x] !in {p, q}
  {
    var r := Tie(w, p, q);
    forall x | x in r ensures r[x] in r && r[r[x]] == x && r[x] != x { assert x in w || x == p || x == q; }
  }

  lemma NoTies(nodes: NodeMap, a: NodeId, b: NodeId)
    ensures Sketch(nodes, map[], a, b) && Polarised(Net(nodes, map[]))
  {
  }

  /** The engine about to fire the one reacting pair of a net. */
  lemma OnlyPair(vm: Vm, a: NodeId, b: NodeId)
    requires vm.pairs == [] && a in vm.nodes && b in vm.nodes && a != b
    requires WellFormed(vm.nodes) && Sketch(vm.nodes, vm.target, a, b)
    requires forall n :: n in vm.nodes ==> Used(n, vm.serial)
    requires P(a) in vm.target && vm.target[P(a)] == P(b) && HasRule(vm.nodes[a].kind, vm.nodes[b].kind)
    ensures Setting(vm, a, b) && View(vm).wires == vm.target
  {
    assert View(vm).wires == vm.target;
  }

  /** The id of the k-th of a few nodes made by the engine. */
  function Nth(k: nat): NodeId { Gensym(Boundary, k) }

  predicate Among(n: NodeId, count: nat) {
    n.Gensym? && n.symbol == Boundary && n.serial < count
  }

  function Line(nodes: seq<Node>): (r: NodeMap)
    decreases |nodes|
    ensures forall n :: n in r <==> Among(n, |nodes|)
    ensures forall i :: 0 <= i < |nodes| ==> Nth(i) in r && r[Nth(i)] == nodes[i]
  {
    if nodes == [] then map[]
    else var k := |nodes| - 1; Line(nodes[..k])[Nth(k) := nodes[k]]
  }

  ghost predicate FilledAt(nodes: seq<Node>, w: Wires, k: nat)
    requires k < |nodes|
  {
    |nodes[k].aux| == Arity(nodes[k].kind) && forall i: nat :: i <= |nodes[k].aux| ==> Port(Nth(k), i) in w
  }

  /** A line of nodes with a wire at every port. */
  lemma LineClosed(nodes: seq<Node>, w: Wires, a: NodeId, b: NodeId)
    requires Sketch(Line(nodes), w, a, b) && forall k :: 0 <= k < |nodes| ==> FilledAt(nodes, w, k)
    ensures Closed(Net(Line(nodes), w))
  {
    hide Line, Paired, Live, FilledAt;
    LineFormed(nodes, w);
    forall p | Live(Line(nodes), p) ensures p in w { LineFull(nodes, w, p); }
  }

  lemma LineFormed(nodes: seq<Node>, w: Wires)
    requires forall k :: 0 <= k < |nodes| ==> FilledAt(nodes, w, k)
    ensures WellFormed(Line(nodes))
  {
    hide Line;
    forall n | n in Line(nodes) ensures |Line(nodes)[n].aux| == Arity(Line(nodes)[n].kind) {
      assert n == Nth(n.serial) && FilledAt(nodes, w, n.serial);
    }
  }

  lemma LineFull(nodes: seq<Node>, w: Wires, p: Port)
    requires Live(Line(nodes), p) && forall k :: 0 <= k < |nodes| ==> FilledAt(nodes, w, k)
    ensures p in w
  {
    hide Line;
    assert p.owner == Nth(p.owner.serial) && FilledAt(nodes, w, p.owner.serial);
    assert p == Port(Nth(p.owner.serial), p.index);
  }

  /** Two nodes face each other, and a value waits at a port of the second one. */
  function Meeting(x: Node, i: nat): Vm {
    Vm(Line([x, x, ValueNode(NOTHING, UNIT)]), [], 3,
       Tie(Tie(map[], P(Nth(0)), P(Nth(1))), A(Nth(1), i), P(Nth(2))))
  }

  lemma MeetingSet(x: Node, i: nat)
    requires |x.aux| == Arity(x.kind) && i < |x.aux|
    ensures Twins(Meeting(x, i), Nth(0), Nth(1), x.kind)
    ensures View(Meeting(x, i)).wires == Meeting(x, i).target
  {
    hide Setting, Line, Tie, Sketch, Polarised, View;
    var vm := Meeting(x, i);
    NoTies(vm.nodes, Nth(0), Nth(1));
    TieSketch(vm.nodes, map[], Nth(0), Nth(1), P(Nth(0)), P(Nth(1)));
    TieSketch(vm.nodes, Tie(map[], P(Nth(0)), P(Nth(1))), Nth(0), Nth(1), A(Nth(1), i), P(Nth(2)));
    forall n | n in vm.nodes ensures |vm.nodes[n].aux| == Arity(vm.nodes[n].kind) { assert n == Nth(n.serial); }
    OnlyPair(vm, Nth(0), Nth(1));
  }

  /** A value at the second switch's second auxiliary port is left wired to a retired node. */
  lemma TwoSwitchesLose()
    ensures Twins(Meeting(SwitchNode(UNIT), 1), Nth(0), Nth(1), Switch)
    ensures !WellWired(View(FireVm(Meeting(SwitchNode(UNIT), 1), Nth(0), Nth(1))))
  {
    hide FireVm, WellWired, Twins, View, Line, Tie;
    MeetingSet(SwitchNode(UNIT), 1);
    assert A(Nth(1), 1) in Meeting(SwitchNode(UNIT), 1).target;
    SwitchesExactly(Meeting(SwitchNode(UNIT), 1), Nth(0), Nth(1));
  }

  lemma TwoProjectionsLose()
    ensures Twins(Meeting(ProjectionNode(UNIT), 0), Nth(0), Nth(1), Projection)
    ensures !WellWired(View(FireVm(Meeting(ProjectionNode(UNIT), 0), Nth(0), Nth(1))))
  {
    hide FireVm, WellWired, Twins, View, Line, Tie;
    MeetingSet(ProjectionNode(UNIT), 0);
    ProjectionsExactly(Meeting(ProjectionNode(UNIT), 0), Nth(0), Nth(1));
  }

  // ----- shared closures -----

  /** A duplicator meets a constructor and both copies are discarded. */
  function SharedNodes(): seq<Node> {
    [DuplicatorNode(ANY), ConstructorNode(ANY, ANY), EraserNode(), EraserNode()]
  }

  function SharedWires(): Wires {
    Tie(Tie(Tie(map[], P(Nth(0)), P(Nth(1))), A(Nth(0), 0), P(Nth(2))), A(Nth(0), 1), P(Nth(3)))
  }

  lemma SharedSketch(nodes: seq<Node>)
    requires SharedNodes() <= nodes
    ensures Sketch(Line(nodes), SharedWires(), Nth(0), Nth(1)) && Polarised(Net(Line(nodes), SharedWires()))
    ensures SharedWires().Keys == {P(Nth(0)), P(Nth(1)), A(Nth(0), 0), P(Nth(2)), A(Nth(0), 1), P(Nth(3))}
    ensures Look(SharedWires(), P(Nth(0))) == Some(P(Nth(1)))
    ensures Look(SharedWires(), A(Nth(0), 0)) == Some(P(Nth(2))) && Look(SharedWires(), A(Nth(0), 1)) == Some(P(Nth(3)))
  {
    hide Line, Tie, Sketch, Polarised;
    var m := Line(nodes);
    NoTies(m, Nth(0), Nth(1));
    assert forall i :: 0 <= i < 4 ==> nodes[i] == SharedNodes()[i];
    TieSketch(m, map[], Nth(0), Nth(1), P(Nth(0)), P(Nth(1)));
    var w := Tie(map[], P(Nth(0)), P(Nth(1)));
    TieSketch(m, w, Nth(0), Nth(1), A(Nth(0), 0), P(Nth(2)));
    TieSketch(m, Tie(w, A(Nth(0), 0), P(Nth(2))), Nth(0), Nth(1), A(Nth(0), 1), P(Nth(3)));
  }

  /** The identity: its argument is its result. */
  function SharedIdentity(): Vm {
    Vm(Line(SharedNodes()), [], 4, Tie(SharedWires(), A(Nth(1), 0), A(Nth(1), 1)))
  }

  lemma SharedIdentitySet()
    ensures var vm := SharedIdentity();
      && Setting(vm, Nth(0), Nth(1)) && View(vm).wires == vm.target
      && Closed(View(vm)) && Polarised(View(vm))
      && RuleAt(View(vm), Nth(0), Nth(1)) == Duplicate
      && Look(vm.target, A(Nth(1), 0)) == Some(A(Nth(1), 1))
  {
    hide Setting, Line, Tie, SharedWires, Sketch, View, Polarised, Closed;
    var vm := SharedIdentity();
    SharedSketch(SharedNodes());
    TieSketch(vm.nodes, SharedWires(), Nth(0), Nth(1), A(Nth(1), 0), A(Nth(1), 1));
    LineClosed(SharedNodes(), vm.target, Nth(0), Nth(1));
    ClosedFormed(Net(vm.nodes, vm.target));
    OnlyPair(vm, Nth(0), Nth(1));
    ViewOf(vm);
  }

  lemma ClosedFormed(net: Net)
    requires Closed(net)
    ensures WellFormed(net.nodes) && forall p :: p in net.wires ==> Live(net.nodes, p)
  {
  }

  lemma ClosedWired(net: Net)
    requires Closed(net)
    ensures WellWired(net)
  {
  }

  lemma ViewOf(vm: Vm)
    requires View(vm).wires == vm.target
    ensures View(vm) == Net(vm.nodes, vm.target)
  {
  }

  /** Sharing the identity breaks the conservation of edges, on a closed and
      polarised net. */
  lemma SharedIdentityBreaks()
    ensures Setting(SharedIdentity(), Nth(0), Nth(1))
    ensures Closed(View(SharedIdentity())) && Polarised(View(SharedIdentity()))
    ensures !WellWired(View(FireVm(SharedIdentity(), Nth(0), Nth(1))))
  {
    hide FireVm, SharedIdentity, WellWired, Polarised, Closed, View;
    SharedIdentitySet();
    assert A(Nth(1), 0) in View(SharedIdentity()).wires;
    DuplicationExactly(SharedIdentity(), Nth(0), Nth(1));
  }

  /** A closure that ignores its argument, which is discarded, and returns a value. */
  function SharedConstant(): Net {
    Net(Line(SharedNodes() + [EraserNode(), ValueNode(NOTHING, ANY)]),
        Tie(Tie(SharedWires(), A(Nth(1), 0), P(Nth(4))), A(Nth(1), 1), P(Nth(5))))
  }

  lemma SharedConstantSketch()
    ensures var net := SharedConstant();
      && Sketch(net.nodes, net.wires, Nth(0), Nth(1)) && Polarised(net)
  {
    hide Line, Tie, SharedWires, Sketch, Polarised;
    var net := SharedConstant();
    var nodes := SharedNodes() + [EraserNode(), ValueNode(NOTHING, ANY)];
    SharedSketch(nodes);
    TieSketch(net.nodes, SharedWires(), Nth(0), Nth(1), A(Nth(1), 0), P(Nth(4)));
    TieSketch(net.nodes, Tie(SharedWires(), A(Nth(1), 0), P(Nth(4))), Nth(0), Nth(1), A(Nth(1), 1), P(Nth(5)));
  }

  lemma SharedConstantClosed()
    ensures Closed(SharedConstant())
  {
    hide Line, Tie, SharedWires, Sketch, Polarised, Closed;
    var nodes := SharedNodes() + [EraserNode(), ValueNode(NOTHING, ANY)];
    SharedSketch(nodes);
    SharedConstantSketch();
    LineClosed(nodes, SharedConstant().wires, Nth(0), Nth(1));
  }

  lemma SharedConstantSet()
    ensures var net := SharedConstant();
      && Reducible(net, Nth(0), Nth(1)) && NoInnerWire(net.wires, Nth(0), Nth(1))
      && net.nodes[Nth(0)] == DuplicatorNode(ANY) && net.nodes[Nth(1)] == ConstructorNode(ANY, ANY)
  {
    hide Line, Tie, SharedWires, Sketch, Polarised, Closed, NoInnerWire, WellFormed;
    var net := SharedConstant();
    SharedSketch(SharedNodes() + [EraserNode(), ValueNode(NOTHING, ANY)]);
    SharedConstantClosed();
    ClosedFormed(net);
    OutwardOnly(net, Nth(0), Nth(1));
  }

  /** All auxiliary ports of a duplicator and a constructor lead to other nodes. */
  lemma OutwardOnly(net: Net, d: NodeId, c: NodeId)
    requires WellFormed(net.nodes) && d in net.nodes && c in net.nodes && net.nodes[d].kind == Duplicator && net.nodes[c].kind == Constructor
    requires forall p :: p in net.wires ==> Live(net.nodes, p)
    requires forall p :: p in {A(d, 0), A(d, 1), A(c, 0), A(c, 1)} && p in net.wires ==> net.wires[p].owner !in {d, c}
    ensures NoInnerWire(net.wires, d, c)
  {
    forall p | p in net.wires && p.owner in {d, c} && p.index > 0 ensures net.wires[p].owner !in {d, c} {
      assert p in {A(d, 0), A(d, 1), A(c, 0), A(c, 1)};
    }
  }

  /** Sharing it is a regular firing, keeps the edges, and unpolarises the net. */
  lemma SharedConstantUnpolarises(ids: seq<NodeId>)
    requires |ids| == 4 && Fresh(SharedConstant(), ids)
    ensures var net := SharedConstant();
      && Closed(net) && Polarised(net) && Reducible(net, Nth(0), Nth(1)) && Regular(net, Nth(0), Nth(1))
      && |CreatedAt(net, Nth(0), Nth(1))| == 4
      && Closed(Fire(net, Nth(0), Nth(1), ids)) && !Polarised(Fire(net, Nth(0), Nth(1), ids))
  {
    hide Fire, SharedConstant, Polarised, Closed, NoInnerWire, WellWired;
    SharedConstantSet();
    SharedConstantSketch();
    SharedConstantClosed();
    assert WellWired(SharedConstant()) by { ClosedWired(SharedConstant()); }
    FireConserves(SharedConstant(), Nth(0), Nth(1), ids);
    CopyingUnpolarises(SharedConstant(), Nth(0), Nth(1), ids);
  }

  // ----- a switch between types that do not unify -----

  lemma TieTyped(nodes: NodeMap, w: Wires, p: Port, q: Port)
    requires WellTyped(Net(nodes, w)) && Matched(nodes, p, q) && p != q
    ensures WellTyped(Net(nodes, Tie(w, p, q)))
  {
    hide Tie;
    MatchedSymmetric(nodes, p, q);
    var r := Tie(w, p, q);
    forall x | x in r ensures Matched(nodes, x, r[x]) {
      if x !in {p, q} { assert Matched(nodes, x, w[x]); }
    }
  }

  /** A switch of wildcard type chooses a constant as the function of an application. */
  function WildcardSwitch(): Net {
    Net(Line([SwitchNode(ANY), ValueNode(Const(1, true), UNIT), ValueNode(NOTHING, UNIT), DestructorNode(UNIT, UNIT)]),
        Tie(Tie(Tie(map[], P(Nth(0)), P(Nth(1))), A(Nth(0), 0), P(Nth(2))), A(Nth(0), 2), P(Nth(3))))
  }

  lemma WildcardSwitchSet()
    ensures var net := WildcardSwitch();
      && Sketch(net.nodes, net.wires, Nth(0), Nth(1)) && WellTyped(net) && Polarised(net) && NodesTyped(net.nodes)
      && Reducible(net, Nth(0), Nth(1)) && Regular(net, Nth(0), Nth(1))
      && net.nodes[Nth(0)] == SwitchNode(ANY) && net.nodes[Nth(1)] == ValueNode(Const(1, true), UNIT)
      && Look(net.wires, A(Nth(0), 0)) == Some(P(Nth(2))) && Look(net.wires, A(Nth(0), 2)) == Some(P(Nth(3)))
      && net.nodes[Nth(2)].principal == UNIT && net.nodes[Nth(3)].principal == ImplicationOf(UNIT, UNIT)
  {
    hide Line, Tie, Sketch, Polarised, WellTyped;
    var net := WildcardSwitch();
    var m := net.nodes;
    var w1 := Tie(map[], P(Nth(0)), P(Nth(1)));
    var w2 := Tie(w1, A(Nth(0), 0), P(Nth(2)));
    NoTies(m, Nth(0), Nth(1));
    NothingTyped(m);
    TieSketch(m, map[], Nth(0), Nth(1), P(Nth(0)), P(Nth(1)));
    TieTyped(m, map[], P(Nth(0)), P(Nth(1)));
    TieSketch(m, w1, Nth(0), Nth(1), A(Nth(0), 0), P(Nth(2)));
    TieTyped(m, w1, A(Nth(0), 0), P(Nth(2)));
    TieSketch(m, w2, Nth(0), Nth(1), A(Nth(0), 2), P(Nth(3)));
    TieTyped(m, w2, A(Nth(0), 2), P(Nth(3)));
    forall n | n in m ensures NodeTyped(m[n]) { assert n == Nth(n.serial); }
  }

  lemma NothingTyped(nodes: NodeMap)
    ensures WellTyped(Net(nodes, map[]))
  {
  }

  lemma SketchWired(nodes: NodeMap, w: Wires, a: NodeId, b: NodeId)
    requires Sketch(nodes, w, a, b) && NodesTyped(nodes)
    ensures WellWired(Net(nodes, w))
  {
  }

  /** Firing it joins the constant and the application, whose types do not unify. */
  lemma WildcardSwitchMistypes(ids: seq<NodeId>)
    requires |ids| == 1 && Fresh(WildcardSwitch(), ids)
    ensures var net := WildcardSwitch();
      && WellWired(net) && WellTyped(net) && Polarised(net) && NodesTyped(net.nodes)
      && Reducible(net, Nth(0), Nth(1)) && Regular(net, Nth(0), Nth(1)) && |CreatedAt(net, Nth(0), Nth(1))| == 1
      && !WellTyped(Fire(net, Nth(0), Nth(1), ids))
  {
    hide WildcardSwitch, WellTyped, Polarised, Fire, Sketch, Regular, Fresh, NodesTyped;
    var net := WildcardSwitch();
    WildcardSwitchSet();
    SketchWired(net.nodes, net.wires, Nth(0), Nth(1));
    SelectTypedExactly(net, Nth(0), Nth(1), ids);
  }
}
