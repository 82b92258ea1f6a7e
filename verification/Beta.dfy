/** What one call does to the wires (core/hin_vm.py, the annihilation of a constructor and a destructor), and what
    one projection emits. */
module Beta {
  import opened MellTypes
  import opened Wiring
  import opened Nets

  /** A closure faces a call, and the four wires at their other ports lead elsewhere. */
  ghost predicate Redex(net: Net, c: NodeId, d: NodeId) {
    && WellWired(net) && c in net.nodes && d in net.nodes && net.nodes[c].kind == Constructor && net.nodes[d].kind == Destructor
    && P(c) in net.wires && net.wires[P(c)] == P(d)
    && LeadOut(net.wires, c, d)
  }

  lemma ThreeEdits(w: Wires, e: Op, f: Op, g: Op)
    ensures ApplyAll(w, [e, f, g]) == Apply(Apply(Apply(w, e), f), g)
  {
    hide Apply;
    assert [e, f, g][1..] == [f, g] && [f, g][1..] == [g] && [g][1..] == [];
    assert ApplyAll(w, [e, f, g]) == ApplyAll(Apply(w, e), [f, g]);
    assert ApplyAll(Apply(w, e), [f, g]) == ApplyAll(Apply(Apply(w, e), f), [g]);
    assert ApplyAll(Apply(Apply(w, e), f), [g]) == ApplyAll(Apply(Apply(Apply(w, e), f), g), []);
  }

  lemma CallEdits(c: NodeId, x: Node, d: NodeId, y: Node)
    requires |x.aux| == |y.aux| == 2
    ensures Edits(Annihilate, c, x, d, y, []) == [Splice(P(c), P(d)), Splice(A(c, 0), A(d, 0)), Splice(A(c, 1), A(d, 1))]
  {
  }

  lemma RedexFires(net: Net, c: NodeId, d: NodeId)
    requires Redex(net, c, d)
    ensures Reducible(net, c, d) && CreatedAt(net, c, d) == [] && c != d
    ensures Fire(net, c, d, []).wires == Apply(Apply(Apply(net.wires, Splice(P(c), P(d))), Splice(A(c, 0), A(d, 0))), Splice(A(c, 1), A(d, 1)))
  {
    hide Edits, Paired, AddNodes, Apply, ApplyAll;
    CallEdits(c, net.nodes[c], d, net.nodes[d]);
    ThreeEdits(net.wires, Splice(P(c), P(d)), Splice(A(c, 0), A(d, 0)), Splice(A(c, 1), A(d, 1)));
  }

  /** One splice, seen from the far ends and from everywhere else. */
  lemma OneSplice(w: Wires, x: Port, y: Port)
    requires Paired(w) && x in w && y in w && x != y && w[x] != y
    ensures var v := Apply(w, Splice(x, y)); Look(v, w[x]) == Some(w[y]) && Look(v, w[y]) == Some(w[x])
    ensures forall p :: p in w && p !in {x, y} && w[p] !in {x, y} ==> Look(Apply(w, Splice(x, y)), p) == Some(w[p])
  {
    var v := Apply(w, Splice(x, y));
    assert Look(v, w[x]) == LookAfter(w, Splice(x, y), w[x]) && Look(v, w[y]) == LookAfter(w, Splice(x, y), w[y]);
    forall p | p in w && p !in {x, y} && w[p] !in {x, y} ensures Look(v, p) == Some(w[p]) { assert Look(v, p) == LookAfter(w, Splice(x, y), p); }
  }

  lemma DropsWire(w: Wires, x: Port, y: Port)
    requires Paired(w) && x in w && w[x] == y
    ensures forall p :: p in w && p !in {x, y} ==> Look(Apply(w, Splice(x, y)), p) == Some(w[p])
  {
    forall p | p in w && p !in {x, y} ensures Look(Apply(w, Splice(x, y)), p) == Some(w[p]) {
      assert Look(Apply(w, Splice(x, y)), p) == LookAfter(w, Splice(x, y), p);
    }
  }

  ghost predicate LeadOut(w: Wires, c: NodeId, d: NodeId) {
    forall p :: p in {A(c, 0), A(c, 1), A(d, 0), A(d, 1)} ==> p in w && w[p].owner != c && w[p].owner != d
  }

  lemma ThreeSplices(w: Wires, c: NodeId, d: NodeId)
    requires Paired(w) && c != d && P(c) in w && w[P(c)] == P(d) && LeadOut(w, c, d)
    ensures var after := Apply(Apply(Apply(w, Splice(P(c), P(d))), Splice(A(c, 0), A(d, 0))), Splice(A(c, 1), A(d, 1)));
      && Look(after, w[A(d, 0)]) == Some(w[A(c, 0)]) && Look(after, w[A(c, 0)]) == Some(w[A(d, 0)])
      && Look(after, w[A(c, 1)]) == Some(w[A(d, 1)]) && Look(after, w[A(d, 1)]) == Some(w[A(c, 1)])
      && forall p :: p in w && p.owner !in {c, d} && w[p].owner !in {c, d} ==> Look(after, p) == Some(w[p])
  {
    hide Apply;
    var u := Apply(w, Splice(P(c), P(d)));
    var v := Apply(u, Splice(A(c, 0), A(d, 0)));
    DropsWire(w, P(c), P(d));
    assert w[P(d)] == P(c);
    ApplyPaired(w, Splice(P(c), P(d)));
    assert w[w[A(d, 0)]] == A(d, 0) && w[w[A(c, 0)]] == A(c, 0) && w[w[A(d, 1)]] == A(d, 1) && w[w[A(c, 1)]] == A(c, 1);
    assert Look(u, A(c, 0)) == Some(w[A(c, 0)]) && Look(u, A(d, 0)) == Some(w[A(d, 0)]);
    assert Look(u, A(c, 1)) == Some(w[A(c, 1)]) && Look(u, A(d, 1)) == Some(w[A(d, 1)]);
    OneSplice(u, A(c, 0), A(d, 0));
    ApplyPaired(u, Splice(A(c, 0), A(d, 0)));
    assert Look(v, A(c, 1)) == Some(w[A(c, 1)]) && Look(v, A(d, 1)) == Some(w[A(d, 1)]);
    OneSplice(v, A(c, 1), A(d, 1));
    assert Look(v, w[A(d, 0)]) == Some(w[A(c, 0)]) && Look(v, w[A(c, 0)]) == Some(w[A(d, 0)]);
    forall p | p in w && p.owner !in {c, d} && w[p].owner !in {c, d}
      ensures Look(Apply(v, Splice(A(c, 1), A(d, 1))), p) == Some(w[p])
    {
      assert Look(u, p) == Some(w[p]);
      assert Look(v, p) == Some(w[p]);
    }
  }

  /** Beta: firing a closure against a call joins the argument to the variable and the body to the result, and
      leaves every other wire between other nodes alone. */
  lemma CallJoins(net: Net, c: NodeId, d: NodeId)
    requires Redex(net, c, d)
    ensures Reducible(net, c, d) && CreatedAt(net, c, d) == []
    ensures var (w, after) := (net.wires, Fire(net, c, d, []).wires);
      && Look(after, w[A(d, 0)]) == Some(w[A(c, 0)]) && Look(after, w[A(c, 0)]) == Some(w[A(d, 0)])
      && Look(after, w[A(c, 1)]) == Some(w[A(d, 1)]) && Look(after, w[A(d, 1)]) == Some(w[A(c, 1)])
      && forall p :: p in w && p.owner !in {c, d} && w[p].owner !in {c, d} ==> Look(after, p) == Some(w[p])
  {
    hide Apply, WellFormed;
    RedexFires(net, c, d);
    ThreeSplices(net.wires, c, d);
  }

  lemma ProjectEdits(p: NodeId, x: Node, v: NodeId, y: Node, id: NodeId)
    ensures Edits(Project, p, x, v, y, [id]) == [Splice(P(p), P(v)), Graft(A(p, 0), P(id))]
  {
  }

  lemma TwoEdits(w: Wires, e: Op, f: Op)
    ensures ApplyAll(w, [e, f]) == Apply(Apply(w, e), f)
  {
    hide Apply;
    assert [e, f][1..] == [f] && [f][1..] == [];
    assert ApplyAll(w, [e, f]) == ApplyAll(Apply(w, e), [f]);
    assert ApplyAll(Apply(w, e), [f]) == ApplyAll(Apply(Apply(w, e), f), []);
  }

  /** A projection that meets a value emits that value, where its output led. */
  lemma ProjectionEmits(net: Net, a: NodeId, b: NodeId, id: NodeId)
    requires WellWired(net) && Reducible(net, a, b) && {net.nodes[a].kind, net.nodes[b].kind} == {Projection, Value} && id !in net.nodes
    ensures var (p, v) := if net.nodes[a].kind == Projection then (a, b) else (b, a);
      && |CreatedAt(net, a, b)| == 1
      && var after := Fire(net, a, b, [id]);
         && id in after.nodes && after.nodes[id].kind == Value && after.nodes[id].payload == net.nodes[v].payload
         && (A(p, 0) in net.wires ==> Look(after.wires, net.wires[A(p, 0)]) == Some(P(id)) && Look(after.wires, P(id)) == Some(net.wires[A(p, 0)]))
  {
    var (p, v) := if net.nodes[a].kind == Projection then (a, b) else (b, a);
    var w := net.wires;
    AddNodesNew(net.nodes - {a, b}, [id], CreatedAt(net, a, b), 0);
    ProjectEdits(p, net.nodes[p], v, net.nodes[v], id);
    TwoEdits(w, Splice(P(p), P(v)), Graft(A(p, 0), P(id)));
    var u := Apply(w, Splice(P(p), P(v)));
    assert Fire(net, a, b, [id]).wires == Apply(u, Graft(A(p, 0), P(id)));
    assert w[P(p)] == P(v) && w[P(v)] == P(p);
    if A(p, 0) in w {
      var far := w[A(p, 0)];
      assert w[far] == A(p, 0) && Live(net.nodes, far);
      assert Look(u, A(p, 0)) == LookAfter(w, Splice(P(p), P(v)), A(p, 0)) && Look(u, far) == LookAfter(w, Splice(P(p), P(v)), far);
      assert Look(Apply(u, Graft(A(p, 0), P(id))), far) == LookAfter(u, Graft(A(p, 0), P(id)), far);
      assert Look(Apply(u, Graft(A(p, 0), P(id))), P(id)) == LookAfter(u, Graft(A(p, 0), P(id)), P(id));
    }
  }
}
