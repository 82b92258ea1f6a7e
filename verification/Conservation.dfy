/** Conservation of edges: firing a regular pair keeps the wiring symmetric, with
    no wire into a retired node, and keeps a closed net closed -- also when the
    reacting nodes' own auxiliary ports are wired to each other. */
module Conservation {
  import opened Collections
  import opened Wiring
  import opened Nets

  predicate PortOf(x: Node, a: NodeId, p: Port) {
    p.owner == a && p.index <= |x.aux|
  }

  ghost predicate Untangled(ops: seq<Op>) {
    && (forall k :: 0 <= k < |ops| ==> ops[k].Proper())
    && (forall j, k :: 0 <= j < k < |ops| ==> ops[j].Ports() !! ops[k].Ports())
  }

  ghost predicate ConsumesOnly(ops: seq<Op>, a: NodeId, x: Node, b: NodeId, y: Node) {
    forall k, p :: 0 <= k < |ops| && p in ops[k].Old() ==> PortOf(x, a, p) || PortOf(y, b, p)
  }

  ghost predicate ConsumesAll(ops: seq<Op>, a: NodeId, x: Node, b: NodeId, y: Node) {
    forall p :: PortOf(x, a, p) || PortOf(y, b, p) ==> p in OldPorts(ops)
  }

  ghost predicate IntroducesOnly(ops: seq<Op>, ids: seq<NodeId>, created: seq<Node>)
    requires |ids| == |created|
  {
    forall k, p :: 0 <= k < |ops| && p in ops[k].New() ==> exists i :: 0 <= i < |ids| && PortOf(created[i], ids[i], p)
  }

  ghost predicate IntroducesAll(ops: seq<Op>, ids: seq<NodeId>, created: seq<Node>)
    requires |ids| == |created|
  {
    forall i, p :: 0 <= i < |ids| && PortOf(created[i], ids[i], p) ==> p in NewPorts(ops)
  }

  /** What each rule's edits touch: every port of the two reacting nodes once, and
      every port of the created nodes once. */
  ghost predicate Exact(ops: seq<Op>, a: NodeId, x: Node, b: NodeId, y: Node, ids: seq<NodeId>, created: seq<Node>)
    requires |ids| == |created|
  {
    && Untangled(ops)
    && ConsumesOnly(ops, a, x, b, y)
    && ConsumesAll(ops, a, x, b, y)
    && IntroducesOnly(ops, ids, created)
    && IntroducesAll(ops, ids, created)
  }

  ghost predicate Separate(a: NodeId, b: NodeId, ids: seq<NodeId>) {
    a != b && Distinct(ids) && a !in ids && b !in ids
  }

  lemma AnnihilateExact(a: NodeId, x: Node, b: NodeId, y: Node)
    requires a != b && |x.aux| == |y.aux|
    ensures Exact(Edits(Annihilate, a, x, b, y, []), a, x, b, y, [], [])
  {
    var ops := Edits(Annihilate, a, x, b, y, []);
    forall p | PortOf(x, a, p) || PortOf(y, b, p) ensures p in OldPorts(ops) {
      PortsOfMember(ops, p.index);
      assert p in ops[p.index].Old();
    }
  }

  lemma EraseConsumes(a: NodeId, x: Node, b: NodeId, y: Node, ids: seq<NodeId>)
    requires |x.aux| == 0 && |ids| == |y.aux|
    ensures ConsumesOnly(Edits(Erase, a, x, b, y, ids), a, x, b, y)
    ensures ConsumesAll(Edits(Erase, a, x, b, y, ids), a, x, b, y)
  {
    var ops := Edits(Erase, a, x, b, y, ids);
    forall p | PortOf(x, a, p) || PortOf(y, b, p) ensures p in OldPorts(ops) {
      PortsOfMember(ops, p.index);
      assert p in ops[p.index].Old();
    }
  }

  lemma EraseIntroduces(a: NodeId, x: Node, b: NodeId, y: Node, ids: seq<NodeId>)
    requires |ids| == |y.aux|
    ensures IntroducesOnly(Edits(Erase, a, x, b, y, ids), ids, Created(Erase, x, y, b))
    ensures IntroducesAll(Edits(Erase, a, x, b, y, ids), ids, Created(Erase, x, y, b))
  {
    var ops := Edits(Erase, a, x, b, y, ids);
    var created := Created(Erase, x, y, b);
    forall i, p | 0 <= i < |ids| && PortOf(created[i], ids[i], p) ensures p in NewPorts(ops) {
      PortsOfMember(ops, i + 1);
      assert p in ops[i + 1].New();
    }
    forall k, p | 0 <= k < |ops| && p in ops[k].New()
      ensures exists i :: 0 <= i < |ids| && PortOf(created[i], ids[i], p)
    {
      assert PortOf(created[k - 1], ids[k - 1], p);
    }
  }

  lemma EraseExact(a: NodeId, x: Node, b: NodeId, y: Node, ids: seq<NodeId>)
    requires Separate(a, b, ids) && |x.aux| == 0 && |ids| == |y.aux|
    ensures Exact(Edits(Erase, a, x, b, y, ids), a, x, b, y, ids, Created(Erase, x, y, b))
  {
    EraseConsumes(a, x, b, y, ids);
    EraseIntroduces(a, x, b, y, ids);
  }

  lemma SelectExact(a: NodeId, x: Node, b: NodeId, y: Node, ids: seq<NodeId>)
    requires Separate(a, b, ids) && |x.aux| == 3 && |y.aux| == 0 && |ids| == 1
    ensures Exact(Edits(Select, a, x, b, y, ids), a, x, b, y, ids, Created(Select, x, y, b))
  {
    var ops := Edits(Select, a, x, b, y, ids);
    PortsOfMember(ops, 0);
    PortsOfMember(ops, 1);
    PortsOfMember(ops, 2);
    var created := Created(Select, x, y, b);
    forall p | PortOf(x, a, p) || PortOf(y, b, p) ensures p in OldPorts(ops) {
      assert p in ops[0].Old() || p in ops[1].Old() || p in ops[2].Old();
    }
    assert PortOf(created[0], ids[0], P(ids[0])) && P(ids[0]) in ops[2].New();
  }

  lemma ProjectExact(a: NodeId, x: Node, b: NodeId, y: Node, ids: seq<NodeId>)
    requires Separate(a, b, ids) && |x.aux| == 1 && |y.aux| == 0 && |ids| == 1
    ensures Exact(Edits(Project, a, x, b, y, ids), a, x, b, y, ids, Created(Project, x, y, b))
  {
    var ops := Edits(Project, a, x, b, y, ids);
    PortsOfMember(ops, 0);
    PortsOfMember(ops, 1);
    var created := Created(Project, x, y, b);
    forall p | PortOf(x, a, p) || PortOf(y, b, p) ensures p in OldPorts(ops) {
      assert p in ops[0].Old() || p in ops[1].Old();
    }
    assert PortOf(created[0], ids[0], P(ids[0])) && P(ids[0]) in ops[1].New();
  }

  /** Which node's port a duplication edit introduces, and which reacting port it
      consumes, by the edit's place in the list. */
  lemma DuplicateShape(a: NodeId, x: Node, b: NodeId, y: Node, ids: seq<NodeId>, k: nat)
    requires |x.aux| == 2 && |ids| == |Created(Duplicate, x, y, b)|
    requires k < 5 + 3 * |y.aux| - 2
    ensures |Edits(Duplicate, a, x, b, y, ids)| == 3 + 3 * |y.aux|
    ensures
      var n := |y.aux|;
      Edits(Duplicate, a, x, b, y, ids)[k] ==
      if k == 0 then Splice(P(a), P(b))
      else if k < 3 then Graft(A(a, k - 1), P(ids[k - 1]))
      else if k < 3 + n then Graft(A(b, k - 3), P(ids[k - 1]))
      else if k < 3 + 2 * n then Join(A(ids[0], k - 3 - n), A(ids[k - 1 - n], 0))
      else Join(A(ids[1], k - 3 - 2 * n), A(ids[k - 1 - 2 * n], 1))
  {
  }

  lemma DuplicateUntangled(a: NodeId, x: Node, b: NodeId, y: Node, ids: seq<NodeId>)
    requires Separate(a, b, ids) && |x.aux| == 2 && |ids| == |Created(Duplicate, x, y, b)|
    ensures Untangled(Edits(Duplicate, a, x, b, y, ids))
  {
    var ops := Edits(Duplicate, a, x, b, y, ids);
    DuplicateShape(a, x, b, y, ids, 0);
    forall k | 0 <= k < |ops| ensures ops[k].Proper() { DuplicateShape(a, x, b, y, ids, k); }
    forall j, k | 0 <= j < k < |ops| ensures ops[j].Ports() !! ops[k].Ports() {
      DuplicateShape(a, x, b, y, ids, j);
      DuplicateShape(a, x, b, y, ids, k);
    }
  }

  lemma DuplicateConsumes(a: NodeId, x: Node, b: NodeId, y: Node, ids: seq<NodeId>)
    requires |x.aux| == 2 && |ids| == |Created(Duplicate, x, y, b)|
    ensures ConsumesOnly(Edits(Duplicate, a, x, b, y, ids), a, x, b, y)
    ensures ConsumesAll(Edits(Duplicate, a, x, b, y, ids), a, x, b, y)
  {
    var ops := Edits(Duplicate, a, x, b, y, ids);
    DuplicateShape(a, x, b, y, ids, 0);
    forall k, p | 0 <= k < |ops| && p in ops[k].Old() ensures PortOf(x, a, p) || PortOf(y, b, p) {
      DuplicateShape(a, x, b, y, ids, k);
    }
    forall p | PortOf(x, a, p) || PortOf(y, b, p) ensures p in OldPorts(ops) {
      var k := if p.index == 0 then 0 else if PortOf(x, a, p) then p.index else 2 + p.index;
      DuplicateShape(a, x, b, y, ids, k);
      PortsOfMember(ops, k);
      assert p in ops[k].Old();
    }
  }

  lemma DuplicateIntroducesOnly(a: NodeId, x: Node, b: NodeId, y: Node, ids: seq<NodeId>)
    requires |x.aux| == 2 && |ids| == |Created(Duplicate, x, y, b)|
    ensures IntroducesOnly(Edits(Duplicate, a, x, b, y, ids), ids, Created(Duplicate, x, y, b))
  {
    var ops := Edits(Duplicate, a, x, b, y, ids);
    var created := Created(Duplicate, x, y, b);
    var n := |y.aux|;
    DuplicateShape(a, x, b, y, ids, 0);
    forall k, p | 0 <= k < |ops| && p in ops[k].New()
      ensures exists i :: 0 <= i < |ids| && PortOf(created[i], ids[i], p)
    {
      DuplicateShape(a, x, b, y, ids, k);
      if k < 3 + n {
        assert PortOf(created[k - 1], ids[k - 1], p);
      } else if k < 3 + 2 * n {
        assert PortOf(created[0], ids[0], p) || PortOf(created[k - 1 - n], ids[k - 1 - n], p);
      } else {
        assert PortOf(created[1], ids[1], p) || PortOf(created[k - 1 - 2 * n], ids[k - 1 - 2 * n], p);
      }
    }
  }

  lemma DuplicateIntroducesAll(a: NodeId, x: Node, b: NodeId, y: Node, ids: seq<NodeId>)
    requires |x.aux| == 2 && |ids| == |Created(Duplicate, x, y, b)|
    ensures IntroducesAll(Edits(Duplicate, a, x, b, y, ids), ids, Created(Duplicate, x, y, b))
  {
    var ops := Edits(Duplicate, a, x, b, y, ids);
    var created := Created(Duplicate, x, y, b);
    var n := |y.aux|;
    DuplicateShape(a, x, b, y, ids, 0);
    forall i, p | 0 <= i < |ids| && PortOf(created[i], ids[i], p) ensures p in NewPorts(ops) {
      var k := if p.index == 0 then i + 1
               else if i == 0 then 2 + n + p.index
               else if i == 1 then 2 + 2 * n + p.index
               else if p.index == 1 then 1 + i + n
               else 1 + i + 2 * n;
      DuplicateShape(a, x, b, y, ids, k);
      PortsOfMember(ops, k);
      assert p in ops[k].New();
    }
  }

  lemma DuplicateExact(a: NodeId, x: Node, b: NodeId, y: Node, ids: seq<NodeId>)
    requires Separate(a, b, ids) && |x.aux| == 2 && |ids| == |Created(Duplicate, x, y, b)|
    ensures Exact(Edits(Duplicate, a, x, b, y, ids), a, x, b, y, ids, Created(Duplicate, x, y, b))
  {
    DuplicateUntangled(a, x, b, y, ids);
    DuplicateConsumes(a, x, b, y, ids);
    DuplicateIntroducesOnly(a, x, b, y, ids);
    DuplicateIntroducesAll(a, x, b, y, ids);
  }

  lemma EditsExact(net: Net, a: NodeId, b: NodeId, ids: seq<NodeId>)
    requires WellFormed(net.nodes) && Reducible(net, a, b) && Regular(net, a, b)
    requires |ids| == |CreatedAt(net, a, b)| && Fresh(net, ids)
    ensures var (x, y) := (Lead(net, a, b), Other(net, a, b));
      Exact(EditsAt(net, a, b, ids), x, net.nodes[x], y, net.nodes[y], ids, CreatedAt(net, a, b))
  {
    var (x, y) := (Lead(net, a, b), Other(net, a, b));
    match RuleAt(net, a, b)
    case Annihilate => AnnihilateExact(x, net.nodes[x], y, net.nodes[y]);
    case Duplicate => DuplicateExact(x, net.nodes[x], y, net.nodes[y], ids);
    case Erase => EraseExact(x, net.nodes[x], y, net.nodes[y], ids);
    case Select => SelectExact(x, net.nodes[x], y, net.nodes[y], ids);
    case Project => ProjectExact(x, net.nodes[x], y, net.nodes[y], ids);
  }

  lemma OldPortFrom(ops: seq<Op>, p: Port) returns (k: nat)
    requires p in OldPorts(ops)
    ensures k < |ops| && p in ops[k].Old()
  {
    if p in ops[0].Old() { k := 0; } else { k := OldPortFrom(ops[1..], p); k := k + 1; }
  }

  lemma NewPortFrom(ops: seq<Op>, p: Port) returns (k: nat)
    requires p in NewPorts(ops)
    ensures k < |ops| && p in ops[k].New()
  {
    if p in ops[0].New() { k := 0; } else { k := NewPortFrom(ops[1..], p); k := k + 1; }
  }

  lemma CreatedArities(net: Net, a: NodeId, b: NodeId)
    requires WellFormed(net.nodes) && Reducible(net, a, b)
    ensures forall i :: 0 <= i < |CreatedAt(net, a, b)| ==>
      |CreatedAt(net, a, b)[i].aux| == Arity(CreatedAt(net, a, b)[i].kind)
  {
  }

  // ----- any exact list of edits conserves -----

  /** A rewrite of the two nodes a and b, by edits that touch exactly their ports. */
  datatype Rewrite = Rewrite(a: NodeId, b: NodeId, ids: seq<NodeId>, created: seq<Node>, ops: seq<Op>)

  ghost predicate Faithful(net: Net, r: Rewrite) {
    && r.a in net.nodes && r.b in net.nodes && r.a != r.b
    && |r.ids| == |r.created| && Fresh(net, r.ids)
    && (forall i :: 0 <= i < |r.created| ==> |r.created[i].aux| == Arity(r.created[i].kind))
    && Exact(r.ops, r.a, net.nodes[r.a], r.b, net.nodes[r.b], r.ids, r.created)
  }

  function Rewritten(net: Net, r: Rewrite): Net
    requires |r.ids| == |r.created|
  {
    Net(AddNodes(net.nodes - {r.a, r.b}, r.ids, r.created), ApplyAll(net.wires, r.ops))
  }

  lemma RewriteLinear(net: Net, r: Rewrite)
    requires WellWired(net) && Faithful(net, r)
    ensures Linear(net.wires, r.ops)
  {
  }

  /** The live ports afterwards: those of the retired nodes go, those of the
      created nodes come. */
  lemma LiveAfter(net: Net, r: Rewrite, p: Port)
    requires Faithful(net, r)
    ensures Live(Rewritten(net, r).nodes, p) <==>
      || (Live(net.nodes, p) && p.owner != r.a && p.owner != r.b)
      || (exists i :: 0 <= i < |r.ids| && PortOf(r.created[i], r.ids[i], p))
  {
    AddNodesAll(net.nodes - {r.a, r.b}, r.ids, r.created);
    if p.owner in r.ids {
      var i :| 0 <= i < |r.ids| && r.ids[i] == p.owner;
      assert PortOf(r.created[i], r.ids[i], p) <==> p.index <= |r.created[i].aux|;
    }
  }

  lemma WiresLiveAfter(net: Net, r: Rewrite, p: Port)
    requires WellWired(net) && Faithful(net, r) && p in Rewritten(net, r).wires
    ensures Live(Rewritten(net, r).nodes, p)
  {
    RewriteLinear(net, r);
    ApplyAllPaired(net.wires, r.ops);
    LiveAfter(net, r, p);
    if p in NewPorts(r.ops) { var k := NewPortFrom(r.ops, p); }
  }

  lemma ConsumedIsLive(net: Net, r: Rewrite, q: Port)
    requires Faithful(net, r) && q in OldPorts(r.ops)
    ensures Live(net.nodes, q) && q.owner in {r.a, r.b}
  {
    var k := OldPortFrom(r.ops, q);
    assert PortOf(net.nodes[r.a], r.a, q) || PortOf(net.nodes[r.b], r.b, q);
  }

  lemma ClosedKeysAfter(net: Net, r: Rewrite)
    requires Closed(net) && Faithful(net, r)
    ensures Rewritten(net, r).wires.Keys == net.wires.Keys - OldPorts(r.ops) + NewPorts(r.ops)
  {
    RewriteLinear(net, r);
    forall q | q in OldPorts(r.ops) ensures q in net.wires { ConsumedIsLive(net, r, q); }
    ApplyAllKeys(net.wires, r.ops);
  }

  lemma PortsBoundAfter(net: Net, r: Rewrite, p: Port)
    requires Closed(net) && Faithful(net, r) && Live(Rewritten(net, r).nodes, p)
    ensures p in Rewritten(net, r).wires
  {
    ClosedKeysAfter(net, r);
    LiveAfter(net, r, p);
    if p in OldPorts(r.ops) { ConsumedIsLive(net, r, p); }
  }

  lemma RewriteConserves(net: Net, r: Rewrite)
    requires WellWired(net) && Faithful(net, r)
    ensures WellWired(Rewritten(net, r))
    ensures Closed(net) ==> Closed(Rewritten(net, r))
  {
    var after := Rewritten(net, r);
    RewriteLinear(net, r);
    ApplyAllPaired(net.wires, r.ops);
    AddNodesAll(net.nodes - {r.a, r.b}, r.ids, r.created);
    forall n | n in after.nodes ensures |after.nodes[n].aux| == Arity(after.nodes[n].kind) {
      if n in r.ids { var i :| 0 <= i < |r.ids| && r.ids[i] == n; }
    }
    forall p | p in after.wires ensures Live(after.nodes, p) { WiresLiveAfter(net, r, p); }
    if Closed(net) {
      forall p | Live(after.nodes, p) ensures p in after.wires { PortsBoundAfter(net, r, p); }
    }
  }

  // ----- the five rules -----

  function RewriteAt(net: Net, a: NodeId, b: NodeId, ids: seq<NodeId>): Rewrite
    requires a in net.nodes && b in net.nodes && |ids| == |CreatedAt(net, a, b)|
  {
    Rewrite(Lead(net, a, b), Other(net, a, b), ids, CreatedAt(net, a, b), EditsAt(net, a, b, ids))
  }

  lemma FireIsRewrite(net: Net, a: NodeId, b: NodeId, ids: seq<NodeId>)
    requires a in net.nodes && b in net.nodes && |ids| == |CreatedAt(net, a, b)|
    ensures Fire(net, a, b, ids) == Rewritten(net, RewriteAt(net, a, b, ids))
  {
    assert {Lead(net, a, b), Other(net, a, b)} == {a, b};
  }

  lemma FireFaithful(net: Net, a: NodeId, b: NodeId, ids: seq<NodeId>)
    requires WellFormed(net.nodes) && Reducible(net, a, b) && Regular(net, a, b)
    requires |ids| == |CreatedAt(net, a, b)| && Fresh(net, ids)
    ensures Faithful(net, RewriteAt(net, a, b, ids))
    ensures Fire(net, a, b, ids) == Rewritten(net, RewriteAt(net, a, b, ids))
  {
    EditsExact(net, a, b, ids);
    CreatedArities(net, a, b);
    FireIsRewrite(net, a, b, ids);
  }

  /** Firing a regular pair leaves no wire into a retired node, and leaves every
      port of a closed net bound. */
  lemma FireConserves(net: Net, a: NodeId, b: NodeId, ids: seq<NodeId>)
    requires WellWired(net) && Reducible(net, a, b) && Regular(net, a, b)
    requires |ids| == |CreatedAt(net, a, b)| && Fresh(net, ids)
    ensures WellWired(Fire(net, a, b, ids))
    ensures Closed(net) ==> Closed(Fire(net, a, b, ids))
  {
    FireFaithful(net, a, b, ids);
    RewriteConserves(net, RewriteAt(net, a, b, ids));
  }
}
