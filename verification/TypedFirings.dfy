/** Which firings keep every wire typed, exactly (core/hin_vm.py): rules splice wires past the
    guardrail of Port.connect, so what counts is which ends they bring together. */
module TypedFirings {
  import opened MellTypes
  import opened Wiring
  import opened Nets
  import opened Conservation
  import opened Polarity
  import opened Confluence
  import opened Machine
  import opened SubjectReduction

  // ----- the exact condition -----

  /** The ends that an edit brings together are related, unless a later edit takes one of them. */
  ghost predicate MeetsNow(w: Wires, op: Op, later: set<Port>, rel: (Port, Port) -> bool) {
    match op
    case Splice(x, y) => x in w && y in w && w[x] != y && w[x] !in later && w[y] !in later ==> rel(w[x], w[y])
    case Graft(x, h) => x in w && w[x] !in later ==> rel(w[x], h)
    case Join(x, y) => rel(x, y)
  }

  /** Likewise for a list of edits, each on the wires that it finds. */
  ghost predicate Meets(w: Wires, ops: seq<Op>, rel: (Port, Port) -> bool)
    decreases |ops|
  {
    ops == [] || (MeetsNow(w, ops[0], OldPorts(ops[1..]), rel) && Meets(Apply(w, ops[0]), ops[1..], rel))
  }

  /** The wires that none of the ports to be taken is on are related. */
  ghost predicate RelatedBut(w: Wires, later: set<Port>, rel: (Port, Port) -> bool) {
    forall p :: p in w && p !in later && w[p] !in later ==> rel(p, w[p])
  }

  lemma MeetsStep(w: Wires, op: Op, later: set<Port>, rel: (Port, Port) -> bool)
    requires Paired(w) && Ready(w, op) && op.Ports() !! later && forall s, t :: rel(s, t) ==> rel(t, s)
    ensures RelatedBut(Apply(w, op), later, rel) <==> RelatedBut(w, op.Old() + later, rel) && MeetsNow(w, op, later, rel)
  {
    var r := Apply(w, op);
    if RelatedBut(w, op.Old() + later, rel) && MeetsNow(w, op, later, rel) {
      forall p | p in r && p !in later && r[p] !in later ensures rel(p, r[p]) {
        assert Look(r, p) == LookAfter(w, op, p);
      }
    }
    if RelatedBut(r, later, rel) {
      forall p | p in w && p !in op.Old() + later && w[p] !in op.Old() + later ensures rel(p, w[p]) {
        assert Look(r, p) == LookAfter(w, op, p);
      }
      match op
      case Splice(x, y) => if x in w { assert Look(r, w[x]) == LookAfter(w, op, w[x]); }
      case Graft(x, h) => assert Look(r, h) == LookAfter(w, op, h);
      case Join(x, y) => assert Look(r, x) == LookAfter(w, op, x);
    }
  }

  /** Edits leave every wire related exactly when each brings related ends together. */
  lemma {:induction false} MeetsExactly(w: Wires, ops: seq<Op>, rel: (Port, Port) -> bool)
    requires Paired(w) && Linear(w, ops) && forall s, t :: rel(s, t) ==> rel(t, s)
    ensures Related(ApplyAll(w, ops), rel) <==> RelatedBut(w, OldPorts(ops), rel) && Meets(w, ops, rel)
    decreases |ops|
  {
    if ops != [] {
      assert Ready(w, ops[0]);
      LinearRest(w, ops);
      OldNewApart(w, ops);
      MeetsStep(w, ops[0], OldPorts(ops[1..]), rel);
      MeetsExactly(Apply(w, ops[0]), ops[1..], rel);
    }
  }

  lemma FiringRewrites(net: Net, a: NodeId, b: NodeId, ids: seq<NodeId>)
    requires WellWired(net) && Reducible(net, a, b) && Regular(net, a, b)
    requires |ids| == |CreatedAt(net, a, b)| && Fresh(net, ids)
    ensures var r := RewriteAt(net, a, b, ids);
      && Faithful(net, r) && Paired(net.wires) && Linear(net.wires, r.ops) && r.ops == EditsAt(net, a, b, ids)
      && {r.a, r.b} == {a, b} && r.ids == ids && |r.ops| > 0 && r.ops[0] == Splice(P(r.a), P(r.b))
      && ApplyAll(net.wires, r.ops) == Fire(net, a, b, ids).wires
  {
    FireFaithful(net, a, b, ids);
    RewriteLinear(net, RewriteAt(net, a, b, ids));
  }

  /** Types of live ports are the same in the new net and in the union of the old and the new nodes. */
  lemma TypedInUnion(net: Net, a: NodeId, b: NodeId, ids: seq<NodeId>)
    requires WellWired(net) && Reducible(net, a, b) && Regular(net, a, b)
    requires |ids| == |CreatedAt(net, a, b)| && Fresh(net, ids)
    ensures WellTyped(Fire(net, a, b, ids)) <==> Related(Fire(net, a, b, ids).wires, (p, q) => Matched(Union(net, a, b, ids), p, q))
  {
    hide Fire, Union;
    var all, after := Union(net, a, b, ids), Fire(net, a, b, ids);
    UnionAgrees(net, a, b, ids);
    FireConserves(net, a, b, ids);
    forall p | p in after.wires ensures Matched(all, p, after.wires[p]) <==> Matched(after.nodes, p, after.wires[p]) {
      assert Live(after.nodes, p) && Live(after.nodes, after.wires[p]);
    }
  }

  lemma TypedBefore(net: Net, a: NodeId, b: NodeId, ids: seq<NodeId>, later: set<Port>)
    requires WellTyped(net) && a in net.nodes && b in net.nodes && |ids| == |CreatedAt(net, a, b)| && Fresh(net, ids)
    ensures RelatedBut(net.wires, later, (p, q) => Matched(Union(net, a, b, ids), p, q))
  {
    hide Union;
    UnionAgrees(net, a, b, ids);
    forall p | p in net.wires ensures Matched(Union(net, a, b, ids), p, net.wires[p]) { assert Matched(net.nodes, p, net.wires[p]); }
  }

  /** A firing leaves every wire typed if and only if each of its edits brings unifiable ends together. */
  lemma FireTypedExactly(net: Net, a: NodeId, b: NodeId, ids: seq<NodeId>)
    requires WellWired(net) && WellTyped(net) && Reducible(net, a, b) && Regular(net, a, b)
    requires |ids| == |CreatedAt(net, a, b)| && Fresh(net, ids)
    ensures WellTyped(Fire(net, a, b, ids))
       <==> Meets(net.wires, EditsAt(net, a, b, ids), (p, q) => Matched(Union(net, a, b, ids), p, q))
  {
    var all := Union(net, a, b, ids);
    var rel := (p, q) => Matched(all, p, q);
    hide Union, Fire, EditsAt, RewriteAt, Regular, Faithful, WellTyped, Linear, Meets, RelatedBut, Related, Matched;
    FiringRewrites(net, a, b, ids);
    TypedInUnion(net, a, b, ids);
    TypedBefore(net, a, b, ids, OldPorts(EditsAt(net, a, b, ids)));
    forall s, t | rel(s, t) ensures rel(t, s) { MatchedSymmetric(all, s, t); }
    MeetsExactly(net.wires, EditsAt(net, a, b, ids), rel);
  }

  // ----- the condition on the far ends, rule by rule -----

  /** As MeetsNow, on the wires before any edit. */
  ghost predicate MeetsFirst(w: Wires, op: Op, rel: (Port, Port) -> bool) {
    match op
    case Splice(x, y) => x in w && y in w ==> rel(w[x], w[y])
    case Graft(x, h) => x in w ==> rel(w[x], h)
    case Join(x, y) => rel(x, y)
  }

  /** No edit takes or makes a port that another edit's port is wired to. */
  ghost predicate EndsApart(w: Wires, ops: seq<Op>) {
    forall j, k, p :: 0 <= j < |ops| && 0 <= k < |ops| && p in ops[j].Old() && p in w ==> w[p] !in ops[k].Ports()
  }

  lemma {:induction false} InLater(ops: seq<Op>, p: Port)
    requires p in OldPorts(ops)
    ensures exists k :: 0 <= k < |ops| && p in ops[k].Old()
  {
    if p !in ops[0].Old() {
      InLater(ops[1..], p);
      var k :| 0 <= k < |ops[1..]| && p in ops[1..][k].Old();
      assert p in ops[k + 1].Old();
    }
  }

  lemma ApartNow(w: Wires, ops: seq<Op>, rel: (Port, Port) -> bool)
    requires Paired(w) && ops != [] && EndsApart(w, ops)
    ensures MeetsNow(w, ops[0], OldPorts(ops[1..]), rel) <==> MeetsFirst(w, ops[0], rel)
  {
    forall p | p in ops[0].Old() && p in w ensures w[p] !in OldPorts(ops[1..]) && w[p] !in ops[0].Ports() {
      assert forall k :: 0 <= k < |ops[1..]| ==> ops[1..][k] == ops[k + 1] && w[p] !in ops[1..][k].Old();
      if w[p] in OldPorts(ops[1..]) { InLater(ops[1..], w[p]); }
    }
  }

  ghost predicate AllMeet(w: Wires, ops: seq<Op>, rel: (Port, Port) -> bool) {
    forall k :: 0 <= k < |ops| ==> MeetsFirst(w, ops[k], rel)
  }

  lemma AllMeetRest(w: Wires, ops: seq<Op>, rel: (Port, Port) -> bool)
    requires ops != []
    ensures AllMeet(w, ops, rel) <==> MeetsFirst(w, ops[0], rel) && AllMeet(w, ops[1..], rel)
  {
    hide MeetsFirst;
    forall k | 0 < k < |ops| ensures ops[k] == ops[1..][k - 1] {}
    assert forall k :: 0 <= k < |ops[1..]| ==> ops[1..][k] == ops[k + 1];
  }

  lemma AllMeetSame(w: Wires, v: Wires, ops: seq<Op>, rel: (Port, Port) -> bool)
    requires forall k, p :: 0 <= k < |ops| && p in ops[k].Old() ==> Look(v, p) == Look(w, p)
    ensures AllMeet(v, ops, rel) <==> AllMeet(w, ops, rel)
  {
    forall k | 0 <= k < |ops| ensures MeetsFirst(v, ops[k], rel) <==> MeetsFirst(w, ops[k], rel) {
      LooksDecide(w, v, ops[k], rel);
    }
  }

  lemma LooksDecide(w: Wires, v: Wires, op: Op, rel: (Port, Port) -> bool)
    requires forall p :: p in op.Old() ==> Look(v, p) == Look(w, p)
    ensures MeetsFirst(v, op, rel) <==> MeetsFirst(w, op, rel)
  {
    match op
    case Splice(x, y) => assert x in op.Old() && y in op.Old();
    case Graft(x, h) => assert x in op.Old();
    case Join(x, y) =>
  }

  lemma ApartRest(w: Wires, ops: seq<Op>)
    requires Paired(w) && Linear(w, ops) && ops != [] && EndsApart(w, ops)
    ensures EndsApart(Apply(w, ops[0]), ops[1..])
    ensures forall k, p :: 0 <= k < |ops[1..]| && p in ops[1..][k].Old() ==> Look(Apply(w, ops[0]), p) == Look(w, p)
  {
    var v, rest := Apply(w, ops[0]), ops[1..];
    assert forall k :: 0 <= k < |rest| ==> rest[k] == ops[k + 1];
    forall k, p | 0 <= k < |rest| && p in rest[k].Old() ensures Look(v, p) == Look(w, p) {
      assert ops[0].Ports() !! ops[k + 1].Ports();
      assert Look(v, p) == LookAfter(w, ops[0], p);
    }
  }

  /** When the edits do not get in each other's way, each can be judged on the wires at the start. */
  lemma {:induction false} MeetsApart(w: Wires, ops: seq<Op>, rel: (Port, Port) -> bool)
    requires Paired(w) && Linear(w, ops) && EndsApart(w, ops)
    ensures Meets(w, ops, rel) <==> AllMeet(w, ops, rel)
    decreases |ops|
  {
    hide MeetsNow, MeetsFirst, AllMeet, EndsApart, Linear, Paired;
    if ops == [] {
      NoneMeet(w, rel);
    } else {
      ApartNow(w, ops, rel);
      LinearRest(w, ops);
      ApartRest(w, ops);
      AllMeetRest(w, ops, rel);
      AllMeetSame(w, Apply(w, ops[0]), ops[1..], rel);
      MeetsApart(Apply(w, ops[0]), ops[1..], rel);
    }
  }

  lemma NoneMeet(w: Wires, rel: (Port, Port) -> bool)
    ensures AllMeet(w, [], rel)
  {
  }

  /** Every edit but the first, judged on the wires before the firing. */
  ghost predicate EditsMeet(net: Net, a: NodeId, b: NodeId, ids: seq<NodeId>)
    requires a in net.nodes && b in net.nodes && |ids| == |CreatedAt(net, a, b)|
  {
    AllMeet(net.wires, EditsAt(net, a, b, ids)[1..], (p, q) => Matched(Union(net, a, b, ids), p, q))
  }

  lemma FiringApart(net: Net, a: NodeId, b: NodeId, ids: seq<NodeId>)
    requires WellWired(net) && Reducible(net, a, b) && Regular(net, a, b) && NoInnerWire(net.wires, a, b)
    requires |ids| == |CreatedAt(net, a, b)| && Fresh(net, ids)
    ensures var (v, ops) := (Apply(net.wires, EditsAt(net, a, b, ids)[0]), EditsAt(net, a, b, ids));
      && EndsApart(v, ops[1..]) && Paired(v) && Linear(v, ops[1..])
      && forall k, p :: 0 <= k < |ops[1..]| && p in ops[1..][k].Old() ==> Look(v, p) == Look(net.wires, p)
  {
    hide Regular, NoInnerWire, EditsAt, RewriteAt, Faithful, WellWired, Linear, Untangled;
    var r, w := RewriteAt(net, a, b, ids), net.wires;
    FiringRewrites(net, a, b, ids);
    LinearRest(w, r.ops);
    var v, rest := Apply(w, r.ops[0]), r.ops[1..];
    assert forall k :: 0 <= k < |rest| ==> rest[k] == r.ops[k + 1];
    forall k, p | 0 <= k < |rest| && p in rest[k].Old()
      ensures Look(v, p) == Look(w, p) && p.owner in {a, b} && p.index > 0
    {
      EditConsumesAux(net, a, b, ids, k + 1, p);
      KeptByFirst(net, r.a, r.b, p);
    }
    forall j, k, p | 0 <= j < |rest| && 0 <= k < |rest| && p in rest[j].Old() && p in v ensures v[p] !in rest[k].Ports() {
      FarEndOutside(net, a, b, p);
      OutsideUntouched(net, r, k + 1, w[p]);
    }
  }

  lemma FarEndOutside(net: Net, a: NodeId, b: NodeId, p: Port)
    requires WellWired(net) && NoInnerWire(net.wires, a, b) && p in net.wires && p.owner in {a, b} && p.index > 0
    ensures net.wires[p].owner !in {a, b} && net.wires[p].owner in net.nodes
  {
    assert Live(net.nodes, net.wires[p]);
  }

  lemma OutsideUntouched(net: Net, r: Rewrite, k: nat, q: Port)
    requires Faithful(net, r) && k < |r.ops| && q.owner !in {r.a, r.b} && q.owner !in r.ids
    ensures q !in r.ops[k].Ports()
  {
    if q in r.ops[k].Ports() { RewriteOwners(net, r, k, q); }
  }

  lemma EditConsumesAux(net: Net, a: NodeId, b: NodeId, ids: seq<NodeId>, k: nat, p: Port)
    requires WellWired(net) && Reducible(net, a, b) && Regular(net, a, b)
    requires |ids| == |CreatedAt(net, a, b)| && Fresh(net, ids)
    requires 1 <= k < |EditsAt(net, a, b, ids)| && p in EditsAt(net, a, b, ids)[k].Old()
    ensures p.owner in {a, b} && p.index > 0
  {
    hide Edits, RewriteAt, Faithful;
    var (x, y) := (Lead(net, a, b), Other(net, a, b));
    EditsAuxOnly(RuleAt(net, a, b), x, net.nodes[x], y, net.nodes[y], ids, k);
    FiringRewrites(net, a, b, ids);
    var r := RewriteAt(net, a, b, ids);
    assert r.ops[k].Old() == EditsAt(net, a, b, ids)[k].Old();
    OldOwners(net, r, k, p);
  }

  lemma OldOwners(net: Net, r: Rewrite, k: nat, p: Port)
    requires Faithful(net, r) && k < |r.ops| && p in r.ops[k].Old()
    ensures p.owner in {r.a, r.b}
  {
    assert PortOf(net.nodes[r.a], r.a, p) || PortOf(net.nodes[r.b], r.b, p);
  }

  /** Dropping the two principal ports changes the far end of no auxiliary port. */
  lemma KeptByFirst(net: Net, x: NodeId, y: NodeId, p: Port)
    requires WellWired(net) && P(x) in net.wires && net.wires[P(x)] == P(y) && p.index > 0
    ensures Look(Apply(net.wires, Splice(P(x), P(y))), p) == Look(net.wires, p)
  {
    assert Look(Apply(net.wires, Splice(P(x), P(y))), p) == LookAfter(net.wires, Splice(P(x), P(y)), p);
    assert net.wires[P(y)] == P(x);
  }

  /** With no auxiliary wire inside the pair, the condition speaks of the net as it is: the far ends of every
      two ports that the rule splices unify, and those of every port that it hands on unify with the heir. */
  lemma FireTypedApart(net: Net, a: NodeId, b: NodeId, ids: seq<NodeId>)
    requires WellWired(net) && WellTyped(net) && Reducible(net, a, b) && Regular(net, a, b) && NoInnerWire(net.wires, a, b)
    requires |ids| == |CreatedAt(net, a, b)| && Fresh(net, ids)
    ensures WellTyped(Fire(net, a, b, ids)) <==> EditsMeet(net, a, b, ids)
  {
    hide WellTyped, Fire, AllMeet, EndsApart, Linear, Regular, NoInnerWire, WellWired;
    var ops := EditsAt(net, a, b, ids);
    var rel := (p, q) => Matched(Union(net, a, b, ids), p, q);
    FireTypedExactly(net, a, b, ids);
    FiringApart(net, a, b, ids);
    var v := Apply(net.wires, ops[0]);
    MeetsApart(v, ops[1..], rel);
    AllMeetSame(net.wires, v, ops[1..], rel);
    assert ops[0] == Splice(P(Lead(net, a, b)), P(Other(net, a, b)));
    FirstVacuous(net, a, b, OldPorts(ops[1..]), rel);
  }

  lemma FirstVacuous(net: Net, a: NodeId, b: NodeId, later: set<Port>, rel: (Port, Port) -> bool)
    requires WellWired(net) && Reducible(net, a, b)
    ensures MeetsNow(net.wires, Splice(P(Lead(net, a, b)), P(Other(net, a, b))), later, rel)
  {
  }

  // ----- rule by rule -----

  /** The far ends of two ports, where both have one, unify. */
  ghost predicate FarEndsUnify(net: Net, x: Port, y: Port)
    requires WellWired(net)
  {
    x in net.wires && y in net.wires ==> Unifiable(TypeAt(net.nodes, net.wires[x]), TypeAt(net.nodes, net.wires[y]))
  }

  lemma OldMatched(net: Net, a: NodeId, b: NodeId, ids: seq<NodeId>, p: Port, q: Port)
    requires WellWired(net) && a in net.nodes && b in net.nodes && |ids| == |CreatedAt(net, a, b)| && Fresh(net, ids)
    requires Live(net.nodes, p) && Live(net.nodes, q)
    ensures Matched(Union(net, a, b, ids), p, q) <==> Unifiable(TypeAt(net.nodes, p), TypeAt(net.nodes, q))
  {
    UnionAgrees(net, a, b, ids);
  }

  /** Beta reduction, and any annihilation, without a wire inside the pair. */
  lemma AnnihilateTypedExactly(net: Net, a: NodeId, b: NodeId, ids: seq<NodeId>)
    requires WellWired(net) && WellTyped(net) && Reducible(net, a, b) && Regular(net, a, b) && NoInnerWire(net.wires, a, b)
    requires RuleAt(net, a, b) == Annihilate && ids == []
    ensures WellTyped(Fire(net, a, b, ids))
       <==> forall i: nat :: i < |net.nodes[a].aux| && i < |net.nodes[b].aux| ==> FarEndsUnify(net, A(a, i), A(b, i))
  {
    hide WellTyped, Fire, Union, Matched;
    FireTypedApart(net, a, b, ids);
    var rest := EditsAt(net, a, b, ids)[1..];
    var rel := (p, q) => Matched(Union(net, a, b, ids), p, q);
    var n := if |net.nodes[a].aux| < |net.nodes[b].aux| then |net.nodes[a].aux| else |net.nodes[b].aux|;
    assert |rest| == n && forall i :: 0 <= i < n ==> rest[i] == Splice(A(a, i), A(b, i));
    forall i: nat | i < n ensures MeetsFirst(net.wires, rest[i], rel) <==> FarEndsUnify(net, A(a, i), A(b, i)) {
      if A(a, i) in net.wires && A(b, i) in net.wires {
        OldMatched(net, a, b, ids, net.wires[A(a, i)], net.wires[A(b, i)]);
      }
    }
  }

  /** What duplicating y by the duplicator x asks of the types. */
  ghost predicate CopiesFit(net: Net, x: NodeId, y: NodeId)
    requires WellWired(net) && x in net.nodes && y in net.nodes
  {
    && (forall i: nat :: i < |net.nodes[x].aux| && A(x, i) in net.wires ==>
          Unifiable(TypeAt(net.nodes, net.wires[A(x, i)]), net.nodes[y].principal))
    && (forall j: nat :: j < |net.nodes[y].aux| ==>
          Unifiable(net.nodes[y].aux[j], FreshDuplicator(net.nodes[x]).aux[0]))
  }

  lemma DuplicateMeets(net: Net, a: NodeId, b: NodeId, ids: seq<NodeId>, k: nat)
    requires WellWired(net) && Reducible(net, a, b) && RuleAt(net, a, b) == Duplicate
    requires |ids| == |CreatedAt(net, a, b)| && Fresh(net, ids) && 1 <= k < |EditsAt(net, a, b, ids)|
    ensures var (x, y, n) := (Lead(net, a, b), Other(net, a, b), |net.nodes[Other(net, a, b)].aux|);
      MeetsFirst(net.wires, EditsAt(net, a, b, ids)[k], (p, q) => Matched(Union(net, a, b, ids), p, q)) <==>
      if k < 3 then A(x, k - 1) in net.wires ==> Unifiable(TypeAt(net.nodes, net.wires[A(x, k - 1)]), net.nodes[y].principal)
      else if k < 3 + n then true
      else Unifiable(net.nodes[y].aux[if k < 3 + 2 * n then k - 3 - n else k - 3 - 2 * n], FreshDuplicator(net.nodes[x]).aux[0])
  {
    hide Edits, Union, Fresh;
    var (x, y) := (Lead(net, a, b), Other(net, a, b));
    DuplicateSize(net, a, b, ids);
    UnionAgrees(net, a, b, ids);
    DuplicateShape(x, net.nodes[x], y, net.nodes[y], ids, k);
  }

  /** Duplication: the copies fit where the original's sharers were, and the new duplicators fit the copies. */
  lemma DuplicateTypedExactly(net: Net, a: NodeId, b: NodeId, ids: seq<NodeId>)
    requires WellWired(net) && WellTyped(net) && Reducible(net, a, b) && Regular(net, a, b)
    requires RuleAt(net, a, b) == Duplicate && |ids| == |CreatedAt(net, a, b)| && Fresh(net, ids)
    ensures WellTyped(Fire(net, a, b, ids)) <==> CopiesFit(net, Lead(net, a, b), Other(net, a, b))
  {
    var (x, y, ops) := (Lead(net, a, b), Other(net, a, b), EditsAt(net, a, b, ids));
    var n, rel := |net.nodes[y].aux|, (p, q) => Matched(Union(net, a, b, ids), p, q);
    hide WellTyped, Fire, Union, Matched, MeetsFirst, Edits, Created;
    FireTypedApart(net, a, b, ids);
    DuplicateSize(net, a, b, ids);
    forall k: nat | 1 <= k < |ops| ensures MeetsFirst(net.wires, ops[1..][k - 1], rel) == MeetsFirst(net.wires, ops[k], rel) {}
    if AllMeet(net.wires, ops[1..], rel) {
      forall i: nat | i < 2 ensures A(x, i) in net.wires ==> Unifiable(TypeAt(net.nodes, net.wires[A(x, i)]), net.nodes[y].principal) {
        DuplicateMeets(net, a, b, ids, i + 1);
        assert MeetsFirst(net.wires, ops[1..][i], rel);
      }
      forall j: nat | j < n ensures Unifiable(net.nodes[y].aux[j], FreshDuplicator(net.nodes[x]).aux[0]) {
        DuplicateMeets(net, a, b, ids, 3 + n + j);
        assert MeetsFirst(net.wires, ops[1..][2 + n + j], rel);
      }
    }
    if CopiesFit(net, x, y) {
      forall k | 0 <= k < |ops[1..]| ensures MeetsFirst(net.wires, ops[1..][k], rel) {
        DuplicateMeets(net, a, b, ids, k + 1);
      }
    }
  }

  lemma DuplicateSize(net: Net, a: NodeId, b: NodeId, ids: seq<NodeId>)
    requires WellWired(net) && a in net.nodes && b in net.nodes && RuleAt(net, a, b) == Duplicate && |ids| == |CreatedAt(net, a, b)|
    ensures |net.nodes[Lead(net, a, b)].aux| == 2
    ensures |EditsAt(net, a, b, ids)| == 3 + 3 * |net.nodes[Other(net, a, b)].aux|
  {
    var (x, y) := (Lead(net, a, b), Other(net, a, b));
    DuplicateShape(x, net.nodes[x], y, net.nodes[y], ids, 0);
  }

  /** Switching: where the chosen branch and the output both lead out of the switch, their far ends unify. */
  lemma SelectTypedExactly(net: Net, a: NodeId, b: NodeId, ids: seq<NodeId>)
    requires WellWired(net) && WellTyped(net) && Reducible(net, a, b) && Regular(net, a, b)
    requires RuleAt(net, a, b) == Select && |ids| == |CreatedAt(net, a, b)| && Fresh(net, ids)
    ensures var x := Lead(net, a, b);
            var chosen, out := A(x, Kept(net.nodes[Other(net, a, b)])), A(x, 2);
      WellTyped(Fire(net, a, b, ids)) <==>
        (chosen in net.wires && out in net.wires && net.wires[chosen].owner != x && net.wires[out].owner != x ==> FarEndsUnify(net, chosen, out))
  {
    var w, x, y := net.wires, Lead(net, a, b), Other(net, a, b);
    var k := Kept(net.nodes[y]);
    var all, chosen, out := Union(net, a, b, ids), A(x, k), A(x, 2);
    var rel := (p, q) => Matched(all, p, q);
    hide WellTyped, Fire, Union, Meets, Matched, Regular, EditsAt, Fresh, NodesTyped;
    FireTypedExactly(net, a, b, ids);
    SelectEdits(net, a, b, ids);
    SelectWires(net, a, b, ids);
    SelectMeets(w, x, y, k, P(ids[0]), rel);
    if chosen in w && out in w { OldMatched(net, a, b, ids, w[chosen], w[out]); }
  }

  lemma SelectEdits(net: Net, a: NodeId, b: NodeId, ids: seq<NodeId>)
    requires a in net.nodes && b in net.nodes && RuleAt(net, a, b) == Select && |ids| == |CreatedAt(net, a, b)|
    ensures var (x, k) := (Lead(net, a, b), Kept(net.nodes[Other(net, a, b)]));
      && |ids| == 1 && k < 2
      && EditsAt(net, a, b, ids) == [Splice(P(x), P(Other(net, a, b))), Splice(A(x, k), A(x, 2)), Graft(A(x, 1 - k), P(ids[0]))]
  {
  }

  lemma SelectWires(net: Net, a: NodeId, b: NodeId, ids: seq<NodeId>)
    requires WellWired(net) && Reducible(net, a, b) && RuleAt(net, a, b) == Select && Regular(net, a, b)
    requires |ids| == |CreatedAt(net, a, b)| && Fresh(net, ids)
    ensures var (w, x, y) := (net.wires, Lead(net, a, b), Other(net, a, b));
      && x != y && P(x) in w && w[P(x)] == P(y) && P(ids[0]) !in w
      && (forall p :: p in w ==> Live(net.nodes, p) && Live(net.nodes, w[p]))
      && (forall p :: p in w && w[p].owner == x ==> w[p].index <= 3)
      && forall p :: p in w ==> Matched(Union(net, a, b, ids), p, P(ids[0]))
  {
    UnionAgrees(net, a, b, ids);
    var (w, x) := (net.wires, Lead(net, a, b));
    forall p | p in w ensures Live(net.nodes, p) && Live(net.nodes, w[p]) && (w[p].owner == x ==> w[p].index <= 3) {
      assert w[p] in w;
    }
  }

  lemma SelectMeets(w: Wires, x: NodeId, y: NodeId, k: nat, h: Port, rel: (Port, Port) -> bool)
    requires Paired(w) && k < 2 && x != y && P(x) in w && w[P(x)] == P(y) && h !in w
    requires forall p :: p in w && w[p].owner == x ==> w[p].index <= 3
    requires forall p :: p in w ==> rel(p, h)
    ensures var chosen, out := A(x, k), A(x, 2);
      Meets(w, [Splice(P(x), P(y)), Splice(chosen, out), Graft(A(x, 1 - k), h)], rel) <==>
        (chosen in w && out in w && w[chosen].owner != x && w[out].owner != x ==> rel(w[chosen], w[out]))
  {
    hide Meets, Apply, OldPorts;
    var chosen, out, other := A(x, k), A(x, 2), A(x, 1 - k);
    var e, f, g := Splice(P(x), P(y)), Splice(chosen, out), Graft(other, h);
    var v := Apply(w, e);
    var u := Apply(v, f);
    assert w[P(y)] == P(x);
    assert [e, f, g] == [e] + [f, g] && [f, g] == [f] + [g] && [g] == [g] + [];
    MeetsCons(w, e, [f, g], rel);
    MeetsCons(v, f, [g], rel);
    MeetsCons(u, g, [], rel);
    LaterPorts(f, g);
    assert OldPorts([f, g]) == {chosen, out, other} && OldPorts([g]) == {other};
    forall p | p in {chosen, out, other} ensures Look(v, p) == Look(w, p) { assert Look(v, p) == LookAfter(w, e, p); }
    assert Look(v, chosen) == Look(w, chosen) && Look(v, out) == Look(w, out) && Look(v, other) == Look(w, other);
    assert Look(u, other) == LookAfter(v, f, other);
    forall p | p in {chosen, out, other} && p in w ensures rel(w[p], h) { assert w[p] in w; }
    if other in u {
      assert exists p :: p in {chosen, out, other} && Look(w, p) == Look(u, other);
      assert rel(u[other], h);
    }
    assert MeetsNow(u, g, {}, rel);
    assert MeetsNow(w, e, {chosen, out, other}, rel);
    forall p | p in {chosen, out} && p in w && w[p].owner == x ensures w[p] in {chosen, out, other} && w[p] != p {
      assert w[w[p]] == p;
    }
    assert chosen in w && w[chosen].owner == x ==> w[chosen] in {out, other};
    assert out in w && w[out].owner == x ==> w[out] in {chosen, other};
    assert chosen in w && out in w ==> (w[out] == chosen <==> w[chosen] == out);
    assert MeetsNow(v, f, {other}, rel) <==> (chosen in w && out in w && w[chosen] != out && w[chosen] != other && w[out] != other ==> rel(w[chosen], w[out]));
  }

  lemma MeetsCons(w: Wires, op: Op, rest: seq<Op>, rel: (Port, Port) -> bool)
    ensures Meets(w, [op] + rest, rel) <==> MeetsNow(w, op, OldPorts(rest), rel) && Meets(Apply(w, op), rest, rel)
    ensures Meets(Apply(w, op), [], rel)
  {
    assert ([op] + rest)[1..] == rest;
  }

  lemma LaterPorts(f: Op, g: Op)
    ensures OldPorts([f, g]) == f.Old() + g.Old() && OldPorts([g]) == g.Old() && OldPorts([]) == {}
  {
    assert [f, g][1..] == [g] && [g][1..] == [];
    assert OldPorts([]) == {};
    assert OldPorts([g]) == g.Old() + OldPorts([g][1..]);
    assert OldPorts([f, g]) == f.Old() + OldPorts([f, g][1..]);
  }
}
