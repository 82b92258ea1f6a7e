/** The reduction engine as it runs (core/hin_vm.py, class HINNetwork): nodes,
    worklist, counter and port targets are updated in place, one link at a time.
    Each operation is proved to do to the state what its function in Machine says. */
module HinVm {
  import opened MellTypes
  import opened Wiring
  import opened Nets
  import opened Conservation
  import opened Machine
  import opened MachineRuns

  lemma {:induction false} AddNodesLast(nodes: NodeMap, ids: seq<NodeId>, more: seq<Node>, n: NodeId, x: Node)
    requires |ids| == |more|
    ensures AddNodes(nodes, ids + [n], more + [x]) == AddNodes(nodes, ids, more)[n := x]
    decreases |ids|
  {
    if ids == [] {
      assert ids + [n] == [n] && more + [x] == [x];
      assert AddNodes(nodes[n := x], [], []) == nodes[n := x];
    } else {
      AddNodesLast(nodes[ids[0] := more[0]], ids[1..], more[1..], n, x);
      assert (ids + [n])[1..] == ids[1..] + [n] && (more + [x])[1..] == more[1..] + [x];
    }
  }

  lemma {:induction false} RetireLast(nodes: NodeMap, ids: seq<NodeId>, more: seq<Node>, gone: set<NodeId>)
    requires |ids| == |more| && forall i :: 0 <= i < |ids| ==> ids[i] !in gone
    ensures AddNodes(nodes, ids, more) - gone == AddNodes(nodes - gone, ids, more)
    decreases |ids|
  {
    if ids != [] {
      RetireLast(nodes[ids[0] := more[0]], ids[1..], more[1..], gone);
      assert nodes[ids[0] := more[0]] - gone == (nodes - gone)[ids[0] := more[0]];
    }
  }

  lemma {:induction false} AddNodesConcat(nodes: NodeMap, ids: seq<NodeId>, more: seq<Node>, jds: seq<NodeId>, extra: seq<Node>)
    requires |ids| == |more| && |jds| == |extra|
    ensures AddNodes(nodes, ids + jds, more + extra) == AddNodes(AddNodes(nodes, ids, more), jds, extra)
    decreases |ids|
  {
    if ids == [] {
      assert ids + jds == jds && more + extra == extra;
    } else {
      AddNodesConcat(nodes[ids[0] := more[0]], ids[1..], more[1..], jds, extra);
      assert (ids + jds)[1..] == ids[1..] + jds && (more + extra)[1..] == more[1..] + extra;
    }
  }

  /** The edits that wire the copies, in the order in which they are made. */
  ghost predicate CopyEdits(ops: seq<Op>, clones: seq<NodeId>, subs: seq<NodeId>, a: NodeId, b: NodeId)
    requires |clones| == 2
  {
    var n := |subs|;
    && |ops| == 2 + 3 * n
    && (forall i :: 0 <= i < 2 ==> ops[i] == Graft(A(a, i), P(clones[i])))
    && (forall j :: 0 <= j < n ==> ops[2 + j] == Graft(A(b, j), P(subs[j])))
    && (forall j :: 0 <= j < n ==> ops[2 + n + j] == Join(A(clones[0], j), A(subs[j], 0)))
    && (forall j :: 0 <= j < n ==> ops[2 + n + n + j] == Join(A(clones[1], j), A(subs[j], 1)))
  }

  lemma CreatedTwice(x: Node, y: Node, b: NodeId)
    ensures |Created(Duplicate, x, y, b)| == |x.aux| + |y.aux|
  {
  }

  lemma DuplicateCopies(a: NodeId, x: Node, b: NodeId, y: Node, clones: seq<NodeId>, subs: seq<NodeId>)
    requires |x.aux| == |clones| == 2 && |y.aux| == |subs|
    ensures CopyEdits(Edits(Duplicate, a, x, b, y, clones + subs)[1..], clones, subs, a, b)
  {
    hide Edits, Created;
    CreatedTwice(x, y, b);
    var ops, n := Edits(Duplicate, a, x, b, y, clones + subs), |subs|;
    DuplicateShape(a, x, b, y, clones + subs, 0);
    forall k | 1 <= k < |ops| ensures ops[k] == ops[1..][k - 1] {}
    forall i | 0 <= i < 2 ensures ops[1 + i] == Graft(A(a, i), P(clones[i])) {
      DuplicateShape(a, x, b, y, clones + subs, 1 + i);
    }
    forall j | 0 <= j < n
      ensures ops[3 + j] == Graft(A(b, j), P(subs[j]))
      ensures ops[3 + n + j] == Join(A(clones[0], j), A(subs[j], 0))
      ensures ops[3 + n + n + j] == Join(A(clones[1], j), A(subs[j], 1))
    {
      DuplicateShape(a, x, b, y, clones + subs, 3 + j);
      DuplicateShape(a, x, b, y, clones + subs, 3 + n + j);
      DuplicateShape(a, x, b, y, clones + subs, 3 + n + n + j);
    }
  }

  lemma NextIdsConcat(serial: nat, some: seq<Node>, more: seq<Node>)
    ensures NextIds(serial, some) + NextIds(serial + |some|, more) == NextIds(serial, some + more)
  {
  }

  lemma IdsNotUsed(serial: nat, created: seq<Node>, a: NodeId)
    requires Used(a, serial)
    ensures forall i :: 0 <= i < |created| ==> NextIds(serial, created)[i] != a
  {
  }

  lemma DuplicateNodes(nodes: NodeMap, serial: nat, a: NodeId, b: NodeId, copies: seq<Node>, dups: seq<Node>)
    requires Used(a, serial) && Used(b, serial)
    ensures
      var (clones, subs) := (NextIds(serial, copies), NextIds(serial + |copies|, dups));
      && clones + subs == NextIds(serial, copies + dups)
      && AddNodes(AddNodes(nodes, clones, copies), subs, dups) - {a, b}
         == AddNodes(nodes - {a, b}, NextIds(serial, copies + dups), copies + dups)
  {
    NextIdsConcat(serial, copies, dups);
    IdsNotUsed(serial, copies + dups, a);
    IdsNotUsed(serial, copies + dups, b);
    AddNodesConcat(nodes, NextIds(serial, copies), copies, NextIds(serial + |copies|, dups), dups);
    RetireLast(nodes, NextIds(serial, copies + dups), copies + dups, {a, b});
  }

  /** The edits of a duplication, and what performing them on captured ends leaves. */
  lemma DuplicateAssembles(vm: Vm, a: NodeId, b: NodeId, copies: seq<Node>, dups: seq<Node>) returns (ops: seq<Op>)
    requires a in vm.nodes && b in vm.nodes && Used(a, vm.serial) && Used(b, vm.serial) && |vm.nodes[a].aux| == 2
    requires |copies| == 2 && |dups| == |vm.nodes[b].aux| && copies + dups == Created(Duplicate, vm.nodes[a], vm.nodes[b], b)
    ensures CopyEdits(ops, NextIds(vm.serial, copies), NextIds(vm.serial + 2, dups), a, b)
    ensures
      var (clones, subs) := (NextIds(vm.serial, copies), NextIds(vm.serial + 2, dups));
      var done := LinkCaptured(Links(vm.target, vm.pairs), vm.target, ops);
      FireAs(Duplicate, a, b, vm) ==
         Vm(AddNodes(AddNodes(vm.nodes, clones, copies), subs, dups) - {a, b}, done.pairs, vm.serial + 2 + |dups|, done.target)
  {
    hide AddNodes, LinkCaptured, Relink, CopyEdits, View;
    ops := Edits(Duplicate, a, vm.nodes[a], b, vm.nodes[b], NextIds(vm.serial, copies + dups))[1..];
    DuplicateNodes(vm.nodes, vm.serial, a, b, copies, dups);
    DuplicateCopies(a, vm.nodes[a], b, vm.nodes[b], NextIds(vm.serial, copies), NextIds(vm.serial + 2, dups));
  }

  lemma SwitchAssembles(vm: Vm, a: NodeId, b: NodeId, id: NodeId)
    requires a in vm.nodes && b in vm.nodes && Used(a, vm.serial) && Used(b, vm.serial)
    requires id == Gensym(Eraser, vm.serial)
    ensures
      var (k, l) := (Kept(vm.nodes[b]), Links(vm.target, vm.pairs));
      var spliced := LinkUp(l, Look(l.target, A(a, k)), Look(l.target, A(a, 2)));
      var grafted := LinkUp(spliced, Some(P(id)), Look(spliced.target, A(a, 1 - k)));
      FireAs(Select, a, b, vm) == Vm(vm.nodes[id := EraserNode()] - {a, b}, grafted.pairs, vm.serial + 1, grafted.target)
  {
    var y := vm.nodes[b];
    var ids, created := NextIds(vm.serial, Created(Select, vm.nodes[a], y, b)), Created(Select, vm.nodes[a], y, b);
    var ops := Edits(Select, a, vm.nodes[a], b, y, ids)[1..];
    assert ids == [id] && created == [EraserNode()];
    RelinkLast(Links(vm.target, vm.pairs), ops, 0);
    RelinkLast(Links(vm.target, vm.pairs), ops, 1);
    assert ops[..2] == ops;
    AddNodesLast(vm.nodes, [], [], id, EraserNode());
    assert [] + [id] == ids && [] + [EraserNode()] == created;
    RetireLast(vm.nodes, ids, created, {a, b});
  }

  lemma RelinkLast(l: Links, ops: seq<Op>, k: nat)
    requires k < |ops|
    ensures Relink(l, ops[..k + 1]) ==
      var r := Relink(l, ops[..k]);
      LinkUp(r, Ends(r.target, ops[k]).0, Ends(r.target, ops[k]).1)
  {
    assert ops[..k + 1][..k] == ops[..k];
  }

  lemma CapturedLast(l: Links, t: Wires, ops: seq<Op>, k: nat)
    requires k < |ops|
    ensures LinkCaptured(l, t, ops[..k + 1]) == LinkUp(LinkCaptured(l, t, ops[..k]), Ends(t, ops[k]).0, Ends(t, ops[k]).1)
  {
    assert ops[..k + 1][..k] == ops[..k];
  }

  class HinNetwork {
    var nodes: map<NodeId, Node>
    var activePairs: seq<Pair>
    var serial: nat
    var target: map<Port, Port>

    ghost function State(): Vm
      reads this
    {
      Vm(nodes, activePairs, serial, target)
    }

    ghost function Linked(): Links
      reads this
    {
      Links(target, activePairs)
    }

    /** What holds of the nodes between operations: each agent has its own number
        of ports, and the counter is past every id in use. */
    ghost predicate Sound()
      reads this
    {
      WellFormed(nodes) && forall n :: n in nodes ==> Used(n, serial)
    }

    constructor ()
      ensures State() == Vm(map[], [], 0, map[])
      ensures Sound() && Consistent(State())
    {
      nodes, activePairs, serial, target := map[], [], 0, map[];
    }

    // ----- registration and wiring -----

    method RegisterNode(id: NodeId, node: Node)
      modifies this`nodes
      ensures nodes == old(nodes)[id := node]
    {
      nodes := nodes[id := node];
    }

    method FreshId(symbol: Kind) returns (id: NodeId)
      modifies this`serial
      ensures id == Gensym(symbol, old(serial)) && serial == old(serial) + 1
    {
      id := Gensym(symbol, serial);
      serial := serial + 1;
    }

    method RecordIfActive(p: Port, q: Port)
      modifies this`activePairs
      ensures activePairs == Record(old(activePairs), p, q)
    {
      if p.index == 0 && q.index == 0 {
        if (p.owner, q.owner) !in activePairs && (q.owner, p.owner) !in activePairs {
          activePairs := activePairs + [(p.owner, q.owner)];
        }
      }
    }

    method Link(p: Option<Port>, q: Option<Port>)
      modifies this`target, this`activePairs
      ensures Linked() == LinkUp(old(Linked()), p, q)
    {
      if p.Some? {
        target := if q.Some? then target[p.value := q.value] else target - {p.value};
      }
      if q.Some? {
        target := if p.Some? then target[q.value := p.value] else target - {q.value};
      }
      if p.Some? && q.Some? {
        RecordIfActive(p.value, q.value);
      }
    }

    /** The public binding: refused, with nothing changed, unless the types unify. */
    method Bind(p: Port, q: Port) returns (ok: bool)
      requires Live(nodes, p) && Live(nodes, q)
      modifies this`target, this`activePairs
      ensures ok == Unifiable(TypeAt(nodes, p), TypeAt(nodes, q))
      ensures ok ==> Linked() == LinkUp(old(Linked()), Some(p), Some(q))
      ensures !ok ==> Linked() == old(Linked())
    {
      ok := Unifiable(TypeAt(nodes, p), TypeAt(nodes, q));
      if ok {
        target := target[p := q];
        target := target[q := p];
        RecordIfActive(p, q);
      }
    }

    method Retire(a: NodeId, b: NodeId)
      modifies this`nodes
      ensures nodes == old(nodes) - {a, b}
    {
      nodes := nodes - {a};
      nodes := nodes - {b};
    }

    // ----- the rules -----

    method RuleAnnihilate(a: NodeId, b: NodeId)
      requires a in nodes && b in nodes
      modifies this
      ensures State() == FireAs(Annihilate, a, b, old(State()))
    {
      var x, y := nodes[a], nodes[b];
      ghost var ops := Edits(Annihilate, a, x, b, y, [])[1..];
      var n := if |x.aux| < |y.aux| then |x.aux| else |y.aux|;
      for i := 0 to n
        invariant nodes == old(nodes) && serial == old(serial)
        invariant Linked() == Relink(old(Linked()), ops[..i])
      {
        RelinkLast(old(Linked()), ops, i);
        Link(Look(target, A(a, i)), Look(target, A(b, i)));
      }
      assert ops[..n] == ops;
      Retire(a, b);
    }

    method RuleErase(a: NodeId, b: NodeId)
      requires a in nodes && b in nodes && Used(a, serial) && Used(b, serial)
      modifies this
      ensures State() == FireAs(Erase, a, b, old(State()))
    {
      var x, y := nodes[a], nodes[b];
      ghost var created := Created(Erase, x, y, b);
      ghost var ids := NextIds(serial, created);
      ghost var ops := Edits(Erase, a, x, b, y, ids)[1..];
      for i := 0 to |y.aux|
        invariant nodes == AddNodes(old(nodes), ids[..i], created[..i]) && serial == old(serial) + i
        invariant Linked() == Relink(old(Linked()), ops[..i])
      {
        RelinkLast(old(Linked()), ops, i);
        AddNodesLast(old(nodes), ids[..i], created[..i], ids[i], created[i]);
        assert ids[..i + 1] == ids[..i] + [ids[i]] && created[..i + 1] == created[..i] + [created[i]];
        var id := FreshId(Eraser);
        RegisterNode(id, EraserNode());
        Link(Some(P(id)), Look(target, A(b, i)));
      }
      assert ops[..|y.aux|] == ops && ids[..|y.aux|] == ids && created[..|y.aux|] == created;
      RetireLast(old(nodes), ids, created, {a, b});
      Retire(a, b);
    }

    method RuleSwitch(a: NodeId, b: NodeId)
      requires a in nodes && b in nodes && Used(a, serial) && Used(b, serial) && |nodes[a].aux| == 3
      modifies this
      ensures State() == FireAs(Select, a, b, old(State()))
    {
      var y := nodes[b];
      var takeTrue := if y.kind == Value then Truthy(y.payload) else true;
      var selected := if takeTrue then A(a, 0) else A(a, 1);
      var discarded := if takeTrue then A(a, 1) else A(a, 0);
      Link(Look(target, selected), Look(target, A(a, 2)));
      var id := FreshId(Eraser);
      RegisterNode(id, EraserNode());
      Link(Some(P(id)), Look(target, discarded));
      SwitchAssembles(old(State()), a, b, id);
      Retire(a, b);
    }

    method RuleProject(a: NodeId, b: NodeId)
      requires a in nodes && b in nodes && Used(a, serial) && Used(b, serial) && |nodes[a].aux| == 1
      modifies this
      ensures State() == FireAs(Project, a, b, old(State()))
    {
      var y := nodes[b];
      ghost var ids, created := NextIds(serial, Created(Project, nodes[a], y, b)), Created(Project, nodes[a], y, b);
      ghost var ops := Edits(Project, a, nodes[a], b, y, ids)[1..];
      var path := if y.kind == Value then y.payload else NodeObject(b);
      var id := FreshId(Value);
      var emitted := ValueNode(path, nodes[a].aux[0]);
      RegisterNode(id, emitted);
      RelinkLast(old(Linked()), ops, 0);
      Link(Some(P(id)), Look(target, A(a, 0)));
      assert ops[..1] == ops && ids == [id] && created == [emitted];
      assert AddNodes(old(nodes), ids, created) == nodes;
      RetireLast(old(nodes), ids, created, {a, b});
      Retire(a, b);
    }

    /** A fresh, unwired copy of a node: same agent, payload and port types. */
    method CloneNode(node: NodeId) returns (id: NodeId)
      requires node in nodes
      modifies this`nodes, this`serial
      ensures id == Gensym(old(nodes)[node].kind, old(serial)) && serial == old(serial) + 1
      ensures nodes == old(nodes)[id := old(nodes)[node]]
    {
      var copy := nodes[node];
      id := FreshId(copy.kind);
      RegisterNode(id, copy);
    }

    /** One clone of a node per duplicator output. */
    method MakeClones(b: NodeId, m: nat) returns (clones: seq<NodeId>)
      requires b in nodes && Used(b, serial)
      modifies this`nodes, this`serial
      ensures
        var y := old(nodes)[b];
        && clones == NextIds(old(serial), seq(m, _ => y))
        && nodes == AddNodes(old(nodes), clones, seq(m, _ => y)) && serial == old(serial) + m
    {
      ghost var y := nodes[b];
      ghost var created := seq(m, _ => y);
      ghost var ids := NextIds(serial, created);
      clones := [];
      for i := 0 to m
        invariant clones == ids[..i] && serial == old(serial) + i
        invariant nodes == AddNodes(old(nodes), ids[..i], created[..i]) && b in nodes && nodes[b] == y
      {
        AddNodesLast(old(nodes), ids[..i], created[..i], ids[i], created[i]);
        assert ids[..i + 1] == ids[..i] + [ids[i]] && created[..i + 1] == created[..i] + [created[i]];
        var id := CloneNode(b);
        clones := clones + [id];
      }
      assert ids[..m] == ids && created[..m] == created;
    }

    /** One duplicator per auxiliary port of the partner. */
    method MakeDuplicators(template: Node, n: nat) returns (subs: seq<NodeId>)
      modifies this`nodes, this`serial
      ensures subs == NextIds(old(serial), seq(n, _ => FreshDuplicator(template)))
      ensures nodes == AddNodes(old(nodes), subs, seq(n, _ => FreshDuplicator(template))) && serial == old(serial) + n
    {
      ghost var created := seq(n, _ => FreshDuplicator(template));
      ghost var ids := NextIds(serial, created);
      subs := [];
      for j := 0 to n
        invariant subs == ids[..j] && serial == old(serial) + j
        invariant nodes == AddNodes(old(nodes), ids[..j], created[..j])
      {
        AddNodesLast(old(nodes), ids[..j], created[..j], ids[j], created[j]);
        assert ids[..j + 1] == ids[..j] + [ids[j]] && created[..j + 1] == created[..j] + [created[j]];
        var id := FreshId(Duplicator);
        RegisterNode(id, FreshDuplicator(template));
        subs := subs + [id];
      }
      assert ids[..n] == ids && created[..n] == created;
    }

    /** Each of some new nodes takes over a far end captured beforehand. */
    method WireHeirs(ids: seq<NodeId>, ends: seq<Option<Port>>, ghost l: Links, ghost t: Wires, ghost ops: seq<Op>, ghost from: nat)
      requires |ids| == |ends| && from + |ids| <= |ops| && Linked() == LinkCaptured(l, t, ops[..from])
      requires forall i :: 0 <= i < |ids| ==> Ends(t, ops[from + i]) == (Some(P(ids[i])), ends[i])
      modifies this`target, this`activePairs
      ensures Linked() == LinkCaptured(l, t, ops[..from + |ids|])
    {
      for i := 0 to |ids|
        invariant Linked() == LinkCaptured(l, t, ops[..from + i])
      {
        CapturedLast(l, t, ops, from + i);
        Link(Some(P(ids[i])), ends[i]);
      }
    }

    /** One clone meets every new duplicator. */
    method WireRow(clone: NodeId, i: nat, subs: seq<NodeId>, ghost l: Links, ghost t: Wires, ghost ops: seq<Op>, ghost done: nat)
      requires done + |subs| <= |ops| && Linked() == LinkCaptured(l, t, ops[..done])
      requires forall j :: 0 <= j < |subs| ==> ops[done + j] == Join(A(clone, j), A(subs[j], i))
      modifies this`target, this`activePairs
      ensures Linked() == LinkCaptured(l, t, ops[..done + |subs|])
    {
      for j := 0 to |subs|
        invariant Linked() == LinkCaptured(l, t, ops[..done + j])
      {
        CapturedLast(l, t, ops, done + j);
        Link(Some(A(clone, j)), Some(A(subs[j], i)));
      }
    }

    /** Every clone meets every new duplicator. */
    method WireMesh(clones: seq<NodeId>, subs: seq<NodeId>, ghost l: Links, ghost t: Wires, ghost ops: seq<Op>, ghost from: nat)
      requires |clones| == 2 && |ops| == from + |subs| + |subs| && Linked() == LinkCaptured(l, t, ops[..from])
      requires forall j :: 0 <= j < |subs| ==> ops[from + j] == Join(A(clones[0], j), A(subs[j], 0))
      requires forall j :: 0 <= j < |subs| ==> ops[from + |subs| + j] == Join(A(clones[1], j), A(subs[j], 1))
      modifies this`target, this`activePairs
      ensures Linked() == LinkCaptured(l, t, ops)
    {
      var n := |subs|;
      ghost var done := from;
      for i := 0 to 2
        invariant done == if i == 0 then from else if i == 1 then from + n else from + n + n
        invariant Linked() == LinkCaptured(l, t, ops[..done])
      {
        WireRow(clones[i], i, subs, l, t, ops, done);
        done := done + n;
      }
      assert ops[..done] == ops;
    }

    /** Wire the copies, in the order in which the rule does. */
    method WireCopies(clones: seq<NodeId>, subs: seq<NodeId>, cloneEnds: seq<Option<Port>>, subEnds: seq<Option<Port>>,
                      ghost a: NodeId, ghost b: NodeId, ghost ops: seq<Op>)
      requires |clones| == |cloneEnds| == 2 && |subs| == |subEnds|
      requires forall i :: 0 <= i < 2 ==> cloneEnds[i] == Look(target, A(a, i))
      requires forall j :: 0 <= j < |subs| ==> subEnds[j] == Look(target, A(b, j))
      requires CopyEdits(ops, clones, subs, a, b)
      modifies this`target, this`activePairs
      ensures Linked() == LinkCaptured(old(Linked()), old(target), ops)
    {
      assert ops[..0] == [];
      WireHeirs(clones, cloneEnds, Linked(), target, ops, 0);
      WireHeirs(subs, subEnds, old(Linked()), old(target), ops, 2);
      WireMesh(clones, subs, old(Linked()), old(target), ops, 2 + |subs|);
    }

    method RuleDuplicate(a: NodeId, b: NodeId)
      requires a in nodes && b in nodes && Used(a, serial) && Used(b, serial) && |nodes[a].aux| == 2
      modifies this
      ensures State() == FireAs(Duplicate, a, b, old(State()))
    {
      hide CopyEdits, AddNodes, LinkCaptured, FireAs;
      ghost var x, y := nodes[a], nodes[b];
      // the wires leaving both nodes, captured before any copy is wired
      var cloneEnds := seq(|nodes[a].aux|, i requires 0 <= i reads this => Look(target, A(a, i)));
      var subEnds := seq(|nodes[b].aux|, j requires 0 <= j reads this => Look(target, A(b, j)));
      var n, template := |nodes[b].aux|, nodes[a];
      ghost var copies, dups := seq(2, _ => y), seq(n, _ => FreshDuplicator(x));
      ghost var ops := DuplicateAssembles(State(), a, b, copies, dups);
      var clones := MakeClones(b, |nodes[a].aux|);
      var subs := MakeDuplicators(template, n);
      WireCopies(clones, subs, cloneEnds, subEnds, a, b, ops);
      Retire(a, b);
    }

    // ----- the driver -----

    /** Fire one pair: true if one reacted, false if none is left. */
    method ReduceStep() returns (fired: bool)
      requires Sound()
      modifies this
      ensures State() == ReduceOnce(old(State())).0 && fired == ReduceOnce(old(State())).1.Some?
      ensures Sound() && (old(Consistent(State())) && !fired ==> Inert(View(State())))
      decreases |activePairs|
    {
      hide Consistent, Inert;
      ghost var at := State();
      if Consistent(at) && ReduceOnce(at).1.None? { NothingFired(at); }
      if activePairs == [] { return false; }
      var e := activePairs[0];
      activePairs := activePairs[1..];
      var (a, b) := e;
      if a !in nodes || b !in nodes {
        fired := ReduceStep();
        return;
      }
      if !HasRule(nodes[a].kind, nodes[b].kind) {
        if activePairs == [] { return false; }
        fired := ReduceStep();
        return;
      }
      ghost var before := State();
      var x, y := nodes[a].kind, nodes[b].kind;
      if x == Eraser {
        RuleErase(a, b);
      } else if y == Eraser {
        RuleErase(b, a);
      } else if x == Duplicator && y != Duplicator {
        RuleDuplicate(a, b);
      } else if y == Duplicator && x != Duplicator {
        RuleDuplicate(b, a);
      } else if x == Switch || y == Switch {
        if x == Switch { RuleSwitch(a, b); } else { RuleSwitch(b, a); }
      } else if x == Projection || y == Projection {
        if x == Projection { RuleProject(a, b); } else { RuleProject(b, a); }
      } else {
        RuleAnnihilate(a, b);
      }
      FireAsRuled(before, a, b);
      FireSound(before, a, b);
      fired := true;
    }

    /** Reduce until nothing reacts or the limit is reached. */
    method RunToCompletion(maxSteps: nat) returns (steps: nat)
      requires Sound()
      modifies this
      ensures State() == RunAll(old(State()), maxSteps).0 && steps == RunAll(old(State()), maxSteps).1
      ensures Sound() && (old(StaysConsistent(State(), maxSteps)) && steps < maxSteps ==> Inert(View(State())))
    {
      hide StaysConsistent, Inert;
      ghost var at := State();
      if StaysConsistent(at, maxSteps) && RunAll(at, maxSteps).1 < maxSteps { StopsInert(at, maxSteps); }
      steps := 0;
      while steps < maxSteps
        invariant steps <= maxSteps && Sound()
        invariant RunAll(old(State()), maxSteps) == (RunAll(State(), maxSteps - steps).0, RunAll(State(), maxSteps - steps).1 + steps)
      {
        var fired := ReduceStep();
        if !fired { return; }
        steps := steps + 1;
      }
    }

    /** Whether every auxiliary port of a live node is bound symmetrically. */
    method ValidateConservation() returns (ok: bool)
      ensures ok <==> forall n, i: nat :: n in nodes && i < |nodes[n].aux| ==>
        A(n, i) in target && Look(target, target[A(n, i)]) == Some(A(n, i))
    {
      var todo := nodes.Keys;
      while todo != {}
        invariant todo <= nodes.Keys
        invariant forall n, i: nat :: n in nodes && n !in todo && i < |nodes[n].aux| ==>
          A(n, i) in target && Look(target, target[A(n, i)]) == Some(A(n, i))
        decreases todo
      {
        var n :| n in todo;
        for i := 0 to |nodes[n].aux|
          invariant forall j: nat :: j < i ==> A(n, j) in target && Look(target, target[A(n, j)]) == Some(A(n, j))
        {
          if A(n, i) !in target || Look(target, target[A(n, i)]) != Some(A(n, i)) { return false; }
        }
        todo := todo - {n};
      }
      return true;
    }
  }

  lemma FireAsRuled(vm: Vm, a: NodeId, b: NodeId)
    requires a in vm.nodes && b in vm.nodes
    ensures var net := View(vm);
      FireVm(vm, a, b) == FireAs(RuleAt(net, a, b), Lead(net, a, b), Other(net, a, b), vm)
  {
    assert {Lead(View(vm), a, b), Other(View(vm), a, b)} == {a, b};
  }

  lemma FireSound(vm: Vm, a: NodeId, b: NodeId)
    requires a in vm.nodes && b in vm.nodes && HasRule(vm.nodes[a].kind, vm.nodes[b].kind)
    requires WellFormed(vm.nodes) && forall n :: n in vm.nodes ==> Used(n, vm.serial)
    ensures WellFormed(FireVm(vm, a, b).nodes)
    ensures forall n :: n in FireVm(vm, a, b).nodes ==> Used(n, FireVm(vm, a, b).serial)
  {
    hide EditsAt, Relink, LinkCaptured, HasRule;
    var created, ids := CreatedAt(View(vm), a, b), IdsAt(vm, a, b);
    AddNodesAll(vm.nodes - {a, b}, ids, created);
    var after := FireVm(vm, a, b);
    forall n | n in after.nodes ensures |after.nodes[n].aux| == Arity(after.nodes[n].kind) && Used(n, after.serial) {
      if n in ids { var i :| 0 <= i < |ids| && ids[i] == n; }
    }
  }

  /** What the rule methods compute: the given rule led by a. */
  ghost function FireAs(rule: Rule, a: NodeId, b: NodeId, vm: Vm): Vm
    requires a in vm.nodes && b in vm.nodes
  {
    var created := Created(rule, vm.nodes[a], vm.nodes[b], b);
    var ids := NextIds(vm.serial, created);
    var ops := Edits(rule, a, vm.nodes[a], b, vm.nodes[b], ids)[1..];
    var start := Links(vm.target, vm.pairs);
    var done := if rule == Duplicate then LinkCaptured(start, vm.target, ops) else Relink(start, ops);
    Vm(AddNodes(vm.nodes - {a, b}, ids, created), done.pairs, vm.serial + |created|, done.target)
  }
}
