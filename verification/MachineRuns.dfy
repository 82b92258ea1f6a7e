/** Whole runs of the engine: reduce_step and run_to_completion, stale and inert
    worklist entries included, against rewriting sequences of the net. */
module MachineRuns {
  import opened MellTypes
  import opened Wiring
  import opened Nets
  import opened Conservation
  import opened Measure
  import opened Confluence
  import opened Renaming
  import opened NormalForms
  import opened Machine

  /** reduce_step: skip entries whose nodes are gone, drop inert ones, and fire the
      first that reacts. Returns the pair fired, if any. */
  function ReduceOnce(vm: Vm): (Vm, Option<Pair>)
    decreases |vm.pairs|
  {
    if vm.pairs == [] then (vm, None)
    else
      var e := vm.pairs[0];
      var rest := vm.(pairs := vm.pairs[1..]);
      if e.0 !in vm.nodes || e.1 !in vm.nodes then ReduceOnce(rest)
      else if !HasRule(vm.nodes[e.0].kind, vm.nodes[e.1].kind) then
        if rest.pairs == [] then (rest, None) else ReduceOnce(rest)
      else (FireVm(rest, e.0, e.1), Some(e))
  }

  /** run_to_completion: at most max firings; returns how many. */
  function RunAll(vm: Vm, max: nat): (Vm, nat)
    decreases max
  {
    if max == 0 then (vm, 0)
    else
      var (next, fired) := ReduceOnce(vm);
      if fired.None? then (next, 0)
      else
        var (end, n) := RunAll(next, max - 1);
        (end, n + 1)
  }

  lemma TakeFirst(vm: Vm)
    requires Consistent(vm) && vm.pairs != []
    ensures
      var e := vm.pairs[0];
      var rest := vm.(pairs := vm.pairs[1..]);
      && View(rest) == View(vm)
      && (e.0 in vm.nodes && e.1 in vm.nodes ==> ConsistentBut(rest, e.0, e.1))
      && (e.0 in vm.nodes && e.1 in vm.nodes && HasRule(vm.nodes[e.0].kind, vm.nodes[e.1].kind) ==> Reducible(View(vm), e.0, e.1))
      && (e.0 !in vm.nodes || e.1 !in vm.nodes || !HasRule(vm.nodes[e.0].kind, vm.nodes[e.1].kind) ==> Consistent(rest))
  {
    var e := vm.pairs[0];
    var w := View(vm).wires;
    assert e in vm.pairs;
    forall a, b | Listed(vm.pairs, a, b) ensures Listed(vm.pairs[1..], a, b) || (a, b) == e || (b, a) == e {
      var i :| 0 <= i < |vm.pairs| && (vm.pairs[i] == (a, b) || vm.pairs[i] == (b, a));
      if i > 0 { assert vm.pairs[1..][i - 1] == vm.pairs[i]; }
    }
    if e.0 in vm.nodes && e.1 in vm.nodes { assert w[P(e.0)] == P(e.1) && w[P(e.1)] == P(e.0); }
  }

  /** next is what firing the pair e makes of vm, less the worklist entries before e. */
  ghost predicate FiredFrom(vm: Vm, e: Pair, next: Vm) {
    exists before: Vm :: View(before) == View(vm) && before.serial == vm.serial
      && Setting(before, e.0, e.1) && next == FireVm(before, e.0, e.1)
  }

  /** The engine stops only in a normal form: when reduce_step finds nothing, no
      remaining principal wire has a rule, whatever was stale or dropped. When it
      does fire, it fires a reacting pair of the net. */
  lemma {:induction false} ReduceOnceFires(vm: Vm)
    requires Consistent(vm)
    ensures ReduceOnce(vm).1.None? ==> View(ReduceOnce(vm).0) == View(vm) && Consistent(ReduceOnce(vm).0) && NormalForm(View(vm))
    ensures ReduceOnce(vm).1.Some? ==> FiredFrom(vm, ReduceOnce(vm).1.value, ReduceOnce(vm).0)
    decreases |vm.pairs|
  {
    if vm.pairs == [] {
      forall a, b ensures !Reducible(View(vm), a, b) {}
    } else {
      TakeFirst(vm);
      var e := vm.pairs[0];
      var rest := vm.(pairs := vm.pairs[1..]);
      if e.0 in vm.nodes && e.1 in vm.nodes && HasRule(vm.nodes[e.0].kind, vm.nodes[e.1].kind) {
        assert Setting(rest, e.0, e.1);
      } else {
        ReduceOnceFires(rest);
        if rest.pairs == [] { assert ReduceOnce(rest) == (rest, None); }
      }
    }
  }

  // ----- what is left, agent by agent -----

  /** Two agents that may be left facing each other. */
  predicate MayFace(j: Kind, k: Kind) {
    && j != k && j != Eraser && k != Eraser && j != Duplicator && k != Duplicator
    && !(j == Constructor && k == Destructor) && !(j == Destructor && k == Constructor)
    && !(j == Switch && k == Value) && !(j == Value && k == Switch)
    && !(j == Projection && k == Value) && !(j == Value && k == Projection)
  }

  ghost predicate Inert(net: Net) {
    forall a, b :: Facing(net, a, b) ==> MayFace(net.nodes[a].kind, net.nodes[b].kind)
  }

  ghost predicate Facing(net: Net, a: NodeId, b: NodeId) {
    a in net.nodes && b in net.nodes && a != b && P(a) in net.wires && net.wires[P(a)] == P(b)
  }

  /** A net is in normal form if and only if no two of its principal ports face each other that could react. */
  lemma NormalFormExactly(net: Net)
    ensures NormalForm(net) <==> Inert(net)
  {
    forall a, b | a in net.nodes && b in net.nodes
      ensures HasRule(net.nodes[a].kind, net.nodes[b].kind) <==> !MayFace(net.nodes[a].kind, net.nodes[b].kind)
    {
      RuleExactly(net.nodes[a].kind, net.nodes[b].kind);
    }
    if NormalForm(net) {
      forall a, b | Facing(net, a, b) ensures MayFace(net.nodes[a].kind, net.nodes[b].kind) { assert !Reducible(net, a, b); }
    }
    if Inert(net) {
      forall a, b ensures !Reducible(net, a, b) { assert Facing(net, a, b) ==> MayFace(net.nodes[a].kind, net.nodes[b].kind); }
    }
  }

  lemma RuleExactly(j: Kind, k: Kind)
    ensures HasRule(j, k) <==> !MayFace(j, k)
  {
    assert {Switch, Value} == {Value, Switch} && {Projection, Value} == {Value, Projection} && {Constructor, Destructor} == {Destructor, Constructor};
    assert forall a: Kind, b: Kind, c: Kind, d: Kind :: {a, b} == {c, d} ==> a in {c, d} && b in {c, d} && c in {a, b} && d in {a, b};
  }

  lemma NothingFired(vm: Vm)
    requires Consistent(vm) && ReduceOnce(vm).1.None?
    ensures Inert(View(ReduceOnce(vm).0))
  {
    hide Consistent, Inert, View;
    ReduceOnceFires(vm);
    NormalFormExactly(View(vm));
  }

  /** The engine stays consistent through a run: it fires no pair that loses wires. */
  ghost predicate StaysConsistent(vm: Vm, max: nat)
    decreases max
  {
    Consistent(vm) && (max > 0 && ReduceOnce(vm).1.Some? ==> StaysConsistent(ReduceOnce(vm).0, max - 1))
  }

  /** Whenever the engine stops below its limit, nothing that could react is left. */
  lemma {:induction false} StopsInert(vm: Vm, max: nat)
    requires StaysConsistent(vm, max) && RunAll(vm, max).1 < max
    ensures Inert(View(RunAll(vm, max).0))
    decreases max
  {
    hide Consistent, Inert, View;
    if ReduceOnce(vm).1.None? {
      ReduceOnceFires(vm);
      NormalFormExactly(View(vm));
    } else {
      StopsInert(ReduceOnce(vm).0, max - 1);
    }
  }

  lemma {:induction false} TameStaysConsistent(vm: Vm, max: nat)
    requires Consistent(vm) && Tame(View(vm))
    ensures StaysConsistent(vm, max)
    decreases max
  {
    hide Consistent, Tame, View, Enabled, Fired;
    if max > 0 && ReduceOnce(vm).1.Some? {
      var s := TameStep(vm);
      TameStays(View(vm), s);
      TameStaysConsistent(ReduceOnce(vm).0, max - 1);
    }
  }

  /** One step of the engine on a tame net is one firing of the net. */
  lemma TameStep(vm: Vm) returns (s: Firing)
    requires Consistent(vm) && Tame(View(vm)) && ReduceOnce(vm).1.Some?
    ensures Enabled(View(vm), s) && View(ReduceOnce(vm).0) == Fired(View(vm), s) && Consistent(ReduceOnce(vm).0)
  {
    ReduceOnceFires(vm);
    var (next, fired) := ReduceOnce(vm);
    var (a, b) := fired.value;
    var before: Vm :| View(before) == View(vm) && before.serial == vm.serial && Setting(before, a, b) && next == FireVm(before, a, b);
    s := Firing(a, b, IdsAt(before, a, b));
    IdsFresh(before, a, b);
    TameIsRegular(View(vm), s);
    MachineFires(before, a, b);
  }

  /** A run of the engine on a tame net is a run of the net of as many firings, and
      is complete unless it hit the limit. */
  lemma {:induction false} TameRun(vm: Vm, max: nat) returns (run: seq<Firing>)
    requires Consistent(vm) && Tame(View(vm))
    ensures CanRun(View(vm), run) && |run| == RunAll(vm, max).1 && Result(View(vm), run) == View(RunAll(vm, max).0)
    ensures Consistent(RunAll(vm, max).0) && |run| <= max && (|run| < max ==> NormalForm(View(RunAll(vm, max).0)))
    decreases max
  {
    hide Consistent, Tame, NormalForm, Enabled, Fired, View, ReduceOnce;
    run := [];
    if max > 0 {
      if ReduceOnce(vm).1.None? {
        ReduceOnceFires(vm);
      } else {
        var s := TameStep(vm);
        TameStays(View(vm), s);
        var rest := TameRun(ReduceOnce(vm).0, max - 1);
        run := [s] + rest;
        assert run[0] == s && run[1..] == rest;
      }
    }
  }

  /** Total correctness of reduction: on a tame net run_to_completion stops in a
      normal form within half as many steps as there are ports. */
  lemma RunTerminates(vm: Vm, max: nat)
    requires Consistent(vm) && Tame(View(vm)) && PortCount(vm.nodes) < 2 * max
    ensures var (end, n) := RunAll(vm, max);
      Tame(View(end)) && NormalForm(View(end)) && 2 * n + PortCount(end.nodes) <= PortCount(vm.nodes)
  {
    var run := TameRun(vm, max);
    RunsAreShort(View(vm), run);
  }

  /** The engine is deterministic up to names: two engines that hold the same tame
      net, with their worklists in any order, any stale entries and any counters,
      stop after the same number of steps with the same net up to names. */
  lemma RunsAgree(vm: Vm, max: nat, alt: Vm, altMax: nat)
    requires Consistent(vm) && Consistent(alt) && View(vm) == View(alt) && Tame(View(vm))
    requires RunAll(vm, max).1 < max && RunAll(alt, altMax).1 < altMax
    ensures RunAll(vm, max).1 == RunAll(alt, altMax).1
    ensures Iso(View(RunAll(vm, max).0), View(RunAll(alt, altMax).0))
  {
    var run := TameRun(vm, max);
    var other := TameRun(alt, altMax);
    UniqueNormalForm(View(vm), run, other);
  }

  // ----- duplication, exactly -----

  lemma {:induction false} CapturedKeeps(l: Links, t: Wires, ops: seq<Op>, k: nat)
    requires k < |ops| && ops[k].Graft? && ops[k].x in t
    requires forall j :: 0 <= j < |ops| ==> !ops[j].Splice?
    requires forall j :: 0 <= j < |ops| && j != k ==> ops[k].heir !in ops[j].Ports() && (ops[j].Graft? ==> Look(t, ops[j].x) != Some(ops[k].heir))
    requires t[ops[k].x] != ops[k].heir
    ensures Look(LinkCaptured(l, t, ops).target, ops[k].heir) == Some(t[ops[k].x])
    decreases |ops|
  {
    var j := |ops| - 1;
    if j > k {
      assert forall i :: 0 <= i < j ==> ops[..j][i] == ops[i];
      CapturedKeeps(l, t, ops[..j], k);
      assert ops[k].heir !in ops[j].Ports();
    }
  }

  /** The node that takes over port p of the pair is left wired to p's captured far end. */
  lemma DuplicateCaptures(l: Links, t: Wires, x: NodeId, n: Node, y: NodeId, m: Node, ids: seq<NodeId>, p: Port)
    requires |n.aux| == 2 && |ids| == |Created(Duplicate, n, m, y)| && Separate(x, y, ids)
    requires p in t && p.index > 0 && (PortOf(n, x, p) || PortOf(m, y, p))
    requires forall q :: q in t && (PortOf(n, x, q) || PortOf(m, y, q)) ==> t[q].owner !in ids
    ensures var k := if p.owner == x then p.index - 1 else p.index + 1;
      k < |ids| && Look(LinkCaptured(l, t, Edits(Duplicate, x, n, y, m, ids)[1..]).target, P(ids[k])) == Some(t[p])
  {
    var ops := Edits(Duplicate, x, n, y, m, ids)[1..];
    var k := if p.owner == x then p.index - 1 else p.index + 1;
    DuplicateShape(x, n, y, m, ids, k + 1);
    assert ops[k] == Graft(p, P(ids[k]));
    forall j | 0 <= j < |ops|
      ensures !ops[j].Splice?
      ensures j != k ==> ops[k].heir !in ops[j].Ports() && (ops[j].Graft? ==> Look(t, ops[j].x) != Some(ops[k].heir))
    {
      DuplicateShape(x, n, y, m, ids, j + 1);
    }
    CapturedKeeps(l, t, ops, k);
  }

  lemma DuplicateSetting(vm: Vm, a: NodeId, b: NodeId)
    requires Setting(vm, a, b) && RuleAt(View(vm), a, b) == Duplicate
    ensures var (x, y) := (Lead(View(vm), a, b), Other(View(vm), a, b));
      && |vm.nodes[x].aux| == 2 && Separate(x, y, IdsAt(vm, a, b))
      && IdsAt(vm, a, b) == NextIds(vm.serial, Created(Duplicate, vm.nodes[x], vm.nodes[y], y))
      && FireVm(vm, a, b).target ==
         LinkCaptured(Links(vm.target, vm.pairs), vm.target, Edits(Duplicate, x, vm.nodes[x], y, vm.nodes[y], IdsAt(vm, a, b))[1..]).target
  {
    IdsFresh(vm, a, b);
  }

  lemma DuplicationHeir(vm: Vm, a: NodeId, b: NodeId, p: Port) returns (k: nat)
    requires Setting(vm, a, b) && RuleAt(View(vm), a, b) == Duplicate
    requires p in View(vm).wires && p.owner in {a, b} && p.index > 0
    ensures k < |IdsAt(vm, a, b)|
    ensures Look(FireVm(vm, a, b).target, P(IdsAt(vm, a, b)[k])) == Some(View(vm).wires[p])
  {
    var net, ids := View(vm), IdsAt(vm, a, b);
    var (x, y) := (Lead(net, a, b), Other(net, a, b));
    k := if p.owner == x then p.index - 1 else p.index + 1;
    hide Setting, Edits, Created, FireVm;
    DuplicateSetting(vm, a, b);
    forall q | q in vm.target && (PortOf(net.nodes[x], x, q) || PortOf(net.nodes[y], y, q)) ensures vm.target[q].owner !in ids {
      CapturedOld(vm, a, b, q);
    }
    DuplicateCaptures(Links(vm.target, vm.pairs), vm.target, x, net.nodes[x], y, net.nodes[y], ids, p);
  }

  lemma CapturedOld(vm: Vm, a: NodeId, b: NodeId, q: Port)
    requires Setting(vm, a, b) && Live(vm.nodes, q) && q in vm.target
    ensures vm.target[q].owner !in IdsAt(vm, a, b)
  {
    IdsFresh(vm, a, b);
    assert q in View(vm).wires && Live(vm.nodes, View(vm).wires[q]);
  }

  /** With a wire inside the pair, some node the duplication creates is left wired
      to a retired node. */
  lemma DuplicationBreaks(vm: Vm, a: NodeId, b: NodeId, p: Port)
    requires Setting(vm, a, b) && RuleAt(View(vm), a, b) == Duplicate
    requires p in View(vm).wires && p.owner in {a, b} && p.index > 0 && View(vm).wires[p].owner in {a, b}
    ensures !WellWired(View(FireVm(vm, a, b)))
  {
    var k := DuplicationHeir(vm, a, b, p);
    var ids, after := IdsAt(vm, a, b), FireVm(vm, a, b);
    IdsFresh(vm, a, b);
    AddNodesAll(vm.nodes - {a, b}, ids, CreatedAt(View(vm), a, b));
    assert View(after).wires[P(ids[k])] == View(vm).wires[p];
    assert !Live(after.nodes, View(vm).wires[p]);
  }

  /** Duplication keeps the wiring symmetric and off retired nodes exactly when no
      auxiliary wire lies inside the pair. */
  lemma DuplicationExactly(vm: Vm, a: NodeId, b: NodeId)
    requires Setting(vm, a, b) && RuleAt(View(vm), a, b) == Duplicate
    ensures WellWired(View(FireVm(vm, a, b))) <==> NoInnerWire(View(vm).wires, a, b)
  {
    if NoInnerWire(View(vm).wires, a, b) {
      MachineFires(vm, a, b);
    } else {
      var p :| p in View(vm).wires && p.owner in {a, b} && p.index > 0 && View(vm).wires[p].owner in {a, b};
      DuplicationBreaks(vm, a, b, p);
    }
  }
}
