/** Unique normal forms: every complete run of a tame net ends in the same net up
    to the choice of fresh ids, after the same number of steps, and that number is
    at most half the number of ports. */
module NormalForms {
  import opened Collections
  import opened Wiring
  import opened Nets
  import opened Conservation
  import opened Measure
  import opened Polarity
  import opened Confluence
  import opened Renaming

  // ----- the same pair, either way round -----

  lemma FlipSplice(w: Wires, x: Port, y: Port)
    requires Paired(w)
    ensures Apply(w, Splice(x, y)) == Apply(w, Splice(y, x))
  {
    forall p ensures Look(Apply(w, Splice(x, y)), p) == Look(Apply(w, Splice(y, x)), p) {}
    SameLooks(Apply(w, Splice(x, y)), Apply(w, Splice(y, x)));
  }

  ghost predicate FlipOf(e: Op, f: Op) {
    e == f || (e.Splice? && f == Splice(e.y, e.x))
  }

  lemma {:induction false} FlipAll(w: Wires, ops: seq<Op>, flipped: seq<Op>)
    requires Paired(w) && Linear(w, ops) && |ops| == |flipped|
    requires forall k :: 0 <= k < |ops| ==> FlipOf(ops[k], flipped[k])
    ensures ApplyAll(w, ops) == ApplyAll(w, flipped)
    decreases ops
  {
    if ops != [] {
      assert FlipOf(ops[0], flipped[0]);
      if ops[0] != flipped[0] { FlipSplice(w, ops[0].x, ops[0].y); }
      LinearRest(w, ops);
      FlipAll(Apply(w, ops[0]), ops[1..], flipped[1..]);
    }
  }

  lemma FlippedEdits(rule: Rule, a: NodeId, x: Node, b: NodeId, y: Node, ids: seq<NodeId>, k: nat)
    requires |x.aux| == |y.aux| && rule in {Annihilate, Erase} && (rule == Erase ==> x.aux == [])
    requires |ids| == |Created(rule, x, y, b)| == |Created(rule, y, x, a)|
    requires k < |Edits(rule, a, x, b, y, ids)|
    ensures |Edits(rule, b, y, a, x, ids)| == |Edits(rule, a, x, b, y, ids)|
    ensures FlipOf(Edits(rule, a, x, b, y, ids)[k], Edits(rule, b, y, a, x, ids)[k])
  {
  }

  /** A rule that treats its two nodes alike, fired the other way round. */
  lemma FlippedWires(w: Wires, rule: Rule, a: NodeId, x: Node, b: NodeId, y: Node, ids: seq<NodeId>)
    requires |x.aux| == |y.aux| && rule in {Annihilate, Erase} && (rule == Erase ==> x.aux == [])
    requires |ids| == |Created(rule, x, y, b)| == |Created(rule, y, x, a)|
    requires Paired(w) && Linear(w, Edits(rule, a, x, b, y, ids))
    ensures ApplyAll(w, Edits(rule, a, x, b, y, ids)) == ApplyAll(w, Edits(rule, b, y, a, x, ids))
  {
    var ops, flipped := Edits(rule, a, x, b, y, ids), Edits(rule, b, y, a, x, ids);
    FlippedEdits(rule, a, x, b, y, ids, 0);
    forall k | 0 <= k < |ops| ensures FlipOf(ops[k], flipped[k]) {
      FlippedEdits(rule, a, x, b, y, ids, k);
    }
    FlipAll(w, ops, flipped);
  }

  lemma FlippedRewrite(net: Net, s: Firing)
    requires WellWired(net) && Enabled(net, s) && Regular(net, s.a, s.b)
    ensures Enabled(net, Firing(s.b, s.a, s.ids))
    ensures CreatedAt(net, s.b, s.a) == CreatedAt(net, s.a, s.b)
    ensures ApplyAll(net.wires, EditsAt(net, s.a, s.b, s.ids)) == ApplyAll(net.wires, EditsAt(net, s.b, s.a, s.ids))
  {
    hide ApplyAll, Edits, Faithful, Linear;
    var (l, o) := (Lead(net, s.a, s.b), Other(net, s.a, s.b));
    if Lead(net, s.b, s.a) != l {
      FireFaithful(net, s.a, s.b, s.ids);
      RewriteLinear(net, RewriteAt(net, s.a, s.b, s.ids));
      FlippedWires(net.wires, RuleAt(net, s.a, s.b), l, net.nodes[l], o, net.nodes[o], s.ids);
    }
  }

  lemma FireFlipped(net: Net, s: Firing)
    requires WellWired(net) && Enabled(net, s) && Regular(net, s.a, s.b)
    ensures Enabled(net, Firing(s.b, s.a, s.ids))
    ensures Fired(net, Firing(s.b, s.a, s.ids)) == Fired(net, s)
  {
    FlippedRewrite(net, s);
    assert {s.a, s.b} == {s.b, s.a};
  }

  /** The same pair fired with other fresh ids: only the new names differ. */
  lemma OtherIds(net: Net, s: Firing, t: Firing) returns (f: Naming, g: Naming)
    requires WellWired(net) && Enabled(net, s) && Regular(net, s.a, s.b)
    requires Enabled(net, t) && t.a == s.a && t.b == s.b
    ensures IsIso(f, g, Fired(net, s), Fired(net, t))
    ensures forall n :: n in net.nodes && n !in {s.a, s.b} ==> n in f && f[n] == n
  {
    IsoReflexive(net);
    var id := Identity(net.nodes);
    assert Matches(id, s, t) by { assert CreatedAt(net, t.a, t.b) == CreatedAt(net, s.a, s.b); }
    f, g := FireIso(id, id, net, net, s, t);
  }

  /** The same pair fired with other fresh ids, or with its nodes exchanged. */
  lemma SamePairIso(net: Net, s: Firing, t: Firing)
    requires WellWired(net) && Enabled(net, s) && Regular(net, s.a, s.b)
    requires Enabled(net, t) && {s.a, s.b} == {t.a, t.b}
    ensures Iso(Fired(net, s), Fired(net, t))
  {
    if s.a == t.a {
      var f, g := OtherIds(net, s, t);
    } else {
      FireFlipped(net, s);
      var f, g := OtherIds(net, Firing(s.b, s.a, s.ids), t);
    }
  }

  // ----- fresh ids -----

  lemma {:induction false} FreshNames(avoid: set<NodeId>, k: nat) returns (ids: seq<NodeId>)
    ensures |ids| == k && Distinct(ids) && forall i :: 0 <= i < k ==> ids[i] !in avoid
  {
    var bound := SerialBound(avoid);
    ids := seq(k, i requires 0 <= i => Gensym(Value, bound + i));
  }

  lemma {:induction false} SerialBound(avoid: set<NodeId>) returns (bound: nat)
    ensures forall n :: n in avoid && n.Gensym? ==> n.serial < bound
  {
    bound := 0;
    if avoid != {} {
      var n :| n in avoid;
      bound := SerialBound(avoid - {n});
      if n.Gensym? && n.serial >= bound { bound := n.serial + 1; }
    }
  }

  // ----- closing the diamond -----

  /** The firing t after s, with ids that also avoid everything in sight. */
  lemma CloseDiamond(net: Net, s: Firing, t: Firing) returns (t': Firing, s': Firing)
    requires Tame(net) && Enabled(net, s) && Enabled(net, t) && {s.a, s.b} != {t.a, t.b}
    ensures Enabled(Fired(net, s), t') && Enabled(Fired(net, t), s')
    ensures Iso(Fired(Fired(net, s), t'), Fired(Fired(net, t), s'))
  {
    TameIsRegular(net, s);
    TameIsRegular(net, t);
    PairsDisjoint(net, s, t);
    // t' avoids the names of s, so s and t' commute exactly
    var ks := FreshNames(net.nodes.Keys + (set n | n in s.ids), |t.ids|);
    t' := Firing(t.a, t.b, ks);
    FiringsCommute(net, s, t');
    // firing t with its own ids or with ks gives isomorphic nets, in which s fires alike
    var f, g := OtherIds(net, t', t);
    TameStays(net, t');
    TameIsRegular(Fired(net, t'), s);
    var ls := FreshNames(Fired(net, t).nodes.Keys, |s.ids|);
    s' := Firing(s.a, s.b, ls);
    var h, k := FireIso(f, g, Fired(net, t'), Fired(net, t), s, s');
  }

  // ----- runs -----

  ghost predicate CanRun(net: Net, run: seq<Firing>)
    decreases |run|
  {
    run == [] || (Enabled(net, run[0]) && CanRun(Fired(net, run[0]), run[1..]))
  }

  ghost function Result(net: Net, run: seq<Firing>): Net
    requires CanRun(net, run)
    decreases |run|
  {
    if run == [] then net else Result(Fired(net, run[0]), run[1..])
  }

  ghost predicate NormalForm(net: Net) {
    forall a, b :: !Reducible(net, a, b)
  }

  /** Termination: a run of a tame net has at most half as many steps as ports. */
  lemma {:induction false} RunsAreShort(net: Net, run: seq<Firing>)
    requires Tame(net) && CanRun(net, run)
    ensures Tame(Result(net, run))
    ensures 2 * |run| + PortCount(Result(net, run).nodes) <= PortCount(net.nodes)
    decreases |run|
  {
    if run != [] {
      TameStays(net, run[0]);
      RunsAreShort(Fired(net, run[0]), run[1..]);
    }
  }

  predicate Selector(x: Node) {
    x.kind in {Switch, Projection}
  }

  lemma SelectorWasThere(net: Net, s: Firing, n: NodeId)
    requires Tame(net) && Enabled(net, s) && n in Fired(net, s).nodes && Selector(Fired(net, s).nodes[n])
    ensures n in net.nodes && net.nodes[n] == Fired(net, s).nodes[n]
  {
    hide Polarised, WellWired, EditsAt, ApplyAll;
    var more := CreatedAt(net, s.a, s.b);
    AddNodesAll(net.nodes - {s.a, s.b}, s.ids, more);
    if n in s.ids {
      var i :| 0 <= i < |s.ids| && s.ids[i] == n;
      NoNewSelectors(net, s.a, s.b, i);
      assert false;
    }
  }

  /** Every switch and projection met in a run was in the net at its start: none is ever a copy. */
  lemma {:induction false} SelectorsAreOriginal(net: Net, run: seq<Firing>)
    requires Tame(net) && CanRun(net, run)
    ensures forall n :: n in Result(net, run).nodes && Selector(Result(net, run).nodes[n]) ==>
              n in net.nodes && net.nodes[n] == Result(net, run).nodes[n]
    decreases |run|
  {
    if run != [] {
      hide Tame, Selector, Fired;
      TameStays(net, run[0]);
      SelectorsAreOriginal(Fired(net, run[0]), run[1..]);
      forall n | n in Fired(net, run[0]).nodes && Selector(Fired(net, run[0]).nodes[n])
        ensures n in net.nodes && net.nodes[n] == Fired(net, run[0]).nodes[n]
      {
        SelectorWasThere(net, run[0], n);
      }
    }
  }

  /** Some complete run of k steps ends in the normal form r. */
  ghost predicate Outcome(net: Net, k: nat, r: Net) {
    exists run :: CanRun(net, run) && |run| == k && Result(net, run) == r && NormalForm(r)
  }

  /** Some reacting pair, with some fresh ids, takes net to next. */
  ghost predicate Steps(net: Net, next: Net) {
    exists s :: Enabled(net, s) && Fired(net, s) == next
  }

  lemma StepTame(net: Net, next: Net)
    requires Tame(net) && Steps(net, next)
    ensures Tame(next) && PortCount(next.nodes) + 2 <= PortCount(net.nodes)
  {
    var s :| Enabled(net, s) && Fired(net, s) == next;
    TameStays(net, s);
  }

  lemma FirstStep(net: Net, k: nat, r: Net) returns (next: Net)
    requires Outcome(net, k, r) && k > 0
    ensures Steps(net, next) && Outcome(next, k - 1, r)
  {
    var run :| CanRun(net, run) && |run| == k && Result(net, run) == r && NormalForm(r);
    next := Fired(net, run[0]);
    assert CanRun(next, run[1..]) && |run[1..]| == k - 1 && Result(next, run[1..]) == r;
  }

  lemma MoreStep(net: Net, next: Net, k: nat, r: Net)
    requires Steps(net, next) && Outcome(next, k, r)
    ensures Outcome(net, k + 1, r)
  {
    var s :| Enabled(net, s) && Fired(net, s) == next;
    var rest :| CanRun(next, rest) && |rest| == k && Result(next, rest) == r && NormalForm(r);
    var run := [s] + rest;
    assert run[0] == s && run[1..] == rest;
    assert CanRun(net, run) && |run| == k + 1 && Result(net, run) == r;
  }

  lemma EmptyOutcome(net: Net)
    requires NormalForm(net)
    ensures Outcome(net, 0, net)
  {
    assert CanRun(net, []) && Result(net, []) == net;
  }

  lemma NoStep(net: Net, r: Net)
    requires Outcome(net, 0, r)
    ensures r == net && NormalForm(net)
  {
  }

  lemma NormalOutcome(net: Net, k: nat, r: Net)
    requires NormalForm(net) && Outcome(net, k, r)
    ensures k == 0 && r == net
  {
    var run :| CanRun(net, run) && |run| == k && Result(net, run) == r && NormalForm(r);
  }

  lemma SomeStep(net: Net, a: NodeId, b: NodeId) returns (next: Net)
    requires Reducible(net, a, b)
    ensures Steps(net, next)
  {
    var ids := FreshNames(net.nodes.Keys, |CreatedAt(net, a, b)|);
    next := Fired(net, Firing(a, b, ids));
  }

  /** Every tame net has a complete run. */
  lemma {:induction false} SomeOutcome(net: Net) returns (k: nat, r: Net)
    requires Tame(net)
    ensures Outcome(net, k, r)
    decreases PortCount(net.nodes)
  {
    hide Tame, Outcome, Steps, PortCount, Reducible;
    if NormalForm(net) {
      k, r := 0, net;
      EmptyOutcome(net);
    } else {
      var a, b :| Reducible(net, a, b);
      var next := SomeStep(net, a, b);
      StepTame(net, next);
      k, r := SomeOutcome(next);
      MoreStep(net, next, k, r);
      k := k + 1;
    }
  }

  lemma IsoSelf(net: Net)
    requires Tame(net)
    ensures Iso(net, net)
  {
    IsoReflexive(net);
  }

  lemma IsoNormal(net: Net, other: Net)
    requires Iso(net, other) && NormalForm(net)
    ensures NormalForm(other)
  {
    hide Reducible, IsIso, Iso;
    var f, g := Witness(net, other);
    IsoFlip(f, g, net, other);
    forall a, b | Reducible(other, a, b) ensures false {
      IsoReducible(g, f, other, net, a, b);
    }
  }

  /** A step of an isomorphic copy, carried back. */
  lemma CarryFiring(f: Naming, g: Naming, net: Net, other: Net, t: Firing) returns (s: Firing)
    requires Tame(net) && IsIso(f, g, net, other) && Enabled(other, t)
    ensures WellWired(net) && Enabled(net, s) && Regular(net, s.a, s.b) && Matches(f, s, t)
  {
    IsoFlip(f, g, net, other);
    IsoReducible(g, f, other, net, t.a, t.b);
    var a, b := g[t.a], g[t.b];
    var ids := FreshNames(net.nodes.Keys, |CreatedAt(net, a, b)|);
    s := Firing(a, b, ids);
    TameIsRegular(net, s);
    IsoCreated(f, g, net, other, a, b);
  }

  lemma CarryBack(net: Net, other: Net, after: Net) returns (next: Net)
    requires Tame(net) && Iso(net, other) && Steps(other, after)
    ensures Steps(net, next) && Iso(next, after)
  {
    hide Tame, Regular, IsIso, Matches, WellWired;
    var t :| Enabled(other, t) && Fired(other, t) == after;
    var f, g := Witness(net, other);
    var s := CarryFiring(f, g, net, other, t);
    var h, k := FireIso(f, g, net, other, s, t);
    next := Fired(net, s);
  }

  /** Two steps from the same net are the same up to names, or one more step
      brings them together up to names. */
  lemma LocalConfluence(net: Net, ns: Net, nt: Net) returns (joined: bool, u: Net, v: Net)
    requires Tame(net) && Steps(net, ns) && Steps(net, nt)
    ensures !joined ==> Iso(ns, nt)
    ensures joined ==> Steps(ns, u) && Steps(nt, v) && Iso(u, v)
  {
    var s :| Enabled(net, s) && Fired(net, s) == ns;
    var t :| Enabled(net, t) && Fired(net, t) == nt;
    u, v := ns, nt;
    joined := {s.a, s.b} != {t.a, t.b};
    if joined {
      var t', s' := CloseDiamond(net, s, t);
      u, v := Fired(ns, t'), Fired(nt, s');
    } else {
      TameIsRegular(net, s);
      SamePairIso(net, s, t);
    }
  }

  /** Any two complete runs of isomorphic tame nets agree: the same number of
      steps, and isomorphic normal forms. */
  lemma {:induction false} UniqueOutcome(net: Net, other: Net, k: nat, r: Net, m: nat, q: Net)
    requires Tame(net) && Iso(net, other) && Outcome(net, k, r) && Outcome(other, m, q)
    ensures k == m && Iso(r, q)
    decreases PortCount(net.nodes)
  {
    hide *;
    if k == 0 {
      NoStep(net, r);
      IsoNormal(net, other);
      NormalOutcome(other, m, q);
    } else if m == 0 {
      NoStep(other, q);
      IsoSymmetric(net, other);
      IsoNormal(other, net);
      NormalOutcome(net, k, r);
    } else {
      var ns := FirstStep(net, k, r);
      var os := FirstStep(other, m, q);
      var nt := CarryBack(net, other, os);
      StepTame(net, ns);
      StepTame(net, nt);
      var joined, u, v := LocalConfluence(net, ns, nt);
      if joined {
        StepTame(ns, u);
        StepTame(nt, v);
        var i, x := SomeOutcome(u);
        var j, y := SomeOutcome(v);
        MoreStep(ns, u, i, x);
        MoreStep(nt, v, j, y);
        IsoSelf(ns);
        UniqueOutcome(ns, ns, k - 1, r, i + 1, x);
        UniqueOutcome(u, v, i, x, j, y);
        UniqueOutcome(nt, os, j + 1, y, m - 1, q);
        IsoTransitive(r, x, y);
        IsoTransitive(r, y, q);
      } else {
        IsoTransitive(ns, nt, os);
        UniqueOutcome(ns, os, k - 1, r, m - 1, q);
      }
    }
  }

  /** Unique normal form: from one tame net, however the pairs are picked and the
      fresh ids drawn, complete runs take the same number of steps and end in the
      same net up to names. */
  lemma UniqueNormalForm(net: Net, run: seq<Firing>, alt: seq<Firing>)
    requires Tame(net) && CanRun(net, run) && CanRun(net, alt)
    requires NormalForm(Result(net, run)) && NormalForm(Result(net, alt))
    ensures |run| == |alt| && Iso(Result(net, run), Result(net, alt))
  {
    hide Tame, NormalForm, Iso;
    IsoSelf(net);
    UniqueOutcome(net, net, |run|, Result(net, run), |alt|, Result(net, alt));
  }
}
