/** Confluence: reductions of different pairs commute exactly once their fresh ids
    are chosen apart, and renaming is harmless, so every complete run of a net
    ends in the same net up to renaming and takes the same number of steps. */
module Confluence {
  import opened Collections
  import opened Wiring
  import opened Nets
  import opened Conservation
  import opened Measure
  import opened Polarity

  // ----- firings -----

  datatype Firing = Firing(a: NodeId, b: NodeId, ids: seq<NodeId>)

  ghost predicate Enabled(net: Net, s: Firing) {
    Reducible(net, s.a, s.b) && |s.ids| == |CreatedAt(net, s.a, s.b)| && Fresh(net, s.ids)
  }

  function Fired(net: Net, s: Firing): Net
    requires s.a in net.nodes && s.b in net.nodes && |s.ids| == |CreatedAt(net, s.a, s.b)|
  {
    Fire(net, s.a, s.b, s.ids)
  }

  ghost predicate HasKind(net: Net, k: Kind) {
    exists n :: n in net.nodes && net.nodes[n].kind == k
  }

  /** The nets of the uniqueness theorem: polarised, and not both a duplicator and
      a constructor. */
  ghost predicate Tame(net: Net) {
    WellWired(net) && Polarised(net) && !(HasKind(net, Duplicator) && HasKind(net, Constructor))
  }

  lemma TameIsRegular(net: Net, s: Firing)
    requires Tame(net) && Enabled(net, s)
    ensures Regular(net, s.a, s.b) && !Copying(net, s.a, s.b)
  {
    ReactingKinds(net, s.a, s.b);
    PolarisedIsRegular(net, s.a, s.b);
  }

  /** A firing makes no duplicator or constructor out of nets that have none. */
  lemma KindsStay(net: Net, s: Firing, n: NodeId)
    requires Tame(net) && Enabled(net, s) && n in Fired(net, s).nodes
    requires Fired(net, s).nodes[n].kind in {Duplicator, Constructor}
    ensures HasKind(net, Fired(net, s).nodes[n].kind)
  {
    hide Polarised, ApplyAll, EditsAt;
    TameIsRegular(net, s);
    ReactingKinds(net, s.a, s.b);
    var after, more := Fired(net, s), CreatedAt(net, s.a, s.b);
    AddNodesAll(net.nodes - {s.a, s.b}, s.ids, more);
    if n in s.ids {
      var i :| 0 <= i < |s.ids| && s.ids[i] == n;
      assert after.nodes[n] == more[i];
    }
  }

  lemma TameStays(net: Net, s: Firing)
    requires Tame(net) && Enabled(net, s)
    ensures Tame(Fired(net, s))
    ensures PortCount(Fired(net, s).nodes) + 2 <= PortCount(net.nodes)
  {
    hide Polarised, Paired, Fire, CreatedAt, EditsAt, Copying;
    TameIsRegular(net, s);
    FireConserves(net, s.a, s.b, s.ids);
    FirePolarised(net, s.a, s.b, s.ids);
    FireShrinks(net, s.a, s.b, s.ids);
    forall n | n in Fired(net, s).nodes && Fired(net, s).nodes[n].kind in {Duplicator, Constructor}
      ensures HasKind(net, Fired(net, s).nodes[n].kind)
    {
      KindsStay(net, s, n);
    }
  }

  // ----- different pairs commute -----

  lemma RewriteOwners(net: Net, r: Rewrite, k: nat, p: Port)
    requires Faithful(net, r) && k < |r.ops| && p in r.ops[k].Ports()
    ensures p.owner in {r.a, r.b} || p.owner in r.ids
  {
    if p in r.ops[k].Old() {
      assert PortOf(net.nodes[r.a], r.a, p) || PortOf(net.nodes[r.b], r.b, p);
    } else {
      assert p in r.ops[k].New();
      var i :| 0 <= i < |r.ids| && PortOf(r.created[i], r.ids[i], p);
    }
  }

  ghost predicate RewritesApart(r: Rewrite, q: Rewrite) {
    {r.a, r.b} !! {q.a, q.b} && forall n :: n in r.ids ==> n !in q.ids
  }

  lemma WiresCommute(net: Net, r: Rewrite, q: Rewrite)
    requires WellWired(net) && Faithful(net, r) && Faithful(net, q) && RewritesApart(r, q)
    ensures ApplyAll(ApplyAll(net.wires, r.ops), q.ops) == ApplyAll(ApplyAll(net.wires, q.ops), r.ops)
  {
    forall i, j | 0 <= i < |r.ops| && 0 <= j < |q.ops| ensures r.ops[i].Ports() !! q.ops[j].Ports() {
      forall p | p in r.ops[i].Ports() ensures p !in q.ops[j].Ports() {
        RewriteOwners(net, r, i, p);
        if p in q.ops[j].Ports() { RewriteOwners(net, q, j, p); }
      }
    }
    RewriteLinear(net, r);
    RewriteLinear(net, q);
    EditListsCommute(net.wires, r.ops, q.ops);
  }

  /** A rewrite leaves every other node and every wire between other nodes alone. */
  lemma OthersStay(net: Net, r: Rewrite, p: Port)
    requires WellWired(net) && Faithful(net, r)
    ensures forall n :: n in net.nodes && n !in {r.a, r.b} ==> n in Rewritten(net, r).nodes && Rewritten(net, r).nodes[n] == net.nodes[n]
    ensures p in net.wires && p.owner !in {r.a, r.b} && net.wires[p].owner !in {r.a, r.b} ==>
      p in Rewritten(net, r).wires && Rewritten(net, r).wires[p] == net.wires[p]
  {
    AddNodesAll(net.nodes - {r.a, r.b}, r.ids, r.created);
    if p in net.wires && p.owner !in {r.a, r.b} && net.wires[p].owner !in {r.a, r.b} {
      assert Live(net.nodes, p) && Live(net.nodes, net.wires[p]);
      forall k | 0 <= k < |r.ops| ensures p !in r.ops[k].Ports() && net.wires[p] !in r.ops[k].Ports() {
        if p in r.ops[k].Ports() { RewriteOwners(net, r, k, p); }
        if net.wires[p] in r.ops[k].Ports() { RewriteOwners(net, r, k, net.wires[p]); }
      }
      LookUntouched(net.wires, r.ops, p);
    }
  }

  lemma NodesCommute(nodes: NodeMap, r: Rewrite, q: Rewrite)
    requires |r.ids| == |r.created| && |q.ids| == |q.created| && Distinct(r.ids) && Distinct(q.ids)
    requires forall n :: n in r.ids || n in q.ids ==> n !in nodes
    requires r.a in nodes && r.b in nodes && q.a in nodes && q.b in nodes && RewritesApart(r, q)
    ensures AddNodes(AddNodes(nodes - {r.a, r.b}, r.ids, r.created) - {q.a, q.b}, q.ids, q.created)
         == AddNodes(AddNodes(nodes - {q.a, q.b}, q.ids, q.created) - {r.a, r.b}, r.ids, r.created)
  {
    var u, v := AddNodes(nodes - {r.a, r.b}, r.ids, r.created), AddNodes(nodes - {q.a, q.b}, q.ids, q.created);
    AddNodesAll(nodes - {r.a, r.b}, r.ids, r.created);
    AddNodesAll(nodes - {q.a, q.b}, q.ids, q.created);
    AddNodesAll(u - {q.a, q.b}, q.ids, q.created);
    AddNodesAll(v - {r.a, r.b}, r.ids, r.created);
    var l, m := AddNodes(u - {q.a, q.b}, q.ids, q.created), AddNodes(v - {r.a, r.b}, r.ids, r.created);
    forall n ensures n in l <==> n in m {}
    forall n | n in l ensures l[n] == m[n] {
      if n in r.ids { var i :| 0 <= i < |r.ids| && r.ids[i] == n; }
      else if n in q.ids { var i :| 0 <= i < |q.ids| && q.ids[i] == n; }
    }
  }

  /** Rewrites of disjoint pairs, with their fresh ids apart, commute exactly. */
  lemma RewritesCommute(net: Net, r: Rewrite, q: Rewrite)
    requires WellWired(net) && Faithful(net, r) && Faithful(net, q) && RewritesApart(r, q)
    ensures Rewritten(Rewritten(net, r), q) == Rewritten(Rewritten(net, q), r)
  {
    WiresCommute(net, r, q);
    NodesCommute(net.nodes, r, q);
  }

  /** A node has one principal port, so different pairs share no node. */
  lemma PairsDisjoint(net: Net, s: Firing, t: Firing)
    requires WellWired(net) && Enabled(net, s) && Enabled(net, t) && {s.a, s.b} != {t.a, t.b}
    ensures {s.a, s.b} !! {t.a, t.b}
  {
    assert net.wires[P(s.b)] == P(s.a) && net.wires[P(t.b)] == P(t.a);
  }

  ghost predicate FiringsApart(s: Firing, t: Firing) {
    {s.a, s.b} !! {t.a, t.b} && forall n :: n in s.ids ==> n !in t.ids
  }

  lemma StaysEnabled(net: Net, s: Firing, t: Firing)
    requires WellWired(net) && Enabled(net, s) && Regular(net, s.a, s.b)
    requires Enabled(net, t) && FiringsApart(s, t)
    ensures Enabled(Fired(net, s), t)
    ensures RewriteAt(Fired(net, s), t.a, t.b, t.ids) == RewriteAt(net, t.a, t.b, t.ids)
  {
    FireFaithful(net, s.a, s.b, s.ids);
    var r := RewriteAt(net, s.a, s.b, s.ids);
    assert {r.a, r.b} == {s.a, s.b};
    OthersStay(net, r, P(t.a));
    AddNodesAll(net.nodes - {r.a, r.b}, r.ids, r.created);
  }

  /** Firing two different pairs in either order gives the same net. */
  lemma FiringsCommute(net: Net, s: Firing, t: Firing)
    requires WellWired(net) && Enabled(net, s) && Regular(net, s.a, s.b)
    requires Enabled(net, t) && Regular(net, t.a, t.b) && FiringsApart(s, t)
    ensures Enabled(Fired(net, s), t) && Enabled(Fired(net, t), s)
    ensures Fired(Fired(net, s), t) == Fired(Fired(net, t), s)
  {
    var r, q := RewriteAt(net, s.a, s.b, s.ids), RewriteAt(net, t.a, t.b, t.ids);
    StaysEnabled(net, s, t);
    StaysEnabled(net, t, s);
    var ns, nt := Fired(net, s), Fired(net, t);
    FireIsRewrite(ns, t.a, t.b, t.ids);
    FireIsRewrite(nt, s.a, s.b, s.ids);
    FireFaithful(net, s.a, s.b, s.ids);
    FireFaithful(net, t.a, t.b, t.ids);
    RewritesCommute(net, r, q);
  }
}
