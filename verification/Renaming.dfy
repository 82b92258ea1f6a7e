/** Isomorphism of nets up to the names of their nodes, and equivariance: firing
    corresponding pairs of isomorphic nets gives isomorphic nets, whatever fresh
    ids either side draws. */
module Renaming {
  import opened Collections
  import opened Wiring
  import opened Nets
  import opened Conservation
  import opened Confluence

  // ----- isomorphism -----

  type Naming = map<NodeId, NodeId>

  ghost predicate IsIso(f: Naming, g: Naming, net: Net, other: Net) {
    && f.Keys == net.nodes.Keys && g.Keys == other.nodes.Keys
    && Alike(f, g, net.wires, other.wires)
    && forall n :: n in net.nodes ==> other.nodes[f[n]] == net.nodes[n]
  }

  /** The two nets differ only in the names of their nodes. */
  ghost predicate Iso(net: Net, other: Net) {
    exists f, g :: IsIso(f, g, net, other)
  }

  function Identity(nodes: NodeMap): (f: Naming)
    ensures f.Keys == nodes.Keys && forall n :: n in f ==> f[n] == n
  {
    map n | n in nodes :: n
  }

  lemma IsoReflexive(net: Net)
    requires WellWired(net)
    ensures IsIso(Identity(net.nodes), Identity(net.nodes), net, net)
  {
  }

  lemma IsoFlip(f: Naming, g: Naming, net: Net, other: Net)
    requires IsIso(f, g, net, other)
    ensures IsIso(g, f, other, net)
  {
    forall q: Port | q.owner in g
      ensures AlikeAt(g, other.wires, net.wires, q)
      ensures q in other.wires ==> other.wires[q].owner in g
    {
      var p := Rename(g, q);
      assert Rename(f, p) == q;
      assert AlikeAt(f, net.wires, other.wires, p);
    }
  }

  lemma IsoSymmetric(net: Net, other: Net)
    requires Iso(net, other)
    ensures Iso(other, net)
  {
    var f, g :| IsIso(f, g, net, other);
    IsoFlip(f, g, net, other);
  }

  function Compose(f: Naming, g: Naming): Naming {
    map n | n in f && f[n] in g :: g[f[n]]
  }

  lemma ComposeInverse(f: Naming, g: Naming, h: Naming, k: Naming)
    requires Inverse(f, g) && Inverse(h, k) && g.Keys == h.Keys
    ensures Inverse(Compose(f, h), Compose(k, g))
    ensures Compose(f, h).Keys == f.Keys && Compose(k, g).Keys == k.Keys
  {
  }

  lemma AlikeCompose(f: Naming, g: Naming, h: Naming, k: Naming, w: Wires, m: Wires, v: Wires)
    requires Alike(f, g, w, m) && Alike(h, k, m, v) && g.Keys == h.Keys
    ensures Alike(Compose(f, h), Compose(k, g), w, v)
  {
    var c, d := Compose(f, h), Compose(k, g);
    ComposeInverse(f, g, h, k);
    forall p: Port | p.owner in c ensures AlikeAt(c, w, v, p) {
      assert Rename(c, p) == Rename(h, Rename(f, p));
      assert AlikeAt(f, w, m, p) && AlikeAt(h, m, v, Rename(f, p));
    }
  }

  lemma IsoCompose(f: Naming, g: Naming, h: Naming, k: Naming, net: Net, mid: Net, other: Net)
    requires IsIso(f, g, net, mid) && IsIso(h, k, mid, other)
    ensures IsIso(Compose(f, h), Compose(k, g), net, other)
  {
    ComposeInverse(f, g, h, k);
    AlikeCompose(f, g, h, k, net.wires, mid.wires, other.wires);
  }

  lemma IsoTransitive(net: Net, mid: Net, other: Net)
    requires Iso(net, mid) && Iso(mid, other)
    ensures Iso(net, other)
  {
    var f, g := Witness(net, mid);
    var h, k := Witness(mid, other);
    IsoCompose(f, g, h, k, net, mid, other);
  }

  lemma Witness(net: Net, other: Net) returns (f: Naming, g: Naming)
    requires Iso(net, other)
    ensures IsIso(f, g, net, other)
  {
    f, g :| IsIso(f, g, net, other);
  }

  // ----- firing respects isomorphism -----

  /** f together with the naming of the new nodes on both sides. */
  function Extend(f: Naming, ids: seq<NodeId>, jds: seq<NodeId>): Naming
    requires |ids| == |jds|
    decreases |ids|
  {
    if ids == [] then f else Extend(f[ids[0] := jds[0]], ids[1..], jds[1..])
  }

  lemma {:induction false} ExtendLooks(f: Naming, ids: seq<NodeId>, jds: seq<NodeId>)
    requires |ids| == |jds| && Distinct(ids)
    ensures forall n :: n in Extend(f, ids, jds) <==> n in f || n in ids
    ensures forall n :: n in f && n !in ids ==> n in Extend(f, ids, jds) && Extend(f, ids, jds)[n] == f[n]
    ensures forall i :: 0 <= i < |ids| ==> ids[i] in Extend(f, ids, jds) && Extend(f, ids, jds)[ids[i]] == jds[i]
    decreases |ids|
  {
    if ids != [] {
      ExtendLooks(f[ids[0] := jds[0]], ids[1..], jds[1..]);
      var e := Extend(f, ids, jds);
      forall i | 0 <= i < |ids| ensures ids[i] in e && e[ids[i]] == jds[i] {
        if i > 0 {
          assert ids[1..][i - 1] == ids[i] && jds[1..][i - 1] == jds[i];
        } else {
          assert ids[0] !in ids[1..];
        }
      }
    }
  }

  lemma ExtendInverse(f: Naming, g: Naming, ids: seq<NodeId>, jds: seq<NodeId>)
    requires Inverse(f, g) && |ids| == |jds| && Distinct(ids) && Distinct(jds)
    requires (forall n :: n in ids ==> n !in f) && (forall m :: m in jds ==> m !in g)
    ensures Inverse(Extend(f, ids, jds), Extend(g, jds, ids))
  {
    var e, d := Extend(f, ids, jds), Extend(g, jds, ids);
    ExtendLooks(f, ids, jds);
    ExtendLooks(g, jds, ids);
    forall n | n in e ensures e[n] in d && d[e[n]] == n {
      if n in ids { var i :| 0 <= i < |ids| && ids[i] == n; assert d[jds[i]] == ids[i]; }
    }
    forall m | m in d ensures d[m] in e && e[d[m]] == m {
      if m in jds { var i :| 0 <= i < |jds| && jds[i] == m; assert e[ids[i]] == jds[i]; }
    }
  }

  lemma ExtendAlike(f: Naming, g: Naming, net: Net, other: Net, ids: seq<NodeId>, jds: seq<NodeId>)
    requires WellWired(net) && IsIso(f, g, net, other)
    requires |ids| == |jds| && Fresh(net, ids) && Fresh(other, jds)
    ensures Alike(Extend(f, ids, jds), Extend(g, jds, ids), net.wires, other.wires)
  {
    var e, d := Extend(f, ids, jds), Extend(g, jds, ids);
    ExtendLooks(f, ids, jds);
    ExtendLooks(g, jds, ids);
    ExtendInverse(f, g, ids, jds);
    forall p: Port | p.owner in e ensures AlikeAt(e, net.wires, other.wires, p) {
      if p.owner in ids {
        var i :| 0 <= i < |ids| && ids[i] == p.owner;
        assert e[p.owner] == jds[i] && p !in net.wires;
        assert Rename(e, p) !in other.wires;
      } else {
        assert AlikeAt(f, net.wires, other.wires, p);
      }
    }
  }

  lemma RenameDuplicate(f: Naming, a: NodeId, x: Node, b: NodeId, y: Node, ids: seq<NodeId>, jds: seq<NodeId>)
    requires a in f && b in f && |x.aux| == 2
    requires |ids| == |jds| == |Created(Duplicate, x, y, b)|
    requires forall i :: 0 <= i < |ids| ==> ids[i] in f && f[ids[i]] == jds[i]
    ensures RenameOps(f, Edits(Duplicate, a, x, b, y, ids)) == Edits(Duplicate, f[a], x, f[b], y, jds)
  {
    var l, r := RenameOps(f, Edits(Duplicate, a, x, b, y, ids)), Edits(Duplicate, f[a], x, f[b], y, jds);
    DuplicateShape(a, x, b, y, ids, 0);
    DuplicateShape(f[a], x, f[b], y, jds, 0);
    forall k | 0 <= k < |l| ensures l[k] == r[k] {
      DuplicateShape(a, x, b, y, ids, k);
      DuplicateShape(f[a], x, f[b], y, jds, k);
    }
  }

  lemma RenameEdits(f: Naming, rule: Rule, a: NodeId, x: Node, b: NodeId, y: Node, ids: seq<NodeId>, jds: seq<NodeId>)
    requires a in f && b in f && (rule == Duplicate ==> |x.aux| == 2)
    requires |ids| == |jds| == |Created(rule, x, y, b)|
    requires forall i :: 0 <= i < |ids| ==> ids[i] in f && f[ids[i]] == jds[i]
    ensures RenameOps(f, Edits(rule, a, x, b, y, ids)) == Edits(rule, f[a], x, f[b], y, jds)
  {
    if rule == Duplicate {
      RenameDuplicate(f, a, x, b, y, ids, jds);
    } else {
      var l, r := RenameOps(f, Edits(rule, a, x, b, y, ids)), Edits(rule, f[a], x, f[b], y, jds);
      forall k | 0 <= k < |l| ensures l[k] == r[k] {
        match rule case Annihilate => case Erase => case Select => case Project =>
      }
    }
  }

  /** An isomorphism carries reacting pairs over, with the same rule and created nodes. */
  lemma IsoReducible(f: Naming, g: Naming, net: Net, other: Net, a: NodeId, b: NodeId)
    requires IsIso(f, g, net, other) && Reducible(net, a, b)
    ensures Reducible(other, f[a], f[b])
    ensures Lead(other, f[a], f[b]) == f[Lead(net, a, b)] && Other(other, f[a], f[b]) == f[Other(net, a, b)]
  {
    assert AlikeAt(f, net.wires, other.wires, P(a));
  }

  lemma IsoCreated(f: Naming, g: Naming, net: Net, other: Net, a: NodeId, b: NodeId)
    requires IsIso(f, g, net, other) && Reducible(net, a, b) && Regular(net, a, b)
    ensures Reducible(other, f[a], f[b])
    ensures CreatedAt(other, f[a], f[b]) == CreatedAt(net, a, b)
  {
    IsoReducible(f, g, net, other, a, b);
  }

  // ----- renaming any faithful rewrite -----

  function RenameRewrite(e: Naming, r: Rewrite, jds: seq<NodeId>): Rewrite
    requires r.a in e && r.b in e
  {
    Rewrite(e[r.a], e[r.b], jds, r.created, RenameOps(e, r.ops))
  }

  /** The names after a rewrite: survivors keep theirs, new nodes are matched in order. */
  function NamesAfter(f: Naming, gone: set<NodeId>, ids: seq<NodeId>, jds: seq<NodeId>): Naming
    requires |ids| == |jds|
  {
    Extend(f, ids, jds) - gone
  }

  lemma NodeAfter(f: Naming, g: Naming, net: Net, other: Net, r: Rewrite, jds: seq<NodeId>, n: NodeId)
    requires IsIso(f, g, net, other) && Faithful(net, r) && |jds| == |r.ids| && Fresh(other, jds)
    requires n in Rewritten(net, r).nodes
    ensures
      var e, v := Extend(f, r.ids, jds), AddNodes(other.nodes - {f[r.a], f[r.b]}, jds, r.created);
      n in e && n !in {r.a, r.b} && e[n] in v && v[e[n]] == Rewritten(net, r).nodes[n]
  {
    ExtendLooks(f, r.ids, jds);
    AddNodesAll(net.nodes - {r.a, r.b}, r.ids, r.created);
    AddNodesAll(other.nodes - {f[r.a], f[r.b]}, jds, r.created);
    if n in r.ids {
      var i :| 0 <= i < |r.ids| && r.ids[i] == n;
      assert Extend(f, r.ids, jds)[n] == jds[i];
    } else {
      assert g[f[n]] == n && g[f[r.a]] == r.a && g[f[r.b]] == r.b;
    }
  }

  lemma KeysAfter(f: Naming, nodes: NodeMap, gone: set<NodeId>, ids: seq<NodeId>, jds: seq<NodeId>, more: seq<Node>)
    requires f.Keys == nodes.Keys && |ids| == |jds| == |more| && Distinct(ids) && forall n :: n in ids ==> n !in gone
    ensures NamesAfter(f, gone, ids, jds).Keys == AddNodes(nodes - gone, ids, more).Keys
  {
    ExtendLooks(f, ids, jds);
    AddNodesAll(nodes - gone, ids, more);
  }

  /** Restricting names to the survivors, once no wire touches the others. */
  lemma Restrict(e: Naming, d: Naming, w: Wires, v: Wires, gone: set<NodeId>, lost: set<NodeId>)
    requires Alike(e, d, w, v)
    requires forall n :: n in gone ==> n in e && e[n] in lost
    requires forall m :: m in lost ==> m in d && d[m] in gone
    requires forall p :: p in w ==> p.owner !in gone && w[p].owner !in gone
    ensures Alike(e - gone, d - lost, w, v)
  {
    forall p: Port | p.owner in e - gone ensures AlikeAt(e - gone, w, v, p) {
      assert AlikeAt(e, w, v, p);
    }
    forall q | q in v ensures q.owner !in lost {
      var p := Rename(d, q);
      assert AlikeAt(e, w, v, p) && Rename(e, p) == q;
    }
  }

  lemma WiresAfterAlike(f: Naming, g: Naming, net: Net, other: Net, r: Rewrite, jds: seq<NodeId>)
    requires WellWired(net) && IsIso(f, g, net, other) && Faithful(net, r) && |jds| == |r.ids| && Fresh(other, jds)
    ensures
      var e, d := Extend(f, r.ids, jds), Extend(g, jds, r.ids);
      Alike(e, d, ApplyAll(net.wires, r.ops), ApplyAll(other.wires, RenameOps(e, r.ops)))
  {
    var e, d := Extend(f, r.ids, jds), Extend(g, jds, r.ids);
    ExtendLooks(f, r.ids, jds);
    ExtendAlike(f, g, net, other, r.ids, jds);
    forall k | 0 <= k < |r.ops| ensures Within(e, r.ops[k]) {
      forall p | p in r.ops[k].Ports() ensures p.owner in e { RewriteOwners(net, r, k, p); }
    }
    ApplyAllAlike(e, d, net.wires, other.wires, r.ops);
  }

  lemma NoWireToRetired(net: Net, r: Rewrite)
    requires WellWired(net) && Faithful(net, r)
    ensures forall p :: p in Rewritten(net, r).wires ==>
      p.owner !in {r.a, r.b} && Rewritten(net, r).wires[p].owner !in {r.a, r.b}
  {
    RewriteConserves(net, r);
    var after := Rewritten(net, r);
    AddNodesAll(net.nodes - {r.a, r.b}, r.ids, r.created);
    forall p | p in after.wires ensures p.owner !in {r.a, r.b} && after.wires[p].owner !in {r.a, r.b} {
      assert Live(after.nodes, p) && Live(after.nodes, after.wires[p]);
    }
  }

  lemma RetiredMatch(f: Naming, g: Naming, ids: seq<NodeId>, jds: seq<NodeId>, a: NodeId)
    requires Inverse(f, g) && |ids| == |jds| && Distinct(ids) && Distinct(jds) && a in f && a !in ids && f[a] !in jds
    ensures a in Extend(f, ids, jds) && Extend(f, ids, jds)[a] == f[a]
    ensures f[a] in Extend(g, jds, ids) && Extend(g, jds, ids)[f[a]] == a
  {
    ExtendLooks(f, ids, jds);
    ExtendLooks(g, jds, ids);
  }

  lemma SurvivorsAlike(f: Naming, g: Naming, net: Net, other: Net, r: Rewrite, jds: seq<NodeId>)
    requires WellWired(net) && IsIso(f, g, net, other) && Faithful(net, r) && |jds| == |r.ids| && Fresh(other, jds)
    ensures
      var e, d := Extend(f, r.ids, jds), Extend(g, jds, r.ids);
      Alike(e - {r.a, r.b}, d - {f[r.a], f[r.b]}, ApplyAll(net.wires, r.ops), ApplyAll(other.wires, RenameOps(e, r.ops)))
  {
    var e, d := Extend(f, r.ids, jds), Extend(g, jds, r.ids);
    WiresAfterAlike(f, g, net, other, r, jds);
    RetiredMatch(f, g, r.ids, jds, r.a);
    RetiredMatch(f, g, r.ids, jds, r.b);
    NoWireToRetired(net, r);
    Restrict(e, d, ApplyAll(net.wires, r.ops), ApplyAll(other.wires, RenameOps(e, r.ops)), {r.a, r.b}, {f[r.a], f[r.b]});
  }

  /** A renamed rewrite of an isomorphic net gives an isomorphic net. */
  lemma RewriteIso(f: Naming, g: Naming, net: Net, other: Net, r: Rewrite, jds: seq<NodeId>)
    requires WellWired(net) && IsIso(f, g, net, other) && Faithful(net, r) && |jds| == |r.ids| && Fresh(other, jds)
    ensures r.a in Extend(f, r.ids, jds) && r.b in Extend(f, r.ids, jds)
    ensures IsIso(NamesAfter(f, {r.a, r.b}, r.ids, jds), NamesAfter(g, {f[r.a], f[r.b]}, jds, r.ids),
                  Rewritten(net, r), Rewritten(other, RenameRewrite(Extend(f, r.ids, jds), r, jds)))
  {
    ExtendLooks(f, r.ids, jds);
    SurvivorsAlike(f, g, net, other, r, jds);
    KeysAfter(f, net.nodes, {r.a, r.b}, r.ids, jds, r.created);
    KeysAfter(g, other.nodes, {f[r.a], f[r.b]}, jds, r.ids, r.created);
    forall n | n in Rewritten(net, r).nodes
      ensures Rewritten(other, RenameRewrite(Extend(f, r.ids, jds), r, jds)).nodes[NamesAfter(f, {r.a, r.b}, r.ids, jds)[n]]
           == Rewritten(net, r).nodes[n]
    {
      NodeAfter(f, g, net, other, r, jds, n);
    }
  }

  lemma RewriteIsoWith(f: Naming, g: Naming, net: Net, other: Net, r: Rewrite, q: Rewrite) returns (h: Naming, k: Naming)
    requires WellWired(net) && IsIso(f, g, net, other) && Faithful(net, r)
    requires |q.ids| == |r.ids| && Fresh(other, q.ids)
    requires r.a in Extend(f, r.ids, q.ids) && r.b in Extend(f, r.ids, q.ids)
    requires q == RenameRewrite(Extend(f, r.ids, q.ids), r, q.ids)
    ensures IsIso(h, k, Rewritten(net, r), Rewritten(other, q))
    ensures forall n :: n in net.nodes && n !in {r.a, r.b} ==> n in h && h[n] == f[n]
  {
    RewriteIso(f, g, net, other, r, q.ids);
    h, k := NamesAfter(f, {r.a, r.b}, r.ids, q.ids), NamesAfter(g, {f[r.a], f[r.b]}, q.ids, r.ids);
    ExtendLooks(f, r.ids, q.ids);
  }

  ghost predicate Matches(f: Naming, s: Firing, t: Firing) {
    s.a in f && s.b in f && t.a == f[s.a] && t.b == f[s.b] && |t.ids| == |s.ids|
  }

  lemma RenameRewriteAt(f: Naming, g: Naming, net: Net, other: Net, s: Firing, t: Firing)
    requires WellWired(net) && Enabled(net, s) && Regular(net, s.a, s.b) && IsIso(f, g, net, other)
    requires Matches(f, s, t) && Fresh(other, t.ids)
    ensures Enabled(other, t)
    ensures s.a in Extend(f, s.ids, t.ids) && s.b in Extend(f, s.ids, t.ids)
    ensures RewriteAt(other, t.a, t.b, t.ids)
         == RenameRewrite(Extend(f, s.ids, t.ids), RewriteAt(net, s.a, s.b, s.ids), t.ids)
  {
    IsoCreated(f, g, net, other, s.a, s.b);
    IsoReducible(f, g, net, other, s.a, s.b);
    ExtendLooks(f, s.ids, t.ids);
    var r := RewriteAt(net, s.a, s.b, s.ids);
    RenameEdits(Extend(f, s.ids, t.ids), RuleAt(net, s.a, s.b), r.a, net.nodes[r.a], r.b, net.nodes[r.b], s.ids, t.ids);
  }

  /** Firing corresponding pairs of isomorphic nets, with any fresh ids on either
      side, gives isomorphic nets, and survivors keep their names. */
  lemma FireIso(f: Naming, g: Naming, net: Net, other: Net, s: Firing, t: Firing) returns (h: Naming, k: Naming)
    requires WellWired(net) && Enabled(net, s) && Regular(net, s.a, s.b) && IsIso(f, g, net, other)
    requires Matches(f, s, t) && Fresh(other, t.ids)
    ensures Enabled(other, t)
    ensures IsIso(h, k, Fired(net, s), Fired(other, t))
    ensures forall n :: n in net.nodes && n !in {s.a, s.b} ==> n in h && h[n] == f[n]
  {
    RenameRewriteAt(f, g, net, other, s, t);
    FireFaithful(net, s.a, s.b, s.ids);
    FireIsRewrite(other, t.a, t.b, t.ids);
    h, k := RewriteIsoWith(f, g, net, other, RewriteAt(net, s.a, s.b, s.ids), RewriteAt(other, t.a, t.b, t.ids));
  }
}
