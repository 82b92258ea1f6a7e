/** What a net of values, duplicators, switches and erasers computes: a value for each port, such
    that the ends of a wire agree, a duplicator's copies carry what it is fed, and a switch's output
    carries the branch that its condition selects. Reduction never changes the value of a port, so
    an eraser swallows exactly the value that its port was labelled with. */
module Labelling {
  import opened Wiring
  import opened Nets
  import opened Conservation
  import opened Polarity
  import opened Confluence
  import opened NormalForms
  import opened Dataflow

  type Labels = map<Port, Payload>

  /** An output has a value exactly when all inputs of its node have, and then the right one. */
  ghost predicate NodeLabelled(l: Labels, n: NodeId, x: Node) {
    match x.kind
    case Value => P(n) in l && l[P(n)] == x.payload
    case Duplicator =>
      && (A(n, 0) in l <==> P(n) in l) && (A(n, 1) in l <==> P(n) in l)
      && (P(n) in l ==> l[A(n, 0)] == l[A(n, 1)] == l[P(n)])
    case Switch =>
      && (A(n, 2) in l <==> P(n) in l && A(n, 0) in l && A(n, 1) in l)
      && (A(n, 2) in l ==> l[A(n, 2)] == l[A(n, if Truthy(l[P(n)]) then 0 else 1)])
    case _ => true
  }

  ghost predicate SameLabel(l: Labels, p: Port, q: Port) {
    p in l && q in l && l[p] == l[q]
  }

  ghost predicate Labelled(nodes: NodeMap, w: Wires, l: Labels) {
    && (forall p :: p in w ==> SameLabel(l, p, w[p]))
    && (forall p :: p in l ==> p.owner in nodes && (p in w || Emits(nodes, p)))
    && (forall n :: n in nodes ==> NodeLabelled(l, n, nodes[n]))
  }

  // ----- reduction -----

  /** The value of every port that a firing creates: that of the value copied, or of the branch discarded. */
  function CreatedLabel(l: Labels, rule: Rule, a: NodeId, b: NodeId, y: Node): Payload
  {
    var p := if rule == Select then A(a, 1 - Kept(y)) else P(b);
    if p in l then l[p] else NOTHING
  }

  function NewLabels(l: Labels, ids: seq<NodeId>, v: Payload): (more: Labels)
    ensures forall p :: p in more <==> p in l || (p.owner in ids && p.index == 0)
    ensures forall p :: p in more ==> more[p] == if p.owner in ids && p.index == 0 then v else l[p]
  {
    map p | p in l.Keys + (set n | n in ids :: P(n)) :: if p.owner in ids && p.index == 0 then v else l[p]
  }

  ghost predicate KeepsLabels(l: Labels, op: Op) {
    match op
    case Splice(x, y) => SameLabel(l, x, y)
    case Graft(x, h) => SameLabel(l, x, h)
    case Join(x, y) => SameLabel(l, x, y)
  }

  lemma KeepsLabelsBridges(l: Labels, op: Op)
    requires KeepsLabels(l, op)
    ensures Bridges(op, (p, q) => SameLabel(l, p, q))
  {
  }

  lemma RuleKeepsLabels(l: Labels, rule: Rule, a: NodeId, x: Node, b: NodeId, y: Node, ids: seq<NodeId>, k: nat)
    requires |ids| == |Created(rule, x, y, b)| && y.kind == Value && y.aux == []
    requires NodeLabelled(l, a, x) && NodeLabelled(l, b, y) && SameLabel(l, P(a), P(b))
    requires x.kind == Switch ==> A(a, 0) in l && A(a, 1) in l
    requires a !in ids && b !in ids
    requires match rule
      case Annihilate => false
      case Duplicate => x.kind == Duplicator && |x.aux| == 2
      case Erase => x.kind == Eraser
      case Select => x.kind == Switch && |x.aux| == 3
      case Project => false
    requires 1 <= k < |Edits(rule, a, x, b, y, ids)|
    ensures KeepsLabels(NewLabels(l, ids, CreatedLabel(l, rule, a, b, y)), Edits(rule, a, x, b, y, ids)[k])
  {
  }

  ghost predicate LabelledNet(net: Net, l: Labels) {
    Labelled(net.nodes, net.wires, l)
  }

  function FiredLabels(net: Net, l: Labels, s: Firing): Labels
    requires s.a in net.nodes && s.b in net.nodes
  {
    var (x, y) := (Lead(net, s.a, s.b), Other(net, s.a, s.b));
    NewLabels(l, s.ids, CreatedLabel(l, RuleAt(net, s.a, s.b), x, y, net.nodes[y]))
  }

  lemma InputsLabelled(net: Net, l: Labels, n: NodeId, i: nat)
    requires Closed(net) && LabelledNet(net, l) && Live(net.nodes, Port(n, i))
    ensures Port(n, i) in l
  {
    assert SameLabel(l, Port(n, i), net.wires[Port(n, i)]);
  }

  lemma EditKeepsLabels(net: Net, rank: Ranking, l: Labels, s: Firing, k: nat)
    requires Closed(net) && Ranked(net, rank) && LabelledNet(net, l) && Enabled(net, s)
    requires 1 <= k < |EditsAt(net, s.a, s.b, s.ids)|
    ensures KeepsLabels(FiredLabels(net, l, s), EditsAt(net, s.a, s.b, s.ids)[k])
  {
    hide Edits, Created, KeepsLabels, NodeLabelled, Labelled, CreatedLabel;
    ValuesReact(net, rank, s.a, s.b);
    var (x, y) := (Lead(net, s.a, s.b), Other(net, s.a, s.b));
    Reacting(net, l, s, x, y);
    RuleKeepsLabels(l, RuleAt(net, s.a, s.b), x, net.nodes[x], y, net.nodes[y], s.ids, k);
  }

  lemma Reacting(net: Net, l: Labels, s: Firing, x: NodeId, y: NodeId)
    requires Closed(net) && LabelledNet(net, l) && Enabled(net, s)
    requires x == Lead(net, s.a, s.b) && y == Other(net, s.a, s.b)
    ensures NodeLabelled(l, x, net.nodes[x]) && NodeLabelled(l, y, net.nodes[y]) && SameLabel(l, P(x), P(y))
    ensures net.nodes[x].kind == Switch ==> A(x, 0) in l && A(x, 1) in l
    ensures x !in s.ids && y !in s.ids
  {
    if net.nodes[x].kind == Switch {
      InputsLabelled(net, l, x, 1);
      InputsLabelled(net, l, x, 2);
    }
    assert SameLabel(l, P(s.a), P(s.b));
  }

  lemma FirstEdit(net: Net, s: Firing)
    requires WellWired(net) && Enabled(net, s)
    ensures var ops := EditsAt(net, s.a, s.b, s.ids);
            |ops| > 0 && ops[0].Splice? && ops[0].x in net.wires && net.wires[ops[0].x] == ops[0].y
  {
  }

  lemma FireSameLabels(net: Net, rank: Ranking, l: Labels, s: Firing)
    requires Closed(net) && Ranked(net, rank) && LabelledNet(net, l) && Enabled(net, s)
    ensures Related(Fired(net, s).wires, (p, q) => SameLabel(FiredLabels(net, l, s), p, q))
  {
    hide Edits, EditsAt, FiredLabels, KeepsLabels, Labelled, NodeLabelled, CreatedLabel, Faithful, Linear, ApplyAll;
    RankedIsTame(net, rank);
    TameIsRegular(net, s);
    var ops, more := EditsAt(net, s.a, s.b, s.ids), FiredLabels(net, l, s);
    var rel := (p, q) => SameLabel(more, p, q);
    FireFaithful(net, s.a, s.b, s.ids);
    RewriteLinear(net, RewriteAt(net, s.a, s.b, s.ids));
    forall k | 1 <= k < |ops| ensures Bridges(ops[k], rel) {
      EditKeepsLabels(net, rank, l, s, k);
      KeepsLabelsBridges(more, ops[k]);
    }
    StillSame(net, l, s);
    FirstEdit(net, s);
    EditsRelated(net.wires, ops, rel);
  }

  lemma StillSame(net: Net, l: Labels, s: Firing)
    requires WellWired(net) && LabelledNet(net, l) && Enabled(net, s)
    ensures Related(net.wires, (p, q) => SameLabel(FiredLabels(net, l, s), p, q))
  {
    forall p | p in net.wires ensures SameLabel(FiredLabels(net, l, s), p, net.wires[p]) {
      assert SameLabel(l, p, net.wires[p]);
    }
  }

  lemma CreatedLabelled(net: Net, rank: Ranking, l: Labels, s: Firing, i: nat)
    requires Closed(net) && Ranked(net, rank) && LabelledNet(net, l) && Enabled(net, s) && i < |s.ids|
    ensures NodeLabelled(FiredLabels(net, l, s), s.ids[i], CreatedAt(net, s.a, s.b)[i])
  {
    ValuesReact(net, rank, s.a, s.b);
    Reacting(net, l, s, Lead(net, s.a, s.b), Other(net, s.a, s.b));
  }

  /** Reduction keeps the value of every port that is still there. */
  lemma FireLabelled(net: Net, rank: Ranking, l: Labels, s: Firing) returns (after: Labels)
    requires Closed(net) && Ranked(net, rank) && LabelledNet(net, l) && Enabled(net, s)
    ensures LabelledNet(Fired(net, s), after)
    ensures forall p :: p in Fired(net, s).wires && p.owner in net.nodes ==> SameLabel(after, p, p) && p in l && after[p] == l[p]
  {
    hide Ranked, NodeLabelled, FiredLabels;
    var next, more := Fired(net, s), FiredLabels(net, l, s);
    FireSameLabels(net, rank, l, s);
    FireRanked(net, rank, s);
    after := map p | p in more && p in next.wires :: more[p];
    forall p | p in next.wires ensures SameLabel(after, p, next.wires[p]) {
      assert SameLabel(more, p, next.wires[p]);
    }
    forall n | n in next.nodes ensures NodeLabelled(after, n, next.nodes[n]) {
      NextNode(net, rank, l, s, n);
      RestrictedNode(next, more, after, n);
    }
    OldLabels(net, l, s);
  }

  lemma OldLabels(net: Net, l: Labels, s: Firing)
    requires Closed(net) && LabelledNet(net, l) && Enabled(net, s)
    ensures var more := FiredLabels(net, l, s);
            forall p: Port :: p.owner in net.nodes ==> (p in more <==> p in l) && (p in l ==> more[p] == l[p])
  {
  }

  lemma RestrictedNode(next: Net, more: Labels, after: Labels, n: NodeId)
    requires Closed(next) && n in next.nodes && NodeLabelled(more, n, next.nodes[n])
    requires after == map p | p in more && p in next.wires :: more[p]
    ensures NodeLabelled(after, n, next.nodes[n])
  {
    assert Live(next.nodes, P(n));

    if next.nodes[n].kind == Duplicator || next.nodes[n].kind == Switch {
      assert Live(next.nodes, A(n, 0)) && Live(next.nodes, A(n, 1));
    }
    if next.nodes[n].kind == Switch { assert Live(next.nodes, A(n, 2)); }
  }

  lemma NextNode(net: Net, rank: Ranking, l: Labels, s: Firing, n: NodeId)
    requires Closed(net) && Ranked(net, rank) && LabelledNet(net, l) && Enabled(net, s) && n in Fired(net, s).nodes
    ensures NodeLabelled(FiredLabels(net, l, s), n, Fired(net, s).nodes[n])
  {
    hide NodeLabelled, FiredLabels, Ranked;
    AddNodesAll(net.nodes - {s.a, s.b}, s.ids, CreatedAt(net, s.a, s.b));
    if n in s.ids {
      var i :| 0 <= i < |s.ids| && s.ids[i] == n;
      CreatedLabelled(net, rank, l, s, i);
    } else {
      OldLabels(net, l, s);
      SameNode(l, FiredLabels(net, l, s), n, net.nodes[n]);
    }
  }

  lemma SameNode(l: Labels, more: Labels, n: NodeId, x: Node)
    requires NodeLabelled(l, n, x)
    requires forall i: nat :: (Port(n, i) in more <==> Port(n, i) in l) && (Port(n, i) in l ==> more[Port(n, i)] == l[Port(n, i)])
    ensures NodeLabelled(more, n, x)
  {
  }

  /** The first firing that takes e feeds it the value v. */
  ghost predicate Swallows(net: Net, run: seq<Firing>, e: NodeId, v: Payload)
    requires CanRun(net, run)
    decreases |run|
  {
    run != [] &&
    if e == run[0].a then net.nodes[run[0].b].kind == Value && net.nodes[run[0].b].payload == v
    else if e == run[0].b then net.nodes[run[0].a].kind == Value && net.nodes[run[0].a].payload == v
    else Swallows(Fired(net, run[0]), run[1..], e, v)
  }

  lemma TakesValue(net: Net, rank: Ranking, l: Labels, s: Firing, e: NodeId)
    requires Closed(net) && Ranked(net, rank) && LabelledNet(net, l) && Enabled(net, s)
    requires e in {s.a, s.b} && net.nodes[e].kind == Eraser
    ensures P(e) in l
    ensures var f := if e == s.a then s.b else s.a; net.nodes[f].kind == Value && net.nodes[f].payload == l[P(e)]
  {
    ValuesReact(net, rank, s.a, s.b);
    var f := if e == s.a then s.b else s.a;
    assert net.wires[P(e)] == P(f);
    assert SameLabel(l, P(e), P(f)) && NodeLabelled(l, f, net.nodes[f]);
  }

  lemma Survives(net: Net, s: Firing, e: NodeId)
    requires Enabled(net, s) && e in net.nodes && e !in {s.a, s.b}
    ensures e in Fired(net, s).nodes && Fired(net, s).nodes[e] == net.nodes[e]
  {
    AddNodesAll(net.nodes - {s.a, s.b}, s.ids, CreatedAt(net, s.a, s.b));
  }

  /** In every complete run, in whatever order pairs fire, each eraser swallows the value of its port. */
  lemma {:induction false} EraserSwallows(net: Net, l: Labels, run: seq<Firing>, e: NodeId)
    requires DataflowNet(net) && LabelledNet(net, l) && CanRun(net, run) && NormalForm(Result(net, run))
    requires e in net.nodes && net.nodes[e].kind == Eraser
    ensures P(e) in l && Swallows(net, run, e, l[P(e)])
    decreases |run|
  {
    hide Ranked, LabelledNet, Fire;
    var rank :| Ranked(net, rank);
    if run == [] {
      NeverDeadlocks(net, rank);
      assert false;
    } else if e in {run[0].a, run[0].b} {
      TakesValue(net, rank, l, run[0], e);
    } else {
      var next := FireLabelled(net, rank, l, run[0]);
      FireRanked(net, rank, run[0]);
      Survives(net, run[0], e);
      EraserBound(Fired(net, run[0]), e);
      EraserSwallows(Fired(net, run[0]), next, run[1..], e);
    }
  }

  lemma EraserBound(net: Net, e: NodeId)
    requires Closed(net) && e in net.nodes
    ensures P(e) in net.wires
  {
    assert Live(net.nodes, P(e));
  }

  // ----- a net has only one labelling -----

  ghost predicate AgreeAt(nodes: NodeMap, l: Labels, m: Labels, n: NodeId) {
    forall p :: Live(nodes, p) && p.owner == n ==> p in l && p in m && l[p] == m[p]
  }

  lemma InputAgrees(net: Net, rank: Ranking, l: Labels, m: Labels, p: Port)
    requires Closed(net) && Ranked(net, rank) && LabelledNet(net, l) && LabelledNet(net, m)
    requires Live(net.nodes, p) && !Emits(net.nodes, p) && p.owner in rank
    requires forall k :: k in net.nodes && k in rank && rank[k] < rank[p.owner] ==> AgreeAt(net.nodes, l, m, k)
    ensures SameLabel(l, p, p) && SameLabel(m, p, p) && l[p] == m[p]
  {
    var q := net.wires[p];
    assert Flows(net.nodes, rank, p, q) && Live(net.nodes, q) && AgreeAt(net.nodes, l, m, q.owner);
    assert SameLabel(l, p, q) && SameLabel(m, p, q);
  }

  lemma NodeAgrees(net: Net, rank: Ranking, l: Labels, m: Labels, n: NodeId)
    requires Closed(net) && Ranked(net, rank) && LabelledNet(net, l) && LabelledNet(net, m)
    requires n in net.nodes && n in rank
    requires forall k :: k in net.nodes && k in rank && rank[k] < rank[n] ==> AgreeAt(net.nodes, l, m, k)
    ensures AgreeAt(net.nodes, l, m, n)
  {
    hide NodeLabelled, Flows, Paired;
    assert NodeLabelled(l, n, net.nodes[n]) && NodeLabelled(m, n, net.nodes[n]);
    forall p | Live(net.nodes, p) && p.owner == n && !Emits(net.nodes, p) ensures AgreeOn(l, m, p) {
      InputAgrees(net, rank, l, m, p);
    }
    forall p | Live(net.nodes, p) && p.owner == n ensures AgreeOn(l, m, p) {
      if Emits(net.nodes, p) {
        Inputs(net, l, m, n);
        OutputAgrees(l, m, n, net.nodes[n], p.index);
      }
    }
  }

  predicate AgreeOn(l: Labels, m: Labels, p: Port) {
    p in l && p in m && l[p] == m[p]
  }

  lemma Inputs(net: Net, l: Labels, m: Labels, n: NodeId)
    requires WellFormed(net.nodes) && n in net.nodes
    requires forall p :: Live(net.nodes, p) && p.owner == n && !Emits(net.nodes, p) ==> AgreeOn(l, m, p)
    ensures forall i: nat :: i <= Arity(net.nodes[n].kind) && !Emits(net.nodes, Port(n, i)) ==> AgreeOn(l, m, Port(n, i))
  {
    forall i: nat | i <= Arity(net.nodes[n].kind) && !Emits(net.nodes, Port(n, i)) ensures AgreeOn(l, m, Port(n, i)) {
      assert Live(net.nodes, Port(n, i));
    }
  }

  lemma OutputAgrees(l: Labels, m: Labels, n: NodeId, x: Node, i: nat)
    requires NodeLabelled(l, n, x) && NodeLabelled(m, n, x) && x.kind in FLOW_KINDS && i <= Arity(x.kind)
    requires forall k: nat :: k <= Arity(x.kind) && !Emits(map[n := x], Port(n, k)) ==> AgreeOn(l, m, Port(n, k))
    ensures AgreeOn(l, m, Port(n, i))
  {
    if !Emits(map[n := x], Port(n, i)) {
    } else if x.kind == Duplicator {
      assert AgreeOn(l, m, Port(n, 0));
    } else if x.kind == Switch {
      assert AgreeOn(l, m, Port(n, 0)) && AgreeOn(l, m, Port(n, 1)) && AgreeOn(l, m, Port(n, 2));
    }
  }

  lemma RankCovers(net: Net, rank: Ranking, n: NodeId)
    requires Closed(net) && Ranked(net, rank) && n in net.nodes
    ensures n in rank
  {
    assert Live(net.nodes, P(n));
    assert Flows(net.nodes, rank, P(n), net.wires[P(n)]);
  }

  /** A closed net with acyclic data flow has at most one labelling. */
  lemma LabelsUnique(net: Net, l: Labels, m: Labels)
    requires DataflowNet(net) && LabelledNet(net, l) && LabelledNet(net, m)
    ensures forall p :: Live(net.nodes, p) ==> p in l && p in m && l[p] == m[p]
  {
    hide Ranked, LabelledNet, Closed, AgreeAt;
    var rank :| Ranked(net, rank);
    var bad := set n | n in net.nodes && !AgreeAt(net.nodes, l, m, n);
    forall n | n in net.nodes ensures n in rank { RankCovers(net, rank, n); }
    if bad != {} {
      var n := LeastRanked(bad, rank);
      NodeAgrees(net, rank, l, m, n);
      assert false;
    }
    forall p | Live(net.nodes, p) ensures p in l && p in m && l[p] == m[p] {
      assert p.owner !in bad;
      AgreeThere(net.nodes, l, m, p);
    }
  }

  lemma AgreeThere(nodes: NodeMap, l: Labels, m: Labels, p: Port)
    requires Live(nodes, p) && AgreeAt(nodes, l, m, p.owner)
    ensures p in l && p in m && l[p] == m[p]
  {
  }
}
