/** Nets of values, duplicators, switches and erasers in which data flows without
    cycles: the nets that first-order programs compile to. They always reduce to
    the empty net. */
module Dataflow {
  import opened Wiring
  import opened Nets
  import opened Conservation
  import opened Measure
  import opened Polarity
  import opened Confluence
  import opened NormalForms

  const FLOW_KINDS := {Value, Duplicator, Switch, Eraser}

  predicate Emits(nodes: NodeMap, p: Port)
    requires p.owner in nodes
  {
    match nodes[p.owner].kind
    case Value => true
    case Duplicator => p.index > 0
    case Switch => p.index == 3
    case _ => false
  }

  type Ranking = map<NodeId, int>

  /** Exactly one end emits, and its node ranks below the node of the other end. */
  ghost predicate Flows(nodes: NodeMap, rank: Ranking, p: Port, q: Port) {
    && p.owner in nodes && q.owner in nodes && p.owner in rank && q.owner in rank
    && Emits(nodes, p) != Emits(nodes, q)
    && if Emits(nodes, p) then rank[p.owner] < rank[q.owner] else rank[q.owner] < rank[p.owner]
  }

  ghost predicate Ranked(net: Net, rank: Ranking) {
    && (forall n :: n in net.nodes ==> net.nodes[n].kind in FLOW_KINDS)
    && (forall p :: p in net.wires ==> Flows(net.nodes, rank, p, net.wires[p]))
  }

  ghost predicate Acyclic(net: Net) {
    exists rank :: Ranked(net, rank)
  }

  lemma RankedIsTame(net: Net, rank: Ranking)
    requires WellWired(net) && Ranked(net, rank)
    ensures Tame(net)
  {
    forall p | p in net.wires ensures Agree(net.nodes, p, net.wires[p]) {
      assert Flows(net.nodes, rank, p, net.wires[p]);
      assert Live(net.nodes, p) && Live(net.nodes, net.wires[p]);
    }
  }

  /** In a ranked net only a value reacts: with a duplicator, a switch or an eraser. */
  lemma ValuesReact(net: Net, rank: Ranking, a: NodeId, b: NodeId)
    requires WellWired(net) && Ranked(net, rank) && Reducible(net, a, b)
    ensures var (x, y) := (net.nodes[Lead(net, a, b)], net.nodes[Other(net, a, b)]);
      && y.kind == Value && y.aux == []
      && match RuleAt(net, a, b)
         case Annihilate => false
         case Duplicate => x.kind == Duplicator
         case Erase => x.kind == Eraser
         case Select => x.kind == Switch
         case Project => false
  {
  }

  /** A value's copies rank like it; the eraser of a discarded branch ranks like the switch. */
  function RankOf(rank: Ranking, rule: Rule, x: NodeId, y: NodeId): int
    requires x in rank && y in rank
  {
    if rule == Select then rank[x] else rank[y]
  }

  function RankAfter(rank: Ranking, ids: seq<NodeId>, r: int): (s: Ranking)
    ensures forall i :: 0 <= i < |ids| ==> ids[i] in s && s[ids[i]] == r
    ensures forall n :: n in rank && n !in ids ==> n in s && s[n] == rank[n]
  {
    rank + map n | n in ids :: r
  }

  ghost predicate KeepsFlow(nodes: NodeMap, rank: Ranking, op: Op) {
    && (forall p :: p in op.Ports() ==> p.owner in nodes && p.owner in rank)
    && match op
       case Splice(x, y) => Emits(nodes, x) != Emits(nodes, y) && rank[x.owner] == rank[y.owner]
       case Graft(x, h) => Emits(nodes, h) == Emits(nodes, x) &&
         if Emits(nodes, x) then rank[h.owner] <= rank[x.owner] else rank[h.owner] >= rank[x.owner]
       case Join(x, y) => Flows(nodes, rank, x, y)
  }

  lemma KeepsFlowBridges(nodes: NodeMap, rank: Ranking, op: Op)
    requires KeepsFlow(nodes, rank, op)
    ensures Bridges(op, (p, q) => Flows(nodes, rank, p, q))
  {
  }

  lemma RuleKeepsFlow(all: NodeMap, rank: Ranking, rule: Rule, a: NodeId, x: Node, b: NodeId, y: Node, ids: seq<NodeId>, k: nat)
    requires Hosts(all, a, x, b, y, ids, Created(rule, x, y, b)) && y.kind == Value && y.aux == []
    requires a in rank && b in rank && rank[b] < rank[a] && forall i :: 0 <= i < |ids| ==> ids[i] in rank && rank[ids[i]] == RankOf(rank, rule, a, b)
    requires match rule
      case Annihilate => false
      case Duplicate => x.kind == Duplicator && |x.aux| == 2
      case Erase => x.kind == Eraser
      case Select => x.kind == Switch && |x.aux| == 3
      case Project => false
    requires 1 <= k < |Edits(rule, a, x, b, y, ids)|
    ensures KeepsFlow(all, rank, Edits(rule, a, x, b, y, ids)[k])
  {
  }

  /** The ranking after a firing. */
  function NextRank(net: Net, rank: Ranking, s: Firing): Ranking
    requires s.a in net.nodes && s.b in net.nodes && s.a in rank && s.b in rank
  {
    RankAfter(rank, s.ids, RankOf(rank, RuleAt(net, s.a, s.b), Lead(net, s.a, s.b), Other(net, s.a, s.b)))
  }

  lemma PrincipalsRanked(net: Net, rank: Ranking, s: Firing)
    requires WellWired(net) && Ranked(net, rank) && Enabled(net, s)
    ensures s.a in rank && s.b in rank
    ensures rank[Other(net, s.a, s.b)] < rank[Lead(net, s.a, s.b)]
  {
  }

  lemma EditKeepsFlow(net: Net, rank: Ranking, s: Firing, k: nat)
    requires WellWired(net) && Ranked(net, rank) && Enabled(net, s) && 1 <= k < |EditsAt(net, s.a, s.b, s.ids)|
    ensures s.a in rank && s.b in rank
    ensures KeepsFlow(Union(net, s.a, s.b, s.ids), NextRank(net, rank, s), EditsAt(net, s.a, s.b, s.ids)[k])
  {
    PrincipalsRanked(net, rank, s);
    ValuesReact(net, rank, s.a, s.b);
    UnionAgrees(net, s.a, s.b, s.ids);
    var (x, y) := (Lead(net, s.a, s.b), Other(net, s.a, s.b));
    RuleKeepsFlow(Union(net, s.a, s.b, s.ids), NextRank(net, rank, s), RuleAt(net, s.a, s.b),
                  x, net.nodes[x], y, net.nodes[y], s.ids, k);
  }

  lemma StillFlows(net: Net, rank: Ranking, s: Firing)
    requires WellWired(net) && Ranked(net, rank) && Enabled(net, s)
    ensures s.a in rank && s.b in rank
    ensures Related(net.wires, (p, q) => Flows(Union(net, s.a, s.b, s.ids), NextRank(net, rank, s), p, q))
  {
    PrincipalsRanked(net, rank, s);
    UnionAgrees(net, s.a, s.b, s.ids);
    var all, next := Union(net, s.a, s.b, s.ids), NextRank(net, rank, s);
    forall p | p in net.wires ensures Flows(all, next, p, net.wires[p]) {
      assert Flows(net.nodes, rank, p, net.wires[p]);
    }
  }

  lemma FireFlows(net: Net, rank: Ranking, s: Firing)
    requires WellWired(net) && Ranked(net, rank) && Enabled(net, s)
    ensures s.a in rank && s.b in rank
    ensures Related(Fired(net, s).wires, (p, q) => Flows(Union(net, s.a, s.b, s.ids), NextRank(net, rank, s), p, q))
  {
    PrincipalsRanked(net, rank, s);
    RankedIsTame(net, rank);
    TameIsRegular(net, s);
    var ops, all, next := EditsAt(net, s.a, s.b, s.ids), Union(net, s.a, s.b, s.ids), NextRank(net, rank, s);
    var rel := (p, q) => Flows(all, next, p, q);
    FireFaithful(net, s.a, s.b, s.ids);
    RewriteLinear(net, RewriteAt(net, s.a, s.b, s.ids));
    forall k | 1 <= k < |ops| ensures Bridges(ops[k], rel) {
      EditKeepsFlow(net, rank, s, k);
      KeepsFlowBridges(all, next, ops[k]);
    }
    StillFlows(net, rank, s);
    EditsRelated(net.wires, ops, rel);
  }

  /** Reduction keeps data flowing without cycles. */
  lemma FireRanked(net: Net, rank: Ranking, s: Firing)
    requires WellWired(net) && Ranked(net, rank) && Enabled(net, s)
    ensures WellWired(Fired(net, s)) && Acyclic(Fired(net, s))
    ensures Closed(net) ==> Closed(Fired(net, s))
  {
    hide Ranked, EditsAt, Tame, Regular, Acyclic;
    FireFlows(net, rank, s);
    RankedIsTame(net, rank);
    TameIsRegular(net, s);
    FireConserves(net, s.a, s.b, s.ids);
    UnionAgrees(net, s.a, s.b, s.ids);
    var after, all, next := Fired(net, s), Union(net, s.a, s.b, s.ids), NextRank(net, rank, s);
    forall p | p in after.wires ensures Flows(after.nodes, next, p, after.wires[p]) {
      assert Flows(all, next, p, after.wires[p]);
      assert Live(after.nodes, p) && Live(after.nodes, after.wires[p]);
    }
    KindsStay(net, rank, s);
    MakeRanked(after, next);
  }

  lemma MakeRanked(net: Net, rank: Ranking)
    requires forall n :: n in net.nodes ==> net.nodes[n].kind in FLOW_KINDS
    requires forall p :: p in net.wires ==> Flows(net.nodes, rank, p, net.wires[p])
    ensures Acyclic(net)
  {
    assert Ranked(net, rank);
  }

  lemma KindsStay(net: Net, rank: Ranking, s: Firing)
    requires WellWired(net) && Ranked(net, rank) && Enabled(net, s)
    ensures forall n :: n in Fired(net, s).nodes ==> Fired(net, s).nodes[n].kind in FLOW_KINDS
  {
    var after, more := Fired(net, s), CreatedAt(net, s.a, s.b);
    ValuesReact(net, rank, s.a, s.b);
    AddNodesAll(net.nodes - {s.a, s.b}, s.ids, more);
    forall n | n in after.nodes ensures after.nodes[n].kind in FLOW_KINDS {
      if n in s.ids { var i :| 0 <= i < |s.ids| && s.ids[i] == n; }
    }
  }

  // ----- no deadlock -----

  lemma {:induction false} LeastRanked(s: set<NodeId>, rank: Ranking) returns (n: NodeId)
    requires s != {} && forall m :: m in s ==> m in rank
    ensures n in s && forall m :: m in s ==> rank[n] <= rank[m]
    decreases s
  {
    n :| n in s;
    if s != {n} {
      var k := LeastRanked(s - {n}, rank);
      if rank[k] < rank[n] { n := k; }
    }
  }

  /** A closed net with acyclic data flow that has a node has a reacting pair: the
      lowest-ranked consumer faces a value. */
  lemma NeverDeadlocks(net: Net, rank: Ranking)
    requires Closed(net) && Ranked(net, rank) && NormalForm(net)
    ensures net.nodes == map[]
  {
    if n :| n in net.nodes {
      assert Live(net.nodes, P(n));
      assert Flows(net.nodes, rank, P(n), net.wires[P(n)]);
      var consumers := set m | m in net.nodes && net.nodes[m].kind != Value;
      forall m | m in consumers ensures m in rank {
        assert Live(net.nodes, P(m));
        assert Flows(net.nodes, rank, P(m), net.wires[P(m)]);
      }
      assert n in consumers || net.wires[P(n)].owner in consumers;
      var c := LeastRanked(consumers, rank);
      assert Live(net.nodes, P(c));
      var q := net.wires[P(c)];
      assert Flows(net.nodes, rank, P(c), q);
      assert q.owner !in consumers;
      assert Live(net.nodes, q);
      assert Reducible(net, c, q.owner);
    }
  }

  ghost predicate DataflowNet(net: Net) {
    Closed(net) && Acyclic(net)
  }

  /** Every run of a closed acyclic data-flow net stays one. */
  lemma {:induction false} DataflowStays(net: Net, run: seq<Firing>)
    requires DataflowNet(net) && CanRun(net, run)
    ensures DataflowNet(Result(net, run))
    decreases |run|
  {
    if run != [] {
      var rank :| Ranked(net, rank);
      FireRanked(net, rank, run[0]);
      DataflowStays(Fired(net, run[0]), run[1..]);
    }
  }

  /** Every complete run reaches the empty net, in at most half as many steps as
      the net has ports. */
  lemma RunsToEmpty(net: Net, run: seq<Firing>)
    requires DataflowNet(net) && CanRun(net, run) && NormalForm(Result(net, run))
    ensures Result(net, run) == Net(map[], map[]) && 2 * |run| <= PortCount(net.nodes)
  {
    DataflowStays(net, run);
    var end := Result(net, run);
    var last :| Ranked(end, last);
    NeverDeadlocks(end, last);
    assert forall p :: p in end.wires ==> Live(end.nodes, p);
    assert end.wires == map[];
    var rank :| Ranked(net, rank);
    RankedIsTame(net, rank);
    RunsAreShort(net, run);
  }
}
