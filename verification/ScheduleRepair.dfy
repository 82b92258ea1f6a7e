/** update_schedule (core/wavefront_scheduler.py): repairing an old schedule after
    local mutations gives exactly the schedule of the new graph. */
module ScheduleRepair {
  import opened MellTypes
  import opened Levels
  import opened Wavefront

  datatype Mutation =
    | AddNode(node: Id) | RemoveNode(node: Id) | UpdateNode(node: Id)
    | AddEdge(src: Id, dst: Id) | RemoveEdge(src: Id, dst: Id)

  function Ends(m: Mutation): set<Id> {
    match m
    case AddEdge(u, v) => {u, v}
    case RemoveEdge(u, v) => {u, v}
    case _ => {m.node}
  }

  function Touched(mutations: seq<Mutation>): set<Id> {
    if mutations == [] then {} else Touched(mutations[..|mutations| - 1]) + Ends(mutations[|mutations| - 1])
  }

  lemma {:induction false} TouchedBy(mutations: seq<Mutation>, m: Mutation)
    requires m in mutations
    ensures Ends(m) <= Touched(mutations)
  {
    var k := |mutations| - 1;
    if mutations[k] != m {
      var i :| 0 <= i < |mutations| && mutations[i] == m;
      assert mutations[..k][i] == m;
      TouchedBy(mutations[..k], m);
    }
  }

  /** The mutations account for every difference between the graphs; the edges of a removed
      node may go with it. */
  ghost predicate Covers(before: Graph, after: Graph, mutations: seq<Mutation>) {
    && (forall v :: v in before.nodes && v !in after.nodes ==> RemoveNode(v) in mutations)
    && (forall v :: v in after.nodes && v !in before.nodes ==> AddNode(v) in mutations)
    && (forall u, v :: IsEdge(after, u, v) && !IsEdge(before, u, v) ==> AddEdge(u, v) in mutations)
    && (forall u, v :: IsEdge(before, u, v) && !IsEdge(after, u, v) ==>
          RemoveEdge(u, v) in mutations || u !in after.nodes || v !in after.nodes)
  }

  /** Nodes that are gone have no neighbours listed. */
  ghost predicate Unlisted(g: Graph, nodes: set<Id>) {
    forall v :: v in nodes && v !in g.nodes ==> Succ(g, v) == [] && Pred(g, v) == []
  }

  /** When every touched node is still there, no node was removed. */
  lemma NoneGone(before: Graph, after: Graph, mutations: seq<Mutation>)
    requires Covers(before, after, mutations) && Touched(mutations) <= after.nodes
    ensures before.nodes <= after.nodes
  {
    forall v | v in before.nodes ensures v in after.nodes {
      if v !in after.nodes { TouchedBy(mutations, RemoveNode(v)); }
    }
  }

  /** Away from the touched nodes nothing is new, and if no node was removed nothing is gone. */
  lemma UntouchedSame(before: Graph, after: Graph, mutations: seq<Mutation>, zone: set<Id>, v: Id)
    requires Covers(before, after, mutations) && Touched(mutations) <= zone && v !in zone && v in after.nodes
    ensures v in before.nodes
    ensures forall u :: IsEdge(after, u, v) ==> IsEdge(before, u, v)
    ensures Touched(mutations) <= after.nodes ==> forall u :: IsEdge(before, u, v) ==> IsEdge(after, u, v)
  {
    if v !in before.nodes { TouchedBy(mutations, AddNode(v)); }
    forall u | IsEdge(after, u, v) ensures IsEdge(before, u, v) {
      if !IsEdge(before, u, v) { TouchedBy(mutations, AddEdge(u, v)); }
    }
    if Touched(mutations) <= after.nodes {
      NoneGone(before, after, mutations);
      forall u | IsEdge(before, u, v) ensures IsEdge(after, u, v) {
        if !IsEdge(after, u, v) { TouchedBy(mutations, RemoveEdge(u, v)); }
      }
    }
  }

  // ----- the influence zone -----

  /** No edge crosses the border of the zone. */
  ghost predicate ClosedZone(g: Graph, zone: set<Id>) {
    forall u, v :: IsEdge(g, u, v) ==> (u in zone <==> v in zone)
  }

  ghost predicate Spread(g: Graph, zone: set<Id>, v: Id) {
    (forall w :: w in Succ(g, v) ==> w in zone) && (forall u :: u in Pred(g, v) ==> u in zone)
  }

  lemma SpreadCloses(g: Graph, zone: set<Id>)
    requires WellFormed(g) && zone <= g.nodes && forall v :: v in zone ==> Spread(g, zone, v)
    ensures ClosedZone(g, zone)
  {
  }

  method Absorb(affected0: set<Id>, stack0: seq<Id>, nbrs: seq<Id>) returns (affected: set<Id>, stack: seq<Id>)
    requires forall v :: v in stack0 ==> v in affected0
    ensures affected == affected0 + Members(nbrs)
    ensures forall v :: v in stack <==> v in stack0 || v in affected - affected0
    ensures affected == affected0 ==> stack == stack0
  {
    affected, stack := affected0, stack0;
    var i := 0;
    while i < |nbrs|
      invariant 0 <= i <= |nbrs|
      invariant affected == affected0 + Members(nbrs[..i])
      invariant forall v :: v in stack <==> v in stack0 || v in affected - affected0
      invariant affected == affected0 ==> stack == stack0
    {
      assert nbrs[..i + 1] == nbrs[..i] + [nbrs[i]];
      if nbrs[i] !in affected {
        affected, stack := affected + {nbrs[i]}, stack + [nbrs[i]];
      }
      i := i + 1;
    }
    assert nbrs[..i] == nbrs;
  }

  method ListOf(members: set<Id>) returns (list: seq<Id>)
    ensures Enumerates(list, members)
  {
    list := [];
    var left := members;
    while left != {}
      invariant left <= members && Enumerates(list, members - left)
      decreases left
    {
      var v :| v in left;
      EnumeratesMore(list, members - left, v);
      list := list + [v];
      assert members - left + {v} == members - (left - {v});
      left := left - {v};
    }
    assert members - left == members;
  }

  lemma StillSpread(g: Graph, zone: set<Id>, more: set<Id>, v: Id)
    requires Spread(g, zone, v) && zone <= more
    ensures Spread(g, more, v)
  {
  }

  lemma NeighboursInside(g: Graph, node: Id)
    requires WellFormed(g) && node in g.nodes
    ensures forall v :: v in Succ(g, node) ==> v in g.nodes
    ensures forall v :: v in Pred(g, node) ==> v in g.nodes
  {
    forall v | v in Succ(g, node) ensures v in g.nodes { assert IsEdge(g, node, v); }
    forall v | v in Pred(g, node) ensures v in g.nodes { assert IsEdge(g, v, node); }
  }

  /** Grows the touched nodes up- and downstream until no edge crosses the border. */
  method InfluenceZone(g: Graph, seeds: set<Id>) returns (affected: set<Id>)
    requires WellFormed(g) && seeds <= g.nodes
    ensures seeds <= affected <= g.nodes && ClosedZone(g, affected)
  {
    hide WellFormed, ClosedZone, Spread, Succ, Pred, IsEdge;
    affected := seeds;
    var stack := ListOf(seeds);
    while stack != []
      invariant seeds <= affected <= g.nodes
      invariant forall v :: v in stack ==> v in affected
      invariant forall v :: v in affected && v !in stack ==> Spread(g, affected, v)
      decreases g.nodes - affected, |stack|
    {
      var node := stack[|stack| - 1];
      var popped := stack[..|stack| - 1];
      assert stack == popped + [node];
      NeighboursInside(g, node);
      var after, pushed := Absorb(affected, popped, Succ(g, node));
      var grown, rest := Absorb(after, pushed, Pred(g, node));
      SpreadNode(g, grown, node);
      forall v | v in grown && v !in rest ensures Spread(g, grown, v) {
        if v != node { StillSpread(g, affected, grown, v); }
      }
      affected, stack := grown, rest;
    }
    SpreadCloses(g, affected);
  }

  lemma SpreadNode(g: Graph, zone: set<Id>, node: Id)
    requires (forall v :: v in Succ(g, node) ==> v in zone) && forall v :: v in Pred(g, node) ==> v in zone
    ensures Spread(g, zone, node)
  {
  }

  // ----- old levels, base levels, counters -----

  lemma WaveMember(waves: seq<seq<Id>>, l: Level, k: nat, i: nat)
    requires Schedules(waves, l) && k < |waves| && i < |waves[k]|
    ensures waves[k][i] in l && l[waves[k][i]] == k
  {
    assert waves[k][i] in waves[k];
  }

  lemma WaveComplete(waves: seq<seq<Id>>, l: Level, v: Id)
    requires Schedules(waves, l) && v in l
    ensures l[v] < |waves| && v in waves[l[v]]
  {
  }

  /** Reads the level of every scheduled node off its wave. */
  method ReadLevels(waves: seq<seq<Id>>, ghost l: Level) returns (levels: Level)
    requires Schedules(waves, l)
    ensures levels == l
  {
    hide Schedules;
    levels := map[];
    var k := 0;
    while k < |waves|
      invariant 0 <= k <= |waves|
      invariant forall v :: v in levels ==> v in l && levels[v] == l[v]
      invariant forall j, v :: 0 <= j < k && v in waves[j] ==> v in levels
    {
      var i := 0;
      while i < |waves[k]|
        invariant 0 <= i <= |waves[k]|
        invariant forall v :: v in levels ==> v in l && levels[v] == l[v]
        invariant forall j, v :: 0 <= j < k && v in waves[j] ==> v in levels
        invariant forall v :: v in waves[k][..i] ==> v in levels
      {
        WaveMember(waves, l, k, i);
        assert waves[k][..i + 1] == waves[k][..i] + [waves[k][i]];
        levels := levels[waves[k][i] := k];
        i := i + 1;
      }
      assert waves[k][..i] == waves[k];
      k := k + 1;
    }
    forall v | v in l ensures v in levels { WaveComplete(waves, l, v); }
  }

  /** One above the highest old level among the predecessors outside the zone. */
  function Floor(preds: seq<Id>, zone: set<Id>, levels: Level): nat {
    if preds == [] then 0
    else
      var rest, p := Floor(preds[..|preds| - 1], zone, levels), preds[|preds| - 1];
      if p in zone then rest else Max(rest, (if p in levels then levels[p] else 0) + 1)
  }

  function Max(a: nat, b: nat): nat {
    if a < b then b else a
  }

  /** A closed zone has no predecessor outside, so the anchoring never raises a base level. */
  lemma {:induction false} FloorOfClosed(preds: seq<Id>, zone: set<Id>, levels: Level)
    requires forall p :: p in preds ==> p in zone
    ensures Floor(preds, zone, levels) == 0
  {
    if preds != [] {
      FloorOfClosed(preds[..|preds| - 1], zone, levels);
    }
  }

  method BaseLevel(preds: seq<Id>, zone: set<Id>, levels: Level) returns (base: nat)
    ensures base == Floor(preds, zone, levels)
  {
    base := 0;
    for i := 0 to |preds|
      invariant base == Floor(preds[..i], zone, levels)
    {
      assert preds[..i + 1][..i] == preds[..i];
      if preds[i] !in zone {
        base := Max(base, (if preds[i] in levels then levels[preds[i]] else 0) + 1);
      }
    }
    assert preds[..|preds|] == preds;
  }

  function Inside(preds: seq<Id>, zone: set<Id>): nat {
    if preds == [] then 0
    else Inside(preds[..|preds| - 1], zone) + (if preds[|preds| - 1] in zone then 1 else 0)
  }

  lemma {:induction false} InsideClosed(preds: seq<Id>, zone: set<Id>)
    requires forall p :: p in preds ==> p in zone
    ensures Inside(preds, zone) == |preds|
  {
    if preds != [] {
      InsideClosed(preds[..|preds| - 1], zone);
    }
  }

  method SubDegree(preds: seq<Id>, zone: set<Id>) returns (count: nat)
    ensures count == Inside(preds, zone)
  {
    count := 0;
    for i := 0 to |preds|
      invariant count == Inside(preds[..i], zone)
    {
      assert preds[..i + 1][..i] == preds[..i];
      if preds[i] in zone {
        count := count + 1;
      }
    }
    assert preds[..|preds|] == preds;
  }

  lemma NodeStarts(g: Graph, zone: set<Id>, levels: Level, v: Id)
    requires WellFormed(g) && zone <= g.nodes && ClosedZone(g, zone) && v in zone
    ensures Floor(Pred(g, v), zone, levels) == 0
    ensures Inside(Pred(g, v), zone) == |Into(g, v)|
    ensures v in Freed(g, zone, {}) <==> |Into(g, v)| == 0
  {
    forall u | u in Pred(g, v) ensures u in zone { assert IsEdge(g, u, v); }
    FloorOfClosed(Pred(g, v), zone, levels);
    InsideClosed(Pred(g, v), zone);
    hide Into;
    if |Into(g, v)| == 0 { assert Into(g, v) == {}; }
  }

  // ----- relaxing levels along removed arcs -----

  /** The level of v is one above the source of some removed arc into it. */
  ghost predicate Reached(g: Graph, removed: set<Arc>, lv: Level, v: Id)
    requires v in lv
  {
    lv[v] > 0 ==> exists e :: e in removed && e in Into(g, v) && e.0 in lv && lv[e.0] == lv[v] - 1
  }

  /** The levels are the longest chains of removed arcs. */
  ghost predicate Relaxed(g: Graph, zone: set<Id>, removed: set<Arc>, lv: Level) {
    && lv.Keys == zone
    && (forall e, v :: e in removed && e in Into(g, v) && v in zone ==> e.0 in zone && lv[e.0] < lv[v])
    && (forall v {:trigger Reached(g, removed, lv, v)} :: v in zone ==> Reached(g, removed, lv, v))
  }

  lemma RelaxStep(g: Graph, zone: set<Id>, removed: set<Arc>, lv: Level, e: Arc, nbr: Id)
    requires Relaxed(g, zone, removed, lv) && nbr in zone && e in Into(g, nbr) && e.0 in zone
    requires e.0 != nbr && forall d :: d in removed ==> d.0 != nbr
    ensures Relaxed(g, zone, removed + {e}, lv[nbr := Max(lv[nbr], lv[e.0] + 1)])
  {
    hide Into;
    var next := lv[nbr := Max(lv[nbr], lv[e.0] + 1)];
    forall d, v | d in removed + {e} && d in Into(g, v) && v in zone ensures d.0 in zone && next[d.0] < next[v] {
      if d == e && v != nbr { OneTarget(g, e, nbr, v); }
    }
    forall v | v in zone ensures Reached(g, removed + {e}, next, v) {
      assert Reached(g, removed, lv, v);
      if v == nbr && next[v] == lv[e.0] + 1 {
        assert e in removed + {e};
      } else if lv[v] > 0 {
        var d :| d in removed && d in Into(g, v) && d.0 in lv && lv[d.0] == lv[v] - 1;
        assert d in removed + {e} && d.0 != nbr;
      }
    }
  }

  // ----- the sweep inside the zone -----

  /** Between two dequeued nodes: counters, queue and levels account for the arcs of the finished nodes. */
  ghost predicate Repairing(g: Graph, zone: set<Id>, degree: map<Id, int>, queue: seq<Id>, lv: Level, done: set<Id>) {
    && Sweeping(g, zone, degree, queue, done, From(g, done))
    && Relaxed(g, zone, From(g, done), lv)
  }

  /** Levels at their base, counters at the in-zone predecessors, and the free nodes queued. */
  method StartRepair(g: Graph, zone: set<Id>, levels: Level) returns (degree: map<Id, int>, queue: seq<Id>, lv: Level)
    requires WellFormed(g) && zone <= g.nodes && ClosedZone(g, zone)
    ensures Repairing(g, zone, degree, queue, lv, {})
  {
    degree, queue, lv := map[], [], map[];
    hide WellFormed, ClosedZone, Into, Enumerates, Repairing, Pred, Floor, Inside;
    ghost var free := Freed(g, zone, {});
    var left := zone;
    assert free - left == {};
    NoneEnumerated();
    while left != {}
      invariant left <= zone && degree.Keys == zone - left && lv.Keys == zone - left
      invariant forall v :: v in degree ==> degree[v] == |Into(g, v)|
      invariant forall v :: v in lv ==> lv[v] == 0
      invariant Enumerates(queue, free - left)
      decreases left
    {
      var v :| v in left;
      NodeStarts(g, zone, levels, v);
      var base := BaseLevel(Pred(g, v), zone, levels);
      var count := SubDegree(Pred(g, v), zone);
      degree, lv := degree[v := count], lv[v := base];
      if count == 0 {
        EnumeratesMore(queue, free - left, v);
        queue := queue + [v];
        assert free - left + {v} == free - (left - {v});
      } else {
        assert free - left == free - (left - {v});
      }
      left := left - {v};
    }
    assert free - left == free - {};
    Started(g, zone, degree, queue, lv);
  }

  lemma NoneFinished(g: Graph)
    ensures From(g, {}) == {}
  {
  }

  lemma Started(g: Graph, zone: set<Id>, degree: map<Id, int>, queue: seq<Id>, lv: Level)
    requires degree.Keys == zone && lv.Keys == zone && Enumerates(queue, Freed(g, zone, {}) - {})
    requires forall v :: v in degree ==> degree[v] == |Into(g, v)|
    requires forall v :: v in lv ==> lv[v] == 0
    ensures Repairing(g, zone, degree, queue, lv, {})
  {
    hide Into, From, Freed;
    NoneFinished(g);
    forall v ensures Into(g, v) - {} == Into(g, v) {}
    forall v | v in zone ensures Reached(g, {}, lv, v) {}
  }

  /** One dequeued node in progress: the first j of its arcs are removed as well. */
  ghost predicate Midway(g: Graph, zone: set<Id>, degree: map<Id, int>, queue: seq<Id>, lv: Level, done: set<Id>, node: Id, j: nat) {
    && Sweeping(g, zone, degree, queue, done + {node}, From(g, done) + FirstArcs(g, node, j))
    && Relaxed(g, zone, From(g, done) + FirstArcs(g, node, j), lv)
  }

  lemma PopSweeping(g: Graph, zone: set<Id>, degree: map<Id, int>, queue: seq<Id>, done: set<Id>, removed: set<Arc>)
    requires Sweeping(g, zone, degree, queue, done, removed) && queue != []
    ensures queue[0] in zone && queue[0] !in done && done <= zone
    ensures Sweeping(g, zone, degree, queue[1..], done + {queue[0]}, removed)
  {
    hide Into, Counts, Enumerates;
    var free, node := Freed(g, zone, removed), queue[0];
    EnumeratesLess(queue, free - done);
    assert free - done - {node} == free - (done + {node});
  }

  lemma Dequeue(g: Graph, zone: set<Id>, degree: map<Id, int>, queue: seq<Id>, lv: Level, done: set<Id>)
    requires Repairing(g, zone, degree, queue, lv, done) && queue != []
    ensures queue[0] in zone && queue[0] !in done && done <= zone
    ensures Midway(g, zone, degree, queue[1..], lv, done, queue[0], 0)
  {
    hide *;
    RepairingIs(g, zone, degree, queue, lv, done);
    PopSweeping(g, zone, degree, queue, done, From(g, done));
    NoArcsYet(g, queue[0], From(g, done));
    MidwayIs(g, zone, degree, queue[1..], lv, done, queue[0], 0);
  }

  lemma Dequeued(g: Graph, zone: set<Id>, degree: map<Id, int>, queue: seq<Id>, lv: Level, done: set<Id>, node: Id)
    requires node in g.nodes && node !in done
    requires Midway(g, zone, degree, queue, lv, done, node, |Succ(g, node)|)
    ensures Repairing(g, zone, degree, queue, lv, done + {node})
  {
    LayerStep(g, {}, done, node);
    hide *;
    MidwayIs(g, zone, degree, queue, lv, done, node, |Succ(g, node)|);
    RepairingIs(g, zone, degree, queue, lv, done + {node});
  }

  lemma MidwayIs(g: Graph, zone: set<Id>, degree: map<Id, int>, queue: seq<Id>, lv: Level, done: set<Id>, node: Id, j: nat)
    ensures Midway(g, zone, degree, queue, lv, done, node, j)
            <==> Sweeping(g, zone, degree, queue, done + {node}, From(g, done) + FirstArcs(g, node, j))
                 && Relaxed(g, zone, From(g, done) + FirstArcs(g, node, j), lv)
  {
  }

  lemma RepairingIs(g: Graph, zone: set<Id>, degree: map<Id, int>, queue: seq<Id>, lv: Level, done: set<Id>)
    ensures Repairing(g, zone, degree, queue, lv, done)
            <==> Sweeping(g, zone, degree, queue, done, From(g, done)) && Relaxed(g, zone, From(g, done), lv)
  {
  }

  lemma SourcesOf(g: Graph, done: set<Id>, node: Id, j: nat, nbr: Id)
    requires nbr !in done + {node}
    ensures forall d :: d in From(g, done) + FirstArcs(g, node, j) ==> d.0 != nbr
  {
  }

  /** One arc of the node in progress: raise the successor's level, then count the arc off. */
  lemma MidwayStep(g: Graph, zone: set<Id>, degree: map<Id, int>, queue: seq<Id>, lv: Level, done: set<Id>, node: Id, j: nat)
    requires WellFormed(g) && ClosedZone(g, zone) && zone <= g.nodes && node in zone && node !in done && j < |Succ(g, node)|
    requires Midway(g, zone, degree, queue, lv, done, node, j)
    ensures var nbr := Succ(g, node)[j];
            && nbr in zone && nbr in degree && nbr in lv && node in lv
            && Midway(g, zone, degree[nbr := degree[nbr] - 1], if degree[nbr] == 1 then queue + [nbr] else queue,
                      lv[nbr := Max(lv[nbr], lv[node] + 1)], done, node, j + 1)
  {
    hide *;
    var nbr, e, removed := Succ(g, node)[j], (node, j), From(g, done) + FirstArcs(g, node, j);
    ArcAhead(g, zone, done, node, j);
    MidwayIs(g, zone, degree, queue, lv, done, node, j);
    SweepingStep(g, zone, degree, queue, done + {node}, removed, e, nbr);
    SourcesOf(g, done, node, j, nbr);
    RelaxStep(g, zone, removed, lv, e, nbr);
    RelaxedKeys(g, zone, removed, lv);
    var next := lv[nbr := Max(lv[nbr], lv[node] + 1)];
    MidwayIs(g, zone, degree[nbr := degree[nbr] - 1], if degree[nbr] == 1 then queue + [nbr] else queue, next, done, node, j + 1);
  }

  lemma ArcAhead(g: Graph, zone: set<Id>, done: set<Id>, node: Id, j: nat)
    requires WellFormed(g) && ClosedZone(g, zone) && zone <= g.nodes && node in zone && node !in done && j < |Succ(g, node)|
    ensures Succ(g, node)[j] in zone && (node, j) in Into(g, Succ(g, node)[j])
    ensures (node, j) !in From(g, done) + FirstArcs(g, node, j)
    ensures From(g, done) + FirstArcs(g, node, j + 1) == From(g, done) + FirstArcs(g, node, j) + {(node, j)}
  {
    hide WellFormed;
    assert IsEdge(g, node, Succ(g, node)[j]);
    OneMoreArc(g, node, j);
  }

  lemma OneMoreArc(g: Graph, node: Id, j: nat)
    requires j < |Succ(g, node)| && node in g.nodes
    ensures FirstArcs(g, node, j + 1) == FirstArcs(g, node, j) + {(node, j)}
  {
  }

  lemma RelaxedKeys(g: Graph, zone: set<Id>, removed: set<Arc>, lv: Level)
    requires Relaxed(g, zone, removed, lv)
    ensures lv.Keys == zone
  {
  }

  /** Relaxes and releases every arc of the dequeued node. */
  method RelaxNode(g: Graph, zone: set<Id>, degree0: map<Id, int>, queue0: seq<Id>, lv0: Level, ghost done: set<Id>, node: Id)
    returns (degree: map<Id, int>, queue: seq<Id>, lv: Level)
    requires WellFormed(g) && ClosedZone(g, zone) && zone <= g.nodes && node in zone && node !in done
    requires Midway(g, zone, degree0, queue0, lv0, done, node, 0)
    ensures Midway(g, zone, degree, queue, lv, done, node, |Succ(g, node)|)
  {
    hide WellFormed, ClosedZone, Midway, Succ;
    degree, queue, lv := degree0, queue0, lv0;
    var j := 0;
    while j < |Succ(g, node)|
      invariant 0 <= j <= |Succ(g, node)|
      invariant Midway(g, zone, degree, queue, lv, done, node, j)
    {
      var nbr := Succ(g, node)[j];
      MidwayStep(g, zone, degree, queue, lv, done, node, j);
      if nbr in zone {
        var candidate := lv[node] + 1;
        if candidate > lv[nbr] {
          lv := lv[nbr := candidate];
        } else {
          assert lv == lv[nbr := Max(lv[nbr], lv[node] + 1)];
        }
        degree := degree[nbr := degree[nbr] - 1];
        if degree[nbr] == 0 {
          queue := queue + [nbr];
        }
      }
      j := j + 1;
    }
  }

  lemma RepairFinished(g: Graph, zone: set<Id>, degree: map<Id, int>, lv: Level)
    requires Repairing(g, zone, degree, [], lv, zone)
    ensures Relaxed(g, zone, From(g, zone), lv)
  {
  }

  lemma RepairStalled(g: Graph, zone: set<Id>, degree: map<Id, int>, lv: Level, done: set<Id>, v: Id)
    requires ClosedZone(g, zone) && zone <= g.nodes && v in zone && v !in done
    requires Repairing(g, zone, degree, [], lv, done)
    ensures !Acyclic(g)
  {
    var left := zone - done;
    forall w | w in left ensures exists u :: u in left && IsEdge(g, u, w) {
      FreedMeansPreceded(g, zone, done, w);
      assert w !in [];
    }
    hide *;
    assert v in left;
    StalledMeansCyclic(g, left);
  }

  /** Kahn's queue inside the zone: the longest-chain levels of the zone, or None when it has a cycle. */
  method RepairLevels(g: Graph, zone: set<Id>, levels: Level) returns (result: Option<Level>)
    requires WellFormed(g) && zone <= g.nodes && ClosedZone(g, zone)
    ensures result.None? ==> !Acyclic(g)
    ensures result.Some? ==> Relaxed(g, zone, From(g, zone), result.value)
  {
    hide WellFormed, ClosedZone, Repairing, Midway, Relaxed, From, Acyclic, Succ;
    var degree, queue, lv := StartRepair(g, zone, levels);
    var processed := 0;
    ghost var done: set<Id> := {};
    while queue != []
      invariant done <= zone && processed == |done|
      invariant Repairing(g, zone, degree, queue, lv, done)
      decreases zone - done
    {
      var node := queue[0];
      Dequeue(g, zone, degree, queue, lv, done);
      processed := processed + 1;
      degree, queue, lv := RelaxNode(g, zone, degree, queue[1..], lv, done, node);
      Dequeued(g, zone, degree, queue, lv, done, node);
      done := done + {node};
    }
    if processed != |zone| {
      ghost var v := Missing(done, zone);
      RepairStalled(g, zone, degree, lv, done, v);
      return None;
    }
    SameSize(done, zone);
    RepairFinished(g, zone, degree, lv);
    return Some(lv);
  }

  lemma Missing(part: set<Id>, whole: set<Id>) returns (v: Id)
    requires part <= whole && |part| != |whole|
    ensures v in whole && v !in part
  {
    assert part != whole;
    v :| v in whole && v !in part;
  }

  lemma SameSize(part: set<Id>, whole: set<Id>)
    requires part <= whole && |part| == |whole|
    ensures part == whole
  {
    assert |whole - part| == 0;
  }

  // ----- merging old and new levels -----

  /** Old levels outside the zone, recomputed levels inside. */
  function Merged(old_: Level, zone: set<Id>, lv: Level): (l: Level)
    requires lv.Keys == zone
    ensures l.Keys == old_.Keys + zone
    ensures forall v :: v in l ==> l[v] == if v in zone then lv[v] else old_[v]
  {
    old_ + lv
  }

  lemma MergedIsLevel(before: Graph, g: Graph, mutations: seq<Mutation>, oldLevels: Level, zone: set<Id>, lv: Level)
    requires Covers(before, g, mutations) && Touched(mutations) <= zone <= g.nodes && ClosedZone(g, zone)
    requires IsLevel(before, oldLevels) && Relaxed(g, zone, From(g, zone), lv)
    requires forall u, v :: IsEdge(g, u, v) ==> v in g.nodes
    ensures IsLevel(g, Merged(oldLevels, zone, lv))
  {
    var l := Merged(oldLevels, zone, lv);
    NoneGone(before, g, mutations);
    forall v | v in g.nodes && v !in zone ensures v in oldLevels { UntouchedSame(before, g, mutations, zone, v); }
    assert l.Keys == g.nodes;
    forall u, v | IsEdge(g, u, v) && v in g.nodes ensures l[u] < l[v] {
      if v in zone {
        var e := ArcOfEdge(g, u, v);
        assert e in From(g, zone);
      } else {
        UntouchedSame(before, g, mutations, zone, v);
      }
    }
    forall v | v in g.nodes ensures Anchored(g, l, v) {
      if v in zone {
        InsideAnchored(g, zone, lv, oldLevels, v);
      } else {
        UntouchedSame(before, g, mutations, zone, v);
        assert Anchored(before, oldLevels, v);
      }
    }
  }

  lemma InsideAnchored(g: Graph, zone: set<Id>, lv: Level, oldLevels: Level, v: Id)
    requires Relaxed(g, zone, From(g, zone), lv) && v in zone && ClosedZone(g, zone)
    ensures Anchored(g, Merged(oldLevels, zone, lv), v)
  {
    assert Reached(g, From(g, zone), lv, v);
    if lv[v] > 0 {
      var e :| e in From(g, zone) && e in Into(g, v) && e.0 in lv && lv[e.0] == lv[v] - 1;
      assert IsEdge(g, e.0, v);
    }
  }

  function Bucket(levels: map<nat, seq<Id>>, k: nat): seq<Id> {
    if k in levels then levels[k] else []
  }

  /** Every placed node is in the bucket of its level, and the top level is reached. */
  ghost predicate Placed(levels: map<nat, seq<Id>>, top: nat, l: Level, placed: set<Id>) {
    && placed <= l.Keys
    && (forall k: nat :: Enumerates(Bucket(levels, k), AtLevel(l, k) * placed))
    && (forall v :: v in placed ==> l[v] <= top)
    && (top == 0 || exists v :: v in placed && l[v] == top)
  }

  lemma PlaceOne(levels: map<nat, seq<Id>>, top: nat, l: Level, placed: set<Id>, v: Id)
    requires Placed(levels, top, l, placed) && v in l && v !in placed
    ensures Placed(levels[l[v] := Bucket(levels, l[v]) + [v]], Max(top, l[v]), l, placed + {v})
  {
    var next := levels[l[v] := Bucket(levels, l[v]) + [v]];
    forall k: nat ensures Enumerates(Bucket(next, k), AtLevel(l, k) * (placed + {v})) {
      if k == l[v] {
        EnumeratesMore(Bucket(levels, k), AtLevel(l, k) * placed, v);
        assert AtLevel(l, k) * placed + {v} == AtLevel(l, k) * (placed + {v});
      } else {
        assert AtLevel(l, k) * placed == AtLevel(l, k) * (placed + {v});
      }
    }
    if Max(top, l[v]) > 0 {
      if l[v] >= top {
        assert v in placed + {v};
      } else {
        var w :| w in placed && l[w] == top;
        assert w in placed + {v};
      }
    }
  }

  /** Drops the listed nodes into the buckets of their levels. */
  method Place(levels0: map<nat, seq<Id>>, top0: nat, items: Level, skip: set<Id>, ghost l: Level, ghost placed: set<Id>)
    returns (levels: map<nat, seq<Id>>, top: nat)
    requires Placed(levels0, top0, l, placed)
    requires forall v :: v in items && v !in skip ==> v in l && l[v] == items[v] && v !in placed
    ensures Placed(levels, top, l, placed + (items.Keys - skip))
  {
    hide Placed;
    levels, top := levels0, top0;
    var left := items.Keys;
    assert placed + (items.Keys - left - skip) == placed;
    while left != {}
      invariant left <= items.Keys
      invariant Placed(levels, top, l, placed + (items.Keys - left - skip))
      decreases left
    {
      var v :| v in left;
      ghost var sofar := placed + (items.Keys - left - skip);
      if v !in skip {
        PlaceOne(levels, top, l, sofar, v);
        levels, top := levels[items[v] := Bucket(levels, items[v]) + [v]], Max(top, items[v]);
        assert sofar + {v} == placed + (items.Keys - (left - {v}) - skip);
      } else {
        assert sofar == placed + (items.Keys - (left - {v}) - skip);
      }
      left := left - {v};
    }
    assert placed + (items.Keys - left - skip) == placed + (items.Keys - skip);
  }

  lemma {:induction false} Inhabited(g: Graph, l: Level, v: Id, k: nat)
    requires IsLevel(g, l) && v in g.nodes && k <= l[v]
    ensures AtLevel(l, k) != {}
    decreases l[v]
  {
    assert Anchored(g, l, v);
    if k == l[v] {
      assert v in AtLevel(l, k);
    } else {
      var u :| IsEdge(g, u, v) && u in l && l[u] == l[v] - 1;
      Inhabited(g, l, u, k);
    }
  }

  /** Wave k lists the nodes of level k, and the last wave is the highest level. */
  ghost predicate ListsLevels(waves: seq<seq<Id>>, l: Level) {
    && (forall k :: 0 <= k < |waves| ==> Lists(waves[k], AtLevel(l, k)))
    && (forall v :: v in l ==> l[v] < |waves|)
    && (exists v :: v in l && l[v] == |waves| - 1)
  }

  lemma BucketListed(levels: map<nat, seq<Id>>, top: nat, l: Level, k: nat)
    requires Placed(levels, top, l, l.Keys) && k <= top
    ensures Lists(SortIds(Bucket(levels, k)), AtLevel(l, k))
  {
    assert AtLevel(l, k) * l.Keys == AtLevel(l, k);
    assert (set w | w in Bucket(levels, k)) == AtLevel(l, k);
    SortLists(Bucket(levels, k));
  }

  lemma TopReached(levels: map<nat, seq<Id>>, top: nat, l: Level) returns (v: Id)
    requires Placed(levels, top, l, l.Keys) && l != map[]
    ensures v in l && l[v] == top && forall w :: w in l ==> l[w] <= top
  {
    if top == 0 {
      v :| v in l;
    } else {
      v :| v in l.Keys && l[v] == top;
    }
  }

  /** The sorted buckets up to the top level. */
  method Collect(levels: map<nat, seq<Id>>, top: nat, ghost l: Level) returns (waves: seq<seq<Id>>)
    requires Placed(levels, top, l, l.Keys) && l != map[]
    ensures ListsLevels(waves, l)
  {
    waves := [];
    ghost var v := TopReached(levels, top, l);
    hide Placed, Lists, AtLevel;
    for i := 0 to top + 1
      invariant |waves| == i
      invariant forall k :: 0 <= k < i ==> Lists(waves[k], AtLevel(l, k))
    {
      BucketListed(levels, top, l, i);
      waves := waves + [SortIds(Bucket(levels, i))];
    }
    assert v in l && l[v] == |waves| - 1;
  }

  /** When the levels are those of a graph, no wave is empty. */
  lemma LevelsSchedule(g: Graph, l: Level, waves: seq<seq<Id>>)
    requires IsLevel(g, l) && ListsLevels(waves, l)
    ensures Schedules(waves, l) && IsSchedule(g, waves)
  {
    var v :| v in l && l[v] == |waves| - 1;
    forall k | 0 <= k < |waves| ensures waves[k] != [] {
      Inhabited(g, l, v, k);
      var w :| w in AtLevel(l, k);
      assert w in waves[k];
    }
  }

  lemma NothingPlaced(l: Level)
    ensures Placed(map[], 0, l, {})
  {
  }

  lemma SameGraph(before: Graph, g: Graph, waves: seq<seq<Id>>)
    requires Covers(before, g, []) && IsSchedule(before, waves)
    ensures IsSchedule(g, waves)
  {
    var l :| IsLevel(before, l) && Schedules(waves, l);
    forall v ensures v in before.nodes <==> v in g.nodes {}
    assert before.nodes == g.nodes;
    forall u, v | v in g.nodes ensures IsEdge(before, u, v) <==> IsEdge(g, u, v) {}
    forall v | v in g.nodes ensures Anchored(g, l, v) { assert Anchored(before, l, v); }
    assert IsLevel(g, l);
  }

  method NamedNodes(mutations: seq<Mutation>) returns (affected: set<Id>)
    ensures affected == Touched(mutations)
  {
    affected := {};
    for i := 0 to |mutations|
      invariant affected == Touched(mutations[..i])
    {
      assert mutations[..i + 1][..i] == mutations[..i];
      affected := affected + Ends(mutations[i]);
    }
    assert mutations[..|mutations|] == mutations;
  }

  lemma ZoneNonempty(mutations: seq<Mutation>)
    requires mutations != []
    ensures Touched(mutations) != {}
  {
  }

  /** Unchanged nodes keep their old levels, the zone takes the recomputed ones. */
  method Reassemble(oldLevels: Level, affected: set<Id>, newLevel: Level) returns (waves: seq<seq<Id>>)
    requires newLevel.Keys == affected && affected != {}
    ensures ListsLevels(waves, Merged(oldLevels, affected, newLevel))
  {
    hide ListsLevels, Placed;
    ghost var l := Merged(oldLevels, affected, newLevel);
    NothingPlaced(l);
    var levels, top := Place(map[], 0, oldLevels, affected, l, {});
    levels, top := Place(levels, top, newLevel, {}, l, {} + (oldLevels.Keys - affected));
    assert {} + (oldLevels.Keys - affected) + (newLevel.Keys - {}) == l.Keys;
    ghost var w :| w in affected;
    assert w in l;
    waves := Collect(levels, top, l);
  }

  // ----- nodes that were removed -----

  /** The graph with the touched nodes that are gone put back, without edges: the repair
      reads only lists, and cannot tell the two apart. */
  function Padded(g: Graph, nodes: set<Id>): Graph {
    g.(nodes := g.nodes + nodes)
  }

  lemma PaddedSame(g: Graph, nodes: set<Id>)
    requires WellFormed(g) && Unlisted(g, nodes)
    ensures WellFormed(Padded(g, nodes))
    ensures forall u, v :: IsEdge(Padded(g, nodes), u, v) <==> IsEdge(g, u, v)
    ensures nodes <= g.nodes ==> Padded(g, nodes) == g
  {
    var h := Padded(g, nodes);
    forall u, v ensures IsEdge(h, u, v) <==> IsEdge(g, u, v) {
      assert Succ(h, u) == Succ(g, u);
    }
    forall v ensures Into(h, v) == Into(g, v) {
      forall e ensures e in Into(h, v) <==> e in Into(g, v) {}
    }
    forall v ensures Into(h, v) != {} ==> v in g.nodes {
      if e :| e in Into(g, v) { assert IsEdge(g, e.0, v); }
    }
    if nodes <= g.nodes { assert g.nodes + nodes == g.nodes; }
  }

  lemma PaddedAcyclic(g: Graph, nodes: set<Id>)
    requires Acyclic(g) && forall u, v :: IsEdge(Padded(g, nodes), u, v) ==> IsEdge(g, u, v) && v in g.nodes
    ensures Acyclic(Padded(g, nodes))
  {
    var r :| Ranks(g, r);
    assert Ranks(Padded(g, nodes), (map v | v in nodes :: 0) + r);
  }

  /** Old levels outside the zone and new ones inside climb every edge, so there is no cycle. */
  lemma MergedClimbs(before: Graph, g: Graph, mutations: seq<Mutation>, oldLevels: Level, zone: set<Id>, lv: Level)
    requires Covers(before, g, mutations) && Touched(mutations) <= zone && IsLevel(before, oldLevels)
    requires ClosedZone(Padded(g, Touched(mutations)), zone) && Relaxed(Padded(g, Touched(mutations)), zone, From(Padded(g, Touched(mutations)), zone), lv)
    requires forall u, v :: IsEdge(Padded(g, Touched(mutations)), u, v) <==> IsEdge(g, u, v)
    requires forall u, v :: IsEdge(g, u, v) ==> v in g.nodes
    ensures Acyclic(g)
  {
    var h := Padded(g, Touched(mutations));
    var l := Merged(oldLevels, zone, lv);
    var r: map<Id, int> := map v | v in l :: l[v];
    forall v | v in g.nodes && v !in zone ensures v in oldLevels { UntouchedSame(before, g, mutations, zone, v); }
    forall u, v | IsEdge(g, u, v) && v in g.nodes ensures r[u] < r[v] {
      assert IsEdge(h, u, v);
      if v in zone {
        var e := ArcOfEdge(h, u, v);
        assert e in From(h, zone);
      } else {
        UntouchedSame(before, g, mutations, zone, v);
      }
    }
    assert Ranks(g, r);
  }

  /** A node in the waves that is not in the graph is in no schedule of the graph. */
  lemma GoneIsScheduled(g: Graph, l: Level, waves: seq<seq<Id>>, w: Id)
    requires ListsLevels(waves, l) && w in l && w !in g.nodes
    ensures !IsSchedule(g, waves)
  {
    assert w in waves[l[w]];
    forall m | Schedules(waves, m) ensures w in m { WaveLists(waves, m, l[w]); }
  }

  /** update_schedule: whenever the mutations account for the change, the repair fails exactly when
      the new graph has a cycle, and the repaired schedule is the schedule of the new graph exactly when
      every node that a mutation names is still there: a removed one is scheduled again. */
  method UpdateSchedule(g: Graph, oldSchedule: seq<seq<Id>>, mutations: seq<Mutation>, ghost before: Graph)
    returns (result: Option<seq<seq<Id>>>)
    requires WellFormed(g) && IsSchedule(before, oldSchedule) && Covers(before, g, mutations) && Unlisted(g, Touched(mutations))
    ensures result.Some? <==> Acyclic(g)
    ensures result.Some? ==> (IsSchedule(g, result.value) <==> Touched(mutations) <= g.nodes)
  {
    if mutations == [] {
      SameGraph(before, g, oldSchedule);
      ScheduleMeansAcyclic(g, oldSchedule);
      return Some(oldSchedule);
    }
    ghost var l0: Level :| IsLevel(before, l0) && Schedules(oldSchedule, l0);
    EdgesInside(g);
    PaddedSame(g, Touched(mutations));
    hide WellFormed, IsLevel, Schedules, ClosedZone, Relaxed, Acyclic, IsSchedule, Placed, IsEdge, Covers, Padded, ListsLevels;
    var named := NamedNodes(mutations);
    var h := Padded(g, named);
    PaddedNodes(g, named);
    var affected := InfluenceZone(h, named);
    var oldLevels := ReadLevels(oldSchedule, l0);
    var repaired := RepairLevels(h, affected, oldLevels);
    if repaired.None? {
      if Acyclic(g) { PaddedAcyclic(g, named); }
      return None;
    }
    var newLevel := repaired.value;
    RelaxedKeys(h, affected, From(h, affected), newLevel);
    MergedClimbs(before, g, mutations, oldLevels, affected, newLevel);
    ZoneNonempty(mutations);
    var waves := Reassemble(oldLevels, affected, newLevel);
    ghost var l := Merged(oldLevels, affected, newLevel);
    if named <= g.nodes {
      MergedIsLevel(before, g, mutations, oldLevels, affected, newLevel);
      LevelsSchedule(g, l, waves);
    } else {
      ghost var w :| w in named && w !in g.nodes;
      GoneIsScheduled(g, l, waves, w);
    }
    return Some(waves);
  }

  lemma PaddedNodes(g: Graph, nodes: set<Id>)
    ensures Padded(g, nodes).nodes == g.nodes + nodes
  {
  }

  lemma EdgesInside(g: Graph)
    requires WellFormed(g)
    ensures forall u, v :: IsEdge(g, u, v) ==> v in g.nodes
  {
  }

  /** On an acyclic graph the repair returns what computing the schedule afresh returns exactly when
      every node that a mutation names is still there; on a cyclic one both fail. */
  method RepairAgreesWithRecompute(g: Graph, oldSchedule: seq<seq<Id>>, mutations: seq<Mutation>, ghost before: Graph)
    returns (repaired: Option<seq<seq<Id>>>, fresh_: Option<seq<seq<Id>>>)
    requires WellFormed(g) && IsSchedule(before, oldSchedule) && Covers(before, g, mutations) && Unlisted(g, Touched(mutations))
    ensures repaired == fresh_ <==> !Acyclic(g) || Touched(mutations) <= g.nodes
    ensures (repaired.Some? <==> Acyclic(g)) && (fresh_.Some? <==> Acyclic(g))
  {
    repaired := UpdateSchedule(g, oldSchedule, mutations, before);
    fresh_ := ComputeWavefronts(g);
    if repaired.Some? && Touched(mutations) <= g.nodes {
      ScheduleUnique(g, repaired.value, fresh_.value);
    }
  }

  lemma Alone(v: Id)
    ensures var g := Graph({v}, map[v := []], map[v := []], map[v := 0]);
            IsSchedule(g, [[v]])
    ensures WellFormed(Graph({}, map[], map[], map[])) && Acyclic(Graph({}, map[], map[], map[]))
  {
    var g := Graph({v}, map[v := []], map[v := []], map[v := 0]);
    var l: Level := map[v := 0];
    assert forall u, w :: !IsEdge(g, u, w);
    assert Anchored(g, l, v);
    assert IsLevel(g, l);
    assert Lists([v], AtLevel(l, 0));
    assert Schedules([[v]], l);
    assert Ranks(Graph({}, map[], map[], map[]), map[]);
  }

  /** Removing the only node of a graph: the repair and the recomputation differ. */
  method RemovedNodeStays(v: Id)
    returns (g: Graph, mutations: seq<Mutation>, repaired: Option<seq<seq<Id>>>, fresh_: Option<seq<seq<Id>>>)
    ensures g == Graph({}, map[], map[], map[]) && mutations == [RemoveNode(v)]
    ensures repaired.Some? && fresh_.Some? && repaired != fresh_ && !IsSchedule(g, repaired.value)
  {
    Alone(v);
    ghost var before := Graph({v}, map[v := []], map[v := []], map[v := 0]);
    g, mutations := Graph({}, map[], map[], map[]), [RemoveNode(v)];
    assert mutations[..0] == [];
    assert Touched(mutations) == {v};
    repaired := UpdateSchedule(g, [[v]], mutations, before);
    fresh_ := ComputeWavefronts(g);
  }
}
