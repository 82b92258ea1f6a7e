/** WavefrontScheduler (core/wavefront_scheduler.py): Kahn's layered sweep and the
    incremental repair of an old schedule, both proved against `Levels.IsSchedule`. */
module Wavefront {
  import opened Collections
  import opened MellTypes
  import opened Levels

  // ----- what the counters count -----

  function From(g: Graph, sources: set<Id>): set<Arc> {
    set e | e in Arcs(g) && e.0 in sources
  }

  function FirstArcs(g: Graph, u: Id, j: nat): set<Arc> {
    set e | e in Arcs(g) && e.0 == u && e.1 < j
  }

  /** Each counter holds the number of incoming arcs not yet removed. */
  ghost predicate Counts(g: Graph, degree: map<Id, int>, zone: set<Id>, removed: set<Arc>) {
    && degree.Keys <= zone
    && (forall v :: v in zone && v in degree ==> degree[v] == |Into(g, v) - removed|)
    && (forall v :: v in zone && v !in degree ==> Into(g, v) == {})
  }

  /** The nodes all of whose incoming arcs are removed. */
  ghost function Freed(g: Graph, zone: set<Id>, removed: set<Arc>): set<Id> {
    set v | v in zone && Into(g, v) <= removed
  }

  ghost predicate Enumerates(s: seq<Id>, members: set<Id>) {
    Distinct(s) && forall v :: v in s <==> v in members
  }

  function Members(s: seq<Id>): set<Id> {
    set v | v in s
  }

  lemma {:induction false} SizeIs(s: seq<Id>)
    requires Distinct(s)
    ensures |Members(s)| == |s|
  {
    if s != [] {
      SizeIs(s[1..]);
      assert s == [s[0]] + s[1..];
      assert Members(s) == {s[0]} + Members(s[1..]);
    }
  }

  lemma EnumeratesMore(s: seq<Id>, members: set<Id>, x: Id)
    requires Enumerates(s, members) && x !in members
    ensures Enumerates(s + [x], members + {x})
  {
  }

  lemma EnumeratesLess(s: seq<Id>, members: set<Id>)
    requires Enumerates(s, members) && s != []
    ensures s[0] in members && Enumerates(s[1..], members - {s[0]})
  {
  }

  lemma RemoveArc(arcs: set<Arc>, removed: set<Arc>, e: Arc)
    requires e in arcs && e !in removed
    ensures |arcs - (removed + {e})| == |arcs - removed| - 1
    ensures |arcs - removed| == 1 <==> arcs <= removed + {e}
  {
    var rest := arcs - (removed + {e});
    assert arcs - removed == rest + {e};
    if |arcs - removed| == 1 { assert rest == {}; }
    if arcs <= removed + {e} { assert rest == {}; }
  }

  lemma OneTarget(g: Graph, e: Arc, v: Id, w: Id)
    requires e in Into(g, v) && w != v
    ensures e !in Into(g, w)
  {
  }

  lemma OthersKeep(g: Graph, removed: set<Arc>, e: Arc, v: Id, w: Id)
    requires e in Into(g, v) && w != v
    ensures Into(g, w) - (removed + {e}) == Into(g, w) - removed
    ensures Into(g, w) <= removed + {e} <==> Into(g, w) <= removed
  {
  }

  lemma CountsStep(g: Graph, degree: map<Id, int>, zone: set<Id>, removed: set<Arc>, e: Arc, v: Id)
    requires Counts(g, degree, zone, removed) && v in zone && e in Into(g, v) && e !in removed
    ensures v in degree && Counts(g, degree[v := degree[v] - 1], zone, removed + {e})
  {
    hide Into;
    RemoveArc(Into(g, v), removed, e);
    var now := degree[v := degree[v] - 1];
    forall w | w in zone && w in now ensures now[w] == |Into(g, w) - (removed + {e})| {
      if w != v { OthersKeep(g, removed, e, v, w); }
    }
  }

  /** Removing one arc frees at most its target, and that exactly when the counter was one. */
  lemma FreedStep(g: Graph, degree: map<Id, int>, zone: set<Id>, removed: set<Arc>, e: Arc, v: Id)
    requires Counts(g, degree, zone, removed) && v in zone && e in Into(g, v) && e !in removed
    ensures v in degree && v !in Freed(g, zone, removed)
    ensures Freed(g, zone, removed + {e}) == Freed(g, zone, removed) + (if degree[v] == 1 then {v} else {})
  {
    hide Into;
    RemoveArc(Into(g, v), removed, e);
    forall w | w in zone && w != v ensures Into(g, w) <= removed + {e} <==> Into(g, w) <= removed {
      OthersKeep(g, removed, e, v, w);
    }
  }

  lemma FirstArcsStep(g: Graph, u: Id, j: nat)
    requires u in g.nodes && j < |Succ(g, u)|
    ensures FirstArcs(g, u, j + 1) == FirstArcs(g, u, j) + {(u, j)} && (u, j) !in FirstArcs(g, u, j)
    ensures (u, j) in Into(g, Succ(g, u)[j])
  {
  }

  lemma ArcOfEdge(g: Graph, u: Id, v: Id) returns (e: Arc)
    requires IsEdge(g, u, v)
    ensures e in Into(g, v) && e.0 == u
  {
    var k :| 0 <= k < |Succ(g, u)| && Succ(g, u)[k] == v;
    e := (u, k);
  }

  /** A freed node is one whose predecessors are all among the sources. */
  lemma FreedMeansPreceded(g: Graph, zone: set<Id>, sources: set<Id>, v: Id)
    requires v in zone
    ensures v in Freed(g, zone, From(g, sources)) <==> forall u :: IsEdge(g, u, v) ==> u in sources
  {
    if v in Freed(g, zone, From(g, sources)) {
      forall u | IsEdge(g, u, v) ensures u in sources { var e := ArcOfEdge(g, u, v); }
    }
    if forall u :: IsEdge(g, u, v) ==> u in sources {
      forall e | e in Into(g, v) ensures e in From(g, sources) { assert IsEdge(g, e.0, v); }
    }
  }

  // ----- the full schedule -----

  /** The finished waves level exactly the nodes of `l`, which are closed under predecessors. */
  ghost predicate Swept(g: Graph, l: Level, waves: seq<seq<Id>>) {
    && l.Keys <= g.nodes
    && (forall u, v :: IsEdge(g, u, v) && v in l ==> u in l && l[u] < l[v])
    && (forall v {:trigger Anchored(g, l, v)} :: v in l ==> Anchored(g, l, v))
    && Schedules(waves, l)
  }

  /** The nodes of the next wave: unfinished, with every predecessor finished, one of them just now. */
  ghost predicate NextWave(g: Graph, l: Level, wave: seq<Id>, k: nat) {
    && Enumerates(wave, Freed(g, g.nodes, From(g, l.Keys)) - l.Keys)
    && (k > 0 ==> forall v :: v in wave ==> exists u :: IsEdge(g, u, v) && u in l && l[u] == k - 1)
  }

  ghost function Extended(l: Level, wave: seq<Id>, k: nat): Level {
    l + map v | v in wave :: k
  }

  lemma ExtendedAt(l: Level, wave: seq<Id>, k: nat, j: nat)
    requires (forall v :: v in wave ==> v !in l) && (forall v :: v in l ==> l[v] < k)
    ensures j < k ==> AtLevel(Extended(l, wave, k), j) == AtLevel(l, j)
    ensures AtLevel(Extended(l, wave, k), k) == Members(wave)
  {
  }

  lemma SchedulesExtended(l: Level, waves: seq<seq<Id>>, wave: seq<Id>)
    requires Schedules(waves, l) && wave != [] && Enumerates(wave, Members(wave))
    requires forall v :: v in wave ==> v !in l
    ensures Schedules(waves + [SortIds(wave)], Extended(l, wave, |waves|))
  {
    var k, more := |waves|, waves + [SortIds(wave)];
    SortLists(wave);
    assert wave[0] in wave && wave[0] in SortIds(wave);
    forall j | 0 <= j < |more| ensures Lists(more[j], AtLevel(Extended(l, wave, k), j)) && more[j] != [] {
      ExtendedAt(l, wave, k, j);
    }
  }

  lemma SweptExtended(g: Graph, l: Level, waves: seq<seq<Id>>, wave: seq<Id>)
    requires Swept(g, l, waves) && NextWave(g, l, wave, |waves|) && wave != []
    ensures Swept(g, Extended(l, wave, |waves|), waves + [SortIds(wave)])
  {
    var next := Extended(l, wave, |waves|);
    forall u, v | IsEdge(g, u, v) && v in next ensures u in next && next[u] < next[v] {
      if v in wave { FreedMeansPreceded(g, g.nodes, l.Keys, v); }
    }
    forall v | v in next && next[v] > 0 ensures Anchored(g, next, v) {
      if v in wave {
        var u :| IsEdge(g, u, v) && u in l && l[u] == |waves| - 1;
        assert u !in wave;
      } else {
        assert Anchored(g, l, v);
        var u :| IsEdge(g, u, v) && u in l && l[u] == l[v] - 1;
        assert u !in wave;
      }
    }
    SchedulesExtended(l, waves, wave);
  }

  /** What becomes free when a wave is finished is the next wave. */
  lemma NextWaveAfter(g: Graph, l: Level, waves: seq<seq<Id>>, wave: seq<Id>, next: seq<Id>)
    requires Swept(g, l, waves) && NextWave(g, l, wave, |waves|)
    requires Enumerates(next, Freed(g, g.nodes, From(g, l.Keys + Members(wave))) - Freed(g, g.nodes, From(g, l.Keys)))
    ensures NextWave(g, Extended(l, wave, |waves|), next, |waves| + 1)
  {
    var done, after := l.Keys, Extended(l, wave, |waves|);
    assert after.Keys == done + Members(wave);
    var freed, more := Freed(g, g.nodes, From(g, done)), Freed(g, g.nodes, From(g, after.Keys));
    forall v | v in g.nodes ensures v in more - freed <==> v in more - after.Keys {
      FreedMeansPreceded(g, g.nodes, done, v);
      assert v in wave <==> v in freed - done;
      if v in done { assert v in freed; }
    }
    assert more - freed == more - after.Keys;
    forall v | v in next ensures exists u :: IsEdge(g, u, v) && u in after && after[u] == |waves| {
      FreedMeansPreceded(g, g.nodes, done, v);
      FreedMeansPreceded(g, g.nodes, after.Keys, v);
      var u :| IsEdge(g, u, v) && u !in done;
      assert u in wave;
    }
  }

  lemma NoneLeft(arcs: set<Arc>, removed: set<Arc>)
    ensures arcs <= removed <==> |arcs - removed| == 0
  {
    if arcs <= removed { assert arcs - removed == {}; }
    if !(arcs <= removed) {
      var e :| e in arcs && e !in removed;
      assert e in arcs - removed;
    }
  }

  lemma FreedCountsZero(g: Graph, degree: map<Id, int>, zone: set<Id>, removed: set<Arc>, v: Id)
    requires Counts(g, degree, zone, removed) && v in zone
    ensures v in Freed(g, zone, removed) <==> (v in degree ==> degree[v] == 0)
    ensures v in degree ==> degree[v] >= 0
  {
    hide Into;
    NoneLeft(Into(g, v), removed);
  }

  lemma StuckNode(g: Graph, l: Level, v: Id)
    requires NextWave(g, l, [], 0) && v in g.nodes && v !in l
    ensures v !in Freed(g, g.nodes, From(g, l.Keys))
    ensures exists u :: u in g.nodes - l.Keys && IsEdge(g, u, v)
  {
    hide Freed, From, Into;
    assert v !in [];
    FreedMeansPreceded(g, g.nodes, l.Keys, v);
  }

  lemma SweepFinished(g: Graph, l: Level, waves: seq<seq<Id>>, degree: map<Id, int>)
    requires Swept(g, l, waves) && g.nodes <= l.Keys && Counts(g, degree, g.nodes, From(g, l.Keys))
    ensures !exists v :: v in degree && degree[v] > 0
    ensures IsLevel(g, l) && IsSchedule(g, waves)
  {
  }

  lemma SweepStalled(g: Graph, l: Level, degree: map<Id, int>, v: Id)
    requires NextWave(g, l, [], 0) && v in g.nodes && v !in l && Counts(g, degree, g.nodes, From(g, l.Keys))
    ensures v in degree && degree[v] > 0
    ensures !Acyclic(g)
  {
    hide Freed, From, Into, NextWave, Acyclic;
    var left := g.nodes - l.Keys;
    forall w | w in left ensures exists u :: u in left && IsEdge(g, u, w) { StuckNode(g, l, w); }
    StuckNode(g, l, v);
    FreedCountsZero(g, degree, g.nodes, From(g, l.Keys), v);
    StalledMeansCyclic(g, left);
  }

  /** A sweep with nothing free has either finished or met a cycle. */
  lemma SweepEnds(g: Graph, l: Level, waves: seq<seq<Id>>, degree: map<Id, int>)
    requires BetweenLayers(g, l, waves, degree, [])
    ensures (exists v :: v in degree && degree[v] > 0) <==> !Acyclic(g)
    ensures Acyclic(g) ==> IsSchedule(g, waves)
  {
    hide Freed, From, Into, Counts, Enumerates, Schedules, Acyclic, IsSchedule, Swept;
    if v :| v in g.nodes && v !in l {
      SweepStalled(g, l, degree, v);
    } else {
      SweepFinished(g, l, waves, degree);
      ScheduleMeansAcyclic(g, waves);
    }
  }

  lemma EnumerateNext(s: seq<Id>, members: set<Id>, more: set<Id>, before: set<Id>, x: Id)
    requires Enumerates(s, members - before) && x !in members && x !in before && more == members + {x}
    ensures Enumerates(s + [x], more - before)
  {
    EnumeratesMore(s, members - before, x);
    assert members - before + {x} == more - before;
  }

  /** The nodes without incoming arcs, in whatever order the set yields them. */
  method Sources(g: Graph, degree: map<Id, int>) returns (queue: seq<Id>)
    requires Counts(g, degree, g.nodes, {})
    ensures Enumerates(queue, Freed(g, g.nodes, {}))
  {
    hide Counts, Into, Enumerates;
    queue := [];
    ghost var free := Freed(g, g.nodes, {});
    var left := g.nodes;
    assert free - left == {};
    assert Enumerates(queue, {}) by { NoneEnumerated(); }
    while left != {}
      invariant left <= g.nodes
      invariant Enumerates(queue, free - left)
      decreases left
    {
      var n :| n in left;
      FreedCountsZero(g, degree, g.nodes, {}, n);
      if n !in degree || degree[n] == 0 {
        EnumeratesMore(queue, free - left, n);
        queue := queue + [n];
        assert free - left + {n} == free - (left - {n});
      } else {
        assert free - left == free - (left - {n});
      }
      left := left - {n};
    }
    assert free - left == free;
  }

  lemma NoneEnumerated()
    ensures Enumerates([], {})
  {
  }

  lemma ReleaseArc(g: Graph, node: Id, removed: set<Arc>, j: nat)
    requires Forward(g) && node in g.nodes && removed !! FirstArcs(g, node, |Succ(g, node)|) && j < |Succ(g, node)|
    ensures removed + FirstArcs(g, node, j + 1) == removed + FirstArcs(g, node, j) + {(node, j)}
    ensures (node, j) !in removed + FirstArcs(g, node, j)
    ensures Succ(g, node)[j] in g.nodes && (node, j) in Into(g, Succ(g, node)[j])
  {
    FirstArcsStep(g, node, j);
    assert IsEdge(g, node, Succ(g, node)[j]);
    assert (node, j) in FirstArcs(g, node, |Succ(g, node)|);
  }

  /** Counters and queue in step: queued are the nodes freed since `before`. */
  ghost predicate Sweeping(g: Graph, zone: set<Id>, degree: map<Id, int>, queue: seq<Id>, before: set<Id>, removed: set<Arc>) {
    && Counts(g, degree, zone, removed)
    && before <= Freed(g, zone, removed)
    && Enumerates(queue, Freed(g, zone, removed) - before)
  }

  lemma SweepingStep(g: Graph, zone: set<Id>, degree: map<Id, int>, queue: seq<Id>, before: set<Id>, removed: set<Arc>, e: Arc, nbr: Id)
    requires Sweeping(g, zone, degree, queue, before, removed) && nbr in zone && e in Into(g, nbr) && e !in removed
    ensures nbr in degree && nbr !in before
    ensures Sweeping(g, zone, degree[nbr := degree[nbr] - 1], if degree[nbr] == 1 then queue + [nbr] else queue, before, removed + {e})
  {
    hide Into, Enumerates, Counts;
    CountsStep(g, degree, zone, removed, e, nbr);
    FreedStep(g, degree, zone, removed, e, nbr);
    hide Freed;
    var more := Freed(g, zone, removed + {e});
    if degree[nbr] == 1 {
      EnumerateNext(queue, Freed(g, zone, removed), more, before, nbr);
    } else {
      assert more == Freed(g, zone, removed);
    }
  }

  lemma NoArcsYet(g: Graph, node: Id, removed: set<Arc>)
    ensures removed + FirstArcs(g, node, 0) == removed
  {
  }

  /** Takes the arcs of one finished node off its successors' counters. */
  method Release(g: Graph, degree0: map<Id, int>, queue0: seq<Id>, node: Id, ghost before: set<Id>, ghost removed: set<Arc>)
    returns (degree: map<Id, int>, queue: seq<Id>)
    requires Forward(g) && node in g.nodes && removed !! FirstArcs(g, node, |Succ(g, node)|)
    requires Sweeping(g, g.nodes, degree0, queue0, before, removed)
    ensures Sweeping(g, g.nodes, degree, queue, before, removed + FirstArcs(g, node, |Succ(g, node)|))
  {
    hide *;
    NoArcsYet(g, node, removed);
    degree, queue := degree0, queue0;
    var j := 0;
    while j < |Succ(g, node)|
      invariant 0 <= j <= |Succ(g, node)|
      invariant Sweeping(g, g.nodes, degree, queue, before, removed + FirstArcs(g, node, j))
    {
      var nbr := Succ(g, node)[j];
      ReleaseArc(g, node, removed, j);
      SweepingStep(g, g.nodes, degree, queue, before, removed + FirstArcs(g, node, j), (node, j), nbr);
      degree := degree[nbr := degree[nbr] - 1];
      if degree[nbr] == 0 {
        queue := queue + [nbr];
      }
      j := j + 1;
    }
  }

  lemma LayerStep(g: Graph, before: set<Id>, finished: set<Id>, node: Id)
    requires node in g.nodes && node !in finished
    ensures From(g, finished) !! FirstArcs(g, node, |Succ(g, node)|)
    ensures From(g, finished + {node}) == From(g, finished) + FirstArcs(g, node, |Succ(g, node)|)
  {
  }

  lemma NothingRemoved(g: Graph, degree: map<Id, int>)
    requires Forward(g) && degree.Keys == g.inDegrees.Keys && forall v :: v in degree ==> degree[v] == g.inDegrees[v]
    ensures Counts(g, degree, g.nodes, {})
  {
  }

  /** One breadth-first layer: finishes every queued node and collects what that frees. */
  method SweepLayer(g: Graph, degree0: map<Id, int>, queue: seq<Id>, ghost done: set<Id>, ghost before: set<Id>)
    returns (degree: map<Id, int>, wave: seq<Id>, next: seq<Id>)
    requires Forward(g) && Sweeping(g, g.nodes, degree0, [], before, From(g, done))
    requires before <= g.nodes && Enumerates(queue, before - done)
    ensures wave == queue
    ensures Sweeping(g, g.nodes, degree, next, before, From(g, done + Members(queue)))
  {
    hide Sweeping, Into, FirstArcs, From, Forward, Freed, Succ, Arcs;
    degree, wave, next := degree0, [], [];
    ghost var finished := done;
    var i := 0;
    while i < |queue|
      invariant 0 <= i <= |queue| && wave == queue[..i]
      invariant finished == done + Members(queue[..i])
      invariant Sweeping(g, g.nodes, degree, next, before, From(g, finished))
    {
      var node := queue[i];
      assert node in queue && node !in finished;
      LayerStep(g, before, finished, node);
      wave := wave + [node];
      degree, next := Release(g, degree, next, node, before, From(g, finished));
      finished := finished + {node};
      assert queue[..i + 1] == queue[..i] + [node];
      i := i + 1;
    }
    assert queue[..i] == queue;
  }

  /** Between two layers: the waves so far level the finished nodes, and the queue is the next wave. */
  ghost predicate BetweenLayers(g: Graph, l: Level, waves: seq<seq<Id>>, degree: map<Id, int>, queue: seq<Id>) {
    && Swept(g, l, waves)
    && NextWave(g, l, queue, |waves|)
    && Counts(g, degree, g.nodes, From(g, l.Keys))
  }

  lemma BeforeLayers(g: Graph, degree: map<Id, int>, queue: seq<Id>)
    requires Counts(g, degree, g.nodes, {}) && Enumerates(queue, Freed(g, g.nodes, {}))
    ensures BetweenLayers(g, map[], [], degree, queue)
  {
    var l: Level := map[];
    assert From(g, l.Keys) == {};
    assert Freed(g, g.nodes, {}) - l.Keys == Freed(g, g.nodes, {});
  }

  lemma EntersLayer(g: Graph, l: Level, waves: seq<seq<Id>>, degree: map<Id, int>, queue: seq<Id>)
    requires BetweenLayers(g, l, waves, degree, queue)
    ensures Sweeping(g, g.nodes, degree, [], Freed(g, g.nodes, From(g, l.Keys)), From(g, l.Keys))
    ensures Freed(g, g.nodes, From(g, l.Keys)) <= g.nodes
    ensures Enumerates(queue, Freed(g, g.nodes, From(g, l.Keys)) - l.Keys)
  {
  }

  lemma LeavesLayer(g: Graph, l: Level, waves: seq<seq<Id>>, degree0: map<Id, int>, queue: seq<Id>, degree: map<Id, int>, next: seq<Id>)
    requires BetweenLayers(g, l, waves, degree0, queue) && queue != []
    requires Sweeping(g, g.nodes, degree, next, Freed(g, g.nodes, From(g, l.Keys)), From(g, l.Keys + Members(queue)))
    ensures BetweenLayers(g, Extended(l, queue, |waves|), waves + [SortIds(queue)], degree, next)
    ensures queue[0] in g.nodes - l.Keys && Extended(l, queue, |waves|).Keys == l.Keys + Members(queue)
  {
    assert queue[0] in queue && queue[0] in Freed(g, g.nodes, From(g, l.Keys)) - l.Keys;
    hide Freed, From, Counts, Swept, NextWave;
    SweptExtended(g, l, waves, queue);
    NextWaveAfter(g, l, waves, queue, next);
    assert Extended(l, queue, |waves|).Keys == l.Keys + Members(queue);
  }

  /** compute_wavefronts: the schedule of the graph, or None exactly when it has a cycle. */
  method ComputeWavefronts(g: Graph) returns (result: Option<seq<seq<Id>>>)
    requires Forward(g)
    ensures result.Some? <==> Acyclic(g)
    ensures result.Some? ==> IsSchedule(g, result.value)
  {
    var inDegree: map<Id, int> := map v | v in g.inDegrees :: g.inDegrees[v];
    NothingRemoved(g, inDegree);
    hide Forward, BetweenLayers, Acyclic, IsSchedule, Counts, Enumerates, Freed, From, Sweeping, Into, Extended;
    var queue := Sources(g, inDegree);
    var waves: seq<seq<Id>> := [];
    ghost var l: Level := map[];
    BeforeLayers(g, inDegree, queue);
    while queue != []
      invariant BetweenLayers(g, l, waves, inDegree, queue)
      decreases g.nodes - l.Keys
    {
      EntersLayer(g, l, waves, inDegree, queue);
      var degree, wave, next := SweepLayer(g, inDegree, queue, l.Keys, Freed(g, g.nodes, From(g, l.Keys)));
      LeavesLayer(g, l, waves, inDegree, queue, degree, next);
      assert queue[0] in queue;
      l := Extended(l, queue, |waves|);
      waves := waves + [SortIds(wave)];
      inDegree, queue := degree, next;
    }
    SweepEnds(g, l, waves, inDegree);
    if exists v :: v in inDegree && inDegree[v] > 0 {
      return None;
    }
    return Some(waves);
  }
}
