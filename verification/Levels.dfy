/** Dependency levels of a directed graph (core/hin_graph.py): the specification
    that both the full schedule and the incremental repair are proved against. */
module Levels {

  /** Node ids; `rank` is the position of the id in the string order the source sorts by. */
  datatype Id = Id(rank: int)

  /** Successor and predecessor lists with repetitions; a missing entry is empty. */
  datatype Graph = Graph(nodes: set<Id>, adjList: map<Id, seq<Id>>, reverseAdj: map<Id, seq<Id>>, inDegrees: map<Id, nat>)

  function Succ(g: Graph, u: Id): seq<Id> {
    if u in g.adjList then g.adjList[u] else []
  }

  function Pred(g: Graph, v: Id): seq<Id> {
    if v in g.reverseAdj then g.reverseAdj[v] else []
  }

  predicate IsEdge(g: Graph, u: Id, v: Id) {
    u in g.nodes && v in Succ(g, u)
  }

  /** One edge of the multigraph: the k-th successor of a node. */
  type Arc = (Id, nat)

  function Arcs(g: Graph): (arcs: set<Arc>)
    ensures forall e :: e in arcs <==> e.0 in g.nodes && e.1 < |Succ(g, e.0)|
  {
    set u, k: nat | u in g.nodes && k < |Succ(g, u)| :: (u, k)
  }

  function Into(g: Graph, v: Id): set<Arc> {
    set e | e in Arcs(g) && Succ(g, e.0)[e.1] == v
  }

  /** No edge leaves the graph, and the in-degrees count the incoming edges. */
  ghost predicate Forward(g: Graph) {
    && (forall u, v :: IsEdge(g, u, v) ==> v in g.nodes)
    && (forall v :: v in g.nodes ==> (if v in g.inDegrees then g.inDegrees[v] else 0) == |Into(g, v)|)
    && (forall v :: v in g.nodes && Into(g, v) != {} ==> v in g.inDegrees)
    && (forall v :: v in g.inDegrees ==> v in g.nodes)
  }

  /** The predecessor lists agree with the successor lists as well. */
  ghost predicate WellFormed(g: Graph) {
    && Forward(g)
    && (forall v, u :: v in g.nodes ==> (u in Pred(g, v) <==> IsEdge(g, u, v)))
    && (forall v :: v in g.nodes ==> |Pred(g, v)| == |Into(g, v)|)
  }

  // ----- adding one arc -----

  lemma NewArc(g: Graph, h: Graph, dep: Id, v: Id)
    requires dep in g.nodes && dep in g.adjList && h.nodes == g.nodes
    requires h.adjList == g.adjList[dep := g.adjList[dep] + [v]]
    ensures forall w :: Into(h, w) == Into(g, w) + if w == v then {(dep, |Succ(g, dep)|)} else {}
    ensures (dep, |Succ(g, dep)|) !in Into(g, v)
    ensures forall u, w :: IsEdge(h, u, w) <==> IsEdge(g, u, w) || (u == dep && w == v)
  {
  }

  /** The views of one node agree. */
  ghost predicate NodeFormed(g: Graph, v: Id) {
    && (if v in g.inDegrees then g.inDegrees[v] else 0) == |Into(g, v)| == |Pred(g, v)|
    && (Into(g, v) != {} ==> v in g.inDegrees)
    && (forall u :: u in Pred(g, v) <==> IsEdge(g, u, v))
  }

  lemma NodeByNode(g: Graph)
    ensures WellFormed(g) <==> (forall u, v :: IsEdge(g, u, v) ==> v in g.nodes) && g.inDegrees.Keys <= g.nodes
                               && forall v :: v in g.nodes ==> NodeFormed(g, v)
  {
  }

  ghost predicate Extends(g: Graph, h: Graph, dep: Id, v: Id) {
    && dep in g.nodes && v in g.nodes && dep in g.adjList && v in g.inDegrees && v in g.reverseAdj
    && h == Graph(g.nodes, g.adjList[dep := g.adjList[dep] + [v]], g.reverseAdj[v := g.reverseAdj[v] + [dep]], g.inDegrees[v := g.inDegrees[v] + 1])
  }

  lemma IntoGrows(g: Graph, h: Graph, dep: Id, v: Id, w: Id)
    requires Extends(g, h, dep, v)
    ensures if w == v then |Into(h, w)| == |Into(g, w)| + 1 && Into(h, w) != {} else Into(h, w) == Into(g, w)
  {
    NewArc(g, h, dep, v);
  }

  lemma EdgesGrow(g: Graph, h: Graph, dep: Id, v: Id, u: Id, w: Id)
    requires Extends(g, h, dep, v)
    ensures IsEdge(h, u, w) <==> IsEdge(g, u, w) || (u == dep && w == v)
    ensures u in Pred(h, w) <==> u in Pred(g, w) || (u == dep && w == v)
    ensures |Pred(h, w)| == |Pred(g, w)| + (if w == v then 1 else 0)
  {
  }

  lemma NodeExtended(g: Graph, h: Graph, dep: Id, v: Id, w: Id)
    requires Extends(g, h, dep, v) && NodeFormed(g, w)
    ensures NodeFormed(h, w)
  {
    hide Into, Arcs, IsEdge, Succ, Pred;
    IntoGrows(g, h, dep, v, w);
    forall u ensures u in Pred(h, w) <==> IsEdge(h, u, w) { EdgesGrow(g, h, dep, v, u, w); }
    EdgesGrow(g, h, dep, v, dep, w);
  }

  /** Recording one arc keeps every view of the graph in step. */
  lemma AddArc(g: Graph, h: Graph, dep: Id, v: Id)
    requires WellFormed(g) && Extends(g, h, dep, v)
    ensures WellFormed(h)
  {
    hide WellFormed, NodeFormed, IsEdge;
    NodeByNode(g);
    NodeByNode(h);
    forall w | w in h.nodes ensures NodeFormed(h, w) { NodeExtended(g, h, dep, v, w); }
    forall u, w | IsEdge(h, u, w) ensures w in h.nodes { EdgesGrow(g, h, dep, v, u, w); }
  }

  // ----- levels -----

  type Level = map<Id, nat>

  ghost predicate Ranks(g: Graph, r: map<Id, int>) {
    && (forall v :: v in g.nodes ==> v in r)
    && (forall u, v :: IsEdge(g, u, v) && v in g.nodes ==> r[u] < r[v])
  }

  ghost predicate Acyclic(g: Graph) {
    exists r :: Ranks(g, r)
  }

  /** A node of positive level has a predecessor exactly one level below. */
  ghost predicate Anchored(g: Graph, l: Level, v: Id)
    requires v in l
  {
    l[v] > 0 ==> exists u :: IsEdge(g, u, v) && u in l && l[u] == l[v] - 1
  }

  /** Every node lies just above its highest predecessor. */
  ghost predicate IsLevel(g: Graph, l: Level) {
    && l.Keys == g.nodes
    && (forall u, v :: IsEdge(g, u, v) && v in g.nodes ==> l[u] < l[v])
    && (forall v {:trigger Anchored(g, l, v)} :: v in g.nodes ==> Anchored(g, l, v))
  }

  lemma {:induction false} LevelBelow(g: Graph, l: Level, m: Level, v: Id)
    requires IsLevel(g, l) && IsLevel(g, m) && v in g.nodes
    ensures l[v] <= m[v]
    decreases l[v]
  {
    if l[v] > 0 {
      assert Anchored(g, l, v);
      var u :| IsEdge(g, u, v) && u in l && l[u] == l[v] - 1;
      LevelBelow(g, l, m, u);
    }
  }

  lemma LevelUnique(g: Graph, l: Level, m: Level)
    requires IsLevel(g, l) && IsLevel(g, m)
    ensures l == m
  {
    forall v | v in g.nodes ensures l[v] == m[v] {
      LevelBelow(g, l, m, v);
      LevelBelow(g, m, l, v);
    }
  }

  // ----- schedules -----

  predicate Ascending(s: seq<Id>) {
    forall i, j :: 0 <= i < j < |s| ==> s[i].rank < s[j].rank
  }

  ghost predicate Lists(s: seq<Id>, members: set<Id>) {
    Ascending(s) && forall v :: v in s <==> v in members
  }

  function AtLevel(l: Level, k: nat): set<Id> {
    set v | v in l && l[v] == k
  }

  /** Wave k lists the nodes of level k in order, and no wave is missing or empty. */
  ghost predicate Schedules(waves: seq<seq<Id>>, l: Level) {
    && (forall k :: 0 <= k < |waves| ==> Lists(waves[k], AtLevel(l, k)) && waves[k] != [])
    && (forall v :: v in l ==> l[v] < |waves|)
  }

  ghost predicate IsSchedule(g: Graph, waves: seq<seq<Id>>) {
    exists l :: IsLevel(g, l) && Schedules(waves, l)
  }

  lemma TailLists(s: seq<Id>, members: set<Id>)
    requires Lists(s, members) && s != []
    ensures s[0] in members && Lists(s[1..], members - {s[0]})
  {
  }

  lemma {:induction false} ListsUnique(s: seq<Id>, t: seq<Id>, members: set<Id>)
    requires Lists(s, members) && Lists(t, members)
    ensures s == t
    decreases |s|
  {
    if s != [] {
      TailLists(s, members);
      assert s[0] in t;
    }
    if t != [] {
      TailLists(t, members);
      assert t[0] in s;
      ListsUnique(s[1..], t[1..], members - {s[0]});
      assert s == [s[0]] + s[1..] && t == [t[0]] + t[1..];
    }
  }

  lemma WaveHead(waves: seq<seq<Id>>, l: Level, k: nat)
    requires Schedules(waves, l) && k < |waves|
    ensures waves[k] != [] && waves[k][0] in l && l[waves[k][0]] == k
  {
    assert waves[k][0] in waves[k];
  }

  lemma WaveLists(waves: seq<seq<Id>>, l: Level, k: nat)
    requires Schedules(waves, l) && k < |waves|
    ensures Lists(waves[k], AtLevel(l, k))
  {
  }

  lemma SameWave(waves: seq<seq<Id>>, other: seq<seq<Id>>, l: Level, k: nat)
    requires Schedules(waves, l) && Schedules(other, l) && k < |waves| && k < |other|
    ensures waves[k] == other[k]
  {
    WaveLists(waves, l, k);
    WaveLists(other, l, k);
    ListsUnique(waves[k], other[k], AtLevel(l, k));
  }

  lemma NoLonger(waves: seq<seq<Id>>, other: seq<seq<Id>>, l: Level)
    requires Schedules(waves, l) && Schedules(other, l)
    ensures |other| <= |waves|
  {
    if |waves| < |other| {
      WaveHead(other, l, |waves|);
    }
  }

  lemma SchedulesUnique(waves: seq<seq<Id>>, other: seq<seq<Id>>, l: Level)
    requires Schedules(waves, l) && Schedules(other, l)
    ensures waves == other
  {
    NoLonger(waves, other, l);
    NoLonger(other, waves, l);
    forall k | 0 <= k < |waves| ensures waves[k] == other[k] { SameWave(waves, other, l, k); }
  }

  /** The schedule of a graph is determined by the graph. */
  lemma ScheduleUnique(g: Graph, waves: seq<seq<Id>>, other: seq<seq<Id>>)
    requires IsSchedule(g, waves) && IsSchedule(g, other)
    ensures waves == other
  {
    var l :| IsLevel(g, l) && Schedules(waves, l);
    var m :| IsLevel(g, m) && Schedules(other, m);
    LevelUnique(g, l, m);
    SchedulesUnique(waves, other, l);
  }

  /** A schedule exists only for an acyclic graph. */
  lemma ScheduleMeansAcyclic(g: Graph, waves: seq<seq<Id>>)
    requires IsSchedule(g, waves)
    ensures Acyclic(g)
  {
    var l :| IsLevel(g, l) && Schedules(waves, l);
    var r: map<Id, int> := map v | v in l :: l[v];
    assert Ranks(g, r);
  }

  // ----- why a stalled sweep means a cycle -----

  lemma {:induction false} LeastIn(s: set<Id>, r: map<Id, int>) returns (v: Id)
    requires s != {} && forall u :: u in s ==> u in r
    ensures v in s && forall u :: u in s ==> r[v] <= r[u]
    decreases s
  {
    v :| v in s;
    if s != {v} {
      var w := LeastIn(s - {v}, r);
      if r[w] < r[v] { v := w; }
    }
  }

  /** If every node of a nonempty set has a predecessor in the set, no ranking exists. */
  lemma StalledMeansCyclic(g: Graph, left: set<Id>)
    requires left != {} && left <= g.nodes
    requires forall v :: v in left ==> exists u :: u in left && IsEdge(g, u, v)
    ensures !Acyclic(g)
  {
    if Acyclic(g) {
      var r :| Ranks(g, r);
      var v := LeastIn(left, r);
    }
  }

  // ----- sorting -----

  function InsertSorted(s: seq<Id>, x: Id): seq<Id> {
    if s == [] then [x] else if x.rank <= s[0].rank then [x] + s else [s[0]] + InsertSorted(s[1..], x)
  }

  function SortIds(s: seq<Id>): seq<Id> {
    if s == [] then [] else InsertSorted(SortIds(s[1..]), s[0])
  }

  lemma {:induction false} InsertLists(s: seq<Id>, x: Id, members: set<Id>)
    requires Lists(s, members) && x !in members
    ensures Lists(InsertSorted(s, x), members + {x})
    decreases |s|
  {
    if s != [] && x.rank > s[0].rank {
      TailLists(s, members);
      InsertLists(s[1..], x, members - {s[0]});
      var rest := InsertSorted(s[1..], x);
      forall i | 0 <= i < |rest| ensures s[0].rank < rest[i].rank {
        assert rest[i] in rest;
        if rest[i] != x { assert rest[i] in s[1..]; }
      }
      assert forall v :: v in [s[0]] + rest <==> v == s[0] || v in rest;
    } else if s != [] {
      assert forall v :: v in [x] + s <==> v == x || v in s;
      assert s[0] in s;
    }
  }

  lemma {:induction false} SortLists(s: seq<Id>)
    requires forall i, j :: 0 <= i < j < |s| ==> s[i] != s[j]
    ensures Lists(SortIds(s), set v | v in s)
    decreases |s|
  {
    if s != [] {
      SortLists(s[1..]);
      InsertLists(SortIds(s[1..]), s[0], set v | v in s[1..]);
      assert s == [s[0]] + s[1..];
      assert (set v | v in s[1..]) + {s[0]} == set v | v in s;
    }
  }
}
