/** Non-dominated sorting and the Pareto archive (builder_brains/parameter_tuner.py): fronts are
    the levels of the domination graph. */
module ParetoFronts {
  import opened Levels
  import opened Wavefront

  // ----- domination -----

  function Shorter(a: seq<int>, b: seq<int>): nat {
    if |a| < |b| then |a| else |b|
  }

  /** No worse in every shared objective and strictly better in one. */
  predicate Better(a: seq<int>, b: seq<int>) {
    && (forall i :: 0 <= i < Shorter(a, b) ==> a[i] >= b[i])
    && exists i :: 0 <= i < Shorter(a, b) && a[i] > b[i]
  }

  /** dominates */
  method Dominates(a: seq<int>, b: seq<int>) returns (r: bool)
    ensures r <==> Better(a, b)
  {
    if Shorter(a, b) == 0 {
      return false;
    }
    var strictlyBetter := false;
    for idx := 0 to Shorter(a, b)
      invariant forall i :: 0 <= i < idx ==> a[i] >= b[i]
      invariant strictlyBetter <==> exists i :: 0 <= i < idx && a[i] > b[i]
    {
      if a[idx] < b[idx] {
        return false;
      }
      if a[idx] > b[idx] {
        strictlyBetter := true;
      }
    }
    return strictlyBetter;
  }

  /** a is ahead of b at the first objective where they differ. */
  ghost predicate Ahead(a: seq<int>, b: seq<int>) {
    exists k: nat :: k < Shorter(a, b) && a[..k] == b[..k] && a[k] > b[k]
  }

  lemma {:induction false} BetterFrom(a: seq<int>, b: seq<int>, k: nat)
    requires Better(a, b) && k <= Shorter(a, b) && a[..k] == b[..k]
    ensures Ahead(a, b)
    decreases Shorter(a, b) - k
  {
    assert k < Shorter(a, b) by {
      var i :| 0 <= i < Shorter(a, b) && a[i] > b[i];
      assert forall j :: 0 <= j < k ==> a[j] == a[..k][j] == b[..k][j] == b[j];
    }
    if a[k] == b[k] {
      assert a[..k + 1] == a[..k] + [a[k]] == b[..k + 1];
      BetterFrom(a, b, k + 1);
    }
  }

  lemma AheadThrough(a: seq<int>, b: seq<int>, c: seq<int>)
    requires Ahead(a, b) && Ahead(b, c)
    ensures Ahead(a, c)
  {
    var k: nat :| k < Shorter(a, b) && a[..k] == b[..k] && a[k] > b[k];
    var m: nat :| m < Shorter(b, c) && b[..m] == c[..m] && b[m] > c[m];
    var j := if k < m then k else m;
    assert a[..j] == a[..k][..j] == b[..j] == b[..m][..j] == c[..j];
    if k < m {
      assert b[..m][k] == c[..m][k];
    } else if m < k {
      assert a[..k][m] == b[..k][m];
    }
    assert a[j] > c[j];
  }

  /** Between vectors of different lengths, domination is not transitive. */
  lemma BetterIsNotTransitive()
    ensures Better([1, 0], [0]) && Better([0], [-1, 5]) && !Better([1, 0], [-1, 5])
  {
    assert [1, 0][0] > [0][0] && [0][0] > [-1, 5][0] && [1, 0][1] < [-1, 5][1];
  }

  /** Domination composes from vectors of length l through those of length m to those of length n. */
  ghost predicate Composes(l: nat, m: nat, n: nat) {
    forall a, b, c :: |a| == l && |b| == m && |c| == n && Better(a, b) && Better(b, c) ==> Better(a, c)
  }

  lemma BetterThrough(a: seq<int>, b: seq<int>, c: seq<int>)
    requires |b| >= |a| || |b| >= |c|
    requires Better(a, b) && Better(b, c)
    ensures Better(a, c)
  {
    var i :| 0 <= i < Shorter(a, b) && a[i] > b[i];
    var j :| 0 <= j < Shorter(b, c) && b[j] > c[j];
    assert a[if |c| <= |a| then j else i] > c[if |c| <= |a| then j else i];
  }

  function Stepped(n: nat, height: int, m: nat, beyond: int): (v: seq<int>)
    ensures |v| == n && forall i :: 0 <= i < n ==> v[i] == if i < m then height else beyond
  {
    seq(n, i => if i < m then height else beyond)
  }

  /** Domination composes exactly when the middle vector is empty, or no shorter than one of the outer two:
      so always between vectors of one length. */
  lemma BetterComposesExactly(l: nat, m: nat, n: nat)
    ensures Composes(l, m, n) <==> m == 0 || m >= l || m >= n
  {
    if m == 0 || m >= l || m >= n {
      forall a: seq<int>, b: seq<int>, c: seq<int> | |a| == l && |b| == m && |c| == n && Better(a, b) && Better(b, c) ensures Better(a, c) {
        BetterThrough(a, b, c);
      }
    } else {
      var a, b, c := Stepped(l, 1, m, 0), Stepped(m, 0, m, 0), Stepped(n, -1, m, 5);
      assert a[0] > b[0] && b[0] > c[0] && a[m] < c[m];
    }
  }

  type Fitness = map<Id, seq<int>>

  /** All members have a fitness vector, of whatever length. */
  ghost predicate Scored(members: set<Id>, fit: Fitness) {
    forall v :: v in members ==> v in fit
  }

  predicate Beats(fit: Fitness, u: Id, v: Id) {
    u in fit && v in fit && Better(fit[u], fit[v])
  }

  function Beaters(members: set<Id>, fit: Fitness, v: Id): set<Id> {
    set u | u in members && Beats(fit, u, v)
  }

  function Beaten(members: set<Id>, fit: Fitness, u: Id): set<Id> {
    set v | v in members && Beats(fit, u, v)
  }

  // ----- the domination graph -----

  /** Successor lists hold each dominated member once; in-degrees count the dominators. */
  ghost predicate DominationGraph(g: Graph, fit: Fitness) {
    && g.adjList.Keys == g.nodes && g.inDegrees.Keys == g.nodes
    && (forall u :: u in g.nodes ==> Enumerates(g.adjList[u], Beaten(g.nodes, fit, u)))
    && (forall v :: v in g.nodes ==> g.inDegrees[v] == |Beaters(g.nodes, fit, v)|)
  }

  lemma EdgesBeat(g: Graph, fit: Fitness, u: Id, v: Id)
    requires DominationGraph(g, fit)
    ensures IsEdge(g, u, v) <==> u in g.nodes && v in g.nodes && Beats(fit, u, v)
  {
  }

  /** The arcs into v from some of the nodes. */
  function ArcsFrom(g: Graph, v: Id, sources: set<Id>): (arcs: set<Arc>)
    ensures forall e :: e in arcs <==> e in Into(g, v) && e.0 in sources
  {
    set e | e in Into(g, v) && e.0 in sources
  }

  lemma BeaterEdge(g: Graph, fit: Fitness, u: Id, v: Id)
    requires DominationGraph(g, fit) && v in g.nodes && u in Beaters(g.nodes, fit, v)
    ensures IsEdge(g, u, v)
  {
  }

  /** One arc per dominator. */
  lemma {:induction false} OneArcEach(g: Graph, fit: Fitness, v: Id, sources: set<Id>)
    requires DominationGraph(g, fit) && v in g.nodes && sources <= Beaters(g.nodes, fit, v)
    ensures |ArcsFrom(g, v, sources)| == |sources|
    decreases sources
  {
    hide *;
    if sources == {} {
      assert ArcsFrom(g, v, sources) == {};
    } else {
      var u :| u in sources;
      OneArcEach(g, fit, v, sources - {u});
      BeaterEdge(g, fit, u, v);
      var e := ArcOfEdge(g, u, v);
      OnlyArc(g, fit, v, u, e);
      assert ArcsFrom(g, v, sources) == ArcsFrom(g, v, sources - {u}) + {e};
    }
  }

  lemma OnlyArc(g: Graph, fit: Fitness, v: Id, u: Id, e: Arc)
    requires DominationGraph(g, fit) && e in Into(g, v) && e.0 == u
    ensures forall d :: d in Into(g, v) && d.0 == u ==> d == e
  {
  }

  lemma IntoIsBeaters(g: Graph, fit: Fitness, v: Id)
    requires DominationGraph(g, fit) && v in g.nodes
    ensures |Into(g, v)| == |Beaters(g.nodes, fit, v)|
  {
    OneArcEach(g, fit, v, Beaters(g.nodes, fit, v));
    forall e | e in Into(g, v) ensures e.0 in Beaters(g.nodes, fit, v) {
      EdgesBeat(g, fit, e.0, v);
      assert IsEdge(g, e.0, v);
    }
    assert ArcsFrom(g, v, Beaters(g.nodes, fit, v)) == Into(g, v);
  }

  lemma GraphForward(g: Graph, fit: Fitness)
    requires DominationGraph(g, fit)
    ensures Forward(g)
  {
    hide Into, Beaters, Beaten, Enumerates, IsEdge;
    forall v | v in g.nodes ensures g.inDegrees[v] == |Into(g, v)| { IntoIsBeaters(g, fit, v); }
    forall u, v | IsEdge(g, u, v) ensures v in g.nodes { EdgesBeat(g, fit, u, v); }
  }

  ghost function InFront(nodes: set<Id>, fit: Fitness, v: Id): (ahead: set<Id>)
    requires v in fit && Scored(nodes, fit)
    ensures forall w :: w in ahead <==> w in nodes && Ahead(fit[w], fit[v])
  {
    set w | w in nodes && Ahead(fit[w], fit[v])
  }

  /** Fewer members are ahead of a dominator than of the member it dominates. */
  lemma FewerAhead(nodes: set<Id>, fit: Fitness, u: Id, v: Id)
    requires Scored(nodes, fit) && u in nodes && v in nodes && Beats(fit, u, v)
    ensures |InFront(nodes, fit, u)| < |InFront(nodes, fit, v)|
  {
    var s, t := InFront(nodes, fit, u), InFront(nodes, fit, v);
    BetterFrom(fit[u], fit[v], 0);
    forall w | w in s ensures w in t { AheadThrough(fit[w], fit[u], fit[v]); }
    assert s <= t - {u};
    SmallerPart(s, t - {u});
  }

  lemma SmallerPart(s: set<Id>, t: set<Id>)
    requires s <= t
    ensures |s| <= |t|
  {
    assert t == s + (t - s);
  }

  /** Domination has no cycle even between vectors of different lengths, where it is not transitive. */
  lemma GraphAcyclic(g: Graph, fit: Fitness)
    requires DominationGraph(g, fit) && Scored(g.nodes, fit)
    ensures Acyclic(g)
  {
    hide DominationGraph, Beats, InFront;
    var r: map<Id, int> := map v | v in g.nodes :: |InFront(g.nodes, fit, v)|;
    forall u, v | IsEdge(g, u, v) && v in g.nodes ensures r[u] < r[v] {
      EdgesBeat(g, fit, u, v);
      FewerAhead(g.nodes, fit, u, v);
    }
    assert Ranks(g, r);
  }

  // ----- filling the graph -----

  /** The members seen so far that c dominates, and the number that dominate c. */
  ghost predicate Compared(seen: set<Id>, fit: Fitness, c: Id, dominated: seq<Id>, count: nat) {
    Enumerates(dominated, Beaten(seen, fit, c)) && count == |Beaters(seen, fit, c)|
  }

  lemma ComparedNone(fit: Fitness, c: Id)
    ensures Compared({}, fit, c, [], 0)
  {
  }

  lemma Exclusive(fit: Fitness, c: Id, o: Id)
    requires c in fit && o in fit
    ensures !(Beats(fit, c, o) && Beats(fit, o, c)) && !Beats(fit, c, c)
  {
  }

  lemma BeatenMore(seen: set<Id>, fit: Fitness, c: Id, o: Id)
    requires o !in seen
    ensures Beaten(seen + {o}, fit, c) == Beaten(seen, fit, c) + (if Beats(fit, c, o) then {o} else {})
    ensures o !in Beaten(seen, fit, c)
  {
  }

  lemma BeatersMore(seen: set<Id>, fit: Fitness, c: Id, o: Id)
    requires o !in seen
    ensures Beaters(seen + {o}, fit, c) == Beaters(seen, fit, c) + (if Beats(fit, o, c) then {o} else {})
    ensures o !in Beaters(seen, fit, c)
  {
  }

  lemma ComparedMore(seen: set<Id>, fit: Fitness, c: Id, dominated: seq<Id>, count: nat, o: Id)
    requires Compared(seen, fit, c, dominated, count) && o !in seen
    ensures Compared(seen + {o}, fit, c, if Beats(fit, c, o) then dominated + [o] else dominated, if Beats(fit, o, c) then count + 1 else count)
  {
    hide Beats, Enumerates, Beaten, Beaters;
    BeatenMore(seen, fit, c, o);
    BeatersMore(seen, fit, c, o);
    if Beats(fit, c, o) { EnumeratesMore(dominated, Beaten(seen, fit, c), o); }
  }

  lemma MembersMore(members: seq<Id>, i: nat)
    requires Enumerates(members, Members(members)) && i < |members|
    ensures members[i] in Members(members) && members[i] !in Members(members[..i])
    ensures Members(members[..i + 1]) == Members(members[..i]) + {members[i]}
    ensures Members(members[..|members|]) == Members(members) && Members(members[..0]) == {}
  {
  }

  /** One candidate against every member: whom it dominates, and how many dominate it. */
  method Compare(members: seq<Id>, fit: Fitness, c: Id) returns (dominated: seq<Id>, count: nat)
    requires Enumerates(members, Members(members)) && c in members && Scored(Members(members), fit)
    ensures Compared(Members(members), fit, c, dominated, count)
  {
    hide Enumerates, Better, Compared;
    dominated, count := [], 0;
    ComparedNone(fit, c);
    MembersMore(members, 0);
    for i := 0 to |members|
      invariant Compared(Members(members[..i]), fit, c, dominated, count)
    {
      var o := members[i];
      MembersMore(members, i);
      Exclusive(fit, c, o);
      ComparedMore(Members(members[..i]), fit, c, dominated, count, o);
      if o != c {
        var wins := Dominates(fit[c], fit[o]);
        if wins {
          dominated := dominated + [o];
        } else {
          var loses := Dominates(fit[o], fit[c]);
          if loses {
            count := count + 1;
          }
        }
      }
    }
  }

  /** The domination graph of the members, and its undominated ones in order. */
  method BuildGraph(members: seq<Id>, fit: Fitness) returns (g: Graph, first: seq<Id>)
    requires members != [] && Enumerates(members, Members(members)) && Scored(Members(members), fit)
    ensures DominationGraph(g, fit) && g.nodes == Members(members)
    ensures Enumerates(first, Freed(g, g.nodes, {}))
  {
    hide Enumerates, Compared, Beats, DominationGraph, Into;
    var dominatedBy: map<Id, seq<Id>> := map[];
    var dominationCount: map<Id, nat> := map[];
    first := [];
    ghost var free: set<Id> := {};
    NoneEnumerated();
    MembersMore(members, 0);
    for i := 0 to |members|
      invariant dominatedBy.Keys == Members(members[..i]) && dominationCount.Keys == Members(members[..i])
      invariant forall c :: c in dominatedBy ==> Compared(Members(members), fit, c, dominatedBy[c], dominationCount[c])
      invariant free == set c | c in dominationCount && dominationCount[c] == 0
      invariant Enumerates(first, free)
    {
      var c := members[i];
      MembersMore(members, i);
      var dominated, count := Compare(members, fit, c);
      if count == 0 {
        EnumeratesMore(first, free, c);
        first := first + [c];
        free := free + {c};
      }
      dominatedBy, dominationCount := dominatedBy[c := dominated], dominationCount[c := count];
    }
    g := Graph(Members(members), dominatedBy, map[], dominationCount);
    Built(g, fit, free);
  }

  lemma Built(g: Graph, fit: Fitness, free: set<Id>)
    requires g.adjList.Keys == g.nodes && g.inDegrees.Keys == g.nodes
    requires forall c :: c in g.nodes ==> Compared(g.nodes, fit, c, g.adjList[c], g.inDegrees[c])
    requires free == set c | c in g.inDegrees && g.inDegrees[c] == 0
    ensures DominationGraph(g, fit) && free == Freed(g, g.nodes, {})
  {
    hide Into, Beats, Enumerates, Better;
    forall v | v in g.nodes ensures v in free <==> v in Freed(g, g.nodes, {}) {
      IntoIsBeaters(g, fit, v);
      if Into(g, v) <= {} { assert Into(g, v) == {}; }
    }
  }

  // ----- peeling -----

  /** Rank is the level in the domination graph: dominated members rank strictly below, and each
      member ranks just under some dominator. */
  ghost predicate RanksFronts(members: set<Id>, fit: Fitness, rank: Level) {
    && rank.Keys == members
    && (forall u, v :: u in members && v in members && Beats(fit, u, v) ==> rank[u] < rank[v])
    && (forall v {:trigger JustUnder(fit, rank, v)} :: v in members ==> JustUnder(fit, rank, v))
  }

  ghost predicate JustUnder(fit: Fitness, rank: Level, v: Id)
    requires v in rank
  {
    rank[v] > 0 ==> exists u :: u in rank && Beats(fit, u, v) && rank[u] == rank[v] - 1
  }

  /** A chain of members, each dominated by the next. */
  ghost predicate DominatorChain(members: set<Id>, fit: Fitness, v: Id, c: seq<Id>) {
    && c != [] && c[0] == v && (forall i :: 0 <= i < |c| ==> c[i] in members)
    && forall i :: 0 <= i < |c| - 1 ==> Beats(fit, c[i + 1], c[i])
  }

  /** The rank is the length of the longest chain of dominators above the member. */
  lemma {:induction false} NoLongerChain(members: set<Id>, fit: Fitness, rank: Level, v: Id, c: seq<Id>)
    requires RanksFronts(members, fit, rank) && DominatorChain(members, fit, v, c)
    ensures |c| - 1 <= rank[v]
    decreases |c|
  {
    hide Beats;
    if |c| > 1 {
      assert Beats(fit, c[1], c[0]) && c[1] in members;
      assert DominatorChain(members, fit, c[1], c[1..]) by {
        forall i | 0 <= i < |c[1..]| - 1 ensures Beats(fit, c[1..][i + 1], c[1..][i]) { assert Beats(fit, c[i + 1 + 1], c[i + 1]); }
      }
      NoLongerChain(members, fit, rank, c[1], c[1..]);
    }
  }

  lemma {:induction false} LongestChain(members: set<Id>, fit: Fitness, rank: Level, v: Id) returns (c: seq<Id>)
    requires RanksFronts(members, fit, rank) && v in members
    ensures DominatorChain(members, fit, v, c) && |c| - 1 == rank[v]
    decreases rank[v]
  {
    hide Beats;
    c := [v];
    assert JustUnder(fit, rank, v);
    if rank[v] > 0 {
      var u :| u in rank && Beats(fit, u, v) && rank[u] == rank[v] - 1;
      var rest := LongestChain(members, fit, rank, u);
      c := [v] + rest;
    }
  }

  lemma LevelRanks(g: Graph, fit: Fitness, l: Level)
    requires DominationGraph(g, fit) && IsLevel(g, l)
    ensures RanksFronts(g.nodes, fit, l)
  {
    hide Beats, DominationGraph, IsEdge;
    forall u, v | u in g.nodes && v in g.nodes && Beats(fit, u, v) ensures l[u] < l[v] { EdgesBeat(g, fit, u, v); }
    forall v | v in g.nodes ensures JustUnder(fit, l, v) {
      assert Anchored(g, l, v);
      if l[v] > 0 {
        var u :| IsEdge(g, u, v) && u in l && l[u] == l[v] - 1;
        EdgesBeat(g, fit, u, v);
      }
    }
  }

  /** The finished fronts are the sorted waves, each in peeling order. */
  ghost predicate Peeled(fronts: seq<seq<Id>>, waves: seq<seq<Id>>) {
    && |fronts| == |waves|
    && forall k :: 0 <= k < |waves| ==> waves[k] == SortIds(fronts[k]) && Enumerates(fronts[k], Members(fronts[k]))
  }

  /** Every member once, in the front of its rank, and no front empty. */
  ghost predicate Partition(fronts: seq<seq<Id>>, rank: Level) {
    && (forall k :: 0 <= k < |fronts| ==> Enumerates(fronts[k], AtLevel(rank, k)) && fronts[k] != [])
    && (forall v :: v in rank ==> rank[v] < |fronts|)
  }

  lemma PeeledPartition(fronts: seq<seq<Id>>, waves: seq<seq<Id>>, l: Level)
    requires Peeled(fronts, waves) && Schedules(waves, l)
    ensures Partition(fronts, l)
  {
    forall k | 0 <= k < |fronts| ensures Enumerates(fronts[k], AtLevel(l, k)) && fronts[k] != [] {
      SortLists(fronts[k]);
      assert Lists(waves[k], AtLevel(l, k));
      forall v ensures v in fronts[k] <==> v in AtLevel(l, k) { assert v in fronts[k] <==> v in waves[k]; }
    }
  }

  /** Repeated individuals are collapsed, each into its first place. */
  method Collapse(population: seq<Id>) returns (members: seq<Id>)
    ensures Enumerates(members, Members(population)) && Members(members) == Members(population)
  {
    members := [];
    for i := 0 to |population|
      invariant Enumerates(members, Members(population[..i]))
    {
      assert population[..i + 1] == population[..i] + [population[i]];
      assert Members(population[..i + 1]) == Members(population[..i]) + {population[i]};
      if population[i] in members {
        assert Members(population[..i + 1]) == Members(population[..i]);
      } else {
        EnumeratesMore(members, Members(population[..i]), population[i]);
        members := members + [population[i]];
      }
    }
    assert population[..|population|] == population;
  }

  /** fast_non_dominated_sort: any individuals, with repetitions and with vectors of any lengths. */
  method FastNonDominatedSort(population: seq<Id>, fit: Fitness) returns (fronts: seq<seq<Id>>, ghost rank: Level)
    requires Scored(Members(population), fit)
    ensures RanksFronts(Members(population), fit, rank) && Partition(fronts, rank)
  {
    var members := Collapse(population);
    fronts, rank := Peel(members, fit);
  }

  method Peel(members: seq<Id>, fit: Fitness) returns (fronts: seq<seq<Id>>, ghost rank: Level)
    requires Enumerates(members, Members(members)) && Scored(Members(members), fit)
    ensures RanksFronts(Members(members), fit, rank) && Partition(fronts, rank)
  {
    hide Enumerates, RanksFronts, Partition, DominationGraph, BetweenLayers, Peeled, IsEdge, Freed, From, Extended, Schedules, Sweeping, Forward;
    if members == [] {
      rank, fronts := map[], [];
      NoFronts(fit);
      return;
    }
    var g, first := BuildGraph(members, fit);
    GraphForward(g, fit);
    GraphAcyclic(g, fit);
    fronts := [];
    var queue: seq<Id> := first;
    var count: map<Id, int> := map v | v in g.inDegrees :: g.inDegrees[v];
    NothingRemoved(g, count);
    ghost var waves: seq<seq<Id>> := [];
    rank := map[];
    BeforeLayers(g, count, queue);
    NonePeeled();
    while queue != []
      invariant BetweenLayers(g, rank, waves, count, queue) && Peeled(fronts, waves)
      decreases g.nodes - rank.Keys
    {
      EntersLayer(g, rank, waves, count, queue);
      var count2, front, next := SweepLayer(g, count, queue, rank.Keys, Freed(g, g.nodes, From(g, rank.Keys)));
      LeavesLayer(g, rank, waves, count, queue, count2, next);
      PeelMore(g, rank, fronts, waves, count, queue);
      assert queue[0] in queue;
      rank := Extended(rank, queue, |waves|);
      waves := waves + [SortIds(queue)];
      fronts := fronts + [front];
      count, queue := count2, next;
    }
    Finished(g, fit, rank, waves, count);
    PeeledPartition(fronts, waves, rank);
  }

  lemma NoFronts(fit: Fitness)
    ensures RanksFronts(Members([]), fit, map[]) && Partition([], map[])
  {
  }

  lemma NonePeeled()
    ensures Peeled([], [])
  {
  }

  lemma PeelMore(g: Graph, l: Level, fronts: seq<seq<Id>>, waves: seq<seq<Id>>, count: map<Id, int>, queue: seq<Id>)
    requires Peeled(fronts, waves) && BetweenLayers(g, l, waves, count, queue)
    ensures Peeled(fronts + [queue], waves + [SortIds(queue)])
  {
  }

  lemma Finished(g: Graph, fit: Fitness, l: Level, waves: seq<seq<Id>>, count: map<Id, int>)
    requires BetweenLayers(g, l, waves, count, []) && DominationGraph(g, fit) && Acyclic(g)
    ensures RanksFronts(g.nodes, fit, l) && Schedules(waves, l)
  {
    hide Freed, From, Counts, Acyclic, Schedules, NextWave, DominationGraph, RanksFronts, IsLevel;
    if v :| v in g.nodes && v !in l {
      Unpeeled(g, l, waves, count, v);
    }
    SweepFinished(g, l, waves, count);
    LevelRanks(g, fit, l);
  }

  lemma Unpeeled(g: Graph, l: Level, waves: seq<seq<Id>>, count: map<Id, int>, v: Id)
    requires BetweenLayers(g, l, waves, count, []) && v in g.nodes && v !in l
    ensures !Acyclic(g)
  {
    SweepStalled(g, l, count, v);
  }

  // ----- the first front -----

  function Undominated(members: seq<Id>, fit: Fitness): set<Id> {
    set v | v in members && Beaters(Members(members), fit, v) == {}
  }

  /** The first front is exactly the members that no member dominates. */
  lemma FrontIsUndominated(members: seq<Id>, fit: Fitness, rank: Level, fronts: seq<seq<Id>>)
    requires RanksFronts(Members(members), fit, rank) && Partition(fronts, rank)
    ensures var frontier := if fronts == [] then [] else fronts[0];
            Enumerates(frontier, Undominated(members, fit)) && |frontier| == |Undominated(members, fit)|
  {
    hide Beats;
    var frontier := if fronts == [] then [] else fronts[0];
    forall v ensures v in frontier <==> v in Undominated(members, fit) {
      if v in members {
        assert JustUnder(fit, rank, v);
        assert rank[v] < |fronts|;
        if rank[v] > 0 {
          var u :| u in rank && Beats(fit, u, v) && rank[u] == rank[v] - 1;
          assert u in Beaters(Members(members), fit, v);
        } else {
          assert Beaters(Members(members), fit, v) == {};
        }
      }
    }
    assert Members(frontier) == Undominated(members, fit);
    SizeIs(frontier);
  }

  /** Following dominators from any member leads to one that nothing dominates, and is as good in any
      objective that all members have. */
  lemma {:induction false} UndominatedAbove(members: seq<Id>, fit: Fitness, rank: Level, u: Id, i: nat) returns (w: Id)
    requires RanksFronts(Members(members), fit, rank) && u in members
    requires forall v :: v in members ==> v in fit && i < |fit[v]|
    ensures w in Undominated(members, fit) && fit[w][i] >= fit[u][i]
    decreases rank[u]
  {
    assert JustUnder(fit, rank, u);
    if rank[u] > 0 {
      var v :| v in rank && Beats(fit, v, u) && rank[v] == rank[u] - 1;
      w := UndominatedAbove(members, fit, rank, v, i);
    } else {
      w := u;
      assert Beaters(Members(members), fit, u) == {};
    }
  }
}
