/** Build ordering: the deterministic topological sort (build_graph.py), the cycle finder of the
    blueprint validator (blueprint_lang/validator.py), and the parallel build stages. */
module TopoOrder {
  import opened Collections
  import opened MellTypes
  import opened Levels
  import opened Wavefront

  type Dependencies = map<Id, seq<Id>>

  function Deps(d: Dependencies, v: Id): seq<Id> {
    if v in d then d[v] else []
  }

  // ----- orders -----

  /** Not yet placed, with every dependency placed. */
  ghost predicate Available(d: Dependencies, placed: seq<Id>, v: Id) {
    v !in placed && forall u :: u in Deps(d, v) ==> u in placed
  }

  /** Every target once, each after its dependencies. */
  ghost predicate Topological(hint: seq<Id>, d: Dependencies, order: seq<Id>) {
    && |order| == |hint|
    && forall k :: 0 <= k < |order| ==> order[k] in hint && Available(d, order[..k], order[k])
  }

  /** Position in the declaration order. */
  function Rank(hint: seq<Id>, v: Id): nat
    requires v in hint
    ensures Rank(hint, v) < |hint| && hint[Rank(hint, v)] == v
  {
    if hint[0] == v then 0 else Rank(hint[1..], v) + 1
  }

  /** At every step the earliest-declared available target is taken. */
  ghost predicate Greedy(hint: seq<Id>, d: Dependencies, order: seq<Id>) {
    forall k, v :: 0 <= k < |order| && v in hint && Available(d, order[..k], v) ==> order[k] in hint && Rank(hint, order[k]) <= Rank(hint, v)
  }

  /** The result precedes every other dependency-respecting order at the first place where they differ. */
  lemma LexicographicallyLeast(hint: seq<Id>, d: Dependencies, order: seq<Id>, other: seq<Id>, k: nat)
    requires Topological(hint, d, order) && Greedy(hint, d, order) && Topological(hint, d, other)
    requires k < |hint| && order[..k] == other[..k] && order[k] != other[k]
    ensures Rank(hint, order[k]) < Rank(hint, other[k])
  {
    hide Rank;
    assert Available(d, order[..k], other[k]);
    RankInjective(hint, order[k], other[k]);
  }

  lemma RankInjective(hint: seq<Id>, u: Id, v: Id)
    requires u in hint && v in hint && u != v
    ensures Rank(hint, u) != Rank(hint, v)
  {
  }

  ghost predicate AcyclicDeps(names: set<Id>, d: Dependencies) {
    exists r: map<Id, int> :: RanksDeps(names, d, r)
  }

  ghost predicate RanksDeps(names: set<Id>, d: Dependencies, r: map<Id, int>) {
    && names <= r.Keys
    && forall v, u :: v in names && u in Deps(d, v) && u in names ==> r[u] < r[v]
  }

  /** Targets that require one another in a ring. */
  ghost predicate IsCycle(names: set<Id>, d: Dependencies, c: seq<Id>) {
    && |c| >= 2 && c[0] == c[|c| - 1]
    && forall i :: 0 <= i < |c| - 1 ==> c[i] in names && c[i + 1] in Deps(d, c[i])
  }

  lemma {:induction false} CycleFalls(names: set<Id>, d: Dependencies, c: seq<Id>, r: map<Id, int>, i: nat)
    requires IsCycle(names, d, c) && RanksDeps(names, d, r) && i < |c| - 1
    ensures c[i + 1] in names && r[c[i + 1]] < r[c[0]]
    decreases i
  {
    assert c[i + 1] in names by {
      if i + 1 < |c| - 1 { assert c[i + 1] in names; } else { assert c[i + 1] == c[0]; }
    }
    if i > 0 { CycleFalls(names, d, c, r, i - 1); }
  }

  lemma CycleMeansCyclic(names: set<Id>, d: Dependencies, c: seq<Id>)
    requires IsCycle(names, d, c)
    ensures !AcyclicDeps(names, d)
  {
    if AcyclicDeps(names, d) {
      var r :| RanksDeps(names, d, r);
      CycleFalls(names, d, c, r, |c| - 2);
    }
  }

  // ----- the cycle finder -----

  datatype Color = White | Gray | Black

  /** The coloring, the current path, and the order in which targets were finished. */
  class CycleFinder {
    const names: set<Id>
    const d: Dependencies
    var color: map<Id, Color>
    var stack: seq<Id>
    ghost var finished: map<Id, int>

    constructor (names: set<Id>, d: Dependencies)
      ensures this.names == names && this.d == d && Valid() && stack == []
      ensures forall v :: v in names ==> color[v] == White
    {
      this.names, this.d := names, d;
      color, stack, finished := map v | v in names :: White, [], map[];
    }

    /** Gray is the path; black targets are ranked above the black targets they require. */
    ghost predicate Valid() reads this {
      && color.Keys == names && Distinct(stack)
      && (forall v :: v in names ==> (v in stack <==> color[v] == Gray))
      && (forall v :: v in stack ==> v in names)
      && (forall i :: 0 <= i < |stack| - 1 ==> stack[i + 1] in Deps(d, stack[i]))
      && (forall v :: v in names ==> (v in finished <==> color[v] == Black))
      && (forall v :: v in finished ==> v in names)
      && (forall v, u :: v in finished && u in Deps(d, v) && u in names ==> u in finished && finished[u] < finished[v])
    }

    function Whites(): set<Id> reads this {
      set v | v in color && color[v] == White
    }

    /** Explores a white target below the current path; a returned list is a genuine cycle. */
    method Dfs(node: Id) returns (found: Option<seq<Id>>)
      requires Valid() && node in names && color[node] == White
      requires stack == [] || node in Deps(d, stack[|stack| - 1])
      modifies this
      ensures found.Some? ==> IsCycle(names, d, found.value)
      ensures found.None? ==> Valid() && stack == old(stack) && color[node] == Black && Whites() < old(Whites())
      ensures found.None? ==> forall v :: v in names && old(color[v]) == Black ==> color[v] == Black
      decreases Whites()
    {
      hide IsCycle, Deps, Distinct;
      Enter(node);
      label entered:
      var nbrs := Deps(d, node);
      var i := 0;
      while i < |nbrs|
        invariant 0 <= i <= |nbrs| && Valid() && stack == old(stack) + [node] && Whites() <= old@entered(Whites())
        invariant forall u :: u in nbrs[..i] && u in names ==> color[u] == Black
        invariant forall v :: v in names && old(color[v]) == Black ==> color[v] == Black
      {
        var u := nbrs[i];
        assert u in nbrs && nbrs[..i + 1] == nbrs[..i] + [u];
        if u in color {
          if color[u] == Gray {
            var start := PathIndex(stack, u);
            RingCloses(start, u);
            return Some(stack[start..] + [u]);
          }
          if color[u] == White {
            var r := Dfs(u);
            if r.Some? {
              return r;
            }
          }
        }
        i := i + 1;
      }
      assert nbrs[..|nbrs|] == nbrs;
      Leave(node);
      return None;
    }

    method Enter(node: Id)
      requires Valid() && node in names && color[node] == White
      requires stack == [] || node in Deps(d, stack[|stack| - 1])
      modifies this
      ensures Valid() && stack == old(stack) + [node] && Whites() < old(Whites())
      ensures color == old(color)[node := Gray]
    {
      assert node in Whites();
      color := color[node := Gray];
      stack := stack + [node];
      assert node !in Whites();
    }

    method Leave(node: Id)
      requires Valid() && stack != [] && stack[|stack| - 1] == node
      requires forall u :: u in Deps(d, node) && u in names ==> color[u] == Black
      modifies this
      ensures Valid() && stack == old(stack)[..|old(stack)| - 1] && Whites() == old(Whites())
      ensures color == old(color)[node := Black]
    {
      ghost var top := Top(finished);
      assert stack == stack[..|stack| - 1] + [node];
      color := color[node := Black];
      stack := stack[..|stack| - 1];
      finished := finished[node := top];
    }

    lemma RingCloses(start: nat, u: Id)
      requires Valid() && start < |stack| && stack[start] == u && u in Deps(d, stack[|stack| - 1])
      ensures IsCycle(names, d, stack[start..] + [u])
    {
    }
  }

  function PathIndex(s: seq<Id>, v: Id): (i: nat)
    requires v in s
    ensures i < |s| && s[i] == v
  {
    if s[0] == v then 0 else PathIndex(s[1..], v) + 1
  }

  /** A value above all that have been given out. */
  ghost function Top(r: map<Id, int>): (t: int)
    ensures forall v :: v in r ==> r[v] < t
  {
    if r == map[] then 0
    else
      var v :| v in r;
      var rest := Top(r - {v});
      assert forall w :: w in r && w != v ==> w in r - {v} && (r - {v})[w] == r[w];
      if r[v] < rest then rest else r[v] + 1
  }

  /** _find_cycle: a genuine cycle, or none exactly when the targets can be ranked. */
  method FindCycle(names: set<Id>, d: Dependencies) returns (found: Option<seq<Id>>)
    ensures found.Some? ==> IsCycle(names, d, found.value)
    ensures found.None? <==> AcyclicDeps(names, d)
  {
    var finder := new CycleFinder(names, d);
    var left := names;
    while left != {}
      invariant left <= names && finder.Valid() && finder.stack == [] && finder.names == names && finder.d == d && fresh(finder)
      invariant forall v :: v in names && v !in left ==> finder.color[v] == Black
      decreases left
    {
      var v :| v in left;
      if finder.color[v] == White {
        found := finder.Dfs(v);
        if found.Some? {
          CycleMeansCyclic(names, d, found.value);
          return;
        }
      }
      left := left - {v};
    }
    assert RanksDeps(names, d, finder.finished);
    return None;
  }

  // ----- building the dependents -----

  /** What has been wired so far, and which requirements that covers. */
  ghost predicate Wiring(names: set<Id>, g: Graph, taken: map<Id, seq<Id>>) {
    && WellFormed(g) && g.nodes == names && g.reverseAdj == taken
    && g.adjList.Keys == names && taken.Keys == names && g.inDegrees.Keys == names
  }

  /** The requirements of one target. */
  method WireTarget(name: Id, deps: seq<Id>, degree0: map<Id, nat>, dependents0: map<Id, seq<Id>>, g0: Graph)
    returns (degree: map<Id, nat>, dependents: map<Id, seq<Id>>, g: Graph)
    requires name in g0.nodes && (forall u :: u in deps ==> u in g0.nodes) && Wiring(g0.nodes, g0, g0.reverseAdj)
    requires g0.inDegrees == degree0 && g0.adjList == dependents0 && g0.reverseAdj[name] == []
    ensures Wiring(g0.nodes, g, g0.reverseAdj[name := deps]) && g.inDegrees == degree && g.adjList == dependents
  {
    hide WellFormed, IsEdge;
    degree, dependents, g := degree0, dependents0, g0;
    assert g0.reverseAdj[name := deps[..0]] == g0.reverseAdj;
    for j := 0 to |deps|
      invariant Wiring(g0.nodes, g, g0.reverseAdj[name := deps[..j]]) && g.inDegrees == degree && g.adjList == dependents
    {
      assert deps[j] in deps && deps[..j + 1] == deps[..j] + [deps[j]];
      var h := Graph(g.nodes, dependents[deps[j] := dependents[deps[j]] + [name]], g.reverseAdj[name := g.reverseAdj[name] + [deps[j]]], degree[name := degree[name] + 1]);
      AddArc(g, h, deps[j], name);
      degree := degree[name := degree[name] + 1];
      dependents := dependents[deps[j] := dependents[deps[j]] + [name]];
      g := h;
    }
    assert deps[..|deps|] == deps;
  }

  /** The requirements of the listed targets, and none yet for the others. */
  ghost predicate Covered(hint: seq<Id>, d: Dependencies, i: nat, taken: map<Id, seq<Id>>)
    requires i <= |hint|
  {
    taken.Keys == Members(hint) && forall v :: v in taken ==> taken[v] == if v in hint[..i] then Deps(d, v) else []
  }

  lemma CoveredMore(hint: seq<Id>, d: Dependencies, i: nat, taken: map<Id, seq<Id>>)
    requires Distinct(hint) && i < |hint| && Covered(hint, d, i, taken)
    ensures hint[i] in Members(hint) && taken[hint[i]] == []
    ensures Covered(hint, d, i + 1, taken[hint[i] := Deps(d, hint[i])])
  {
  }

  /** indegree and dependents, filled requirement by requirement. */
  method Wire(hint: seq<Id>, d: Dependencies) returns (indegree: map<Id, int>, dependents: map<Id, seq<Id>>, g: Graph)
    requires forall v, u :: v in hint && u in Deps(d, v) ==> u in hint
    requires Distinct(hint)
    ensures WellFormed(g) && g.nodes == Members(hint)
    ensures dependents == g.adjList && indegree.Keys == g.inDegrees.Keys && forall v :: v in indegree ==> indegree[v] == g.inDegrees[v]
    ensures forall u, v :: IsEdge(g, u, v) <==> v in hint && u in Deps(d, v)
  {
    hide WellFormed, Covered, IsEdge, Members, Distinct;
    var degree: map<Id, nat> := map v | v in hint :: 0;
    dependents := map v | v in hint :: [];
    g := Graph(Members(hint), dependents, dependents, degree);
    Unwired(hint, d, g);
    for i := 0 to |hint|
      invariant Covered(hint, d, i, g.reverseAdj) && Wiring(Members(hint), g, g.reverseAdj)
      invariant g.inDegrees == degree && g.adjList == dependents
    {
      CoveredMore(hint, d, i, g.reverseAdj);
      DepsInside(hint, d, hint[i]);
      degree, dependents, g := WireTarget(hint[i], Deps(d, hint[i]), degree, dependents, g);
    }
    CoveredAll(hint, d, g.reverseAdj);
    WiredEdges(hint, d, g);
    indegree := map v | v in degree :: degree[v];
  }

  lemma DepsInside(hint: seq<Id>, d: Dependencies, v: Id)
    requires (forall v, u :: v in hint && u in Deps(d, v) ==> u in hint) && v in hint
    ensures forall u :: u in Deps(d, v) ==> u in Members(hint)
  {
  }

  lemma CoveredAll(hint: seq<Id>, d: Dependencies, taken: map<Id, seq<Id>>)
    requires Covered(hint, d, |hint|, taken)
    ensures taken.Keys == Members(hint) && forall v :: v in taken ==> taken[v] == Deps(d, v)
  {
  }

  lemma Unwired(hint: seq<Id>, d: Dependencies, g: Graph)
    requires g == Graph(Members(hint), map v | v in hint :: [], map v | v in hint :: [], map v | v in hint :: 0)
    ensures Covered(hint, d, 0, g.reverseAdj) && Wiring(Members(hint), g, g.reverseAdj)
  {
  }

  lemma WiredEdges(hint: seq<Id>, d: Dependencies, g: Graph)
    requires WellFormed(g) && g.nodes == Members(hint)
    requires g.reverseAdj.Keys == g.nodes && forall v :: v in g.nodes ==> g.reverseAdj[v] == Deps(d, v)
    ensures forall u, v :: IsEdge(g, u, v) <==> v in hint && u in Deps(d, v)
  {
  }

  // ----- Kahn's sort -----

  ghost predicate RankSorted(hint: seq<Id>, s: seq<Id>) {
    && (forall v :: v in s ==> v in hint)
    && forall i, j :: 0 <= i < j < |s| ==> Rank(hint, s[i]) <= Rank(hint, s[j])
  }

  function InsertByRank(hint: seq<Id>, s: seq<Id>, v: Id): seq<Id>
    requires v in hint && forall u :: u in s ==> u in hint
  {
    if s == [] || Rank(hint, v) <= Rank(hint, s[0]) then [v] + s
    else
      assert forall u :: u in s[1..] ==> u in s;
      [s[0]] + InsertByRank(hint, s[1..], v)
  }

  function SortByRank(hint: seq<Id>, s: seq<Id>): (r: seq<Id>)
    requires forall u :: u in s ==> u in hint
    ensures forall u :: u in r <==> u in s
    ensures |r| == |s| && multiset(r) == multiset(s)
  {
    if s == [] then []
    else
      assert s == [s[0]] + s[1..];
      var rest := SortByRank(hint, s[1..]);
      InsertKeeps(hint, rest, s[0]);
      InsertByRank(hint, rest, s[0])
  }

  lemma {:induction false} InsertKeeps(hint: seq<Id>, s: seq<Id>, v: Id)
    requires v in hint && forall u :: u in s ==> u in hint
    ensures forall u :: u in InsertByRank(hint, s, v) <==> u == v || u in s
    ensures |InsertByRank(hint, s, v)| == |s| + 1 && multiset(InsertByRank(hint, s, v)) == multiset(s) + multiset{v}
  {
    hide Rank;
    if s != [] && !(Rank(hint, v) <= Rank(hint, s[0])) {
      assert s == [s[0]] + s[1..];
      InsertKeeps(hint, s[1..], v);
    }
  }

  lemma {:induction false} InsertSorts(hint: seq<Id>, s: seq<Id>, v: Id)
    requires v in hint && RankSorted(hint, s)
    ensures RankSorted(hint, InsertByRank(hint, s, v))
  {
    hide Rank;
    if s != [] && !(Rank(hint, v) <= Rank(hint, s[0])) {
      assert RankSorted(hint, s[1..]) by { assert forall u :: u in s[1..] ==> u in s; }
      InsertSorts(hint, s[1..], v);
      InsertKeeps(hint, s[1..], v);
      LeastFirst(hint, s, v);
    }
  }

  lemma LeastFirst(hint: seq<Id>, s: seq<Id>, v: Id)
    requires v in hint && RankSorted(hint, s) && s != [] && Rank(hint, s[0]) <= Rank(hint, v)
    requires (forall u :: u in s[1..] ==> u in hint) && forall u :: u in InsertByRank(hint, s[1..], v) <==> u == v || u in s[1..]
    ensures forall i :: 0 <= i < |InsertByRank(hint, s[1..], v)| ==> Rank(hint, s[0]) <= Rank(hint, InsertByRank(hint, s[1..], v)[i])
  {
    hide Rank, InsertByRank;
    var rest := InsertByRank(hint, s[1..], v);
    forall i | 0 <= i < |rest| ensures Rank(hint, s[0]) <= Rank(hint, rest[i]) {
      assert rest[i] in rest;
      if rest[i] != v { var k :| 0 <= k < |s[1..]| && s[1..][k] == rest[i]; assert s[k + 1] == rest[i]; }
    }
  }

  lemma {:induction false} SortSorts(hint: seq<Id>, s: seq<Id>)
    requires forall u :: u in s ==> u in hint
    ensures RankSorted(hint, SortByRank(hint, s))
  {
    if s != [] {
      SortSorts(hint, s[1..]);
      InsertSorts(hint, SortByRank(hint, s[1..]), s[0]);
    }
  }

  lemma SortEnumerates(hint: seq<Id>, s: seq<Id>, members: set<Id>)
    requires Enumerates(s, members) && forall u :: u in s ==> u in hint
    ensures Enumerates(SortByRank(hint, s), members) && RankSorted(hint, SortByRank(hint, s))
  {
    SortSorts(hint, s);
    OnceEach(s);
    OnceEach(SortByRank(hint, s));
  }

  lemma JoinEnumerates(s: seq<Id>, t: seq<Id>, a: set<Id>, b: set<Id>)
    requires Enumerates(s, a) && Enumerates(t, b) && a !! b
    ensures Enumerates(s + t, a + b)
  {
    forall i, j | 0 <= i < j < |s + t| ensures (s + t)[i] != (s + t)[j] {
      if i < |s| <= j { assert s[i] in s && t[j - |s|] in t; }
    }
  }

  /** The placed targets, in order, are a greedy prefix, and `ready` lists the available ones by rank. */
  ghost predicate Placing(hint: seq<Id>, d: Dependencies, g: Graph, degree: map<Id, int>, ready: seq<Id>, order: seq<Id>) {
    && Distinct(order) && (forall v :: v in order ==> v in hint)
    && (forall k :: 0 <= k < |order| ==> Available(d, order[..k], order[k]))
    && Greedy(hint, d, order)
    && Counts(g, degree, g.nodes, From(g, Members(order)))
    && Enumerates(ready, Freed(g, g.nodes, From(g, Members(order))) - Members(order))
    && RankSorted(hint, ready)
  }

  ghost predicate GraphOf(hint: seq<Id>, d: Dependencies, g: Graph) {
    && WellFormed(g) && g.nodes == Members(hint) && Distinct(hint)
    && forall u, v :: IsEdge(g, u, v) <==> v in hint && u in Deps(d, v)
  }

  /** Free in the graph means available in the order. */
  lemma FreeIsAvailable(hint: seq<Id>, d: Dependencies, g: Graph, order: seq<Id>, v: Id)
    requires GraphOf(hint, d, g) && v in hint
    ensures v in Freed(g, g.nodes, From(g, Members(order))) - Members(order) <==> Available(d, order, v)
  {
    hide Freed, From;
    FreedMeansPreceded(g, g.nodes, Members(order), v);
  }

  lemma PlaceNext(hint: seq<Id>, d: Dependencies, g: Graph, degree: map<Id, int>, ready: seq<Id>, order: seq<Id>)
    requires GraphOf(hint, d, g) && Placing(hint, d, g, degree, ready, order) && ready != []
    ensures var more := order + [ready[0]];
            && Available(d, order, ready[0]) && ready[0] in hint && (forall v :: v in more ==> v in hint)
            && Distinct(more) && (forall k :: 0 <= k < |more| ==> Available(d, more[..k], more[k])) && Greedy(hint, d, more)
  {
    hide Freed, From, Counts, GraphOf, Rank;
    var v, more := ready[0], order + [ready[0]];
    assert v in ready && v in hint;
    FreeIsAvailable(hint, d, g, order, v);
    forall k | 0 <= k < |more| ensures more[..k] == order[..k] {}
    forall k, u | 0 <= k < |more| && u in hint && Available(d, more[..k], u) ensures more[k] in hint && Rank(hint, more[k]) <= Rank(hint, u) {
      if k == |order| {
        assert order[..k] == order;
        FreeIsAvailable(hint, d, g, order, u);
        assert u in ready;
        var i :| 0 <= i < |ready| && ready[i] == u;
      }
    }
    assert order[..|order|] == order;
  }

  lemma PlacedAreFree(hint: seq<Id>, d: Dependencies, g: Graph, order: seq<Id>)
    requires GraphOf(hint, d, g) && (forall v :: v in order ==> v in hint)
    requires forall k :: 0 <= k < |order| ==> Available(d, order[..k], order[k])
    ensures Members(order) <= Freed(g, g.nodes, From(g, Members(order)))
  {
    hide Freed, From;
    forall v | v in order ensures v in Freed(g, g.nodes, From(g, Members(order))) {
      var k :| 0 <= k < |order| && order[k] == v;
      forall u | IsEdge(g, u, v) ensures u in Members(order) { assert u in order[..k]; }
      FreedMeansPreceded(g, g.nodes, Members(order), v);
    }
  }

  lemma NamesMore(order: seq<Id>, v: Id)
    ensures Members(order + [v]) == Members(order) + {v}
    ensures v in Members(order) <==> v in order
  {
  }

  /** Before the children of a placed target are released. */
  lemma BeginRelease(hint: seq<Id>, d: Dependencies, g: Graph, degree: map<Id, int>, ready: seq<Id>, order: seq<Id>)
    requires GraphOf(hint, d, g) && Placing(hint, d, g, degree, ready, order) && ready != []
    ensures var before := Freed(g, g.nodes, From(g, Members(order)));
            && Members(order) <= before && ready[0] in before && ready[0] !in Members(order)
            && Sweeping(g, g.nodes, degree, [], before, From(g, Members(order)))
            && Enumerates(ready[1..], before - Members(order) - {ready[0]})
  {
    hide Freed, From, Counts, Available, Greedy;
    PlacedAreFree(hint, d, g, order);
    var before := Freed(g, g.nodes, From(g, Members(order)));
    EnumeratesLess(ready, before - Members(order));
    assert before - before == {};
    NoneEnumerated();
  }

  /** After them, what became available joins the rest. */
  lemma EndRelease(hint: seq<Id>, g: Graph, degree: map<Id, int>, rest: seq<Id>, newly: seq<Id>, done: set<Id>, v: Id, before: set<Id>)
    requires done <= before && v in before && v !in done
    requires Sweeping(g, g.nodes, degree, newly, before, From(g, done + {v})) && Enumerates(rest, before - done - {v})
    ensures Counts(g, degree, g.nodes, From(g, done + {v}))
    ensures Enumerates(rest + newly, Freed(g, g.nodes, From(g, done + {v})) - (done + {v}))
  {
    hide Freed, From, Counts;
    var after := Freed(g, g.nodes, From(g, done + {v}));
    JoinEnumerates(rest, newly, before - done - {v}, after - before);
    assert (before - done - {v}) + (after - before) == after - (done + {v});
  }

  lemma InHint(hint: seq<Id>, d: Dependencies, g: Graph, s: seq<Id>, order: seq<Id>)
    requires GraphOf(hint, d, g) && Enumerates(s, Freed(g, g.nodes, From(g, Members(order))) - Members(order))
    ensures forall v :: v in s ==> v in hint
  {
  }

  /** One round: take the first ready target and release its dependents. */
  method PlaceOne(hint: seq<Id>, d: Dependencies, g: Graph, degree0: map<Id, int>, ready0: seq<Id>, order0: seq<Id>)
    returns (degree: map<Id, int>, ready: seq<Id>, order: seq<Id>)
    requires GraphOf(hint, d, g) && Placing(hint, d, g, degree0, ready0, order0) && ready0 != []
    ensures Placing(hint, d, g, degree, ready, order) && order == order0 + [ready0[0]]
  {
    hide GraphOf, Placing, Sweeping, Freed, From, FirstArcs, WellFormed, Counts, Enumerates, Greedy, Available, Distinct, RankSorted, Members;
    var current := ready0[0];
    BeginRelease(hint, d, g, degree0, ready0, order0);
    PlaceNext(hint, d, g, degree0, ready0, order0);
    ghost var done, before := Members(order0), Freed(g, g.nodes, From(g, Members(order0)));
    GraphIs(hint, d, g, current);
    LayerStep(g, before, done, current);
    order := order0 + [current];
    var newly;
    degree, newly := Release(g, degree0, [], current, before, From(g, done));
    EndRelease(hint, g, degree, ready0[1..], newly, done, current, before);
    NamesMore(order0, current);
    InHint(hint, d, g, ready0[1..] + newly, order);
    if newly != [] {
      ready := SortByRank(hint, ready0[1..] + newly);
      SortEnumerates(hint, ready0[1..] + newly, Freed(g, g.nodes, From(g, Members(order))) - Members(order));
    } else {
      ready := ready0[1..];
      assert ready0[1..] + newly == ready0[1..];
      TailSorted(hint, d, g, degree0, ready0, order0);
    }
    Placed(hint, d, g, degree, ready, order);
  }

  lemma GraphIs(hint: seq<Id>, d: Dependencies, g: Graph, v: Id)
    requires GraphOf(hint, d, g) && v in hint
    ensures WellFormed(g) && v in g.nodes
  {
  }

  lemma TailSorted(hint: seq<Id>, d: Dependencies, g: Graph, degree: map<Id, int>, ready: seq<Id>, order: seq<Id>)
    requires Placing(hint, d, g, degree, ready, order) && ready != []
    ensures RankSorted(hint, ready[1..])
  {
  }

  lemma Placed(hint: seq<Id>, d: Dependencies, g: Graph, degree: map<Id, int>, ready: seq<Id>, order: seq<Id>)
    requires Distinct(order) && (forall k :: 0 <= k < |order| ==> Available(d, order[..k], order[k])) && Greedy(hint, d, order)
    requires Counts(g, degree, g.nodes, From(g, Members(order)))
    requires Enumerates(ready, Freed(g, g.nodes, From(g, Members(order))) - Members(order)) && RankSorted(hint, ready)
    requires forall v :: v in order ==> v in hint
    ensures Placing(hint, d, g, degree, ready, order)
  {
  }

  lemma AcyclicAlike(hint: seq<Id>, d: Dependencies, g: Graph)
    requires GraphOf(hint, d, g)
    ensures AcyclicDeps(Members(hint), d) ==> Acyclic(g)
  {
    if AcyclicDeps(Members(hint), d) {
      var r :| RanksDeps(Members(hint), d, r);
      forall u, v | IsEdge(g, u, v) && v in g.nodes ensures r[u] < r[v] {}
      assert Ranks(g, r);
    }
  }

  lemma Finished(hint: seq<Id>, d: Dependencies, order: seq<Id>)
    requires Topological(hint, d, order) && Distinct(order) && Distinct(hint)
    requires forall v, u :: v in hint && u in Deps(d, v) ==> u in hint
    ensures AcyclicDeps(Members(hint), d)
  {
    Covers(hint, order);
    var r: map<Id, int> := map v | v in order :: PathIndex(order, v);
    forall v, u | v in Members(hint) && u in Deps(d, v) && u in Members(hint) ensures r[u] < r[v] {
      assert Available(d, order[..r[v]], order[r[v]]);
      assert u in order[..r[v]];
      FirstIndex(order, r[v], u);
    }
    assert RanksDeps(Members(hint), d, r);
  }

  lemma {:induction false} FirstIndex(s: seq<Id>, k: nat, v: Id)
    requires k <= |s| && v in s[..k]
    ensures v in s && PathIndex(s, v) < k
  {
    if s[0] != v {
      assert s[..k][1..] == s[1..][..k - 1];
      assert s[..k] == [s[0]] + s[..k][1..];
      FirstIndex(s[1..], k - 1, v);
    }
  }

  lemma Covers(hint: seq<Id>, order: seq<Id>)
    requires Distinct(hint) && Distinct(order) && |order| == |hint| && forall k :: 0 <= k < |order| ==> order[k] in hint
    ensures forall v :: v in hint ==> v in order
  {
    SizeIs(hint);
    SizeIs(order);
    assert Members(order) <= Members(hint);
    assert |Members(hint) - Members(order)| == 0;
    forall v | v in hint ensures v in order { assert v !in Members(hint) - Members(order); }
  }

  lemma NeverReady(hint: seq<Id>, d: Dependencies, g: Graph, degree: map<Id, int>, order: seq<Id>, v: Id)
    requires GraphOf(hint, d, g) && Placing(hint, d, g, degree, [], order) && v in g.nodes && v !in Members(order)
    ensures exists u :: u in g.nodes - Members(order) && IsEdge(g, u, v)
  {
    hide Freed, From, Counts, Greedy, RankSorted;
    FreeIsAvailable(hint, d, g, order, v);
    assert v !in [];
    var u :| u in Deps(d, v) && u !in order;
    assert IsEdge(g, u, v) && u in g.nodes;
  }

  lemma SomeLeft(hint: seq<Id>, d: Dependencies, g: Graph, degree: map<Id, int>, order: seq<Id>)
    requires GraphOf(hint, d, g) && Placing(hint, d, g, degree, [], order) && |order| != |hint|
    ensures g.nodes - Members(order) != {}
  {
    hide Freed, From, Counts, Greedy, RankSorted, WellFormed, Available, Enumerates;
    SizeIs(hint);
    SizeIs(order);
    if g.nodes - Members(order) == {} { NothingMissing(g.nodes, Members(order)); }
  }

  lemma NothingMissing(all: set<Id>, part: set<Id>)
    requires part <= all && all - part == {}
    ensures all == part
  {
    assert all == part + (all - part);
  }

  lemma Stuck(hint: seq<Id>, d: Dependencies, g: Graph, degree: map<Id, int>, order: seq<Id>)
    requires GraphOf(hint, d, g) && Placing(hint, d, g, degree, [], order) && |order| != |hint|
    ensures !AcyclicDeps(Members(hint), d)
  {
    hide *;
    var left := g.nodes - Members(order);
    SomeLeft(hint, d, g, degree, order);
    forall v | v in left ensures exists u :: u in left && IsEdge(g, u, v) { NeverReady(hint, d, g, degree, order, v); }
    StalledMeansCyclic(g, left);
    AcyclicAlike(hint, d, g);
  }

  /** _topological_order: the lexicographically least dependency-respecting order, or None exactly on a cycle. */
  method TopologicalOrder(hint: seq<Id>, d: Dependencies) returns (result: Option<seq<Id>>)
    requires Distinct(hint) && forall v, u :: v in hint && u in Deps(d, v) ==> u in hint
    ensures result.Some? ==> Topological(hint, d, result.value) && Greedy(hint, d, result.value)
    ensures result.Some? <==> AcyclicDeps(Members(hint), d)
  {
    hide GraphOf, Placing, AcyclicDeps, Greedy, Topological, WellFormed, IsEdge, Counts, Freed, Enumerates, From;
    var degree, dependents, g := Wire(hint, d);
    WiredGraph(hint, d, g);
    NothingRemoved(g, degree);
    var ready := InitiallyReady(hint, g, degree);
    var order: seq<Id> := [];
    Begin(hint, d, g, degree, ready);
    while ready != []
      invariant Placing(hint, d, g, degree, ready, order)
      decreases |hint| - |order|
    {
      degree, ready, order := PlaceOne(hint, d, g, degree, ready, order);
      Bounded(hint, d, g, degree, ready, order);
    }
    if |order| != |hint| {
      Stuck(hint, d, g, degree, order);
      return None;
    }
    Complete(hint, d, g, degree, order);
    return Some(order);
  }

  lemma WiredGraph(hint: seq<Id>, d: Dependencies, g: Graph)
    requires Distinct(hint) && WellFormed(g) && g.nodes == Members(hint)
    requires forall u, v :: IsEdge(g, u, v) <==> v in hint && u in Deps(d, v)
    ensures GraphOf(hint, d, g) && Forward(g)
  {
  }

  lemma Bounded(hint: seq<Id>, d: Dependencies, g: Graph, degree: map<Id, int>, ready: seq<Id>, order: seq<Id>)
    requires Placing(hint, d, g, degree, ready, order)
    ensures |order| <= |hint|
  {
    hide Freed, From, Counts, Enumerates;
    SizeIs(order);
    assert Members(order) <= Members(hint);
    AtMost(hint);
    assert Members(hint) == Members(order) + (Members(hint) - Members(order));
  }

  lemma AtMost(s: seq<Id>)
    ensures |Members(s)| <= |s|
  {
    if s != [] {
      AtMost(s[1..]);
      assert s == [s[0]] + s[1..];
      assert Members(s) == {s[0]} + Members(s[1..]);
    }
  }

  lemma Complete(hint: seq<Id>, d: Dependencies, g: Graph, degree: map<Id, int>, order: seq<Id>)
    requires GraphOf(hint, d, g) && Placing(hint, d, g, degree, [], order) && |order| == |hint|
    requires forall v, u :: v in hint && u in Deps(d, v) ==> u in hint
    ensures Topological(hint, d, order) && Greedy(hint, d, order) && AcyclicDeps(Members(hint), d)
  {
    hide Freed, From, Counts, Enumerates;
    Finished(hint, d, order);
  }

  method InitiallyReady(hint: seq<Id>, g: Graph, degree: map<Id, int>) returns (ready: seq<Id>)
    requires Distinct(hint) && g.nodes == Members(hint) && Counts(g, degree, g.nodes, {})
    ensures Enumerates(ready, Freed(g, g.nodes, {})) && RankSorted(hint, ready)
  {
    hide Counts, Into, Enumerates, Freed, RankSorted;
    var free: seq<Id> := [];
    ghost var members: set<Id> := {};
    NoneEnumerated();
    for i := 0 to |hint|
      invariant members == set v | v in hint[..i] && v in Freed(g, g.nodes, {})
      invariant Enumerates(free, members) && forall v :: v in free ==> v in hint
    {
      var n := hint[i];
      assert n in hint && hint[..i + 1] == hint[..i] + [n];
      FreedCountsZero(g, degree, g.nodes, {}, n);
      if n !in degree || degree[n] == 0 {
        EnumeratesMore(free, members, n);
        free := free + [n];
        members := members + {n};
      }
    }
    assert hint[..|hint|] == hint;
    FreedInside(g);
    assert members == Freed(g, g.nodes, {});
    ready := SortByRank(hint, free);
    SortEnumerates(hint, free, members);
  }

  lemma FreedInside(g: Graph)
    ensures Freed(g, g.nodes, {}) <= g.nodes
  {
  }

  lemma Begin(hint: seq<Id>, d: Dependencies, g: Graph, degree: map<Id, int>, ready: seq<Id>)
    requires Counts(g, degree, g.nodes, {}) && Enumerates(ready, Freed(g, g.nodes, {})) && RankSorted(hint, ready)
    ensures Placing(hint, d, g, degree, ready, [])
  {
    assert Members([]) == {} && From(g, {}) == {};
    assert Freed(g, g.nodes, {}) - {} == Freed(g, g.nodes, {});
  }

  /** The sort fails exactly when the validator's search reports a cycle. */
  method OrderOrCycle(hint: seq<Id>, d: Dependencies) returns (order: Option<seq<Id>>, cycle: Option<seq<Id>>)
    requires Distinct(hint) && forall v, u :: v in hint && u in Deps(d, v) ==> u in hint
    ensures order.None? <==> cycle.Some?
    ensures cycle.Some? ==> IsCycle(Members(hint), d, cycle.value)
  {
    order := TopologicalOrder(hint, d);
    cycle := FindCycle(Members(hint), d);
  }

  // ----- build stages -----

  /** Every target one above its highest dependency. */
  ghost predicate Depths(order: seq<Id>, d: Dependencies, stage: Level) {
    && (forall v :: v in stage <==> v in order)
    && (forall v, u :: v in order && u in Deps(d, v) ==> u in stage && stage[u] < stage[v])
    && (forall v {:trigger HasStep(d, stage, v)} :: v in order ==> HasStep(d, stage, v))
  }

  ghost predicate HasStep(d: Dependencies, stage: Level, v: Id)
    requires v in stage
  {
    stage[v] > 0 ==> exists u :: u in Deps(d, v) && u in stage && stage[u] == stage[v] - 1
  }

  /** A chain of requirements starting at v. */
  ghost predicate Chain(d: Dependencies, v: Id, c: seq<Id>) {
    && c != [] && c[0] == v && forall i :: 0 <= i < |c| - 1 ==> c[i + 1] in Deps(d, c[i])
  }

  /** The stage is the length of the longest chain: no chain is longer, and some chain is that long. */
  lemma {:induction false} NoLongerChain(order: seq<Id>, d: Dependencies, stage: Level, v: Id, c: seq<Id>)
    requires Depths(order, d, stage) && v in order && Chain(d, v, c)
    ensures |c| - 1 <= stage[v]
    decreases |c|
  {
    if |c| > 1 {
      assert c[1] in Deps(d, c[0]);
      assert Chain(d, c[1], c[1..]) by {
        forall i | 0 <= i < |c[1..]| - 1 ensures c[1..][i + 1] in Deps(d, c[1..][i]) { assert c[i + 1 + 1] in Deps(d, c[i + 1]); }
      }
      NoLongerChain(order, d, stage, c[1], c[1..]);
    }
  }

  lemma {:induction false} LongestChain(order: seq<Id>, d: Dependencies, stage: Level, v: Id) returns (c: seq<Id>)
    requires Depths(order, d, stage) && v in order
    ensures Chain(d, v, c) && |c| - 1 == stage[v]
    decreases stage[v]
  {
    c := [v];
    assert HasStep(d, stage, v);
    if stage[v] > 0 {
      var u :| u in Deps(d, v) && u in stage && stage[u] == stage[v] - 1;
      var rest := LongestChain(order, d, stage, u);
      c := [v] + rest;
    }
  }

  function OnStage(order: seq<Id>, stage: Level, k: nat): seq<Id> {
    if order == [] then []
    else
      var rest, v := OnStage(order[..|order| - 1], stage, k), order[|order| - 1];
      if v in stage && stage[v] == k then rest + [v] else rest
  }

  /** The stage of one target, from those already placed. */
  method StageOf(deps: seq<Id>, placed: Level) returns (stage: nat)
    ensures forall u :: u in deps && u in placed ==> placed[u] < stage
    ensures stage > 0 ==> exists u :: u in deps && u in placed && placed[u] == stage - 1
  {
    stage := 0;
    for j := 0 to |deps|
      invariant forall u :: u in deps[..j] && u in placed ==> placed[u] < stage
      invariant stage > 0 ==> exists u :: u in deps && u in placed && placed[u] == stage - 1
    {
      var u := deps[j];
      assert u in deps && deps[..j + 1] == deps[..j] + [u];
      if u in placed && stage < placed[u] + 1 {
        stage := placed[u] + 1;
      }
    }
    assert deps[..|deps|] == deps;
  }

  /** BuildGraph.levels on a dependency-respecting order: stage k lists, in build order, the targets
      whose longest chain of requirements has length k, and no stage is empty. */
  method Stages(hint: seq<Id>, order: seq<Id>, d: Dependencies) returns (levels: seq<seq<Id>>, ghost stage: Level)
    requires Topological(hint, d, order) && Distinct(order)
    ensures Depths(order, d, stage)
    ensures forall k :: 0 <= k < |levels| ==> levels[k] == OnStage(order, stage, k) && levels[k] != []
    ensures forall v :: v in order ==> stage[v] < |levels|
  {
    var stageOf: Level := map[];
    for i := 0 to |order|
      invariant Depths(order[..i], d, stageOf)
    {
      var s := StageOf(Deps(d, order[i]), stageOf);
      DepthsMore(hint, order, d, stageOf, i, s);
      stageOf := stageOf[order[i] := s];
    }
    assert order[..|order|] == order;
    stage := stageOf;
    levels := [];
    if order == [] {
      return;
    }
    var maxStage := Highest(order, stageOf);
    var buckets := Buckets(order, stageOf, maxStage);
    ghost var top :| top in order && stageOf[top] == maxStage;
    for k := 0 to |buckets|
      invariant |levels| == k && forall j :: 0 <= j < k ==> levels[j] == OnStage(order, stageOf, j) && levels[j] != []
    {
      StageInhabited(order, d, stageOf, top, k);
      if buckets[k] != [] {
        levels := levels + [buckets[k]];
      }
    }
  }

  method Highest(order: seq<Id>, stage: Level) returns (top: nat)
    requires order != [] && forall v :: v in order ==> v in stage
    ensures (forall v :: v in order ==> stage[v] <= top) && exists v :: v in order && stage[v] == top
  {
    assert order[0] in order;
    top := stage[order[0]];
    for i := 0 to |order|
      invariant forall v :: v in order[..i] ==> stage[v] <= top
      invariant exists v :: v in order && stage[v] == top
    {
      assert order[i] in order && order[..i + 1] == order[..i] + [order[i]];
      if top < stage[order[i]] {
        top := stage[order[i]];
      }
    }
    assert order[..|order|] == order;
  }

  method Buckets(order: seq<Id>, stage: Level, top: nat) returns (buckets: seq<seq<Id>>)
    requires forall v :: v in order ==> v in stage && stage[v] <= top
    ensures |buckets| == top + 1 && forall k :: 0 <= k <= top ==> buckets[k] == OnStage(order, stage, k)
  {
    buckets := seq(top + 1, _ => []);
    for i := 0 to |order|
      invariant |buckets| == top + 1 && forall k :: 0 <= k <= top ==> buckets[k] == OnStage(order[..i], stage, k)
    {
      assert order[i] in order && order[..i + 1][..i] == order[..i];
      buckets := buckets[stage[order[i]] := buckets[stage[order[i]]] + [order[i]]];
    }
    assert order[..|order|] == order;
  }

  lemma {:induction false} OnStageHas(order: seq<Id>, stage: Level, v: Id)
    requires v in order && v in stage
    ensures v in OnStage(order, stage, stage[v])
  {
    var k := |order| - 1;
    if order[k] != v {
      assert order == order[..k] + [order[k]];
      OnStageHas(order[..k], stage, v);
    }
  }

  /** No stage below an inhabited one is empty. */
  lemma {:induction false} StageInhabited(order: seq<Id>, d: Dependencies, stage: Level, v: Id, k: nat)
    requires Depths(order, d, stage) && v in order && k <= stage[v]
    ensures OnStage(order, stage, k) != []
    decreases stage[v]
  {
    if k == stage[v] {
      OnStageHas(order, stage, v);
    } else {
      assert HasStep(d, stage, v);
      var u :| u in Deps(d, v) && u in stage && stage[u] == stage[v] - 1;
      StageInhabited(order, d, stage, u, k);
    }
  }

  lemma DepthsMore(hint: seq<Id>, order: seq<Id>, d: Dependencies, stage: Level, i: nat, s: nat)
    requires Topological(hint, d, order) && Distinct(order) && i < |order| && Depths(order[..i], d, stage)
    requires forall u :: u in Deps(d, order[i]) && u in stage ==> stage[u] < s
    requires s > 0 ==> exists u :: u in Deps(d, order[i]) && u in stage && stage[u] == s - 1
    ensures Depths(order[..i + 1], d, stage[order[i] := s])
  {
    var v, next := order[i], stage[order[i] := s];
    assert Available(d, order[..i], v) && order[..i + 1] == order[..i] + [v];
    forall w, u | w in order[..i + 1] && u in Deps(d, w) ensures u in next && next[u] < next[w] {
      if w == v { assert u in order[..i]; }
    }
    forall w | w in order[..i + 1] ensures HasStep(d, next, w) {
      if w != v {
        assert HasStep(d, stage, w);
        if stage[w] > 0 {
          var u :| u in Deps(d, w) && u in stage && stage[u] == stage[w] - 1;
          assert u in order[..i];
        }
      }
    }
  }
}
