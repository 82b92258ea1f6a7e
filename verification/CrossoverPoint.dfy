/** The crossover transaction (evolve.py, BoundaryAwareMutator.crossover): the parts exchanged
    are those reached from a crossover point, for these the child conserves edges exactly
    when no two donor names clash, and the transaction is aborted exactly when they do,
    or when the child is cyclic or contradicts a boundary signature stored in the parent. */
module CrossoverPoint {
  import opened MellTypes
  import opened Names
  import opened EdgeConservation
  import opened Splicing
  import opened Crossover
  import opened Verification

  // ----- the part reached from a node -----

  ghost predicate ClosedUnder(rs: seq<Record>, s: set<Name>) {
    forall r :: r in rs && r.src in s ==> r.dst in s
  }

  ghost predicate Leads(rs: seq<Record>, s: set<Name>, v: Name) {
    exists r :: r in rs && r.src in s && r.dst == v
  }

  ghost predicate Departs(rs: seq<Record>, u: Name) {
    exists r :: r in rs && r.src == u
  }

  predicate Full(s: set<Name>, maxSize: Option<nat>) {
    maxSize.Some? && |s| >= maxSize.value
  }

  ghost predicate WithinClosed(rs: seq<Record>, start: Name, part: set<Name>) {
    forall s :: start in s && ClosedUnder(rs, s) ==> part <= s
  }

  /** part is reached from start along records, and is all that is reached unless the
      bound cut it off. */
  ghost predicate Reached(rs: seq<Record>, start: Name, maxSize: Option<nat>, part: set<Name>) {
    && (part != {} ==> start in part)
    && (forall v :: v in part && v != start ==> Leads(rs, part, v) && Departs(rs, start))
    && WithinClosed(rs, start, part)
    && (maxSize.Some? ==> |part| <= maxSize.value)
    && (Full(part, maxSize) || (start in part && ClosedUnder(rs, part)))
  }

  /** What the search keeps: seen has been reached, and what is on the stack is next. */
  ghost predicate Exploring(nodes: set<Name>, rs: seq<Record>, start: Name, seen: set<Name>, stack: seq<Name>) {
    && seen <= nodes && (forall v :: v in stack ==> v in nodes)
    && (if seen == {} then stack == [start] else start in seen)
    && (forall v :: (v in seen || v in stack) && v != start ==> Leads(rs, seen, v) && Departs(rs, start))
    && (forall r :: r in rs && r.src in seen ==> r.dst in seen || r.dst in stack)
    && (forall s :: start in s && ClosedUnder(rs, s) ==> seen <= s && forall v :: v in stack ==> v in s)
  }

  /** The successors of a node that are still unseen, in the order of the records. */
  function Onward(rs: seq<Record>, node: Name, seen: set<Name>): (next: seq<Name>)
    ensures forall v :: v in next ==> v !in seen && exists r :: r in rs && r.src == node && r.dst == v
    ensures forall r :: r in rs && r.src == node ==> r.dst in seen || r.dst in next
  {
    if rs == [] then []
    else
      var k := |rs| - 1;
      Onward(rs[..k], node, seen) + (if rs[k].src == node && rs[k].dst !in seen then [rs[k].dst] else [])
  }

  lemma OnwardMore(rs: seq<Record>, k: nat, node: Name, seen: set<Name>)
    requires k < |rs|
    ensures Onward(rs[..k + 1], node, seen) == Onward(rs[..k], node, seen) + (if rs[k].src == node && rs[k].dst !in seen then [rs[k].dst] else [])
  {
    assert rs[..k + 1][..k] == rs[..k];
  }

  lemma SkipsSeen(nodes: set<Name>, rs: seq<Record>, start: Name, seen: set<Name>, stack: seq<Name>)
    requires Exploring(nodes, rs, start, seen, stack) && stack != [] && stack[|stack| - 1] in seen
    ensures Exploring(nodes, rs, start, seen, stack[..|stack| - 1])
  {
    assert forall v :: v in stack ==> v in stack[..|stack| - 1] || v == stack[|stack| - 1];
  }

  lemma VisitsNext(nodes: set<Name>, rs: seq<Record>, start: Name, seen: set<Name>, stack: seq<Name>)
    requires Exploring(nodes, rs, start, seen, stack) && stack != [] && stack[|stack| - 1] !in seen
    requires forall r :: r in rs ==> r.src in nodes && r.dst in nodes
    ensures var node := stack[|stack| - 1];
            Exploring(nodes, rs, start, seen + {node}, stack[..|stack| - 1] + Onward(rs, node, seen + {node}))
  {
    var k := |stack| - 1;
    var node, more := stack[k], seen + {stack[k]};
    var next := stack[..k] + Onward(rs, node, more);
    assert node in stack;
    forall v | (v in more || v in next) && v != start ensures Leads(rs, more, v) && Departs(rs, start) {
      if v in Onward(rs, node, more) {
        var r :| r in rs && r.src == node && r.dst == v;
        assert node == start || Departs(rs, start);
      } else {
        assert v in seen || v in stack;
        var r :| r in rs && r.src in seen && r.dst == v;
      }
    }
    forall r | r in rs && r.src in more ensures r.dst in more || r.dst in next {
      if r.src in seen { assert r.dst in seen || r.dst in stack; }
    }
    forall s | start in s && ClosedUnder(rs, s) ensures more <= s && forall v :: v in next ==> v in s {
      assert node in s;
    }
  }

  method PushOnward(g: HinGraph, node: Name, seen: set<Name>, stack0: seq<Name>) returns (stack: seq<Name>)
    ensures stack == stack0 + Onward(g.records, node, seen)
  {
    stack := stack0;
    assert g.records[..0] == [];
    for i := 0 to |g.records|
      invariant stack == stack0 + Onward(g.records[..i], node, seen)
    {
      OnwardMore(g.records, i, node, seen);
      if g.records[i].src == node && g.records[i].dst !in seen {
        stack := stack + [g.records[i].dst];
      }
    }
    assert g.records[..|g.records|] == g.records;
  }

  /** _connected_component: depth first from start, stopping once the bound is met. */
  method ConnectedComponent(g: HinGraph, start: Name, maxSize: Option<nat>) returns (seen: set<Name>)
    requires g.Valid()
    ensures seen <= g.nodes
    ensures if start in g.nodes then Reached(g.records, start, maxSize, seen) else seen == {}
  {
    if start !in g.nodes { return {}; }
    seen := {};
    var stack := [start];
    hide Exploring, Onward, Leads, Departs, WithinClosed;
    StartsExploring(g.nodes, g.records, start);
    while stack != []
      invariant Exploring(g.nodes, g.records, start, seen, stack)
      invariant seen <= g.nodes && (maxSize.Some? ==> |seen| <= maxSize.value)
      decreases g.nodes - seen, |stack|
    {
      if Full(seen, maxSize) { break; }
      var k := |stack| - 1;
      var node := stack[k];
      ghost var before := stack;
      stack := stack[..k];
      if node in seen {
        SkipsSeen(g.nodes, g.records, start, seen, before);
        continue;
      }
      VisitsNext(g.nodes, g.records, start, seen, before);
      StackInside(g.nodes, g.records, start, seen, before);
      seen := seen + {node};
      stack := PushOnward(g, node, seen, stack);
    }
    Explored(g.nodes, g.records, start, maxSize, seen, stack);
  }

  lemma StackInside(nodes: set<Name>, rs: seq<Record>, start: Name, seen: set<Name>, stack: seq<Name>)
    requires Exploring(nodes, rs, start, seen, stack) && stack != []
    ensures stack[|stack| - 1] in nodes
  {
  }

  lemma StartsExploring(nodes: set<Name>, rs: seq<Record>, start: Name)
    requires start in nodes
    ensures Exploring(nodes, rs, start, {}, [start])
  {
  }

  lemma Explored(nodes: set<Name>, rs: seq<Record>, start: Name, maxSize: Option<nat>, seen: set<Name>, stack: seq<Name>)
    requires Exploring(nodes, rs, start, seen, stack) && (maxSize.Some? ==> |seen| <= maxSize.value)
    requires stack == [] || Full(seen, maxSize)
    ensures Reached(rs, start, maxSize, seen)
  {
  }

  // ----- every node of such a part carries an edge, or it is alone -----

  lemma {:induction false} EndsHave(rs: seq<Record>, r: Record)
    requires r in rs
    ensures r.src in Ends(rs) && r.dst in Ends(rs)
  {
    EndsLast(rs);
    if r != rs[|rs| - 1] { EndsHave(rs[..|rs| - 1], r); }
  }

  lemma PartCarriesEdges(rs: seq<Record>, start: Name, maxSize: Option<nat>, part: set<Name>, u: Name, v: Name)
    requires Reached(rs, start, maxSize, part) && u in part && v in part && u != v
    ensures forall w :: w in part ==> w in Ends(rs)
  {
    hide Ends;
    forall w | w in part ensures w in Ends(rs) {
      if w == start {
        var other := if u == start then v else u;
        assert Departs(rs, start);
        var r :| r in rs && r.src == start;
        EndsHave(rs, r);
      } else {
        var r :| r in rs && r.src in part && r.dst == w;
        EndsHave(rs, r);
      }
    }
  }

  // ----- crossover at a node -----

  /** No donor at all raises; a missing crossover point or an empty part is refused; anything
      else is attempted, and kept or aborted as the checks decide. */
  datatype Attempt = Refused | NoDonor | Attempted(outcome: Outcome)

  function Distance(m: int, n: int): nat {
    if m < n then n - m else m - n
  }

  /** A node whose arity is nearest to the one asked for. */
  method NearestArity(b: HinGraph, arity: int) returns (best: Name)
    requires b.nodes != {}
    ensures best in b.nodes
    ensures forall v :: v in b.nodes ==> Distance(At(b.expectedArity, best), arity) <= Distance(At(b.expectedArity, v), arity)
  {
    best :| best in b.nodes;
    var left := b.nodes - {best};
    while left != {}
      invariant left <= b.nodes && best in b.nodes - left
      invariant forall v :: v in b.nodes - left ==> Distance(At(b.expectedArity, best), arity) <= Distance(At(b.expectedArity, v), arity)
      decreases left
    {
      var v :| v in left;
      if Distance(At(b.expectedArity, v), arity) < Distance(At(b.expectedArity, best), arity) {
        best := v;
      }
      left := left - {v};
    }
  }

  ghost predicate DonorStart(a: HinGraph, b: HinGraph, point: Name, start: Name) reads a, b {
    && start in b.nodes && (point in b.nodes ==> start == point)
    && (point !in b.nodes ==> forall v :: v in b.nodes ==>
          Distance(At(b.expectedArity, start), At(a.expectedArity, point)) <= Distance(At(b.expectedArity, v), At(a.expectedArity, point)))
  }

  /** crossover: unless it is refused, the part of one parent around the point makes room for
      a part of the other. The parents are not modified. */
  method CrossoverAt(a: HinGraph, b: HinGraph, point: Name, maxSize: Option<nat>, expected: Signatures)
    returns (attempt: Attempt, child: HinGraph?, ghost target: set<Name>, ghost start: Name, ghost donor: set<Name>, ghost level: Waves)
    requires a.Valid() && a.Holds() && b.Valid() && b.Holds()
    ensures attempt.Refused? <==> point !in a.nodes || (b.nodes != {} && maxSize == Some(0))
    ensures attempt.NoDonor? <==> point in a.nodes && b.nodes == {}
    ensures attempt.Attempted? <==> child != null
    ensures child != null ==> fresh(child) && child.Valid() && Exchanged(a, b, target, donor, child) && target <= a.nodes && donor <= b.nodes
    ensures child != null ==> Reached(a.records, point, maxSize, target) && DonorStart(a, b, point, start) && Reached(b.records, start, maxSize, donor)
    ensures child != null ==> (child.Holds() <==> !NamesClash(a.nodes, donor))
    ensures child != null && NoCycle(child.records) ==> Levelled(child.nodes, child.records, level)
    ensures child != null ==>
      (attempt.outcome.Accepted? <==> NoCycle(child.records) && !NamesClash(a.nodes, donor) && Matches(child.records, level, expected))
    ensures child != null ==> (attempt.outcome.Unbalanced? <==> NoCycle(child.records) && NamesClash(a.nodes, donor))
    ensures child != null ==> (attempt.outcome.Cyclic? <==> !NoCycle(child.records))
  {
    hide Reached, NamesClash, Spliced, Shadows, DonorName, NoCycle, Levelled, Matches, HinGraph.Holds, HinGraph.Valid, Distance;
    attempt, child, start, target, donor, level := Refused, null, point, {}, {}, map[];
    if point !in a.nodes { return; }
    var gone := ConnectedComponent(a, point, maxSize);
    target := gone;
    var from := point;
    if point !in b.nodes {
      if b.nodes == {} { return NoDonor, null, target, start, donor, level; }
      from := NearestArity(b, At(a.expectedArity, point));
    }
    start := from;
    var part := ConnectedComponent(b, from, maxSize);
    donor := part;
    EmptyPart(b.records, start, maxSize, part);
    if part == {} { return; }
    var c, names;
    ghost var joint;
    c, names, joint := Exchange(a, b, gone, part);
    ClashNeedsTwo(a.nodes, b.records, start, maxSize, donor);
    child := c;
    var outcome, stored;
    outcome, stored, level := VerifyAll(c, expected);
    attempt := Attempted(outcome);
  }

  lemma EmptyPart(rs: seq<Record>, start: Name, maxSize: Option<nat>, part: set<Name>)
    requires Reached(rs, start, maxSize, part)
    ensures part == {} <==> maxSize == Some(0)
  {
  }

  /** Spliced under the names that donor ids receive. */
  ghost predicate Exchanged(a: HinGraph, b: HinGraph, target: set<Name>, donor: set<Name>, child: HinGraph) reads a, b, child {
    exists rename: map<Name, Name>, joint: Joint :: Spliced(a, b, target, donor, rename, joint, child)
      && rename.Keys == donor && forall u :: u in donor ==> rename[u] == DonorName(a.nodes, u)
  }

  /** A clash takes two nodes, which then carry edges with all the others of the part. */
  lemma ClashNeedsTwo(nodes: set<Name>, rs: seq<Record>, start: Name, maxSize: Option<nat>, part: set<Name>)
    requires Reached(rs, start, maxSize, part)
    ensures NamesClash(nodes, part) ==> forall u :: u in part ==> u in Ends(rs)
  {
    hide Reached, Shadows, Ends;
    if s, t :| s in part && t in part && s != t && Shadows(nodes, s, t) {
      PartCarriesEdges(rs, start, maxSize, part, s, t);
    }
  }

  // ----- a crossover that fails -----

  /** Two nodes joined by one edge: "x" leads to "donor::x", a name that an earlier crossover gave. */
  method SecondGeneration() returns (g: HinGraph)
    ensures fresh(g) && g.Valid() && g.Holds()
    ensures g.nodes == {"x", DONOR + "x"} && g.records == [EdgeBetween("x", DONOR + "x", None, None)]
  {
    var x, t := "x", DONOR + "x";
    var r := EdgeBetween(x, t, None, None);
    g := new HinGraph({x, t}, map[x := 1, t := 1], [r], map[x := 0, t := 1], map[x := 1, t := 0], [EdgeType(r.edge, None, None)]);
    OneEdge(r);
  }

  lemma OneEdge(r: Record)
    ensures Sources([r]) == multiset{r.src} && Targets([r]) == multiset{r.dst}
  {
    assert [r][..0] == [];
    assert Sources([r][..0]) == multiset{} && Targets([r][..0]) == multiset{};
  }

  lemma OwnNamesClash(nodes: set<Name>, donor: set<Name>)
    requires "x" in donor && DONOR + "x" in donor && donor <= nodes
    ensures NamesClash(nodes, donor) && DonorName(nodes, "x") == DonorName(nodes, DONOR + "x")
  {
    var t := DONOR + "x";
    assert Prefixed("x", 0) == "x" && Prefixed("x", 1) == t;
    assert Shadows(nodes, "x", t);
    ShadowSharesName(nodes, "x", t);
  }

  /** The two merged nodes keep the edge between them, which now leads from a node to itself. */
  lemma MergedLoops(a: HinGraph, b: HinGraph, target: set<Name>, donor: set<Name>, child: HinGraph, r: Record)
    requires Exchanged(a, b, target, donor, child) && r in b.records && r.src in donor && r.dst in donor
    requires DonorName(a.nodes, r.src) == DonorName(a.nodes, r.dst)
    ensures !NoCycle(child.records)
  {
    hide Rewired, ContextFlows, DonorFlows, ApartFlows, NoCycle, Adapted, DonorName, Select, Transplants, Label, Base;
    var rename: map<Name, Name>, joint: Joint :| Spliced(a, b, target, donor, rename, joint, child)
      && rename.Keys == donor && forall u :: u in donor ==> rename[u] == DonorName(a.nodes, u);
    var inner := Select(b.records, donor, true, true);
    var kept, moved := Select(a.records, target, false, false), Transplants(rename, inner);
    SelectHas(b.records, donor, r);
    TransplantsAre(rename, inner);
    var k :| 0 <= k < |inner| && inner[k] == r;
    assert (kept + moved)[|kept| + k] == moved[k] && child.records[|kept| + k] == (kept + moved)[|kept| + k];
    LoopCycles(child.records, moved[k]);
  }

  lemma LoopCycles(rs: seq<Record>, r: Record)
    requires r in rs && r.src == r.dst
    ensures !NoCycle(rs)
  {
    forall height: map<Name, int> ensures !Climbs(rs, height) {}
  }

  lemma {:induction false} SelectHas(rs: seq<Record>, s: set<Name>, r: Record)
    requires r in rs && r.src in s && r.dst in s
    ensures r in Select(rs, s, true, true)
  {
    if r != rs[|rs| - 1] { SelectHas(rs[..|rs| - 1], s, r); }
  }

  lemma StartsAtPoint(a: HinGraph, b: HinGraph, point: Name, start: Name)
    requires DonorStart(a, b, point, start) && point in b.nodes
    ensures start == point
  {
  }

  /** Unbounded, the part has the other end of every edge that leaves its start. */
  lemma FollowsEdge(rs: seq<Record>, start: Name, part: set<Name>, r: Record)
    requires Reached(rs, start, None, part) && r in rs && r.src == start
    ensures start in part && r.dst in part
  {
  }

  /** Crossing such a graph with itself at "x" is aborted, although both parents are conserved: the two
      nodes become one, and the edge between them a cycle. */
  method SelfCrossoverFails() returns (g: HinGraph, attempt: Attempt)
    ensures g.Valid() && g.Holds()
    ensures g.nodes == {"x", DONOR + "x"} && g.records == [EdgeBetween("x", DONOR + "x", None, None)]
    ensures attempt == Attempted(Cyclic)
  {
    hide Exchanged, Reached, DonorStart, NamesClash, Levelled, Matches, NoCycle, HinGraph.Holds, HinGraph.Valid, Label, DonorName;
    g := SecondGeneration();
    var child;
    ghost var target, start, donor, level;
    attempt, child, target, start, donor, level := CrossoverAt(g, g, "x", None, map[]);
    assert start == "x" by { StartsAtPoint(g, g, "x", start); }
    assert g.records[0] in g.records;
    FollowsEdge(g.records, start, donor, g.records[0]);
    OwnNamesClash(g.nodes, donor);
    MergedLoops(g, g, target, donor, child, g.records[0]);
  }
}
