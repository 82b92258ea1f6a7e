/** InvariantVerifier.verify_all (core/invariants.py): a graph is accepted exactly when it
    has a schedule, conserves edges, and shows the boundary signatures stored for its waves. */
module Verification {
  import opened Collections
  import opened MellTypes
  import opened Names
  import opened EdgeConservation
  import L = Levels
  import W = Wavefront

  // ----- the scheduler's view of the records -----

  ghost predicate Joined(rs: seq<Record>, u: Name, v: Name) {
    exists r :: r in rs && r.src == u && r.dst == v
  }

  /** Successors, predecessors and in-degrees are those of the records. */
  ghost predicate Viewed(ranks: map<Name, L.Id>, rs: seq<Record>, h: L.Graph) {
    && L.WellFormed(h) && h.nodes == ranks.Values
    && h.adjList.Keys == h.nodes && h.reverseAdj.Keys == h.nodes && h.inDegrees.Keys == h.nodes
    && forall u, v :: u in ranks && v in ranks ==> (L.IsEdge(h, ranks[u], ranks[v]) <==> Joined(rs, u, v))
  }

  /** The ids under which the scheduler is shown the names. */
  method Number(nodes: set<Name>) returns (ranks: map<Name, L.Id>)
    ensures ranks.Keys == nodes && Injective(ranks)
  {
    ranks := map[];
    var left, next := nodes, 0;
    while left != {}
      invariant left <= nodes && ranks.Keys == nodes - left && Injective(ranks)
      invariant forall n :: n in ranks ==> ranks[n].rank < next
      decreases left
    {
      var n :| n in left;
      ranks, left, next := ranks[n := L.Id(next)], left - {n}, next + 1;
    }
  }

  lemma NothingViewed(ranks: map<Name, L.Id>, h: L.Graph)
    requires h == L.Graph(ranks.Values, map v | v in ranks.Values :: [], map v | v in ranks.Values :: [], map v | v in ranks.Values :: 0)
    ensures Viewed(ranks, [], h)
  {
    forall v | v in h.nodes ensures L.Into(h, v) == {} {}
  }

  lemma JoinedMore(rs: seq<Record>, k: nat, u: Name, v: Name)
    requires k < |rs|
    ensures Joined(rs[..k + 1], u, v) <==> Joined(rs[..k], u, v) || (u == rs[k].src && v == rs[k].dst)
  {
    assert rs[..k + 1] == rs[..k] + [rs[k]];
  }

  lemma ViewedMore(ranks: map<Name, L.Id>, rs: seq<Record>, k: nat, g: L.Graph, h: L.Graph)
    requires k < |rs| && Viewed(ranks, rs[..k], g) && Injective(ranks) && rs[k].src in ranks && rs[k].dst in ranks
    requires L.Extends(g, h, ranks[rs[k].src], ranks[rs[k].dst])
    ensures Viewed(ranks, rs[..k + 1], h)
  {
    hide L.WellFormed, L.IsEdge, Joined;
    var (a, b) := (ranks[rs[k].src], ranks[rs[k].dst]);
    L.AddArc(g, h, a, b);
    forall u, v | u in ranks && v in ranks ensures L.IsEdge(h, ranks[u], ranks[v]) <==> Joined(rs[..k + 1], u, v) {
      L.EdgesGrow(g, h, a, b, ranks[u], ranks[v]);
      JoinedMore(rs, k, u, v);
    }
  }

  lemma ViewedKeys(ranks: map<Name, L.Id>, rs: seq<Record>, h: L.Graph, n: Name)
    requires Viewed(ranks, rs, h) && n in ranks
    ensures ranks[n] in h.nodes && ranks[n] in h.adjList && ranks[n] in h.reverseAdj && ranks[n] in h.inDegrees
  {
  }

  method SchedulingGraph(g: HinGraph, ranks: map<Name, L.Id>) returns (h: L.Graph)
    requires g.Valid() && ranks.Keys == g.nodes && Injective(ranks)
    ensures Viewed(ranks, g.records, h)
  {
    RecordsInside(g);
    h := L.Graph(ranks.Values, map v | v in ranks.Values :: [], map v | v in ranks.Values :: [], map v | v in ranks.Values :: 0);
    NothingViewed(ranks, h);
    hide Viewed, Injective, HinGraph.Valid;
    for k := 0 to |g.records|
      invariant Viewed(ranks, g.records[..k], h)
    {
      var r := g.records[k];
      assert r in g.records;
      ViewedKeys(ranks, g.records[..k], h, r.src);
      ViewedKeys(ranks, g.records[..k], h, r.dst);
      var (a, b) := (ranks[r.src], ranks[r.dst]);
      ghost var before := h;
      h := L.Graph(h.nodes, h.adjList[a := h.adjList[a] + [b]], h.reverseAdj[b := h.reverseAdj[b] + [a]], h.inDegrees[b := h.inDegrees[b] + 1]);
      ViewedMore(ranks, g.records, k, before, h);
    }
    assert g.records[..|g.records|] == g.records;
  }

  // ----- cycles and levels, on the records themselves -----

  ghost predicate Climbs(rs: seq<Record>, height: map<Name, int>) {
    forall r :: r in rs ==> At(height, r.src) < At(height, r.dst)
  }

  /** The records lead upwards for some choice of heights: no cycle. */
  ghost predicate NoCycle(rs: seq<Record>) {
    exists height :: Climbs(rs, height)
  }

  lemma AcyclicIs(nodes: set<Name>, ranks: map<Name, L.Id>, rs: seq<Record>, h: L.Graph)
    requires Viewed(ranks, rs, h) && Injective(ranks) && ranks.Keys == nodes && forall r :: r in rs ==> r.src in nodes && r.dst in nodes
    ensures L.Acyclic(h) <==> NoCycle(rs)
  {
    hide Viewed, Injective, L.IsEdge;
    if r :| L.Ranks(h, r) { RanksClimb(nodes, ranks, rs, h, r); }
    if height :| Climbs(rs, height) { ClimbsRank(nodes, ranks, rs, h, height); }
  }

  lemma RanksClimb(nodes: set<Name>, ranks: map<Name, L.Id>, rs: seq<Record>, h: L.Graph, r: map<L.Id, int>)
    requires Viewed(ranks, rs, h) && ranks.Keys == nodes && L.Ranks(h, r) && forall e :: e in rs ==> e.src in nodes && e.dst in nodes
    ensures NoCycle(rs)
  {
    hide L.IsEdge, L.WellFormed;
    var height: map<Name, int> := map n | n in nodes :: r[ranks[n]];
    forall e | e in rs ensures At(height, e.src) < At(height, e.dst) {
      assert Joined(rs, e.src, e.dst);
      assert L.IsEdge(h, ranks[e.src], ranks[e.dst]);
    }
    assert Climbs(rs, height);
  }

  lemma ClimbsRank(nodes: set<Name>, ranks: map<Name, L.Id>, rs: seq<Record>, h: L.Graph, height: map<Name, int>)
    requires Viewed(ranks, rs, h) && Injective(ranks) && ranks.Keys == nodes && Climbs(rs, height)
    ensures L.Acyclic(h)
  {
    hide L.WellFormed;
    var r: map<L.Id, int> := map n | n in nodes :: ranks[n] := At(height, n);
    forall u, v | L.IsEdge(h, u, v) && v in h.nodes ensures r[u] < r[v] {
      var m, n :| m in ranks && n in ranks && ranks[m] == u && ranks[n] == v;
      assert Joined(rs, m, n);
    }
    assert L.Ranks(h, r);
  }

  type Waves = map<Name, nat>

  /** Every node lies just above its highest predecessor. */
  ghost predicate Levelled(nodes: set<Name>, rs: seq<Record>, level: Waves) {
    && level.Keys == nodes
    && (forall r :: r in rs ==> r.src in level && r.dst in level && level[r.src] < level[r.dst])
    && (forall v :: v in level && level[v] > 0 ==> exists u :: u in level && level[u] == level[v] - 1 && Joined(rs, u, v))
  }

  /** The wave of every id of a schedule. */
  method WaveOf(waves: seq<seq<L.Id>>, ghost l: L.Level) returns (wave: map<L.Id, nat>)
    requires L.Schedules(waves, l)
    ensures wave == l
  {
    wave := map[];
    for k := 0 to |waves|
      invariant forall v :: v in wave <==> v in l && l[v] < k
      invariant forall v :: v in wave ==> wave[v] == l[v]
    {
      L.WaveLists(waves, l, k);
      ghost var before := wave;
      for j := 0 to |waves[k]|
        invariant forall v :: v in wave <==> v in before || v in waves[k][..j]
        invariant forall v :: v in wave ==> v in l && wave[v] == l[v]
      {
        assert waves[k][j] in waves[k] && waves[k][..j + 1] == waves[k][..j] + [waves[k][j]];
        wave := wave[waves[k][j] := k];
      }
      assert waves[k][..|waves[k]|] == waves[k];
    }
  }

  lemma ViewedEdge(ranks: map<Name, L.Id>, rs: seq<Record>, h: L.Graph, u: Name, v: Name)
    requires Viewed(ranks, rs, h) && u in ranks && v in ranks
    ensures L.IsEdge(h, ranks[u], ranks[v]) <==> Joined(rs, u, v)
    ensures ranks[u] in h.nodes && ranks[v] in h.nodes
  {
  }

  lemma ViewedName(ranks: map<Name, L.Id>, rs: seq<Record>, h: L.Graph, i: L.Id, j: L.Id) returns (u: Name)
    requires Viewed(ranks, rs, h) && L.IsEdge(h, i, j)
    ensures u in ranks && ranks[u] == i
  {
    u :| u in ranks && ranks[u] == i;
  }

  lemma LevelsAgree(nodes: set<Name>, ranks: map<Name, L.Id>, rs: seq<Record>, h: L.Graph, l: L.Level, level: Waves)
    requires Viewed(ranks, rs, h) && ranks.Keys == nodes && (forall r :: r in rs ==> r.src in nodes && r.dst in nodes)
    requires L.IsLevel(h, l) && level == map n | n in nodes :: l[ranks[n]]
    ensures Levelled(nodes, rs, level)
  {
    hide Viewed, L.IsEdge;
    LevelKeys(ranks, rs, h, l);
    forall r | r in rs ensures level[r.src] < level[r.dst] {
      assert Joined(rs, r.src, r.dst);
      ViewedEdge(ranks, rs, h, r.src, r.dst);
    }
    forall v | v in level && level[v] > 0 ensures exists u :: u in level && level[u] == level[v] - 1 && Joined(rs, u, v) {
      assert L.Anchored(h, l, ranks[v]);
      var i :| L.IsEdge(h, i, ranks[v]) && i in l && l[i] == l[ranks[v]] - 1;
      var u := ViewedName(ranks, rs, h, i, ranks[v]);
      ViewedEdge(ranks, rs, h, u, v);
    }
  }

  // ----- boundary signatures -----

  datatype Signature = Signature(inputs: set<string>, outputs: set<string>)

  predicate Shows(s: Signature) {
    s.inputs != {} || s.outputs != {}
  }

  type Signatures = map<nat, Signature>

  function WaveAt(level: Waves, v: Name): nat {
    if v in level then level[v] else 0
  }

  /** Enters the higher of the two waves that it joins. */
  predicate Enters(level: Waves, r: Record, w: nat) {
    var (s, d) := (WaveAt(level, r.src), WaveAt(level, r.dst));
    s != d && w == if s < d then d else s
  }

  /** Leaves the lower of the two. */
  predicate Leaves(level: Waves, r: Record, w: nat) {
    var (s, d) := (WaveAt(level, r.src), WaveAt(level, r.dst));
    s != d && w == if s < d then s else d
  }

  /** The labels of the edges that enter and leave a wave. */
  function SignatureAt(rs: seq<Record>, level: Waves, w: nat): Signature {
    Signature(set r | r in rs && Enters(level, r, w) :: r.edge, set r | r in rs && Leaves(level, r, w) :: r.edge)
  }

  function Stored(actual: Signatures, w: nat): Signature {
    if w in actual then actual[w] else Signature({}, {})
  }

  function WithInput(actual: Signatures, w: nat, edge: string): Signatures {
    actual[w := Stored(actual, w).(inputs := Stored(actual, w).inputs + {edge})]
  }

  function WithOutput(actual: Signatures, w: nat, edge: string): Signatures {
    actual[w := Stored(actual, w).(outputs := Stored(actual, w).outputs + {edge})]
  }

  lemma SignatureMore(rs: seq<Record>, k: nat, level: Waves, w: nat)
    requires k < |rs|
    ensures SignatureAt(rs[..k + 1], level, w).inputs == SignatureAt(rs[..k], level, w).inputs + (if Enters(level, rs[k], w) then {rs[k].edge} else {})
    ensures SignatureAt(rs[..k + 1], level, w).outputs == SignatureAt(rs[..k], level, w).outputs + (if Leaves(level, rs[k], w) then {rs[k].edge} else {})
  {
    assert rs[..k + 1] == rs[..k] + [rs[k]];
  }

  /** The signatures of the first k records, none of them empty. */
  ghost predicate Collected(rs: seq<Record>, k: nat, level: Waves, actual: Signatures)
    requires k <= |rs|
  {
    && (forall w :: Stored(actual, w) == SignatureAt(rs[..k], level, w))
    && (forall w :: w in actual ==> Shows(actual[w]))
  }

  /** An edge joins a lower wave to a higher one. */
  function Spanning(actual: Signatures, low: nat, high: nat, edge: string): Signatures {
    WithInput(WithOutput(actual, low, edge), high, edge)
  }

  lemma Spans(actual: Signatures, low: nat, high: nat, edge: string, w: nat)
    requires low < high && forall v :: v in actual ==> Shows(actual[v])
    ensures var after := Spanning(actual, low, high, edge);
            && Stored(after, w).inputs == Stored(actual, w).inputs + (if w == high then {edge} else {})
            && Stored(after, w).outputs == Stored(actual, w).outputs + (if w == low then {edge} else {})
            && (w in after ==> Shows(after[w]))
            && WithOutput(WithInput(actual, high, edge), low, edge) == after
  {
    var after := Spanning(actual, low, high, edge);
    if w == high { assert edge in after[w].inputs; }
    if w == low { assert edge in after[w].outputs; }
  }

  lemma CollectedMore(rs: seq<Record>, k: nat, level: Waves, actual: Signatures)
    requires k < |rs| && Collected(rs, k, level, actual)
    ensures var (s, d) := (WaveAt(level, rs[k].src), WaveAt(level, rs[k].dst));
            && (s < d ==> Collected(rs, k + 1, level, Spanning(actual, s, d, rs[k].edge)))
            && (d < s ==> Collected(rs, k + 1, level, Spanning(actual, d, s, rs[k].edge)))
            && (s == d ==> Collected(rs, k + 1, level, actual))
  {
    hide Spanning, SignatureAt;
    var (s, d) := (WaveAt(level, rs[k].src), WaveAt(level, rs[k].dst));
    forall w ensures s == d ==> Stored(actual, w) == SignatureAt(rs[..k + 1], level, w)
             ensures s < d ==> Stored(Spanning(actual, s, d, rs[k].edge), w) == SignatureAt(rs[..k + 1], level, w)
             ensures d < s ==> Stored(Spanning(actual, d, s, rs[k].edge), w) == SignatureAt(rs[..k + 1], level, w)
    {
      SignatureMore(rs, k, level, w);
      if s < d { Spans(actual, s, d, rs[k].edge, w); }
      if d < s { Spans(actual, d, s, rs[k].edge, w); }
    }
    if s < d { forall w | w in Spanning(actual, s, d, rs[k].edge) ensures Shows(Spanning(actual, s, d, rs[k].edge)[w]) { Spans(actual, s, d, rs[k].edge, w); } }
    if d < s { forall w | w in Spanning(actual, d, s, rs[k].edge) ensures Shows(Spanning(actual, d, s, rs[k].edge)[w]) { Spans(actual, d, s, rs[k].edge, w); } }
  }

  method ActualSignatures(rs: seq<Record>, level: Waves) returns (actual: Signatures)
    ensures forall w :: Stored(actual, w) == SignatureAt(rs, level, w)
    ensures forall w :: w in actual ==> Shows(actual[w])
  {
    actual := map[];
    for k := 0 to |rs|
      invariant Collected(rs, k, level, actual)
    {
      var r := rs[k];
      CollectedMore(rs, k, level, actual);
      var (s, d) := (WaveAt(level, r.src), WaveAt(level, r.dst));
      if s < d {
        actual := WithInput(WithOutput(actual, s, r.edge), d, r.edge);
      } else if d < s {
        Spans(actual, d, s, r.edge, s);
        actual := WithOutput(WithInput(actual, s, r.edge), d, r.edge);
      }
    }
    assert rs[..|rs|] == rs;
  }

  /** Every stored signature is the one that the records show. */
  ghost predicate Matches(rs: seq<Record>, level: Waves, expected: Signatures) {
    forall w :: w in expected ==> expected[w] == SignatureAt(rs, level, w)
  }

  /** verify_interface_signatures: a stored signature must match, and a missing one is stored. */
  method VerifyInterfaces(rs: seq<Record>, level: Waves, expected: Signatures) returns (changed: Option<nat>, stored: Signatures)
    ensures changed.None? <==> Matches(rs, level, expected)
    ensures changed.Some? ==> changed.value in expected && expected[changed.value] != SignatureAt(rs, level, changed.value)
    ensures changed.None? ==> Matches(rs, level, stored)
                              && forall w :: w in stored <==> w in expected || Shows(SignatureAt(rs, level, w))
  {
    var actual := ActualSignatures(rs, level);
    hide SignatureAt;
    changed, stored := None, expected;
    var left := expected.Keys + actual.Keys;
    while left != {}
      invariant left <= expected.Keys + actual.Keys
      invariant forall w :: w in stored <==> w in expected || (w in actual && w !in left)
      invariant forall w :: w in expected ==> stored[w] == expected[w]
      invariant forall w :: w in stored && w !in left ==> stored[w] == SignatureAt(rs, level, w)
      decreases left
    {
      var w :| w in left;
      assert Stored(actual, w) == SignatureAt(rs, level, w);
      if w !in expected {
        stored := stored[w := Stored(actual, w)];
      } else if expected[w] != Stored(actual, w) {
        return Some(w), stored;
      }
      left := left - {w};
    }
    forall w ensures w in actual <==> Shows(SignatureAt(rs, level, w)) {
      assert Stored(actual, w) == SignatureAt(rs, level, w);
    }
  }

  // ----- all checks -----

  datatype Outcome = Accepted | Cyclic | Unbalanced(verdict: Verdict) | InterfaceChanged(wave: nat)

  /** verify_all without the optional spectral check. */
  method VerifyAll(g: HinGraph, expected: Signatures) returns (outcome: Outcome, stored: Signatures, ghost level: Waves)
    requires g.Valid()
    ensures outcome.Cyclic? <==> !NoCycle(g.records)
    ensures outcome.Unbalanced? <==> NoCycle(g.records) && !g.Holds()
    ensures NoCycle(g.records) ==> Levelled(g.nodes, g.records, level)
    ensures outcome.Accepted? <==> NoCycle(g.records) && g.Holds() && Matches(g.records, level, expected)
    ensures outcome.Accepted? ==> Matches(g.records, level, stored) && expected.Keys <= stored.Keys
    ensures outcome.InterfaceChanged? ==> outcome.wave in expected && expected[outcome.wave] != SignatureAt(g.records, level, outcome.wave)
  {
    stored, level := expected, map[];
    var ranks := Number(g.nodes);
    var h := SchedulingGraph(g, ranks);
    RecordsInside(g);
    AcyclicIs(g.nodes, ranks, g.records, h);
    ViewedForward(ranks, g.records, h);
    hide NoCycle, Viewed, Injective, Levelled, Matches, SignatureAt, L.Acyclic, L.IsLevel, L.Schedules, HinGraph.Holds, HinGraph.Valid;
    var waves := W.ComputeWavefronts(h);
    if waves.None? { return Cyclic, stored, level; }
    ghost var l :| L.IsLevel(h, l) && L.Schedules(waves.value, l);
    var wave := WaveOf(waves.value, l);
    LevelKeys(ranks, g.records, h, l);
    var levels: Waves := map n | n in g.nodes :: wave[ranks[n]];
    level := levels;
    LevelsAgree(g.nodes, ranks, g.records, h, l, level);
    var verdict := g.VerifyEdgeConservation();
    if !verdict.Passed? { return Unbalanced(verdict), stored, level; }
    var changed, kept := VerifyInterfaces(g.records, levels, expected);
    if changed.Some? { return InterfaceChanged(changed.value), stored, level; }
    outcome, stored := Accepted, kept;
    assert expected.Keys <= stored.Keys;
  }

  lemma RecordsInside(g: HinGraph)
    requires g.Valid()
    ensures forall r :: r in g.records ==> r.src in g.nodes && r.dst in g.nodes
  {
  }

  lemma ViewedForward(ranks: map<Name, L.Id>, rs: seq<Record>, h: L.Graph)
    requires Viewed(ranks, rs, h)
    ensures L.Forward(h)
  {
  }

  lemma LevelKeys(ranks: map<Name, L.Id>, rs: seq<Record>, h: L.Graph, l: L.Level)
    requires Viewed(ranks, rs, h) && L.IsLevel(h, l)
    ensures forall n :: n in ranks ==> ranks[n] in l
  {
  }
}
