/** Edge records of a scheduling graph and the invariant that every node's degree is its
    expected arity and every edge joins compatible types (core/invariants.py, core/hin_graph.py). */
module EdgeConservation {
  import opened MellTypes
  import opened Names

  type PortType = Option<MellType>

  datatype Record = Record(src: Name, dst: Name, edge: string, srcType: PortType, dstType: PortType)

  datatype EdgeType = EdgeType(edge: string, srcType: PortType, dstType: PortType)

  datatype Verdict = Passed | ArityMismatch(node: Name) | PortTypeMismatch(edge: string)

  /** A missing type is compatible with everything. */
  predicate Compatible(a: PortType, b: PortType) {
    a.None? || b.None? || Unifiable(a.value, b.value)
  }

  lemma CompatibleReflexive(a: PortType)
    ensures Compatible(a, a)
  {
    if a.Some? { UnifiableReflexive(a.value); }
  }

  lemma CompatibleSymmetric(a: PortType, b: PortType)
    ensures Compatible(a, b) == Compatible(b, a)
  {
    if a.Some? && b.Some? { UnifiableSymmetric(a.value, b.value); }
  }

  // ----- degrees -----

  function Sources(rs: seq<Record>): multiset<Name> {
    if rs == [] then multiset{} else Sources(rs[..|rs| - 1]) + multiset{rs[|rs| - 1].src}
  }

  function Targets(rs: seq<Record>): multiset<Name> {
    if rs == [] then multiset{} else Targets(rs[..|rs| - 1]) + multiset{rs[|rs| - 1].dst}
  }

  /** Every half-edge, by the node it ends at: the multiplicity of a node is its degree. */
  function Ends(rs: seq<Record>): multiset<Name> {
    Sources(rs) + Targets(rs)
  }

  lemma EndsMore(rs: seq<Record>, r: Record)
    ensures Sources(rs + [r]) == Sources(rs) + multiset{r.src}
    ensures Targets(rs + [r]) == Targets(rs) + multiset{r.dst}
    ensures Ends(rs + [r]) == Ends(rs) + multiset{r.src, r.dst}
  {
  }

  function At(m: map<Name, int>, v: Name): int {
    if v in m then m[v] else 0
  }

  /** The degree maps and edge types are those of the records, and no record dangles. */
  ghost predicate Views(nodes: set<Name>, records: seq<Record>, inDegrees: map<Name, int>, outDegrees: map<Name, int>, edgeTypes: seq<EdgeType>) {
    && (forall r :: r in records ==> r.src in nodes && r.dst in nodes)
    && (forall v :: v in nodes ==> At(inDegrees, v) == Targets(records)[v] && At(outDegrees, v) == Sources(records)[v])
    && |edgeTypes| == |records|
    && (forall k :: 0 <= k < |records| ==> edgeTypes[k] == EdgeType(records[k].edge, records[k].srcType, records[k].dstType))
  }

  lemma ViewsMore(nodes: set<Name>, rs: seq<Record>, ins: map<Name, int>, outs: map<Name, int>, types: seq<EdgeType>, r: Record)
    requires Views(nodes, rs, ins, outs, types) && r.src in nodes && r.dst in nodes && r.src in outs && r.dst in ins
    ensures Views(nodes, rs + [r], ins[r.dst := ins[r.dst] + 1], outs[r.src := outs[r.src] + 1],
                  types + [EdgeType(r.edge, r.srcType, r.dstType)])
  {
  }

  /** Edge conservation, on the records themselves. */
  ghost predicate Conserved(nodes: set<Name>, arity: map<Name, int>, records: seq<Record>) {
    && (forall v :: v in nodes ==> At(arity, v) == Ends(records)[v])
    && (forall r :: r in records ==> Compatible(r.srcType, r.dstType))
  }

  class HinGraph {
    var nodes: set<Name>
    var expectedArity: map<Name, int>
    var records: seq<Record>
    var inDegrees: map<Name, int>
    var outDegrees: map<Name, int>
    var edgeTypes: seq<EdgeType>

    ghost predicate Valid() reads this {
      Views(nodes, records, inDegrees, outDegrees, edgeTypes)
    }

    ghost predicate Holds() reads this {
      Conserved(nodes, expectedArity, records)
    }

    constructor (nodes: set<Name>, expectedArity: map<Name, int>, records: seq<Record>,
                 inDegrees: map<Name, int>, outDegrees: map<Name, int>, edgeTypes: seq<EdgeType>)
      ensures this.nodes == nodes && this.expectedArity == expectedArity && this.records == records
      ensures this.inDegrees == inDegrees && this.outDegrees == outDegrees && this.edgeTypes == edgeTypes
    {
      this.nodes, this.expectedArity, this.records := nodes, expectedArity, records;
      this.inDegrees, this.outDegrees, this.edgeTypes := inDegrees, outDegrees, edgeTypes;
    }

    /** deepcopy */
    constructor Copy(g: HinGraph)
      ensures nodes == g.nodes && expectedArity == g.expectedArity && records == g.records
      ensures inDegrees == g.inDegrees && outDegrees == g.outDegrees && edgeTypes == g.edgeTypes
    {
      nodes, expectedArity, records := g.nodes, g.expectedArity, g.records;
      inDegrees, outDegrees, edgeTypes := g.inDegrees, g.outDegrees, g.edgeTypes;
    }

    /** verify_edge_conservation: passes exactly when the records are conserved. */
    method VerifyEdgeConservation() returns (verdict: Verdict)
      requires Valid()
      ensures verdict.Passed? <==> Holds()
      ensures verdict.ArityMismatch? ==> verdict.node in nodes && At(expectedArity, verdict.node) != Ends(records)[verdict.node]
      ensures verdict.PortTypeMismatch? ==>
                exists r :: r in records && r.edge == verdict.edge && !Compatible(r.srcType, r.dstType)
    {
      var left := nodes;
      while left != {}
        invariant left <= nodes
        invariant forall v :: v in nodes && v !in left ==> At(expectedArity, v) == Ends(records)[v]
        decreases left
      {
        var v :| v in left;
        if At(expectedArity, v) != At(inDegrees, v) + At(outDegrees, v) {
          return ArityMismatch(v);
        }
        left := left - {v};
      }
      for k := 0 to |edgeTypes|
        invariant forall j :: 0 <= j < k ==> Compatible(records[j].srcType, records[j].dstType)
      {
        if !Compatible(edgeTypes[k].srcType, edgeTypes[k].dstType) {
          assert records[k] in records;
          return PortTypeMismatch(edgeTypes[k].edge);
        }
      }
      return Passed;
    }

    /** A node of the given arity and, if it was unknown, no edges. */
    method AddNode(id: Name, arity: int)
      modifies this
      ensures nodes == old(nodes) + {id} && expectedArity == old(expectedArity)[id := arity]
      ensures records == old(records) && edgeTypes == old(edgeTypes)
      ensures inDegrees == old(inDegrees)[id := At(old(inDegrees), id)]
      ensures outDegrees == old(outDegrees)[id := At(old(outDegrees), id)]
    {
      nodes, expectedArity := nodes + {id}, expectedArity[id := arity];
      inDegrees, outDegrees := inDegrees[id := At(inDegrees, id)], outDegrees[id := At(outDegrees, id)];
    }

    method AddEdge(src: Name, dst: Name, srcType: PortType, dstType: PortType)
      modifies this
      ensures nodes == old(nodes) && expectedArity == old(expectedArity)
      ensures records == old(records) + [EdgeBetween(src, dst, srcType, dstType)]
      ensures edgeTypes == old(edgeTypes) + [EdgeType(Label(src, dst), srcType, dstType)]
      ensures inDegrees == old(inDegrees)[dst := At(old(inDegrees), dst) + 1]
      ensures outDegrees == old(outDegrees)[src := At(old(outDegrees), src) + 1]
    {
      records := records + [EdgeBetween(src, dst, srcType, dstType)];
      edgeTypes := edgeTypes + [EdgeType(Label(src, dst), srcType, dstType)];
      outDegrees := outDegrees[src := At(outDegrees, src) + 1];
      inDegrees := inDegrees[dst := At(inDegrees, dst) + 1];
    }

    /** Drops the nodes with everything recorded about them; edge types wait for the rebuild. */
    method RemoveSubgraph(gone: set<Name>)
      modifies this
      ensures nodes == old(nodes) - gone && expectedArity == old(expectedArity) - gone
      ensures records == Select(old(records), gone, false, false)
      ensures inDegrees == old(inDegrees) - gone && outDegrees == old(outDegrees) - gone && edgeTypes == old(edgeTypes)
    {
      nodes, expectedArity := nodes - gone, expectedArity - gone;
      inDegrees, outDegrees := inDegrees - gone, outDegrees - gone;
      var kept: seq<Record> := [];
      for k := 0 to |records|
        modifies {}
        invariant kept == Select(records[..k], gone, false, false)
      {
        SelectMore(records, k, gone, false, false);
        if records[k].src !in gone && records[k].dst !in gone {
          kept := kept + [records[k]];
        }
      }
      assert records[..|records|] == records;
      records := kept;
    }

    /** Recomputes the degree maps and edge types from the records that do not dangle. */
    method RebuildDegrees()
      modifies this
      ensures nodes == old(nodes) && expectedArity == old(expectedArity)
      ensures records == Select(old(records), nodes, true, true)
      ensures Valid()
    {
      var ins: map<Name, int>, outs: map<Name, int> := map v | v in nodes :: 0, map v | v in nodes :: 0;
      var valid: seq<Record> := [];
      var types: seq<EdgeType> := [];
      assert Views(nodes, valid, ins, outs, types);
      hide *;
      SelectNone(nodes, true, true);
      for k := 0 to |records|
        modifies {}
        invariant valid == Select(records[..k], nodes, true, true)
        invariant ins.Keys == nodes && outs.Keys == nodes
        invariant Views(nodes, valid, ins, outs, types)
      {
        var r := records[k];
        SelectMore(records, k, nodes, true, true);
        if r.src in nodes && r.dst in nodes {
          ViewsMore(nodes, valid, ins, outs, types, r);
          valid, types := valid + [r], types + [EdgeType(r.edge, r.srcType, r.dstType)];
          outs := outs[r.src := outs[r.src] + 1];
          ins := ins[r.dst := ins[r.dst] + 1];
        }
      }
      assert records[..|records|] == records;
      inDegrees, outDegrees, edgeTypes, records := ins, outs, types, valid;
      ValidIs();
    }

    lemma ValidIs()
      ensures Valid() <==> Views(nodes, records, inDegrees, outDegrees, edgeTypes)
    {
    }
  }

  function Label(src: Name, dst: Name): string {
    src + ":?->" + dst + ":?"
  }

  function EdgeBetween(src: Name, dst: Name, srcType: PortType, dstType: PortType): Record {
    Record(src, dst, Label(src, dst), srcType, dstType)
  }

  /** The records whose source, and whose destination, is inside or outside the set as asked. */
  function Select(rs: seq<Record>, s: set<Name>, srcIn: bool, dstIn: bool): (picked: seq<Record>)
    ensures forall r :: r in picked ==> r in rs && (r.src in s) == srcIn && (r.dst in s) == dstIn
  {
    if rs == [] then []
    else
      var rest, r := Select(rs[..|rs| - 1], s, srcIn, dstIn), rs[|rs| - 1];
      if (r.src in s) == srcIn && (r.dst in s) == dstIn then rest + [r] else rest
  }

  lemma SelectNone(s: set<Name>, srcIn: bool, dstIn: bool)
    ensures Select([], s, srcIn, dstIn) == []
  {
  }

  lemma SelectMore(rs: seq<Record>, k: nat, s: set<Name>, srcIn: bool, dstIn: bool)
    requires k < |rs|
    ensures Select(rs[..k + 1], s, srcIn, dstIn)
         == Select(rs[..k], s, srcIn, dstIn) + (if (rs[k].src in s) == srcIn && (rs[k].dst in s) == dstIn then [rs[k]] else [])
  {
    assert rs[..k + 1][..k] == rs[..k];
  }

  lemma {:induction false} SelectAll(rs: seq<Record>, s: set<Name>)
    requires forall r :: r in rs ==> r.src in s && r.dst in s
    ensures Select(rs, s, true, true) == rs
  {
    if rs != [] {
      SelectAll(rs[..|rs| - 1], s);
      assert rs[|rs| - 1] in rs;
    }
  }
}
