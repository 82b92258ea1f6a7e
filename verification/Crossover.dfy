/** Subgraph crossover (evolve.py, BoundaryAwareMutator.crossover): replacing any part of one
    parent by any part of the other conserves degrees and port types exactly when the
    renaming keeps the donor's nodes apart. */
module Crossover {
  import opened Collections
  import opened Names
  import opened EdgeConservation
  import opened Splicing

  // ----- the boundary of a node set -----

  /** extract_interface: the records that enter the node set and the records that leave it. */
  method ExtractInterface(g: HinGraph, s: set<Name>) returns (inputs: seq<Record>, outputs: seq<Record>)
    ensures inputs == Select(g.records, s, false, true) && outputs == Select(g.records, s, true, false)
  {
    inputs, outputs := [], [];
    for k := 0 to |g.records|
      invariant inputs == Select(g.records[..k], s, false, true) && outputs == Select(g.records[..k], s, true, false)
    {
      var r := g.records[k];
      SelectMore(g.records, k, s, false, true);
      SelectMore(g.records, k, s, true, false);
      if r.src in s && r.dst !in s {
        outputs := outputs + [r];
      } else if r.src !in s && r.dst in s {
        inputs := inputs + [r];
      }
    }
    assert g.records[..|g.records|] == g.records;
  }

  lemma SelectLast(rs: seq<Record>, s: set<Name>, srcIn: bool, dstIn: bool)
    requires rs != []
    ensures var init, r := rs[..|rs| - 1], rs[|rs| - 1];
            Select(rs, s, srcIn, dstIn)
            == if (r.src in s) == srcIn && (r.dst in s) == dstIn then Select(init, s, srcIn, dstIn) + [r] else Select(init, s, srcIn, dstIn)
  {
  }

  lemma EndsLast(rs: seq<Record>)
    requires rs != []
    ensures var init, r := rs[..|rs| - 1], rs[|rs| - 1];
            && Sources(rs) == Sources(init) + multiset{r.src} && Targets(rs) == Targets(init) + multiset{r.dst}
            && Ends(rs) == Ends(init) + multiset{r.src, r.dst}
  {
  }

  /** Outside the removed set the edges that leave a node, and those that enter it, are the kept ones and those across the border. */
  lemma {:induction false} ContextSplit(rs: seq<Record>, s: set<Name>, v: Name)
    requires v !in s
    ensures Sources(rs)[v] == Sources(Select(rs, s, false, false))[v] + Sources(Select(rs, s, false, true))[v]
    ensures Targets(rs)[v] == Targets(Select(rs, s, false, false))[v] + Targets(Select(rs, s, true, false))[v]
  {
    if rs != [] {
      hide *;
      var init, r := rs[..|rs| - 1], rs[|rs| - 1];
      ContextSplit(init, s, v);
      EndsLast(rs);
      SelectLast(rs, s, false, false);
      SelectLast(rs, s, false, true);
      SelectLast(rs, s, true, false);
      EndsMore(Select(init, s, false, false), r);
      EndsMore(Select(init, s, false, true), r);
      EndsMore(Select(init, s, true, false), r);
    }
  }

  /** Every edge that leaves a donor node, by the name the node receives. */
  function DonorSources(rs: seq<Record>, donor: set<Name>, rename: map<Name, Name>): multiset<Name> {
    if rs == [] then multiset{}
    else
      var r := rs[|rs| - 1];
      DonorSources(rs[..|rs| - 1], donor, rename) + (if r.src in donor then multiset{Renamed(rename, r.src)} else multiset{})
  }

  /** Every edge that enters one. */
  function DonorTargets(rs: seq<Record>, donor: set<Name>, rename: map<Name, Name>): multiset<Name> {
    if rs == [] then multiset{}
    else
      var r := rs[|rs| - 1];
      DonorTargets(rs[..|rs| - 1], donor, rename) + (if r.dst in donor then multiset{Renamed(rename, r.dst)} else multiset{})
  }

  /** Every half-edge at a donor node. */
  function DonorEnds(rs: seq<Record>, donor: set<Name>, rename: map<Name, Name>): multiset<Name> {
    DonorSources(rs, donor, rename) + DonorTargets(rs, donor, rename)
  }

  lemma TransplantsMore(rename: map<Name, Name>, rs: seq<Record>, r: Record)
    ensures Transplants(rename, rs + [r]) == Transplants(rename, rs) + [Transplant(rename, r)]
    ensures Sources(Transplants(rename, rs + [r])) == Sources(Transplants(rename, rs)) + multiset{Renamed(rename, r.src)}
    ensures Targets(Transplants(rename, rs + [r])) == Targets(Transplants(rename, rs)) + multiset{Renamed(rename, r.dst)}
    ensures Ends(Transplants(rename, rs + [r])) == Ends(Transplants(rename, rs)) + multiset{Renamed(rename, r.src), Renamed(rename, r.dst)}
  {
    assert Transplants(rename, rs + [r]) == Transplants(rename, rs) + [Transplant(rename, r)];
    EndsMore(Transplants(rename, rs), Transplant(rename, r));
  }

  /** The donor's inner edges and the records that leave it account for all edges that leave its nodes, and likewise for those that enter. */
  lemma {:induction false} DonorSplit(rs: seq<Record>, donor: set<Name>, rename: map<Name, Name>, n: Name)
    ensures DonorSources(rs, donor, rename)[n]
         == Sources(Transplants(rename, Select(rs, donor, true, true)))[n] + Sources(Transplants(rename, Select(rs, donor, true, false)))[n]
    ensures DonorTargets(rs, donor, rename)[n]
         == Targets(Transplants(rename, Select(rs, donor, true, true)))[n] + Targets(Transplants(rename, Select(rs, donor, false, true)))[n]
  {
    if rs != [] {
      hide *;
      var init, r := rs[..|rs| - 1], rs[|rs| - 1];
      DonorSplit(init, donor, rename, n);
      DonorLast(rs, donor, rename);
      SelectLast(rs, donor, true, true);
      SelectLast(rs, donor, false, true);
      SelectLast(rs, donor, true, false);
      TransplantsMore(rename, Select(init, donor, true, true), r);
      TransplantsMore(rename, Select(init, donor, false, true), r);
      TransplantsMore(rename, Select(init, donor, true, false), r);
    } else {
      assert Transplants(rename, []) == [];
    }
  }

  lemma DonorLast(rs: seq<Record>, donor: set<Name>, rename: map<Name, Name>)
    requires rs != []
    ensures var init, r := rs[..|rs| - 1], rs[|rs| - 1];
            && DonorSources(rs, donor, rename) == DonorSources(init, donor, rename) + (if r.src in donor then multiset{Renamed(rename, r.src)} else multiset{})
            && DonorTargets(rs, donor, rename) == DonorTargets(init, donor, rename) + (if r.dst in donor then multiset{Renamed(rename, r.dst)} else multiset{})
  {
  }

  lemma {:induction false} DonorEndsAre(rs: seq<Record>, donor: set<Name>, rename: map<Name, Name>, n: Name)
    requires rename.Keys == donor && n in DonorEnds(rs, donor, rename)
    ensures n in rename.Values
  {
    var init := rs[..|rs| - 1];
    if n in DonorEnds(init, donor, rename) { DonorEndsAre(init, donor, rename, n); }
  }

  /** Kept apart, a donor node brings exactly its old degrees. */
  lemma {:induction false} ApartDegree(rs: seq<Record>, donor: set<Name>, rename: map<Name, Name>, u: Name)
    requires rename.Keys == donor && u in donor && Injective(rename)
    ensures DonorSources(rs, donor, rename)[rename[u]] == Sources(rs)[u]
    ensures DonorTargets(rs, donor, rename)[rename[u]] == Targets(rs)[u]
  {
    hide DonorSources, DonorTargets, DonorEnds, Sources, Targets, Ends;
    if rs == [] {
      NoEnds();
      NoDonorEnds(donor, rename);
    } else {
      var r := rs[|rs| - 1];
      ApartDegree(rs[..|rs| - 1], donor, rename, u);
      DonorLast(rs, donor, rename);
      EndsLast(rs);
      assert r.src in donor ==> (Renamed(rename, r.src) == rename[u] <==> r.src == u);
      assert r.dst in donor ==> (Renamed(rename, r.dst) == rename[u] <==> r.dst == u);
    }
  }

  lemma NoDonorEnds(donor: set<Name>, rename: map<Name, Name>)
    ensures DonorSources([], donor, rename) == multiset{} && DonorTargets([], donor, rename) == multiset{}
  {
  }

  /** Merged, two donor nodes bring at least both their degrees. */
  lemma {:induction false} MergedDegree(rs: seq<Record>, donor: set<Name>, rename: map<Name, Name>, u: Name, w: Name)
    requires rename.Keys == donor && u in donor && w in donor && u != w && rename[u] == rename[w]
    ensures DonorEnds(rs, donor, rename)[rename[u]] >= Ends(rs)[u] + Ends(rs)[w]
  {
    if rs != [] {
      MergedDegree(rs[..|rs| - 1], donor, rename, u, w);
      DonorLast(rs, donor, rename);
      EndsLast(rs);
      hide DonorEnds, Ends;
    }
  }

  lemma {:induction false} EndsAre(rs: seq<Record>, v: Name)
    ensures v in Sources(rs) ==> exists r :: r in rs && r.src == v
    ensures v in Targets(rs) ==> exists r :: r in rs && r.dst == v
  {
    if rs != [] {
      var k := |rs| - 1;
      EndsAre(rs[..k], v);
      assert rs[k] in rs;
    }
  }

  // ----- renaming and installing the donor -----

  method BuildRename(nodes: set<Name>, donor: set<Name>) returns (rename: map<Name, Name>)
    ensures rename.Keys == donor && forall u :: u in donor ==> rename[u] == DonorName(nodes, u)
  {
    rename := map[];
    var left := donor;
    while left != {}
      invariant left <= donor && rename.Keys == donor - left
      invariant forall u :: u in rename ==> rename[u] == DonorName(nodes, u)
      decreases left
    {
      var u :| u in left;
      var name := RenameDonor(nodes, u);
      rename, left := rename[u := name], left - {u};
    }
  }

  /** Some donor node of that name set its arity. */
  ghost predicate ArityFrom(donorArity: map<Name, int>, rename: map<Name, Name>, n: Name, arity: map<Name, int>) {
    exists u :: u in rename && rename[u] == n && At(arity, n) == At(donorArity, u)
  }

  method InstallNodes(g: HinGraph, b: HinGraph, rename: map<Name, Name>)
    requires g != b
    modifies g
    ensures g.nodes == old(g.nodes) + rename.Values && g.records == old(g.records)
    ensures forall v :: v !in rename.Values ==> At(g.expectedArity, v) == At(old(g.expectedArity), v)
    ensures forall n :: n in rename.Values ==> ArityFrom(b.expectedArity, rename, n, g.expectedArity)
  {
    var left := rename.Keys;
    while left != {}
      invariant left <= rename.Keys && g.records == old(g.records)
      invariant g.nodes == old(g.nodes) + (set u | u in rename.Keys - left :: rename[u])
      invariant forall v :: v !in rename.Values ==> At(g.expectedArity, v) == At(old(g.expectedArity), v)
      invariant forall u :: u in rename && u !in left ==> ArityFrom(b.expectedArity, rename, rename[u], g.expectedArity)
      decreases left
    {
      var u :| u in left;
      label before:
      g.AddNode(rename[u], At(b.expectedArity, u));
      forall w | w in rename && w !in left - {u} ensures ArityFrom(b.expectedArity, rename, rename[w], g.expectedArity) {
        if rename[w] == rename[u] {
          assert rename[u] == rename[w] && At(g.expectedArity, rename[w]) == At(b.expectedArity, u);
        } else {
          assert ArityFrom(b.expectedArity, rename, rename[w], old@before(g.expectedArity));
          var x :| x in rename && rename[x] == rename[w] && At(old@before(g.expectedArity), rename[w]) == At(b.expectedArity, x);
          assert At(g.expectedArity, rename[w]) == At(b.expectedArity, x);
        }
      }
      left := left - {u};
    }
  }

  lemma HeadEnds(rs: seq<Record>)
    requires rs != []
    ensures Ends(rs) == Ends(rs[1..]) + multiset{rs[0].src, rs[0].dst}
  {
    hide Ends, Sources, Targets;
    WithoutBoth(rs, 0);
    assert Without(rs, 0) == rs[1..];
  }

  method InstallEdge(g: HinGraph, r: Record, rename: map<Name, Name>, ghost rest: seq<Record>, ghost owed: multiset<Name>, ghost gap: map<Name, int>)
    requires rest != [] && rest[0] == Transplant(rename, r) && Compatible(r.srcType, r.dstType)
    requires Balanced(g, map[], Ends(rest) + owed, gap)
    modifies g
    ensures Balanced(g, map[], Ends(rest[1..]) + owed, gap)
    ensures g.nodes == old(g.nodes) && g.records == old(g.records) + [rest[0]]
  {
    hide Ends, Ledger, Compatible;
    HeadEnds(rest);
    ghost var more, due := Ends(rest[1..]) + owed, multiset{rest[0].src, rest[0].dst};
    assert more + due == Ends(rest) + owed;
    OwedInside(g.nodes, g.expectedArity, g.records, map[], more, gap, rest[0].src, rest[0].dst);
    EdgeSettles(g.nodes, g.expectedArity, g.records, map[], more, gap, rest[0], due);
    g.AddEdge(Renamed(rename, r.src), Renamed(rename, r.dst), r.srcType, r.dstType);
  }

  lemma TransplantsAre(rename: map<Name, Name>, rs: seq<Record>)
    ensures |Transplants(rename, rs)| == |rs|
    ensures forall k :: 0 <= k < |rs| ==> Transplants(rename, rs)[k] == Transplant(rename, rs[k])
  {
  }

  lemma NoEdgesOwed(owed: multiset<Name>)
    ensures Ends([]) + owed == owed
  {
  }

  /** The donor's inner edges, between the renamed nodes. */
  method InstallEdges(g: HinGraph, inner: seq<Record>, rename: map<Name, Name>, ghost owed: multiset<Name>, ghost gap: map<Name, int>)
    requires Balanced(g, map[], Ends(Transplants(rename, inner)) + owed, gap)
    requires forall r :: r in inner ==> Compatible(r.srcType, r.dstType)
    modifies g
    ensures Balanced(g, map[], owed, gap)
    ensures g.nodes == old(g.nodes) && g.records == old(g.records) + Transplants(rename, inner)
  {
    hide *;
    ghost var moved := Transplants(rename, inner);
    TransplantsAre(rename, inner);
    assert moved[0..] == moved;
    for k := 0 to |inner|
      invariant Balanced(g, map[], Ends(moved[k..]) + owed, gap)
      invariant g.nodes == old(g.nodes) && g.records == old(g.records) + moved[..k]
    {
      assert moved[k..][1..] == moved[k + 1..];
      assert moved[..k + 1] == moved[..k] + [moved[k]];
      InstallEdge(g, inner[k], rename, moved[k..], owed, gap);
    }
    assert moved[..|inner|] == moved && moved[|inner|..] == [];
    NoEdgesOwed(owed);
  }

  // ----- opening the ledger -----

  /** By how much the half-edges arriving under a donor name exceed the arity it was given. */
  function Gap(arity: map<Name, int>, rs: seq<Record>, donor: set<Name>, rename: map<Name, Name>): map<Name, int> {
    map n | n in rename.Values :: DonorEnds(rs, donor, rename)[n] - At(arity, n)
  }

  function BorderOwed(aRecords: seq<Record>, target: set<Name>, bRecords: seq<Record>, donor: set<Name>, rename: map<Name, Name>): multiset<Name> {
    ContextEnds(Input, Select(aRecords, target, false, true)) + OwnEnds(Input, Select(bRecords, donor, false, true), rename)
    + (ContextEnds(Output, Select(aRecords, target, true, false)) + OwnEnds(Output, Select(bRecords, donor, true, false), rename))
  }

  ghost predicate Closed(nodes: set<Name>, rs: seq<Record>) {
    forall r :: r in rs ==> r.src in nodes && r.dst in nodes
  }

  lemma OwedAt(aRecords: seq<Record>, target: set<Name>, bRecords: seq<Record>, donor: set<Name>, rename: map<Name, Name>, v: Name)
    ensures Ends(Transplants(rename, Select(bRecords, donor, true, true)))[v] + BorderOwed(aRecords, target, bRecords, donor, rename)[v]
         == DonorEnds(bRecords, donor, rename)[v]
            + Sources(Select(aRecords, target, false, true))[v] + Targets(Select(aRecords, target, true, false))[v]
  {
    hide Sources, Targets, Transplants, Select, DonorSources, DonorTargets;
    DonorSplit(bRecords, donor, rename, v);
  }

  lemma ContextOwed(aNodes: set<Name>, aRecords: seq<Record>, target: set<Name>, v: Name)
    requires Closed(aNodes, aRecords)
    ensures var kept := Select(aRecords, target, false, false);
            var entering, leaving := Sources(Select(aRecords, target, false, true))[v], Targets(Select(aRecords, target, true, false))[v];
            if v in aNodes - target then Sources(aRecords)[v] == Sources(kept)[v] + entering && Targets(aRecords)[v] == Targets(kept)[v] + leaving
            else Sources(kept)[v] == Targets(kept)[v] == entering == leaving == 0
  {
    hide Sources, Targets;
    if v in aNodes - target {
      ContextSplit(aRecords, target, v);
    } else {
      EndsAre(Select(aRecords, target, false, false), v);
      EndsAre(Select(aRecords, target, false, true), v);
      EndsAre(Select(aRecords, target, true, false), v);
    }
  }

  lemma DonorOwed(rs: seq<Record>, donor: set<Name>, rename: map<Name, Name>, v: Name)
    requires rename.Keys == donor && v !in rename.Values
    ensures DonorSources(rs, donor, rename)[v] == DonorTargets(rs, donor, rename)[v] == 0
  {
    hide DonorSources, DonorTargets;
    if v in DonorEnds(rs, donor, rename) { DonorEndsAre(rs, donor, rename, v); }
  }

  lemma OpensAt(aNodes: set<Name>, aArity: map<Name, int>, aRecords: seq<Record>, target: set<Name>,
                bRecords: seq<Record>, donor: set<Name>, rename: map<Name, Name>, arity: map<Name, int>, v: Name)
    requires Closed(aNodes, aRecords) && Conserved(aNodes, aArity, aRecords)
    requires rename.Keys == donor && rename.Values !! aNodes
    requires v in aNodes - target ==> At(arity, v) == At(aArity, v)
    ensures var due := Ends(Transplants(rename, Select(bRecords, donor, true, true)))[v] + BorderOwed(aRecords, target, bRecords, donor, rename)[v];
            if v in aNodes - target + rename.Values
            then At(arity, v) + At(Gap(arity, bRecords, donor, rename), v) == Ends(Select(aRecords, target, false, false))[v] + due
            else due == 0
  {
    hide Compatible, BorderOwed, Transplants, Select, DonorSources, DonorTargets, Sources, Targets;
    OwedAt(aRecords, target, bRecords, donor, rename, v);
    ContextOwed(aNodes, aRecords, target, v);
    if v !in rename.Values { DonorOwed(bRecords, donor, rename, v); }
  }

  /** With the target cut out and the donor nodes in place, the ledger balances up to the gap. */
  lemma LedgerOpens(aNodes: set<Name>, aArity: map<Name, int>, aRecords: seq<Record>, target: set<Name>,
                    bRecords: seq<Record>, donor: set<Name>, rename: map<Name, Name>, arity: map<Name, int>)
    requires Closed(aNodes, aRecords) && Conserved(aNodes, aArity, aRecords)
    requires rename.Keys == donor && rename.Values !! aNodes
    requires forall v :: v in aNodes - target ==> At(arity, v) == At(aArity, v)
    ensures Ledger(aNodes - target + rename.Values, arity, Select(aRecords, target, false, false), map[],
                   Ends(Transplants(rename, Select(bRecords, donor, true, true))) + BorderOwed(aRecords, target, bRecords, donor, rename),
                   Gap(arity, bRecords, donor, rename))
  {
    hide Compatible, BorderOwed, Transplants, Select, DonorEnds, Ends, Gap;
    var kept := Select(aRecords, target, false, false);
    var due, border := Ends(Transplants(rename, Select(bRecords, donor, true, true))), BorderOwed(aRecords, target, bRecords, donor, rename);
    var nodes, gap := aNodes - target + rename.Values, Gap(arity, bRecords, donor, rename);
    forall v ensures v in due + border ==> v in nodes {
      OpensAt(aNodes, aArity, aRecords, target, bRecords, donor, rename, arity, v);
    }
    forall v | v in nodes ensures At(arity, v) + At(gap, v) == Ends(kept)[v] + (due + border)[v] {
      OpensAt(aNodes, aArity, aRecords, target, bRecords, donor, rename, arity, v);
    }
  }

  /** The gap vanishes when the renaming keeps the donor nodes apart. */
  lemma ApartNoGap(bNodes: set<Name>, bArity: map<Name, int>, bRecords: seq<Record>, donor: set<Name>, rename: map<Name, Name>, arity: map<Name, int>, n: Name)
    requires Conserved(bNodes, bArity, bRecords) && donor <= bNodes && rename.Keys == donor && Injective(rename)
    requires n in rename.Values && ArityFrom(bArity, rename, n, arity)
    ensures At(Gap(arity, bRecords, donor, rename), n) == 0
  {
    var u :| u in rename && rename[u] == n && At(arity, n) == At(bArity, u);
    ApartDegree(bRecords, donor, rename, u);
  }

  /** Two merged nodes that both carry edges always leave a gap. */
  lemma MergedGap(bNodes: set<Name>, bArity: map<Name, int>, bRecords: seq<Record>, donor: set<Name>, rename: map<Name, Name>, arity: map<Name, int>)
    requires Conserved(bNodes, bArity, bRecords) && donor <= bNodes && rename.Keys == donor && !Injective(rename)
    requires forall u :: u in donor ==> u in Ends(bRecords)
    requires forall n :: n in rename.Values ==> ArityFrom(bArity, rename, n, arity)
    ensures exists n :: n in rename.Values && At(Gap(arity, bRecords, donor, rename), n) > 0
  {
    var u, w :| u in rename && w in rename && rename[u] == rename[w] && u != w;
    var n := rename[u];
    assert ArityFrom(bArity, rename, n, arity);
    var x :| x in rename && rename[x] == n && At(arity, n) == At(bArity, x);
    MergedDegree(bRecords, donor, rename, x, if x == u then w else u);
  }

  // ----- the flow through every node -----

  /** How the boundary was rewired: the donor node that took what was left over, the edges added for inputs and for outputs,
      how many of each were left over, and how many adaptors that took. */
  datatype Joint = Joint(entry: Name, ins: seq<Record>, outs: seq<Record>, fedIn: nat, fedOut: nat, adaptors: int)

  /** The nodes that are not adaptors. */
  function Base(nodes: set<Name>, target: set<Name>, rename: map<Name, Name>): set<Name> {
    nodes - target + rename.Values
  }

  /** The edges added lead the way of the boundary records that they replace, carry those records' types, and use adaptors
      only for what fits nothing that is left on the other side. */
  ghost predicate Rewired(aRecords: seq<Record>, target: set<Name>, bRecords: seq<Record>, donor: set<Name>, rename: map<Name, Name>, base: set<Name>, joint: Joint) {
    var targetIn, targetOut := Select(aRecords, target, false, true), Select(aRecords, target, true, false);
    var donorIn, donorOut := Select(bRecords, donor, false, true), Select(bRecords, donor, true, false);
    && joint.entry in rename.Values
    && AllRight(Input, joint.ins, targetIn, donorIn, rename, joint.entry, base)
    && AllRight(Output, joint.outs, targetOut, donorOut, rename, joint.entry, base)
    && Bridged(targetIn, donorIn, joint.fedIn, targetOut, donorOut, joint.fedOut, joint.adaptors)
  }

  ghost predicate BorderSettled(aRecords: seq<Record>, target: set<Name>, bRecords: seq<Record>, donor: set<Name>, rename: map<Name, Name>, base: set<Name>, joint: Joint) {
    && Settles(Input, base, joint.ins, ContextEnds(Input, Select(aRecords, target, false, true)), multiset{},
               OwnEnds(Input, Select(bRecords, donor, false, true), rename) + Copies(joint.entry, joint.fedIn), multiset{})
    && Settles(Output, base, joint.outs, ContextEnds(Output, Select(aRecords, target, true, false)), multiset{},
               OwnEnds(Output, Select(bRecords, donor, true, false), rename) + Copies(joint.entry, joint.fedOut), multiset{})
  }

  /** A node of the context sends and receives as many edges as before. */
  ghost predicate ContextFlows(aNodes: set<Name>, aRecords: seq<Record>, target: set<Name>, records: seq<Record>) {
    forall v :: v in aNodes - target ==> Sources(records)[v] == Sources(aRecords)[v] && Targets(records)[v] == Targets(aRecords)[v]
  }

  /** So does a donor name, apart from what it was fed. */
  ghost predicate DonorFlows(bRecords: seq<Record>, donor: set<Name>, rename: map<Name, Name>, joint: Joint, records: seq<Record>) {
    forall n :: n in rename.Values ==>
      && Sources(records)[n] == DonorSources(bRecords, donor, rename)[n] + (if n == joint.entry then joint.fedOut else 0)
      && Targets(records)[n] == DonorTargets(bRecords, donor, rename)[n] + (if n == joint.entry then joint.fedIn else 0)
  }

  /** And, if no two were merged, every donor node under its new name. */
  ghost predicate ApartFlows(bRecords: seq<Record>, rename: map<Name, Name>, joint: Joint, records: seq<Record>) {
    forall u :: u in rename ==>
      && Sources(records)[rename[u]] == Sources(bRecords)[u] + (if rename[u] == joint.entry then joint.fedOut else 0)
      && Targets(records)[rename[u]] == Targets(bRecords)[u] + (if rename[u] == joint.entry then joint.fedIn else 0)
  }

  lemma ChildEnds(kept: seq<Record>, moved: seq<Record>, ins: seq<Record>, outs: seq<Record>)
    ensures Sources(kept + moved + (ins + outs)) == Sources(kept) + Sources(moved) + Sources(ins) + Sources(outs)
    ensures Targets(kept + moved + (ins + outs)) == Targets(kept) + Targets(moved) + Targets(ins) + Targets(outs)
  {
    hide *;
    EndsConcat(kept + moved, ins + outs);
    EndsConcat(kept, moved);
    EndsConcat(ins, outs);
  }

  /** What the edges added for the boundary bring to a node. */
  lemma BorderAt(aRecords: seq<Record>, target: set<Name>, bRecords: seq<Record>, donor: set<Name>, rename: map<Name, Name>, base: set<Name>, joint: Joint, v: Name)
    requires BorderSettled(aRecords, target, bRecords, donor, rename, base, joint) && v in base
    ensures Sources(joint.ins)[v] == Sources(Select(aRecords, target, false, true))[v]
    ensures Targets(joint.outs)[v] == Targets(Select(aRecords, target, true, false))[v]
    ensures Targets(joint.ins)[v] == Targets(Transplants(rename, Select(bRecords, donor, false, true)))[v] + (if v == joint.entry then joint.fedIn else 0)
    ensures Sources(joint.outs)[v] == Sources(Transplants(rename, Select(bRecords, donor, true, false)))[v] + (if v == joint.entry then joint.fedOut else 0)
  {
    hide Sources, Targets, Select, Transplants;
  }

  lemma FlowsAt(aNodes: set<Name>, aRecords: seq<Record>, target: set<Name>, bRecords: seq<Record>, donor: set<Name>, rename: map<Name, Name>, joint: Joint, v: Name)
    requires Closed(aNodes, aRecords) && rename.Keys == donor && rename.Values !! aNodes && joint.entry in rename.Values
    requires v in Base(aNodes, target, rename)
    requires BorderSettled(aRecords, target, bRecords, donor, rename, Base(aNodes, target, rename), joint)
    ensures var records := Select(aRecords, target, false, false) + Transplants(rename, Select(bRecords, donor, true, true)) + (joint.ins + joint.outs);
      if v in aNodes then Sources(records)[v] == Sources(aRecords)[v] && Targets(records)[v] == Targets(aRecords)[v]
      else && Sources(records)[v] == DonorSources(bRecords, donor, rename)[v] + (if v == joint.entry then joint.fedOut else 0)
           && Targets(records)[v] == DonorTargets(bRecords, donor, rename)[v] + (if v == joint.entry then joint.fedIn else 0)
  {
    hide Sources, Targets, Select, Transplants, DonorSources, DonorTargets, BorderSettled;
    var kept, moved := Select(aRecords, target, false, false), Transplants(rename, Select(bRecords, donor, true, true));
    ChildEnds(kept, moved, joint.ins, joint.outs);
    BorderAt(aRecords, target, bRecords, donor, rename, Base(aNodes, target, rename), joint, v);
    ContextOwed(aNodes, aRecords, target, v);
    DonorSplit(bRecords, donor, rename, v);
    if v !in rename.Values { DonorOwed(bRecords, donor, rename, v); }
    assert Sources(kept + moved + (joint.ins + joint.outs))[v] == Sources(kept)[v] + Sources(moved)[v] + Sources(joint.ins)[v] + Sources(joint.outs)[v];
    assert Targets(kept + moved + (joint.ins + joint.outs))[v] == Targets(kept)[v] + Targets(moved)[v] + Targets(joint.ins)[v] + Targets(joint.outs)[v];
  }

  lemma FlowsKept(aNodes: set<Name>, aRecords: seq<Record>, target: set<Name>, bRecords: seq<Record>, donor: set<Name>, rename: map<Name, Name>, joint: Joint, records: seq<Record>)
    requires Closed(aNodes, aRecords) && rename.Keys == donor && rename.Values !! aNodes && joint.entry in rename.Values
    requires BorderSettled(aRecords, target, bRecords, donor, rename, Base(aNodes, target, rename), joint)
    requires records == Select(aRecords, target, false, false) + Transplants(rename, Select(bRecords, donor, true, true)) + (joint.ins + joint.outs)
    ensures ContextFlows(aNodes, aRecords, target, records) && DonorFlows(bRecords, donor, rename, joint, records)
    ensures Injective(rename) ==> ApartFlows(bRecords, rename, joint, records)
  {
    hide Sources, Targets, Select, Transplants, DonorSources, DonorTargets, BorderSettled, Injective;
    forall v | v in Base(aNodes, target, rename)
      ensures if v in aNodes then Sources(records)[v] == Sources(aRecords)[v] && Targets(records)[v] == Targets(aRecords)[v]
              else && Sources(records)[v] == DonorSources(bRecords, donor, rename)[v] + (if v == joint.entry then joint.fedOut else 0)
                   && Targets(records)[v] == DonorTargets(bRecords, donor, rename)[v] + (if v == joint.entry then joint.fedIn else 0)
    {
      FlowsAt(aNodes, aRecords, target, bRecords, donor, rename, joint, v);
    }
    if Injective(rename) {
      forall u | u in donor ensures DonorSources(bRecords, donor, rename)[rename[u]] == Sources(bRecords)[u] && DonorTargets(bRecords, donor, rename)[rename[u]] == Targets(bRecords)[u] {
        ApartDegree(bRecords, donor, rename, u);
      }
    }
  }

  // ----- the transaction -----

  /** Adaptors take whatever degree they ended up with as their arity. */
  method FinalizeAdaptors(g: HinGraph)
    requires g.Valid()
    modifies g
    ensures g.nodes == old(g.nodes) && g.records == old(g.records) && g.Valid()
    ensures forall v :: v in g.nodes ==> At(g.expectedArity, v) == if Adapted(v) then Ends(g.records)[v] else At(old(g.expectedArity), v)
  {
    var left := g.nodes;
    while left != {}
      invariant left <= g.nodes && g.nodes == old(g.nodes) && g.records == old(g.records) && g.Valid()
      invariant forall v :: v in g.nodes ==>
                  At(g.expectedArity, v) == if Adapted(v) && v !in left then Ends(g.records)[v] else At(old(g.expectedArity), v)
      decreases left
    {
      var v :| v in left;
      if Adapted(v) {
        g.expectedArity := g.expectedArity[v := At(g.inDegrees, v) + At(g.outDegrees, v)];
      }
      left := left - {v};
    }
  }

  method AnyOrder(names: set<Name>) returns (list: seq<Name>)
    ensures forall v :: v in list <==> v in names
  {
    list := [];
    var left := names;
    while left != {}
      invariant left <= names && forall v :: v in list <==> v in names - left
      decreases left
    {
      var v :| v in left;
      list, left := list + [v], left - {v};
    }
  }

  lemma NamesApart(nodes: set<Name>, donor: set<Name>, rename: map<Name, Name>)
    requires rename.Keys == donor && forall u :: u in donor ==> rename[u] == DonorName(nodes, u)
    ensures rename.Values !! nodes && forall n :: n in rename.Values ==> !Adapted(n)
  {
    forall n | n in rename.Values ensures n !in nodes && !Adapted(n) {
      var u :| u in donor && rename[u] == n;
      assert n[0] == 'd';
    }
  }

  lemma InnerCompatible(nodes: set<Name>, arity: map<Name, int>, rs: seq<Record>, s: set<Name>)
    requires Conserved(nodes, arity, rs)
    ensures forall r :: r in Select(rs, s, true, true) ==> Compatible(r.srcType, r.dstType)
  {
  }

  /** What every finished crossover has: the kept part of one parent, the renamed part of the other, the edges of the joint and
      adaptors, and as many edges into and out of every node as it had in its parent. */
  ghost predicate Spliced(a: HinGraph, b: HinGraph, target: set<Name>, donor: set<Name>, rename: map<Name, Name>, joint: Joint, child: HinGraph) reads a, b, child {
    var base := Base(a.nodes, target, rename);
    && base <= child.nodes && (forall v :: v in child.nodes && v !in base ==> Adapted(v))
    && child.records == Select(a.records, target, false, false) + Transplants(rename, Select(b.records, donor, true, true)) + (joint.ins + joint.outs)
    && Rewired(a.records, target, b.records, donor, rename, base, joint) && |child.nodes| == |base| + joint.adaptors
    && ContextFlows(a.nodes, a.records, target, child.records) && DonorFlows(b.records, donor, rename, joint, child.records)
    && (Injective(rename) ==> ApartFlows(b.records, rename, joint, child.records))
  }

  /** Replaces the target nodes by the donor nodes up to the boundary, which is still owed. */
  method Replace(child: HinGraph, a: HinGraph, b: HinGraph, target: set<Name>, donor: set<Name>, rename: map<Name, Name>)
    returns (ghost gap: map<Name, int>)
    requires child != a && child != b && child.nodes == a.nodes && child.expectedArity == a.expectedArity && child.records == a.records
    requires a.Valid() && a.Holds() && b.Valid() && b.Holds() && donor <= b.nodes
    requires rename.Keys == donor && rename.Values !! a.nodes
    modifies child
    ensures Balanced(child, map[], BorderOwed(a.records, target, b.records, donor, rename), gap)
    ensures child.nodes == a.nodes - target + rename.Values
    ensures child.records == Select(a.records, target, false, false) + Transplants(rename, Select(b.records, donor, true, true))
    ensures gap.Keys == rename.Values
    ensures Injective(rename) ==> forall n :: n in gap ==> gap[n] == 0
    ensures (forall u :: u in donor ==> u in Ends(b.records)) && !Injective(rename) ==> exists n :: n in gap && gap[n] > 0
  {
    hide Select, Transplants, BorderOwed, Ends, Compatible, DonorEnds, ArityFrom;
    child.RemoveSubgraph(target);
    InstallNodes(child, b, rename);
    ghost var arity := child.expectedArity;
    gap := Gap(arity, b.records, donor, rename);
    LedgerOpens(a.nodes, a.expectedArity, a.records, target, b.records, donor, rename, arity);
    GapDecides(b.nodes, b.expectedArity, b.records, donor, rename, arity);
    InnerCompatible(b.nodes, b.expectedArity, b.records, donor);
    InstallEdges(child, Select(b.records, donor, true, true), rename, BorderOwed(a.records, target, b.records, donor, rename), gap);
  }

  lemma GapDecides(bNodes: set<Name>, bArity: map<Name, int>, bRecords: seq<Record>, donor: set<Name>, rename: map<Name, Name>, arity: map<Name, int>)
    requires Conserved(bNodes, bArity, bRecords) && donor <= bNodes && rename.Keys == donor
    requires forall n :: n in rename.Values ==> ArityFrom(bArity, rename, n, arity)
    ensures Injective(rename) ==> forall n :: n in rename.Values ==> Gap(arity, bRecords, donor, rename)[n] == 0
    ensures (forall u :: u in donor ==> u in Ends(bRecords)) && !Injective(rename)
            ==> exists n :: n in rename.Values && Gap(arity, bRecords, donor, rename)[n] > 0
  {
    if Injective(rename) {
      forall n | n in rename.Values ensures Gap(arity, bRecords, donor, rename)[n] == 0 {
        ApartNoGap(bNodes, bArity, bRecords, donor, rename, arity, n);
      }
    } else if forall u :: u in donor ==> u in Ends(bRecords) {
      MergedGap(bNodes, bArity, bRecords, donor, rename, arity);
    }
  }

  lemma SettledMeansConserved(nodes: set<Name>, arity0: map<Name, int>, arity: map<Name, int>, records: seq<Record>, gap: map<Name, int>)
    requires Ledger(nodes, arity0, records, map[], multiset{}, gap) && gap.Keys <= nodes && forall n :: n in gap ==> !Adapted(n)
    requires forall v :: v in nodes ==> At(arity, v) == if Adapted(v) then Ends(records)[v] else At(arity0, v)
    ensures Conserved(nodes, arity, records) <==> forall n :: n in gap ==> gap[n] == 0
  {
    hide Ends;
    if n :| n in gap && gap[n] != 0 {
      assert At(arity, n) != Ends(records)[n];
    }
  }

  /** Rewires the boundary and closes the books: the child is conserved exactly when no gap is left. */
  method Settle(child: HinGraph, a: HinGraph, b: HinGraph, target: set<Name>, donor: set<Name>, rename: map<Name, Name>, ghost gap: map<Name, int>)
    returns (ghost joint: Joint)
    requires child != a && child != b && donor != {} && rename.Keys == donor && gap.Keys == rename.Values <= child.nodes
    requires forall n :: n in rename.Values ==> !Adapted(n)
    requires Balanced(child, map[], BorderOwed(a.records, target, b.records, donor, rename), gap)
    modifies child
    ensures child.Valid() && Grows(child) && Adds(child, joint.ins + joint.outs)
    ensures Rewired(a.records, target, b.records, donor, rename, old(child.nodes), joint) && |child.nodes| == |old(child.nodes)| + joint.adaptors
    ensures BorderSettled(a.records, target, b.records, donor, rename, old(child.nodes), joint)
    ensures child.Holds() <==> forall n :: n in gap ==> gap[n] == 0
  {
    hide Select, BorderOwed, Balanced, Ends, Conserved, Views, Ledger, Settles, AllRight, Bridged, ContextEnds, OwnEnds;
    var targetIn, targetOut := ExtractInterface(a, target);
    var donorIn, donorOut := ExtractInterface(b, donor);
    var donorNodes := AnyOrder(rename.Values);
    SomeDonor(donor, rename);
    assert donorNodes != [] && donorNodes[0] in donorNodes;
    BorderOwedIs(a.records, target, b.records, donor, rename);
    ghost var base := child.nodes;
    ghost var ins, outs, fedIn, fedOut := NormalizeInterface(child, targetIn, targetOut, donorIn, donorOut, rename, donorNodes, gap);
    joint := Joint(donorNodes[0], ins, outs, fedIn, fedOut, |child.nodes| - |base|);
    RebuildAll(child, gap);
    ghost var arity := child.expectedArity;
    BalancedIs(child, gap);
    FinalizeAdaptors(child);
    SettledMeansConserved(child.nodes, arity, child.expectedArity, child.records, gap);
  }

  lemma BalancedIs(g: HinGraph, gap: map<Name, int>)
    ensures Balanced(g, map[], multiset{}, gap) <==> Ledger(g.nodes, g.expectedArity, g.records, map[], multiset{}, gap)
  {
  }

  /** Two of the donor's nodes will be given one name: an id is another one under
      prefixes each stage of which the recipient uses. */
  ghost predicate NamesClash(nodes: set<Name>, donor: set<Name>) {
    exists s, t :: s in donor && t in donor && s != t && Shadows(nodes, s, t)
  }

  lemma ApartMeansNoClash(nodes: set<Name>, donor: set<Name>, rename: map<Name, Name>)
    requires rename.Keys == donor && forall u :: u in donor ==> rename[u] == DonorName(nodes, u)
    ensures Injective(rename) <==> !NamesClash(nodes, donor)
  {
    hide Shadows, DonorName;
    if s, t :| s in donor && t in donor && s != t && Shadows(nodes, s, t) {
      DonorNamesCollide(nodes, s, t);
      assert rename[s] == rename[t];
    } else {
      forall u, w | u in rename && w in rename && rename[u] == rename[w] ensures u == w {
        if u != w { DonorNamesCollide(nodes, u, w); }
      }
    }
  }

  /** The exchange that crossover makes: for any target part, any nonempty donor part and any
      boundary between them, the child is conserved whenever no two donor nodes' names clash,
      and, when every donor node carries an edge, only then. The parents are not modified. */
  method Exchange(a: HinGraph, b: HinGraph, target: set<Name>, donor: set<Name>) returns (child: HinGraph, rename: map<Name, Name>, ghost joint: Joint)
    requires a.Valid() && a.Holds() && b.Valid() && b.Holds()
    requires target <= a.nodes && donor <= b.nodes && donor != {}
    ensures fresh(child) && child.Valid() && Spliced(a, b, target, donor, rename, joint, child)
    ensures rename.Keys == donor && forall u :: u in donor ==> rename[u] == DonorName(a.nodes, u)
    ensures !NamesClash(a.nodes, donor) ==> child.Holds()
    ensures (forall u :: u in donor ==> u in Ends(b.records)) && child.Holds() ==> !NamesClash(a.nodes, donor)
  {
    child := new HinGraph.Copy(a);
    rename := BuildRename(child.nodes, donor);
    NamesApart(a.nodes, donor, rename);
    hide Select, Transplants, BorderOwed, Ends, Ledger, Injective, NamesClash, Conserved, Balanced, Rewired, BorderSettled, Spliced, Adapted, DonorName;
    ghost var gap := Replace(child, a, b, target, donor, rename);
    ghost var base, before := child.nodes, child.records;
    joint := Settle(child, a, b, target, donor, rename, gap);
    Splices(a, b, target, donor, rename, base, before, joint, child);
    ApartMeansNoClash(a.nodes, donor, rename);
  }

  lemma Splices(a: HinGraph, b: HinGraph, target: set<Name>, donor: set<Name>, rename: map<Name, Name>,
                base: set<Name>, before: seq<Record>, joint: Joint, child: HinGraph)
    requires a.Valid() && rename.Keys == donor && rename.Values !! a.nodes
    requires base == a.nodes - target + rename.Values
    requires before == Select(a.records, target, false, false) + Transplants(rename, Select(b.records, donor, true, true))
    requires base <= child.nodes && (forall v :: v in child.nodes && v !in base ==> Adapted(v)) && child.records == before + (joint.ins + joint.outs)
    requires Rewired(a.records, target, b.records, donor, rename, base, joint) && |child.nodes| == |base| + joint.adaptors
    requires BorderSettled(a.records, target, b.records, donor, rename, base, joint)
    ensures Spliced(a, b, target, donor, rename, joint, child)
  {
    hide Select, Transplants, Adapted, Sources, Targets, AllRight, Bridged, BorderSettled, ContextFlows, DonorFlows, ApartFlows, Injective;
    FlowsKept(a.nodes, a.records, target, b.records, donor, rename, joint, child.records);
  }

  lemma SomeDonor(donor: set<Name>, rename: map<Name, Name>)
    requires rename.Keys == donor && donor != {}
    ensures exists n :: n in rename.Values
  {
    var u :| u in donor;
    assert rename[u] in rename.Values;
  }

  lemma BorderOwedIs(aRecords: seq<Record>, target: set<Name>, bRecords: seq<Record>, donor: set<Name>, rename: map<Name, Name>)
    ensures BorderOwed(aRecords, target, bRecords, donor, rename)
         == ContextEnds(Input, Select(aRecords, target, false, true)) + OwnEnds(Input, Select(bRecords, donor, false, true), rename)
            + (ContextEnds(Output, Select(aRecords, target, true, false)) + OwnEnds(Output, Select(bRecords, donor, true, false), rename))
  {
  }

  /** Nothing dangles after the splice, so the rebuild keeps every record. */
  method RebuildAll(g: HinGraph, ghost gap: map<Name, int>)
    requires Balanced(g, map[], multiset{}, gap)
    modifies g
    ensures g.nodes == old(g.nodes) && g.expectedArity == old(g.expectedArity) && g.records == old(g.records)
    ensures g.Valid() && Balanced(g, map[], multiset{}, gap)
  {
    SelectAll(g.records, g.nodes);
    g.RebuildDegrees();
  }
}
