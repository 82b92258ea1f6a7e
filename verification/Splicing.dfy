/** The half-edge ledger behind subgraph crossover (evolve.py, BoundaryAwareMutator): while the
    boundary is being rewired, every node's expected arity equals the edges it already has plus
    the boundary edges it is still owed. */
module Splicing {
  import opened Names
  import opened EdgeConservation

  /** Which way a boundary record crosses: an input ends inside the subgraph, an output starts there. */
  datatype Side = Input | Output

  function ContextEnd(side: Side, r: Record): Name {
    if side.Input? then r.src else r.dst
  }

  function ContextType(side: Side, r: Record): PortType {
    if side.Input? then r.srcType else r.dstType
  }

  function OwnEnd(side: Side, r: Record): Name {
    if side.Input? then r.dst else r.src
  }

  function OwnType(side: Side, r: Record): PortType {
    if side.Input? then r.dstType else r.srcType
  }

  function Renamed(rename: map<Name, Name>, v: Name): Name {
    if v in rename then rename[v] else v
  }

  function Transplant(rename: map<Name, Name>, r: Record): Record {
    EdgeBetween(Renamed(rename, r.src), Renamed(rename, r.dst), r.srcType, r.dstType)
  }

  function Transplants(rename: map<Name, Name>, rs: seq<Record>): seq<Record> {
    seq(|rs|, k requires 0 <= k < |rs| => Transplant(rename, rs[k]))
  }

  function ContextEnds(side: Side, rs: seq<Record>): multiset<Name> {
    if side.Input? then Sources(rs) else Targets(rs)
  }

  function OwnEnds(side: Side, rs: seq<Record>, rename: map<Name, Name>): multiset<Name> {
    if side.Input? then Targets(Transplants(rename, rs)) else Sources(Transplants(rename, rs))
  }

  function Without(rs: seq<Record>, i: nat): seq<Record>
    requires i < |rs|
  {
    rs[..i] + rs[i + 1..]
  }

  lemma WithoutLast(rs: seq<Record>)
    requires rs != []
    ensures Without(rs, |rs| - 1) == rs[..|rs| - 1]
  {
  }

  lemma WithoutEarlier(rs: seq<Record>, i: nat)
    requires i < |rs| - 1
    ensures Without(rs, i) == Without(rs[..|rs| - 1], i) + [rs[|rs| - 1]]
  {
  }

  lemma {:induction false} WithoutEnds(rs: seq<Record>, i: nat)
    requires i < |rs|
    ensures Sources(rs) == Sources(Without(rs, i)) + multiset{rs[i].src}
    ensures Targets(rs) == Targets(Without(rs, i)) + multiset{rs[i].dst}
    decreases |rs|
  {
    hide *;
    var k := |rs| - 1;
    assert rs == rs[..k] + [rs[k]];
    EndsMore(rs[..k], rs[k]);
    if i == k {
      WithoutLast(rs);
    } else {
      WithoutEnds(rs[..k], i);
      WithoutEarlier(rs, i);
      EndsMore(Without(rs[..k], i), rs[k]);
    }
  }

  lemma WithoutBoth(rs: seq<Record>, i: nat)
    requires i < |rs|
    ensures Ends(rs) == Ends(Without(rs, i)) + multiset{rs[i].src, rs[i].dst}
  {
    hide Sources, Targets, Without;
    WithoutEnds(rs, i);
  }

  lemma WithoutContext(side: Side, rs: seq<Record>, i: nat)
    requires i < |rs|
    ensures ContextEnds(side, rs) == ContextEnds(side, Without(rs, i)) + multiset{ContextEnd(side, rs[i])}
  {
    WithoutEnds(rs, i);
  }

  lemma TransplantsWithout(rename: map<Name, Name>, rs: seq<Record>, i: nat)
    requires i < |rs|
    ensures |Transplants(rename, rs)| == |rs| && Transplants(rename, rs)[i] == Transplant(rename, rs[i])
    ensures Transplants(rename, Without(rs, i)) == Without(Transplants(rename, rs), i)
  {
    hide Transplant;
  }

  lemma WithoutOwn(side: Side, rs: seq<Record>, i: nat, rename: map<Name, Name>)
    requires i < |rs|
    ensures OwnEnds(side, rs, rename) == OwnEnds(side, Without(rs, i), rename) + multiset{Renamed(rename, OwnEnd(side, rs[i]))}
  {
    WithoutEnds(Transplants(rename, rs), i);
    TransplantsWithout(rename, rs, i);
    hide Sources, Targets, Transplants, Without;
  }

  lemma ContextMore(side: Side, rs: seq<Record>, r: Record)
    ensures ContextEnds(side, rs + [r]) == ContextEnds(side, rs) + multiset{ContextEnd(side, r)}
  {
    EndsMore(rs, r);
  }

  // ----- the ledger -----

  ghost predicate Ledger(nodes: set<Name>, arity: map<Name, int>, records: seq<Record>, extra: map<Name, int>, owed: multiset<Name>, gap: map<Name, int>) {
    && (forall r :: r in records ==> r.src in nodes && r.dst in nodes && Compatible(r.srcType, r.dstType))
    && (forall v :: v in owed ==> v in nodes)
    && (forall v :: v in nodes && !Adapted(v) ==> At(arity, v) + At(extra, v) + At(gap, v) == Ends(records)[v] + owed[v])
  }

  /** An edge settles what its ends are owed; adaptors are not in the ledger. */
  lemma EdgeSettles(nodes: set<Name>, arity: map<Name, int>, records: seq<Record>, extra: map<Name, int>, owed: multiset<Name>, gap: map<Name, int>, r: Record, due: multiset<Name>)
    requires Ledger(nodes, arity, records, extra, owed + due, gap)
    requires r.src in nodes && r.dst in nodes && Compatible(r.srcType, r.dstType)
    requires forall v :: !Adapted(v) ==> due[v] == multiset{r.src, r.dst}[v]
    ensures Ledger(nodes, arity, records + [r], extra, owed, gap)
  {
    EndsMore(records, r);
    hide Sources, Targets, Compatible;
    forall v | v in owed ensures v in nodes { assert v in owed + due; }
  }

  lemma AdaptorEnters(nodes: set<Name>, arity: map<Name, int>, records: seq<Record>, extra: map<Name, int>, owed: multiset<Name>, gap: map<Name, int>, x: Name, k: int)
    requires Ledger(nodes, arity, records, extra, owed, gap) && Adapted(x)
    ensures Ledger(nodes + {x}, arity[x := k], records, extra, owed, gap)
  {
  }

  /** Raising a node's expected arity later is as good as owing it one more edge now. */
  lemma ExtraOwed(nodes: set<Name>, arity: map<Name, int>, records: seq<Record>, extra: map<Name, int>, owed: multiset<Name>, gap: map<Name, int>, v: Name)
    requires Ledger(nodes, arity, records, extra, owed, gap) && v in nodes
    ensures Ledger(nodes, arity, records, extra[v := At(extra, v) + 1], owed + multiset{v}, gap)
  {
    forall w | w in owed + multiset{v} ensures w in nodes {}
  }

  lemma ExtraPaid(nodes: set<Name>, arity: map<Name, int>, records: seq<Record>, extra: map<Name, int>, owed: multiset<Name>, gap: map<Name, int>, v: Name)
    requires Ledger(nodes, arity, records, extra, owed, gap) && v in extra
    ensures Ledger(nodes, arity[v := At(arity, v) + extra[v]], records, extra - {v}, owed, gap)
  {
  }

  lemma OwedInside(nodes: set<Name>, arity: map<Name, int>, records: seq<Record>, extra: map<Name, int>, owed: multiset<Name>, gap: map<Name, int>, u: Name, w: Name)
    requires Ledger(nodes, arity, records, extra, owed + multiset{u, w}, gap)
    ensures u in nodes && w in nodes
  {
    assert u in owed + multiset{u, w} && w in owed + multiset{u, w};
  }

  /** The ledger of a graph object. */
  ghost predicate Balanced(g: HinGraph, extra: map<Name, int>, owed: multiset<Name>, gap: map<Name, int>) reads g {
    Ledger(g.nodes, g.expectedArity, g.records, extra, owed, gap)
  }

  // ----- which way the new edges lead -----

  /** On the way the edges owed at the nodes of base fell from (context, own) to (contextLeft, ownLeft): an input
      leaves its context and enters the donor, an output leaves the donor and enters its context. */
  ghost predicate Settles(side: Side, base: set<Name>, added: seq<Record>,
                          context: multiset<Name>, contextLeft: multiset<Name>, own: multiset<Name>, ownLeft: multiset<Name>) {
    forall v :: v in base ==>
      && Leaving(side, added)[v] + contextLeft[v] == context[v]
      && Entering(side, added)[v] + ownLeft[v] == own[v]
  }

  /** Where the new edges are seen from the context. */
  function Leaving(side: Side, added: seq<Record>): multiset<Name> {
    match side
    case Input => Sources(added)
    case Output => Targets(added)
  }

  /** Where they are seen from the donor. */
  function Entering(side: Side, added: seq<Record>): multiset<Name> {
    match side
    case Input => Targets(added)
    case Output => Sources(added)
  }

  /** A direct edge between a context node and a donor node, with the types of their own boundary records. */
  predicate Direct(side: Side, r: Record, t: Record, d: Record, rename: map<Name, Name>) {
    match side
    case Input => r.src == t.src && r.dst == Renamed(rename, d.dst) && r.srcType == t.srcType && r.dstType == d.dstType && Compatible(t.srcType, d.dstType)
    case Output => r.src == Renamed(rename, d.src) && r.dst == t.dst && r.srcType == d.srcType && r.dstType == t.dstType && Compatible(d.srcType, t.dstType)
  }

  /** An edge between a context node and an adaptor, of the context record's type. */
  predicate AtContext(side: Side, r: Record, t: Record, base: set<Name>) {
    match side
    case Input => r.src == t.src && r.dst !in base && r.srcType == r.dstType == t.srcType
    case Output => r.src !in base && r.dst == t.dst && r.srcType == r.dstType == t.dstType
  }

  /** An edge between an adaptor and a donor node, of the donor record's type. */
  predicate AtDonor(side: Side, r: Record, d: Record, rename: map<Name, Name>, base: set<Name>) {
    match side
    case Input => r.src !in base && r.dst == Renamed(rename, d.dst) && r.srcType == r.dstType == d.dstType
    case Output => r.src == Renamed(rename, d.src) && r.dst !in base && r.srcType == r.dstType == d.srcType
  }

  /** An edge between an adaptor and the donor node that takes what is left over, of the context record's type. */
  predicate AtEntry(side: Side, r: Record, t: Record, entry: Name, base: set<Name>) {
    match side
    case Input => r.src !in base && r.dst == entry && r.srcType == r.dstType == t.srcType
    case Output => r.src == entry && r.dst !in base && r.srcType == r.dstType == t.dstType
  }

  ghost predicate Right(side: Side, r: Record, ts: seq<Record>, ds: seq<Record>, rename: map<Name, Name>, entry: Name, base: set<Name>) {
    || (exists t, d :: t in ts && d in ds && Direct(side, r, t, d, rename))
    || (exists t :: t in ts && AtContext(side, r, t, base))
    || (exists d :: d in ds && AtDonor(side, r, d, rename, base))
    || (exists t :: t in ts && AtEntry(side, r, t, entry, base))
  }

  ghost predicate AllRight(side: Side, added: seq<Record>, ts: seq<Record>, ds: seq<Record>, rename: map<Name, Name>, entry: Name, base: set<Name>) {
    forall r :: r in added ==> Right(side, r, ts, ds, rename, entry, base)
  }

  /** What was added is on top of what was there. */
  twostate predicate Adds(g: HinGraph, added: seq<Record>) reads g {
    g.records == old(g.records) + added
  }

  lemma NoEnds()
    ensures Sources([]) == multiset{} && Targets([]) == multiset{}
  {
  }

  lemma {:induction false} EndsConcat(a: seq<Record>, b: seq<Record>)
    ensures Sources(a + b) == Sources(a) + Sources(b) && Targets(a + b) == Targets(a) + Targets(b)
    decreases |b|
  {
    hide *;
    if b == [] {
      NoEnds();
      assert a + b == a;
    } else {
      var k := |b| - 1;
      EndsConcat(a, b[..k]);
      assert b == b[..k] + [b[k]] && a + b == (a + b[..k]) + [b[k]];
      EndsMore(b[..k], b[k]);
      EndsMore(a + b[..k], b[k]);
    }
  }

  lemma SettlesThen(side: Side, base: set<Name>, x: seq<Record>, y: seq<Record>, c: multiset<Name>, c1: multiset<Name>, c2: multiset<Name>,
                    o: multiset<Name>, o1: multiset<Name>, o2: multiset<Name>)
    requires Settles(side, base, x, c, c1, o, o1) && Settles(side, base, y, c1, c2, o1, o2)
    ensures Settles(side, base, x + y, c, c2, o, o2)
  {
    hide Sources, Targets;
    EndsConcat(x, y);
  }

  lemma NothingSettles(side: Side, base: set<Name>, c: multiset<Name>, o: multiset<Name>)
    ensures Settles(side, base, [], c, c, o, o)
  {
  }

  lemma OneRecord(r: Record)
    ensures Sources([r]) == multiset{r.src} && Targets([r]) == multiset{r.dst}
  {
    hide *;
    NoEnds();
    EndsMore([], r);
    assert [] + [r] == [r];
  }

  lemma TwoRecords(r: Record, q: Record)
    ensures Sources([r, q]) == multiset{r.src, q.src} && Targets([r, q]) == multiset{r.dst, q.dst}
  {
    hide *;
    OneRecord(r);
    EndsMore([r], q);
    assert [r] + [q] == [r, q];
  }

  function JoinEdge(side: Side, context: Name, own: Name, contextType: PortType, ownType: PortType): Record {
    if side.Input? then EdgeBetween(context, own, contextType, ownType) else EdgeBetween(own, context, ownType, contextType)
  }

  function BridgeEdges(side: Side, context: Name, own: Name, contextType: PortType, ownType: PortType, x: Name): seq<Record> {
    if side.Input? then [EdgeBetween(context, x, contextType, contextType), EdgeBetween(x, own, ownType, ownType)]
    else [EdgeBetween(own, x, ownType, ownType), EdgeBetween(x, context, contextType, contextType)]
  }

  function CapEdge(side: Side, own: Name, ownType: PortType, x: Name): Record {
    if side.Input? then EdgeBetween(x, own, ownType, ownType) else EdgeBetween(own, x, ownType, ownType)
  }

  lemma JoinSettles(side: Side, base: set<Name>, context: Name, own: Name, contextType: PortType, ownType: PortType, c: multiset<Name>, o: multiset<Name>)
    ensures Settles(side, base, [JoinEdge(side, context, own, contextType, ownType)], c + multiset{context}, c, o + multiset{own}, o)
  {
    hide Sources, Targets;
    OneRecord(JoinEdge(side, context, own, contextType, ownType));
  }

  lemma BridgeSettles(side: Side, base: set<Name>, context: Name, own: Name, contextType: PortType, ownType: PortType, x: Name, c: multiset<Name>, o: multiset<Name>)
    requires x !in base
    ensures Settles(side, base, BridgeEdges(side, context, own, contextType, ownType, x), c + multiset{context}, c, o + multiset{own}, o)
  {
    hide Sources, Targets, BridgeEdges;
    BridgeEnds(side, context, own, contextType, ownType, x);
  }

  lemma BridgeEnds(side: Side, context: Name, own: Name, contextType: PortType, ownType: PortType, x: Name)
    ensures Leaving(side, BridgeEdges(side, context, own, contextType, ownType, x)) == multiset{context, x}
    ensures Entering(side, BridgeEdges(side, context, own, contextType, ownType, x)) == multiset{x, own}
  {
    hide Sources, Targets, Label;
    if side.Input? {
      TwoRecords(EdgeBetween(context, x, contextType, contextType), EdgeBetween(x, own, ownType, ownType));
    } else {
      TwoRecords(EdgeBetween(own, x, ownType, ownType), EdgeBetween(x, context, contextType, contextType));
    }
  }

  lemma CapSettles(side: Side, base: set<Name>, own: Name, ownType: PortType, x: Name, c: multiset<Name>, o: multiset<Name>)
    requires x !in base
    ensures Settles(side, base, [CapEdge(side, own, ownType, x)], c, c, o + multiset{own}, o)
  {
    hide Sources, Targets;
    OneRecord(CapEdge(side, own, ownType, x));
  }

  // ----- joining a context node to a donor node -----

  /** A matched pair of boundary records becomes one direct edge. */
  method Join(g: HinGraph, side: Side, context: Name, own: Name, contextType: PortType, ownType: PortType,
              ghost extra: map<Name, int>, ghost owed: multiset<Name>, ghost gap: map<Name, int>)
    requires Balanced(g, extra, owed + multiset{context, own}, gap) && Compatible(contextType, ownType)
    modifies g
    ensures Balanced(g, extra, owed, gap) && g.nodes == old(g.nodes) && old(g.records) <= g.records
    ensures g.records == old(g.records) + [JoinEdge(side, context, own, contextType, ownType)]
  {
    assert context in owed + multiset{context, own} && own in owed + multiset{context, own};
    if side.Input? {
      EdgeSettles(g.nodes, g.expectedArity, g.records, extra, owed, gap, EdgeBetween(context, own, contextType, ownType), multiset{context, own});
      g.AddEdge(context, own, contextType, ownType);
    } else {
      CompatibleSymmetric(contextType, ownType);
      EdgeSettles(g.nodes, g.expectedArity, g.records, extra, owed, gap, EdgeBetween(own, context, ownType, contextType), multiset{context, own});
      g.AddEdge(own, context, ownType, contextType);
    }
  }

  /** One edge between a ledger node and an adaptor, typed alike on both sides. */
  method HalfBridge(g: HinGraph, src: Name, dst: Name, t: PortType, ghost v: Name,
                    ghost extra: map<Name, int>, ghost owed: multiset<Name>, ghost gap: map<Name, int>)
    requires Balanced(g, extra, owed + multiset{v}, gap) && src in g.nodes && dst in g.nodes
    requires (src == v && Adapted(dst)) || (dst == v && Adapted(src))
    modifies g
    ensures Balanced(g, extra, owed, gap) && g.nodes == old(g.nodes) && old(g.records) <= g.records
    ensures g.records == old(g.records) + [EdgeBetween(src, dst, t, t)]
  {
    CompatibleReflexive(t);
    EdgeSettles(g.nodes, g.expectedArity, g.records, extra, owed, gap, EdgeBetween(src, dst, t, t), multiset{v});
    g.AddEdge(src, dst, t, t);
  }

  method AddAdaptor(g: HinGraph, prefix: string, arity: int, ghost extra: map<Name, int>, ghost owed: multiset<Name>, ghost gap: map<Name, int>)
    returns (id: Name)
    requires Balanced(g, extra, owed, gap) && ADAPT <= prefix
    modifies g
    ensures Balanced(g, extra, owed, gap) && g.records == old(g.records)
    ensures id !in old(g.nodes) && Adapted(id) && g.nodes == old(g.nodes) + {id}
  {
    id := FreshAdaptorId(g.nodes, prefix);
    AdaptorEnters(g.nodes, g.expectedArity, g.records, extra, owed, gap, id, arity);
    g.AddNode(id, arity);
  }

  /** The child keeps the nodes and edges it has; only adaptors are new. */
  twostate predicate Grows(g: HinGraph) reads g {
    && old(g.nodes) <= g.nodes && (forall v :: v in g.nodes && v !in old(g.nodes) ==> Adapted(v))
    && old(g.records) <= g.records
  }

  /** A surplus pair is bridged by an adaptor that carries each side's own type. */
  method Bridge(g: HinGraph, side: Side, context: Name, own: Name, contextType: PortType, ownType: PortType,
                ghost extra: map<Name, int>, ghost owed: multiset<Name>, ghost gap: map<Name, int>)
    returns (ghost x: Name)
    requires Balanced(g, extra, owed + multiset{context, own}, gap)
    modifies g
    ensures Balanced(g, extra, owed, gap) && Grows(g) && x !in old(g.nodes) && g.nodes == old(g.nodes) + {x}
    ensures g.records == old(g.records) + BridgeEdges(side, context, own, contextType, ownType, x)
  {
    hide Ledger;
    OwedInside(g.nodes, g.expectedArity, g.records, extra, owed, gap, context, own);
    assert owed + multiset{context, own} == owed + multiset{own} + multiset{context};
    var id := AddAdaptor(g, if side.Input? then "adapt_in" else "adapt_out", 2, extra, owed + multiset{context, own}, gap);
    x := id;
    if side.Input? {
      HalfBridge(g, context, id, contextType, context, extra, owed + multiset{own}, gap);
      HalfBridge(g, id, own, ownType, own, extra, owed, gap);
    } else {
      assert owed + multiset{context, own} == owed + multiset{context} + multiset{own};
      HalfBridge(g, own, id, ownType, own, extra, owed + multiset{context}, gap);
      HalfBridge(g, id, context, contextType, context, extra, owed, gap);
    }
  }

  /** A surplus donor edge ends in a value source or sink. */
  method Cap(g: HinGraph, side: Side, own: Name, ownType: PortType,
             ghost extra: map<Name, int>, ghost owed: multiset<Name>, ghost gap: map<Name, int>)
    returns (ghost x: Name)
    requires Balanced(g, extra, owed + multiset{own}, gap)
    modifies g
    ensures Balanced(g, extra, owed, gap) && Grows(g) && x !in old(g.nodes) && g.nodes == old(g.nodes) + {x}
    ensures g.records == old(g.records) + [CapEdge(side, own, ownType, x)]
  {
    assert own in owed + multiset{own};
    var id := AddAdaptor(g, if side.Input? then "adapt_src" else "adapt_sink", 1, extra, owed + multiset{own}, gap);
    x := id;
    if side.Input? {
      HalfBridge(g, id, own, ownType, own, extra, owed, gap);
    } else {
      HalfBridge(g, own, id, ownType, own, extra, owed, gap);
    }
  }

  // ----- normalising one side of the boundary -----

  /** The first donor record whose own type fits the target record's context type. */
  method FindMatch(t: Record, donors: seq<Record>, side: Side) returns (idx: int)
    ensures -1 <= idx < |donors|
    ensures idx >= 0 ==> Compatible(ContextType(side, t), OwnType(side, donors[idx]))
    ensures forall k :: 0 <= k < (if idx >= 0 then idx else |donors|) ==> !Compatible(ContextType(side, t), OwnType(side, donors[k]))
  {
    for k := 0 to |donors|
      invariant forall j :: 0 <= j < k ==> !Compatible(ContextType(side, t), OwnType(side, donors[j]))
    {
      CompatibleSymmetric(ContextType(side, t), OwnType(side, donors[k]));
      if side.Input? && Compatible(t.srcType, donors[k].dstType) {
        return k;
      }
      if side.Output? && Compatible(donors[k].srcType, t.dstType) {
        return k;
      }
    }
    return -1;
  }

  /** No context record fits any donor record. */
  ghost predicate NoneFit(side: Side, ts: seq<Record>, ds: seq<Record>) {
    forall t, d :: t in ts && d in ds ==> !Compatible(ContextType(side, t), OwnType(side, d))
  }

  ghost predicate Among(rs: seq<Record>, all: seq<Record>) {
    multiset(rs) <= multiset(all)
  }

  lemma WithoutAmong(rs: seq<Record>, i: nat, all: seq<Record>)
    requires i < |rs| && Among(rs, all)
    ensures Among(Without(rs, i), all) && rs[i] in all && |Without(rs, i)| == |rs| - 1
  {
    assert rs == rs[..i] + [rs[i]] + rs[i + 1..];
    assert rs[i] in multiset(rs);
  }

  /** The next record that waits is either taken or put with those that found no partner. */
  lemma NextAmong(unmatched: seq<Record>, waiting: seq<Record>, all: seq<Record>)
    requires waiting != [] && Among(unmatched + waiting, all)
    ensures Among(unmatched + Without(waiting, 0), all) && Among(unmatched + [waiting[0]] + Without(waiting, 0), all)
    ensures waiting[0] in all && |Without(waiting, 0)| == |waiting| - 1
  {
    WithoutAmong(unmatched + waiting, |unmatched|, all);
    assert Without(unmatched + waiting, |unmatched|) == unmatched + Without(waiting, 0);
    assert unmatched + [waiting[0]] + Without(waiting, 0) == unmatched + waiting;
  }

  lemma MoreRight(side: Side, added: seq<Record>, more: seq<Record>, ts: seq<Record>, ds: seq<Record>, rename: map<Name, Name>, entry: Name, base: set<Name>)
    requires AllRight(side, added, ts, ds, rename, entry, base) && AllRight(side, more, ts, ds, rename, entry, base)
    ensures AllRight(side, added + more, ts, ds, rename, entry, base)
  {
  }

  lemma RightAmong(side: Side, added: seq<Record>, ts: seq<Record>, ds: seq<Record>, allTs: seq<Record>, allDs: seq<Record>, rename: map<Name, Name>, entry: Name, base: set<Name>)
    requires AllRight(side, added, ts, ds, rename, entry, base) && Among(ts, allTs) && Among(ds, allDs)
    ensures AllRight(side, added, allTs, allDs, rename, entry, base)
  {
    hide Direct, AtContext, AtDonor, AtEntry;
    forall t | t in ts ensures t in allTs { assert t in multiset(ts); }
    forall d | d in ds ensures d in allDs { assert d in multiset(ds); }
    forall r | r in added ensures Right(side, r, allTs, allDs, rename, entry, base) { assert Right(side, r, ts, ds, rename, entry, base); }
  }

  lemma JoinRight(side: Side, t: Record, d: Record, ts: seq<Record>, ds: seq<Record>, rename: map<Name, Name>, entry: Name, base: set<Name>)
    requires t in ts && d in ds && Compatible(ContextType(side, t), OwnType(side, d))
    ensures AllRight(side, [JoinEdge(side, ContextEnd(side, t), Renamed(rename, OwnEnd(side, d)), ContextType(side, t), OwnType(side, d))], ts, ds, rename, entry, base)
  {
    CompatibleSymmetric(ContextType(side, t), OwnType(side, d));
    assert Direct(side, JoinEdge(side, ContextEnd(side, t), Renamed(rename, OwnEnd(side, d)), ContextType(side, t), OwnType(side, d)), t, d, rename);
  }

  lemma BridgeRight(side: Side, t: Record, d: Record, x: Name, ts: seq<Record>, ds: seq<Record>, rename: map<Name, Name>, entry: Name, base: set<Name>)
    requires t in ts && d in ds && x !in base
    ensures AllRight(side, BridgeEdges(side, ContextEnd(side, t), Renamed(rename, OwnEnd(side, d)), ContextType(side, t), OwnType(side, d), x), ts, ds, rename, entry, base)
  {
    var e := BridgeEdges(side, ContextEnd(side, t), Renamed(rename, OwnEnd(side, d)), ContextType(side, t), OwnType(side, d), x);
    if side.Input? {
      assert AtContext(side, e[0], t, base) && AtDonor(side, e[1], d, rename, base);
    } else {
      assert AtContext(side, e[1], t, base) && AtDonor(side, e[0], d, rename, base);
    }
    assert e == [e[0], e[1]];
  }

  lemma FeedRight(side: Side, t: Record, x: Name, ts: seq<Record>, ds: seq<Record>, rename: map<Name, Name>, entry: Name, base: set<Name>)
    requires t in ts && x !in base
    ensures AllRight(side, BridgeEdges(side, ContextEnd(side, t), entry, ContextType(side, t), ContextType(side, t), x), ts, ds, rename, entry, base)
  {
    var e := BridgeEdges(side, ContextEnd(side, t), entry, ContextType(side, t), ContextType(side, t), x);
    if side.Input? {
      assert AtContext(side, e[0], t, base) && AtEntry(side, e[1], t, entry, base);
    } else {
      assert AtContext(side, e[1], t, base) && AtEntry(side, e[0], t, entry, base);
    }
    assert e == [e[0], e[1]];
  }

  lemma CapRight(side: Side, d: Record, x: Name, ts: seq<Record>, ds: seq<Record>, rename: map<Name, Name>, entry: Name, base: set<Name>)
    requires d in ds && x !in base
    ensures AllRight(side, [CapEdge(side, Renamed(rename, OwnEnd(side, d)), OwnType(side, d), x)], ts, ds, rename, entry, base)
  {
    assert AtDonor(side, CapEdge(side, Renamed(rename, OwnEnd(side, d)), OwnType(side, d), x), d, rename, base);
  }

  /** Direct matching: what is left over on one side fits nothing that is left over on the other. */
  method MatchDirect(g: HinGraph, side: Side, targets: seq<Record>, donors0: seq<Record>, rename: map<Name, Name>, ghost entry: Name, ghost base: set<Name>,
                     ghost extra: map<Name, int>, ghost rest: multiset<Name>, ghost gap: map<Name, int>)
    returns (unmatched: seq<Record>, donors: seq<Record>, ghost added: seq<Record>)
    requires Balanced(g, extra, ContextEnds(side, targets) + OwnEnds(side, donors0, rename) + rest, gap)
    modifies g
    ensures Balanced(g, extra, ContextEnds(side, unmatched) + OwnEnds(side, donors, rename) + rest, gap) && Grows(g)
    ensures g.nodes == old(g.nodes) && Adds(g, added) && AllRight(side, added, targets, donors0, rename, entry, base)
    ensures Settles(side, base, added, ContextEnds(side, targets), ContextEnds(side, unmatched), OwnEnds(side, donors0, rename), OwnEnds(side, donors, rename))
    ensures NoneFit(side, unmatched, donors) && Among(unmatched, targets) && Among(donors, donors0)
    ensures |targets| - |unmatched| == |donors0| - |donors| == |added|
  {
    hide ContextEnds, OwnEnds, Balanced, Compatible, Settles, AllRight, JoinEdge, NoneFit, Among, Without;
    unmatched, donors, added := [], donors0, [];
    var waiting := targets;
    NoContext(side);
    assert ContextEnds(side, []) + ContextEnds(side, targets) == ContextEnds(side, targets) && [] + targets == targets;
    MatchStarts(side, base, targets, donors0, rename, entry);
    while waiting != []
      invariant Balanced(g, extra, ContextEnds(side, unmatched) + ContextEnds(side, waiting) + OwnEnds(side, donors, rename) + rest, gap)
      invariant Grows(g) && g.nodes == old(g.nodes) && Adds(g, added) && AllRight(side, added, targets, donors0, rename, entry, base)
      invariant Settles(side, base, added, ContextEnds(side, targets), ContextEnds(side, unmatched) + ContextEnds(side, waiting), OwnEnds(side, donors0, rename), OwnEnds(side, donors, rename))
      invariant NoneFit(side, unmatched, donors) && Among(unmatched + waiting, targets) && Among(donors, donors0)
      invariant |targets| - |unmatched| - |waiting| == |donors0| - |donors| == |added|
      decreases |waiting|
    {
      var t := waiting[0];
      WithoutContext(side, waiting, 0);
      NextAmong(unmatched, waiting, targets);
      var idx := FindMatch(t, donors, side);
      if idx >= 0 {
        var d := donors[idx];
        WithoutOwn(side, donors, idx, rename);
        WithoutAmong(donors, idx, donors0);
        ghost var owed := ContextEnds(side, unmatched) + ContextEnds(side, Without(waiting, 0)) + OwnEnds(side, Without(donors, idx), rename) + rest;
        assert owed + multiset{ContextEnd(side, t), Renamed(rename, OwnEnd(side, d))}
            == ContextEnds(side, unmatched) + ContextEnds(side, waiting) + OwnEnds(side, donors, rename) + rest;
        Join(g, side, ContextEnd(side, t), Renamed(rename, OwnEnd(side, d)), ContextType(side, t), OwnType(side, d), extra, owed, gap);
        JoinRight(side, t, d, targets, donors0, rename, entry, base);
        MatchJoins(side, base, added, targets, donors0, rename, unmatched, waiting, donors, idx);
        ghost var r := JoinEdge(side, ContextEnd(side, t), Renamed(rename, OwnEnd(side, d)), ContextType(side, t), OwnType(side, d));
        MoreRight(side, added, [r], targets, donors0, rename, entry, base);
        FewerFit(side, unmatched, donors, idx);
        donors, added := Without(donors, idx), added + [r];
      } else {
        ContextMore(side, unmatched, t);
        assert ContextEnds(side, unmatched + [t]) + ContextEnds(side, Without(waiting, 0)) == ContextEnds(side, unmatched) + ContextEnds(side, waiting);
        OneMoreUnfit(side, unmatched, donors, t);
        unmatched := unmatched + [t];
      }
      waiting := Without(waiting, 0);
    }
    assert ContextEnds(side, unmatched) + ContextEnds(side, []) == ContextEnds(side, unmatched) && unmatched + [] == unmatched;
  }

  lemma MatchStarts(side: Side, base: set<Name>, targets: seq<Record>, donors: seq<Record>, rename: map<Name, Name>, entry: Name)
    ensures Settles(side, base, [], ContextEnds(side, targets), ContextEnds(side, targets), OwnEnds(side, donors, rename), OwnEnds(side, donors, rename))
    ensures NoneFit(side, [], donors) && Among(targets, targets) && Among(donors, donors)
    ensures AllRight(side, [], targets, donors, rename, entry, base)
  {
  }

  lemma MatchJoins(side: Side, base: set<Name>, added: seq<Record>, targets: seq<Record>, donors0: seq<Record>, rename: map<Name, Name>,
                   unmatched: seq<Record>, waiting: seq<Record>, donors: seq<Record>, idx: nat)
    requires waiting != [] && idx < |donors|
    requires Settles(side, base, added, ContextEnds(side, targets), ContextEnds(side, unmatched) + ContextEnds(side, waiting), OwnEnds(side, donors0, rename), OwnEnds(side, donors, rename))
    ensures var (t, d) := (waiting[0], donors[idx]);
      Settles(side, base, added + [JoinEdge(side, ContextEnd(side, t), Renamed(rename, OwnEnd(side, d)), ContextType(side, t), OwnType(side, d))],
              ContextEnds(side, targets), ContextEnds(side, unmatched) + ContextEnds(side, Without(waiting, 0)),
              OwnEnds(side, donors0, rename), OwnEnds(side, Without(donors, idx), rename))
  {
    hide ContextEnds, OwnEnds, Settles, JoinEdge, Without;
    var t, d := waiting[0], donors[idx];
    WithoutContext(side, waiting, 0);
    WithoutOwn(side, donors, idx, rename);
    var c, o := ContextEnds(side, unmatched) + ContextEnds(side, Without(waiting, 0)), OwnEnds(side, Without(donors, idx), rename);
    JoinSettles(side, base, ContextEnd(side, t), Renamed(rename, OwnEnd(side, d)), ContextType(side, t), OwnType(side, d), c, o);
    assert c + multiset{ContextEnd(side, t)} == ContextEnds(side, unmatched) + ContextEnds(side, waiting);
    SettlesThen(side, base, added, [JoinEdge(side, ContextEnd(side, t), Renamed(rename, OwnEnd(side, d)), ContextType(side, t), OwnType(side, d))],
                ContextEnds(side, targets), ContextEnds(side, unmatched) + ContextEnds(side, waiting), c, OwnEnds(side, donors0, rename), OwnEnds(side, donors, rename), o);
  }

  lemma FewerFit(side: Side, ts: seq<Record>, ds: seq<Record>, i: nat)
    requires NoneFit(side, ts, ds) && i < |ds|
    ensures NoneFit(side, ts, Without(ds, i))
  {
    hide Compatible;
    WithoutAmong(ds, i, ds);
  }

  lemma OneMoreUnfit(side: Side, ts: seq<Record>, ds: seq<Record>, t: Record)
    requires NoneFit(side, ts, ds) && forall k :: 0 <= k < |ds| ==> !Compatible(ContextType(side, t), OwnType(side, ds[k]))
    ensures NoneFit(side, ts + [t], ds)
  {
    hide Compatible;
  }

  lemma NoContext(side: Side)
    ensures ContextEnds(side, []) == multiset{}
  {
  }

  lemma NoOwn(side: Side, rename: map<Name, Name>)
    ensures OwnEnds(side, [], rename) == multiset{}
  {
  }

  /** Surplus on both sides is paired, each pair by one adaptor. */
  method PairSurplus(g: HinGraph, side: Side, targets0: seq<Record>, donors0: seq<Record>, rename: map<Name, Name>, ghost entry: Name, ghost base: set<Name>,
                     ghost extra: map<Name, int>, ghost rest: multiset<Name>, ghost gap: map<Name, int>)
    returns (targets: seq<Record>, donors: seq<Record>, ghost added: seq<Record>)
    requires Balanced(g, extra, ContextEnds(side, targets0) + OwnEnds(side, donors0, rename) + rest, gap) && base <= g.nodes
    modifies g
    ensures Balanced(g, extra, ContextEnds(side, targets) + OwnEnds(side, donors, rename) + rest, gap) && Grows(g)
    ensures targets == [] || donors == []
    ensures Adds(g, added) && AllRight(side, added, targets0, donors0, rename, entry, base) && Among(targets, targets0) && Among(donors, donors0)
    ensures Settles(side, base, added, ContextEnds(side, targets0), ContextEnds(side, targets), OwnEnds(side, donors0, rename), OwnEnds(side, donors, rename))
    ensures |targets0| - |targets| == |donors0| - |donors| == |g.nodes| - |old(g.nodes)|
  {
    hide ContextEnds, OwnEnds, Balanced, Settles, AllRight, BridgeEdges, Among, Without;
    targets, donors, added := targets0, donors0, [];
    MatchStarts(side, base, targets0, donors0, rename, entry);
    while targets != [] && donors != []
      invariant Balanced(g, extra, ContextEnds(side, targets) + OwnEnds(side, donors, rename) + rest, gap) && Grows(g) && base <= g.nodes
      invariant Adds(g, added) && AllRight(side, added, targets0, donors0, rename, entry, base) && Among(targets, targets0) && Among(donors, donors0)
      invariant Settles(side, base, added, ContextEnds(side, targets0), ContextEnds(side, targets), OwnEnds(side, donors0, rename), OwnEnds(side, donors, rename))
      invariant |targets0| - |targets| == |donors0| - |donors| == |g.nodes| - |old(g.nodes)|
      decreases |targets|
    {
      var t, d := targets[0], donors[0];
      WithoutContext(side, targets, 0);
      WithoutOwn(side, donors, 0, rename);
      WithoutAmong(targets, 0, targets0);
      WithoutAmong(donors, 0, donors0);
      ghost var (ts, ds) := (targets, donors);
      targets, donors := Without(targets, 0), Without(donors, 0);
      ghost var owed := ContextEnds(side, targets) + OwnEnds(side, donors, rename) + rest;
      assert owed + multiset{ContextEnd(side, t), Renamed(rename, OwnEnd(side, d))}
          == ContextEnds(side, targets) + multiset{ContextEnd(side, t)} + (OwnEnds(side, donors, rename) + multiset{Renamed(rename, OwnEnd(side, d))}) + rest;
      ghost var x := Bridge(g, side, ContextEnd(side, t), Renamed(rename, OwnEnd(side, d)), ContextType(side, t), OwnType(side, d), extra, owed, gap);
      ghost var e := BridgeEdges(side, ContextEnd(side, t), Renamed(rename, OwnEnd(side, d)), ContextType(side, t), OwnType(side, d), x);
      BridgeRight(side, t, d, x, targets0, donors0, rename, entry, base);
      MoreRight(side, added, e, targets0, donors0, rename, entry, base);
      BridgeSettles(side, base, ContextEnd(side, t), Renamed(rename, OwnEnd(side, d)), ContextType(side, t), OwnType(side, d), x, ContextEnds(side, targets), OwnEnds(side, donors, rename));
      SettlesThen(side, base, added, e, ContextEnds(side, targets0), ContextEnds(side, ts), ContextEnds(side, targets),
                  OwnEnds(side, donors0, rename), OwnEnds(side, ds, rename), OwnEnds(side, donors, rename));
      added := added + e;
    }
  }

  /** So many of one name. */
  function Copies(v: Name, k: nat): multiset<Name> {
    multiset{}[v := k]
  }

  /** Context edges left over enter the chosen donor node, whose expected arity rises to match. */
  method FeedSurplus(g: HinGraph, side: Side, targets0: seq<Record>, donorNodes: seq<Name>, extra0: map<Name, int>, ghost ds: seq<Record>, ghost rename: map<Name, Name>, ghost base: set<Name>,
                     ghost rest: multiset<Name>, ghost gap: map<Name, int>)
    returns (extra: map<Name, int>, ghost added: seq<Record>)
    requires Balanced(g, extra0, ContextEnds(side, targets0) + rest, gap) && donorNodes != [] && donorNodes[0] in g.nodes && base <= g.nodes
    modifies g
    ensures Balanced(g, extra, rest, gap) && Grows(g)
    ensures Adds(g, added) && AllRight(side, added, targets0, ds, rename, donorNodes[0], base)
    ensures forall o :: Settles(side, base, added, ContextEnds(side, targets0), multiset{}, o + Copies(donorNodes[0], |targets0|), o)
    ensures |g.nodes| == |old(g.nodes)| + |targets0|
  {
    hide ContextEnds, Balanced, AllRight, BridgeEdges, Among, Without, FedSoFar;
    var targets := targets0;
    extra, added := extra0, [];
    FeedStarts(side, base, targets0, ds, rename, donorNodes[0]);
    while targets != []
      invariant Balanced(g, extra, ContextEnds(side, targets) + rest, gap) && Grows(g) && base <= g.nodes && Among(targets, targets0)
      invariant Adds(g, added) && AllRight(side, added, targets0, ds, rename, donorNodes[0], base)
      invariant FedSoFar(side, base, added, targets0, targets, donorNodes[0])
      invariant |g.nodes| == |old(g.nodes)| + |targets0| - |targets| && |targets| <= |targets0|
      decreases |targets|
    {
      var t, donor := targets[0], donorNodes[0];
      WithoutContext(side, targets, 0);
      WithoutAmong(targets, 0, targets0);
      ExtraBalanced(g, extra, ContextEnds(side, targets) + rest, gap, donor);
      ghost var ts := targets;
      targets := Without(targets, 0);
      extra := extra[donor := At(extra, donor) + 1];
      ghost var owed := ContextEnds(side, targets) + rest;
      assert owed + multiset{ContextEnd(side, t), donor} == ContextEnds(side, ts) + rest + multiset{donor};
      ghost var x := Bridge(g, side, ContextEnd(side, t), donor, ContextType(side, t), ContextType(side, t), extra, owed, gap);
      ghost var e := BridgeEdges(side, ContextEnd(side, t), donor, ContextType(side, t), ContextType(side, t), x);
      FeedRight(side, t, x, targets0, ds, rename, donor, base);
      MoreRight(side, added, e, targets0, ds, rename, donor, base);
      FeedMore(side, base, added, targets0, ts, donor, x);
      added := added + e;
    }
    NoContext(side);
    assert ContextEnds(side, []) + rest == rest;
    FeedEnds(side, base, added, targets0, donorNodes[0]);
  }

  lemma ExtraBalanced(g: HinGraph, extra: map<Name, int>, owed: multiset<Name>, gap: map<Name, int>, v: Name)
    requires Balanced(g, extra, owed, gap) && v in g.nodes
    ensures Balanced(g, extra[v := At(extra, v) + 1], owed + multiset{v}, gap)
  {
    hide Ledger;
    ExtraOwed(g.nodes, g.expectedArity, g.records, extra, owed, gap, v);
  }

  ghost predicate FedSoFar(side: Side, base: set<Name>, added: seq<Record>, targets0: seq<Record>, targets: seq<Record>, entry: Name) {
    |targets| <= |targets0| &&
    Settles(side, base, added, ContextEnds(side, targets0), ContextEnds(side, targets), Copies(entry, |targets0| - |targets|), multiset{})
  }

  lemma FeedStarts(side: Side, base: set<Name>, targets: seq<Record>, ds: seq<Record>, rename: map<Name, Name>, entry: Name)
    ensures FedSoFar(side, base, [], targets, targets, entry) && Among(targets, targets) && AllRight(side, [], targets, ds, rename, entry, base)
  {
    NothingSettles(side, base, ContextEnds(side, targets), multiset{});
    assert Copies(entry, 0) == multiset{};
  }

  lemma FeedMore(side: Side, base: set<Name>, added: seq<Record>, targets0: seq<Record>, targets: seq<Record>, entry: Name, x: Name)
    requires targets != [] && FedSoFar(side, base, added, targets0, targets, entry) && x !in base
    ensures var t := targets[0];
      FedSoFar(side, base, added + BridgeEdges(side, ContextEnd(side, t), entry, ContextType(side, t), ContextType(side, t), x), targets0, Without(targets, 0), entry)
  {
    hide ContextEnds, BridgeEdges, Settles;
    var t := targets[0];
    WithoutContext(side, targets, 0);
    var k := |targets0| - |targets|;
    SettlesMore(side, base, added, ContextEnds(side, targets0), ContextEnds(side, targets), Copies(entry, k), multiset{}, multiset{entry});
    assert Copies(entry, k) + multiset{entry} == Copies(entry, k + 1) && multiset{} + multiset{entry} == multiset{entry};
    BridgeSettles(side, base, ContextEnd(side, t), entry, ContextType(side, t), ContextType(side, t), x, ContextEnds(side, Without(targets, 0)), multiset{});
    SettlesThen(side, base, added, BridgeEdges(side, ContextEnd(side, t), entry, ContextType(side, t), ContextType(side, t), x),
                ContextEnds(side, targets0), ContextEnds(side, targets), ContextEnds(side, Without(targets, 0)),
                Copies(entry, k + 1), multiset{entry}, multiset{});
  }

  /** What else is owed on the donor's side does not matter. */
  lemma SettlesMore(side: Side, base: set<Name>, added: seq<Record>, c: multiset<Name>, c1: multiset<Name>, o: multiset<Name>, o1: multiset<Name>, more: multiset<Name>)
    requires Settles(side, base, added, c, c1, o, o1)
    ensures Settles(side, base, added, c, c1, o + more, o1 + more)
  {
    hide Sources, Targets;
  }

  lemma FeedEnds(side: Side, base: set<Name>, added: seq<Record>, targets0: seq<Record>, entry: Name)
    requires FedSoFar(side, base, added, targets0, [], entry)
    ensures forall o :: Settles(side, base, added, ContextEnds(side, targets0), multiset{}, o + Copies(entry, |targets0|), o)
  {
    NoContext(side);
    forall o ensures Settles(side, base, added, ContextEnds(side, targets0), multiset{}, o + Copies(entry, |targets0|), o) {
      SettlesMore(side, base, added, ContextEnds(side, targets0), multiset{}, Copies(entry, |targets0|), multiset{}, o);
      assert Copies(entry, |targets0|) + o == o + Copies(entry, |targets0|) && multiset{} + o == o;
    }
  }

  method CapSurplus(g: HinGraph, side: Side, donors0: seq<Record>, rename: map<Name, Name>, ghost ts: seq<Record>, ghost entry: Name, ghost base: set<Name>,
                    ghost extra: map<Name, int>, ghost rest: multiset<Name>, ghost gap: map<Name, int>)
    returns (ghost added: seq<Record>)
    requires Balanced(g, extra, OwnEnds(side, donors0, rename) + rest, gap) && base <= g.nodes
    modifies g
    ensures Balanced(g, extra, rest, gap) && Grows(g)
    ensures Adds(g, added) && AllRight(side, added, ts, donors0, rename, entry, base)
    ensures Settles(side, base, added, multiset{}, multiset{}, OwnEnds(side, donors0, rename), multiset{})
    ensures |g.nodes| == |old(g.nodes)| + |donors0|
  {
    NoOwn(side, rename);
    hide OwnEnds, Balanced, Settles, AllRight, CapEdge, Among, Without;
    var donors := donors0;
    added := [];
    NothingSettles(side, base, multiset{}, OwnEnds(side, donors0, rename));
    MatchStarts(side, base, ts, donors0, rename, entry);
    while donors != []
      invariant Balanced(g, extra, OwnEnds(side, donors, rename) + rest, gap) && Grows(g) && base <= g.nodes && Among(donors, donors0)
      invariant Adds(g, added) && AllRight(side, added, ts, donors0, rename, entry, base)
      invariant Settles(side, base, added, multiset{}, multiset{}, OwnEnds(side, donors0, rename), OwnEnds(side, donors, rename))
      invariant |g.nodes| == |old(g.nodes)| + |donors0| - |donors|
      decreases |donors|
    {
      var d := donors[0];
      WithoutOwn(side, donors, 0, rename);
      WithoutAmong(donors, 0, donors0);
      ghost var before := donors;
      donors := Without(donors, 0);
      ghost var owed := OwnEnds(side, donors, rename) + rest;
      assert owed + multiset{Renamed(rename, OwnEnd(side, d))} == OwnEnds(side, donors, rename) + multiset{Renamed(rename, OwnEnd(side, d))} + rest;
      ghost var x := Cap(g, side, Renamed(rename, OwnEnd(side, d)), OwnType(side, d), extra, owed, gap);
      ghost var e := CapEdge(side, Renamed(rename, OwnEnd(side, d)), OwnType(side, d), x);
      CapRight(side, d, x, ts, donors0, rename, entry, base);
      MoreRight(side, added, [e], ts, donors0, rename, entry, base);
      CapSettles(side, base, Renamed(rename, OwnEnd(side, d)), OwnType(side, d), x, multiset{}, OwnEnds(side, donors, rename));
      SettlesThen(side, base, added, [e], multiset{}, multiset{}, multiset{}, OwnEnds(side, donors0, rename), OwnEnds(side, before, rename), OwnEnds(side, donors, rename));
      added := added + [e];
    }
    assert OwnEnds(side, [], rename) + rest == rest;
  }

  /** How one side was settled: so many context records fed to the entry, and one adaptor for each record of the larger rest
      that fits nothing in the other rest. */
  ghost predicate Rested(side: Side, targets: seq<Record>, donors: seq<Record>, adaptors: int, fed: nat) {
    exists ts, ds :: RestsAre(side, targets, donors, ts, ds, adaptors, fed)
  }

  ghost predicate RestsAre(side: Side, targets: seq<Record>, donors: seq<Record>, ts: seq<Record>, ds: seq<Record>, adaptors: int, fed: nat) {
    && NoneFit(side, ts, ds) && Among(ts, targets) && Among(ds, donors) && |targets| - |ts| == |donors| - |ds| >= 0
    && adaptors == (if |ts| > |ds| then |ts| else |ds|) && fed == if |ts| > |ds| then |ts| - |ds| else 0
  }

  /** Settles every boundary record of one side. */
  method NormalizeSide(g: HinGraph, side: Side, targets: seq<Record>, donors: seq<Record>, rename: map<Name, Name>, donorNodes: seq<Name>, ghost base: set<Name>,
                       extra0: map<Name, int>, ghost rest: multiset<Name>, ghost gap: map<Name, int>)
    returns (extra: map<Name, int>, ghost added: seq<Record>, ghost fed: nat)
    requires Balanced(g, extra0, ContextEnds(side, targets) + OwnEnds(side, donors, rename) + rest, gap)
    requires donorNodes != [] && donorNodes[0] in g.nodes && base <= g.nodes
    modifies g
    ensures Balanced(g, extra, rest, gap) && Grows(g)
    ensures Adds(g, added) && AllRight(side, added, targets, donors, rename, donorNodes[0], base)
    ensures Settles(side, base, added, ContextEnds(side, targets), multiset{}, OwnEnds(side, donors, rename) + Copies(donorNodes[0], fed), multiset{})
    ensures Rested(side, targets, donors, |g.nodes| - |old(g.nodes)|, fed)
  {
    hide ContextEnds, OwnEnds, Balanced, Settles, AllRight, Among, NoneFit, Copies;
    ghost var entry := donorNodes[0];
    var ts, ds;
    ghost var a1, a2, a3, a4;
    ts, ds, a1 := MatchDirect(g, side, targets, donors, rename, entry, base, extra0, rest, gap);
    ghost var (ts1, ds1) := (ts, ds);
    ts, ds, a2 := PairSurplus(g, side, ts, ds, rename, entry, base, extra0, rest, gap);
    assert ContextEnds(side, ts) + OwnEnds(side, ds, rename) + rest == ContextEnds(side, ts) + (OwnEnds(side, ds, rename) + rest);
    extra, a3 := FeedSurplus(g, side, ts, donorNodes, extra0, ds, rename, base, OwnEnds(side, ds, rename) + rest, gap);
    a4 := CapSurplus(g, side, ds, rename, ts, entry, base, extra, rest, gap);
    added, fed := a1 + a2 + a3 + a4, |ts|;
    FourSettle(side, base, a1, a2, a3, a4, targets, donors, ts1, ds1, ts, ds, rename, entry);
    FourRight(side, base, a1, a2, a3, a4, targets, donors, ts1, ds1, ts, ds, rename, entry);
    assert RestsAre(side, targets, donors, ts1, ds1, |g.nodes| - |old(g.nodes)|, fed);
  }

  lemma FourSettle(side: Side, base: set<Name>, a1: seq<Record>, a2: seq<Record>, a3: seq<Record>, a4: seq<Record>,
                   targets: seq<Record>, donors: seq<Record>, ts1: seq<Record>, ds1: seq<Record>, ts: seq<Record>, ds: seq<Record>, rename: map<Name, Name>, entry: Name)
    requires Settles(side, base, a1, ContextEnds(side, targets), ContextEnds(side, ts1), OwnEnds(side, donors, rename), OwnEnds(side, ds1, rename))
    requires Settles(side, base, a2, ContextEnds(side, ts1), ContextEnds(side, ts), OwnEnds(side, ds1, rename), OwnEnds(side, ds, rename))
    requires forall o :: Settles(side, base, a3, ContextEnds(side, ts), multiset{}, o + Copies(entry, |ts|), o)
    requires Settles(side, base, a4, multiset{}, multiset{}, OwnEnds(side, ds, rename), multiset{})
    ensures Settles(side, base, a1 + a2 + a3 + a4, ContextEnds(side, targets), multiset{}, OwnEnds(side, donors, rename) + Copies(entry, |ts|), multiset{})
  {
    hide ContextEnds, OwnEnds, Settles, Copies;
    var c0, c1, c2 := ContextEnds(side, targets), ContextEnds(side, ts1), ContextEnds(side, ts);
    var o0, o1, o2, f := OwnEnds(side, donors, rename), OwnEnds(side, ds1, rename), OwnEnds(side, ds, rename), Copies(entry, |ts|);
    SettlesMore(side, base, a1, c0, c1, o0, o1, f);
    SettlesMore(side, base, a2, c1, c2, o1, o2, f);
    SettlesThen(side, base, a1, a2, c0, c1, c2, o0 + f, o1 + f, o2 + f);
    SettlesThen(side, base, a1 + a2, a3, c0, c2, multiset{}, o0 + f, o2 + f, o2);
    SettlesThen(side, base, a1 + a2 + a3, a4, c0, multiset{}, multiset{}, o0 + f, o2, multiset{});
  }

  lemma FourRight(side: Side, base: set<Name>, a1: seq<Record>, a2: seq<Record>, a3: seq<Record>, a4: seq<Record>,
                  targets: seq<Record>, donors: seq<Record>, ts1: seq<Record>, ds1: seq<Record>, ts: seq<Record>, ds: seq<Record>, rename: map<Name, Name>, entry: Name)
    requires AllRight(side, a1, targets, donors, rename, entry, base) && AllRight(side, a2, ts1, ds1, rename, entry, base)
    requires AllRight(side, a3, ts, ds, rename, entry, base) && AllRight(side, a4, ts, ds, rename, entry, base)
    requires Among(ts1, targets) && Among(ds1, donors) && Among(ts, ts1) && Among(ds, ds1)
    ensures AllRight(side, a1 + a2 + a3 + a4, targets, donors, rename, entry, base)
  {
    hide AllRight;
    assert Among(ts, targets) && Among(ds, donors);
    RightAmong(side, a2, ts1, ds1, targets, donors, rename, entry, base);
    RightAmong(side, a3, ts, ds, targets, donors, rename, entry, base);
    RightAmong(side, a4, ts, ds, targets, donors, rename, entry, base);
    MoreRight(side, a1, a2, targets, donors, rename, entry, base);
    MoreRight(side, a1 + a2, a3, targets, donors, rename, entry, base);
    MoreRight(side, a1 + a2 + a3, a4, targets, donors, rename, entry, base);
  }

  /** _normalize_interface: inputs, then outputs, then the raised arity expectations. */
  method NormalizeInterface(g: HinGraph, targetInputs: seq<Record>, targetOutputs: seq<Record>, donorInputs: seq<Record>, donorOutputs: seq<Record>,
                            rename: map<Name, Name>, donorNodes: seq<Name>, ghost gap: map<Name, int>)
    returns (ghost ins: seq<Record>, ghost outs: seq<Record>, ghost fedIn: nat, ghost fedOut: nat)
    requires Balanced(g, map[], ContextEnds(Input, targetInputs) + OwnEnds(Input, donorInputs, rename)
                                + (ContextEnds(Output, targetOutputs) + OwnEnds(Output, donorOutputs, rename)), gap)
    requires donorNodes != [] && donorNodes[0] in g.nodes
    modifies g
    ensures Balanced(g, map[], multiset{}, gap) && Grows(g) && Adds(g, ins + outs)
    ensures AllRight(Input, ins, targetInputs, donorInputs, rename, donorNodes[0], old(g.nodes))
    ensures AllRight(Output, outs, targetOutputs, donorOutputs, rename, donorNodes[0], old(g.nodes))
    ensures Settles(Input, old(g.nodes), ins, ContextEnds(Input, targetInputs), multiset{}, OwnEnds(Input, donorInputs, rename) + Copies(donorNodes[0], fedIn), multiset{})
    ensures Settles(Output, old(g.nodes), outs, ContextEnds(Output, targetOutputs), multiset{}, OwnEnds(Output, donorOutputs, rename) + Copies(donorNodes[0], fedOut), multiset{})
    ensures Bridged(targetInputs, donorInputs, fedIn, targetOutputs, donorOutputs, fedOut, |g.nodes| - |old(g.nodes)|)
  {
    hide ContextEnds, OwnEnds, Balanced, Settles, AllRight, Rested, Copies;
    ghost var base := g.nodes;
    var extra;
    extra, ins, fedIn := NormalizeSide(g, Input, targetInputs, donorInputs, rename, donorNodes, base, map[],
                                       ContextEnds(Output, targetOutputs) + OwnEnds(Output, donorOutputs, rename), gap);
    ghost var first := |g.nodes| - |base|;
    assert ContextEnds(Output, targetOutputs) + OwnEnds(Output, donorOutputs, rename)
        == ContextEnds(Output, targetOutputs) + OwnEnds(Output, donorOutputs, rename) + multiset{};
    ghost var middle := |g.nodes|;
    extra, outs, fedOut := NormalizeSide(g, Output, targetOutputs, donorOutputs, rename, donorNodes, base, extra, multiset{}, gap);
    BothRest(targetInputs, donorInputs, fedIn, first, targetOutputs, donorOutputs, fedOut, |g.nodes| - middle);
    RaiseArities(g, extra, gap);
  }

  /** One adaptor for each record of the larger rest, on each side. */
  ghost predicate Bridged(targetInputs: seq<Record>, donorInputs: seq<Record>, fedIn: nat, targetOutputs: seq<Record>, donorOutputs: seq<Record>, fedOut: nat, adaptors: int) {
    exists j: int, k: int :: j + k == adaptors && Rested(Input, targetInputs, donorInputs, j, fedIn) && Rested(Output, targetOutputs, donorOutputs, k, fedOut)
  }

  lemma BothRest(targetInputs: seq<Record>, donorInputs: seq<Record>, fedIn: nat, j: int, targetOutputs: seq<Record>, donorOutputs: seq<Record>, fedOut: nat, k: int)
    requires Rested(Input, targetInputs, donorInputs, j, fedIn) && Rested(Output, targetOutputs, donorOutputs, k, fedOut)
    ensures Bridged(targetInputs, donorInputs, fedIn, targetOutputs, donorOutputs, fedOut, j + k)
  {
  }

  method RaiseArities(g: HinGraph, extra: map<Name, int>, ghost gap: map<Name, int>)
    requires Balanced(g, extra, multiset{}, gap)
    modifies g
    ensures Balanced(g, map[], multiset{}, gap) && Grows(g) && g.records == old(g.records) && g.nodes == old(g.nodes)
  {
    hide Ledger, At;
    var left := extra;
    while left != map[]
      invariant Balanced(g, left, multiset{}, gap) && Grows(g) && g.records == old(g.records) && g.nodes == old(g.nodes)
      decreases left.Keys
    {
      var v :| v in left;
      ExtraPaid(g.nodes, g.expectedArity, g.records, left, multiset{}, gap, v);
      g.expectedArity := g.expectedArity[v := At(g.expectedArity, v) + left[v]];
      left := left - {v};
    }
  }
}
