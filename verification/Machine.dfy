/** The state of the reduction engine and what its operations do to it, as
    functions (core/hin_vm.py, class HINNetwork): mutable targets, among them the
    stale ones of retired nodes, a worklist that may hold stale entries, and a
    serial counter for fresh ids. */
module Machine {
  import opened MellTypes
  import opened Wiring
  import opened Nets
  import opened Conservation
  import opened Measure
  import opened Polarity

  type Pair = (NodeId, NodeId)

  datatype Vm = Vm(nodes: NodeMap, pairs: seq<Pair>, serial: nat, target: Wires)

  /** The net that a state holds: the targets of live ports. */
  function View(vm: Vm): Net {
    Net(vm.nodes, map p | p in vm.target && Live(vm.nodes, p) :: vm.target[p])
  }

  // ----- linking -----

  datatype Links = Links(target: Wires, pairs: seq<Pair>)

  function SetTarget(t: Wires, p: Port, to: Option<Port>): Wires {
    if to.Some? then t[p := to.value] else t - {p}
  }

  predicate Listed(pairs: seq<Pair>, a: NodeId, b: NodeId) {
    (a, b) in pairs || (b, a) in pairs
  }

  /** _record_if_active */
  function Record(pairs: seq<Pair>, p: Port, q: Port): seq<Pair> {
    if p.index == 0 && q.index == 0 && !Listed(pairs, p.owner, q.owner) then pairs + [(p.owner, q.owner)] else pairs
  }

  /** _link: either end may be missing, which leaves the other free. */
  function LinkUp(s: Links, p: Option<Port>, q: Option<Port>): Links {
    var t := if p.Some? then SetTarget(s.target, p.value, q) else s.target;
    var u := if q.Some? then SetTarget(t, q.value, p) else t;
    Links(u, if p.Some? && q.Some? then Record(s.pairs, p.value, q.value) else s.pairs)
  }

  /** The two ends that an edit links, read off the current targets. */
  function Ends(t: Wires, op: Op): (Option<Port>, Option<Port>) {
    match op
    case Splice(x, y) => (Look(t, x), Look(t, y))
    case Graft(x, h) => (Some(h), Look(t, x))
    case Join(x, y) => (Some(x), Some(y))
  }

  /** Perform edits one after the other, each reading the targets it finds. */
  function Relink(s: Links, ops: seq<Op>): Links
    decreases |ops|
  {
    if ops == [] then s
    else
      var k := |ops| - 1;
      var r := Relink(s, ops[..k]);
      var e := Ends(r.target, ops[k]);
      LinkUp(r, e.0, e.1)
  }

  /** Perform edits whose ends were all read off the targets t beforehand. */
  function LinkCaptured(s: Links, t: Wires, ops: seq<Op>): Links
    decreases |ops|
  {
    if ops == [] then s
    else
      var k := |ops| - 1;
      var e := Ends(t, ops[k]);
      LinkUp(LinkCaptured(s, t, ops[..k]), e.0, e.1)
  }

  // ----- firing -----

  /** The ids that fresh_id gives to the created nodes. */
  function NextIds(serial: nat, created: seq<Node>): (ids: seq<NodeId>)
    ensures |ids| == |created|
  {
    seq(|created|, i requires 0 <= i < |created| => Gensym(created[i].kind, serial + i))
  }

  /** One rewrite of the pair (a, b), already taken off the worklist. */
  function FireVm(vm: Vm, a: NodeId, b: NodeId): Vm
    requires a in vm.nodes && b in vm.nodes
  {
    var net := View(vm);
    var created := CreatedAt(net, a, b);
    var ids := NextIds(vm.serial, created);
    var ops := EditsAt(net, a, b, ids)[1..];
    var start := Links(vm.target, vm.pairs);
    var done := if RuleAt(net, a, b) == Duplicate then LinkCaptured(start, vm.target, ops) else Relink(start, ops);
    Vm(AddNodes(vm.nodes - {a, b}, ids, created), done.pairs, vm.serial + |created|, done.target)
  }

  // ----- what holds between operations -----

  predicate Used(n: NodeId, serial: nat) {
    n.Gensym? ==> n.serial < serial
  }

  /** The counter has moved past every id in use. */
  ghost predicate Known(vm: Vm) {
    && (forall n :: n in vm.nodes ==> Used(n, vm.serial))
    && (forall p :: p in vm.target ==> Used(p.owner, vm.serial))
    && (forall e :: e in vm.pairs ==> Used(e.0, vm.serial) && Used(e.1, vm.serial))
  }

  /** Every reacting pair is on the worklist. */
  ghost predicate AllListed(nodes: NodeMap, w: Wires, pairs: seq<Pair>) {
    forall a, b :: a in nodes && b in nodes && P(a) in w && w[P(a)] == P(b) && HasRule(nodes[a].kind, nodes[b].kind)
      ==> Listed(pairs, a, b)
  }

  ghost predicate AllListedBut(nodes: NodeMap, w: Wires, pairs: seq<Pair>, gone: set<NodeId>) {
    forall a, b :: a in nodes && b in nodes && P(a) in w && w[P(a)] == P(b) && HasRule(nodes[a].kind, nodes[b].kind)
      ==> Listed(pairs, a, b) || {a, b} == gone
  }

  /** A worklist entry whose two nodes are both live is still a principal wire. */
  ghost predicate AllBacked(nodes: NodeMap, w: Wires, pairs: seq<Pair>) {
    forall e :: e in pairs && e.0 in nodes && e.1 in nodes ==> P(e.0) in w && w[P(e.0)] == P(e.1)
  }

  ghost predicate Consistent(vm: Vm) {
    && WellWired(View(vm)) && Known(vm)
    && AllListed(vm.nodes, View(vm).wires, vm.pairs)
    && AllBacked(vm.nodes, View(vm).wires, vm.pairs)
  }

  /** Consistent but for the pair (a, b), which has just been taken off the worklist. */
  ghost predicate ConsistentBut(vm: Vm, a: NodeId, b: NodeId) {
    && WellWired(View(vm)) && Known(vm)
    && AllListedBut(vm.nodes, View(vm).wires, vm.pairs, {a, b})
    && AllBacked(vm.nodes, View(vm).wires, vm.pairs)
  }

  // ----- the targets of a set of ports follow the edits -----

  ghost predicate Tracks(t: Wires, s: set<Port>, w: Wires) {
    && (forall p :: p in s ==> Look(t, p) == Look(w, p))
    && (forall p :: p in w ==> p in s)
  }

  function PortsAfter(s: set<Port>, op: Op): set<Port> {
    s - op.Old() + op.New()
  }

  /** One link, on the ends that the edit finds, performs the edit on the ports
      that remain. */
  lemma LinkTracks(l: Links, s: set<Port>, w: Wires, op: Op)
    requires Tracks(l.target, s, w) && Paired(w) && Ready(w, op)
    requires op.Old() <= s && op.New() !! s && op.New() !! l.target.Keys
    ensures Tracks(LinkUp(l, Ends(w, op).0, Ends(w, op).1).target, PortsAfter(s, op), Apply(w, op))
  {
    var e := Ends(w, op);
    var t, r := LinkUp(l, e.0, e.1).target, Apply(w, op);
    forall p | p in PortsAfter(s, op) ensures Look(t, p) == Look(r, p) {
      assert Look(r, p) == LookAfter(w, op, p);
      assert p in s ==> Look(l.target, p) == Look(w, p);
    }
    forall p | p in r ensures p in PortsAfter(s, op) {
      assert Look(r, p) == LookAfter(w, op, p);
    }
  }

  lemma {:induction false} ApplyAllLast(w: Wires, ops: seq<Op>)
    requires ops != []
    ensures ApplyAll(w, ops) == Apply(ApplyAll(w, ops[..|ops| - 1]), ops[|ops| - 1])
    decreases |ops|
  {
    if |ops| > 1 {
      ApplyAllLast(Apply(w, ops[0]), ops[1..]);
      assert ops[1..][..|ops| - 2] == ops[..|ops| - 1][1..];
    }
  }

  /** What an untangled list has left to do stays ready after its beginning. */
  lemma PrefixReady(w: Wires, ops: seq<Op>, k: nat)
    requires Paired(w) && Linear(w, ops) && k < |ops|
    ensures Paired(ApplyAll(w, ops[..k])) && Linear(w, ops[..k]) && Ready(ApplyAll(w, ops[..k]), ops[k])
  {
    assert Linear(w, ops[..k]) by {
      forall i | 0 <= i < k ensures Ready(w, ops[..k][i]) { assert Ready(w, ops[i]); }
    }
    ApplyAllPaired(w, ops[..k]);
    assert Ready(w, ops[k]);
    forall p | p in ops[k].New() ensures p !in ApplyAll(w, ops[..k]) {
      forall i | 0 <= i < k ensures p !in ops[..k][i].New() { assert ops[i].Ports() !! ops[k].Ports(); }
      if p in NewPorts(ops[..k]) { var i := NewPortFrom(ops[..k], p); }
    }
  }

  function PortsAfterAll(s: set<Port>, ops: seq<Op>): set<Port>
    decreases |ops|
  {
    if ops == [] then s else PortsAfter(PortsAfterAll(s, ops[..|ops| - 1]), ops[|ops| - 1])
  }

  /** After a prefix, the tracked ports are the old ones less those consumed, plus
      those introduced. */
  lemma {:induction false} PortsAfterAllMember(s: set<Port>, ops: seq<Op>, p: Port)
    requires Untangled(ops)
    ensures p in PortsAfterAll(s, ops) <==>
      (p in s && forall i :: 0 <= i < |ops| ==> p !in ops[i].Old()) || (exists i :: 0 <= i < |ops| && p in ops[i].New())
    decreases |ops|
  {
    if ops != [] {
      var k := |ops| - 1;
      PortsAfterAllMember(s, ops[..k], p);
      assert forall i :: 0 <= i < k ==> ops[..k][i] == ops[i];
      if exists i :: 0 <= i < k && p in ops[i].New() {
        var i :| 0 <= i < k && p in ops[i].New();
        assert ops[i].Ports() !! ops[k].Ports();
        assert p in ops[..k][i].New();
      }
    }
  }

  ghost predicate Apt(s: set<Port>, t: Wires, ops: seq<Op>) {
    forall k :: 0 <= k < |ops| ==> ops[k].Old() <= s && ops[k].New() !! s && ops[k].New() !! t.Keys
  }

  /** Targets touched so far belong to the ports at hand: nothing else changes. */
  lemma LinkTouches(l: Links, op: Op, w: Wires, s: set<Port>, p: Port)
    requires Tracks(l.target, s, w) && Paired(w) && op.Old() <= s && p !in s && p !in op.New() && p !in l.target
    ensures p !in LinkUp(l, Ends(w, op).0, Ends(w, op).1).target
  {
  }

  lemma {:induction false} RelinkTracks(l: Links, s: set<Port>, w: Wires, ops: seq<Op>)
    requires Tracks(l.target, s, w) && Paired(w) && Linear(w, ops) && Apt(s, l.target, ops)
    ensures Tracks(Relink(l, ops).target, PortsAfterAll(s, ops), ApplyAll(w, ops))
    ensures forall p :: p !in s && p !in l.target && (forall k :: 0 <= k < |ops| ==> p !in ops[k].New()) ==> p !in Relink(l, ops).target
    decreases |ops|
  {
    if ops != [] {
      var k := |ops| - 1;
      var init, op := ops[..k], ops[k];
      assert forall i :: 0 <= i < k ==> init[i] == ops[i];
      PrefixReady(w, ops, k);
      RelinkTracks(l, s, w, init);
      ApplyAllLast(w, ops);
      var r, v, u := Relink(l, init), ApplyAll(w, init), PortsAfterAll(s, init);
      forall p | p in op.Ports()
        ensures p in op.Old() ==> p in u
        ensures p in op.New() ==> p !in u && p !in r.target
      {
        PortsAfterAllMember(s, init, p);
        forall i | 0 <= i < k ensures p !in ops[i].Ports() { assert ops[i].Ports() !! ops[k].Ports(); }
      }
      EndsTracked(r.target, u, v, op);
      LinkTracks(r, u, v, op);
      forall p | p !in s && p !in l.target && (forall i :: 0 <= i < |ops| ==> p !in ops[i].New()) ensures p !in Relink(l, ops).target {
        PortsAfterAllMember(s, init, p);
        assert p !in op.New();
        LinkTouches(r, op, v, u, p);
      }
    }
  }

  lemma EndsTracked(t: Wires, s: set<Port>, w: Wires, op: Op)
    requires Tracks(t, s, w) && op.Old() <= s
    ensures Ends(t, op) == Ends(w, op)
  {
    match op case Splice(x, y) => case Graft(x, h) => case Join(x, y) =>
  }

  // ----- the worklist follows the edits -----

  /** An edit that consumes no principal port. */
  predicate AuxOnly(op: Op) {
    match op
    case Splice(x, y) => x.index > 0 && y.index > 0
    case Graft(x, _) => x.index > 0
    case Join(x, y) => x.index > 0 && y.index > 0
  }

  ghost predicate PairsGood(nodes: NodeMap, w: Wires, pairs: seq<Pair>) {
    AllListed(nodes, w, pairs) && AllBacked(nodes, w, pairs)
  }

  lemma LinkPairs(nodes: NodeMap, w: Wires, l: Links, op: Op)
    requires PairsGood(nodes, w, l.pairs) && Paired(w) && Ready(w, op) && AuxOnly(op)
    ensures PairsGood(nodes, Apply(w, op), LinkUp(l, Ends(w, op).0, Ends(w, op).1).pairs)
  {
    var e := Ends(w, op);
    var r, pairs := Apply(w, op), LinkUp(l, e.0, e.1).pairs;
    forall a, b | a in nodes && b in nodes && P(a) in r && r[P(a)] == P(b) && HasRule(nodes[a].kind, nodes[b].kind)
      ensures Listed(pairs, a, b)
    {
      assert Look(r, P(a)) == LookAfter(w, op, P(a));
    }
    forall f | f in pairs && f.0 in nodes && f.1 in nodes ensures P(f.0) in r && r[P(f.0)] == P(f.1) {
      assert Look(r, P(f.0)) == LookAfter(w, op, P(f.0));
      if f in l.pairs { assert w[P(f.0)] == P(f.1); }
    }
  }

  lemma {:induction false} RelinkPairs(nodes: NodeMap, l: Links, s: set<Port>, w: Wires, ops: seq<Op>)
    requires Tracks(l.target, s, w) && Paired(w) && Linear(w, ops) && Apt(s, l.target, ops)
    requires PairsGood(nodes, w, l.pairs) && forall k :: 0 <= k < |ops| ==> AuxOnly(ops[k])
    ensures PairsGood(nodes, ApplyAll(w, ops), Relink(l, ops).pairs)
    decreases |ops|
  {
    if ops != [] {
      var k := |ops| - 1;
      var init, op := ops[..k], ops[k];
      assert forall i :: 0 <= i < k ==> init[i] == ops[i];
      PrefixReady(w, ops, k);
      RelinkTracks(l, s, w, init);
      RelinkPairs(nodes, l, s, w, init);
      ApplyAllLast(w, ops);
      assert op.Old() <= PortsAfterAll(s, init) by {
        forall p | p in op.Old() ensures p in PortsAfterAll(s, init) {
          PortsAfterAllMember(s, init, p);
          forall i | 0 <= i < k ensures p !in ops[i].Ports() { assert ops[i].Ports() !! ops[k].Ports(); }
        }
      }
      EndsTracked(Relink(l, init).target, PortsAfterAll(s, init), ApplyAll(w, init), op);
      LinkPairs(nodes, ApplyAll(w, init), Relink(l, init), op);
    }
  }

  // ----- captured ends -----

  /** No edit of the list consumes a far end of another. */
  ghost predicate NoCrossing(w: Wires, ops: seq<Op>) {
    forall j, k, p :: 0 <= j < |ops| && 0 <= k < |ops| && p in ops[j].Old() && p in w ==> w[p] !in ops[k].Old()
  }

  /** When no edit consumes another's far end, capturing the ends first and reading
      them as one goes are the same. */
  lemma {:induction false} CapturedIsRelink(l: Links, t: Wires, s: set<Port>, w: Wires, ops: seq<Op>)
    requires l.target == t && Tracks(t, s, w) && Paired(w) && Linear(w, ops) && Apt(s, t, ops)
    requires NoCrossing(w, ops) && forall k :: 0 <= k < |ops| ==> !ops[k].Splice?
    ensures LinkCaptured(l, t, ops) == Relink(l, ops)
    decreases |ops|
  {
    if ops != [] {
      var k := |ops| - 1;
      var init, op := ops[..k], ops[k];
      assert forall i :: 0 <= i < k ==> init[i] == ops[i];
      PrefixReady(w, ops, k);
      CapturedIsRelink(l, t, s, w, init);
      RelinkTracks(l, s, w, init);
      if op.Graft? {
        var x := op.x;
        assert x in op.Old();
        forall i | 0 <= i < k ensures x !in init[i].Ports() && (x in w ==> w[x] !in init[i].Ports()) {
          assert ops[i].Ports() !! ops[k].Ports();
          assert ops[i].New() !! s;
        }
        LookUntouched(w, init, x);
        PortsAfterAllMember(s, init, x);
      }
    }
  }

  // ----- a firing of the machine is a firing of the net it holds -----

  /** Common facts about the ids and edits of a firing. */
  ghost predicate Setting(vm: Vm, a: NodeId, b: NodeId) {
    && a in vm.nodes && b in vm.nodes
    && ConsistentBut(vm, a, b) && Reducible(View(vm), a, b)
  }

  function IdsAt(vm: Vm, a: NodeId, b: NodeId): (ids: seq<NodeId>)
    requires a in vm.nodes && b in vm.nodes
    ensures |ids| == |CreatedAt(View(vm), a, b)|
  {
    NextIds(vm.serial, CreatedAt(View(vm), a, b))
  }

  lemma IdsFresh(vm: Vm, a: NodeId, b: NodeId)
    requires Setting(vm, a, b)
    ensures Fresh(View(vm), IdsAt(vm, a, b))
    ensures forall i, p: Port :: 0 <= i < |IdsAt(vm, a, b)| && p.owner == IdsAt(vm, a, b)[i] ==> p !in vm.target
  {
  }

  /** The ports a firing has at hand once the two principals are out of the way. */
  function HandPorts(nodes: NodeMap, r: Rewrite): set<Port> {
    PortSet(nodes) - {P(r.a), P(r.b)}
  }

  /** A faithful rewrite whose first edit drops the wire between the two principals
      and whose other edits consume auxiliary ports, with ids unused in vm. */
  ghost predicate Prepared(vm: Vm, r: Rewrite) {
    && WellWired(View(vm)) && Faithful(View(vm), r)
    && |r.ops| > 0 && r.ops[0] == Splice(P(r.a), P(r.b))
    && P(r.a) in View(vm).wires && View(vm).wires[P(r.a)] == P(r.b)
    && (forall k :: 1 <= k < |r.ops| ==> AuxOnly(r.ops[k]))
    && (forall k, p :: 0 <= k < |r.ops| && p in r.ops[k].New() ==> p !in vm.target)
  }

  lemma TracksAtHand(vm: Vm, r: Rewrite)
    requires Prepared(vm, r)
    ensures var w := Apply(View(vm).wires, r.ops[0]);
      && Tracks(vm.target, HandPorts(vm.nodes, r), w)
      && Paired(w) && Linear(w, r.ops[1..]) && Apt(HandPorts(vm.nodes, r), vm.target, r.ops[1..])
  {
    var w0 := View(vm).wires;
    var w := Apply(w0, r.ops[0]);
    RewriteLinear(View(vm), r);
    LinearRest(w0, r.ops);
    assert Ready(w0, r.ops[0]);
    ApplyPaired(w0, r.ops[0]);
    forall p | p in HandPorts(vm.nodes, r) ensures Look(vm.target, p) == Look(w, p) {
      assert Look(w, p) == LookAfter(w0, r.ops[0], p);
      assert Live(vm.nodes, p);
    }
    forall k, p | 1 <= k < |r.ops| && p in r.ops[k].Ports()
      ensures p in r.ops[k].Old() ==> p in HandPorts(vm.nodes, r)
      ensures p in r.ops[k].New() ==> p !in HandPorts(vm.nodes, r)
    {
      assert r.ops[0].Ports() !! r.ops[k].Ports();
      if p in r.ops[k].Old() {
        assert PortOf(vm.nodes[r.a], r.a, p) || PortOf(vm.nodes[r.b], r.b, p);
      } else {
        var i :| 0 <= i < |r.ids| && PortOf(r.created[i], r.ids[i], p);
      }
    }
    assert forall k :: 0 <= k < |r.ops[1..]| ==> r.ops[1..][k] == r.ops[k + 1];
  }

  lemma LiveIsHanded(vm: Vm, r: Rewrite, p: Port)
    requires Prepared(vm, r) && Live(Rewritten(View(vm), r).nodes, p)
    ensures p in PortsAfterAll(HandPorts(vm.nodes, r), r.ops[1..])
  {
    var rest := r.ops[1..];
    assert forall k :: 0 <= k < |rest| ==> rest[k] == r.ops[k + 1];
    PortsAfterAllMember(HandPorts(vm.nodes, r), rest, p);
    LiveAfter(View(vm), r, p);
    if exists i :: 0 <= i < |r.ids| && PortOf(r.created[i], r.ids[i], p) {
      var k := NewPortFrom(r.ops, p);
      assert p in rest[k - 1].New();
    } else if p in OldPorts(rest) {
      var k := OldPortFrom(rest, p);
      PortsOfMember(r.ops, k + 1);
      ConsumedIsLive(View(vm), r, p);
    } else {
      forall k | 0 <= k < |rest| ensures p !in rest[k].Old() { PortsOfMember(rest, k); }
    }
  }

  lemma HandedIsLive(vm: Vm, r: Rewrite, p: Port)
    requires Prepared(vm, r) && p in PortsAfterAll(HandPorts(vm.nodes, r), r.ops[1..])
    ensures Live(Rewritten(View(vm), r).nodes, p)
  {
    var rest := r.ops[1..];
    assert forall k :: 0 <= k < |rest| ==> rest[k] == r.ops[k + 1];
    PortsAfterAllMember(HandPorts(vm.nodes, r), rest, p);
    LiveAfter(View(vm), r, p);
    if exists k :: 0 <= k < |rest| && p in rest[k].New() {
      var k :| 0 <= k < |rest| && p in rest[k].New();
      assert p in r.ops[k + 1].New();
    } else if p.owner in {r.a, r.b} {
      assert PortOf(vm.nodes[r.a], r.a, p) || PortOf(vm.nodes[r.b], r.b, p);
      var k := OldPortFrom(r.ops, p);
      assert false;
    }
  }

  /** The targets of the live ports after relinking are the rewritten wires. */
  lemma RelinkRewrites(vm: Vm, r: Rewrite)
    requires Prepared(vm, r)
    ensures
      var done := Relink(Links(vm.target, vm.pairs), r.ops[1..]);
      var after := Rewritten(View(vm), r);
      View(Vm(after.nodes, done.pairs, vm.serial, done.target)) == after
  {
    var done := Relink(Links(vm.target, vm.pairs), r.ops[1..]);
    var after := Rewritten(View(vm), r);
    var v := View(Vm(after.nodes, done.pairs, vm.serial, done.target));
    TracksAtHand(vm, r);
    RelinkTracks(Links(vm.target, vm.pairs), HandPorts(vm.nodes, r), Apply(View(vm).wires, r.ops[0]), r.ops[1..]);
    forall p ensures Look(v.wires, p) == Look(after.wires, p) {
      if p in PortsAfterAll(HandPorts(vm.nodes, r), r.ops[1..]) { HandedIsLive(vm, r, p); }
      if Live(after.nodes, p) { LiveIsHanded(vm, r, p); }
    }
    SameLooks(v.wires, after.wires);
  }

  lemma ListedAtHand(vm: Vm, r: Rewrite)
    requires Prepared(vm, r) && forall n :: n in r.ids ==> !Used(n, vm.serial)
    requires AllListedBut(vm.nodes, View(vm).wires, vm.pairs, {r.a, r.b})
    ensures AllListed(Rewritten(View(vm), r).nodes, Apply(View(vm).wires, r.ops[0]), vm.pairs)
  {
    var w0, w, after := View(vm).wires, Apply(View(vm).wires, r.ops[0]), Rewritten(View(vm), r).nodes;
    DropPrincipals(w0, P(r.a), P(r.b));
    AddNodesAll(vm.nodes - {r.a, r.b}, r.ids, r.created);
    forall x, y | x in after && y in after && P(x) in w && w[P(x)] == P(y) && HasRule(after[x].kind, after[y].kind)
      ensures Listed(vm.pairs, x, y)
    {
      assert Live(vm.nodes, P(x)) && Live(vm.nodes, w0[P(x)]);
    }
  }

  lemma BackedAtHand(vm: Vm, r: Rewrite)
    requires Prepared(vm, r) && Known(vm) && forall n :: n in r.ids ==> !Used(n, vm.serial)
    requires AllBacked(vm.nodes, View(vm).wires, vm.pairs)
    ensures AllBacked(Rewritten(View(vm), r).nodes, Apply(View(vm).wires, r.ops[0]), vm.pairs)
  {
    var w0, w, after := View(vm).wires, Apply(View(vm).wires, r.ops[0]), Rewritten(View(vm), r).nodes;
    AddNodesAll(vm.nodes - {r.a, r.b}, r.ids, r.created);
    forall e | e in vm.pairs && e.0 in after && e.1 in after ensures P(e.0) in w && w[P(e.0)] == P(e.1) {
      assert Look(w, P(e.0)) == LookAfter(w0, r.ops[0], P(e.0));
    }
  }

  /** Nothing unknown gets onto the worklist or into the targets. */
  ghost predicate KnownLinks(l: Links, serial: nat) {
    && (forall p :: p in l.target ==> Used(p.owner, serial))
    && (forall e :: e in l.pairs ==> Used(e.0, serial) && Used(e.1, serial))
  }

  lemma LinkKnown(l: Links, p: Option<Port>, q: Option<Port>, serial: nat)
    requires KnownLinks(l, serial)
    requires (p.Some? ==> Used(p.value.owner, serial)) && (q.Some? ==> Used(q.value.owner, serial))
    ensures KnownLinks(LinkUp(l, p, q), serial)
  {
  }

  lemma {:induction false} RelinkKnown(l: Links, s: set<Port>, w: Wires, ops: seq<Op>, serial: nat)
    requires Tracks(l.target, s, w) && Paired(w) && Linear(w, ops) && Apt(s, l.target, ops)
    requires KnownLinks(l, serial) && forall p :: p in s ==> Used(p.owner, serial)
    requires forall k, p :: 0 <= k < |ops| && p in ops[k].New() ==> Used(p.owner, serial)
    ensures KnownLinks(Relink(l, ops), serial)
    decreases |ops|
  {
    if ops != [] {
      var k := |ops| - 1;
      var init, op := ops[..k], ops[k];
      assert forall i :: 0 <= i < k ==> init[i] == ops[i];
      PrefixReady(w, ops, k);
      RelinkTracks(l, s, w, init);
      RelinkKnown(l, s, w, init, serial);
      var u, v := PortsAfterAll(s, init), ApplyAll(w, init);
      forall p | p in op.Ports() || p in u ensures Used(p.owner, serial) && (p in op.Old() ==> p in u) {
        PortsAfterAllMember(s, init, p);
        forall i | 0 <= i < k ensures p in op.Ports() ==> p !in ops[i].Ports() { assert ops[i].Ports() !! ops[k].Ports(); }
      }
      var t := Relink(l, init).target;
      EndsTracked(t, u, v, op);
      var e := Ends(t, op);
      forall p | Some(p) in {e.0, e.1} ensures Used(p.owner, serial) {
        match op
        case Splice(x, y) => assert x in op.Ports() && y in op.Ports();
        case Graft(x, h) => assert x in op.Ports() && h in op.Ports();
        case Join(x, y) => assert x in op.Ports() && y in op.Ports();
      }
      LinkKnown(Relink(l, init), e.0, e.1, serial);
    }
  }

  lemma EditsAuxOnly(rule: Rule, a: NodeId, x: Node, b: NodeId, y: Node, ids: seq<NodeId>, k: nat)
    requires |ids| == |Created(rule, x, y, b)| && (rule == Duplicate ==> |x.aux| == 2)
    requires 1 <= k < |Edits(rule, a, x, b, y, ids)|
    ensures AuxOnly(Edits(rule, a, x, b, y, ids)[k])
    ensures rule == Duplicate ==> !Edits(rule, a, x, b, y, ids)[k].Splice?
  {
    match rule
    case Duplicate =>
      DuplicateShape(a, x, b, y, ids, 0);
      DuplicateShape(a, x, b, y, ids, k);
    case Annihilate =>
    case Erase =>
    case Select =>
    case Project =>
  }

  lemma Prepares(vm: Vm, a: NodeId, b: NodeId)
    requires Setting(vm, a, b) && Regular(View(vm), a, b)
    ensures Prepared(vm, RewriteAt(View(vm), a, b, IdsAt(vm, a, b)))
  {
    var net, ids := View(vm), IdsAt(vm, a, b);
    IdsFresh(vm, a, b);
    FireFaithful(net, a, b, ids);
    var r := RewriteAt(net, a, b, ids);
    forall k | 1 <= k < |r.ops| ensures AuxOnly(r.ops[k]) {
      EditsAuxOnly(RuleAt(net, a, b), r.a, net.nodes[r.a], r.b, net.nodes[r.b], ids, k);
    }
    forall k, p | 0 <= k < |r.ops| && p in r.ops[k].New() ensures p !in vm.target {
      var i :| 0 <= i < |r.ids| && PortOf(r.created[i], r.ids[i], p);
    }
  }

  /** With no wire inside the pair, capturing the far ends first changes nothing. */
  lemma CapturedIsRead(vm: Vm, a: NodeId, b: NodeId)
    requires Setting(vm, a, b) && Regular(View(vm), a, b) && RuleAt(View(vm), a, b) == Duplicate
    ensures var ops := EditsAt(View(vm), a, b, IdsAt(vm, a, b))[1..];
      LinkCaptured(Links(vm.target, vm.pairs), vm.target, ops) == Relink(Links(vm.target, vm.pairs), ops)
  {
    var net, r := View(vm), RewriteAt(View(vm), a, b, IdsAt(vm, a, b));
    Prepares(vm, a, b);
    TracksAtHand(vm, r);
    var rest, w := r.ops[1..], Apply(net.wires, r.ops[0]);
    DropPrincipals(net.wires, P(r.a), P(r.b));
    forall k, p | 0 <= k < |rest| && p in rest[k].Old() ensures p.owner in {a, b} && p.index > 0 {
      assert rest[k] == r.ops[k + 1];
      assert PortOf(net.nodes[r.a], r.a, p) || PortOf(net.nodes[r.b], r.b, p);
      assert AuxOnly(r.ops[k + 1]);
    }
    forall k | 0 <= k < |rest| ensures !rest[k].Splice? {
      EditsAuxOnly(Duplicate, r.a, net.nodes[r.a], r.b, net.nodes[r.b], r.ids, k + 1);
    }
    CapturedIsRelink(Links(vm.target, vm.pairs), vm.target, HandPorts(vm.nodes, r), w, rest);
  }

  lemma FireVmIsRelink(vm: Vm, a: NodeId, b: NodeId)
    requires Setting(vm, a, b) && Regular(View(vm), a, b)
    ensures
      var r := RewriteAt(View(vm), a, b, IdsAt(vm, a, b));
      var done := Relink(Links(vm.target, vm.pairs), r.ops[1..]);
      FireVm(vm, a, b) == Vm(Rewritten(View(vm), r).nodes, done.pairs, vm.serial + |r.created|, done.target)
  {
    FireIsRewrite(View(vm), a, b, IdsAt(vm, a, b));
    if RuleAt(View(vm), a, b) == Duplicate { CapturedIsRead(vm, a, b); }
  }

  lemma RelinkPairsGood(vm: Vm, r: Rewrite)
    requires Prepared(vm, r) && ConsistentBut(vm, r.a, r.b)
    requires forall i :: 0 <= i < |r.ids| ==> !Used(r.ids[i], vm.serial)
    ensures PairsGood(Rewritten(View(vm), r).nodes, Rewritten(View(vm), r).wires, Relink(Links(vm.target, vm.pairs), r.ops[1..]).pairs)
  {
    var w, ops := Apply(View(vm).wires, r.ops[0]), r.ops[1..];
    assert forall k :: 0 <= k < |ops| ==> ops[k] == r.ops[k + 1];
    TracksAtHand(vm, r);
    ListedAtHand(vm, r);
    BackedAtHand(vm, r);
    RelinkPairs(Rewritten(View(vm), r).nodes, Links(vm.target, vm.pairs), HandPorts(vm.nodes, r), w, ops);
    assert ApplyAll(w, ops) == Rewritten(View(vm), r).wires;
  }

  lemma RelinkAllKnown(vm: Vm, r: Rewrite)
    requires Prepared(vm, r) && Known(vm)
    requires forall i :: 0 <= i < |r.ids| ==> Used(r.ids[i], vm.serial + |r.ids|)
    ensures KnownLinks(Relink(Links(vm.target, vm.pairs), r.ops[1..]), vm.serial + |r.ids|)
    ensures forall n :: n in Rewritten(View(vm), r).nodes ==> Used(n, vm.serial + |r.ids|)
  {
    var ops, serial := r.ops[1..], vm.serial + |r.ids|;
    assert forall k :: 0 <= k < |ops| ==> ops[k] == r.ops[k + 1];
    TracksAtHand(vm, r);
    forall k, p | 0 <= k < |ops| && p in ops[k].New() ensures Used(p.owner, serial) {
      assert p in r.ops[k + 1].New();
      var i :| 0 <= i < |r.ids| && PortOf(r.created[i], r.ids[i], p);
    }
    forall p | p in HandPorts(vm.nodes, r) ensures Used(p.owner, serial) { assert Used(p.owner, vm.serial); }
    RelinkKnown(Links(vm.target, vm.pairs), HandPorts(vm.nodes, r), Apply(View(vm).wires, r.ops[0]), ops, serial);
    AddNodesAll(vm.nodes - {r.a, r.b}, r.ids, r.created);
  }

  lemma RelinkConsistent(vm: Vm, r: Rewrite)
    requires Prepared(vm, r) && ConsistentBut(vm, r.a, r.b)
    requires forall i :: 0 <= i < |r.ids| ==> !Used(r.ids[i], vm.serial) && Used(r.ids[i], vm.serial + |r.ids|)
    ensures
      var done := Relink(Links(vm.target, vm.pairs), r.ops[1..]);
      Consistent(Vm(Rewritten(View(vm), r).nodes, done.pairs, vm.serial + |r.ids|, done.target))
  {
    hide Prepared, ConsistentBut, Used, WellWired, AllListed, AllBacked;
    RelinkRewrites(vm, r);
    RewriteConserves(View(vm), r) by { PreparedFaithful(vm, r); }
    RelinkPairsGood(vm, r);
    RelinkAllKnown(vm, r) by { ButKnown(vm, r.a, r.b); }
  }

  lemma PreparedFaithful(vm: Vm, r: Rewrite)
    requires Prepared(vm, r)
    ensures WellWired(View(vm)) && Faithful(View(vm), r)
  {
  }

  lemma ButKnown(vm: Vm, a: NodeId, b: NodeId)
    requires ConsistentBut(vm, a, b)
    ensures Known(vm)
  {
  }

  lemma IdsNext(vm: Vm, a: NodeId, b: NodeId)
    requires a in vm.nodes && b in vm.nodes
    ensures var ids := IdsAt(vm, a, b);
      forall i :: 0 <= i < |ids| ==> !Used(ids[i], vm.serial) && Used(ids[i], vm.serial + |ids|)
  {
  }

  /** The machine refines the net: a firing of the engine, reading and overwriting
      targets one at a time, is one rewrite of the net it holds, and the worklist
      again lists every reacting pair. */
  lemma MachineFires(vm: Vm, a: NodeId, b: NodeId)
    requires Setting(vm, a, b) && Regular(View(vm), a, b)
    ensures Fresh(View(vm), IdsAt(vm, a, b))
    ensures View(FireVm(vm, a, b)) == Fire(View(vm), a, b, IdsAt(vm, a, b))
    ensures Consistent(FireVm(vm, a, b))
  {
    hide Consistent, ConsistentBut, Prepared, WellWired;
    var r := RewriteAt(View(vm), a, b, IdsAt(vm, a, b));
    IdsFresh(vm, a, b);
    Prepares(vm, a, b);
    FireVmIsRelink(vm, a, b);
    FireIsRewrite(View(vm), a, b, IdsAt(vm, a, b));
    RelinkRewrites(vm, r);
    IdsNext(vm, a, b);
    RelinkConsistent(vm, r) by { SameBut(vm, a, b, r.a, r.b); }
  }

  lemma SameBut(vm: Vm, a: NodeId, b: NodeId, c: NodeId, d: NodeId)
    requires ConsistentBut(vm, a, b) && {a, b} == {c, d}
    ensures ConsistentBut(vm, c, d)
  {
  }
}
