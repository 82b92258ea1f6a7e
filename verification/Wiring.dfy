/** Ports and the wires between them, as a partial involution, and the three
    local edits every rewrite rule is made of (core/hin_vm.py, Port and _link). */
module Wiring {
  import opened MellTypes

  datatype Kind = Constructor | Destructor | Duplicator | Eraser | Value | Switch | Projection | Boundary

  /** A node id: chosen by a caller, or "<symbol>#<serial>" from the net's own counter. */
  datatype NodeId = Named(name: string) | Gensym(symbol: Kind, serial: nat)

  /** Index 0 is the principal port; index k > 0 is the auxiliary port aux[k-1]. */
  datatype Port = Port(owner: NodeId, index: nat)

  function P(n: NodeId): Port { Port(n, 0) }

  function A(n: NodeId, i: nat): Port { Port(n, i + 1) }

  /** A port absent from the map is free (its target is None). */
  type Wires = map<Port, Port>

  function Look(w: Wires, p: Port): Option<Port> {
    if p in w then Some(w[p]) else None
  }

  /** Every bound port is bound symmetrically, and to another port. */
  ghost predicate Paired(w: Wires) {
    forall p :: p in w ==> w[p] in w && w[w[p]] == p && w[p] != p
  }

  /** Splice(x, y): drop x and y and join what was on their far ends.
      Graft(x, heir): heir takes over whatever x was bound to.
      Join(x, y): wire two fresh ports. */
  datatype Op = Splice(x: Port, y: Port) | Graft(x: Port, heir: Port) | Join(x: Port, y: Port) {
    function Old(): set<Port> {
      match this
      case Splice(x, y) => {x, y}
      case Graft(x, _) => {x}
      case Join(_, _) => {}
    }

    function New(): set<Port> {
      match this
      case Splice(_, _) => {}
      case Graft(_, f) => {f}
      case Join(x, y) => {x, y}
    }

    function Ports(): set<Port> { Old() + New() }

    /** The two ports of a two-port edit are different. */
    predicate Proper() {
      match this
      case Splice(x, y) => x != y
      case Graft(x, f) => x != f
      case Join(x, y) => x != y
    }
  }

  /** Where p leads after an edit. */
  function LookAfter(w: Wires, op: Op, p: Port): Option<Port> {
    match op
    case Splice(x, y) =>
      if p == x || p == y then None
      else if Look(w, p) == Some(x) then Look(w, y)
      else if Look(w, p) == Some(y) then Look(w, x)
      else Look(w, p)
    case Graft(x, f) =>
      if p == x then None
      else if p == f then Look(w, x)
      else if Look(w, p) == Some(x) then Some(f)
      else Look(w, p)
    case Join(x, y) =>
      if p == x then Some(y)
      else if p == y then Some(x)
      else Look(w, p)
  }

  function Apply(w: Wires, op: Op): (r: Wires)
    ensures forall p :: Look(r, p) == LookAfter(w, op, p)
  {
    map p | p in w.Keys + op.New() && LookAfter(w, op, p).Some? :: LookAfter(w, op, p).value
  }

  function ApplyAll(w: Wires, ops: seq<Op>): Wires
    decreases ops
  {
    if ops == [] then w else ApplyAll(Apply(w, ops[0]), ops[1..])
  }

  /** A port that no edit touches, nor its far end, is left alone. */
  lemma {:induction false} LookUntouched(w: Wires, ops: seq<Op>, p: Port)
    requires forall k :: 0 <= k < |ops| ==> p !in ops[k].Ports() && (p in w ==> w[p] !in ops[k].Ports())
    ensures Look(ApplyAll(w, ops), p) == Look(w, p)
    decreases ops
  {
    if ops != [] {
      assert p !in ops[0].Ports() && (p in w ==> w[p] !in ops[0].Ports());
      assert Look(Apply(w, ops[0]), p) == LookAfter(w, ops[0], p);
      LookUntouched(Apply(w, ops[0]), ops[1..], p);
    }
  }

  lemma SameLooks(v: Wires, w: Wires)
    requires forall p :: Look(v, p) == Look(w, p)
    ensures v == w
  {
    forall p ensures p in v <==> p in w { assert Look(v, p) == Look(w, p); }
    forall p | p in v ensures v[p] == w[p] { assert Look(v, p) == Look(w, p); }
  }

  /** An edit may run on w: its ports differ and the ones it introduces are unused. */
  ghost predicate Ready(w: Wires, op: Op) {
    op.Proper() && op.New() !! w.Keys
  }

  lemma ApplyPaired(w: Wires, op: Op)
    requires Paired(w) && Ready(w, op)
    ensures Paired(Apply(w, op))
    ensures Apply(w, op).Keys <= w.Keys - op.Old() + op.New()
  {
    var r := Apply(w, op);
    forall p | p in r
      ensures p in w.Keys - op.Old() + op.New()
      ensures r[p] in r && r[r[p]] == p && r[p] != p
    {
      assert Look(r, p) == LookAfter(w, op, p);
      assert Look(r, r[p]) == LookAfter(w, op, r[p]);
    }
  }

  /** On a closed wiring no port is lost: the edit removes exactly its old ports
      and adds exactly its new ones. */
  lemma ApplyKeys(w: Wires, op: Op)
    requires Paired(w) && Ready(w, op) && op.Old() <= w.Keys
    ensures Apply(w, op).Keys == w.Keys - op.Old() + op.New()
  {
  }

  lemma SplicesCommute(w: Wires, x: Port, y: Port, u: Port, v: Port, p: Port)
    requires Paired(w) && x != y && u != v && {x, y} !! {u, v}
    ensures LookAfter(Apply(w, Splice(x, y)), Splice(u, v), p) == LookAfter(Apply(w, Splice(u, v)), Splice(x, y), p)
  {
    if p != x && p != y && p != u && p != v && p in w {
      SplicedFar(w, x, y, u, v, p);
    }
  }

  lemma SplicedFar(w: Wires, x: Port, y: Port, u: Port, v: Port, p: Port)
    requires Paired(w) && x != y && u != v && {x, y} !! {u, v} && p !in {x, y, u, v} && p in w
    ensures LookAfter(Apply(w, Splice(x, y)), Splice(u, v), p) == LookAfter(Apply(w, Splice(u, v)), Splice(x, y), p)
  {
  }

  lemma SpliceCommutes(w: Wires, x: Port, y: Port, f: Op, p: Port)
    requires Paired(w) && x != y && Ready(w, f) && {x, y} !! f.Ports() && !f.Splice?
    ensures LookAfter(Apply(w, Splice(x, y)), f, p) == LookAfter(Apply(w, f), Splice(x, y), p)
  {
    match f
    case Graft(u, h) =>
    case Join(u, v) =>
  }

  lemma GraftCommutes(w: Wires, x: Port, h: Port, f: Op, p: Port)
    requires Paired(w) && x != h && h !in w && Ready(w, f) && {x, h} !! f.Ports() && !f.Splice?
    ensures LookAfter(Apply(w, Graft(x, h)), f, p) == LookAfter(Apply(w, f), Graft(x, h), p)
  {
  }

  lemma CommuteAt(w: Wires, e: Op, f: Op, p: Port)
    requires Paired(w) && Ready(w, e) && Ready(w, f) && e.Ports() !! f.Ports()
    ensures LookAfter(Apply(w, e), f, p) == LookAfter(Apply(w, f), e, p)
  {
    if e.Splice? && f.Splice? { SplicesCommute(w, e.x, e.y, f.x, f.y, p); }
    else if e.Splice? { SpliceCommutes(w, e.x, e.y, f, p); }
    else if f.Splice? { SpliceCommutes(w, f.x, f.y, e, p); }
    else if e.Graft? { GraftCommutes(w, e.x, e.heir, f, p); }
    else if f.Graft? { GraftCommutes(w, f.x, f.heir, e, p); }
  }

  /** Two edits on disjoint ports commute, even when the wires of one end in the
      ports of the other. */
  lemma EditsCommute(w: Wires, e: Op, f: Op)
    requires Paired(w) && Ready(w, e) && Ready(w, f) && e.Ports() !! f.Ports()
    ensures Apply(Apply(w, e), f) == Apply(Apply(w, f), e)
  {
    var l, r := Apply(Apply(w, e), f), Apply(Apply(w, f), e);
    forall p ensures Look(l, p) == Look(r, p) {
      CommuteAt(w, e, f, p);
    }
    SameLooks(l, r);
  }

  // ----- lists of edits -----

  function OldPorts(ops: seq<Op>): set<Port> {
    if ops == [] then {} else ops[0].Old() + OldPorts(ops[1..])
  }

  function NewPorts(ops: seq<Op>): set<Port> {
    if ops == [] then {} else ops[0].New() + NewPorts(ops[1..])
  }

  lemma PortsOfMember(ops: seq<Op>, i: nat)
    requires i < |ops|
    ensures ops[i].Old() <= OldPorts(ops) && ops[i].New() <= NewPorts(ops)
  {
    if i > 0 { PortsOfMember(ops[1..], i - 1); }
  }

  /** No port is touched twice. */
  ghost predicate Linear(w: Wires, ops: seq<Op>) {
    && (forall i :: 0 <= i < |ops| ==> Ready(w, ops[i]))
    && (forall i, j :: 0 <= i < j < |ops| ==> ops[i].Ports() !! ops[j].Ports())
  }

  lemma LinearRest(w: Wires, ops: seq<Op>)
    requires Paired(w) && Linear(w, ops) && ops != []
    ensures Paired(Apply(w, ops[0])) && Linear(Apply(w, ops[0]), ops[1..])
  {
    assert Ready(w, ops[0]);
    ApplyPaired(w, ops[0]);
    forall i | 0 <= i < |ops[1..]| ensures Ready(Apply(w, ops[0]), ops[1..][i]) {
      assert ops[1..][i] == ops[i + 1] && Ready(w, ops[i + 1]) && ops[0].Ports() !! ops[i + 1].Ports();
    }
  }

  lemma {:induction false} ApplyAllPaired(w: Wires, ops: seq<Op>)
    requires Paired(w) && Linear(w, ops)
    ensures Paired(ApplyAll(w, ops))
    ensures ApplyAll(w, ops).Keys <= w.Keys - OldPorts(ops) + NewPorts(ops)
    decreases ops
  {
    if ops != [] {
      LinearRest(w, ops);
      assert Ready(w, ops[0]);
      ApplyPaired(w, ops[0]);
      ApplyAllPaired(Apply(w, ops[0]), ops[1..]);
      OldNewApart(w, ops);
    }
  }

  lemma OldNewApart(w: Wires, ops: seq<Op>)
    requires Linear(w, ops) && ops != []
    ensures ops[0].Ports() !! OldPorts(ops[1..]) + NewPorts(ops[1..])
    decreases |ops|
  {
    if |ops| > 1 {
      var ops' := [ops[0]] + ops[2..];
      assert forall i :: 1 <= i < |ops'| ==> ops'[i] == ops[i + 1];
      assert Linear(w, ops') by {
        forall i | 0 <= i < |ops'| ensures Ready(w, ops'[i]) { assert Ready(w, ops[if i == 0 then 0 else i + 1]); }
      }
      OldNewApart(w, ops');
      assert ops'[1..] == ops[1..][1..];
    }
  }

  lemma {:induction false} ApplyAllKeys(w: Wires, ops: seq<Op>)
    requires Paired(w) && Linear(w, ops) && OldPorts(ops) <= w.Keys
    ensures ApplyAll(w, ops).Keys == w.Keys - OldPorts(ops) + NewPorts(ops)
    decreases ops
  {
    if ops != [] {
      LinearRest(w, ops);
      assert Ready(w, ops[0]);
      ApplyKeys(w, ops[0]);
      OldNewApart(w, ops);
      ApplyAllKeys(Apply(w, ops[0]), ops[1..]);
    }
  }

  ghost predicate Apart(ops: seq<Op>, more: seq<Op>) {
    forall i, j :: 0 <= i < |ops| && 0 <= j < |more| ==> ops[i].Ports() !! more[j].Ports()
  }

  lemma {:induction false} EditCommutesWithAll(w: Wires, e: Op, ops: seq<Op>)
    requires Paired(w) && Ready(w, e) && Linear(w, ops) && Apart([e], ops)
    ensures ApplyAll(Apply(w, e), ops) == Apply(ApplyAll(w, ops), e)
    decreases ops
  {
    if ops != [] {
      var f := ops[0];
      assert Ready(w, f) && [e][0].Ports() !! f.Ports();
      EditsCommute(w, e, f);
      LinearRest(w, ops);
      LinearRest(w, [f, e]);
      assert Ready(Apply(w, f), [f, e][1..][0]);
      assert Apart([e], ops[1..]) by {
        forall j | 0 <= j < |ops[1..]| ensures [e][0].Ports() !! ops[1..][j].Ports() { assert ops[1..][j] == ops[j + 1]; }
      }
      EditCommutesWithAll(Apply(w, f), e, ops[1..]);
    }
  }

  lemma {:induction false} EditListsCommute(w: Wires, ops: seq<Op>, more: seq<Op>)
    requires Paired(w) && Linear(w, ops) && Linear(w, more) && Apart(ops, more)
    ensures ApplyAll(ApplyAll(w, ops), more) == ApplyAll(ApplyAll(w, more), ops)
    decreases ops
  {
    if ops != [] {
      var e := ops[0];
      assert Ready(w, e);
      assert Apart([e], more) && Apart(ops[1..], more);
      LinearRest(w, ops);
      LinearAfter(w, e, more);
      EditListsCommute(Apply(w, e), ops[1..], more);
      EditCommutesWithAll(w, e, more);
    }
  }

  lemma LinearAfter(w: Wires, e: Op, more: seq<Op>)
    requires Paired(w) && Ready(w, e) && Linear(w, more) && Apart([e], more)
    ensures Linear(Apply(w, e), more)
  {
    ApplyPaired(w, e);
    forall i | 0 <= i < |more| ensures Ready(Apply(w, e), more[i]) {
      assert Ready(w, more[i]) && [e][0].Ports() !! more[i].Ports();
    }
  }

  // ----- relations that every wire satisfies -----

  ghost predicate Related(w: Wires, rel: (Port, Port) -> bool) {
    forall p :: p in w ==> rel(p, w[p])
  }

  /** The edit only creates related wires, whatever was on the far ends. */
  ghost predicate Bridges(op: Op, rel: (Port, Port) -> bool) {
    match op
    case Splice(x, y) => forall s, t :: rel(s, x) && rel(y, t) ==> rel(s, t)
    case Graft(x, h) => forall s :: rel(s, x) ==> rel(s, h)
    case Join(x, y) => rel(x, y)
  }

  lemma ApplyRelated(w: Wires, op: Op, rel: (Port, Port) -> bool)
    requires Paired(w) && Ready(w, op) && Related(w, rel) && Bridges(op, rel)
    requires forall s, t :: rel(s, t) ==> rel(t, s)
    ensures Related(Apply(w, op), rel)
  {
  }

  lemma {:induction false} ApplyAllRelated(w: Wires, ops: seq<Op>, rel: (Port, Port) -> bool)
    requires Paired(w) && Linear(w, ops) && Related(w, rel)
    requires forall i :: 0 <= i < |ops| ==> Bridges(ops[i], rel)
    requires forall s, t :: rel(s, t) ==> rel(t, s)
    ensures Related(ApplyAll(w, ops), rel)
    decreases ops
  {
    if ops != [] {
      assert Ready(w, ops[0]) && Bridges(ops[0], rel);
      ApplyRelated(w, ops[0], rel);
      LinearRest(w, ops);
      ApplyAllRelated(Apply(w, ops[0]), ops[1..], rel);
    }
  }

  // ----- renaming node ids -----

  ghost predicate Inverse(f: map<NodeId, NodeId>, g: map<NodeId, NodeId>) {
    && (forall n :: n in f ==> f[n] in g && g[f[n]] == n)
    && (forall m :: m in g ==> g[m] in f && f[g[m]] == m)
  }

  function Rename(f: map<NodeId, NodeId>, p: Port): Port {
    if p.owner in f then Port(f[p.owner], p.index) else p
  }

  function RenameTarget(f: map<NodeId, NodeId>, t: Option<Port>): Option<Port> {
    if t.Some? then Some(Rename(f, t.value)) else None
  }

  function RenameOp(f: map<NodeId, NodeId>, op: Op): Op {
    match op
    case Splice(x, y) => Splice(Rename(f, x), Rename(f, y))
    case Graft(x, h) => Graft(Rename(f, x), Rename(f, h))
    case Join(x, y) => Join(Rename(f, x), Rename(f, y))
  }

  ghost predicate Within(f: map<NodeId, NodeId>, op: Op) {
    forall p :: p in op.Ports() ==> p.owner in f
  }

  ghost predicate AlikeAt(f: map<NodeId, NodeId>, w: Wires, v: Wires, p: Port) {
    Look(v, Rename(f, p)) == RenameTarget(f, Look(w, p))
  }

  /** v is w with its owners renamed by f, and g undoes f. */
  ghost predicate Alike(f: map<NodeId, NodeId>, g: map<NodeId, NodeId>, w: Wires, v: Wires) {
    && Inverse(f, g)
    && (forall p :: p in w ==> p.owner in f && w[p].owner in f)
    && (forall q :: q in v ==> q.owner in g)
    && (forall p: Port {:trigger AlikeAt(f, w, v, p)} :: p.owner in f ==> AlikeAt(f, w, v, p))
  }

  lemma RenameInjective(f: map<NodeId, NodeId>, g: map<NodeId, NodeId>, p: Port, q: Port)
    requires Inverse(f, g) && p.owner in f && q.owner in f
    ensures Rename(f, p) == Rename(f, q) <==> p == q
  {
  }

  lemma LookAfterAlike(f: map<NodeId, NodeId>, g: map<NodeId, NodeId>, w: Wires, v: Wires, op: Op, p: Port)
    requires Alike(f, g, w, v) && Within(f, op) && p.owner in f
    ensures LookAfter(v, RenameOp(f, op), Rename(f, p)) == RenameTarget(f, LookAfter(w, op, p))
  {
    assert AlikeAt(f, w, v, p);
    match op
    case Splice(x, y) =>
      assert x in op.Ports() && y in op.Ports();
      assert AlikeAt(f, w, v, x) && AlikeAt(f, w, v, y);
      RenameInjective(f, g, p, x);
      RenameInjective(f, g, p, y);
      if p in w {
        RenameInjective(f, g, w[p], x);
        RenameInjective(f, g, w[p], y);
      }
    case Graft(x, h) =>
      assert x in op.Ports() && h in op.Ports();
      assert AlikeAt(f, w, v, x);
      RenameInjective(f, g, p, x);
      RenameInjective(f, g, p, h);
      if p in w { RenameInjective(f, g, w[p], x); }
    case Join(x, y) =>
      assert x in op.Ports() && y in op.Ports();
      RenameInjective(f, g, p, x);
      RenameInjective(f, g, p, y);
  }

  /** An edit stays among the nodes that f knows. */
  lemma ApplyWithin(f: map<NodeId, NodeId>, w: Wires, op: Op)
    requires Within(f, op) && forall p :: p in w ==> p.owner in f && w[p].owner in f
    ensures forall p :: p in Apply(w, op) ==> p.owner in f && Apply(w, op)[p].owner in f
  {
  }

  lemma KeysWithin(g: map<NodeId, NodeId>, v: Wires, op: Op)
    requires Within(g, op) && forall q :: q in v ==> q.owner in g
    ensures forall q :: q in Apply(v, op) ==> q.owner in g
  {
  }

  lemma ApplyAlike(f: map<NodeId, NodeId>, g: map<NodeId, NodeId>, w: Wires, v: Wires, op: Op)
    requires Alike(f, g, w, v) && Within(f, op)
    ensures Alike(f, g, Apply(w, op), Apply(v, RenameOp(f, op)))
  {
    var op' := RenameOp(f, op);
    forall p: Port | p.owner in f ensures AlikeAt(f, Apply(w, op), Apply(v, op'), p) {
      LookAfterAlike(f, g, w, v, op, p);
    }
    ApplyWithin(f, w, op);
    assert Within(g, op') by {
      match op
      case Splice(x, y) => assert x in op.Ports() && y in op.Ports();
      case Graft(x, h) => assert x in op.Ports() && h in op.Ports();
      case Join(x, y) => assert x in op.Ports() && y in op.Ports();
    }
    KeysWithin(g, v, op');
  }

  function RenameOps(f: map<NodeId, NodeId>, ops: seq<Op>): (r: seq<Op>)
    ensures |r| == |ops|
    ensures forall i :: 0 <= i < |ops| ==> r[i] == RenameOp(f, ops[i])
  {
    seq(|ops|, i requires 0 <= i < |ops| => RenameOp(f, ops[i]))
  }

  lemma {:induction false} ApplyAllAlike(f: map<NodeId, NodeId>, g: map<NodeId, NodeId>, w: Wires, v: Wires, ops: seq<Op>)
    requires Alike(f, g, w, v)
    requires forall i :: 0 <= i < |ops| ==> Within(f, ops[i])
    ensures Alike(f, g, ApplyAll(w, ops), ApplyAll(v, RenameOps(f, ops)))
    decreases ops
  {
    if ops != [] {
      ApplyAlike(f, g, w, v, ops[0]);
      assert RenameOps(f, ops)[1..] == RenameOps(f, ops[1..]);
      ApplyAllAlike(f, g, Apply(w, ops[0]), Apply(v, RenameOp(f, ops[0])), ops[1..]);
    }
  }
}
