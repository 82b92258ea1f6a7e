/** Seats: the places that the compiler's nodes get as they are made. Ids are numbered, so a node's
    number places it after everything made before it; what goes into a call or a switch is placed
    before it, and the body of a closure inside it. */
module Seats {
  import opened Wiring
  import opened Nets
  import opened Places

  /** Where the nodes are; the closures being compiled; and the calls and switches whose inputs are being compiled. */
  datatype Plan = Plan(firstOrder: bool, at: map<NodeId, Place>, open: Place, stem: seq<nat>)

  /** Everything that may be used now is before this place. */
  function Edge(f: Plan, serial: nat): Place {
    f.open + [At(f.stem + [serial], 0)]
  }

  /** The seat of the next node. */
  function Seat(f: Plan, serial: nat): Place {
    f.open + [At(f.stem + [serial, 1], 0)]
  }

  /** A fork of a source comes right after it. */
  function Bump(s: Place): Place {
    if s == [] then s
    else
      var last := s[|s| - 1];
      s[..|s| - 1] + [if last.At? then At(last.path, last.forks + 1) else At([-1], 0)]
  }

  function SeatIn(f: Plan, id: NodeId, k: Kind, src: Place): Plan
    requires id.Gensym?
  {
    var seat := Seat(f, id.serial);
    match k
    case Eraser => f
    case Duplicator => f.(at := f.at[id := Bump(src)])
    case Constructor => f.(at := f.at[id := seat], open := seat, stem := [])
    case Destructor => f.(at := f.at[id := seat], stem := f.stem + [id.serial, 0])
    case Switch => f.(at := f.at[id := seat], stem := f.stem + [id.serial, 0])
    case _ => f.(at := f.at[id := seat])
  }

  // ----- before -----

  predicate SlotClear(s: Slot, e: Slot) {
    e.At? && e.path != [] && e.path[0] >= 0 && (s == First || (s.At? && PathLess(s.path, e.path)))
  }

  /** Directly in one of the closures around e, and before e whatever is forked. */
  predicate Clear(u: Place, e: Place) {
    0 < |u| <= |e| && u[..|u| - 1] == e[..|u| - 1] && SlotClear(u[|u| - 1], e[|u| - 1])
  }

  predicate Before(u: Place, v: Place) {
    0 < |u| <= |v| && u[..|u| - 1] == v[..|u| - 1] && SlotLess(u[|u| - 1], v[|u| - 1])
  }

  lemma BeforeGoes(boxes: set<Place>, u: Place, v: Place)
    requires Before(u, v)
    ensures Less(u, v) && Goes(boxes, u, v)
  {
    var k := |u| - 1;
    var w := u[..k];
    assert u == w + [u[k]] && v == w + v[k..];
    LessUnder(w, [u[k]], v[k..]);
    forall b | b in boxes && Inside(b, u) ensures Inside(b, v) {
      assert b == u[..|b|] == w[..|b|] == v[..|b|];
    }
  }

  lemma ClearExtends(u: Place, e: Place, x: Place)
    requires Clear(u, e)
    ensures Clear(u, e + x)
  {
    assert (e + x)[..|u| - 1] == e[..|u| - 1];
  }

  lemma ClearThen(u: Place, w: Place, p: seq<int>, q: seq<int>)
    requires Clear(u, w + [At(p, 0)]) && (PathLess(p, q) || (p != [] && p <= q)) && q[0] >= 0
    ensures Clear(u, w + [At(q, 0)])
  {
    var e, f := w + [At(p, 0)], w + [At(q, 0)];
    var k := |u| - 1;
    assert e[..k] == w[..k] == f[..k];
    if k == |w| && u[k].At? {
      if PathLess(p, q) { PathTrans(u[k].path, p, q); }
      else {
        PathMore(u[k].path, p, [], q[|p|..]);
        assert u[k].path + [] == u[k].path && p + q[|p|..] == q;
      }
    }
  }

  lemma StemLess(stem: seq<nat>, k: nat, x: seq<int>, m: nat, y: seq<int>)
    requires k < m
    ensures PathLess(stem + [k] + x, stem + [m] + y)
  {
    assert stem + [k] + x == stem + ([k] + x) && stem + [m] + y == stem + ([m] + y);
    PathUnder(stem, [k] + x, [m] + y);
  }

  lemma NonNegative(stem: seq<nat>, k: nat)
    ensures (stem + [k])[0] >= 0
  {
  }

  /** As the numbers go up, what was clear stays clear. */
  lemma EdgeGrows(f: Plan, serial: nat, more: nat, u: Place, i: nat)
    requires serial <= more && i < |Edge(f, serial)| && Clear(u, Edge(f, serial)[..i + 1])
    ensures Clear(u, Edge(f, more)[..i + 1])
  {
    if i < |f.open| {
      assert Edge(f, more)[..i + 1] == Edge(f, serial)[..i + 1];
    } else if serial < more {
      assert Edge(f, more)[..i + 1] == Edge(f, more) && Edge(f, serial)[..i + 1] == Edge(f, serial);
      StemLess(f.stem, serial, [], more, []);
      assert f.stem + [serial] + [] == f.stem + [serial] && f.stem + [more] + [] == f.stem + [more];
      NonNegative(f.stem, more);
      ClearThen(u, f.open, f.stem + [serial], f.stem + [more]);
    }
  }

  lemma EdgeStarts(f: Plan, g: Plan, m: nat, n: nat, i: nat)
    requires i < |f.open| && f.open <= g.open
    ensures i < |Edge(f, m)| && i < |Edge(g, n)| && Edge(f, m)[..i + 1] == f.open[..i + 1] == Edge(g, n)[..i + 1]
  {
  }

  /** Whatever kind of node is made next. */
  lemma SeatInClear(f: Plan, id: NodeId, k: Kind, src: Place, u: Place, i: nat)
    requires id.Gensym? && i < |Edge(f, id.serial)| && Clear(u, Edge(f, id.serial)[..i + 1])
    ensures i < |Edge(SeatIn(f, id, k, src), id.serial + 1)| && Clear(u, Edge(SeatIn(f, id, k, src), id.serial + 1)[..i + 1])
  {
    var g, n := SeatIn(f, id, k, src), id.serial;
    if k in {Constructor, Destructor, Switch} {
      if i < |f.open| {
        assert f.open <= g.open;
        EdgeStarts(f, g, n, n + 1, i);
      } else {
        assert Edge(f, n)[..i + 1] == Edge(f, n);
        NonNegative(f.stem, n);
        if k == Constructor {
          assert f.stem + [n] <= f.stem + [n, 1];
          ClearThen(u, f.open, f.stem + [n], f.stem + [n, 1]);
          assert Edge(g, n + 1)[..i + 1] == Seat(f, n);
        } else {
          assert f.stem + [n] <= g.stem + [n + 1];
          ClearThen(u, f.open, f.stem + [n], g.stem + [n + 1]);
          assert Edge(g, n + 1)[..i + 1] == Edge(g, n + 1);
        }
      }
    } else {
      EdgeGrows(f, n, n + 1, u, i);
    }
  }

  /** The compiler is done with the inputs of the call or switch numbered k, or with the closure numbered k. */
  ghost predicate Closes(g: Plan, f: Plan, k: nat) {
    (g.open == f.open && g.stem == f.stem + [k, 0]) || g.open == Seat(f, k)
  }

  lemma ClosedClear(g: Plan, f: Plan, k: nat, serial: nat, u: Place, i: nat)
    requires Closes(g, f, k) && k < serial && i <= |f.open| && Clear(u, Edge(g, serial)[..i + 1])
    ensures Clear(u, Edge(f, serial)[..i + 1])
  {
    if i < |f.open| {
      assert Edge(g, serial)[..i + 1] == f.open[..i + 1] == Edge(f, serial)[..i + 1];
    } else {
      assert Edge(f, serial)[..i + 1] == Edge(f, serial);
      NonNegative(f.stem, serial);
      if g.open == f.open && g.stem == f.stem + [k, 0] {
        assert Edge(g, serial)[..i + 1] == Edge(g, serial);
        assert g.stem + [serial] == f.stem + [k] + [0, serial] && f.stem + [serial] + [] == f.stem + [serial];
        StemLess(f.stem, k, [0, serial], serial, []);
        ClearThen(u, f.open, g.stem + [serial], f.stem + [serial]);
      } else {
        assert Edge(g, serial)[..i + 1] == Seat(f, k);
        assert f.stem + [k, 1] == f.stem + [k] + [1] && f.stem + [serial] + [] == f.stem + [serial];
        StemLess(f.stem, k, [1], serial, []);
        ClearThen(u, f.open, f.stem + [k, 1], f.stem + [serial]);
      }
    }
  }

  /** A node is clear once its number is past. */
  lemma SeatClear(f: Plan, k: nat, serial: nat)
    requires k < serial
    ensures Clear(Seat(f, k), Edge(f, serial))
  {
    assert Seat(f, k)[..|f.open|] == f.open == Edge(f, serial)[..|f.open|];
    assert f.stem + [k, 1] == f.stem + [k] + [1] && f.stem + [serial] + [] == f.stem + [serial];
    StemLess(f.stem, k, [1], serial, []);
  }

  lemma ArgumentClear(f: Plan, serial: nat)
    ensures Clear(f.open + [First], Edge(f, serial))
  {
    assert (f.open + [First])[..|f.open|] == f.open == Edge(f, serial)[..|f.open|];
  }

  lemma BumpClear(u: Place, e: Place)
    requires Clear(u, e)
    ensures Clear(Bump(u), e) && Before(u, Bump(u))
  {
    var k := |u| - 1;
    assert Bump(u)[..k] == u[..k];
  }

  /** The place that what is being compiled goes to: the return path of the innermost closure, or the
      call or switch whose inputs are being compiled. */
  predicate Accepts(f: Plan, v: Place) {
    || v == f.open + [Last]
    || (f.stem != [] && f.stem[|f.stem| - 1] == 0 && v == f.open + [At(f.stem[..|f.stem| - 1] + [1], 0)])
  }

  lemma Fits(f: Plan, serial: nat, u: Place, v: Place)
    requires Clear(u, Edge(f, serial)) && Accepts(f, v)
    ensures Before(u, v)
  {
    var k := |u| - 1;
    assert Edge(f, serial)[..k] == f.open[..k] == v[..k];
    if k == |f.open| && u[k].At? && v[k].At? {
      var base := f.stem[..|f.stem| - 1];
      assert f.stem + [serial] == base + [0, serial];
      PathUnder(base, [0, serial], [1]);
      PathTrans(u[k].path, f.stem + [serial], base + [1]);
    }
  }

  lemma CallAccepts(f: Plan, id: NodeId, k: Kind, src: Place)
    requires id.Gensym? && k in {Constructor, Destructor, Switch}
    ensures Accepts(SeatIn(f, id, k, src), if k == Constructor then Seat(f, id.serial) + [Last] else Seat(f, id.serial))
  {
    if k != Constructor { assert (f.stem + [id.serial, 0])[..|f.stem| + 1] + [1] == f.stem + [id.serial, 1]; }
  }

  // ----- every node has a seat of its own -----

  ghost predicate ClosureAt(nodes: NodeMap, at: map<NodeId, Place>, b: Place) {
    exists c :: c in nodes && c in at && nodes[c].kind == Constructor && at[c] == b
  }

  ghost predicate Enclosed(nodes: NodeMap, at: map<NodeId, Place>, b: Place) {
    forall i :: 0 < i <= |b| ==> ClosureAt(nodes, at, b[..i])
  }

  predicate Tagged(n: NodeId, k: Kind, s: Place) {
    && n.Gensym? && s != [] && s[|s| - 1].At?
    && (k != Duplicator ==> var path := s[|s| - 1].path; |path| >= 2 && path[|path| - 2] == n.serial)
  }

  ghost predicate Seated(nodes: NodeMap, at: map<NodeId, Place>, n: NodeId) {
    n in nodes && n in at && nodes[n].kind != Eraser && Tagged(n, nodes[n].kind, at[n]) && Enclosed(nodes, at, at[n][..|at[n]| - 1])
  }

  ghost predicate AllSeated(nodes: NodeMap, f: Plan) {
    && (forall n :: n in nodes && nodes[n].kind != Eraser ==> n in f.at)
    && (forall n :: n in f.at ==> Seated(nodes, f.at, n))
    && Enclosed(nodes, f.at, f.open)
    && (forall n, m :: n in f.at && m in f.at && n.Gensym? && m.Gensym? && n.serial == m.serial ==> n == m)
  }

  /** The place of a port. */
  function SpotAt(nodes: NodeMap, at: map<NodeId, Place>, p: Port): Place
    requires p.owner in nodes && p.owner in at
  {
    if nodes[p.owner].kind != Constructor || p.index == 0 then at[p.owner]
    else if p.index == 1 then at[p.owner] + [First]
    else at[p.owner] + [Last]
  }

  lemma EnclosedMore(nodes: NodeMap, at: map<NodeId, Place>, id: NodeId, x: Node, s: Place, b: Place)
    requires Enclosed(nodes, at, b) && id !in nodes && id !in at
    ensures Enclosed(nodes[id := x], at, b) && Enclosed(nodes[id := x], at[id := s], b)
  {
    forall i | 0 < i <= |b| ensures ClosureAt(nodes[id := x], at, b[..i]) && ClosureAt(nodes[id := x], at[id := s], b[..i]) {
      assert ClosureAt(nodes, at, b[..i]);
      var c :| c in nodes && c in at && nodes[c].kind == Constructor && at[c] == b[..i];
    }
  }

  lemma SeatedMore(nodes: NodeMap, at: map<NodeId, Place>, id: NodeId, x: Node, s: Place, n: NodeId)
    requires Seated(nodes, at, n) && id !in nodes && id !in at
    ensures Seated(nodes[id := x], at, n) && Seated(nodes[id := x], at[id := s], n)
  {
    EnclosedMore(nodes, at, id, x, s, at[n][..|at[n]| - 1]);
  }

  lemma AddSeat(nodes: NodeMap, f: Plan, id: NodeId, x: Node, src: Place)
    requires AllSeated(nodes, f) && id !in nodes && id.Gensym? && forall n :: n in f.at && n.Gensym? ==> n.serial != id.serial
    requires x.kind == Duplicator ==> src != [] && Enclosed(nodes, f.at, src[..|src| - 1])
    ensures AllSeated(nodes[id := x], SeatIn(f, id, x.kind, src))
  {
    hide Enclosed, Seated, Seat;
    var all, g := nodes[id := x], SeatIn(f, id, x.kind, src);
    if x.kind == Eraser {
      forall n | n in g.at ensures Seated(all, g.at, n) { SeatedMore(nodes, f.at, id, x, [], n); }
      EnclosedMore(nodes, f.at, id, x, [], f.open);
    } else {
      var s := g.at[id];
      EnclosedMore(nodes, f.at, id, x, s, f.open);
      NewSeat(nodes, f, id, x, src);
      forall n | n in g.at ensures Seated(all, g.at, n) { if n != id { SeatedMore(nodes, f.at, id, x, s, n); } }
      if x.kind == Constructor { OpenSeat(all, g, id); }
    }
  }

  lemma NewSeat(nodes: NodeMap, f: Plan, id: NodeId, x: Node, src: Place)
    requires AllSeated(nodes, f) && id !in nodes && id.Gensym? && x.kind != Eraser && id !in f.at
    requires x.kind == Duplicator ==> src != [] && Enclosed(nodes, f.at, src[..|src| - 1])
    ensures Seated(nodes[id := x], SeatIn(f, id, x.kind, src).at, id)
    ensures x.kind == Constructor ==> var g := SeatIn(f, id, x.kind, src); g.open == g.at[id] != [] && Enclosed(nodes[id := x], g.at, g.open[..|g.open| - 1])
  {
    hide Enclosed;
    var s := SeatIn(f, id, x.kind, src).at[id];
    var k := |s| - 1;
    if x.kind == Duplicator {
      assert s[..k] == src[..|src| - 1];
      EnclosedMore(nodes, f.at, id, x, s, src[..|src| - 1]);
    } else {
      assert s[..k] == f.open;
      EnclosedMore(nodes, f.at, id, x, s, f.open);
    }
  }

  lemma OpenSeat(nodes: NodeMap, g: Plan, id: NodeId)
    requires id in nodes && id in g.at && nodes[id].kind == Constructor && g.open == g.at[id] && g.open != []
    requires Enclosed(nodes, g.at, g.open[..|g.open| - 1])
    ensures Enclosed(nodes, g.at, g.open)
  {
    var k := |g.open| - 1;
    forall i | 0 < i <= |g.open| ensures ClosureAt(nodes, g.at, g.open[..i]) {
      if i <= k { assert g.open[..k][..i] == g.open[..i]; } else { assert g.open[..i] == g.open; }
    }
  }

  /** Without duplicators no two nodes have one seat, and only closures have others inside. */
  lemma SeatsSpread(nodes: NodeMap, f: Plan, n: NodeId, m: NodeId)
    requires AllSeated(nodes, f) && n in f.at && m in f.at && n != m
    requires forall k :: k in nodes ==> nodes[k].kind != Duplicator
    ensures f.at[n] != f.at[m] && (Inside(f.at[n], f.at[m]) ==> nodes[n].kind == Constructor)
  {
    assert Seated(nodes, f.at, n) && Seated(nodes, f.at, m);
    if Inside(f.at[n], f.at[m]) {
      var i := |f.at[n]|;
      assert f.at[m][..|f.at[m]| - 1][..i] == f.at[m][..i] == f.at[n];
      assert ClosureAt(nodes, f.at, f.at[n]);
      var c :| c in nodes && c in f.at && nodes[c].kind == Constructor && f.at[c] == f.at[n];
      assert Seated(nodes, f.at, c);
    }
  }
}
