/** What the ports of a net under construction stand for, as terms: the ends of a wire agree, copies
    equal their source, and the output of a switch, a closure or an application is built from the
    terms at its other ports. For first-order nets the values of the terms label the net. */
module Annotation {
  import opened MellTypes
  import opened Wiring
  import opened Nets
  import opened Polarity
  import opened Dataflow
  import opened Programs
  import L = Labelling

  type Terms = map<Port, Term>

  /** An output has a term exactly when all inputs of its node have, and then the right one. The
      argument wire of a closure has one from the start. */
  ghost predicate NodeReads(l: Terms, n: NodeId, x: Node) {
    match x.kind
    case Value => P(n) in l && l[P(n)] == Lit(x.payload)
    case Duplicator =>
      && (A(n, 0) in l <==> P(n) in l) && (A(n, 1) in l <==> P(n) in l)
      && (P(n) in l ==> l[A(n, 0)] == l[A(n, 1)] == l[P(n)])
    case Switch =>
      && (A(n, 2) in l <==> P(n) in l && A(n, 0) in l && A(n, 1) in l)
      && (A(n, 2) in l ==> l[A(n, 2)] == Choice(l[P(n)], l[A(n, 0)], l[A(n, 1)]))
    case Constructor =>
      && A(n, 0) in l && (P(n) in l <==> A(n, 1) in l)
      && (P(n) in l ==> l[P(n)] == Fun(l[A(n, 0)], l[A(n, 1)]))
    case Destructor =>
      && (A(n, 1) in l <==> P(n) in l && A(n, 0) in l)
      && (A(n, 1) in l ==> l[A(n, 1)] == Apply(l[P(n)], l[A(n, 0)]))
    case _ => true
  }

  ghost predicate SameTerm(l: Terms, p: Port, q: Port) {
    p in l && q in l && l[p] == l[q]
  }

  predicate IsOutput(nodes: NodeMap, p: Port)
    requires p.owner in nodes
  {
    FlowOf(nodes[p.owner].kind, p.index) == Out
  }

  /** The kinds of node that the compiler makes. */
  const COMPILED: set<Kind> := {Value, Duplicator, Eraser, Switch, Constructor, Destructor}

  /** Port types as the compiler leaves them, at their defaults. */
  predicate Plain(x: Node) {
    && x.kind in COMPILED
    && match x.kind
       case Value => x == ValueNode(x.payload, UNIT)
       case Duplicator => x == DuplicatorNode(UNIT)
       case Eraser => x == EraserNode()
       case Switch => x == SwitchNode(UNIT)
       case Constructor => x == ConstructorNode(UNIT, UNIT)
       case Destructor => x == DestructorNode(UNIT, UNIT)
       case _ => false
  }

  /** The compiler makes its nodes under ids of its own. */
  predicate Compiled(n: NodeId, x: Node) {
    n.Gensym? && Plain(x)
  }

  /** A duplicator reads from a node made before it. */
  predicate Forward(nodes: NodeMap, p: Port, q: Port)
    requires q.owner in nodes
  {
    nodes[q.owner].kind == Duplicator && q.index == 0 ==>
      p.owner.Gensym? && q.owner.Gensym? && p.owner.serial < q.owner.serial
  }

  /** An input that is capped has no term to read. */
  ghost predicate CapsMissing(nodes: NodeMap, w: Wires, l: Terms, n: NodeId)
    requires n in nodes
  {
    nodes[n].kind == Eraser && P(n) in w && w[P(n)].owner in nodes && !IsOutput(nodes, w[P(n)]) ==> P(n) in l && l[P(n)] == Missing
  }

  /** An input has a term once it is wired. */
  ghost predicate Annotated(nodes: NodeMap, w: Wires, l: Terms) {
    && (forall p :: p in w ==> SameTerm(l, p, w[p]))
    && (forall p :: p in l ==> p.owner in nodes && (p in w || IsOutput(nodes, p)))
    && (forall n :: n in nodes ==> NodeReads(l, n, nodes[n]))
    && (forall n :: n in nodes ==> Compiled(n, nodes[n]))
    && AllForward(nodes, w) && AllCaps(nodes, w, l) && AllRead(nodes, w, l)
  }

  /** Only a cap leaves a wire without a term to read. */
  ghost predicate ReadAt(nodes: NodeMap, l: Terms, p: Port, q: Port) {
    p.owner in nodes && q.owner in nodes && p in l && l[p] == Missing ==> nodes[p.owner].kind == Eraser || nodes[q.owner].kind == Eraser
  }

  ghost predicate AllRead(nodes: NodeMap, w: Wires, l: Terms) {
    forall p :: p in w ==> ReadAt(nodes, l, p, w[p])
  }

  ghost predicate AllForward(nodes: NodeMap, w: Wires) {
    forall p :: p in w && p.owner in nodes ==> Forward(nodes, w[p], p)
  }

  ghost predicate AllCaps(nodes: NodeMap, w: Wires, l: Terms) {
    forall n {:trigger CapsMissing(nodes, w, l, n)} :: n in nodes ==> CapsMissing(nodes, w, l, n)
  }

  ghost predicate Extends(l: Terms, more: Terms) {
    forall p :: p in l ==> p in more && more[p] == l[p]
  }

  // ----- a new node -----

  function WithNode(l: Terms, n: NodeId, x: Node, arg: Term): Terms {
    if x.kind == Value then l[P(n) := Lit(x.payload)]
    else if x.kind == Constructor then l[A(n, 0) := arg]
    else l
  }

  lemma NewReads(l: Terms, n: NodeId, x: Node, arg: Term)
    requires forall p :: p in l ==> p.owner != n
    ensures NodeReads(WithNode(l, n, x, arg), n, x)
  {
  }

  lemma OtherReads(l: Terms, more: Terms, n: NodeId, x: Node)
    requires NodeReads(l, n, x)
    requires forall i: nat :: (Port(n, i) in more <==> Port(n, i) in l) && (Port(n, i) in l ==> more[Port(n, i)] == l[Port(n, i)])
    ensures NodeReads(more, n, x)
  {
  }

  lemma AnnotateNode(nodes: NodeMap, w: Wires, l: Terms, n: NodeId, x: Node, arg: Term)
    requires Annotated(nodes, w, l) && n !in nodes && Compiled(n, x)
    ensures Annotated(nodes[n := x], w, WithNode(l, n, x, arg)) && Extends(l, WithNode(l, n, x, arg))
  {
    hide NodeReads, AllCaps, AllForward, AllRead;
    var all, more := nodes[n := x], WithNode(l, n, x, arg);
    MoreTerms(nodes, w, l, n, x, arg);
    forall k | k in all ensures NodeReads(more, k, all[k]) {
      if k != n {
        assert NodeReads(l, k, nodes[k]);
        OtherReads(l, more, k, nodes[k]);
      } else {
        NewReads(l, n, x, arg);
      }
    }
    forall p | p in w ensures SameTerm(more, p, w[p]) { assert SameTerm(l, p, w[p]); }
    NewCaps(nodes, w, l, n, x, arg);
    NewRead(nodes, w, l, n, x, arg);
  }

  lemma NewCaps(nodes: NodeMap, w: Wires, l: Terms, n: NodeId, x: Node, arg: Term)
    requires Annotated(nodes, w, l) && n !in nodes && Extends(l, WithNode(l, n, x, arg))
    ensures AllForward(nodes[n := x], w) && AllCaps(nodes[n := x], w, WithNode(l, n, x, arg))
  {
    hide NodeReads, WithNode;
    var all := nodes[n := x];
    forall p | p in w && p.owner in all ensures Forward(all, w[p], p) { assert SameTerm(l, p, w[p]) && Forward(nodes, w[p], p); }
    forall k | k in all ensures CapsMissing(all, w, WithNode(l, n, x, arg), k) {
      if P(k) in w { assert SameTerm(l, P(k), w[P(k)]) && CapsMissing(nodes, w, l, k); }
    }
  }

  lemma NewRead(nodes: NodeMap, w: Wires, l: Terms, n: NodeId, x: Node, arg: Term)
    requires Annotated(nodes, w, l) && n !in nodes && Extends(l, WithNode(l, n, x, arg))
    ensures AllRead(nodes[n := x], w, WithNode(l, n, x, arg))
  {
    hide NodeReads, WithNode, AllForward, AllCaps;
    forall p | p in w ensures ReadAt(nodes[n := x], WithNode(l, n, x, arg), p, w[p]) { assert SameTerm(l, p, w[p]) && ReadAt(nodes, l, p, w[p]); }
  }

  lemma MoreTerms(nodes: NodeMap, w: Wires, l: Terms, n: NodeId, x: Node, arg: Term)
    requires Annotated(nodes, w, l) && n !in nodes
    ensures Extends(l, WithNode(l, n, x, arg))
  {
  }

  // ----- a new wire -----

  /** The terms once the input q reads v. */
  function WithInput(l: Terms, q: Port, v: Term, x: Node): Terms {
    var (n, more) := (q.owner, l[q := v]);
    match x.kind
    case Duplicator => more[A(n, 0) := v][A(n, 1) := v]
    case Switch =>
      if P(n) in more && A(n, 0) in more && A(n, 1) in more
      then more[A(n, 2) := Choice(more[P(n)], more[A(n, 0)], more[A(n, 1)])] else more
    case Constructor => if A(n, 0) in more then more[P(n) := Fun(more[A(n, 0)], v)] else more
    case Destructor =>
      if P(n) in more && A(n, 0) in more then more[A(n, 1) := Apply(more[P(n)], more[A(n, 0)])] else more
    case _ => more
  }

  predicate Takes(x: Node, q: Port) {
    match x.kind
    case Duplicator => q.index == 0
    case Switch => q.index < 3
    case Constructor => q.index == 2
    case Destructor => q.index < 2
    case Eraser => q.index == 0
    case _ => false
  }

  /** The term that p brings along: its own, or none if it is the port of an eraser, which caps. */
  function Brings(l: Terms, p: Port): Term {
    if p in l then l[p] else Missing
  }

  ghost predicate MayWire(nodes: NodeMap, w: Wires, l: Terms, p: Port, q: Port) {
    && p !in w && q !in w && p != q && p.owner in nodes && q.owner in nodes
    && Takes(nodes[q.owner], q) && Forward(nodes, p, q)
    && (nodes[p.owner].kind == Eraser || nodes[q.owner].kind == Eraser || Brings(l, p) != Missing)
    && if nodes[p.owner].kind == Eraser then p !in l && p.index == 0 && p.owner != q.owner else p in l && IsOutput(nodes, p)
  }

  function WithWire(l: Terms, p: Port, q: Port, x: Node): Terms {
    WithInput(l[p := Brings(l, p)], q, Brings(l, p), x)
  }

  lemma InputRead(l: Terms, q: Port, v: Term, x: Node)
    requires NodeReads(l, q.owner, x) && Takes(x, q) && q !in l
    ensures NodeReads(WithInput(l, q, v, x), q.owner, x)
  {
  }

  lemma OnlyThere(l: Terms, q: Port, v: Term, x: Node, p: Port)
    requires p.owner != q.owner
    ensures p in WithInput(l, q, v, x) <==> p in l
    ensures p in l ==> WithInput(l, q, v, x)[p] == l[p]
  {
  }

  lemma WireNode(nodes: NodeMap, w: Wires, l: Terms, p: Port, q: Port, k: NodeId)
    requires Annotated(nodes, w, l) && MayWire(nodes, w, l, p, q) && k in nodes
    ensures NodeReads(WithWire(l, p, q, nodes[q.owner]), k, nodes[k])
  {
    hide NodeReads, WithInput, Takes;
    var v := Brings(l, p);
    var with := l[p := v];
    assert NodeReads(l, k, nodes[k]);
    if nodes[k].kind == Eraser {
      ErasersRead(WithWire(l, p, q, nodes[q.owner]), k, nodes[k]);
    } else {
      OtherReads(l, with, k, nodes[k]);
      if k == q.owner {
        WireExtends(nodes, w, l, p, q);
        InputRead(with, q, v, nodes[k]);
      } else {
        forall i: nat { OnlyThere(with, q, v, nodes[q.owner], Port(k, i)); }
        OtherReads(with, WithInput(with, q, v, nodes[q.owner]), k, nodes[k]);
      }
    }
  }

  lemma ErasersRead(l: Terms, n: NodeId, x: Node)
    requires x.kind == Eraser
    ensures NodeReads(l, n, x)
  {
  }

  lemma WireExtends(nodes: NodeMap, w: Wires, l: Terms, p: Port, q: Port)
    requires Annotated(nodes, w, l) && MayWire(nodes, w, l, p, q)
    ensures q !in l && Extends(l, WithWire(l, p, q, nodes[q.owner]))
  {
    hide NodeReads, WithInput;
    var with := l[p := Brings(l, p)];
    NotReadYet(nodes, w, l, p, q);
    OtherReads(l, with, q.owner, nodes[q.owner]);
    InputExtends(with, q, Brings(l, p), nodes[q.owner]);
  }

  lemma NotReadYet(nodes: NodeMap, w: Wires, l: Terms, p: Port, q: Port)
    requires Annotated(nodes, w, l) && MayWire(nodes, w, l, p, q)
    ensures q !in l && NodeReads(l, q.owner, nodes[q.owner])
  {
    hide NodeReads, Paired, SameTerm;
  }

  lemma InputExtends(l: Terms, q: Port, v: Term, x: Node)
    requires NodeReads(l, q.owner, x) && Takes(x, q) && q !in l
    ensures Extends(l, WithInput(l, q, v, x))
  {
  }

  lemma WireCarries(nodes: NodeMap, w: Wires, l: Terms, p: Port, q: Port)
    requires Annotated(nodes, w, l) && MayWire(nodes, w, l, p, q)
    ensures var more := WithWire(l, p, q, nodes[q.owner]); SameTerm(more, p, q) && more[q] == Brings(l, p)
  {
    hide NodeReads, Annotated;
    var x := nodes[q.owner];
    WireExtends(nodes, w, l, p, q);
    if p !in l { OnlyThere(l[p := Missing], q, Missing, x, p); }
    assert q in WithInput(l[p := Brings(l, p)], q, Brings(l, p), x);
  }

  lemma NewTerms(l: Terms, q: Port, v: Term, x: Node, r: Port)
    requires Takes(x, q) && r in WithInput(l, q, v, x)
    ensures r in l || r == q || (r.owner == q.owner && FlowOf(x.kind, r.index) == Out)
  {
  }

  lemma AnnotateWire(nodes: NodeMap, w: Wires, l: Terms, p: Port, q: Port)
    requires Annotated(nodes, w, l) && MayWire(nodes, w, l, p, q)
    ensures Annotated(nodes, w[p := q][q := p], WithWire(l, p, q, nodes[q.owner]))
    ensures Extends(l, WithWire(l, p, q, nodes[q.owner]))
  {
    hide NodeReads, WithInput, Takes;
    var more := WithWire(l, p, q, nodes[q.owner]);
    WireExtends(nodes, w, l, p, q);
    forall k | k in nodes ensures NodeReads(more, k, nodes[k]) { WireNode(nodes, w, l, p, q, k); }
    var after := w[p := q][q := p];
    WireCarries(nodes, w, l, p, q);
    forall r | r in more ensures r.owner in nodes && (r in after || IsOutput(nodes, r)) {
      NewTerms(l[p := Brings(l, p)], q, Brings(l, p), nodes[q.owner], r);
    }
    forall r | r in after ensures SameTerm(more, r, after[r]) {
      if r != p && r != q { assert SameTerm(l, r, w[r]); }
    }
    forall r | r in after && r.owner in nodes ensures Forward(nodes, after[r], r) {
      if r != p && r != q { assert Forward(nodes, w[r], r); }
    }
    forall r | r in after ensures ReadAt(nodes, more, r, after[r]) {
      if r != p && r != q { assert SameTerm(l, r, w[r]) && ReadAt(nodes, l, r, w[r]); }
    }
    forall n | n in nodes ensures CapsMissing(nodes, after, more, n) {
      if P(n) != p && P(n) != q { assert CapsMissing(nodes, w, l, n); }
    }
  }

  // ----- first-order nets -----

  function Values(l: Terms): L.Labels {
    map p | p in l :: Meaning(l[p])
  }

  lemma ValuesLabelNode(l: Terms, n: NodeId, x: Node)
    requires NodeReads(l, n, x) && x.kind in FLOW_KINDS
    ensures L.NodeLabelled(Values(l), n, x)
  {
  }

  /** The values of the terms label a net of values, duplicators, switches and erasers. */
  lemma ValuesLabel(net: Net, l: Terms)
    requires Annotated(net.nodes, net.wires, l) && forall n :: n in net.nodes ==> net.nodes[n].kind in FLOW_KINDS
    ensures L.LabelledNet(net, Values(l))
  {
    hide NodeReads, L.NodeLabelled, Meaning;
    var v := Values(l);
    forall p | p in net.wires ensures L.SameLabel(v, p, net.wires[p]) { assert SameTerm(l, p, net.wires[p]); }
    forall n | n in net.nodes ensures L.NodeLabelled(v, n, net.nodes[n]) {
      assert NodeReads(l, n, net.nodes[n]);
      ValuesLabelNode(l, n, net.nodes[n]);
    }
  }

  // ----- at most one annotation -----

  /** The two give the argument wire of every closure the same term. */
  ghost predicate SameArguments(nodes: NodeMap, l: Terms, m: Terms) {
    forall n :: n in nodes && nodes[n].kind == Constructor && A(n, 0) in l && A(n, 0) in m ==> l[A(n, 0)] == m[A(n, 0)]
  }

  ghost predicate BothAnnotate(net: Net, l: Terms, m: Terms) {
    && Closed(net) && Polarised(net) && Annotated(net.nodes, net.wires, l) && Annotated(net.nodes, net.wires, m)
    && SameArguments(net.nodes, l, m)
  }

  predicate AgreeAt(l: Terms, m: Terms, p: Port) {
    p in l && p in m && l[p] == m[p]
  }

  lemma FarTerm(net: Net, l: Terms, m: Terms, p: Port)
    requires BothAnnotate(net, l, m) && Live(net.nodes, p)
    ensures p in net.wires && p in l && p in m && Live(net.nodes, net.wires[p])
    ensures net.wires[p] in l && l[net.wires[p]] == l[p] && net.wires[p] in m && m[net.wires[p]] == m[p]
    ensures NodeReads(l, p.owner, net.nodes[p.owner]) && NodeReads(m, p.owner, net.nodes[p.owner])
    ensures Compiled(p.owner, net.nodes[p.owner]) && Forward(net.nodes, net.wires[p], p)
  {
    hide NodeReads, Compiled, Forward, CapsMissing, Polarised;
    assert SameTerm(l, p, net.wires[p]) && SameTerm(m, p, net.wires[p]);
  }

  /** An input reads an output, or is capped and has no term to read. */
  lemma InputFrom(net: Net, l: Terms, m: Terms, q: Port)
    requires BothAnnotate(net, l, m) && Live(net.nodes, q) && !IsOutput(net.nodes, q)
    ensures q in net.wires && Live(net.nodes, net.wires[q]) && (IsOutput(net.nodes, net.wires[q]) || AgreeAt(l, m, q))
  {
    hide BothAnnotate, NodeReads, Forward;
    FarTerm(net, l, m, q);
    var s := net.wires[q];
    FarTerm(net, l, m, s);
    if !IsOutput(net.nodes, s) {
      OneIsEraser(net, l, m, q);
      CapReadsNone(net, l, m, if net.nodes[q.owner].kind == Eraser then q else s);
    }
  }

  lemma OneIsEraser(net: Net, l: Terms, m: Terms, q: Port)
    requires BothAnnotate(net, l, m) && Live(net.nodes, q) && q in net.wires && Live(net.nodes, net.wires[q])
    requires !IsOutput(net.nodes, q) && !IsOutput(net.nodes, net.wires[q])
    requires Compiled(q.owner, net.nodes[q.owner]) && Compiled(net.wires[q].owner, net.nodes[net.wires[q].owner])
    ensures net.nodes[q.owner].kind == Eraser || net.nodes[net.wires[q].owner].kind == Eraser
    ensures net.wires[net.wires[q]] == q
  {
    hide Annotated, SameArguments;
    assert Agree(net.nodes, q, net.wires[q]);
  }

  lemma CapReadsNone(net: Net, l: Terms, m: Terms, q: Port)
    requires BothAnnotate(net, l, m) && Live(net.nodes, q) && net.nodes[q.owner].kind == Eraser
    requires q in net.wires && net.wires[q].owner in net.nodes && !IsOutput(net.nodes, net.wires[q])
    ensures q in l && q in m && l[q] == m[q] == Missing
  {
    hide NodeReads, Forward, SameTerm, Polarised, IsOutput;
    assert q == P(q.owner);
    assert CapsMissing(net.nodes, net.wires, l, q.owner) && CapsMissing(net.nodes, net.wires, m, q.owner);
  }

  /** Down the terms, and along the duplicators to ever older nodes, the two agree. */
  lemma {:induction false} OutputAgrees(net: Net, l: Terms, m: Terms, p: Port)
    requires BothAnnotate(net, l, m) && Live(net.nodes, p) && IsOutput(net.nodes, p) && p.owner.Gensym? && p in l
    ensures AgreeAt(l, m, p)
    decreases l[p], p.owner.serial
  {
    hide BothAnnotate, SameArguments;
    var n, x := p.owner, net.nodes[p.owner];
    NodeArity(net, l, m, p);
    match x.kind
    case Value =>
    case Duplicator => InputAgrees(net, l, m, P(n), l[p], n.serial);
    case Switch =>
      InputAgrees(net, l, m, P(n), l[p], 0);
      InputAgrees(net, l, m, A(n, 0), l[p], 0);
      InputAgrees(net, l, m, A(n, 1), l[p], 0);
    case Constructor =>
      ArgumentsAgree(net, l, m, n);
      if p.index == 0 { InputAgrees(net, l, m, A(n, 1), l[p], 0); }
    case Destructor =>
      InputAgrees(net, l, m, P(n), l[p], 0);
      InputAgrees(net, l, m, A(n, 0), l[p], 0);
  }

  lemma {:induction false} InputAgrees(net: Net, l: Terms, m: Terms, q: Port, t: Term, serial: nat)
    requires BothAnnotate(net, l, m) && Live(net.nodes, q) && !IsOutput(net.nodes, q) && q in l
    requires l[q] < t || (l[q] == t && net.nodes[q.owner].kind == Duplicator && q.index == 0 && q.owner.Gensym? && q.owner.serial == serial)
    ensures AgreeAt(l, m, q)
    decreases t, serial, 0
  {
    hide BothAnnotate;
    InputFrom(net, l, m, q);
    FarTerm(net, l, m, q);
    var s := net.wires[q];
    FarTerm(net, l, m, s);
    if IsOutput(net.nodes, s) { OutputAgrees(net, l, m, s); }
  }

  lemma NodeArity(net: Net, l: Terms, m: Terms, p: Port)
    requires BothAnnotate(net, l, m) && Live(net.nodes, p)
    ensures var (n, x) := (p.owner, net.nodes[p.owner]);
      && |x.aux| == Arity(x.kind) && Compiled(n, x) && p in l && p in m
      && NodeReads(l, n, x) && NodeReads(m, n, x)
      && forall i: nat :: i <= |x.aux| ==> Port(n, i) in l && Port(n, i) in m
  {
    FarTerm(net, l, m, p);
    forall i: nat | i <= |net.nodes[p.owner].aux| ensures Port(p.owner, i) in l && Port(p.owner, i) in m {
      FarTerm(net, l, m, Port(p.owner, i));
    }
  }

  lemma ArgumentsAgree(net: Net, l: Terms, m: Terms, n: NodeId)
    requires BothAnnotate(net, l, m) && n in net.nodes && net.nodes[n].kind == Constructor && A(n, 0) in l && A(n, 0) in m
    ensures AgreeAt(l, m, A(n, 0))
  {
  }

  /** A closed net of the compiler has at most one annotation with given argument names: what its ports
      stand for is in the net. */
  lemma AnnotationUnique(net: Net, l: Terms, m: Terms)
    requires BothAnnotate(net, l, m)
    ensures forall p :: Live(net.nodes, p) ==> AgreeAt(l, m, p)
  {
    hide BothAnnotate;
    forall p | Live(net.nodes, p) ensures AgreeAt(l, m, p) {
      NodeArity(net, l, m, p);
      if IsOutput(net.nodes, p) {
        OutputAgrees(net, l, m, p);
      } else {
        InputFrom(net, l, m, p);
        FarTerm(net, l, m, p);
        var s := net.wires[p];
        NodeArity(net, l, m, s);
        if IsOutput(net.nodes, s) { OutputAgrees(net, l, m, s); }
      }
    }
  }

  /** Whoever annotates the net, with the same argument names, finds this term at the port. */
  ghost predicate OnlyTerm(net: Net, l: Terms, p: Port, t: Term) {
    forall m :: BothAnnotate(net, l, m) ==> p in m && m[p] == t
  }

  lemma TermDetermined(net: Net, l: Terms, p: Port, t: Term)
    requires Live(net.nodes, p) && p in l && l[p] == t
    ensures OnlyTerm(net, l, p, t)
  {
    hide BothAnnotate;
    forall m | BothAnnotate(net, l, m) ensures p in m && m[p] == t { AnnotationUnique(net, l, m); assert AgreeAt(l, m, p); }
  }
}
