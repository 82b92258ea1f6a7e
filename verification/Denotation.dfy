/** What a net under construction computes, in terms of the program text compiled so far: the ports
    in scope stand for the terms of their names, and there is one duplicator for each fork. */
module Denotation {
  import opened MellTypes
  import opened Wiring
  import opened Nets
  import opened Machine
  import opened Programs
  import opened Annotation
  import opened Evaluation
  import O = Ownership

  /** The lexical environment, the terms of ports, the references still to come in the text of each open
      scope, the duplicators made, the name, if any, whose source is just being forked, with its scope, and
      the names of all closure arguments so far. */
  datatype Sem = Sem(env: Env, terms: Terms, left: seq<multiset<string>>, made: nat, absent: Option<(nat, string)>, named: set<string>)

  /** Every name in scope stands for its term; a name leaves scope at its last counted use. */
  ghost predicate Denotes(frame: O.Frame, counts: Counts, sc: Scope, left: multiset<string>, terms: Terms, absent: Option<string>) {
    && (forall x :: x in frame ==> x in sc.values && frame[x] in terms && terms[frame[x]] == sc.values[x])
    && (forall x :: x in sc.values && x !in frame ==> sc.uses[x] >= sc.total[x] || absent == Some(x))
    && (forall x :: Counted(counts, x) + sc.uses[x] == sc.total[x])
    && (forall x :: left[x] + sc.uses[x] <= sc.total[x])
  }

  function AbsentAt(absent: Option<(nat, string)>, i: nat): Option<string> {
    if absent.Some? && absent.value.0 == i then Some(absent.value.1) else None
  }

  ghost predicate DenotesAt(frame: O.Frame, counts: Counts, s: Sem, i: nat)
    requires i < |s.left| == |s.env.scopes|
  {
    Denotes(frame, counts, s.env.scopes[i], s.left[i], s.terms, AbsentAt(s.absent, i))
  }

  ghost predicate AllDenote(scopes: seq<O.Frame>, counts: seq<Counts>, s: Sem) {
    && |scopes| == |counts| == |s.left| == |s.env.scopes|
    && forall i :: 0 <= i < |scopes| ==> DenotesAt(scopes[i], counts[i], s, i)
  }

  function Duplicators(nodes: NodeMap): nat {
    |set n | n in nodes && nodes[n].kind == Duplicator|
  }

  ghost predicate Means(vm: Vm, scopes: seq<O.Frame>, counts: seq<Counts>, s: Sem) {
    && Annotated(vm.nodes, View(vm).wires, s.terms) && AllDenote(scopes, counts, s)
    && Duplicators(vm.nodes) == s.made && (s.absent.None? ==> s.made == s.env.forks)
    && ArgumentsApart(vm.nodes, s.terms) && ArgumentsNamed(vm.nodes, s.terms, s.named) && EnvStands(s.env)
  }

  predicate ArgumentIs(l: Terms, n: NodeId, t: Term) {
    A(n, 0) in l && l[A(n, 0)] == t
  }

  /** The argument of every closure has a name of its own, if any. */
  ghost predicate ArgumentsApart(nodes: NodeMap, l: Terms) {
    forall n, m, x ::
      (n in nodes && m in nodes && nodes[n].kind == Constructor && nodes[m].kind == Constructor && ArgumentIs(l, n, Var(x)) && ArgumentIs(l, m, Var(x)))
      ==> n == m
  }

  ghost predicate ArgumentsNamed(nodes: NodeMap, l: Terms, named: set<string>) {
    forall n :: n in nodes && nodes[n].kind == Constructor ==> A(n, 0) in l && NamedIn(l[A(n, 0)], named)
  }

  predicate NamedIn(t: Term, named: set<string>) {
    t == Missing || (t.Var? && t.name in named)
  }

  /** A new closure's argument has a new name, if any. */
  predicate FreshArgument(k: Kind, arg: Term, named: set<string>) {
    k == Constructor ==> arg == Missing || (arg.Var? && arg.name !in named)
  }

  function NamesWith(named: set<string>, k: Kind, arg: Term): set<string> {
    if k == Constructor && arg.Var? then named + {arg.name} else named
  }

  lemma ArgumentsMore(nodes: NodeMap, l: Terms, more: Terms, named: set<string>)
    requires ArgumentsApart(nodes, l) && ArgumentsNamed(nodes, l, named) && Extends(l, more)
    ensures ArgumentsApart(nodes, more) && ArgumentsNamed(nodes, more, named)
  {
    forall n, m, x | n in nodes && m in nodes && nodes[n].kind == Constructor && nodes[m].kind == Constructor
      && ArgumentIs(more, n, Var(x)) && ArgumentIs(more, m, Var(x)) ensures n == m
    {
      assert ArgumentIs(l, n, Var(x)) && ArgumentIs(l, m, Var(x));
    }
  }

  lemma ArgumentAdded(nodes: NodeMap, l: Terms, named: set<string>, id: NodeId, x: Node, arg: Term)
    requires ArgumentsApart(nodes, l) && ArgumentsNamed(nodes, l, named) && id !in nodes && FreshArgument(x.kind, arg, named)
    requires Extends(l, WithNode(l, id, x, arg))
    ensures ArgumentsApart(nodes[id := x], WithNode(l, id, x, arg))
    ensures ArgumentsNamed(nodes[id := x], WithNode(l, id, x, arg), NamesWith(named, x.kind, arg))
  {
    var all, more := nodes[id := x], WithNode(l, id, x, arg);
    forall n | n in all && all[n].kind == Constructor ensures A(n, 0) in more && NamedIn(more[A(n, 0)], NamesWith(named, x.kind, arg)) {}
    forall n, m, y | n in all && m in all && all[n].kind == Constructor && all[m].kind == Constructor
      && ArgumentIs(more, n, Var(y)) && ArgumentIs(more, m, Var(y)) ensures n == m
    {
      if n != id && m != id { assert ArgumentIs(l, n, Var(y)) && ArgumentIs(l, m, Var(y)); }
    }
  }

  lemma AddedDuplicator(nodes: NodeMap, n: NodeId, x: Node)
    requires n !in nodes
    ensures Duplicators(nodes[n := x]) == Duplicators(nodes) + if x.kind == Duplicator then 1 else 0
  {
    var all := nodes[n := x];
    var before := set k | k in nodes && nodes[k].kind == Duplicator;
    var after := set k | k in all && all[k].kind == Duplicator;
    assert after == before + if x.kind == Duplicator then {n} else {};
  }

  lemma NoDuplicators(nodes: NodeMap)
    requires Duplicators(nodes) == 0
    ensures forall n :: n in nodes ==> nodes[n].kind != Duplicator
  {
    var all := set n | n in nodes && nodes[n].kind == Duplicator;
    assert all == {};
    assert forall n :: n in nodes && nodes[n].kind == Duplicator ==> n in all;
  }

  // ----- nodes and wires -----

  lemma DenotesMore(frame: O.Frame, counts: Counts, s: Sem, more: Terms, made: nat, named: set<string>, i: nat)
    requires i < |s.left| == |s.env.scopes| && DenotesAt(frame, counts, s, i) && Extends(s.terms, more)
    ensures DenotesAt(frame, counts, s.(terms := more, made := made, named := named), i)
  {
  }

  lemma AllMore(scopes: seq<O.Frame>, counts: seq<Counts>, s: Sem, more: Terms, made: nat, named: set<string>)
    requires AllDenote(scopes, counts, s) && Extends(s.terms, more)
    ensures AllDenote(scopes, counts, s.(terms := more, made := made, named := named))
  {
    hide DenotesAt, Extends;
    forall i | 0 <= i < |scopes| ensures DenotesAt(scopes[i], counts[i], s.(terms := more, made := made, named := named), i) {
      DenotesMore(scopes[i], counts[i], s, more, made, named, i);
    }
  }

  function NodeSem(s: Sem, id: NodeId, x: Node, arg: Term): Sem {
    s.(terms := WithNode(s.terms, id, x, arg), made := s.made + (if x.kind == Duplicator then 1 else 0), named := NamesWith(s.named, x.kind, arg))
  }

  lemma MeansNode(vm: Vm, scopes: seq<O.Frame>, counts: seq<Counts>, s: Sem, id: NodeId, x: Node, arg: Term)
    requires Consistent(vm) && Means(vm, scopes, counts, s) && id == Gensym(x.kind, vm.serial) && |x.aux| == Arity(x.kind)
    requires id !in vm.nodes && Plain(x) && (x.kind == Duplicator ==> s.absent.Some?) && FreshArgument(x.kind, arg, s.named)
    ensures Means(O.WithNode(vm, id, x), scopes, counts, NodeSem(s, id, x, arg))
    ensures Extends(s.terms, WithNode(s.terms, id, x, arg))
  {
    hide Annotated, AllDenote, Extends, Duplicators, ArgumentsApart, ArgumentsNamed;
    O.AddConsistent(vm, id, x);
    AnnotateNode(vm.nodes, View(vm).wires, s.terms, id, x, arg);
    AddedDuplicator(vm.nodes, id, x);
    ArgumentAdded(vm.nodes, s.terms, s.named, id, x, arg);
    AllMore(scopes, counts, s, WithNode(s.terms, id, x, arg), NodeSem(s, id, x, arg).made, NodeSem(s, id, x, arg).named);
  }

  /** Whichever end comes first. */
  lemma MeansWire(vm: Vm, scopes: seq<O.Frame>, counts: seq<Counts>, s: Sem, p: Port, q: Port)
    requires Consistent(vm) && Means(vm, scopes, counts, s) && MayWire(vm.nodes, vm.target, s.terms, p, q)
    requires Live(vm.nodes, p) && Live(vm.nodes, q) && p != q
    ensures Extends(s.terms, WithWire(s.terms, p, q, vm.nodes[q.owner]))
    ensures Means(O.WithLink(vm, p, q), scopes, counts, s.(terms := WithWire(s.terms, p, q, vm.nodes[q.owner])))
    ensures Means(O.WithLink(vm, q, p), scopes, counts, s.(terms := WithWire(s.terms, p, q, vm.nodes[q.owner])))
  {
    hide Annotated, AllDenote, Extends, Takes, WithWire, Duplicators, IsOutput, Forward, ArgumentsApart, ArgumentsNamed;
    O.LinkFreeWires(vm, p, q);
    O.LinkFreeWires(vm, q, p);
    var w := View(vm).wires;
    assert w[p := q][q := p] == w[q := p][p := q];
    AnnotateWire(vm.nodes, w, s.terms, p, q);
    ArgumentsMore(vm.nodes, s.terms, WithWire(s.terms, p, q, vm.nodes[q.owner]), s.named);
    AllMore(scopes, counts, s, WithWire(s.terms, p, q, vm.nodes[q.owner]), s.made, s.named);
  }

  // ----- names -----

  /** A name is bound in the innermost scope. */
  lemma DenotesEnter(scopes: seq<O.Frame>, counts: seq<Counts>, s: Sem, name: string, p: Port)
    requires AllDenote(scopes, counts, s) && s.absent.None? && p in s.terms && scopes != []
    ensures var k := |scopes| - 1;
            AllDenote(scopes[k := scopes[k][name := p]], counts, s.(env := Bound(s.env, name, s.terms[p])))
  {
    var k := |scopes| - 1;
    var more, t := scopes[k := scopes[k][name := p]], s.(env := Bound(s.env, name, s.terms[p]));
    forall i | 0 <= i < |more| ensures DenotesAt(more[i], counts[i], t, i) { assert DenotesAt(scopes[i], counts[i], s, i); }
  }

  function Minus(left: seq<multiset<string>>, refs: multiset<string>): (r: seq<multiset<string>>)
    ensures |r| == |left| && forall i :: 0 <= i < |left| ==> r[i] == left[i] - refs
  {
    seq(|left|, i requires 0 <= i < |left| => left[i] - refs)
  }

  /** The references still awaited in every open scope. */
  ghost predicate Awaits(s: Sem, used: multiset<string>) {
    s.absent.None? && forall i :: 0 <= i < |s.left| ==> used <= s.left[i]
  }

  /** What a reference changes, before its source is forked for the uses to come, if any. */
  function Taken(s: Sem, name: string): Sem {
    var h := Holder(s.env.scopes, name);
    Sem(Referred(s.env, name), s.terms, Minus(s.left, multiset{name}), s.made,
        if h >= 0 && MoreUses(s.env.scopes[h], name) then Some((h, name)) else None, s.named)
  }

  lemma CountedIn(refs: multiset<string>, left: multiset<string>, x: string)
    requires refs <= left && x in refs
    ensures left[x] >= refs[x] > 0
  {
  }

  /** The innermost frame that holds the name is that of the scope that it is resolved to. */
  lemma FoundAtHolder(scopes: seq<O.Frame>, counts: seq<Counts>, s: Sem, name: string)
    requires AllDenote(scopes, counts, s) && Awaits(s, multiset{name})
    ensures var h := Holder(s.env.scopes, name);
            && (h >= 0 ==> name in scopes[h] && name in counts[h] && scopes[h][name] in s.terms && s.terms[scopes[h][name]] == Lookup(s.env, name)
                           && (counts[h][name] > 1 <==> MoreUses(s.env.scopes[h], name)))
            && forall i :: h < i < |scopes| ==> name !in scopes[i]
  {
    var h := Holder(s.env.scopes, name);
    forall i | h < i < |scopes| ensures name !in scopes[i] { assert DenotesAt(scopes[i], counts[i], s, i); }
    if h >= 0 {
      assert DenotesAt(scopes[h], counts[h], s, h);
      CountedIn(multiset{name}, s.left[h], name);
      assert Counted(counts[h], name) + s.env.scopes[h].uses[name] == s.env.scopes[h].total[name];
    }
  }

  /** What taking a use changes in the state. */
  lemma UseTakes(s: Sem, idx: nat, name: string)
    requires Holder(s.env.scopes, name) == idx
    ensures var t := Taken(s, name);
            && |t.env.scopes| == |s.env.scopes| && name in t.env.scopes[idx].values && t.env.scopes[idx].values[name] == Lookup(s.env, name)
            && t.env.forks == s.env.forks + (if t.absent.Some? then 1 else 0) && t.terms == s.terms && t.made == s.made && t.named == s.named
            && (t.absent == if MoreUses(s.env.scopes[idx], name) then Some((idx, name)) else None)
    ensures EnvStands(s.env) ==> EnvStands(Taken(s, name).env)
  {
    if EnvStands(s.env) { TakenStands(s, name); }
    assert Taken(s, name).env.scopes[idx] == Noted(s.env.scopes[idx], name, true);
  }

  lemma TakenStands(s: Sem, name: string)
    requires EnvStands(s.env)
    ensures EnvStands(Taken(s, name).env)
  {
    var h := Holder(s.env.scopes, name);
    forall i | 0 <= i < |s.env.scopes| ensures ScopeStands(Taken(s, name).env.scopes[i]) {
      assert ScopeStands(s.env.scopes[i]) && Taken(s, name).env.scopes[i] == Noted(s.env.scopes[i], name, i == h);
    }
  }

  lemma OthersUnused(frame: O.Frame, counts: Counts, sc: Scope, left: multiset<string>, terms: Terms, name: string)
    requires Denotes(frame, counts, sc, left, terms, None)
    ensures Denotes(frame, counts, Noted(sc, name, false), left - multiset{name}, terms, None)
  {
  }

  lemma HolderUsed(frame: O.Frame, counts: Counts, sc: Scope, left: multiset<string>, terms: Terms, name: string)
    requires Denotes(frame, counts, sc, left, terms, None) && name in frame && name in left
    ensures name in counts
    ensures Denotes(frame - {name}, counts[name := counts[name] - 1], Noted(sc, name, true), left - multiset{name}, terms,
                    if MoreUses(sc, name) then Some(name) else None)
  {
  }

  /** Counting a use and taking the source out of scope. */
  lemma DenotesTake(scopes: seq<O.Frame>, counts: seq<Counts>, s: Sem, name: string)
    requires AllDenote(scopes, counts, s) && Awaits(s, multiset{name}) && Holder(s.env.scopes, name) >= 0
    ensures var h := Holder(s.env.scopes, name);
            && name in scopes[h] && name in counts[h]
            && AllDenote(scopes[h := scopes[h] - {name}], counts[h := counts[h][name := counts[h][name] - 1]], Taken(s, name))
  {
    hide Denotes;
    FoundAtHolder(scopes, counts, s, name);
    var h, t := Holder(s.env.scopes, name), Taken(s, name);
    var frames, more := scopes[h := scopes[h] - {name}], counts[h := counts[h][name := counts[h][name] - 1]];
    forall i | 0 <= i < |scopes| ensures DenotesAt(frames[i], more[i], t, i) {
      assert DenotesAt(scopes[i], counts[i], s, i) && t.env.scopes[i] == Noted(s.env.scopes[i], name, i == h);
      if i == h {
        CountedIn(multiset{name}, s.left[h], name);
        HolderUsed(scopes[h], counts[h], s.env.scopes[h], s.left[h], s.terms, name);
      } else {
        OthersUnused(scopes[i], counts[i], s.env.scopes[i], s.left[i], s.terms, name);
      }
    }
  }

  /** A reference that finds no source is to a name not bound in any open scope. */
  lemma Unresolved(scopes: seq<O.Frame>, counts: seq<Counts>, s: Sem, name: string)
    requires AllDenote(scopes, counts, s) && Awaits(s, multiset{name}) && forall i :: 0 <= i < |scopes| ==> name !in scopes[i]
    ensures Holder(s.env.scopes, name) < 0 && AllDenote(scopes, counts, Taken(s, name))
  {
    hide Denotes;
    FoundAtHolder(scopes, counts, s, name);
    var t := Taken(s, name);
    forall i | 0 <= i < |scopes| ensures DenotesAt(scopes[i], counts[i], t, i) {
      assert DenotesAt(scopes[i], counts[i], s, i) && t.env.scopes[i] == Noted(s.env.scopes[i], name, false);
      OthersUnused(scopes[i], counts[i], s.env.scopes[i], s.left[i], s.terms, name);
    }
  }

  /** A forked name is in scope again, for its later uses. */
  lemma DenotesAgain(scopes: seq<O.Frame>, counts: seq<Counts>, s: Sem, h: nat, name: string, p: Port)
    requires AllDenote(scopes, counts, s) && s.absent == Some((h, name)) && h < |scopes|
    requires name in s.env.scopes[h].values && p in s.terms && s.terms[p] == s.env.scopes[h].values[name]
    ensures AllDenote(scopes[h := scopes[h][name := p]], counts, s.(absent := None))
  {
    var frames, t := scopes[h := scopes[h][name := p]], s.(absent := None);
    forall i | 0 <= i < |scopes| ensures DenotesAt(frames[i], counts[i], t, i) { assert DenotesAt(scopes[i], counts[i], s, i); }
  }

  /** References that are counted but never built. */
  function SkippedSem(s: Sem, refs: multiset<string>): Sem {
    s.(env := Skipped(s.env, refs), left := Minus(s.left, refs))
  }

  lemma DenotesSkip(scopes: seq<O.Frame>, counts: seq<Counts>, s: Sem, refs: multiset<string>)
    requires AllDenote(scopes, counts, s)
    ensures AllDenote(scopes, counts, SkippedSem(s, refs))
  {
    var t := SkippedSem(s, refs);
    forall i | 0 <= i < |scopes| ensures DenotesAt(scopes[i], counts[i], t, i) {
      assert DenotesAt(scopes[i], counts[i], s, i);
      assert t.env.scopes[i] == s.env.scopes[i].(missed := s.env.scopes[i].missed + refs);
    }
  }

  // ----- scopes -----

  function PushedSem(s: Sem, text: seq<Uast>): Sem {
    s.(env := Pushed(s.env, text), left := s.left + [AllRefs(text)])
  }

  lemma DenotesPush(scopes: seq<O.Frame>, counts: seq<Counts>, s: Sem, text: seq<Uast>)
    requires AllDenote(scopes, counts, s) && s.absent.None?
    ensures AllDenote(scopes + [map[]], counts + [CountAll(text, map[])], PushedSem(s, text))
  {
    var frames, more, t := scopes + [map[]], counts + [CountAll(text, map[])], PushedSem(s, text);
    forall i | 0 <= i < |frames| ensures DenotesAt(frames[i], more[i], t, i) {
      if i < |scopes| {
        assert DenotesAt(scopes[i], counts[i], s, i);
      } else {
        forall x ensures AllRefs(text)[x] == Counted(CountAll(text, map[]), x) { CountAllIs(text, map[], x); }
      }
    }
  }

  function PoppedSem(s: Sem): Sem
    requires s.env.scopes != [] && s.left != []
  {
    s.(env := Popped(s.env), left := s.left[..|s.left| - 1])
  }

  lemma DenotesPop(scopes: seq<O.Frame>, counts: seq<Counts>, s: Sem)
    requires AllDenote(scopes, counts, s) && scopes != [] && s.absent.None?
    ensures var k := |scopes| - 1;
            && AllDenote(scopes[..k], counts[..k], PoppedSem(s))
            && forall n :: n in scopes[k] ==> scopes[k][n] in s.terms
  {
    var k := |scopes| - 1;
    assert DenotesAt(scopes[k], counts[k], s, k);
    forall i | 0 <= i < k ensures DenotesAt(scopes[..k][i], counts[..k][i], PoppedSem(s), i) { assert DenotesAt(scopes[i], counts[i], s, i); }
  }

  // ----- the effect of a piece of compilation -----

  ghost predicate Consumed(before: seq<multiset<string>>, after: seq<multiset<string>>, used: multiset<string>) {
    |after| == |before| && forall i :: 0 <= i < |before| ==> before[i] == used + after[i]
  }

  /** From s to t: the references used up, the environment afterwards, and the term of the port returned. */
  ghost predicate Computed(s: Sem, t: Sem, used: multiset<string>, env: Env, out: Option<Port>, v: Option<Term>) {
    && t.env == env && Consumed(s.left, t.left, used) && t.absent == s.absent && Extends(s.terms, t.terms)
    && out.Some? == v.Some? && (out.Some? ==> Carries(t, out.value, v.value))
  }

  /** No reference was used and no name bound. */
  ghost predicate Quiet(s: Sem, t: Sem) {
    t.env == s.env && t.left == s.left && t.absent == s.absent && Extends(s.terms, t.terms)
  }

  /** Nor was an argument named. */
  ghost predicate Idle(s: Sem, t: Sem) {
    Quiet(s, t) && t.named == s.named
  }

  ghost predicate Carries(s: Sem, p: Port, v: Term) {
    p in s.terms && s.terms[p] == v
  }

  /** A new node: nothing else changes, and only its own ports may get a term. */
  ghost predicate NodeEffect(s: Sem, t: Sem, id: NodeId, x: Node, arg: Term) {
    && Quiet(s, t) && t.made == s.made + (if x.kind == Duplicator then 1 else 0) && t.named == NamesWith(s.named, x.kind, arg)
    && (x.kind == Value ==> Carries(t, P(id), Lit(x.payload))) && (x.kind == Constructor ==> Carries(t, A(id, 0), arg))
    && forall p: Port :: p in t.terms ==> if p.owner == id then x.kind in {Value, Constructor} else p in s.terms
  }

  lemma ConsumedThen(a: seq<multiset<string>>, b: seq<multiset<string>>, c: seq<multiset<string>>, used: multiset<string>, more: multiset<string>)
    requires Consumed(a, b, used) && Consumed(b, c, more)
    ensures Consumed(a, c, used + more)
  {
    forall i | 0 <= i < |a| ensures a[i] == used + more + c[i] {
      assert a[i] == used + b[i] && b[i] == more + c[i];
      assert used + (more + c[i]) == used + more + c[i];
    }
  }

  lemma ExtendsThen(a: Terms, b: Terms, c: Terms)
    requires Extends(a, b) && Extends(b, c)
    ensures Extends(a, c)
  {
  }

  lemma Then(s: Sem, t: Sem, u: Sem, used: multiset<string>, env: Env, out: Option<Port>, v: Option<Term>,
             more: multiset<string>, last: Env, out': Option<Port>, v': Option<Term>)
    requires Computed(s, t, used, env, out, v) && Computed(t, u, more, last, out', v')
    ensures Computed(s, u, used + more, last, out', v') && Computed(s, u, used + more, last, out, v)
  {
    hide Consumed, Extends;
    ConsumedThen(s.left, t.left, u.left, used, more);
    ExtendsThen(s.terms, t.terms, u.terms);
    if out.Some? { StillCarries(t, u, out.value, v.value); }
  }

  lemma StillCarries(s: Sem, t: Sem, p: Port, v: Term)
    requires Extends(s.terms, t.terms) && Carries(s, p, v)
    ensures Carries(t, p, v)
  {
  }

  lemma Rest(s: Sem, t: Sem, used: multiset<string>, env: Env, out: Option<Port>, v: Option<Term>, more: multiset<string>)
    requires Computed(s, t, used, env, out, v) && Awaits(s, used + more)
    ensures Awaits(t, more)
  {
    forall i | 0 <= i < |t.left| ensures more <= t.left[i] {
      assert used + more <= s.left[i] && s.left[i] == used + t.left[i];
      assert more == used + more - used && t.left[i] == s.left[i] - used;
    }
  }

  lemma AwaitsPart(s: Sem, used: multiset<string>, more: multiset<string>)
    requires Awaits(s, used + more)
    ensures Awaits(s, used)
  {
    assert used <= used + more;
  }

  lemma AtRest(s: Sem)
    ensures Computed(s, s, multiset{}, s.env, None, None) && Idle(s, s)
  {
  }

  lemma AndIdle(s: Sem, t: Sem, u: Sem, used: multiset<string>, env: Env, out: Option<Port>, v: Option<Term>)
    requires Computed(s, t, used, env, out, v) && Idle(t, u)
    ensures Computed(s, u, used, env, out, v)
  {
  }

  lemma IdleThen(s: Sem, t: Sem, u: Sem, used: multiset<string>, env: Env, out: Option<Port>, v: Option<Term>)
    requires Quiet(s, t) && Computed(t, u, used, env, out, v)
    ensures Computed(s, u, used, env, out, v)
  {
  }

  /** A port that was there already, or a new one, is what the piece of compilation returns. */
  lemma Delivered(s: Sem, t: Sem, u: Sem, used: multiset<string>, env: Env, out: Option<Port>, v: Option<Term>, q: Port, k: Term)
    requires Computed(s, t, used, env, out, v) && Idle(t, u) && Carries(u, q, k)
    ensures Computed(s, u, used, env, Some(q), Some(k))
  {
  }

  /** How far a sequence of statements has been compiled. */
  datatype Progress = Progress(used: multiset<string>, env: Env, v: Option<Term>)

  function Next(at: Progress, child: Uast): (more: Progress)
    requires at.env.scopes != []
    ensures |more.env.scopes| == |at.env.scopes|
  {
    Progress(at.used + Refs(child), Eval(child, at.env).0, Eval(child, at.env).1)
  }

  ghost predicate SoFar(s: Sem, t: Sem, all: seq<Uast>, rest: seq<Uast>, last: Option<Port>, at: Progress) {
    && s.env.scopes != [] && at.env.scopes != []
    && Computed(s, t, at.used, at.env, last, at.v) && Awaits(t, AllRefs(rest))
    && at.used + AllRefs(rest) == AllRefs(all) && EvalAll(rest, at.env, at.v) == EvalAll(all, s.env, None)
  }

  lemma SoFarStart(s: Sem, all: seq<Uast>)
    requires Awaits(s, AllRefs(all)) && s.env.scopes != []
    ensures SoFar(s, s, all, all, None, Progress(multiset{}, s.env, None))
  {
  }

  /** One statement after another. */
  lemma SoFarNext(s: Sem, t: Sem, u: Sem, all: seq<Uast>, rest: seq<Uast>, last: Option<Port>, at: Progress, out: Option<Port>)
    requires SoFar(s, t, all, rest, last, at) && rest != [] && t.env.scopes != []
    requires Computed(t, u, Refs(rest[0]), Eval(rest[0], t.env).0, out, Eval(rest[0], t.env).1)
    ensures SoFar(s, u, all, rest[1..], out, Next(at, rest[0]))
    ensures last.Some? ==> last.value in u.terms
  {
    hide Eval, Refs, Awaits, Consumed, Extends;
    var child := rest[0];
    Then(s, t, u, at.used, at.env, last, at.v, Refs(child), Eval(child, t.env).0, out, Eval(child, t.env).1);
    assert AllRefs(rest) == Refs(child) + AllRefs(rest[1..]);
    Rest(t, u, Refs(child), Eval(child, t.env).0, out, Eval(child, t.env).1, AllRefs(rest[1..]));
    assert at.used + Refs(child) + AllRefs(rest[1..]) == at.used + (Refs(child) + AllRefs(rest[1..]));
  }

  lemma SoFarIdle(s: Sem, t: Sem, u: Sem, all: seq<Uast>, rest: seq<Uast>, last: Option<Port>, at: Progress)
    requires SoFar(s, t, all, rest, last, at) && Idle(t, u)
    ensures SoFar(s, u, all, rest, last, at)
  {
    hide EvalAll, AllRefs;
    AndIdle(s, t, u, at.used, at.env, last, at.v);
  }

  lemma SoFarAwaits(s: Sem, t: Sem, all: seq<Uast>, rest: seq<Uast>, last: Option<Port>, at: Progress)
    requires SoFar(s, t, all, rest, last, at) && rest != []
    ensures Awaits(t, Refs(rest[0])) && t.env.scopes != []
  {
    AwaitsPart(t, Refs(rest[0]), AllRefs(rest[1..]));
  }

  lemma SoFarEnd(s: Sem, t: Sem, all: seq<Uast>, last: Option<Port>, at: Progress)
    requires SoFar(s, t, all, [], last, at)
    ensures var (env, v) := EvalAll(all, s.env, None); Computed(s, t, AllRefs(all), env, last, v)
  {
  }

  // ----- references -----

  lemma MinusConsumes(left: seq<multiset<string>>, refs: multiset<string>)
    requires forall i :: 0 <= i < |left| ==> refs <= left[i]
    ensures Consumed(left, Minus(left, refs), refs)
  {
    forall i | 0 <= i < |left| ensures left[i] == refs + Minus(left, refs)[i] {
      assert refs <= left[i] && left[i] == refs + (left[i] - refs);
    }
  }

  /** A reference has been served, by a constant, by its source or by a copy. */
  lemma Served(s: Sem, t: Sem, name: string, out: Port)
    requires Awaits(s, multiset{name}) && t.env == Taken(s, name).env && t.left == Taken(s, name).left && t.absent.None?
    requires Extends(s.terms, t.terms) && Carries(t, out, Lookup(s.env, name))
    ensures Computed(s, t, multiset{name}, Referred(s.env, name), Some(out), Some(Lookup(s.env, name)))
  {
    MinusConsumes(s.left, multiset{name});
  }

  lemma SkippedComputed(s: Sem, refs: multiset<string>)
    requires Awaits(s, refs)
    ensures Computed(s, SkippedSem(s, refs), refs, Skipped(s.env, refs), None, None)
  {
    MinusConsumes(s.left, refs);
  }

  // ----- bindings, conditionals, closures and calls -----

  lemma BoundTo(s: Sem, t: Sem, u: Sem, name: string, value: Option<Uast>, port: Port)
    requires s.env.scopes != [] && t.env.scopes != []
    requires var (env, v) := EvalOpt(value, NIL, s.env); Computed(s, t, OptRefs(value), env, Some(port), Some(v))
    requires port in t.terms && u == t.(env := Bound(t.env, name, t.terms[port]))
    ensures Computed(s, u, OptRefs(value), Eval(Binding(Some(name), value), s.env).0, None, None)
  {
    hide EvalOpt, OptRefs, Consumed, Extends;
  }

  lemma NotBound(s: Sem, t: Sem, u: Sem, value: Option<Uast>, port: Port)
    requires s.env.scopes != []
    requires var (env, v) := EvalOpt(value, NIL, s.env); Computed(s, t, OptRefs(value), env, Some(port), Some(v))
    requires Idle(t, u)
    ensures Computed(s, u, OptRefs(value), Eval(Binding(None, value), s.env).0, None, None)
  {
    hide EvalOpt, OptRefs;
  }

  lemma ConditionalAwaits(s: Sem, t: Sem, c: Option<Uast>, left: Option<Uast>, right: Option<Uast>)
    requires Idle(s, t) && Awaits(s, Refs(Conditional(c, left, right)))
    ensures Awaits(t, OptRefs(c)) && Awaits(t, OptRefs(c) + (OptRefs(left) + OptRefs(right)))
  {
    hide OptRefs;
    assert OptRefs(c) + OptRefs(left) + OptRefs(right) == OptRefs(c) + (OptRefs(left) + OptRefs(right));
    AwaitsPart(t, OptRefs(c), OptRefs(left) + OptRefs(right));
  }

  /** Both branches have been built after s, with their terms at p and q. */
  ghost predicate BothBranches(s: Sem, t: Sem, p: Port, q: Port, left: Option<Uast>, right: Option<Uast>)
  {
    s.env.scopes != [] &&
    var (e1, v1) := EvalOpt(left, NIL, s.env);
    var (e2, v2) := EvalOpt(right, NIL, e1);
    Computed(s, t, OptRefs(left) + OptRefs(right), e2, Some(p), Some(v1)) && Carries(t, q, v2)
  }

  lemma OneThenOther(s: Sem, t: Sem, u: Sem, left: Option<Uast>, p: Port, right: Option<Uast>, q: Port)
    requires s.env.scopes != [] && t.env.scopes != []
    requires var (e1, v1) := EvalOpt(left, NIL, s.env); Computed(s, t, OptRefs(left), e1, Some(p), Some(v1))
    requires var (e2, v2) := EvalOpt(right, NIL, t.env); Computed(t, u, OptRefs(right), e2, Some(q), Some(v2))
    ensures BothBranches(s, u, p, q, left, right)
  {
    hide EvalOpt, OptRefs, Consumed, Extends;
    var (e1, v1) := EvalOpt(left, NIL, s.env);
    var (e2, v2) := EvalOpt(right, NIL, t.env);
    Then(s, t, u, OptRefs(left), e1, Some(p), Some(v1), OptRefs(right), e2, Some(q), Some(v2));
  }

  lemma FedBoth(s: Sem, t: Sem, u: Sem, p: Port, q: Port, p': Port, q': Port, left: Option<Uast>, right: Option<Uast>)
    requires s.env.scopes != [] && BothBranches(s, t, p, q, left, right) && Idle(t, u)
    requires p in t.terms && q in t.terms && Carries(u, p', t.terms[p]) && Carries(u, q', t.terms[q])
    ensures BothBranches(s, u, p', q', left, right)
  {
    hide EvalOpt, OptRefs;
  }

  lemma BranchTerms(s: Sem, t: Sem, p: Port, q: Port, left: Option<Uast>, right: Option<Uast>)
    requires s.env.scopes != [] && BothBranches(s, t, p, q, left, right) && EnvStands(s.env)
    ensures p in t.terms && q in t.terms && t.terms[p] != Missing && t.terms[q] != Missing
  {
    OptStands(left, NIL, s.env);
    OptStands(right, NIL, EvalOpt(left, NIL, s.env).0);
  }

  /** The switch's output is the choice between the branches by the condition. */
  lemma Selected(s: Sem, t: Sem, u: Sem, id: NodeId, x: Node, c: Option<Uast>, left: Option<Uast>, right: Option<Uast>)
    requires s.env.scopes != [] && t.env.scopes != [] && BothBranches(t, u, A(id, 0), A(id, 1), left, right)
    requires var (env, v) := EvalOpt(c, Lit(Const(1, false)), s.env); Computed(s, t, OptRefs(c), env, Some(P(id)), Some(v))
    requires x.kind == Switch && NodeReads(u.terms, id, x)
    ensures var (env, v) := Eval(Conditional(c, left, right), s.env);
            Computed(s, u, Refs(Conditional(c, left, right)), env, Some(A(id, 2)), v)
  {
    hide EvalOpt, OptRefs, Consumed, Extends;
    var (e1, v1) := EvalOpt(c, Lit(Const(1, false)), s.env);
    var (e2, v2) := EvalOpt(left, NIL, t.env);
    var (e3, v3) := EvalOpt(right, NIL, e2);
    Then(s, t, u, OptRefs(c), e1, Some(P(id)), Some(v1), OptRefs(left) + OptRefs(right), e3, Some(A(id, 0)), Some(v2));
    assert OptRefs(c) + OptRefs(left) + OptRefs(right) == OptRefs(c) + (OptRefs(left) + OptRefs(right));
  }

  /** The output of a call is the application of the callee to its argument. */
  lemma Applied(s: Sem, t: Sem, u: Sem, id: NodeId, x: Node, callee: Option<Uast>, args: seq<Uast>)
    requires s.env.scopes != [] && t.env.scopes != []
    requires var (env, v) := EvalOpt(callee, NIL, s.env); Computed(s, t, OptRefs(callee), env, Some(P(id)), Some(v))
    requires var (env, v) := EvalArgument(args, t.env); Computed(t, u, AllRefs(args), env, Some(A(id, 0)), Some(v))
    requires x.kind == Destructor && NodeReads(u.terms, id, x)
    ensures var (env, v) := Eval(Call(callee, args), s.env); Computed(s, u, Refs(Call(callee, args)), env, Some(A(id, 1)), v)
  {
    hide EvalOpt, EvalArgument, OptRefs, AllRefs, Consumed, Extends;
    var (e1, v1) := EvalOpt(callee, NIL, s.env);
    var (e2, v2) := EvalArgument(args, t.env);
    Then(s, t, u, OptRefs(callee), e1, Some(P(id)), Some(v1), AllRefs(args), e2, Some(A(id, 0)), Some(v2));
  }

  /** The state at the start of a closure's body. */
  function EnteredSem(s: Sem, params: seq<string>, body: seq<Uast>): Sem {
    PushedSem(s, body).(env := Entered(s.env, params, body))
  }

  lemma EnteredAwaits(s: Sem, t: Sem, params: seq<string>, body: seq<Uast>)
    requires Awaits(s, AllRefs(body)) && Idle(EnteredSem(s, params, body), t)
    ensures Awaits(t, AllRefs(body)) && t.env.scopes != []
  {
    hide AllRefs;
  }

  lemma PoppedConsumes(s: seq<multiset<string>>, t: seq<multiset<string>>, refs: multiset<string>)
    requires Consumed(s + [refs], t, refs)
    ensures |t| == |s| + 1 && Consumed(s, t[..|s|], refs)
  {
    forall i | 0 <= i < |s| ensures s[i] == refs + t[..|s|][i] { assert (s + [refs])[i] == s[i]; }
  }

  /** The closure's own port abstracts its argument wire from its return path. */
  lemma ClosureDone(s: Sem, t: Sem, u: Sem, w: Sem, params: seq<string>, body: seq<Uast>, id: NodeId, x: Node)
    requires s.env.scopes != [] && Carries(s, A(id, 0), Argument(params)) && Idle(EnteredSem(s, params, body), t) && t.env.scopes != []
    requires var (env, v) := EvalAll(body, t.env, None); Computed(t, u, AllRefs(body), env, Some(A(id, 1)), Some(OrElse(v, NIL)))
    requires u.env.scopes != [] && u.left != [] && Idle(PoppedSem(u), w) && x.kind == Constructor && NodeReads(w.terms, id, x)
    ensures var (env, v) := Eval(Function(params, body), s.env); Computed(s, w, AllRefs(body), env, Some(P(id)), v)
  {
    hide EvalAll, AllRefs, Consumed, Extends, Popped, Entered;
    PoppedConsumes(s.left, u.left, AllRefs(body));
    ExtendsThen(s.terms, t.terms, u.terms);
    ExtendsThen(s.terms, u.terms, w.terms);
    StillCarries(s, w, A(id, 0), Argument(params));
    StillCarries(u, w, A(id, 1), OrElse(EvalAll(body, t.env, None).1, NIL));
  }

  // ----- whole programs -----

  lemma StartMeans(s: Sem)
    requires s == Sem(NOWHERE, map[], [], 0, None, {})
    ensures Means(Vm(map[], [], 0, map[]), [], [], s)
  {
  }

  lemma StartAwaits(s: Sem, text: seq<Uast>)
    requires s.left == [AllRefs(text)] && s.absent.None?
    ensures Awaits(s, AllRefs(text))
  {
  }

  lemma OutCarries(s: Sem, t: Sem, used: multiset<string>, env: Env, out: Option<Port>, v: Option<Term>)
    requires Computed(s, t, used, env, out, v)
    ensures t.env == env && t.absent == s.absent && out.Some? == v.Some? && (out.Some? ==> Carries(t, out.value, v.value))
  {
  }

  lemma NoneAbsent(s: Sem, used: multiset<string>)
    requires Awaits(s, used)
    ensures s.absent.None?
  {
  }

  lemma CallAwaits(s: Sem, t: Sem, callee: Option<Uast>, args: seq<Uast>)
    requires Idle(s, t) && Awaits(s, Refs(Call(callee, args)))
    ensures Awaits(t, OptRefs(callee)) && Awaits(t, OptRefs(callee) + AllRefs(args))
  {
    hide OptRefs, AllRefs;
    AwaitsPart(t, OptRefs(callee), AllRefs(args));
  }

  lemma ArgumentAwaits(s: Sem, args: seq<Uast>)
    requires args != [] && Awaits(s, AllRefs(args))
    ensures Awaits(s, Refs(args[0])) && Awaits(s, Refs(args[0]) + AllRefs(args[1..]))
  {
    AwaitsPart(s, Refs(args[0]), AllRefs(args[1..]));
  }

  /** The first argument has been built into q and the others are skipped. */
  lemma ArgumentDone(s: Sem, t: Sem, u: Sem, args: seq<Uast>, q: Port)
    requires s.env.scopes != [] && args != [] && u == SkippedSem(t, AllRefs(args[1..])) && Awaits(t, AllRefs(args[1..]))
    requires var (env, v) := Eval(args[0], s.env); Computed(s, t, Refs(args[0]), env, Some(q), Some(OrElse(v, NIL)))
    ensures var (env, v) := EvalArgument(args, s.env); Computed(s, u, AllRefs(args), env, Some(q), Some(v))
  {
    hide Eval, Refs, Consumed, Extends, Skipped, Awaits;
    var (env, v) := Eval(args[0], s.env);
    SkippedComputed(t, AllRefs(args[1..]));
    Then(s, t, u, Refs(args[0]), env, Some(q), Some(OrElse(v, NIL)), AllRefs(args[1..]), Skipped(t.env, AllRefs(args[1..])), None, None);
  }
}
