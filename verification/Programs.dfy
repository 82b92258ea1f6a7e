/** Normalised syntax trees (core/translator.py): which names they bind, how often they refer to a
    name, and what a first-order program computes. */
module Programs {
  import opened MellTypes
  import opened Nets

  datatype Uast =
    | Container(children: seq<Uast>)
    | Function(params: seq<string>, body: seq<Uast>)
    | Binding(binder: Option<string>, init: Option<Uast>)
    | Reference(name: string)
    | Literal(constant: Payload)
    | Conditional(cond: Option<Uast>, thenBranch: Option<Uast>, elseBranch: Option<Uast>)
    | Call(callee: Option<Uast>, args: seq<Uast>)

  // ----- programs in scope of the ownership theorem -----

  function OptBinders(u: Option<Uast>): set<string>
    decreases u, 0
  {
    if u.Some? then Binders(u.value) else {}
  }

  /** The names that compiling u puts into scope frames. */
  function Binders(u: Uast): set<string>
    decreases u, 1
  {
    match u
    case Container(children) => AllBinders(children)
    case Function(params, body) => (if params == [] then {} else {params[0]}) + AllBinders(body)
    case Binding(name, value) => (if name.Some? then {name.value} else {}) + OptBinders(value)
    case Reference(_) => {}
    case Literal(_) => {}
    case Conditional(c, t, e) => OptBinders(c) + OptBinders(t) + OptBinders(e)
    case Call(callee, args) => OptBinders(callee) + (if args == [] then {} else Binders(args[0]))
  }

  function AllBinders(us: seq<Uast>): set<string>
    decreases us, 0
  {
    if us == [] then {} else Binders(us[0]) + AllBinders(us[1..])
  }

  predicate OptBindsOnce(u: Option<Uast>)
    decreases u, 0
  {
    u.Some? ==> BindsOnce(u.value)
  }

  /** No name is bound twice. */
  predicate BindsOnce(u: Uast)
    decreases u, 1
  {
    match u
    case Container(children) => AllBindOnce(children)
    case Function(params, body) => AllBindOnce(body) && (params == [] || params[0] !in AllBinders(body))
    case Binding(name, value) => OptBindsOnce(value) && (name.Some? ==> name.value !in OptBinders(value))
    case Reference(_) => true
    case Literal(_) => true
    case Conditional(c, t, e) =>
      && OptBindsOnce(c) && OptBindsOnce(t) && OptBindsOnce(e)
      && OptBinders(c) !! OptBinders(t) && OptBinders(c) + OptBinders(t) !! OptBinders(e)
    case Call(callee, args) =>
      && OptBindsOnce(callee) && (args != [] ==> BindsOnce(args[0]) && OptBinders(callee) !! Binders(args[0]))
  }

  predicate AllBindOnce(us: seq<Uast>)
    decreases us, 0
  {
    us == [] || (BindsOnce(us[0]) && AllBindOnce(us[1..]) && Binders(us[0]) !! AllBinders(us[1..]))
  }

  predicate OptFirstOrder(u: Option<Uast>)
    decreases u, 0
  {
    u.Some? ==> FirstOrder(u.value)
  }

  /** Containers, bindings, references, literals and conditionals only. */
  predicate FirstOrder(u: Uast)
    decreases u, 1
  {
    match u
    case Container(children) => AllFirstOrder(children)
    case Function(_, _) => false
    case Binding(_, value) => OptFirstOrder(value)
    case Reference(_) => true
    case Literal(_) => true
    case Conditional(c, t, e) => OptFirstOrder(c) && OptFirstOrder(t) && OptFirstOrder(e)
    case Call(_, _) => false
  }

  predicate AllFirstOrder(us: seq<Uast>)
    decreases us, 0
  {
    us == [] || (FirstOrder(us[0]) && AllFirstOrder(us[1..]))
  }

  // ----- reference counting -----

  type Counts = map<string, int>

  function CountOpt(u: Option<Uast>, counts: Counts): Counts
    decreases u, 0
  {
    if u.Some? then CountInto(u.value, counts) else counts
  }

  /** _count_into: every reference node anywhere in the tree, arguments that are
      never built included. */
  function CountInto(u: Uast, counts: Counts): Counts
    decreases u, 1
  {
    match u
    case Container(children) => CountAll(children, counts)
    case Function(_, body) => CountAll(body, counts)
    case Binding(_, value) => CountOpt(value, counts)
    case Reference(name) => counts[name := (if name in counts then counts[name] else 0) + 1]
    case Literal(_) => counts
    case Conditional(c, t, e) => CountOpt(e, CountOpt(t, CountOpt(c, counts)))
    case Call(callee, args) => CountAll(args, CountOpt(callee, counts))
  }

  function CountAll(us: seq<Uast>, counts: Counts): Counts
    decreases us, 0
  {
    if us == [] then counts else CountAll(us[1..], CountInto(us[0], counts))
  }

  /** Every reference in the tree. */
  function Refs(u: Uast): multiset<string>
    decreases u, 1
  {
    match u
    case Container(children) => AllRefs(children)
    case Function(_, body) => AllRefs(body)
    case Binding(_, value) => OptRefs(value)
    case Reference(name) => multiset{name}
    case Literal(_) => multiset{}
    case Conditional(c, t, e) => OptRefs(c) + OptRefs(t) + OptRefs(e)
    case Call(callee, args) => OptRefs(callee) + AllRefs(args)
  }

  function OptRefs(u: Option<Uast>): multiset<string>
    decreases u, 0
  {
    if u.Some? then Refs(u.value) else multiset{}
  }

  function AllRefs(us: seq<Uast>): multiset<string>
    decreases us, 0
  {
    if us == [] then multiset{} else Refs(us[0]) + AllRefs(us[1..])
  }

  function Counted(counts: Counts, name: string): int {
    if name in counts then counts[name] else 0
  }

  /** _count_into adds, for every name, the number of references to it. */
  lemma {:induction false} CountIs(u: Uast, counts: Counts, name: string)
    ensures Counted(CountInto(u, counts), name) == Counted(counts, name) + Refs(u)[name]
    decreases u, 1
  {
    match u
    case Container(children) => CountAllIs(children, counts, name);
    case Function(_, body) => CountAllIs(body, counts, name);
    case Binding(_, value) => CountOptIs(value, counts, name);
    case Reference(_) =>
    case Literal(_) =>
    case Conditional(c, t, e) =>
      CountOptIs(c, counts, name);
      CountOptIs(t, CountOpt(c, counts), name);
      CountOptIs(e, CountOpt(t, CountOpt(c, counts)), name);
    case Call(callee, args) =>
      CountOptIs(callee, counts, name);
      CountAllIs(args, CountOpt(callee, counts), name);
  }

  lemma {:induction false} CountOptIs(u: Option<Uast>, counts: Counts, name: string)
    ensures Counted(CountOpt(u, counts), name) == Counted(counts, name) + OptRefs(u)[name]
    decreases u, 0
  {
    if u.Some? { CountIs(u.value, counts, name); }
  }

  lemma {:induction false} CountAllIs(us: seq<Uast>, counts: Counts, name: string)
    ensures Counted(CountAll(us, counts), name) == Counted(counts, name) + AllRefs(us)[name]
    decreases us, 0
  {
    if us != [] {
      CountIs(us[0], counts, name);
      CountAllIs(us[1..], CountInto(us[0], counts), name);
    }
  }

  // ----- what a program computes -----

  /** What a port stands for. A closure abstracts its argument, Missing if it has no parameter, and
      Missing is also the argument of a call without one. */
  datatype Term =
    | Lit(payload: Payload) | Var(name: string) | Choice(cond: Term, yes: Term, no: Term)
    | Fun(arg: Term, body: Term) | Apply(fn: Term, arg: Term) | Missing

  const NIL := Lit(NOTHING)

  /** A lexical scope: the terms of the names bound in it so far, the references resolved to it, those
      that were not, and all references in its text. */
  datatype Scope = Scope(values: map<string, Term>, uses: multiset<string>, missed: multiset<string>, total: multiset<string>)

  /** The open scopes, innermost last; the forks so far; and how many of them belong to scopes closed by now. */
  datatype Env = Env(scopes: seq<Scope>, forks: int, closed: int)

  /** The innermost scope that binds the name, or -1. */
  function Holder(scopes: seq<Scope>, name: string): (h: int)
    ensures -1 <= h < |scopes| && (h >= 0 ==> name in scopes[h].values)
    ensures forall i :: h < i < |scopes| ==> name !in scopes[i].values
  {
    if scopes == [] then -1
    else if name in scopes[|scopes| - 1].values then |scopes| - 1
    else Holder(scopes[..|scopes| - 1], name)
  }

  function Lookup(env: Env, name: string): Term {
    var h := Holder(env.scopes, name);
    if h >= 0 then env.scopes[h].values[name] else NIL
  }

  function Noted(sc: Scope, name: string, here: bool): Scope {
    if here then sc.(uses := sc.uses + multiset{name}) else sc.(missed := sc.missed + multiset{name})
  }

  /** Whether a counted use of the name is still to come after this one. */
  predicate MoreUses(sc: Scope, name: string) {
    sc.uses[name] + 1 < sc.total[name]
  }

  /** A reference counts as a use in the scope that holds its name, and forks unless that was the last counted one. */
  function Referred(env: Env, name: string): (after: Env)
    ensures |after.scopes| == |env.scopes|
  {
    var h := Holder(env.scopes, name);
    Env(seq(|env.scopes|, i requires 0 <= i < |env.scopes| => Noted(env.scopes[i], name, i == h)),
        env.forks + if h >= 0 && MoreUses(env.scopes[h], name) then 1 else 0, env.closed)
  }

  /** References that are counted but never built. */
  function Skipped(env: Env, refs: multiset<string>): (after: Env)
    ensures |after.scopes| == |env.scopes|
  {
    env.(scopes := seq(|env.scopes|, i requires 0 <= i < |env.scopes| => env.scopes[i].(missed := env.scopes[i].missed + refs)))
  }

  function Bound(env: Env, name: string, v: Term): (after: Env)
    requires env.scopes != []
    ensures |after.scopes| == |env.scopes|
  {
    var k := |env.scopes| - 1;
    env.(scopes := env.scopes[k := env.scopes[k].(values := env.scopes[k].values[name := v])])
  }

  function Pushed(env: Env, text: seq<Uast>): Env {
    env.(scopes := env.scopes + [Scope(map[], multiset{}, multiset{}, AllRefs(text))])
  }

  /** The names all of whose references in the scope's text were resolved to it. */
  function Settled(sc: Scope): set<string> {
    set x | x in sc.uses && sc.uses[x] >= sc.total[x]
  }

  /** One fork for each use, except the last counted use of a name. */
  function Tally(sc: Scope): int {
    |sc.uses| - |Settled(sc)|
  }

  function Popped(env: Env): Env
    requires env.scopes != []
  {
    var k := |env.scopes| - 1;
    Env(env.scopes[..k], env.forks, env.closed + Tally(env.scopes[k]))
  }

  function Argument(params: seq<string>): Term {
    if params == [] then Missing else Var(params[0])
  }

  /** Inside a closure: a scope of its own, in which the first parameter stands for the argument. */
  function Entered(env: Env, params: seq<string>, body: seq<Uast>): (inner: Env)
    ensures |inner.scopes| == |env.scopes| + 1
  {
    var inner := Pushed(env, body);
    if params == [] then inner else Bound(inner, params[0], Argument(params))
  }

  /** The names bound afterwards and the term, if any. Both branches of a conditional are compiled, so
      both leave their bindings; a name not bound yet stands for nothing; only the first argument of a
      call is compiled. */
  function Eval(u: Uast, env: Env): (r: (Env, Option<Term>))
    requires env.scopes != []
    ensures |r.0.scopes| == |env.scopes|
    decreases u, 1
  {
    match u
    case Container(children) => EvalAll(children, env, None)
    case Function(params, body) =>
      var (after, v) := EvalAll(body, Entered(env, params, body), None);
      (Popped(after), Some(Fun(Argument(params), OrElse(v, NIL))))
    case Binding(binder, init) =>
      var (after, v) := EvalOpt(init, NIL, env);
      (if binder.Some? then Bound(after, binder.value, v) else after, None)
    case Reference(name) => (Referred(env, name), Some(Lookup(env, name)))
    case Literal(v) => (env, Some(Lit(v)))
    case Conditional(c, t, e) =>
      var (e1, cv) := EvalOpt(c, Lit(Const(1, false)), env);
      var (e2, tv) := EvalOpt(t, NIL, e1);
      var (e3, ev) := EvalOpt(e, NIL, e2);
      (e3, Some(Choice(cv, tv, ev)))
    case Call(callee, args) =>
      var (e1, fv) := EvalOpt(callee, NIL, env);
      var (e2, av) := EvalArgument(args, e1);
      (e2, Some(Apply(fv, av)))
  }

  function OrElse(v: Option<Term>, default: Term): Term {
    if v.Some? then v.value else default
  }

  function EvalOpt(u: Option<Uast>, default: Term, env: Env): (r: (Env, Term))
    requires env.scopes != []
    ensures |r.0.scopes| == |env.scopes|
    decreases u, 0
  {
    if u.None? then (env, default)
    else
      var (after, v) := Eval(u.value, env);
      (after, OrElse(v, default))
  }

  function EvalArgument(args: seq<Uast>, env: Env): (r: (Env, Term))
    requires env.scopes != []
    ensures |r.0.scopes| == |env.scopes|
    decreases args, 0
  {
    if args == [] then (env, Missing)
    else
      var (after, v) := Eval(args[0], env);
      (Skipped(after, AllRefs(args[1..])), OrElse(v, NIL))
  }

  /** A sequence has the value of its last statement. */
  function EvalAll(us: seq<Uast>, env: Env, last: Option<Term>): (r: (Env, Option<Term>))
    requires env.scopes != []
    ensures |r.0.scopes| == |env.scopes|
    decreases us, 0
  {
    if us == [] then (env, last)
    else
      var (after, v) := Eval(us[0], env);
      EvalAll(us[1..], after, v)
  }

  // ----- whole programs -----

  const NOWHERE := Env([], 0, 0)

  function EvalProgram(program: seq<Uast>): (r: (Env, Option<Term>))
    ensures |r.0.scopes| == 1
  {
    EvalAll(program, Pushed(NOWHERE, program), None)
  }

  /** The term of a whole program's last statement, if it has one. */
  function ProgramTerm(program: seq<Uast>): Option<Term> {
    EvalProgram(program).1
  }

  /** The forks of all scopes of the program. */
  function ProgramForks(program: seq<Uast>): int {
    Popped(EvalProgram(program).0).closed
  }

  /** The value of a term without closures and calls. */
  function Meaning(t: Term): Payload {
    match t
    case Lit(v) => v
    case Choice(c, y, n) => if Truthy(Meaning(c)) then Meaning(y) else Meaning(n)
    case _ => NOTHING
  }

  function ProgramValue(program: seq<Uast>): Option<Payload> {
    var t := ProgramTerm(program);
    if t.Some? then Some(Meaning(t.value)) else None
  }

  // ----- references and forks -----

  /** A scope after some references of its text: each was resolved to it or was not. */
  ghost predicate Advanced(before: Scope, after: Scope, refs: multiset<string>) {
    after.total == before.total && after.uses + after.missed == before.uses + before.missed + refs
  }

  ghost predicate AllAdvanced(before: Env, after: Env, refs: multiset<string>) {
    |after.scopes| == |before.scopes| &&
    forall i :: 0 <= i < |before.scopes| ==> Advanced(before.scopes[i], after.scopes[i], refs)
  }

  lemma AdvancedThen(a: Env, b: Env, c: Env, refs: multiset<string>, more: multiset<string>)
    requires AllAdvanced(a, b, refs) && AllAdvanced(b, c, more)
    ensures AllAdvanced(a, c, refs + more)
  {
    forall i | 0 <= i < |a.scopes| ensures Advanced(a.scopes[i], c.scopes[i], refs + more) {
      assert Advanced(a.scopes[i], b.scopes[i], refs) && Advanced(b.scopes[i], c.scopes[i], more);
    }
  }

  lemma ReferredAdvances(env: Env, name: string)
    ensures AllAdvanced(env, Referred(env, name), multiset{name})
  {
    var h := Holder(env.scopes, name);
    forall i | 0 <= i < |env.scopes| ensures Advanced(env.scopes[i], Referred(env, name).scopes[i], multiset{name}) {
      assert Referred(env, name).scopes[i] == Noted(env.scopes[i], name, i == h);
    }
  }

  lemma SkippedAdvances(env: Env, refs: multiset<string>)
    ensures AllAdvanced(env, Skipped(env, refs), refs)
  {
    forall i | 0 <= i < |env.scopes| ensures Advanced(env.scopes[i], Skipped(env, refs).scopes[i], refs) {
      assert Skipped(env, refs).scopes[i] == env.scopes[i].(missed := env.scopes[i].missed + refs);
    }
  }

  lemma Unmoved(env: Env)
    ensures AllAdvanced(env, env, multiset{})
  {
  }

  /** Every reference in a piece of text is accounted for once in every enclosing scope, as a use or as a miss. */
  lemma {:induction false} EveryReference(u: Uast, env: Env)
    requires env.scopes != []
    ensures AllAdvanced(env, Eval(u, env).0, Refs(u))
    decreases u, 1
  {
    hide Advanced, AllAdvanced;
    match u
    case Container(children) => EveryReferenceAll(children, env, None);
    case Function(params, body) => EveryReferenceInside(params, body, env);
    case Binding(binder, init) =>
      EveryReferenceOpt(init, NIL, env);
      var (after, v) := EvalOpt(init, NIL, env);
      if binder.Some? { BoundAdvances(env, after, binder.value, v, OptRefs(init)); }
    case Reference(name) => ReferredAdvances(env, name);
    case Literal(_) => Unmoved(env);
    case Conditional(c, t, e) =>
      EveryReferenceOpt(c, Lit(Const(1, false)), env);
      var e1 := EvalOpt(c, Lit(Const(1, false)), env).0;
      EveryReferenceOpt(t, NIL, e1);
      var e2 := EvalOpt(t, NIL, e1).0;
      EveryReferenceOpt(e, NIL, e2);
      AdvancedThen(env, e1, e2, OptRefs(c), OptRefs(t));
      AdvancedThen(env, e2, EvalOpt(e, NIL, e2).0, OptRefs(c) + OptRefs(t), OptRefs(e));
    case Call(callee, args) =>
      EveryReferenceOpt(callee, NIL, env);
      var e1 := EvalOpt(callee, NIL, env).0;
      EveryReferenceArgument(args, e1);
      AdvancedThen(env, e1, EvalArgument(args, e1).0, OptRefs(callee), AllRefs(args));
  }

  lemma BoundAdvances(env: Env, after: Env, name: string, v: Term, refs: multiset<string>)
    requires AllAdvanced(env, after, refs) && after.scopes != []
    ensures AllAdvanced(env, Bound(after, name, v), refs)
  {
    forall i | 0 <= i < |env.scopes| ensures Advanced(env.scopes[i], Bound(after, name, v).scopes[i], refs) {
      assert Advanced(env.scopes[i], after.scopes[i], refs);
    }
  }

  /** Seen from outside, a closure's body only refers. */
  lemma {:induction false} EveryReferenceInside(params: seq<string>, body: seq<Uast>, env: Env)
    requires env.scopes != []
    ensures AllAdvanced(env, Eval(Function(params, body), env).0, AllRefs(body))
    decreases body, 1
  {
    var inner := Entered(env, params, body);
    EveryReferenceAll(body, inner, None);
    var after := EvalAll(body, inner, None).0;
    forall i | 0 <= i < |env.scopes| ensures Advanced(env.scopes[i], Popped(after).scopes[i], AllRefs(body)) {
      assert Advanced(inner.scopes[i], after.scopes[i], AllRefs(body)) && inner.scopes[i] == env.scopes[i];
    }
  }

  lemma {:induction false} EveryReferenceOpt(u: Option<Uast>, default: Term, env: Env)
    requires env.scopes != []
    ensures AllAdvanced(env, EvalOpt(u, default, env).0, OptRefs(u))
    decreases u, 0
  {
    hide Advanced, AllAdvanced;
    if u.Some? { EveryReference(u.value, env); } else { Unmoved(env); }
  }

  lemma {:induction false} EveryReferenceArgument(args: seq<Uast>, env: Env)
    requires env.scopes != []
    ensures AllAdvanced(env, EvalArgument(args, env).0, AllRefs(args))
    decreases args, 0
  {
    hide Advanced, AllAdvanced;
    if args == [] {
      Unmoved(env);
    } else {
      EveryReference(args[0], env);
      var after := Eval(args[0], env).0;
      SkippedAdvances(after, AllRefs(args[1..]));
      AdvancedThen(env, after, Skipped(after, AllRefs(args[1..])), Refs(args[0]), AllRefs(args[1..]));
    }
  }

  lemma {:induction false} EveryReferenceAll(us: seq<Uast>, env: Env, last: Option<Term>)
    requires env.scopes != []
    ensures AllAdvanced(env, EvalAll(us, env, last).0, AllRefs(us))
    decreases us, 0
  {
    hide Advanced, AllAdvanced;
    if us == [] {
      Unmoved(env);
    } else {
      EveryReference(us[0], env);
      var (after, v) := Eval(us[0], env);
      EveryReferenceAll(us[1..], after, v);
      AdvancedThen(env, after, EvalAll(us, env, last).0, Refs(us[0]), AllRefs(us[1..]));
    }
  }

  /** The scopes' texts hold at least these further references. */
  ghost predicate Room(env: Env, refs: multiset<string>) {
    forall i :: 0 <= i < |env.scopes| ==> RoomIn(env.scopes[i], refs)
  }

  ghost predicate RoomIn(sc: Scope, refs: multiset<string>) {
    sc.uses + sc.missed + refs <= sc.total
  }

  lemma RoomLeft(a: Env, b: Env, refs: multiset<string>, more: multiset<string>)
    requires AllAdvanced(a, b, refs) && Room(a, refs + more)
    ensures Room(b, more)
  {
    forall i | 0 <= i < |b.scopes| ensures RoomIn(b.scopes[i], more) {
      assert Advanced(a.scopes[i], b.scopes[i], refs) && RoomIn(a.scopes[i], refs + more);
      var x, y := a.scopes[i], b.scopes[i];
      assert y.uses + y.missed + more == x.uses + x.missed + (refs + more);
    }
  }

  lemma RoomPart(env: Env, refs: multiset<string>, more: multiset<string>)
    requires Room(env, refs + more)
    ensures Room(env, refs)
  {
    forall i | 0 <= i < |env.scopes| ensures RoomIn(env.scopes[i], refs) {
      assert RoomIn(env.scopes[i], refs + more);
      var x := env.scopes[i];
      assert x.uses + x.missed + refs <= x.uses + x.missed + (refs + more);
    }
  }

  function Open(scopes: seq<Scope>): int {
    if scopes == [] then 0 else Open(scopes[..|scopes| - 1]) + Tally(scopes[|scopes| - 1])
  }

  /** All forks so far belong to a closed scope or to an open one. */
  ghost predicate Balanced(env: Env) {
    env.forks == env.closed + Open(env.scopes)
  }

  lemma {:induction false} OpenDiffers(a: seq<Scope>, b: seq<Scope>, h: int)
    requires |a| == |b| && forall i :: 0 <= i < |a| && i != h ==> Tally(a[i]) == Tally(b[i])
    ensures Open(b) == Open(a) + if 0 <= h < |a| then Tally(b[h]) - Tally(a[h]) else 0
  {
    hide Tally;
    if a != [] { OpenDiffers(a[..|a| - 1], b[..|b| - 1], h); }
  }

  /** A use costs one fork, unless it is the last counted one, which settles its name. */
  lemma UseCosts(sc: Scope, name: string)
    requires RoomIn(sc, multiset{name})
    ensures Tally(Noted(sc, name, true)) == Tally(sc) + if MoreUses(sc, name) then 1 else 0
  {
    var after := Noted(sc, name, true);
    assert (sc.uses + sc.missed + multiset{name})[name] == sc.uses[name] + sc.missed[name] + 1 <= sc.total[name];
    assert name !in Settled(sc);
    assert Settled(after) == Settled(sc) + if MoreUses(sc, name) then {} else {name};
  }

  lemma MissCosts(sc: Scope, missed: multiset<string>)
    ensures Tally(sc.(missed := missed)) == Tally(sc)
  {
    assert Settled(sc.(missed := missed)) == Settled(sc);
  }

  lemma ReferredBalanced(env: Env, name: string)
    requires Balanced(env) && Room(env, multiset{name})
    ensures Balanced(Referred(env, name))
  {
    hide Tally;
    var h, after := Holder(env.scopes, name), Referred(env, name);
    forall i | 0 <= i < |env.scopes|
      ensures i != h ==> Tally(env.scopes[i]) == Tally(after.scopes[i])
      ensures i == h ==> Tally(after.scopes[i]) == Tally(env.scopes[i]) + if MoreUses(env.scopes[i], name) then 1 else 0
    {
      assert after.scopes[i] == Noted(env.scopes[i], name, i == h) && RoomIn(env.scopes[i], multiset{name});
      if i == h { UseCosts(env.scopes[i], name); } else { MissCosts(env.scopes[i], after.scopes[i].missed); }
    }
    OpenDiffers(env.scopes, after.scopes, h);
  }

  lemma SkippedBalanced(env: Env, refs: multiset<string>)
    requires Balanced(env)
    ensures Balanced(Skipped(env, refs))
  {
    hide Tally;
    var after := Skipped(env, refs);
    forall i | 0 <= i < |env.scopes| ensures Tally(env.scopes[i]) == Tally(after.scopes[i]) {
      MissCosts(env.scopes[i], env.scopes[i].missed + refs);
    }
    OpenDiffers(env.scopes, after.scopes, -1);
  }

  lemma BoundBalanced(env: Env, name: string, v: Term)
    requires Balanced(env) && env.scopes != []
    ensures Balanced(Bound(env, name, v))
    ensures forall refs :: Room(env, refs) ==> Room(Bound(env, name, v), refs)
  {
    var after := Bound(env, name, v);
    var k := |env.scopes| - 1;
    assert Settled(after.scopes[k]) == Settled(env.scopes[k]);
    OpenDiffers(env.scopes, after.scopes, -1);
    forall refs | Room(env, refs) ensures Room(after, refs) {
      forall i | 0 <= i < |after.scopes| ensures RoomIn(after.scopes[i], refs) { assert RoomIn(env.scopes[i], refs); }
    }
  }

  lemma PushedBalanced(env: Env, text: seq<Uast>)
    requires Balanced(env) && Room(env, AllRefs(text))
    ensures Balanced(Pushed(env, text)) && Room(Pushed(env, text), AllRefs(text))
  {
    var inner := Pushed(env, text);
    var k := |env.scopes|;
    assert inner.scopes[..k] == env.scopes;
    assert Settled(inner.scopes[k]) == {};
    forall i | 0 <= i < |inner.scopes| ensures RoomIn(inner.scopes[i], AllRefs(text)) {
      if i < k { assert RoomIn(env.scopes[i], AllRefs(text)); }
    }
  }

  /** The forks made one by one add up to the tallies of the scopes. */
  lemma {:induction false} EvalBalanced(u: Uast, env: Env)
    requires env.scopes != [] && Balanced(env) && Room(env, Refs(u))
    ensures Balanced(Eval(u, env).0)
    decreases u, 1
  {
    hide Balanced, Room, AllAdvanced, Tally;
    match u
    case Container(children) => AllBalanced(children, env, None);
    case Function(params, body) => InsideBalanced(params, body, env);
    case Binding(binder, init) =>
      OptBalanced(init, NIL, env);
      var (after, v) := EvalOpt(init, NIL, env);
      if binder.Some? { BoundBalanced(after, binder.value, v); }
    case Reference(name) => ReferredBalanced(env, name);
    case Literal(_) =>
    case Conditional(c, t, e) => ConditionalBalanced(c, t, e, env);
    case Call(callee, args) =>
      RoomPart(env, OptRefs(callee), AllRefs(args));
      OptBalanced(callee, NIL, env);
      EveryReferenceOpt(callee, NIL, env);
      var e1 := EvalOpt(callee, NIL, env).0;
      RoomLeft(env, e1, OptRefs(callee), AllRefs(args));
      ArgumentBalanced(args, e1);
  }

  lemma {:induction false} ConditionalBalanced(c: Option<Uast>, t: Option<Uast>, e: Option<Uast>, env: Env)
    requires env.scopes != [] && Balanced(env) && Room(env, OptRefs(c) + OptRefs(t) + OptRefs(e))
    ensures Balanced(Eval(Conditional(c, t, e), env).0)
    decreases Conditional(c, t, e), 0
  {
    hide Balanced, Room, AllAdvanced;
    RoomPart(env, OptRefs(c) + OptRefs(t), OptRefs(e));
    RoomPart(env, OptRefs(c), OptRefs(t));
    OptBalanced(c, Lit(Const(1, false)), env);
    EveryReferenceOpt(c, Lit(Const(1, false)), env);
    var e1 := EvalOpt(c, Lit(Const(1, false)), env).0;
    assert OptRefs(c) + OptRefs(t) + OptRefs(e) == OptRefs(c) + (OptRefs(t) + OptRefs(e));
    RoomLeft(env, e1, OptRefs(c), OptRefs(t) + OptRefs(e));
    RoomPart(e1, OptRefs(t), OptRefs(e));
    OptBalanced(t, NIL, e1);
    EveryReferenceOpt(t, NIL, e1);
    var e2 := EvalOpt(t, NIL, e1).0;
    RoomLeft(e1, e2, OptRefs(t), OptRefs(e));
    OptBalanced(e, NIL, e2);
  }

  lemma {:induction false} InsideBalanced(params: seq<string>, body: seq<Uast>, env: Env)
    requires env.scopes != [] && Balanced(env) && Room(env, AllRefs(body))
    ensures Balanced(Eval(Function(params, body), env).0)
    decreases body, 1
  {
    hide Room, AllAdvanced, Tally;
    PushedBalanced(env, body);
    if params != [] { BoundBalanced(Pushed(env, body), params[0], Argument(params)); }
    AllBalanced(body, Entered(env, params, body), None);
  }

  lemma {:induction false} OptBalanced(u: Option<Uast>, default: Term, env: Env)
    requires env.scopes != [] && Balanced(env) && Room(env, OptRefs(u))
    ensures Balanced(EvalOpt(u, default, env).0)
    decreases u, 0
  {
    hide Balanced, Room;
    if u.Some? { EvalBalanced(u.value, env); }
  }

  lemma {:induction false} ArgumentBalanced(args: seq<Uast>, env: Env)
    requires env.scopes != [] && Balanced(env) && Room(env, AllRefs(args))
    ensures Balanced(EvalArgument(args, env).0)
    decreases args, 0
  {
    hide Balanced, Room;
    if args != [] {
      RoomPart(env, Refs(args[0]), AllRefs(args[1..]));
      EvalBalanced(args[0], env);
      SkippedBalanced(Eval(args[0], env).0, AllRefs(args[1..]));
    }
  }

  lemma {:induction false} AllBalanced(us: seq<Uast>, env: Env, last: Option<Term>)
    requires env.scopes != [] && Balanced(env) && Room(env, AllRefs(us))
    ensures Balanced(EvalAll(us, env, last).0)
    decreases us, 0
  {
    hide Balanced, Room, AllAdvanced;
    if us != [] {
      RoomPart(env, Refs(us[0]), AllRefs(us[1..]));
      EvalBalanced(us[0], env);
      EveryReference(us[0], env);
      var (after, v) := Eval(us[0], env);
      RoomLeft(env, after, Refs(us[0]), AllRefs(us[1..]));
      AllBalanced(us[1..], after, v);
    }
  }

  /** The forks counted use by use are those of the scopes: in each, its uses less the names settled. */
  lemma ForksAddUp(program: seq<Uast>)
    ensures EvalProgram(program).0.forks == ProgramForks(program)
  {
    hide Eval, EvalAll, AllRefs, Refs, Tally, Settled, RoomIn;
    PushedBalanced(NOWHERE, program);
    AllBalanced(program, Pushed(NOWHERE, program), None);
    PoppedForks(EvalProgram(program).0);
  }

  lemma PoppedForks(end: Env)
    requires |end.scopes| == 1 && Balanced(end)
    ensures end.forks == Popped(end).closed
  {
    hide Tally;
    assert end.scopes[..0] == [];
    assert Open(end.scopes) == Open(end.scopes[..0]) + Tally(end.scopes[0]);
  }

  /** The names of a scope that cost one fork less than they have uses: those whose every reference in
      the scope's text was resolved to it, and none before the name was bound. */
  lemma SettledExactly(text: seq<Uast>, env: Env, x: string)
    requires env.scopes != []
    requires var sc := env.scopes[|env.scopes| - 1]; sc.total == AllRefs(text) && sc.uses == sc.missed == multiset{}
    ensures var sc := EvalAll(text, env, None).0.scopes[|env.scopes| - 1];
            && (x in Settled(sc) <==> x in AllRefs(text) && sc.uses[x] == AllRefs(text)[x])
            && (x in Settled(sc) <==> x in sc.uses && x !in sc.missed)
  {
    EveryReferenceAll(text, env, None);
    var k := |env.scopes| - 1;
    var sc := EvalAll(text, env, None).0.scopes[k];
    assert Advanced(env.scopes[k], sc, AllRefs(text));
    assert sc.uses[x] + sc.missed[x] == (sc.uses + sc.missed)[x] == AllRefs(text)[x];
  }
}
