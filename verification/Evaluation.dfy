/** What a program with closures and calls evaluates to: its term is evaluated by name, a closure
    keeping the bindings around it. */
module Evaluation {
  import opened MellTypes
  import opened Nets
  import opened Programs

  /** Innermost first, each name with its term and the bindings around that term. */
  datatype Bindings = Empty | Bind(name: string, term: Term, around: Bindings, rest: Bindings)

  /** A constant, a closure, or nothing at all, which is what a missing argument leaves. */
  datatype Outcome = Of(payload: Payload) | Closure(arg: Term, body: Term, around: Bindings) | Gone

  function Find(env: Bindings, name: string): (r: Option<(Term, Bindings)>) {
    match env
    case Empty => None
    case Bind(x, t, around, rest) => if x == name then Some((t, around)) else Find(rest, name)
  }

  function Called(arg: Term, a: Term, around: Bindings, env: Bindings): Bindings {
    if arg.Var? then Bind(arg.name, a, around, env) else env
  }

  /** None if a constant is called, a closure is asked to choose, a name is not bound, or the steps run out. */
  function Evaluate(t: Term, env: Bindings, fuel: nat): Option<Outcome>
    decreases fuel
  {
    if fuel == 0 then None
    else
      match t
      case Lit(v) => Some(Of(v))
      case Missing => Some(Gone)
      case Fun(arg, body) => Some(Closure(arg, body, env))
      case Var(x) =>
        var found := Find(env, x);
        if found.None? then None else Evaluate(found.value.0, found.value.1, fuel - 1)
      case Choice(c, y, n) =>
        var chosen := Evaluate(c, env, fuel - 1);
        if chosen.None? || chosen.value.Closure? then None
        else if chosen.value.Gone? then Some(Gone)
        else Evaluate(if Truthy(chosen.value.payload) then y else n, env, fuel - 1)
      case Apply(f, a) =>
        var callee := Evaluate(f, env, fuel - 1);
        if callee.None? || callee.value.Of? then None
        else if callee.value.Gone? then Some(Gone)
        else Evaluate(callee.value.body, Called(callee.value.arg, a, env, callee.value.around), fuel - 1)
  }

  /** With more steps the outcome is the same. */
  lemma {:induction false} MoreFuel(t: Term, env: Bindings, fuel: nat, more: nat)
    requires Evaluate(t, env, fuel).Some? && fuel <= more
    ensures Evaluate(t, env, more) == Evaluate(t, env, fuel)
    decreases fuel
  {
    match t
    case Lit(_) =>
    case Missing =>
    case Fun(_, _) =>
    case Var(x) =>
      var found := Find(env, x);
      MoreFuel(found.value.0, found.value.1, fuel - 1, more - 1);
    case Choice(c, y, n) =>
      MoreFuel(c, env, fuel - 1, more - 1);
      var chosen := Evaluate(c, env, fuel - 1).value;
      if chosen.Of? { MoreFuel(if Truthy(chosen.payload) then y else n, env, fuel - 1, more - 1); }
    case Apply(f, a) =>
      MoreFuel(f, env, fuel - 1, more - 1);
      var callee := Evaluate(f, env, fuel - 1).value;
      if callee.Closure? { MoreFuel(callee.body, Called(callee.arg, a, env, callee.around), fuel - 1, more - 1); }
  }

  /** With enough steps, the term has this outcome. */
  ghost predicate EvaluatesTo(t: Term, r: Outcome) {
    exists fuel :: Evaluate(t, Empty, fuel) == Some(r)
  }

  lemma OneOutcome(t: Term, r: Outcome, s: Outcome)
    requires EvaluatesTo(t, r) && EvaluatesTo(t, s)
    ensures r == s
  {
    var k :| Evaluate(t, Empty, k) == Some(r);
    var j :| Evaluate(t, Empty, j) == Some(s);
    if k <= j { MoreFuel(t, Empty, k, j); } else { MoreFuel(t, Empty, j, k); }
  }

  /** A call of an abstraction evaluates to its body with the argument for the variable. */
  lemma CallIsBody(x: string, body: Term, a: Term, env: Bindings, fuel: nat)
    requires fuel >= 2
    ensures Evaluate(Apply(Fun(Var(x), body), a), env, fuel) == Evaluate(body, Bind(x, a, env, env), fuel - 1)
  {
    assert Evaluate(Fun(Var(x), body), env, fuel - 1) == Some(Closure(Var(x), body, env));
  }

  /** A call of a constant has no outcome. */
  lemma NoCallOfConstants(v: Payload, a: Term, r: Outcome)
    ensures !EvaluatesTo(Apply(Lit(v), a), r)
  {
    forall fuel: nat ensures Evaluate(Apply(Lit(v), a), Empty, fuel).None? {
      if fuel > 1 { assert Evaluate(Lit(v), Empty, fuel - 1) == Some(Of(v)); }
    }
  }

  predicate Constants(t: Term) {
    match t
    case Lit(_) => true
    case Choice(c, y, n) => Constants(c) && Constants(y) && Constants(n)
    case _ => false
  }

  function Depth(t: Term): nat {
    match t
    case Choice(c, y, n) => 1 + (if Depth(c) > Depth(y) && Depth(c) > Depth(n) then Depth(c) else if Depth(y) > Depth(n) then Depth(y) else Depth(n))
    case _ => 1
  }

  /** On terms without closures and calls, evaluation gives the value. */
  lemma {:induction false} EvaluatesToMeaning(t: Term, env: Bindings)
    requires Constants(t)
    ensures Evaluate(t, env, Depth(t)) == Some(Of(Meaning(t)))
  {
    match t
    case Lit(_) =>
    case Choice(c, y, n) =>
      EvaluatesToMeaning(c, env);
      EvaluatesToMeaning(y, env);
      EvaluatesToMeaning(n, env);
      var fuel := Depth(t) - 1;
      MoreFuel(c, env, Depth(c), fuel);
      MoreFuel(y, env, Depth(y), fuel);
      MoreFuel(n, env, Depth(n), fuel);
  }

  // ----- names that a term leaves open -----

  function Free(t: Term): set<string> {
    match t
    case Lit(_) => {}
    case Missing => {}
    case Var(x) => {x}
    case Choice(c, y, n) => Free(c) + Free(y) + Free(n)
    case Fun(arg, body) => Free(body) - Free(arg)
    case Apply(f, a) => Free(f) + Free(a)
  }

  /** A term that stands for something and leaves at most these names open. */
  predicate Stands(t: Term, names: set<string>) {
    t != Missing && Free(t) <= names
  }

  ghost predicate ScopeWithin(sc: Scope, names: set<string>) {
    forall x :: x in sc.values ==> Stands(sc.values[x], names)
  }

  ghost predicate EnvWithin(env: Env, names: set<string>) {
    forall i :: 0 <= i < |env.scopes| ==> ScopeWithin(env.scopes[i], names)
  }

  /** Only the innermost scope gets new values. */
  ghost predicate OuterKept(a: Env, b: Env) {
    |b.scopes| == |a.scopes| && forall i :: 0 <= i < |a.scopes| - 1 ==> b.scopes[i].values == a.scopes[i].values
  }

  ghost predicate Within(a: Env, b: Env, v: Option<Term>, names: set<string>) {
    OuterKept(a, b) && EnvWithin(b, names) && (v.Some? ==> Stands(v.value, names))
  }

  lemma WithinThen(a: Env, b: Env, c: Env, v: Option<Term>, w: Option<Term>, names: set<string>)
    requires Within(a, b, v, names) && Within(b, c, w, names)
    ensures Within(a, c, w, names)
  {
  }

  /** Compiling a piece of text leaves no more names open than were open around it. */
  lemma {:induction false} EvalWithin(u: Uast, env: Env, names: set<string>)
    requires env.scopes != [] && EnvWithin(env, names)
    ensures Within(env, Eval(u, env).0, Eval(u, env).1, names)
    decreases u, 1
  {
    hide EnvWithin, OuterKept;
    match u
    case Container(children) => AllWithin(children, env, None, names);
    case Function(params, body) => FunctionWithin(params, body, env, names);
    case Binding(binder, init) =>
      OptWithin(init, NIL, env, names);
      var (after, v) := EvalOpt(init, NIL, env);
      if binder.Some? { BoundWithin(env, after, binder.value, v, names); }
    case Reference(name) => ReferredWithin(env, name, names);
    case Literal(_) => SameWithin(env, None, names);
    case Conditional(c, t, e) =>
      OptWithin(c, Lit(Const(1, false)), env, names);
      var (e1, v1) := EvalOpt(c, Lit(Const(1, false)), env);
      OptWithin(t, NIL, e1, names);
      var (e2, v2) := EvalOpt(t, NIL, e1);
      OptWithin(e, NIL, e2, names);
      var (e3, v3) := EvalOpt(e, NIL, e2);
      WithinThen(env, e1, e2, Some(v1), Some(v2), names);
      WithinThen(env, e2, e3, Some(v2), Some(v3), names);
    case Call(callee, args) =>
      OptWithin(callee, NIL, env, names);
      var (e1, v1) := EvalOpt(callee, NIL, env);
      ArgumentWithin(args, e1, names);
      var (e2, v2) := EvalArgument(args, e1);
      WithinThen(env, e1, e2, Some(v1), None, names);
  }

  lemma SameWithin(env: Env, v: Option<Term>, names: set<string>)
    requires EnvWithin(env, names) && (v.Some? ==> Stands(v.value, names))
    ensures Within(env, env, v, names)
  {
  }

  lemma BoundWithin(env: Env, after: Env, name: string, v: Term, names: set<string>)
    requires Within(env, after, Some(v), names) && after.scopes != []
    ensures Within(env, Bound(after, name, v), None, names)
  {
    var b := Bound(after, name, v);
    forall i | 0 <= i < |b.scopes| ensures ScopeWithin(b.scopes[i], names) { assert ScopeWithin(after.scopes[i], names); }
  }

  lemma ReferredWithin(env: Env, name: string, names: set<string>)
    requires EnvWithin(env, names)
    ensures Within(env, Referred(env, name), Some(Lookup(env, name)), names)
  {
    var b, h := Referred(env, name), Holder(env.scopes, name);
    forall i | 0 <= i < |b.scopes| ensures ScopeWithin(b.scopes[i], names) && b.scopes[i].values == env.scopes[i].values {
      assert ScopeWithin(env.scopes[i], names) && b.scopes[i] == Noted(env.scopes[i], name, i == h);
    }
    if h >= 0 { assert ScopeWithin(env.scopes[h], names); }
  }

  lemma {:induction false} FunctionWithin(params: seq<string>, body: seq<Uast>, env: Env, names: set<string>)
    requires env.scopes != [] && EnvWithin(env, names)
    ensures Within(env, Eval(Function(params, body), env).0, Eval(Function(params, body), env).1, names)
    decreases body, 1
  {
    var inner, more := Entered(env, params, body), names + Free(Argument(params));
    forall i | 0 <= i < |inner.scopes| ensures ScopeWithin(inner.scopes[i], more) {
      if i < |env.scopes| { assert ScopeWithin(env.scopes[i], names) && inner.scopes[i] == env.scopes[i]; }
    }
    AllWithin(body, inner, None, more);
    var (after, v) := EvalAll(body, inner, None);
    var b := Popped(after);
    forall i | 0 <= i < |env.scopes| ensures ScopeWithin(b.scopes[i], names) && b.scopes[i].values == env.scopes[i].values {
      assert after.scopes[i].values == inner.scopes[i].values && inner.scopes[i] == env.scopes[i] && ScopeWithin(env.scopes[i], names);
    }
  }

  lemma {:induction false} OptWithin(u: Option<Uast>, default: Term, env: Env, names: set<string>)
    requires env.scopes != [] && EnvWithin(env, names) && Stands(default, {})
    ensures Within(env, EvalOpt(u, default, env).0, Some(EvalOpt(u, default, env).1), names)
    decreases u, 0
  {
    if u.Some? { EvalWithin(u.value, env, names); }
  }

  lemma {:induction false} ArgumentWithin(args: seq<Uast>, env: Env, names: set<string>)
    requires env.scopes != [] && EnvWithin(env, names)
    ensures Within(env, EvalArgument(args, env).0, None, names) && Free(EvalArgument(args, env).1) <= names
    decreases args, 0
  {
    if args != [] {
      EvalWithin(args[0], env, names);
      var (after, v) := Eval(args[0], env);
      var b := Skipped(after, AllRefs(args[1..]));
      forall i | 0 <= i < |b.scopes| ensures ScopeWithin(b.scopes[i], names) && b.scopes[i].values == after.scopes[i].values {
        assert ScopeWithin(after.scopes[i], names);
      }
    }
  }

  lemma {:induction false} AllWithin(us: seq<Uast>, env: Env, last: Option<Term>, names: set<string>)
    requires env.scopes != [] && EnvWithin(env, names) && (last.Some? ==> Stands(last.value, names))
    ensures Within(env, EvalAll(us, env, last).0, EvalAll(us, env, last).1, names)
    decreases us, 0
  {
    hide EnvWithin, OuterKept;
    if us == [] {
      SameWithin(env, last, names);
    } else {
      EvalWithin(us[0], env, names);
      var (after, v) := Eval(us[0], env);
      AllWithin(us[1..], after, v, names);
      WithinThen(env, after, EvalAll(us, env, last).0, v, EvalAll(us, env, last).1, names);
    }
  }

  /** A program's term stands for something and leaves no name open. */
  lemma ProgramCloses(program: seq<Uast>)
    ensures ProgramTerm(program).Some? ==> Free(ProgramTerm(program).value) == {} && ProgramTerm(program).value != Missing
  {
    AllWithin(program, Pushed(NOWHERE, program), None, {});
  }

  // ----- every name in scope stands for something -----

  ghost predicate ScopeStands(sc: Scope) {
    forall x :: x in sc.values ==> sc.values[x] != Missing
  }

  ghost predicate EnvStands(env: Env) {
    forall i :: 0 <= i < |env.scopes| ==> ScopeStands(env.scopes[i])
  }

  function NamesIn(env: Env): set<string> {
    set i, x, y | 0 <= i < |env.scopes| && x in env.scopes[i].values && y in Free(env.scopes[i].values[x]) :: y
  }

  lemma StandsWithin(env: Env)
    requires EnvStands(env)
    ensures EnvWithin(env, NamesIn(env))
  {
    forall i | 0 <= i < |env.scopes| ensures ScopeWithin(env.scopes[i], NamesIn(env)) { assert ScopeStands(env.scopes[i]); }
  }

  lemma WithinStands(env: Env, names: set<string>)
    requires EnvWithin(env, names)
    ensures EnvStands(env)
  {
    forall i | 0 <= i < |env.scopes| ensures ScopeStands(env.scopes[i]) { assert ScopeWithin(env.scopes[i], names); }
  }

  lemma EvalStands(u: Uast, env: Env)
    requires env.scopes != [] && EnvStands(env)
    ensures EnvStands(Eval(u, env).0) && (Eval(u, env).1.Some? ==> Eval(u, env).1.value != Missing)
  {
    StandsWithin(env);
    EvalWithin(u, env, NamesIn(env));
    WithinStands(Eval(u, env).0, NamesIn(env));
  }

  lemma OptStands(u: Option<Uast>, default: Term, env: Env)
    requires env.scopes != [] && EnvStands(env) && Stands(default, {})
    ensures EnvStands(EvalOpt(u, default, env).0) && EvalOpt(u, default, env).1 != Missing
  {
    StandsWithin(env);
    OptWithin(u, default, env, NamesIn(env));
    WithinStands(EvalOpt(u, default, env).0, NamesIn(env));
  }

  lemma AllStand(us: seq<Uast>, env: Env)
    requires env.scopes != [] && EnvStands(env)
    ensures EnvStands(EvalAll(us, env, None).0) && (EvalAll(us, env, None).1.Some? ==> EvalAll(us, env, None).1.value != Missing)
  {
    StandsWithin(env);
    AllWithin(us, env, None, NamesIn(env));
    WithinStands(EvalAll(us, env, None).0, NamesIn(env));
  }
}
