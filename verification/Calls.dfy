/** Closures and calls, end to end: a net without duplicators whose ports carry the terms of a program
    reduces to what evaluating the program by name gives, in every run. */
module Calls {
  import opened MellTypes
  import opened Wiring
  import opened Nets
  import opened Polarity
  import opened Confluence
  import Measure
  import opened NormalForms
  import opened Programs
  import opened Annotation
  import opened Evaluation
  import opened Nesting
  import opened Beta
  import opened SubjectReduction
  import opened Denotation
  import O = Outcomes

  // ----- what the ports carry is what their terms evaluate to -----

  /** A net as the compiler leaves it, with the terms of its ports and with what they carry in a run. */
  ghost predicate Explained(net: Net, l: Terms, c: O.Values) {
    && Closed(net) && Polarised(net) && Annotated(net.nodes, net.wires, l) && ArgumentsApart(net.nodes, l)
    && (forall n :: n in net.nodes ==> net.nodes[n].kind in CALL_KINDS)
    && (forall n :: n in net.nodes && net.nodes[n].kind == Constructor ==> NamedOrNot(l, n))
    && O.Certified(net, c)
  }

  ghost predicate NamedOrNot(l: Terms, n: NodeId) {
    A(n, 0) in l && (l[A(n, 0)] == Missing || l[A(n, 0)].Var?)
  }

  function Names(env: Bindings): set<string> {
    match env
    case Empty => {}
    case Bind(x, _, _, rest) => {x} + Names(rest)
  }

  /** The call n passes the term t to the closure g, whose argument is x. */
  ghost predicate BoundBy(net: Net, l: Terms, c: O.Values, x: string, t: Term, n: NodeId, g: NodeId) {
    && n in net.nodes && net.nodes[n].kind == Destructor && g in net.nodes && net.nodes[g].kind == Constructor
    && A(g, 0) in l && l[A(g, 0)] == Var(x) && A(n, 0) in l && l[A(n, 0)] == t && O.Passes(c, n, g)
  }

  /** Every binding is the argument of some call of the closure that has the name. */
  ghost predicate Bound(net: Net, l: Terms, c: O.Values, env: Bindings) {
    match env
    case Empty => true
    case Bind(x, t, around, rest) =>
      && Bound(net, l, c, around) && Bound(net, l, c, rest) && Free(t) <= Names(around)
      && exists n, g :: BoundBy(net, l, c, x, t, n, g)
  }

  ghost predicate Matches(net: Net, l: Terms, c: O.Values, r: Outcome, v: O.Val) {
    match r
    case Of(p) => v == O.Known(p)
    case Gone => v == O.Void
    case Closure(arg, body, around) => v.Clo? && ClosureIs(net, l, c, arg, body, around, v.id)
  }

  ghost predicate ClosureIs(net: Net, l: Terms, c: O.Values, arg: Term, body: Term, around: Bindings, g: NodeId) {
    && g in net.nodes && net.nodes[g].kind == Constructor && A(g, 0) in l && A(g, 1) in l
    && l[A(g, 0)] == arg && l[A(g, 1)] == body && Bound(net, l, c, around) && Free(Fun(arg, body)) <= Names(around)
  }

  lemma {:induction false} FindBound(net: Net, l: Terms, c: O.Values, env: Bindings, x: string) returns (n: NodeId, g: NodeId)
    requires Bound(net, l, c, env) && x in Names(env)
    ensures Find(env, x).Some?
    ensures var (t, around) := Find(env, x).value;
            Bound(net, l, c, around) && Free(t) <= Names(around) && BoundBy(net, l, c, x, t, n, g)
  {
    if env.name == x {
      n, g :| BoundBy(net, l, c, x, env.term, n, g);
    } else {
      n, g := FindBound(net, l, c, env.rest, x);
    }
  }

  /** What is known at a port. */
  lemma PortFacts(net: Net, l: Terms, c: O.Values, p: Port)
    requires Explained(net, l, c) && Live(net.nodes, p)
    ensures p in l && O.Has(c, p) && p in net.wires && Live(net.nodes, net.wires[p])
    ensures NodeReads(l, p.owner, net.nodes[p.owner]) && O.NodeOk(net.nodes, c, p.owner, net.nodes[p.owner])
    ensures |net.nodes[p.owner].aux| == Arity(net.nodes[p.owner].kind) && net.nodes[p.owner].kind in CALL_KINDS
    ensures O.WireOk(net.nodes, c, p, net.wires[p]) && net.wires[p] in l && l[net.wires[p]] == l[p]
    ensures Agree(net.nodes, p, net.wires[p]) && net.wires[net.wires[p]] == p
  {
    hide NodeReads, O.NodeOk, AllForward, AllCaps, AllRead, ArgumentsApart;
    assert SameTerm(l, p, net.wires[p]);
  }

  lemma AuxFacts(net: Net, l: Terms, c: O.Values, n: NodeId, i: nat)
    requires Explained(net, l, c) && n in net.nodes && i <= Arity(net.nodes[n].kind)
    ensures Live(net.nodes, Port(n, i)) && Port(n, i) in l && O.Has(c, Port(n, i))
  {
    hide NodeReads, O.NodeOk, AllForward, AllCaps, AllRead, ArgumentsApart, Annotated, O.Certified;
    assert |net.nodes[n].aux| == Arity(net.nodes[n].kind);
    PortFacts(net, l, c, Port(n, i));
  }

  /** An input that an eraser feeds has no term and carries nothing. */
  lemma CappedFacts(net: Net, l: Terms, c: O.Values, p: Port)
    requires Explained(net, l, c) && Live(net.nodes, p) && O.Flowing(net.nodes, p) == In
    requires p in net.wires && net.wires[p].owner in net.nodes && net.nodes[net.wires[p].owner].kind == Eraser
    ensures p in l && l[p] == Missing && p in c.of && c.of[p] == O.Void
  {
    hide NodeReads, O.NodeOk, AllForward, AllRead, ArgumentsApart;
    PortFacts(net, l, c, p);
    var e := net.wires[p].owner;
    assert net.wires[p] == P(e) by { assert Live(net.nodes, net.wires[p]); }
    assert CapsMissing(net.nodes, net.wires, l, e) && O.EraserOk(net, c, e);
  }

  // ----- evaluation -----

  ghost predicate Gives(net: Net, l: Terms, c: O.Values, p: Port, env: Bindings, fuel: nat) {
    p in l && p in c.of && Evaluate(l[p], env, fuel).Some? && Matches(net, l, c, Evaluate(l[p], env, fuel).value, c.of[p])
  }

  ghost predicate MayEvaluate(net: Net, l: Terms, c: O.Values, p: Port, env: Bindings) {
    && Explained(net, l, c) && Live(net.nodes, p) && net.nodes[p.owner].kind != Eraser
    && Bound(net, l, c, env) && p in l && Free(l[p]) <= Names(env) && (O.Flowing(net.nodes, p) == Out ==> l[p] != Missing)
  }

  lemma GivesMore(net: Net, l: Terms, c: O.Values, p: Port, env: Bindings, fuel: nat, more: nat)
    requires Gives(net, l, c, p, env, fuel) && fuel <= more
    ensures Gives(net, l, c, p, env, more)
  {
    MoreFuel(l[p], env, fuel, more);
  }

  /** The term of a port evaluates, with as many steps as the port is late, to what the port carries. */
  lemma {:induction false} Evaluates(net: Net, l: Terms, c: O.Values, p: Port, env: Bindings)
    requires MayEvaluate(net, l, c, p, env) && p in c.at
    ensures Gives(net, l, c, p, env, c.at[p] + 1)
    decreases c.at[p], 2
  {
    hide Explained, Bound, Gives;
    PortFacts(net, l, c, p);
    OutputOrInput(net.nodes[p.owner].kind, p.index);
    if O.Flowing(net.nodes, p) == In {
      InputGives(net, l, c, p, env);
    } else {
      OutputGives(net, l, c, p, env);
    }
  }

  lemma {:induction false} InputGives(net: Net, l: Terms, c: O.Values, p: Port, env: Bindings)
    requires MayEvaluate(net, l, c, p, env) && p in c.at && O.Flowing(net.nodes, p) == In
    ensures Gives(net, l, c, p, env, c.at[p] + 1)
    decreases c.at[p], 1
  {
    hide Explained, Bound;
    PortFacts(net, l, c, p);
    var q := net.wires[p];
    if net.nodes[q.owner].kind == Eraser {
      CappedFacts(net, l, c, p);
    } else {
      PortFacts(net, l, c, q);
      OutputOrInput(net.nodes[q.owner].kind, q.index);
      ReadsSomething(net, l, c, p);
      Evaluates(net, l, c, q, env);
      GivesMore(net, l, c, q, env, c.at[q] + 1, c.at[p] + 1);
    }
  }

  lemma ReadsSomething(net: Net, l: Terms, c: O.Values, p: Port)
    requires Explained(net, l, c) && p in net.wires && net.wires[p].owner in net.nodes && p.owner in net.nodes && p in l
    requires net.nodes[p.owner].kind != Eraser && net.nodes[net.wires[p].owner].kind != Eraser
    ensures l[p] != Missing
  {
    hide NodeReads, AllForward, AllCaps, ArgumentsApart, O.Certified, Closed, Polarised, NamedOrNot;
    assert ReadAt(net.nodes, l, p, net.wires[p]);
  }

  lemma OutputOrInput(k: Kind, i: nat)
    requires k in CALL_KINDS
    ensures k != Eraser ==> FlowOf(k, i) in {Out, In}
  {
  }

  lemma {:induction false} OutputGives(net: Net, l: Terms, c: O.Values, p: Port, env: Bindings)
    requires MayEvaluate(net, l, c, p, env) && p in c.at && O.Flowing(net.nodes, p) == Out
    ensures Gives(net, l, c, p, env, c.at[p] + 1)
    decreases c.at[p], 1
  {
    hide Explained, Bound, Gives;
    PortFacts(net, l, c, p);
    var n := p.owner;
    match net.nodes[n].kind
    case Value => ValueGives(net, l, c, p, env);
    case Constructor => if p.index == 0 { ClosureGives(net, l, c, n, env); } else { ArgumentGives(net, l, c, n, env); }
    case Switch => ChoiceGives(net, l, c, n, env);
    case Destructor => CallGives(net, l, c, n, env);
  }

  lemma ValueGives(net: Net, l: Terms, c: O.Values, p: Port, env: Bindings)
    requires MayEvaluate(net, l, c, p, env) && p in c.at && net.nodes[p.owner].kind == Value
    ensures Gives(net, l, c, p, env, c.at[p] + 1)
  {
    hide Explained, Bound;
    PortFacts(net, l, c, p);
    assert p == P(p.owner);
  }

  lemma ClosureGives(net: Net, l: Terms, c: O.Values, n: NodeId, env: Bindings)
    requires MayEvaluate(net, l, c, P(n), env) && P(n) in c.at && net.nodes[n].kind == Constructor
    ensures Gives(net, l, c, P(n), env, c.at[P(n)] + 1)
  {
    hide Explained, Bound;
    PortFacts(net, l, c, P(n));
    AuxFacts(net, l, c, n, 2);
  }

  /** The variable of a closure stands for what the call passed. */
  lemma {:induction false} ArgumentGives(net: Net, l: Terms, c: O.Values, n: NodeId, env: Bindings)
    requires MayEvaluate(net, l, c, A(n, 0), env) && A(n, 0) in c.at && net.nodes[n].kind == Constructor
    ensures Gives(net, l, c, A(n, 0), env, c.at[A(n, 0)] + 1)
    decreases c.at[A(n, 0)], 0
  {
    hide Explained, Bound, Matches, O.Passes;
    ArgumentKind(net, l, c, n);
    var x := l[A(n, 0)].name;
    var m, g := FindBound(net, l, c, env, x);
    OneClosure(net, l, c, x, n, g);
    var (t, around) := Find(env, x).value;
    AuxFacts(net, l, c, m, 1);
    PassedOn(c, m, n);
    Evaluates(net, l, c, A(m, 0), around);
    GivesMore(net, l, c, A(m, 0), around, c.at[A(m, 0)] + 1, c.at[A(n, 0)]);
  }

  lemma PassedOn(c: O.Values, m: NodeId, n: NodeId)
    requires O.Passes(c, m, n)
    ensures O.Has(c, A(m, 0)) && O.Has(c, A(n, 0)) && c.of[A(m, 0)] == c.of[A(n, 0)] && c.at[A(m, 0)] < c.at[A(n, 0)]
  {
  }

  lemma OneClosure(net: Net, l: Terms, c: O.Values, x: string, n: NodeId, g: NodeId)
    requires Explained(net, l, c) && n in net.nodes && g in net.nodes && net.nodes[n].kind == Constructor && net.nodes[g].kind == Constructor
    requires A(n, 0) in l && l[A(n, 0)] == Var(x) && A(g, 0) in l && l[A(g, 0)] == Var(x)
    ensures n == g
  {
    assert ArgumentIs(l, n, Var(x)) && ArgumentIs(l, g, Var(x));
  }

  lemma {:induction false} ChoiceGives(net: Net, l: Terms, c: O.Values, n: NodeId, env: Bindings)
    requires MayEvaluate(net, l, c, A(n, 2), env) && A(n, 2) in c.at && net.nodes[n].kind == Switch
    ensures Gives(net, l, c, A(n, 2), env, c.at[A(n, 2)] + 1)
    decreases c.at[A(n, 2)], 0
  {
    hide Explained, Bound, Matches;
    PortFacts(net, l, c, A(n, 2));
    AuxFacts(net, l, c, n, 0);
    AuxFacts(net, l, c, n, 1);
    AuxFacts(net, l, c, n, 2);
    var fuel := c.at[A(n, 2)];
    assert O.SwitchOk(c, n);
    Evaluates(net, l, c, P(n), env);
    GivesMore(net, l, c, P(n), env, c.at[P(n)] + 1, fuel);
    MatchKinds(net, l, c, Evaluate(l[P(n)], env, fuel).value, c.of[P(n)]);
    match c.of[P(n)]
    case Known(v) =>
      var chosen := A(n, if Truthy(v) then 0 else 1);
      Evaluates(net, l, c, chosen, env);
      GivesMore(net, l, c, chosen, env, c.at[chosen] + 1, fuel);
    case Void => VoidMatches(net, l, c);
  }

  lemma MatchKinds(net: Net, l: Terms, c: O.Values, r: Outcome, v: O.Val)
    requires Matches(net, l, c, r, v)
    ensures (r.Of? <==> v.Known?) && (r.Gone? <==> v.Void?) && (r.Closure? <==> v.Clo?) && (r.Of? ==> v == O.Known(r.payload))
    ensures r.Closure? ==> ClosureIs(net, l, c, r.arg, r.body, r.around, v.id)
  {
  }

  lemma VoidMatches(net: Net, l: Terms, c: O.Values)
    ensures Matches(net, l, c, Gone, O.Void)
  {
  }

  /** A call gives what the body of the closure gives, with the argument for its variable. */
  lemma {:induction false} CallGives(net: Net, l: Terms, c: O.Values, n: NodeId, env: Bindings)
    requires MayEvaluate(net, l, c, A(n, 1), env) && A(n, 1) in c.at && net.nodes[n].kind == Destructor
    ensures Gives(net, l, c, A(n, 1), env, c.at[A(n, 1)] + 1)
    decreases c.at[A(n, 1)], 0
  {
    hide Explained, Bound, Matches;
    PortFacts(net, l, c, A(n, 1));
    AuxFacts(net, l, c, n, 0);
    AuxFacts(net, l, c, n, 1);
    var fuel := c.at[A(n, 1)];
    assert O.CallOk(net.nodes, c, n);
    Evaluates(net, l, c, P(n), env);
    GivesMore(net, l, c, P(n), env, c.at[P(n)] + 1, fuel);
    var r := Evaluate(l[P(n)], env, fuel).value;
    MatchKinds(net, l, c, r, c.of[P(n)]);
    match c.of[P(n)]
    case Clo(g) =>
      var inner := Called(r.arg, l[A(n, 0)], env, r.around);
      CalledBound(net, l, c, n, g, env, r);
      AuxFacts(net, l, c, g, 2);
      Evaluates(net, l, c, A(g, 1), inner);
      GivesMore(net, l, c, A(g, 1), inner, c.at[A(g, 1)] + 1, fuel);
    case Void => VoidMatches(net, l, c);
  }

  lemma CalledBound(net: Net, l: Terms, c: O.Values, n: NodeId, g: NodeId, env: Bindings, r: Outcome)
    requires Explained(net, l, c) && n in net.nodes && net.nodes[n].kind == Destructor && O.Passes(c, n, g)
    requires A(n, 0) in l && Bound(net, l, c, env) && Free(l[A(n, 0)]) <= Names(env)
    requires r.Closure? && ClosureIs(net, l, c, r.arg, r.body, r.around, g)
    ensures var inner := Called(r.arg, l[A(n, 0)], env, r.around); Bound(net, l, c, inner) && Free(r.body) <= Names(inner)
  {
    hide Explained, O.Passes;
    ArgumentKind(net, l, c, g);
    assert Free(r.arg) == if r.arg.Var? then {r.arg.name} else {};
    assert Free(Fun(r.arg, r.body)) == Free(r.body) - Free(r.arg);
    if r.arg.Var? {
      assert BoundBy(net, l, c, r.arg.name, l[A(n, 0)], n, g);
    }
  }

  lemma ArgumentKind(net: Net, l: Terms, c: O.Values, g: NodeId)
    requires Explained(net, l, c) && g in net.nodes && net.nodes[g].kind == Constructor
    ensures NamedOrNot(l, g)
  {
  }

  // ----- what one call does -----

  /** The ports so joined carry the argument and the variable, the body and the call: the terms stay what they
      were, up to the call of an abstraction being its body with the argument for the variable. */
  lemma CallMeans(net: Net, l: Terms, c: NodeId, d: NodeId)
    requires Redex(net, c, d) && Annotated(net.nodes, net.wires, l)
    ensures var (w, arg, variable) := (net.wires, net.wires[A(d, 0)], net.wires[A(c, 0)]);
      var body, result := w[A(c, 1)], w[A(d, 1)];
      && arg in l && variable in l && body in l && result in l
      && l[result] == Apply(Fun(l[variable], l[body]), l[arg])
      && forall env, fuel: nat, x :: fuel >= 2 && l[variable] == Var(x) ==>
           Evaluate(l[result], env, fuel) == Evaluate(l[body], Bind(x, l[arg], env, env), fuel - 1)
  {
    hide AllForward, AllCaps, AllRead;
    var w := net.wires;
    assert SameTerm(l, A(d, 0), w[A(d, 0)]) && SameTerm(l, A(c, 0), w[A(c, 0)]) && SameTerm(l, A(c, 1), w[A(c, 1)]) && SameTerm(l, A(d, 1), w[A(d, 1)]);
    assert SameTerm(l, P(c), P(d)) && NodeReads(l, c, net.nodes[c]) && NodeReads(l, d, net.nodes[d]);
    forall env, fuel: nat, x | fuel >= 2 && l[w[A(c, 0)]] == Var(x)
      ensures Evaluate(l[w[A(d, 1)]], env, fuel) == Evaluate(l[w[A(c, 1)]], Bind(x, l[w[A(d, 0)]], env, env), fuel - 1)
    {
      CallIsBody(x, l[w[A(c, 1)]], l[w[A(d, 0)]], env, fuel);
    }
  }

  // ----- whole runs -----

  lemma {:induction false} StaysNested(net: Net, spot: Spots, run: seq<Firing>) returns (last: Spots)
    requires Closed(net) && Nested(net, spot) && CanRun(net, run)
    ensures Closed(Result(net, run)) && Nested(Result(net, run), last)
    decreases |run|
  {
    hide Closed, Nested, Fire, HasRule;
    if run == [] {
      last := spot;
    } else {
      O.ClosedIs(net);
      FireNested(net, spot, run[0]);
      last := StaysNested(Fired(net, run[0]), SpotsAfter(net, spot, run[0]), run[1..]);
    }
  }

  /** A complete run leaves nothing if and only if no constant is called and no closure asked to choose at its end. */
  lemma EmptiesExactly(net: Net, run: seq<Firing>)
    requires Closed(net) && Nestable(net) && CanRun(net, run) && NormalForm(Result(net, run))
    ensures Result(net, run).nodes == map[] <==> !Clashes(Result(net, run))
    ensures 2 * |run| <= Measure.PortCount(net.nodes)
  {
    hide Closed, Nested, NormalForm, Clashes;
    var spot :| Nested(net, spot);
    O.ClosedIs(net);
    NestedIsTame(net, spot);
    RunsAreShort(net, run);
    var last := StaysNested(net, spot, run);
    var end := Result(net, run);
    if !Clashes(end) { StuckIsEmpty(end, last); }
    if end.nodes == map[] { EmptyNoClash(end); }
  }

  lemma EmptyNoClash(net: Net)
    requires net.nodes == map[]
    ensures !Clashes(net)
  {
  }

  /** In the run, the first thing to meet e is a constant, a closure, or neither, as r is. */
  ghost predicate Brings(net: Net, run: seq<Firing>, e: NodeId, r: Outcome)
    requires CanRun(net, run)
  {
    exists v :: O.Meets(net, run, e, v) && Shows(r, v)
  }

  predicate Shows(r: Outcome, v: O.Val) {
    match r
    case Of(p) => v == O.Known(p)
    case Closure(_, _, _) => v.Clo?
    case Gone => v.Void?
  }

  /** A net that stands for the closed term t, discarded in e. */
  ghost predicate StandsFor(net: Net, l: Terms, e: NodeId, t: Term) {
    && Closed(net) && Polarised(net) && Nestable(net) && Annotated(net.nodes, net.wires, l) && ArgumentsApart(net.nodes, l)
    && (forall n :: n in net.nodes && net.nodes[n].kind == Constructor ==> NamedOrNot(l, n))
    && e in net.nodes && net.nodes[e].kind == Eraser && P(e) in l && l[P(e)] == t && t != Missing && Free(t) == {}
  }

  lemma SinkGives(net: Net, l: Terms, c: O.Values, e: NodeId) returns (r: Outcome)
    requires Explained(net, l, c) && e in net.nodes && net.nodes[e].kind == Eraser && P(e) in l && l[P(e)] != Missing && Free(l[P(e)]) == {}
    ensures EvaluatesTo(l[P(e)], r) && P(e) in c.of && Shows(r, c.of[P(e)])
  {
    hide Explained, Bound;
    SinkSource(net, l, c, e);
    var q := net.wires[P(e)];
    EmptyBound(net, l, c);
    Evaluates(net, l, c, q, Empty);
    r := Evaluate(l[q], Empty, c.at[q] + 1).value;
    MatchKinds(net, l, c, r, c.of[q]);
  }

  lemma EmptyBound(net: Net, l: Terms, c: O.Values)
    ensures Bound(net, l, c, Empty) && Names(Empty) == {}
  {
  }

  lemma SinkSource(net: Net, l: Terms, c: O.Values, e: NodeId)
    requires Explained(net, l, c) && e in net.nodes && net.nodes[e].kind == Eraser && P(e) in l && l[P(e)] != Missing
    ensures P(e) in net.wires && Live(net.nodes, net.wires[P(e)]) && net.nodes[net.wires[P(e)].owner].kind != Eraser
    ensures var q := net.wires[P(e)]; q in l && l[q] == l[P(e)] && O.Has(c, q) && P(e) in c.of && c.of[P(e)] == c.of[q]
  {
    hide NodeReads, O.NodeOk, AllForward, AllRead, ArgumentsApart;
    PortFacts(net, l, c, P(e));
    assert CapsMissing(net.nodes, net.wires, l, e);
  }

  /** A run that leaves nothing brings to e what the term evaluates to. */
  lemma RunBrings(net: Net, l: Terms, e: NodeId, t: Term, run: seq<Firing>) returns (r: Outcome)
    requires StandsFor(net, l, e, t) && CanRun(net, run) && Result(net, run).nodes == map[]
    ensures EvaluatesTo(t, r) && Brings(net, run, e, r)
  {
    hide Closed, Polarised, Nested, Annotated, ArgumentsApart, O.Certified, O.Meets, EvaluatesTo;
    var spot :| Nested(net, spot);
    var c := O.RunCertifies(net, spot, run);
    KindsOf(net, spot);
    r := SinkGives(net, l, c, e);
  }

  lemma KindsOf(net: Net, spot: Spots)
    requires Nested(net, spot)
    ensures forall n :: n in net.nodes ==> net.nodes[n].kind in CALL_KINDS
  {
  }

  /** In every complete run without a clash at its end the net empties, and brings to e the one thing that its
      term evaluates to. */
  lemma EveryRunBrings(net: Net, l: Terms, e: NodeId, t: Term, run: seq<Firing>)
    requires StandsFor(net, l, e, t) && CanRun(net, run) && NormalForm(Result(net, run)) && !Clashes(Result(net, run))
    ensures Result(net, run).nodes == map[] && exists r :: EvaluatesTo(t, r) && Brings(net, run, e, r)
    ensures forall r :: EvaluatesTo(t, r) ==> Brings(net, run, e, r)
  {
    hide EvaluatesTo, Brings, Clashes, NormalForm, Annotated, ArgumentsApart;
    EmptiesExactly(net, run);
    var r := RunBrings(net, l, e, t, run);
    forall q | EvaluatesTo(t, q) ensures Brings(net, run, e, q) { OneOutcome(t, q, r); }
  }

  // ----- well-typed nets do not clash -----

  /** The nodes have the port types that the compiler leaves them. */
  ghost predicate AllPlain(nodes: NodeMap) {
    forall n :: n in nodes ==> Plain(nodes[n])
  }

  lemma PlainTyped(nodes: NodeMap)
    requires AllPlain(nodes)
    ensures NodesTyped(nodes)
  {
    forall n | n in nodes ensures NodeTyped(nodes[n]) { assert Plain(nodes[n]); }
  }

  lemma PlainSafe(net: Net, spot: Spots, s: Firing)
    requires WellWired(net) && Nested(net, spot) && AllPlain(net.nodes) && Enabled(net, s)
    ensures TypeSafe(net, s.a, s.b)
  {
    hide Nested, HasRule;
    CallsReact(net, spot, s);
    assert Plain(net.nodes[s.a]) && Plain(net.nodes[s.b]);
  }

  lemma FirePlain(net: Net, spot: Spots, s: Firing)
    requires WellWired(net) && Nested(net, spot) && AllPlain(net.nodes) && Enabled(net, s)
    ensures AllPlain(Fired(net, s).nodes)
  {
    hide Nested, HasRule, EditsAt, ApplyAll;
    AddNodesAll(net.nodes - {s.a, s.b}, s.ids, CreatedAt(net, s.a, s.b));
    forall n | n in Fired(net, s).nodes ensures Plain(Fired(net, s).nodes[n]) {
      if n in s.ids {
        var i :| 0 <= i < |s.ids| && s.ids[i] == n;
        O.CreatedErased(net, spot, s, i);
      } else {
        assert Plain(net.nodes[n]);
      }
    }
  }

  /** On a wire whose types unify, neither is a constant called nor a closure asked to choose. */
  lemma TypedNoClash(net: Net)
    requires WellTyped(net) && AllPlain(net.nodes)
    ensures !Clashes(net)
  {
    forall a, b ensures !Clash(net, a, b) {
      if a in net.nodes && b in net.nodes && P(a) in net.wires && net.wires[P(a)] == P(b) { TypedFaces(net, a, b); }
    }
  }

  lemma TypedFaces(net: Net, a: NodeId, b: NodeId)
    requires WellTyped(net) && AllPlain(net.nodes) && a in net.nodes && b in net.nodes && P(a) in net.wires && net.wires[P(a)] == P(b)
    ensures !(net.nodes[a].kind == Destructor && net.nodes[b].kind == Value) && !(net.nodes[a].kind == Switch && net.nodes[b].kind == Constructor)
  {
    assert Matched(net.nodes, P(a), P(b)) && Plain(net.nodes[a]) && Plain(net.nodes[b]);
    TypesApart();
  }

  lemma TypesApart()
    ensures !Unifiable(ImplicationOf(UNIT, UNIT), UNIT) && !Unifiable(UNIT, ImplicationOf(UNIT, UNIT))
  {
  }

  lemma {:induction false} StaysTyped(net: Net, spot: Spots, run: seq<Firing>)
    requires Closed(net) && Nested(net, spot) && AllPlain(net.nodes) && WellTyped(net) && CanRun(net, run)
    ensures WellTyped(Result(net, run)) && AllPlain(Result(net, run).nodes)
    decreases |run|
  {
    hide Closed, Nested, AllPlain, WellTyped, Fire, HasRule;
    if run != [] {
      var s := run[0];
      O.ClosedIs(net);
      PlainTyped(net.nodes);
      PlainSafe(net, spot, s);
      CallsRegular(net, spot, s);
      FireWellTyped(net, s.a, s.b, s.ids);
      FirePlain(net, spot, s);
      FireNested(net, spot, s);
      StaysTyped(Fired(net, s), SpotsAfter(net, spot, s), run[1..]);
    }
  }

  /** A compiled net without duplicators whose wires are well typed empties in every complete run. */
  lemma TypedEmpties(net: Net, run: seq<Firing>)
    requires Closed(net) && Nestable(net) && AllPlain(net.nodes) && WellTyped(net) && CanRun(net, run) && NormalForm(Result(net, run))
    ensures Result(net, run).nodes == map[]
  {
    hide Closed, Nested, NormalForm, Clashes, AllPlain, WellTyped;
    var spot :| Nested(net, spot);
    StaysTyped(net, spot, run);
    TypedNoClash(Result(net, run));
    EmptiesExactly(net, run);
  }
}
