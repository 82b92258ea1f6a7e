/** Compile, then reduce: every first-order program that binds no name twice becomes a net that the
    engine reduces to nothing, and on the way its last eraser swallows the value of the program. */
module EndToEnd {
  import opened MellTypes
  import opened Wiring
  import opened Nets
  import opened Measure
  import opened Polarity
  import opened Confluence
  import opened NormalForms
  import opened Machine
  import opened MachineRuns
  import opened HinVm
  import opened Dataflow
  import opened Programs
  import opened Labelling
  import N = Annotation
  import Nesting
  import Evaluation
  import S = SubjectReduction
  import C = Calls
  import D = Denotation
  import opened Translator

  /** However the worklist is ordered, the engine empties a closed net with acyclic
      data flow within half as many steps as it has ports. */
  lemma EngineEmpties(vm: Vm, max: nat)
    requires Consistent(vm) && DataflowNet(View(vm)) && PortCount(vm.nodes) < 2 * max
    ensures RunAll(vm, max).0.nodes == map[] && 2 * RunAll(vm, max).1 <= PortCount(vm.nodes)
  {
    var rank :| Ranked(View(vm), rank);
    RankedIsTame(View(vm), rank);
    RunTerminates(vm, max);
    var run := TameRun(vm, max);
    RunsToEmpty(View(vm), run);
  }

  lemma EngineNeverSticks(vm: Vm, max: nat)
    requires Consistent(vm) && DataflowNet(View(vm)) && RunAll(vm, max).1 < max
    ensures RunAll(vm, max).0.nodes == map[]
  {
    var rank :| Ranked(View(vm), rank);
    RankedIsTame(View(vm), rank);
    var run := TameRun(vm, max);
    RunsToEmpty(View(vm), run);
  }

  /** Reduce a compiled first-order net: half its ports, rounded up, are steps enough. */
  method ReduceCompiled(net: HinNetwork, maxSteps: nat) returns (steps: nat)
    requires net.Sound() && Consistent(net.State()) && DataflowNet(View(net.State()))
    modifies net
    ensures steps <= maxSteps && (steps < maxSteps ==> net.nodes == map[])
    ensures net.State() == RunAll(old(net.State()), maxSteps).0 && steps == RunAll(old(net.State()), maxSteps).1
    ensures old(PortCount(net.nodes)) < 2 * maxSteps ==> net.nodes == map[] && 2 * steps <= old(PortCount(net.nodes))
  {
    ghost var compiled := net.State();
    steps := net.RunToCompletion(maxSteps);
    RunLimit(compiled, maxSteps);
    if steps < maxSteps { EngineNeverSticks(compiled, maxSteps); }
    if PortCount(compiled.nodes) < 2 * maxSteps { EngineEmpties(compiled, maxSteps); }
  }

  lemma {:induction false} RunLimit(vm: Vm, max: nat)
    ensures RunAll(vm, max).1 <= max
    decreases max
  {
    if max > 0 && ReduceOnce(vm).1.Some? { RunLimit(ReduceOnce(vm).0, max - 1); }
  }

  /** A net that computes v and discards it in e. */
  ghost predicate Yields(net: Net, e: NodeId, v: Payload) {
    && DataflowNet(net) && e in net.nodes && net.nodes[e].kind == Eraser
    && exists l :: LabelledNet(net, l) && P(e) in l && l[P(e)] == v
  }

  /** In whatever order its pairs fire, such a net brings v to e. */
  lemma YieldsInEveryRun(net: Net, e: NodeId, v: Payload, run: seq<Firing>)
    requires Yields(net, e, v) && CanRun(net, run) && NormalForm(Result(net, run))
    ensures Swallows(net, run, e, v) && Result(net, run) == Net(map[], map[])
  {
    hide DataflowNet, LabelledNet, NormalForm, Swallows;
    var l :| LabelledNet(net, l) && P(e) in l && l[P(e)] == v;
    EraserSwallows(net, l, run, e);
    RunsToEmpty(net, run);
  }

  /** The same net cannot yield two values at one place. */
  lemma YieldsOnce(net: Net, e: NodeId, v: Payload, u: Payload)
    requires Yields(net, e, v) && Yields(net, e, u)
    ensures v == u
  {
    hide LabelledNet, Acyclic;
    var l :| LabelledNet(net, l) && P(e) in l && l[P(e)] == v;
    var m :| LabelledNet(net, m) && P(e) in m && m[P(e)] == u;
    LabelsUnique(net, l, m);
    assert Live(net.nodes, P(e));
  }

  /** Compilation is correct: the net yields the value of the program, if it has one, and has one
      duplicator for each fork. */
  method Compile(program: seq<Uast>) returns (net: HinNetwork, ghost sink: Option<NodeId>)
    requires AllBindOnce(program) && AllFirstOrder(program)
    ensures fresh(net) && net.Sound() && Consistent(net.State()) && DataflowNet(View(net.State()))
    ensures D.Duplicators(net.nodes) == ProgramForks(program)
    ensures sink.Some? == ProgramValue(program).Some?
    ensures sink.Some? ==> Yields(View(net.State()), sink.value, ProgramValue(program).value)
  {
    hide AllBindOnce, AllFirstOrder, DataflowNet, ProgramTerm, ProgramForks, N.Annotated, D.Duplicators, View, Meaning;
    var translator := new UastToHinTranslator(true);
    net, sink := translator.TranslateUast(program);
    if sink.Some? { Found(net.State(), sink.value, ProgramTerm(program).value, translator.sem.terms); }
  }

  lemma Found(vm: Vm, e: NodeId, t: Term, terms: N.Terms)
    requires DataflowNet(View(vm)) && N.Annotated(vm.nodes, View(vm).wires, terms) && P(e) in terms && terms[P(e)] == t
    requires e in vm.nodes && vm.nodes[e].kind == Eraser
    ensures Yields(View(vm), e, Meaning(t))
  {
    hide N.Annotated, Closed, LabelledNet, Meaning;
    var rank :| Ranked(View(vm), rank);
    N.ValuesLabel(View(vm), terms);
    var l := N.Values(terms);
    assert LabelledNet(View(vm), l) && P(e) in l && l[P(e)] == Meaning(t);
  }

  lemma EngineRun(vm: Vm, max: nat) returns (run: seq<Firing>)
    requires Consistent(vm) && DataflowNet(View(vm))
    ensures CanRun(View(vm), run) && |run| == RunAll(vm, max).1 && Result(View(vm), run) == View(RunAll(vm, max).0)
    ensures |run| < max ==> NormalForm(Result(View(vm), run))
  {
    var rank :| Ranked(View(vm), rank);
    RankedIsTame(View(vm), rank);
    run := TameRun(vm, max);
  }

  /** translate followed by run_to_completion, from the compiled state to the last: it never deadlocks,
      that is, unless it ran into the step limit it leaves nothing, and the firings that the engine made
      brought the program's value to the end. */
  method TranslateAndRun(program: seq<Uast>, maxSteps: nat)
      returns (net: HinNetwork, steps: nat, ghost compiled: Vm, ghost run: seq<Firing>, ghost sink: Option<NodeId>)
    requires AllBindOnce(program) && AllFirstOrder(program)
    ensures Consistent(compiled) && DataflowNet(View(compiled)) && D.Duplicators(compiled.nodes) == ProgramForks(program)
    ensures sink.Some? == ProgramValue(program).Some?
    ensures sink.Some? ==> Yields(View(compiled), sink.value, ProgramValue(program).value)
    ensures fresh(net) && net.State() == RunAll(compiled, maxSteps).0 && steps == RunAll(compiled, maxSteps).1
    ensures CanRun(View(compiled), run) && |run| == steps && Result(View(compiled), run) == View(net.State())
    ensures steps <= maxSteps && (steps < maxSteps ==> net.nodes == map[])
    ensures steps < maxSteps && sink.Some? ==> Swallows(View(compiled), run, sink.value, ProgramValue(program).value)
    ensures PortCount(compiled.nodes) < 2 * maxSteps ==> steps < maxSteps
  {
    hide AllBindOnce, AllFirstOrder, Consistent, DataflowNet, Yields, ProgramValue, ProgramForks, Swallows, NormalForm, View, RunAll;
    net, sink := Compile(program);
    compiled := net.State();
    steps := ReduceCompiled(net, maxSteps);
    run := EngineRun(compiled, maxSteps);
    if steps < maxSteps && sink.Some? { YieldsInEveryRun(View(compiled), sink.value, ProgramValue(program).value, run); }
  }

  // ----- closures and calls -----

  /** A program without forks compiles to a net that stands for the program's term. */
  method CompileCalls(program: seq<Uast>) returns (net: HinNetwork, ghost sink: Option<NodeId>, ghost terms: N.Terms)
    requires AllBindOnce(program) && ProgramForks(program) == 0
    ensures fresh(net) && net.Sound() && Consistent(net.State()) && Closed(View(net.State())) && Nesting.Nestable(View(net.State()))
    ensures C.AllPlain(net.nodes) && sink.Some? == ProgramTerm(program).Some?
    ensures sink.Some? ==> C.StandsFor(View(net.State()), terms, sink.value, ProgramTerm(program).value)
  {
    hide AllBindOnce, ProgramTerm, ProgramForks, N.Annotated, D.Duplicators, View, Nesting.Nestable, D.ArgumentsApart, D.ArgumentsNamed, N.OnlyTerm, Consistent, Closed, C.StandsFor;
    var translator := new UastToHinTranslator(false);
    net, sink := translator.TranslateUast(program);
    terms := translator.sem.terms;
    PlainNodes(net.nodes, View(net.State()).wires, terms);
    Evaluation.ProgramCloses(program);
    if sink.Some? {
      Stands(net.State(), terms, translator.sem.named, sink.value, ProgramTerm(program).value);
    }
  }

  lemma Stands(vm: Vm, l: N.Terms, named: set<string>, e: NodeId, t: Term)
    requires Closed(View(vm)) && Polarised(View(vm)) && Nesting.Nestable(View(vm)) && N.Annotated(vm.nodes, View(vm).wires, l)
    requires D.ArgumentsApart(vm.nodes, l) && D.ArgumentsNamed(vm.nodes, l, named)
    requires e in vm.nodes && vm.nodes[e].kind == Eraser && P(e) in l && l[P(e)] == t && t != Missing && Evaluation.Free(t) == {}
    ensures C.StandsFor(View(vm), l, e, t)
  {
    hide Closed, Polarised, Nesting.Nestable, N.Annotated, D.ArgumentsApart;
  }

  lemma PlainNodes(nodes: NodeMap, w: Wires, l: N.Terms)
    requires N.Annotated(nodes, w, l)
    ensures C.AllPlain(nodes)
  {
    forall n | n in nodes ensures N.Plain(nodes[n]) { assert N.Compiled(n, nodes[n]); }
  }

  /** However the worklist is ordered, the engine's run on such a net is a run of the net, is over within half as many
      steps as the net has ports, and leaves nothing unless it ends in a clash. */
  lemma CallsRun(vm: Vm, max: nat) returns (run: seq<Firing>)
    requires Consistent(vm) && Closed(View(vm)) && Nesting.Nestable(View(vm))
    ensures CanRun(View(vm), run) && |run| == RunAll(vm, max).1 <= max && Result(View(vm), run) == View(RunAll(vm, max).0)
    ensures |run| < max ==> (RunAll(vm, max).0.nodes == map[] <==> !Nesting.Clashes(View(RunAll(vm, max).0)))
    ensures |run| < max ==> NormalForm(Result(View(vm), run)) && Inert(Result(View(vm), run))
    ensures PortCount(vm.nodes) < 2 * max ==> |run| < max
  {
    hide Consistent, Closed, Nesting.Nested, Nesting.Clashes, NormalForm, Inert;
    var spot :| Nesting.Nested(View(vm), spot);
    CloseWired(View(vm));
    Nesting.NestedIsTame(View(vm), spot);
    run := TameRun(vm, max);
    RunsAreShort(View(vm), run);
    if |run| < max {
      C.EmptiesExactly(View(vm), run);
      NormalFormExactly(Result(View(vm), run));
    }
  }

  lemma CloseWired(net: Net)
    requires Closed(net)
    ensures WellWired(net)
  {
  }

  /** translate followed by run_to_completion for programs with closures and calls: unless it ran into the step
      limit, the engine leaves nothing that could react; it leaves nothing at all unless a constant is called or a closure asked to
      choose, which well-typed wires rule out; and then its firings brought to the end what the program evaluates to. */
  method TranslateAndCall(program: seq<Uast>, maxSteps: nat)
      returns (net: HinNetwork, steps: nat, ghost compiled: Vm, ghost run: seq<Firing>, ghost sink: Option<NodeId>)
    requires AllBindOnce(program) && ProgramForks(program) == 0
    ensures Consistent(compiled) && Closed(View(compiled)) && sink.Some? == ProgramTerm(program).Some?
    ensures fresh(net) && net.State() == RunAll(compiled, maxSteps).0 && steps == RunAll(compiled, maxSteps).1 <= maxSteps
    ensures CanRun(View(compiled), run) && |run| == steps && Result(View(compiled), run) == View(net.State())
    ensures PortCount(compiled.nodes) < 2 * maxSteps ==> steps < maxSteps
    ensures steps < maxSteps ==> Inert(View(net.State())) && (net.nodes == map[] <==> !Nesting.Clashes(View(net.State())))
    ensures steps < maxSteps && S.WellTyped(View(compiled)) ==> net.nodes == map[]
    ensures steps < maxSteps && net.nodes == map[] && sink.Some? ==>
      exists r :: Evaluation.EvaluatesTo(ProgramTerm(program).value, r) && C.Brings(View(compiled), run, sink.value, r)
  {
    hide AllBindOnce, ProgramTerm, ProgramForks, View, Nesting.Nestable, Nesting.Clashes, Consistent, Closed, C.StandsFor, C.Brings, Inert, NormalForm,
         Evaluation.EvaluatesTo, C.AllPlain, S.WellTyped, RunAll;
    ghost var terms;
    net, sink, terms := CompileCalls(program);
    compiled := net.State();
    steps := net.RunToCompletion(maxSteps);
    run := CallsRun(compiled, maxSteps);
    if steps < maxSteps && S.WellTyped(View(compiled)) {
      SameNodes(compiled);
      C.TypedEmpties(View(compiled), run);
    }
    SameNodes(net.State());
    if steps < maxSteps && net.nodes == map[] && sink.Some? {
      ghost var r := C.RunBrings(View(compiled), terms, sink.value, ProgramTerm(program).value, run);
    }
  }

  lemma SameNodes(vm: Vm)
    ensures View(vm).nodes == vm.nodes
  {
  }

  lemma CallTerm(v: Payload)
    ensures var program := [Call(Some(Literal(v)), [])];
      AllBindOnce(program) && ProgramForks(program) == 0 && ProgramTerm(program) == Some(Apply(Lit(v), Missing))
  {
    var program := [Call(Some(Literal(v)), [])];
    var env := Pushed(NOWHERE, program);
    var none: seq<Uast> := [];
    assert program[1..] == none;
    assert AllBinders(none) == {};
    assert AllBindOnce(none);
    assert BindsOnce(program[0]);
    assert Settled(env.scopes[0]) == {};
    assert EvalOpt(Some(Literal(v)), NIL, env) == (env, Lit(v));
    assert EvalArgument([], env) == (env, Missing);
    assert Eval(program[0], env) == (env, Some(Apply(Lit(v), Missing)));
    assert program[1..] == [] && EvalAll(program, env, None) == EvalAll([], env, Some(Apply(Lit(v), Missing)));
  }

  /** The call of a constant does get stuck. */
  method StuckCall(v: Payload, maxSteps: nat) returns (net: HinNetwork, steps: nat)
    ensures fresh(net) && (steps < maxSteps ==> net.nodes != map[])
  {
    CallTerm(v);
    var program := [Call(Some(Literal(v)), [])];
    ghost var compiled, run, sink;
    net, steps, compiled, run, sink := TranslateAndCall(program, maxSteps);
    forall r ensures !Evaluation.EvaluatesTo(Apply(Lit(v), Missing), r) { Evaluation.NoCallOfConstants(v, Missing, r); }
  }
}
