# Verified models of the Aero Topos graph engines

Aero Topos compiles programs to interaction nets, reduces those nets in place, schedules,
splits, mutates and stores the graphs that come out of them, and uses a handful of classical
algorithms along the way. This project models those engines in Dafny and proves what they are
for. To check the proofs, run `dafny verify dfyconfig.toml` in this directory.

**The net engine** (`MellTypes`, `Wiring`, `Nets`, `Measure`, `Conservation`, `Polarity`,
`SubjectReduction`, `TypedFirings`, `Confluence`, `Renaming`, `NormalForms`, `Machine`, `MachineRuns`, `Irregular`,
`Beta`, `Places`, `Nesting`, `Outcomes`, `HinVm`).
A net is a set of nodes, each with a principal port and some auxiliary ports, and a symmetric
partial wiring of ports. `Nets.Fire` says what one firing does to a net: every rule is a list of
three kinds of local edit (splice two wires, hand a wire to an heir, join two new ports).
`HinVm.HinNetwork` is the engine itself, a class whose fields are updated by the same sequence of
relinkings as in the source, worklist included. Each of its methods is proved to compute a
function of the old state, and the theorems are about those functions and about whole runs. What stops a net
without duplicators is known exactly: as long as every closure's body lies inside the closure, which reduction
keeps true, a run leaves nothing unless a constant is called or a closure is asked to choose.

**The compiler** (`Programs`, `Seats`, `Ownership`, `Dataflow`, `Labelling`, `Annotation`, `Evaluation`, `Denotation`,
`Translator`, `Calls`, `EndToEnd`). A syntax tree becomes a net with every variable turned into wires and
duplicator forks. `Programs.Eval` says independently what a program means: a term for every
expression, closures and calls included, and an account of which reference is resolved in which
scope. The compiler class carries two kinds of bookkeeping: who owns each free port, and which term
each port stands for. Together they give compiler correctness: every program that binds no name twice
compiles to a closed net whose ports carry the terms of the program, with exactly the duplicators that
the references call for; a closed net that the compiler made has no other terms to carry, once the
arguments of its closures are named, so its meaning is in the net; the net of a first-order program is labelled, in only one way, with the
values of its terms; reduction keeps those labels; and in every complete run, in whatever order pairs
fire, that net empties itself and the eraser at the end of the program swallows the value of the
program. `Evaluation.Evaluate` evaluates terms by name, calls included. For every program without forks, whatever closures and
calls it has, firing a closure against a call keeps what the terms evaluate to, and in every complete run that leaves nothing
the eraser at the end of the program meets what the program evaluates to; that is every complete run, if the wires of the
compiled net are well typed.

**Splitting and storing** (`ModuleSplit`, `Worklist`, `Aeroc`). Cutting a net in two along any side
assignment and gluing it back, and writing a net to a container and reading it back, give the same
net.

**Scheduling and crossover** (`Levels`, `Wavefront`, `ScheduleRepair`, `Projection`, `Names`,
`EdgeConservation`, `Verification`, `Splicing`, `Crossover`, `CrossoverPoint`). Repairing a schedule
after mutations gives exactly what computing it anew gives. Replacing a part of one graph by a part of
another conserves arities and port types, by a double-entry account of half edges that are still owed;
every edge added for the boundary leads the way of the records it replaces, and every node sends and receives as
many edges as it did before. The whole crossover transaction is accepted exactly under a condition on its inputs and on the
cycles and signatures of the child.

**Stand-alone algorithms** (`Hypervolume`, `VpTree`, `TopoOrder`, `ParetoFronts`, `Crowding`,
`ParetoArchive`, `Lexing`, `Blueprint`, `BlueprintSource`, `Printing`). Each is a method proved against an independent definition: cells
counted, the minimum over all items, the lexicographically least order, longest chains of
dominators, texts tiled by tokens, token lists derived from a grammar, blueprints printed and parsed back.

`Collections` holds what several modules say about sequences and maps.

## What the proofs found

* A firing conserves edges exactly when the pair is faultless (`Irregular.FiringExactly`), and three
  kinds of pair can be at fault. Duplication captures the far ends of both nodes' wires before it
  relinks them, so a wire between two auxiliary ports inside the pair is left dangling: sharing the
  identity function breaks a closed, polarised net (`Irregular.SharedIdentityBreaks`). Two switches that
  meet lose the second one's wires (`Irregular.TwoSwitchesLose`), unless they lead back to it or into the
  first one's dead ends. Two projections lose the second one's wire (`Irregular.TwoProjectionsLose`).
* A net compiled from a program without forks empties itself exactly when its run does not end with a constant that is
  called or a closure that is asked to choose (`Calls.EmptiesExactly`). The call of a constant does end so
  (`EndToEnd.StuckCall`); with well-typed wires no run does (`Calls.TypedEmpties`).
* A firing of a polarised net keeps it polarised exactly when it does not duplicate a node that has
  auxiliary ports (`Polarity.PolarityExactly`); sharing a constant function is a regular firing of a closed,
  polarised net that joins two outputs (`Irregular.SharedConstantUnpolarises`).
* `unifiable` is not transitive (`MellTypes.UnifiableIsNotTransitive`). It composes through a middle type if and
  only if that type has no wildcards and no missing parts (`MellTypes.ComposesExactly`).
* Rules splice wires past the check that `connect` makes, so reduction can mistype a well-typed net: a switch
  whose branches are typed as wildcards, which the compiler never asks for, joins a constant to an application
  (`Irregular.WildcardSwitchMistypes`). A firing keeps every wire typed exactly when its edits bring unifiable
  ends together (`TypedFirings.FireTypedExactly`), which reads, rule by rule, as a condition on the types at the
  far ends of the wires of the pair.
* Donor ids can collide in crossover: an id that is the prefixed form of another donor id meets it
  when the prefixed form is taken (`Names.DonorNamesCollide`). The child then always fails edge
  conservation, and it never fails it otherwise (`CrossoverPoint.CrossoverAt`). Crossing a conserved graph
  with itself can fail once an earlier crossover has left a prefixed id in it: the two nodes of an edge become
  one, the edge a loop, and the child is refused as cyclic (`CrossoverPoint.SelfCrossoverFails`).
* Pareto domination between objective vectors of different lengths is not transitive
  (`ParetoFronts.BetterIsNotTransitive`). For three lengths it composes if and only if the middle one is zero or
  at least one of the outer two (`ParetoFronts.BetterComposesExactly`). It has no cycles in any case, so non-dominated sorting still places every
  individual (`ParetoFronts.GraphAcyclic`).
* Edge labels of a projected graph do not always tell wires apart: node names may contain what looks like a port and an
  arrow (`Projection.LabelsCollide`). Two wires have one label exactly when one is nested in the names of the other
  (`Projection.LabelsExactly`), which takes a name with an arrow in it.
* The influence zone of a mutation is closed under both successors and predecessors, so the anchoring
  of repaired levels at untouched predecessors never raises a level (`ScheduleRepair.FloorOfClosed`).
* A mutation that names a node which the new graph no longer has puts that node back into the schedule
  (`ScheduleRepair.RemovedNodeStays`). On acyclic graphs repair agrees with recomputation if and only if the
  new graph has every node that a mutation names (`ScheduleRepair.RepairAgreesWithRecompute`).
* At most two members of a front are infinitely far for each of the three objectives (`Crowding.FarFew`), so an archive
  with room for six never loses the best of its pool in any objective (`ParetoArchive.Tracker.Merge`).
* A candidate configuration is lost before it is compared only to a later one that is close to it
  (`ParetoArchive.PoolHolds`), and each candidate puts at most one member out (`ParetoArchive.PoolLoses`).
* A name referred to before it is bound never uses up its count, so its source is forked at every later
  use and the last copy is capped (`Programs.SettledExactly`).

## Modelling choices

* A port is its owner's id and its index (0 for the principal port), and the targets of all ports are one
  map, in which a retired node's entries may stay behind as they do in memory. Clones and reloaded nodes
  have no named port attributes in the source, and the rules for switches and projections read those
  (core/hin_vm.py:575-579, 599-601): such a node raises AttributeError when it fires, where the model fires it.
  Reduction makes no such node in a polarised net (`Polarity.NoNewSelectors`), so every switch or projection that a
  tame run meets was in the net at its start (`NormalForms.SelectorsAreOriginal`).
* Node ids made by `fresh_id` are pairs of a symbol and a serial number. Freshness is an invariant of one
  network's lifetime; for a network that was split or reloaded it is an assumption.
* Constants held by value nodes are opaque codes with a truth value.
* Python's character tests are a parameter of the lexer. `Printing` uses that they answer on the language's own ASCII characters as
  Python's do.
* Exceptions are results (`Option`, or a verdict that says what failed).
* Scheduler ids are ranks in string order; the iteration order of a set is arbitrary. The adjacency lists of a
  graph under crossover are read off its edge records, from which the source rebuilds them.
* Distances, coordinates and objective values are reals or integers: rounding is not modelled.

## Model

| member | source | states |
|---|---|---|
| `MellTypes.UnifiableIsErasedEquality` | core/hin_vm.py:108-136 | on types without wildcards or missing parts, two types unify exactly when they are equal after every Bang is erased |
| `MellTypes.UnifiableSymmetric` | core/hin_vm.py:108-151 | unification does not depend on the order of its arguments |
| `MellTypes.UnifiableThrough` | core/hin_vm.py:108-151 | unification composes through every complete middle type, whatever the outer two are |
| `MellTypes.UnifiableIsNotTransitive` | core/hin_vm.py:108-151 | it does not compose in general: there are three types of which only the outer two fail to unify |
| `MellTypes.ComposesExactly` | core/hin_vm.py:108-151 | unification composes through a middle type, for all outer types, if and only if that type is complete |
| `Measure.FireCount` | core/hin_vm.py:504-603 | for every rule, exactly how many ports a firing removes or adds |
| `Measure.FireShrinks` | core/hin_vm.py:504-603 | the number of ports falls, and then by at least 2, exactly when the firing does not duplicate a node with auxiliary ports |
| `Conservation.EditsExact` | core/hin_vm.py:504-603 | the edits of every rule use up each port of the two retired nodes once and introduce each port of the created nodes once, nothing else |
| `Conservation.FireConserves` | core/hin_vm.py:504-603 | a firing keeps the wiring symmetric and within live ports, and a closed net closed, even when the reacting nodes' auxiliary ports are wired to each other (duplication: when no such wire lies inside the pair) |
| `Polarity.ReactingKinds` | core/hin_vm.py:440-501 | in a polarised net only these pairs ever react; two switches or two projections never meet |
| `Polarity.FirePolarised` | core/hin_vm.py:504-603 | every rule except duplication of a node with auxiliary ports keeps every wire joining an output to an input |
| `Polarity.CopyingUnpolarises` | core/hin_vm.py:520-553 | that duplication always joins two outputs |
| `Polarity.PolarityExactly` | core/hin_vm.py:504-603 | a regular firing of a polarised net leaves it polarised if and only if it is not such a duplication |
| `Polarity.NoNewSelectors` | core/hin_vm.py:504-603 | no firing in a polarised net makes a switch or a projection, copies included |
| `SubjectReduction.FireWellTyped` | core/hin_vm.py:504-603 | all wires still join unifiable types after a firing, when the types that the rule bridges over are complete |
| `TypedFirings.FireTypedExactly` | core/hin_vm.py:504-603 | all wires still join unifiable types after a firing if and only if each edit of the rule brings unifiable ends together, ends that a later edit takes aside |
| `TypedFirings.AnnihilateTypedExactly` | core/hin_vm.py:504-517 | without a wire inside the pair, annihilation keeps a net typed if and only if the far ends of matching auxiliary ports unify |
| `TypedFirings.DuplicateTypedExactly` | core/hin_vm.py:520-553 | duplication does so if and only if the far ends of the duplicator's wires unify with the copied node's type, and the copied node's auxiliary types with the new duplicators' |
| `TypedFirings.SelectTypedExactly` | core/hin_vm.py:565-586 | a switch does so if and only if the far ends of its chosen branch and its output unify, where both lead out of it |
| `Confluence.TameStays` | core/hin_vm.py:504-603 | polarised nets without a duplicator, or without a constructor, stay so and lose at least 2 ports in each step |
| `Confluence.FiringsCommute` | core/hin_vm.py:440-483 | two different reacting pairs can fire in either order, with fresh ids chosen apart, and give the same net |
| `Renaming.FireIso` | core/hin_vm.py:504-603 | firing corresponding pairs in nets that differ only in their ids gives nets that differ only in their ids |
| `NormalForms.RunsAreShort` | core/hin_vm.py:627-632 | a run takes at most half as many steps as the net has ports |
| `NormalForms.SelectorsAreOriginal` | core/hin_vm.py:565-603 | every switch and projection met in a run was in the net, the same, at its start |
| `NormalForms.LocalConfluence` | core/hin_vm.py:440-483 | any two steps from a net lead to the same net up to ids, at once or after one more step each |
| `NormalForms.UniqueNormalForm` | core/hin_vm.py:627-632 | any two complete runs of a net take the same number of steps and end in the same net up to ids |
| `Machine.RelinkTracks` | core/hin_vm.py:419-433 | relinking one wire after the other, reading targets as it goes, implements the edits of a rule on the live wiring although stale targets remain |
| `Machine.MachineFires` | core/hin_vm.py:440-483 | what the engine's mutations do to its state is exactly one firing of the net, and every principal-to-principal wire is again on the worklist |
| `MachineRuns.ReduceOnceFires` | core/hin_vm.py:440-483 | one step skips stale and inert worklist entries, fires one reacting pair, or fires nothing and then the net has no reacting pair at all |
| `MachineRuns.TameRun` | core/hin_vm.py:627-632 | a run of the engine is a run of the net, and ends in a normal form unless it met the step limit |
| `MachineRuns.RunTerminates` | core/hin_vm.py:627-632 | with a step limit above half the number of ports the engine stops by itself |
| `MachineRuns.RunsAgree` | core/hin_vm.py:440-483 | the order of the worklist does not matter: two engines on the same net stop after equally many steps in the same net up to ids |
| `MachineRuns.DuplicationBreaks` | core/hin_vm.py:520-553 | a wire between auxiliary ports inside a duplicated pair is left dangling |
| `MachineRuns.DuplicationExactly` | core/hin_vm.py:520-553 | duplication conserves edges if and only if there is no such wire |
| `MachineRuns.NormalFormExactly` | core/hin_vm.py:485-501 | a net is in normal form if and only if no two facing principal ports could react, kind by kind: no constructor faces a destructor, no switch or projection a value, no eraser or duplicator anything, and no node one of its own kind |
| `MachineRuns.StopsInert` | core/hin_vm.py:627-632 | whenever the engine stops below its limit, no such two are left |
| `MachineRuns.TameStaysConsistent` | core/hin_vm.py:627-632 | on tame nets every step of a run leaves the engine in a consistent state, so this is so for all their runs |
| `Beta.CallJoins` | core/hin_vm.py:504-517 | firing a closure against a call joins the argument's far end to the variable's and the body's to the result's, and leaves the other wires alone |
| `Beta.ProjectionEmits` | core/hin_vm.py:589-603 | a projection that meets a value emits that value, where its output led |
| `Irregular.SwitchesExactly` | core/hin_vm.py:565-586 | two switches that meet keep the wiring symmetric and off retired nodes if and only if every wire of the second leads back to it, or to one of the two ports of the first that the rule joins while the other of them is free or leads to the second |
| `Irregular.ProjectionsExactly` | core/hin_vm.py:589-603 | two projections that meet do so if and only if the auxiliary port of the second is free |
| `Irregular.FiringExactly` | core/hin_vm.py:440-501 | a firing of any reacting pair in any state of the engine conserves edges if and only if the pair meets the condition for its kinds |
| `Irregular.TwoSwitchesLose` | core/hin_vm.py:565-586 | two switches and a value at the second one's other branch: the value is left wired to a retired node |
| `Irregular.TwoProjectionsLose` | core/hin_vm.py:589-603 | two projections and a value at the second one's output: likewise |
| `Irregular.SharedIdentityBreaks` | core/hin_vm.py:520-553 | on a closed and polarised net, duplicating a closure whose argument is its result leaves a dangling wire |
| `Irregular.SharedConstantUnpolarises` | core/hin_vm.py:520-553 | on a closed and polarised net, duplicating a closure that returns a constant keeps the net closed and joins two outputs |
| `Irregular.WildcardSwitchMistypes` | core/hin_vm.py:565-586 | a well-typed, polarised net of a switch with wildcard branches: firing it joins two types that do not unify |
| `HinVm.HinNetwork.Link` | core/hin_vm.py:419-433 | the new targets and worklist of linking two optional ports |
| `HinVm.HinNetwork.Bind` | core/hin_vm.py:407-410 | public binding succeeds exactly on unifiable types, and otherwise changes nothing |
| `HinVm.HinNetwork.RuleAnnihilate` | core/hin_vm.py:504-517 | the in-place rule has the effect of the specified firing on the whole state |
| `HinVm.HinNetwork.RuleDuplicate` | core/hin_vm.py:520-553 | likewise for duplication, clones and new duplicators included |
| `HinVm.HinNetwork.RuleErase` | core/hin_vm.py:556-562 | likewise for erasure |
| `HinVm.HinNetwork.RuleSwitch` | core/hin_vm.py:565-586 | likewise for the conditional |
| `HinVm.HinNetwork.RuleProject` | core/hin_vm.py:589-603 | likewise for projection |
| `HinVm.HinNetwork.ReduceStep` | core/hin_vm.py:440-483 | the worklist loop computes the step that `ReduceOnceFires` is about; when it fires nothing, no two facing principal ports could react |
| `HinVm.HinNetwork.RunToCompletion` | core/hin_vm.py:627-632 | the loop computes the run that the termination and confluence theorems are about, and below the limit leaves no two facing principal ports that could react |
| `HinVm.HinNetwork.ValidateConservation` | core/hin_vm.py:634-650 | true exactly when every auxiliary port is bound, and to a port that is bound back to it |
| `Dataflow.FireRanked` | core/hin_vm.py:520-586 | reduction keeps data flowing from lower to higher ranked nodes |
| `Dataflow.NeverDeadlocks` | core/hin_vm.py:485-501 | a closed net with acyclic data flow that still has a node has a reacting pair |
| `Dataflow.RunsToEmpty` | core/hin_vm.py:627-632 | every complete run of such a net reaches the empty net in at most half as many steps as it has ports |
| `Labelling.FireLabelled` | core/hin_vm.py:520-586 | no firing changes the value of a port that is still there: copies carry what was copied, a switch passes on the branch that its condition selects |
| `Labelling.EraserSwallows` | core/hin_vm.py:556-562 | in every complete run, in any order, each eraser meets a value node that holds the value of the eraser's port |
| `Labelling.LabelsUnique` | core/hin_vm.py:520-586 | a closed net with acyclic data flow has at most one labelling |
| `Nesting.FireNested` | core/hin_vm.py:504-603 | reduction without duplicators keeps every closure's body inside the closure, or, once it is called, in the place of the call |
| `Nesting.StuckIsEmpty` | core/hin_vm.py:485-501 | a closed net of that kind that cannot react is empty, unless a constant is called or a closure asked to choose in it |
| `Outcomes.CertifyBack` | core/hin_vm.py:504-603 | going back over a firing, what each port carries is found again from what the ports carry after it |
| `Outcomes.RunCertifies` | core/hin_vm.py:627-632 | a run that leaves nothing determines what every port of the net carries, and brings it to each eraser |
| `Annotation.AnnotateWire` | core/hin_vm.py:419-433 | wiring an output to a free input makes the two ends carry one term, and the outputs of the node so completed the terms built from it |
| `Annotation.ValuesLabel` | core/translator.py:120-134 | the values of the terms are a labelling of a first-order net |
| `Annotation.AnnotationUnique` | core/translator.py:120-134 | a closed net made of the compiler's nodes, closures and calls included, has at most one annotation with given closure arguments |
| `Evaluation.EvaluatesToMeaning` | core/translator.py:277-308 | on choices between constants, evaluation by name gives the value that the term means |
| `Evaluation.OneOutcome` | core/translator.py:311-334 | a term evaluates to one thing at most |
| `Evaluation.ProgramCloses` | core/translator.py:237-267 | the term of a program has no free variables |
| `Programs.CountIs` | core/translator.py:363-376 | the counting pass adds, for every name, the number of references to it in the tree |
| `Programs.EveryReference` | core/translator.py:237-267 | each reference of a piece of text is accounted for once in every enclosing scope, as resolved there or as passed on |
| `Programs.SettledExactly` | core/translator.py:237-267 | the names of a scope whose source is handed over without a fork are those whose every reference in the scope's text is resolved to it, none before the binding |
| `Programs.ForksAddUp` | core/translator.py:237-267 | the forks counted use by use are, over all scopes, the uses less the names so settled |
| `Ownership.Link` | core/translator.py:349-355 | wiring two ports that the builder holds keeps every free port owned exactly once |
| `Ownership.Leave` | core/translator.py:250-258 | taking a name out of scope hands its port to the builder and to nobody else |
| `Ownership.Enter` | core/translator.py:225-229 | binding a held output to a new name hands it to the scope |
| `Ownership.Pop` | core/translator.py:341-347 | leaving a scope hands over all of its ports, each once |
| `Ownership.Sealed` | core/translator.py:124-134 | when no scope and no builder holds a port, the net is closed |
| `Ownership.SeatsNest` | core/translator.py:184-207 | the places that the builder gives to nodes as it makes them put every closure's body inside the closure |
| `Denotation.DenotesTake` | core/translator.py:250-258 | counting a use and taking the source keeps the entries of every scope carrying the terms of their names, and a name out of scope exactly when no counted use is left |
| `Programs.UseCosts` | core/translator.py:250-263 | a use costs one fork unless it is the last counted one |
| `Denotation.Selected` | core/translator.py:277-296 | a switch with condition and branches wired in order carries the term of the conditional |
| `Denotation.Applied` | core/translator.py:311-334 | an application with callee and argument wired in order carries the term of the call |
| `Denotation.ClosureDone` | core/translator.py:184-207 | a closure whose body is built between its argument wire and its return path carries the abstraction of the one over the other |
| `Denotation.SoFarNext` | core/translator.py:171-181 | one more statement carries environment, remaining references and term forward as evaluation does |
| `Translator.UastToHinTranslator.Build` | core/translator.py:137-168 | the port returned is the only new port to be owned, and carries the term of the tree; the bindings and references left are those of evaluation |
| `Translator.UastToHinTranslator.BuildContainer` | core/translator.py:171-181 | a sequence has the term of its last statement, all other outputs being capped |
| `Translator.UastToHinTranslator.BuildFunction` | core/translator.py:184-207 | an anonymous closure is the principal port of a new constructor, carries the abstraction of its body over its argument, and leaves nothing in scope |
| `Translator.UastToHinTranslator.BuildBinding` | core/translator.py:219-230 | the name is bound to the term of its initialiser, or to nothing |
| `Translator.UastToHinTranslator.Resolve` | core/translator.py:237-267 | a reference returns a port that carries the term of the name, or a constant for a name that is not bound |
| `Translator.UastToHinTranslator.Use` | core/translator.py:250-263 | the last counted use takes the source and makes no node; every other use adds one duplicator, returns its first copy and leaves the second in scope |
| `Translator.UastToHinTranslator.BuildIf` | core/translator.py:277-308 | the switch's output carries the choice between the branches that the condition makes |
| `Translator.UastToHinTranslator.BuildCall` | core/translator.py:311-334 | an application is the second auxiliary port of a new destructor, and carries the application of the callee's term to the first argument's, a missing argument being marked as such |
| `Translator.UastToHinTranslator.PopScope` | core/translator.py:341-347 | every source left in a scope is wired to an eraser |
| `Translator.UastToHinTranslator.Terminate` | core/translator.py:349-355 | a free port gets an eraser, which takes the term of the port; a bound port is left alone |
| `Translator.UastToHinTranslator.TranslateUast` | core/translator.py:124-134 | programs that bind no name twice, closures and calls included, compile to closed polarised nets with exactly as many duplicators as the references of their scopes call for, whose ports carry the terms of the program and whose last eraser carries the term of the program, and that in every annotation of the net; without forks every closure's body lies inside the closure; first-order ones have acyclic data flow |
| `EndToEnd.Compile` | core/translator.py:120-134 | a compiled first-order program yields the value that the program has, if it has one, with the duplicators that its references call for |
| `EndToEnd.YieldsInEveryRun` | core/hin_vm.py:627-632 | a net that yields a value brings it to its eraser in every complete run, and ends empty |
| `EndToEnd.YieldsOnce` | core/translator.py:124-134 | and it cannot yield two values in one place |
| `EndToEnd.EngineEmpties` | core/hin_vm.py:627-632 | the engine empties such a net within half as many steps as it has ports |
| `EndToEnd.TranslateAndRun` | core/translator.py:120-134 | translate then reduce: the engine's run starts from the compiled program and is a run of its net, and below the step limit nothing is left and the run brought the program's value to its end |
| `Calls.CallMeans` | core/hin_vm.py:504-517 | the ports that a fired call joins carry the argument and the variable, the body and the call, and the call evaluates as the body does with the argument for the variable |
| `Calls.Evaluates` | core/hin_vm.py:504-603 | in a net that runs to nothing the term of every port evaluates to what the port carries |
| `Calls.EmptiesExactly` | core/hin_vm.py:627-632 | a complete run of such a net leaves nothing if and only if no constant is called and no closure asked to choose at its end, within half as many steps as the net has ports |
| `Calls.EveryRunBrings` | core/hin_vm.py:627-632 | every complete run without such an end, in any order, leaves nothing and brings to the eraser the one thing that its term evaluates to |
| `Calls.TypedEmpties` | core/hin_vm.py:627-632 | with well-typed wires every complete run leaves nothing |
| `EndToEnd.TranslateAndCall` | core/translator.py:120-134 | translate then reduce, for every program without forks, closures and calls included: below the step limit, which half the ports reach, nothing that could react is left; nothing at all is left unless a constant is called or a closure asked to choose, hence whenever the wires are well typed; and then the run brought to its end what the program evaluates to |
| `EndToEnd.StuckCall` | core/translator.py:311-334 | the program that calls a constant leaves nodes behind |
| `ModuleSplit.SplitModule` | core/translator.py:450-553 | the loop over ports cuts exactly the crossing wires and gives each part its own nodes, its own wires, its caps, and a worklist of all its principal-to-principal wires; with fewer than two nodes the first part is the whole net and the second is empty |
| `ModuleSplit.PartsPartitionNodes` | core/translator.py:474-553 | apart from caps, each part holds exactly the nodes of its side |
| `ModuleSplit.PartWellWired` | core/translator.py:474-553 | each part is symmetrically wired within itself |
| `ModuleSplit.PartClosed` | core/translator.py:474-553 | and closed, if the net was |
| `ModuleSplit.OneContractPerCrossing` | core/translator.py:494-542 | there is exactly one contract for every wire that crosses the cut |
| `ModuleSplit.SplitThenReglue` | core/translator.py:450-553 | dropping the caps and reconnecting the recorded ends restores the net |
| `Worklist.RescanActive` | core/translator.py:586-600 | the rebuilt worklist lists every principal-to-principal wire exactly once |
| `Aeroc.TypeRoundTrip` | core/aeroc.py:65-84 | reading a written type gives the type |
| `Aeroc.ClassesNamed` | core/aeroc.py:34-60 | each class is written and read under its own name |
| `Aeroc.TypesWritten` | core/aeroc.py:65-73 | a record is that of a type exactly when it names the type's connective and wildcard flag and holds the records of its parts |
| `Aeroc.Written` | core/aeroc.py:109-150 | the version, the number of nodes, the active pairs and, for each node in its turn, its class, id, ports by name with type and far end, and its value if it is a value node |
| `Aeroc.DeserializeNetwork` | core/aeroc.py:153-209 | the two passes build the nodes and wires that the records describe, and a worklist of every principal-to-principal wire once |
| `Aeroc.RoundTrip` | core/aeroc.py:109-209 | reading back the records of a closed net gives its classes, types, port order and wires |
| `Aeroc.SaveAndLoad` | core/aeroc.py:109-209 | so saving and loading gives the net again, with a complete worklist |
| `Levels.LevelUnique` | core/wavefront_scheduler.py:30-54 | a graph has at most one assignment of levels in which every node is one above its highest predecessor |
| `Levels.ScheduleUnique` | core/wavefront_scheduler.py:30-54 | and so at most one schedule |
| `Levels.StalledMeansCyclic` | core/wavefront_scheduler.py:51-52 | nodes that each wait for another of them lie on no acyclic graph |
| `Wavefront.ComputeWavefronts` | core/wavefront_scheduler.py:30-54 | the layered sweep returns the schedule of the graph, and fails exactly on cyclic graphs |
| `ScheduleRepair.InfluenceZone` | core/wavefront_scheduler.py:73-91 | the zone holds the mutated nodes and no edge crosses its border |
| `ScheduleRepair.FloorOfClosed` | core/wavefront_scheduler.py:99-107 | no node of the zone has a predecessor outside, so the anchored base level is always 0 |
| `ScheduleRepair.RepairLevels` | core/wavefront_scheduler.py:109-140 | relaxing the zone reaches every node of it with all its edges, or the graph is cyclic |
| `ScheduleRepair.MergedIsLevel` | core/wavefront_scheduler.py:142-154 | old levels outside the zone and new ones inside are the levels of the new graph |
| `ScheduleRepair.UpdateSchedule` | core/wavefront_scheduler.py:56-154 | repair fails exactly on cyclic graphs, and otherwise returns the schedule of the new graph if and only if that graph has every node that a mutation names |
| `ScheduleRepair.RepairAgreesWithRecompute` | core/wavefront_scheduler.py:30-154 | repair and recomputation return the same, failures included, if and only if the new graph is cyclic or has every node that a mutation names |
| `ScheduleRepair.RemovedNodeStays` | core/wavefront_scheduler.py:56-154 | a graph of one node, which is removed: repair schedules it again, recomputation does not |
| `Projection.FromHinNetwork` | core/hin_graph.py:95-172 | the graph has one labelled record for each wire that leads from a smaller to a larger id, with the degrees and types of its ends, and each node lists every neighbour once |
| `Projection.ProjectionAcyclic` | core/hin_graph.py:127-146 | a projected graph is never cyclic |
| `Projection.ConservedProjection` | core/hin_graph.py:95-172 | a projected graph conserves edges if and only if the net is closed, wires no node to itself and joins only unifiable types |
| `Projection.LabelSpells` | core/hin_graph.py:138-141 | a label spells the owner and the port of either end |
| `Projection.LabelsExactly` | core/hin_graph.py:138-141 | two wires have one label if and only if they are the same or one is nested in the names of the other |
| `Projection.LabelsApart` | core/hin_graph.py:138-141 | so wires have different labels where no node's name contains `>` |
| `Projection.LabelsCollide` | core/hin_graph.py:138-141 | four nodes with names for which two wires have one label |
| `Names.FreshAdaptorId` | evolve.py:1405-1411 | the first numbered id that no node has |
| `Names.RenameDonor` | evolve.py:1721-1727 | a donor id prefixed until no node has it |
| `Names.DonorNamesCollide` | evolve.py:1721-1727 | two donor ids get the same name if and only if one is a prefixed form of the other, up to which all forms are taken |
| `Names.CollisionExample` | evolve.py:1721-1727 | a graph with one node in which that happens |
| `EdgeConservation.HinGraph.VerifyEdgeConservation` | core/invariants.py:83-102 | passes exactly when every node has as many edge ends as it expects and every edge has compatible types; otherwise it names a node or an edge that fails |
| `EdgeConservation.HinGraph.RemoveSubgraph` | evolve.py:1308-1328 | exactly the records that touch no removed node stay |
| `EdgeConservation.HinGraph.RebuildDegrees` | evolve.py:1375-1403 | dangling records go, and every derived view agrees with the records again |
| `Splicing.FindMatch` | evolve.py:1420-1436 | the first donor edge whose type is compatible, or none if there is none |
| `Splicing.MatchDirect` | evolve.py:1500-1516 | direct matching leaves all edge ends accounted for: placed, or owed by what is still unmatched; each edge added leads from context to donor for an input and back for an output, with its records' own types, and no record left unmatched fits one left on the other side |
| `Splicing.PairSurplus` | evolve.py:1518-1541 | pairing surplus through adaptors leaves the account balanced, and no surplus on one of the two sides; there is one adaptor for each pair, and its two edges lead the way of the pair's records, each with its record's own type |
| `Splicing.NormalizeInterface` | evolve.py:1479-1660 | after both boundaries are joined nothing is owed any more; on either side outgoing and incoming ends are settled separately, and there is exactly one adaptor for each record of the larger rest that fits nothing in the other |
| `Crossover.ExtractInterface` | evolve.py:1438-1477 | the boundary is exactly the records that enter and those that leave the part |
| `Crossover.ContextSplit` | evolve.py:1308-1328 | the edges that leave a context node, and those that enter it, are those that it keeps and those it has towards the removed part |
| `Crossover.DonorSplit` | evolve.py:1438-1477 | the edges that leave a transplanted part's nodes, and those that enter them, are its inner edges and its boundary's, under the renaming |
| `Crossover.LedgerOpens` | evolve.py:1729-1752 | after the replacement, what every node lacks is what the two boundaries owe it |
| `Crossover.FlowsKept` | evolve.py:1438-1660 | in the child every context node sends and receives as many edges as before, and so does every donor node that keeps its name to itself, apart from the spare edges that one of them is fed |
| `Crossover.MergedGap` | evolve.py:1721-1752 | two donor nodes with edges under one name leave a gap that nothing fills |
| `Crossover.Exchange` | evolve.py:1721-1761 | for all target and donor parts, the child conserves arities and types if no two donor names clash, and only then when every donor node carries an edge; its edges are those kept, those transplanted and those added for the boundary, which lead the way of the boundary records with their types; every node keeps its numbers of incoming and outgoing edges; the parents are unchanged |
| `CrossoverPoint.ConnectedComponent` | evolve.py:1273-1295 | the part is reached from the point along edges, and is all that is reached unless the size bound cut it off |
| `CrossoverPoint.PartCarriesEdges` | evolve.py:1273-1295 | in such a part of two nodes or more, every node carries an edge |
| `CrossoverPoint.NearestArity` | evolve.py:1695-1705 | without a common point, the donor starts at a node whose arity is nearest |
| `CrossoverPoint.CrossoverAt` | evolve.py:1667-1772 | the transaction is refused exactly for a missing point or an empty part; the child has the edges and degrees that `Exchange` gives it, and conserves edges if and only if no two donor names clash; and it is accepted if and only if, besides, it has no cycle and shows the boundary signatures stored for its waves |
| `CrossoverPoint.SelfCrossoverFails` | evolve.py:1667-1772 | two nodes and an edge between them: crossing the graph with itself merges the two and is refused as cyclic |
| `Verification.AcyclicIs` | core/wavefront_scheduler.py:30-54 | the scheduler's view of a graph is acyclic if and only if heights exist that every edge record climbs |
| `Verification.VerifyInterfaces` | core/invariants.py:104-140 | passes exactly when every stored signature is the set of labels that enter and leave its wave, and stores the missing ones |
| `Verification.VerifyAll` | core/invariants.py:182-199 | a graph is accepted if and only if it has no cycle, conserves edges and shows every stored signature; otherwise the outcome says which failed |
| `Hypervolume.Hypervolume2D` | builder_brains/parameter_tuner.py:480-492 | the sweep returns the number of unit cells above the reference and below at least one point |
| `Hypervolume.Hypervolume3D` | builder_brains/parameter_tuner.py:512-526 | the slab sweep returns the number of unit cubes above the reference and below at least one point |
| `Hypervolume.Hypervolume` | builder_brains/parameter_tuner.py:494-526 | points and reference of any lengths are measured in their shared coordinates, at most three: the result is the number of integer vectors above the reference and below a point there, and zero without points |
| `Hypervolume.MeasuredCounts` | builder_brains/parameter_tuner.py:494-526 | the vectors counted have as many coordinates as the shortest of the points and the reference, or three, and are exactly those at or above the reference and below some point in each |
| `Hypervolume.OneMeasure` | builder_brains/parameter_tuner.py:494-526 | and there is only one such number |
| `Hypervolume.Monotone` | builder_brains/parameter_tuner.py:480-492 | adding points never lowers the area, and their order does not matter |
| `Hypervolume.Monotone3` | builder_brains/parameter_tuner.py:494-526 | nor the volume |
| `Hypervolume.NeverLower` | builder_brains/parameter_tuner.py:494-526 | nor the measure, in whatever dimension |
| `VpTree.Partition` | core/spacetime_ledger.py:640-656 | the radius splits the remaining nodes into those within and those beyond, each node in one part |
| `VpTree.Build` | core/spacetime_ledger.py:640-656 | the tree holds exactly the given nodes, inner ones within the radius and outer ones beyond |
| `VpTree.Visit` | core/spacetime_ledger.py:662-677 | the pruned search leaves the nearest of the old best and all nodes of the subtree |
| `VpTree.VantagePointTree.FindNearest` | core/spacetime_ledger.py:658-680 | the result is an item at the minimum distance over all items, and there is none exactly when there are no items |
| `TopoOrder.CycleFinder.Dfs` | blueprint_lang/validator.py:419-434 | the search returns a genuine cycle, or leaves every node that it can reach settled |
| `TopoOrder.FindCycle` | blueprint_lang/validator.py:413-441 | returns a genuine cycle, and nothing exactly when there is none |
| `TopoOrder.TopologicalOrder` | build_graph.py:223-259 | the order respects all dependencies and places the lowest ranked available target each time; it fails exactly on cyclic dependencies |
| `TopoOrder.LexicographicallyLeast` | build_graph.py:223-259 | any other order that respects the dependencies has a higher rank at the first difference |
| `TopoOrder.OrderOrCycle` | build_graph.py:223-259 | an order is missing exactly when the cycle finder returns a cycle |
| `TopoOrder.Stages` | build_graph.py:137-160 | every target is on the stage after its latest dependency, stages keep the order and none is empty |
| `TopoOrder.NoLongerChain` | build_graph.py:137-160 | no chain of dependencies below a target is longer than its stage |
| `TopoOrder.LongestChain` | build_graph.py:137-160 | and one is exactly as long |
| `ParetoFronts.Dominates` | builder_brains/parameter_tuner.py:384-399 | true exactly when no objective is worse and one is better |
| `ParetoFronts.BetterIsNotTransitive` | builder_brains/parameter_tuner.py:384-399 | three vectors of different lengths, each dominating the next, the first not dominating the last |
| `ParetoFronts.BetterComposesExactly` | builder_brains/parameter_tuner.py:384-399 | for vectors of three given lengths, domination composes if and only if the middle length is zero, or at least one of the outer two |
| `ParetoFronts.GraphAcyclic` | builder_brains/parameter_tuner.py:384-399 | domination has no cycle, even between vectors of different lengths |
| `ParetoFronts.FastNonDominatedSort` | builder_brains/parameter_tuner.py:401-438 | for any individuals, repeated ones and vectors of any lengths included, the fronts partition them by rank, and each rank is one above the highest dominator's |
| `ParetoFronts.NoLongerChain` | builder_brains/parameter_tuner.py:401-438 | no chain of dominators above an individual is longer than its rank |
| `ParetoFronts.LongestChain` | builder_brains/parameter_tuner.py:401-438 | and one is exactly as long |
| `Crowding.AssignCrowding` | builder_brains/parameter_tuner.py:440-470 | a member is infinitely far if it is first or last in some objective, or the front has at most two members; otherwise its distance adds up, over the objectives, the gap between its neighbours as a part of the span |
| `Crowding.TotalBounds` | builder_brains/parameter_tuner.py:440-470 | finite distances lie between zero and the number of objectives |
| `Crowding.ExtremesFar` | builder_brains/parameter_tuner.py:440-470 | in every objective a best and a worst member are infinitely far |
| `Crowding.FarFew` | builder_brains/parameter_tuner.py:440-470 | at most two members for each objective are infinitely far |
| `ParetoArchive.AdmitExactly` | builder_brains/parameter_tuner.py:616-623 | a candidate is in the pool after it is admitted, and so is every member but the one that it displaces, the first other one close to it |
| `ParetoArchive.PoolHolds` | builder_brains/parameter_tuner.py:612-623 | every candidate is in the pool unless a different, later one is close to it, and an old member leaves only for a different candidate close to it |
| `ParetoArchive.PoolLoses` | builder_brains/parameter_tuner.py:612-623 | each candidate puts at most one out |
| `ParetoArchive.Tracker.Merge` | builder_brains/parameter_tuner.py:607-635 | the archive is an antichain within capacity, of undominated members of the pool: all of them if they fit, and otherwise as many as fit, none of them less isolated than one that was dropped; every candidate and old member that no later candidate is close to is in it, or beaten by a member of the pool, or was cut to fit; if they fit or the capacity is at least six it holds, for every objective, a best member of the pool; the flag says whether some member's objectives are close to none of the archive before |
| `Lexing.PositionsCount` | blueprint_lang/lexer.py:49-69 | a position's line counts the newlines before its offset and its column counts from the last of them |
| `Lexing.NextExactly` | blueprint_lang/lexer.py:98-205 | a token is produced at an offset exactly when one is spelled there, as long as it can be, with its decoded value |
| `Lexing.LexerExact` | blueprint_lang/lexer.py:86-94 | the tokens are the one tiling of the source by tokens with only whitespace and comments between them |
| `Lexing.Lexer.Tokenize` | blueprint_lang/lexer.py:86-94 | the lexer accepts exactly the sources that have such a tiling, and returns it |
| `Blueprint.ParserExact` | blueprint_lang/nodes.py:6-10 | parsing succeeds exactly on the token lists of the grammar in which no block repeats a key, with that derivation |
| `Blueprint.Unambiguous` | blueprint_lang/nodes.py:6-10 | no token list has two derivations |
| `Blueprint.Parser.ParseValue` | blueprint_lang/parser.py:156-178 | the method consumes exactly what the specified parser does |
| `Blueprint.Parser.ParseList` | blueprint_lang/parser.py:180-201 | likewise for lists |
| `Blueprint.Parser.ParseFields` | blueprint_lang/parser.py:105-126 | likewise for the fields of a block, repeated keys being refused |
| `Blueprint.Parser.Parse` | blueprint_lang/parser.py:80-84 | accepts exactly the blueprints of the grammar |
| `BlueprintSource.ParseText` | blueprint_lang/parser.py:204-207 | from text: accepts exactly the sources whose tiling spells a blueprint, and returns that blueprint |
| `Printing.DecodedQuotes` | blueprint_lang/lexer.py:121-163 | a quoted text decodes to a value exactly when it spells the value, character by character, with the escapes written out |
| `Printing.PrintThenParse` | blueprint_lang/parser.py:204-207 | a valid blueprint printed with its braces, brackets, equals signs, commas, booleans, quoted strings and their escapes, numbers and identifiers parses back to itself |

## Left out

- Translator.UastToHinTranslator.TranslateUast: declared function names and rebinding a name are not modelled, because a named closure's port is both in scope and returned, and a rebound source is overwritten, so ports there have no single owner.
- EndToEnd.TranslateAndCall: programs without forks. In a program that both calls closures and uses names twice, a firing can duplicate a closure, which leaves the polarised nets that the reduction theorems are about (`Polarity.PolarityExactly`) and can leave a dangling wire (`Irregular.SharedIdentityBreaks`).
- CrossoverPoint.CrossoverAt: node classes and types other than MELL types are not modelled, and a donor node for spare edges is chosen arbitrarily. The spectral check is not made by crossover.
- EdgeConservation.HinGraph.RemoveSubgraph: adjacency lists and the edge list are not fields; they are read off the records (`Verification.SchedulingGraph`).
- EdgeConservation.HinGraph.RebuildDegrees: likewise.
- HinVm.HinNetwork.RuleSwitch: a switch that was cloned or reloaded fires, where the source raises AttributeError.
- HinVm.HinNetwork.RuleProject: likewise for a projection.
- SubjectReduction.FireWellTyped: a sufficient condition that can be read off the pair alone; the exact one is in `TypedFirings`.
- TypedFirings.AnnihilateTypedExactly: for pairs with a wire inside, the condition is the general one of `FireTypedExactly`.
- MachineRuns.RunsAgree: holds for polarised nets that do not mix duplicators and constructors; two switches or two projections never meet in those.
- ParetoArchive.Tracker.Merge: closeness of configurations is an arbitrary relation and objectives are integers; the hypervolume history and its averages are not modelled.
- Hypervolume.Hypervolume: integer coordinates.
- VpTree.VantagePointTree.FindNearest: an arbitrary symmetric distance with the triangle inequality stands for the ledger's own.
- Lexing.Lexer.Tokenize: the text of a number, not its numeric value; a digit that Python's int refuses is lexed as a digit. Error messages, and the spans that they point at, are left out.
- Blueprint.Parser.Parse: spans and error texts are left out.
- Aeroc.RoundTrip: contract ids, wire types and ledger paths are not in the container either, and the encoding of constants is kept abstract.
- Aeroc.DeserializeNetwork: a record with an unregistered class name, which the source reads as a node of the base class, has no kind in the model; a type that cannot be read raises in the source.
- ModuleSplit.SplitModule: the side of each node is given; computing it from the Fiedler vector, with its fallback to the median, is numerical, and cap ids are assumed unused.
- TopoOrder.FindCycle: the other stages of validation, which are field by field.
- The ledger, cache and telemetry of the universal network: both of its branches call the same rewriting.
- Eigenvectors, perturbation sweeps and the other numerical modules.
- Build orchestration, staging, language services, scaffolding and the user interface.
