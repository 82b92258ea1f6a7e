/** The compiler frontend (core/translator.py, class UASTToHINTranslator): a syntax
    tree is walked once and every variable is eliminated into wires and
    duplicator forks. Function declarations are anonymous here. */
module Translator {
  import opened Collections
  import opened MellTypes
  import opened Wiring
  import opened Nets
  import opened Measure
  import opened Polarity
  import opened Machine
  import opened HinVm
  import opened Dataflow
  import opened Programs
  import opened Annotation
  import opened Evaluation
  import opened Denotation
  import opened Places
  import opened Nesting
  import opened Seats

  function OptSet(p: Option<Port>): set<Port> {
    if p.Some? then {p.value} else {}
  }

  class UastToHinTranslator {
    var scopeStack: seq<map<string, Port>>
    var refRemaining: seq<Counts>
    ghost var flow: Plan
    ghost var sem: Sem

    /** The ownership discipline, with the ports that callers are still holding. */
    ghost predicate Building(net: HinNetwork, pending: set<Port>)
      reads this, net
    {
      && net.Sound() && |scopeStack| == |refRemaining|
      && O.Building(net.State(), scopeStack, pending, flow)
      && Faithful(net)
    }

    /** The net computes what the program so far means, with one duplicator for each fork. */
    ghost predicate Faithful(net: HinNetwork)
      reads this, net
    {
      Means(net.State(), scopeStack, refRemaining, sem)
    }

    /** Some scope is open. */
    ghost predicate Scoped()
      reads this
    {
      scopeStack != [] && sem.env.scopes != [] && |scopeStack| == |flow.open| + 1
    }

    /** A closure is about to be compiled, or just has been. */
    ghost predicate Inner()
      reads this
    {
      scopeStack != [] && sem.env.scopes != [] && |scopeStack| == |flow.open|
    }

    /** Names in scope afterwards: at most the old ones, plus some in the innermost frame. */
    twostate predicate KeysGrowBy(names: set<string>)
      reads this
    {
      && |scopeStack| == |old(scopeStack)|
      && forall i :: 0 <= i < |scopeStack| ==>
        scopeStack[i].Keys <= old(scopeStack)[i].Keys + if i == |scopeStack| - 1 then names else {}
    }

    twostate predicate ArgumentsGrowBy(names: set<string>)
      reads this
    {
      sem.named <= old(sem.named) + names
    }

    twostate predicate ScopesGrowBy(names: set<string>)
      reads this
    {
      KeysGrowBy(names) && ArgumentsGrowBy(names)
    }

    ghost predicate KeysUnbound(names: set<string>)
      reads this
    {
      forall i :: 0 <= i < |scopeStack| ==> scopeStack[i].Keys !! names
    }

    /** Neither in scope nor the name of an argument so far. */
    ghost predicate Unbound(names: set<string>)
      reads this
    {
      KeysUnbound(names) && sem.named !! names
    }

    /** Nodes stay as they are, and so do their seats and the place where the next ones go. */
    twostate predicate KeepsNodes(net: HinNetwork)
      reads this, net
    {
      flow.firstOrder == old(flow.firstOrder) && O.Onward(old(net.State()), old(flow), net.State(), flow)
    }

    /** The inputs of the call or switch id are being compiled. */
    ghost predicate Fed(net: HinNetwork, id: NodeId, k: Kind)
      reads this, net
    {
      id in net.nodes && net.nodes[id].kind == k && id in flow.at && Accepts(flow, flow.at[id])
    }

    /** What is being compiled may be wired to q. */
    ghost predicate Target(net: HinNetwork, q: Port)
      reads this, net
    {
      && q.owner in net.nodes && q.owner in flow.at && q.index < 3 && Takes(net.nodes[q.owner], q)
      && net.nodes[q.owner].kind in {Constructor, Destructor, Switch} && FlowOf(net.nodes[q.owner].kind, q.index) == In
      && Accepts(flow, SpotAt(net.nodes, flow.at, q))
    }

    /** A wire, once made, stays. */
    twostate predicate KeepsWires(net: HinNetwork)
      reads net
    {
      forall p :: p in old(net.target) ==> p in net.target && net.target[p] == old(net.target)[p]
    }

    /** An eraser took the port. */
    ghost predicate Capped(net: HinNetwork, port: Port)
      reads net
    {
      && port in net.target && net.target[port].index == 0
      && net.target[port].owner in net.nodes && net.nodes[net.target[port].owner].kind == Eraser
    }

    ghost predicate AllCapped(net: HinNetwork, frame: map<string, Port>)
      reads net
    {
      forall n :: n in frame ==> Capped(net, frame[n])
    }

    /** The port that a builder returns: pending on top of what its caller holds. */
    ghost predicate Returns(net: HinNetwork, pending: set<Port>, out: Option<Port>)
      reads this, net
    {
      && Building(net, pending + OptSet(out))
      && (out.Some? ==> out.value !in pending && O.Ready(net.State(), pending + {out.value}, flow, out.value))
    }

    constructor (firstOrder: bool)
      ensures scopeStack == [] && refRemaining == [] && flow == Plan(firstOrder, map[], [], [])
    {
      scopeStack, refRemaining := [], [];
      flow, sem := Plan(firstOrder, map[], [], []), Sem(NOWHERE, map[], [], 0, None, {});
    }

    /** Create and register a node; its ports are now the builder's. A duplicator is to fork src. */
    method NewNode(net: HinNetwork, x: Node, ghost arg: Term, ghost src: Port, ghost pending: set<Port>) returns (id: NodeId)
      requires Building(net, pending) && |x.aux| == Arity(x.kind) && Plain(x)
      requires (flow.firstOrder ==> x.kind in FLOW_KINDS) && (x.kind == Duplicator ==> sem.absent.Some?)
      requires O.ForkSource(net.State(), flow, x.kind, src) && FreshArgument(x.kind, arg, sem.named)
      modifies this`flow, this`sem, net
      ensures Building(net, pending + NodePorts(id, x)) && NodePorts(id, x) !! pending
      ensures id !in old(net.nodes) && net.nodes == old(net.nodes)[id := x] && net.target == old(net.target)
      ensures NodeEffect(old(sem), sem, id, x, arg) && net.serial == old(net.serial) + 1 && id !in old(flow.at)
      ensures id == Gensym(x.kind, old(net.serial)) && flow == O.Seating(old(net.State()), old(flow), id, x.kind, src)
      ensures net.State() == O.WithNode(old(net.State()), id, x)
    {
      hide O.Building, Means, View, NodeEffect, NodeSem, O.Seating;
      ghost var fresh_ := Gensym(x.kind, net.serial);
      O.Add(net.State(), scopeStack, pending, flow, fresh_, x, src);
      AnnotateMore(net, fresh_, x, arg, pending);
      ghost var seated := O.Seating(net.State(), flow, fresh_, x.kind, src);
      id := net.FreshId(x.kind);
      net.RegisterNode(id, x);
      flow, sem := seated, NodeSem(sem, id, x, arg);
    }

    lemma AnnotateMore(net: HinNetwork, id: NodeId, x: Node, arg: Term, pending: set<Port>)
      requires Building(net, pending) && id == Gensym(x.kind, net.serial) && |x.aux| == Arity(x.kind) && id !in net.nodes
      requires Plain(x) && (x.kind == Duplicator ==> sem.absent.Some?) && FreshArgument(x.kind, arg, sem.named)
      ensures Means(O.WithNode(net.State(), id, x), scopeStack, refRemaining, NodeSem(sem, id, x, arg))
      ensures NodeEffect(sem, NodeSem(sem, id, x, arg), id, x, arg)
    {
      hide AllDenote, Duplicators, ArgumentsApart, ArgumentsNamed, AllForward, AllCaps, NodeReads, O.Owned, O.AllAvailable, O.FlowsSoFar;
      MeansNode(net.State(), scopeStack, refRemaining, sem, id, x, arg);
    }

    /** A node with two auxiliary ports. */
    method NewBinary(net: HinNetwork, x: Node, ghost arg: Term, ghost src: Port, ghost pending: set<Port>) returns (id: NodeId)
      requires Building(net, pending) && |x.aux| == 2 && Arity(x.kind) == 2 && Plain(x)
      requires (flow.firstOrder ==> x.kind == Duplicator) && (x.kind == Duplicator ==> sem.absent.Some?)
      requires O.ForkSource(net.State(), flow, x.kind, src) && FreshArgument(x.kind, arg, sem.named)
      modifies this`flow, this`sem, net
      ensures Building(net, pending + {P(id), A(id, 0), A(id, 1)}) && pending !! {P(id), A(id, 0), A(id, 1)}
      ensures id !in old(net.nodes) && net.nodes == old(net.nodes)[id := x] && net.target == old(net.target)
      ensures Quiet(old(sem), sem) && sem.named == NamesWith(old(sem.named), x.kind, arg) && sem.made == old(sem.made) + if x.kind == Duplicator then 1 else 0
      ensures x.kind == Constructor ==> Carries(sem, A(id, 0), arg)
      ensures net.serial == old(net.serial) + 1 && id !in old(flow.at)
      ensures id == Gensym(x.kind, old(net.serial)) && flow == O.Seating(old(net.State()), old(flow), id, x.kind, src)
      ensures net.State() == O.WithNode(old(net.State()), id, x)
    {
      hide O.Building, O.Seating;
      id := NewNode(net, x, arg, src, pending);
      assert NodePorts(id, x) == {P(id), A(id, 0), A(id, 1)};
    }

    /** A switch. */
    method NewSwitch(net: HinNetwork, ghost pending: set<Port>) returns (id: NodeId)
      requires Building(net, pending)
      modifies this`flow, this`sem, net
      ensures Building(net, pending + {A(id, 2)} + {A(id, 0), A(id, 1)} + {P(id)}) && Idle(old(sem), sem)
      ensures pending !! {P(id), A(id, 0), A(id, 1), A(id, 2)}
      ensures id !in old(net.nodes) && net.nodes == old(net.nodes)[id := SwitchNode(UNIT)] && net.target == old(net.target)
      ensures net.serial == old(net.serial) + 1 && id !in old(flow.at)
      ensures id == Gensym(Switch, old(net.serial)) && flow == O.Seating(old(net.State()), old(flow), id, Switch, P(id))
    {
      hide O.Building, O.Seating;
      var x := SwitchNode(UNIT);
      id := NewNode(net, x, Missing, P(Gensym(Switch, net.serial)), pending);
      assert NodePorts(id, x) == {P(id), A(id, 0), A(id, 1), A(id, 2)};
      assert pending + NodePorts(id, x) == pending + {A(id, 2)} + {A(id, 0), A(id, 1)} + {P(id)};
    }

    /** A new closure, call or switch takes its inputs; its seat is before everything still to come. */
    lemma Opened(vm: Vm, before: Plan, id: NodeId, k: Kind, src: Port)
      requires id.Gensym? && k in {Constructor, Destructor, Switch} && id !in before.at
      ensures var f := O.Seating(vm, before, id, k, src);
        && id in f.at && f.at[id] == Seat(before, id.serial) && Closes(f, before, id.serial)
        && (forall n :: n in before.at ==> n in f.at && f.at[n] == before.at[n]) && f.firstOrder == before.firstOrder
        && Accepts(f, if k == Constructor then f.at[id] + [Last] else f.at[id]) && (k == Constructor ==> f.open == f.at[id])
        && |f.open| == |before.open| + if k == Constructor then 1 else 0
    {
      CallAccepts(before, id, k, O.SourceAt(vm, before, src));
    }

    /** Done with the inputs of the call, switch or closure numbered k. */
    ghost method Close(net: HinNetwork, before: Plan, k: nat, pending: set<Port>)
      requires Building(net, pending) && Closes(flow, before, k) && k < net.serial && |scopeStack| <= |before.open| + 1
      modifies this`flow
      ensures Building(net, pending) && flow == old(flow).(open := before.open, stem := before.stem)
    {
      hide O.Building, Means, Closes;
      O.Close(net.State(), scopeStack, pending, flow, before, k);
      flow := flow.(open := before.open, stem := before.stem);
    }

    /** Wire two ports that the builder holds, the first an output. */
    method Wire(net: HinNetwork, p: Port, q: Port, ghost pending: set<Port>)
      requires Building(net, pending) && p in pending && q in pending && p != q
      requires Agree(net.nodes, p, q) && MayWire(net.nodes, net.target, sem.terms, p, q)
      requires O.WireFlows(net.nodes, flow, p, q) || O.WireFlows(net.nodes, flow, q, p)
      modifies this`sem, net`target, net`activePairs
      ensures Building(net, pending - {p, q}) && net.nodes == old(net.nodes) && KeepsWires(net)
      ensures Idle(old(sem), sem) && sem.made == old(sem.made) && Carries(sem, q, Brings(old(sem.terms), p))
    {
      hide O.Building, Means, MayWire;
      O.Link(net.State(), scopeStack, pending, flow, p, q);
      WireMeans(net, p, q, pending);
      net.Link(Some(p), Some(q));
      sem := sem.(terms := WithWire(sem.terms, p, q, net.nodes[q.owner]));
    }

    lemma WireMeans(net: HinNetwork, p: Port, q: Port, pending: set<Port>)
      requires Building(net, pending) && p in pending && q in pending && p != q && MayWire(net.nodes, net.target, sem.terms, p, q)
      ensures p !in net.target && q !in net.target && p.owner in net.nodes && q.owner in net.nodes
      ensures var more := sem.(terms := WithWire(sem.terms, p, q, net.nodes[q.owner]));
              && Extends(sem.terms, more.terms) && Carries(more, q, Brings(sem.terms, p)) && Carries(more, p, Brings(sem.terms, p))
              && Means(O.WithLink(net.State(), p, q), scopeStack, refRemaining, more)
              && Means(O.WithLink(net.State(), q, p), scopeStack, refRemaining, more)
    {
      hide AllDenote, Annotated;
      PendingLive(net, p, pending);
      PendingLive(net, q, pending);
      MeansWire(net.State(), scopeStack, refRemaining, sem, p, q);
      WireCarries(net.nodes, View(net.State()).wires, sem.terms, p, q);
    }

    /** Cap a free wire with an eraser, which takes the term of an output, and of which an input reads none. */
    method Terminate(net: HinNetwork, port: Port, ghost pending: set<Port>) returns (ghost cap: Option<NodeId>)
      requires Building(net, pending)
      requires port !in net.target ==> port in pending && port.owner in net.nodes
      requires port !in net.target && flow.firstOrder ==> IsOutput(net.nodes, port)
      requires port !in net.target ==> if IsOutput(net.nodes, port) then port in sem.terms && net.nodes[port.owner].kind != Eraser
                                       else Takes(net.nodes[port.owner], port) && net.nodes[port.owner].kind != Duplicator
      modifies this`flow, this`sem, net
      ensures Building(net, pending - {port}) && KeepsNodes(net) && KeepsWires(net) && Idle(old(sem), sem)
      ensures cap.Some? <==> port !in old(net.target)
      ensures cap.Some? ==> Capped(net, port) && net.target[port] == P(cap.value)
      ensures cap.Some? ==> Carries(sem, P(cap.value), Brings(old(sem.terms), port)) && Carries(sem, port, Brings(old(sem.terms), port))
    {
      hide O.Building, Faithful, Annotated, O.Seating;
      if port in net.target {
        NotPending(net, port, pending);
        assert pending - {port} == pending;
        cap := None;
        return;
      }
      PendingLive(net, port, pending);
      if flow.firstOrder { Emitting(net, port, pending); }
      if !IsOutput(net.nodes, port) { Unread(net, port, pending); }
      ghost var before := flow;
      var id := NewNode(net, EraserNode(), Missing, port, pending);
      SameSite(old(net.State()), before, id, Eraser, port);
      ghost var more := pending + NodePorts(id, EraserNode());
      assert P(id) in more;
      PendingLive(net, P(id), more);
      Cap(net, port, id, more);
      cap := Some(id);
      assert more - {port, P(id)} == pending - {port} by { assert NodePorts(id, EraserNode()) == {P(id)}; }
    }

    /** A node without inputs to compile is just seated. */
    lemma SameSite(vm: Vm, before: Plan, id: NodeId, k: Kind, src: Port)
      requires id.Gensym? && k in {Value, Duplicator, Eraser} && id !in before.at
      ensures var f := O.Seating(vm, before, id, k, src);
        && f.open == before.open && f.stem == before.stem && f.firstOrder == before.firstOrder
        && (forall n :: n in before.at ==> n in f.at && f.at[n] == before.at[n])
        && (k == Eraser ==> f == before) && (k == Value ==> id in f.at && f.at[id] == Seat(before, id.serial))
    {
    }

    lemma Emitting(net: HinNetwork, port: Port, pending: set<Port>)
      requires Building(net, pending) && flow.firstOrder && port.owner in net.nodes && IsOutput(net.nodes, port)
      ensures Emits(net.nodes, port)
    {
      hide O.Owned, O.AllFlow, Means;
    }

    /** An input that is not wired has no term. */
    lemma Unread(net: HinNetwork, port: Port, pending: set<Port>)
      requires Building(net, pending) && port.owner in net.nodes && port !in net.target && !IsOutput(net.nodes, port)
      ensures port !in sem.terms
    {
      hide AllDenote, O.Building;
    }

    /** Wire a free port to a new eraser, the eraser first. */
    method Cap(net: HinNetwork, port: Port, id: NodeId, ghost pending: set<Port>)
      requires Building(net, pending) && port in pending && P(id) in pending && port.owner in net.nodes && port.owner != id
      requires id in net.nodes && net.nodes[id].kind == Eraser && P(id) !in sem.terms && port !in net.target && P(id) !in net.target
      requires if IsOutput(net.nodes, port) then port in sem.terms && net.nodes[port.owner].kind != Eraser
               else Takes(net.nodes[port.owner], port) && net.nodes[port.owner].kind != Duplicator && port !in sem.terms
      requires flow.firstOrder ==> Emits(net.nodes, port)
      modifies this`sem, net`target, net`activePairs
      ensures Building(net, pending - {port, P(id)}) && net.nodes == old(net.nodes) && KeepsWires(net) && Idle(old(sem), sem)
      ensures port in net.target && net.target[port] == P(id)
      ensures Carries(sem, P(id), Brings(old(sem.terms), port)) && Carries(sem, port, Brings(old(sem.terms), port))
    {
      hide O.Building, Means;
      O.LinkReversed(net.State(), scopeStack, pending, flow, port, P(id));
      if IsOutput(net.nodes, port) { WireMeans(net, port, P(id), pending); } else { WireMeans(net, P(id), port, pending); }
      ghost var terms := if IsOutput(net.nodes, port) then WithWire(sem.terms, port, P(id), net.nodes[id])
                         else WithWire(sem.terms, P(id), port, net.nodes[port.owner]);
      net.Link(Some(P(id)), Some(port));
      sem := sem.(terms := terms);
    }

    lemma PendingLive(net: HinNetwork, port: Port, pending: set<Port>)
      requires Building(net, pending) && port in pending
      ensures Live(net.nodes, port) && port !in net.target
    {
      O.PendingLive(net.State(), scopeStack, pending, flow, port);
    }

    lemma NotPending(net: HinNetwork, port: Port, pending: set<Port>)
      requires Building(net, pending) && port in net.target
      ensures port !in pending
    {
      if port in pending { O.PendingLive(net.State(), scopeStack, pending, flow, port); }
    }

    /** A value node, whose port the builder may hand on. */
    method NewValue(net: HinNetwork, v: Payload, ghost pending: set<Port>) returns (port: Port)
      requires Building(net, pending)
      modifies this`flow, this`sem, net
      ensures Returns(net, pending, Some(port)) && KeepsNodes(net) && KeepsWires(net)
      ensures Idle(old(sem), sem) && Carries(sem, port, Lit(v))
    {
      hide O.Building, Faithful, Clear;
      ghost var before := flow;
      var id := NewNode(net, ValueNode(v, UNIT), Missing, P(Gensym(Value, net.serial)), pending);
      port := P(id);
      assert NodePorts(id, ValueNode(v, UNIT)) == {port};
      SameSite(old(net.State()), before, id, Value, P(Gensym(Value, old(net.serial))));
      O.SeatReady(net.State(), pending + {port}, flow, id, port);
    }

    /** Wire a port that may be handed on into the input of what is being compiled. */
    method Feed(net: HinNetwork, p: Port, q: Port, ghost pending: set<Port>)
      requires Building(net, pending) && O.Ready(net.State(), pending, flow, p) && q in pending
      requires Target(net, q) && p in sem.terms && sem.terms[p] != Missing
      modifies this`sem, net`target, net`activePairs
      ensures Building(net, pending - {p, q}) && net.nodes == old(net.nodes) && KeepsWires(net) && net.serial == old(net.serial)
      ensures Idle(old(sem), sem) && sem.made == old(sem.made) && Carries(sem, q, old(sem.terms)[p])
    {
      hide O.Building, Faithful, Accepts, Before, Clear;
      O.HandOn(net.State(), scopeStack, pending, flow, p, q);
      PendingLive(net, q, pending);
      Wire(net, p, q, pending);
    }

    // ----- scopes -----

    method PushScope(net: HinNetwork, subtree: seq<Uast>, ghost pending: set<Port>)
      requires Building(net, pending) && sem.absent.None? && |scopeStack| <= |flow.open|
      modifies this`scopeStack, this`refRemaining, this`sem
      ensures Building(net, pending) && scopeStack == old(scopeStack) + [map[]] && sem == PushedSem(old(sem), subtree)
    {
      hide O.Building, Annotated, AllDenote, Duplicators;
      DenotesPush(scopeStack, refRemaining, sem, subtree);
      O.Push(net.State(), scopeStack, pending, flow);
      scopeStack := scopeStack + [map[]];
      refRemaining := refRemaining + [CountAll(subtree, map[])];
      sem := PushedSem(sem, subtree);
    }

    ghost predicate Offered(net: HinNetwork, port: Port)
      reads net
    {
      port.owner in net.nodes && IsOutput(net.nodes, port)
    }

    /** Cap the ports of a frame that is no longer in scope. */
    method CapFrame(net: HinNetwork, entries: map<string, Port>, ghost pending: set<Port>)
      requires Building(net, pending + O.FramePorts(entries)) && Injective(entries)
      requires O.FramePorts(entries) !! pending
      requires forall n :: n in entries ==> Offered(net, entries[n]) && entries[n] in sem.terms
      modifies this`flow, this`sem, net
      ensures Building(net, pending) && KeepsNodes(net) && KeepsWires(net) && Idle(old(sem), sem)
      ensures AllCapped(net, entries)
    {
      hide O.Building, Building, Injective, O.FramePorts, Offered, Clear;
      var frame := entries;
      while frame != map[]
        invariant Building(net, pending + O.FramePorts(frame)) && KeepsNodes(net) && KeepsWires(net) && Idle(old(sem), sem)
        invariant Injective(frame) && O.FramePorts(frame) !! pending
        invariant forall n :: n in frame ==> Offered(net, frame[n])
        invariant forall n :: n in frame ==> n in entries && frame[n] == entries[n]
        invariant forall n :: n in entries && n !in frame ==> Capped(net, entries[n])
        decreases frame.Keys
      {
        var name :| name in frame;
        CapOne(net, frame, name, pending);
        O.LessPorts(frame, name);
        frame := frame - {name};
      }
      O.NoPorts();
      assert pending + {} == pending;
    }

    method CapOne(net: HinNetwork, frame: map<string, Port>, name: string, ghost pending: set<Port>)
      requires Building(net, pending + O.FramePorts(frame)) && Injective(frame) && name in frame
      requires O.FramePorts(frame) !! pending && frame[name] in sem.terms
      requires forall n :: n in frame ==> Offered(net, frame[n])
      modifies this`flow, this`sem, net
      ensures Building(net, pending + O.FramePorts(frame - {name})) && KeepsNodes(net) && KeepsWires(net) && Idle(old(sem), sem)
      ensures forall n :: n in frame - {name} ==> Offered(net, frame[n])
      ensures Capped(net, frame[name])
    {
      hide O.Building, Faithful, Injective, O.FramePorts;
      O.LessPorts(frame, name);
      PendingLive(net, frame[name], pending + O.FramePorts(frame));
      var _ := Terminate(net, frame[name], pending + O.FramePorts(frame));
      assert pending + O.FramePorts(frame) - {frame[name]} == pending + O.FramePorts(frame - {name});
    }

    /** Leave the innermost scope: an eraser takes every source that was never consumed. */
    method PopScope(net: HinNetwork, ghost pending: set<Port>)
      requires Building(net, pending) && Scoped() && sem.absent.None?
      modifies this, net
      ensures Building(net, pending) && KeepsNodes(net) && KeepsWires(net)
      ensures old(sem.left) != [] && Idle(PoppedSem(old(sem)), sem)
      ensures scopeStack == old(scopeStack)[..|old(scopeStack)| - 1]
      ensures AllCapped(net, old(scopeStack)[|old(scopeStack)| - 1])
    {
      hide O.Building, Annotated, DenotesAt, Duplicators, Injective, O.FramePorts, Tally;
      O.Pop(net.State(), scopeStack, pending, flow);
      DenotesPop(scopeStack, refRemaining, sem);
      var k := |scopeStack| - 1;
      var frame := scopeStack[k];
      scopeStack := scopeStack[..k];
      refRemaining := refRemaining[..k];
      sem := PoppedSem(sem);
      CapFrame(net, frame, pending);
    }

    // ----- references -----

    /** Look a name up from the innermost scope outwards; a name that is not in scope is a constant. */
    method Resolve(net: HinNetwork, name: string, ghost pending: set<Port>) returns (out: Port)
      requires Building(net, pending) && Awaits(sem, multiset{name}) && Scoped()
      modifies this, net
      ensures Returns(net, pending, Some(out)) && KeepsNodes(net) && ScopesGrowBy({}) && Scoped()
      ensures Computed(old(sem), sem, multiset{name}, Referred(old(sem.env), name), Some(out), Some(Lookup(old(sem.env), name)))
    {
      hide O.Building, Means;
      for idx := |scopeStack| downto 0
        invariant scopeStack == old(scopeStack) && refRemaining == old(refRemaining) && flow == old(flow) && sem == old(sem)
        invariant net.State() == old(net.State())
        invariant forall i :: idx <= i < |scopeStack| ==> name !in scopeStack[i]
      {
        if name in scopeStack[idx] {
          HeldThere(net, idx, name, pending);
          out := Use(net, idx, name, pending);
          return;
        }
      }
      Unfound(net, name, pending);
      sem := Taken(sem, name);
      out := NewValue(net, NOTHING, pending);
      Served(old(sem), sem, name, out);
    }

    lemma HeldThere(net: HinNetwork, idx: nat, name: string, pending: set<Port>)
      requires Building(net, pending) && Awaits(sem, multiset{name}) && idx < |scopeStack| && name in scopeStack[idx]
      requires forall i :: idx < i < |scopeStack| ==> name !in scopeStack[i]
      ensures Holder(sem.env.scopes, name) == idx && |sem.env.scopes| == |scopeStack|
    {
      hide O.Building, Annotated, DenotesAt;
      FoundAtHolder(scopeStack, refRemaining, sem, name);
    }

    lemma Unfound(net: HinNetwork, name: string, pending: set<Port>)
      requires Building(net, pending) && Awaits(sem, multiset{name}) && forall i :: 0 <= i < |scopeStack| ==> name !in scopeStack[i]
      ensures Holder(sem.env.scopes, name) < 0 && Means(net.State(), scopeStack, refRemaining, Taken(sem, name))
      ensures Taken(sem, name).absent.None? && Taken(sem, name).terms == sem.terms
    {
      hide O.Building, Annotated, AllDenote;
      Unresolved(scopeStack, refRemaining, sem, name);
    }

    /** The last counted use of a name takes its source; every earlier use forks it. */
    method Use(net: HinNetwork, idx: nat, name: string, ghost pending: set<Port>) returns (out: Port)
      requires Building(net, pending) && Awaits(sem, multiset{name}) && Scoped()
      requires idx < |scopeStack| && name in scopeStack[idx] && Holder(sem.env.scopes, name) == idx
      modifies this, net
      ensures Returns(net, pending, Some(out)) && KeepsNodes(net) && ScopesGrowBy({}) && Scoped()
      ensures Computed(old(sem), sem, multiset{name}, Referred(old(sem.env), name), Some(out), Some(Lookup(old(sem.env), name)))
      ensures UsesLeft(old(refRemaining)[idx], name) <= 1 ==>
        net.nodes == old(net.nodes) && scopeStack == old(scopeStack)[idx := old(scopeStack)[idx] - {name}] && out == old(scopeStack)[idx][name]
      ensures UsesLeft(old(refRemaining)[idx], name) > 1 ==>
        ForkedAt(out.owner, out, old(net.nodes), net.nodes, name, old(scopeStack), scopeStack, idx)
    {
      hide O.Building, Faithful, Awaits, Means, Referred, Taken, O.Available;
      var remaining := (if name in refRemaining[idx] then refRemaining[idx][name] else 1) - 1;
      out := Take(net, idx, name, remaining, pending);
      if remaining > 0 {
        out := Fork(net, idx, name, out, pending);
        ghost var frame := old(scopeStack)[idx];
        assert (frame - {name})[name := A(out.owner, 1)] == frame[name := A(out.owner, 1)];
      }
      Served(old(sem), sem, name, out);
    }

    /** One duplicator was added: out is its first copy, and its second copy is now the source of the name. */
    static ghost predicate ForkedAt(id: NodeId, out: Port, before: NodeMap, after: NodeMap,
                                    name: string, scopes: seq<O.Frame>, next: seq<O.Frame>, idx: nat)
      requires idx < |scopes|
    {
      && id !in before && after == before[id := DuplicatorNode(UNIT)] && out == A(id, 0)
      && next == scopes[idx := scopes[idx][name := A(id, 1)]]
    }

    /** A name counted nowhere has one use. */
    function UsesLeft(counts: Counts, name: string): int {
      if name in counts then counts[name] else 1
    }

    lemma AllDenoted(net: HinNetwork, pending: set<Port>)
      requires Building(net, pending)
      ensures AllDenote(scopeStack, refRemaining, sem) && (sem.absent.None? ==> sem.made == sem.env.forks)
    {
      hide O.Building, Annotated, AllDenote, View, Duplicators;
    }

    lemma TakeName(net: HinNetwork, idx: nat, name: string, pending: set<Port>)
      requires Building(net, pending) && Awaits(sem, multiset{name}) && idx < |scopeStack| && Holder(sem.env.scopes, name) == idx
      ensures name in scopeStack[idx] && name in refRemaining[idx] && Carries(sem, scopeStack[idx][name], Lookup(sem.env, name))
      ensures refRemaining[idx][name] > 1 <==> MoreUses(sem.env.scopes[idx], name)
      ensures AllDenote(scopeStack[idx := scopeStack[idx] - {name}], refRemaining[idx := refRemaining[idx][name := refRemaining[idx][name] - 1]], Taken(sem, name))
      ensures sem.made == sem.env.forks && |sem.env.scopes| == |scopeStack|
    {
      hide Building, DenotesAt, Taken;
      AllDenoted(net, pending);
      FoundAtHolder(scopeStack, refRemaining, sem, name);
      DenotesTake(scopeStack, refRemaining, sem, name);
    }

    /** Count a use of a name and take its source out of scope. */
    method Take(net: HinNetwork, idx: nat, name: string, remaining: int, ghost pending: set<Port>) returns (out: Port)
      requires Building(net, pending) && Awaits(sem, multiset{name})
      requires idx < |scopeStack| && name in scopeStack[idx] && Holder(sem.env.scopes, name) == idx
      requires remaining == UsesLeft(refRemaining[idx], name) - 1
      modifies this`scopeStack, this`refRemaining, this`sem
      ensures Returns(net, pending, Some(out)) && out == old(scopeStack)[idx][name] && O.Available(net.State(), flow, idx, out)
      ensures scopeStack == old(scopeStack)[idx := old(scopeStack)[idx] - {name}]
      ensures refRemaining == old(refRemaining)[idx := old(refRemaining)[idx][name := remaining]]
      ensures sem == Taken(old(sem), name) && Carries(sem, out, Lookup(old(sem.env), name))
      ensures sem.terms == old(sem.terms) && sem.named == old(sem.named)
      ensures if remaining > 0 then sem.absent == Some((idx, name)) && sem.made + 1 == sem.env.forks else sem.absent.None?
      ensures |sem.env.scopes| == |scopeStack| && name in sem.env.scopes[idx].values && sem.env.scopes[idx].values[name] == Lookup(old(sem.env), name)
    {
      hide O.Building, Annotated, AllDenote, View, Taken, Duplicators;
      TakeName(net, idx, name, pending);
      UseTakes(sem, idx, name);
      O.Leave(net.State(), scopeStack, pending, flow, idx, name);
      refRemaining := refRemaining[idx := refRemaining[idx][name := remaining]];
      out := scopeStack[idx][name];
      scopeStack := scopeStack[idx := scopeStack[idx] - {name}];
      sem := Taken(sem, name);
    }

    /** Splice in a duplicator: one copy for this use, the other for later ones. */
    method Fork(net: HinNetwork, idx: nat, name: string, src: Port, ghost pending: set<Port>) returns (out: Port)
      requires Returns(net, pending, Some(src)) && idx < |scopeStack| == |sem.env.scopes| && name !in scopeStack[idx]
      requires sem.absent == Some((idx, name)) && name in sem.env.scopes[idx].values && Carries(sem, src, sem.env.scopes[idx].values[name])
      requires sem.made + 1 == sem.env.forks && O.Available(net.State(), flow, idx, src)
      modifies this`scopeStack, this`flow, this`sem, net
      ensures Returns(net, pending, Some(out)) && KeepsNodes(net)
      ensures ForkedAt(out.owner, out, old(net.nodes), net.nodes, name, old(scopeStack), scopeStack, idx)
      ensures sem.env == old(sem.env) && sem.left == old(sem.left) && sem.absent.None? && Extends(old(sem.terms), sem.terms)
      ensures sem.named == old(sem.named)
      ensures Carries(sem, out, old(sem.env).scopes[idx].values[name])
    {
      hide O.Building, Faithful;
      Standing(net, pending + OptSet(Some(src)));
      assert ScopeStands(sem.env.scopes[idx]);
      var id := Duplicate(net, src, idx, pending);
      Reenter(net, idx, name, A(id, 1), pending + {A(id, 0), A(id, 1)});
      assert pending + {A(id, 0), A(id, 1)} - {A(id, 1)} == pending + {A(id, 0)};
      out := A(id, 0);
    }

    /** A duplicator fed by src, both of whose copies are free, and may be used where the source may. */
    method Duplicate(net: HinNetwork, src: Port, ghost depth: nat, ghost pending: set<Port>) returns (id: NodeId)
      requires Building(net, pending + {src}) && O.Ready(net.State(), pending + {src}, flow, src) && src !in pending
      requires src in sem.terms && sem.terms[src] != Missing && sem.absent.Some? && O.Available(net.State(), flow, depth, src)
      modifies this`flow, this`sem, net
      ensures Building(net, pending + {A(id, 0), A(id, 1)}) && A(id, 0) !in pending && A(id, 1) !in pending && KeepsNodes(net)
      ensures id !in old(net.nodes) && net.nodes == old(net.nodes)[id := DuplicatorNode(UNIT)]
      ensures O.Ready(net.State(), pending + {A(id, 0), A(id, 1)}, flow, A(id, 0))
      ensures O.Available(net.State(), flow, depth, A(id, 1))
      ensures Idle(old(sem), sem) && sem.made == old(sem.made) + 1
      ensures Carries(sem, A(id, 0), old(sem.terms)[src]) && Carries(sem, A(id, 1), old(sem.terms)[src])
    {
      hide O.Building, Faithful, O.Seating, Clear, Before;
      Older(net, src.owner, pending + {src});
      PendingLive(net, src, pending + {src});
      ghost var (fresh_, before, vm) := (Gensym(Duplicator, net.serial), flow, net.State());
      id := NewBinary(net, DuplicatorNode(UNIT), Missing, src, pending + {src});
      SameSite(vm, before, id, Duplicator, src);
      O.CopyAvailable(vm, before, depth, src, id, A(id, 1));
      O.CopyAvailable(vm, before, |before.open|, src, id, A(id, 0));
      ghost var more := pending + {src} + {P(id), A(id, 0), A(id, 1)};
      PendingLive(net, P(id), more);
      PendingLive(net, src, more);
      Wire(net, src, P(id), more);
      assert more - {src, P(id)} == pending + {A(id, 0), A(id, 1)};
      Reads(net, id, pending + {A(id, 0), A(id, 1)});
    }

    /** Every node was made before the ones still to come. */
    lemma Older(net: HinNetwork, n: NodeId, pending: set<Port>)
      requires Building(net, pending) && n in net.nodes
      ensures n.Gensym? && n.serial < net.serial
    {
      hide AllDenote, NodeReads, Duplicators;
    }

    /** Every name in scope stands for something. */
    lemma Standing(net: HinNetwork, pending: set<Port>)
      requires Building(net, pending)
      ensures EnvStands(sem.env)
    {
      hide O.Building, Annotated, AllDenote, Duplicators, EnvStands;
    }

    /** The ports of a node read what they should. */
    lemma Reads(net: HinNetwork, id: NodeId, pending: set<Port>)
      requires Building(net, pending) && id in net.nodes
      ensures NodeReads(sem.terms, id, net.nodes[id])
    {
      hide O.Building, AllDenote, NodeReads;
    }

    /** Put a port in the innermost scope under a name. */
    method Enter(net: HinNetwork, name: string, port: Port, ghost pending: set<Port>)
      requires Building(net, pending) && O.Ready(net.State(), pending, flow, port) && Scoped() && name !in scopeStack[|scopeStack| - 1]
      requires port in sem.terms && sem.terms[port] != Missing && sem.absent.None?
      modifies this`scopeStack, this`sem
      ensures Building(net, pending - {port}) && Scoped()
      ensures var k := |scopeStack| - 1; |scopeStack| == |old(scopeStack)| && scopeStack == old(scopeStack)[k := old(scopeStack)[k][name := port]]
      ensures sem == old(sem).(env := Bound(old(sem.env), name, old(sem.terms)[port]))
    {
      hide O.Building, Annotated, AllDenote, Duplicators;
      var k := |scopeStack| - 1;
      O.Enter(net.State(), scopeStack, pending, flow, k, name, port);
      DenotesEnter(scopeStack, refRemaining, sem, name, port);
      scopeStack := scopeStack[k := scopeStack[k][name := port]];
      sem := sem.(env := Bound(sem.env, name, sem.terms[port]));
    }

    /** Put a forked name back in scope. */
    method Reenter(net: HinNetwork, k: nat, name: string, port: Port, ghost pending: set<Port>)
      requires Building(net, pending) && port in pending && O.Available(net.State(), flow, k, port)
      requires k < |scopeStack| == |sem.env.scopes| && name !in scopeStack[k]
      requires sem.absent == Some((k, name)) && name in sem.env.scopes[k].values && Carries(sem, port, sem.env.scopes[k].values[name])
      requires sem.made == sem.env.forks
      modifies this`scopeStack, this`sem
      ensures Building(net, pending - {port})
      ensures scopeStack == old(scopeStack)[k := old(scopeStack)[k][name := port]] && sem == old(sem).(absent := None)
    {
      hide O.Building, Annotated, AllDenote, Duplicators;
      O.Enter(net.State(), scopeStack, pending, flow, k, name, port);
      DenotesAgain(scopeStack, refRemaining, sem, k, name, port);
      scopeStack := scopeStack[k := scopeStack[k][name := port]];
      sem := sem.(absent := None);
    }

    // ----- the recursive builder -----

    /** Translate one node; the result, if any, is its output port, which stands for the term of the node. */
    method Build(net: HinNetwork, node: Uast, ghost pending: set<Port>) returns (out: Option<Port>)
      requires Building(net, pending) && Scoped() && Awaits(sem, Refs(node))
      requires BindsOnce(node) && Unbound(Binders(node)) && (flow.firstOrder ==> FirstOrder(node))
      modifies this, net
      ensures Returns(net, pending, out) && KeepsNodes(net) && ScopesGrowBy(Binders(node)) && Scoped()
      ensures Computed(old(sem), sem, Refs(node), Eval(node, old(sem.env)).0, out, Eval(node, old(sem.env)).1)
      decreases node, 3
    {
      hide O.Building, Faithful, Computed, Awaits, Extends;
      match node
      case Container(children) =>
        out := BuildContainer(net, children, pending);
      case Function(params, body) =>
        var p := BuildFunction(net, params, body, pending);
        out := Some(p);
      case Binding(name, value) =>
        BuildBinding(net, name, value, pending);
        out := None;
        assert pending + OptSet(out) == pending;
      case Reference(name) =>
        var p := Resolve(net, name, pending);
        out := Some(p);
      case Literal(value) =>
        ghost var s := sem;
        var p := NewValue(net, value, pending);
        out := Some(p);
        AtRest(s);
        Delivered(s, s, sem, multiset{}, s.env, None, None, p, Lit(value));
      case Conditional(c, t, e) =>
        var p := BuildIf(net, c, t, e, pending);
        out := Some(p);
      case Call(callee, args) =>
        var p := BuildCall(net, callee, args, pending);
        out := Some(p);
    }

    /** A sequence: every value but the last is capped; the last is returned. */
    method BuildContainer(net: HinNetwork, children: seq<Uast>, ghost pending: set<Port>) returns (last: Option<Port>)
      requires Building(net, pending) && Scoped() && Awaits(sem, AllRefs(children))
      requires AllBindOnce(children) && Unbound(AllBinders(children)) && (flow.firstOrder ==> AllFirstOrder(children))
      modifies this, net
      ensures Returns(net, pending, last) && KeepsNodes(net) && ScopesGrowBy(AllBinders(children)) && Scoped()
      ensures var (env, v) := EvalAll(children, old(sem.env), None); Computed(old(sem), sem, AllRefs(children), env, last, v)
      decreases children, 1
    {
      hide O.Building, Building, Computed, Awaits, SoFar, Next, Eval, EvalAll, Refs, AllRefs, O.Available;
      last := None;
      assert pending + OptSet(last) == pending;
      ghost var grown: set<string> := {};
      ghost var at := Progress(multiset{}, sem.env, None);
      SoFarStart(sem, children);
      assert children[0..] == children;
      for i := 0 to |children|
        invariant Returns(net, pending, last) && KeepsNodes(net) && Scoped() && at.env.scopes != []
        invariant ScopesGrowBy(grown) && grown + AllBinders(children[i..]) == AllBinders(children)
        invariant AllBindOnce(children[i..]) && Unbound(AllBinders(children[i..]))
        invariant flow.firstOrder ==> AllFirstOrder(children[i..])
        invariant SoFar(old(sem), sem, children, children[i..], last, at)
      {
        assert children[i..][0] == children[i] && children[i..][1..] == children[i + 1..];
        last := BuildNext(net, children[i], last, children, children[i..], pending, old(sem), at);
        grown, at := grown + Binders(children[i]), Next(at, children[i]);
      }
      assert children[|children|..] == [];
      SoFarEnd(old(sem), sem, children, last, at);
    }

    /** One more statement. */
    method BuildNext(net: HinNetwork, child: Uast, last: Option<Port>, ghost all: seq<Uast>, ghost rest: seq<Uast>, ghost pending: set<Port>,
                     ghost first: Sem, ghost at: Progress) returns (next: Option<Port>)
      requires Returns(net, pending, last) && Scoped() && at.env.scopes != []
      requires BindsOnce(child) && Unbound(Binders(child)) && (flow.firstOrder ==> FirstOrder(child))
      requires rest != [] && rest[0] == child && SoFar(first, sem, all, rest, last, at)
      modifies this, net
      ensures Returns(net, pending, next) && KeepsNodes(net) && ScopesGrowBy(Binders(child)) && Scoped()
      ensures SoFar(first, sem, all, rest[1..], next, Next(at, child))
      decreases child, 4
    {
      hide O.Building, Building, Computed, Awaits, SoFar, Next, Eval, Refs, Extends, O.Available;
      ghost var (t, before, vm) := (sem, flow, net.State());
      SoFarAwaits(first, t, all, rest, last, at);
      var out := Build(net, child, pending + OptSet(last));
      ghost var u := sem;
      if last.Some? { O.StillReady(vm, pending + {last.value}, before, net.State(), pending + {last.value}, flow, last.value); }
      SoFarNext(first, t, u, all, rest, last, at, out);
      next := Succeed(net, last, out, pending);
      SoFarIdle(first, u, sem, all, rest[1..], next, Next(at, child));
    }

    /** The value of a statement is capped once the next one has been built. */
    method Succeed(net: HinNetwork, last: Option<Port>, out: Option<Port>, ghost pending: set<Port>) returns (next: Option<Port>)
      requires Returns(net, pending + OptSet(last), out) && (last.Some? ==> last.value !in pending && last.value in sem.terms)
      requires last.Some? ==> O.Ready(net.State(), pending + {last.value}, flow, last.value)
      modifies this`flow, this`sem, net
      ensures next == out && Returns(net, pending, next) && KeepsNodes(net) && Idle(old(sem), sem)
    {
      hide O.Building, Faithful, Clear;
      next := out;
      if last.Some? {
        PendingLive(net, last.value, pending + OptSet(last) + OptSet(out));
        if last.value !in net.target {
          ghost var (before, vm) := (flow, net.State());
          var _ := Terminate(net, last.value, pending + OptSet(last) + OptSet(out));
          if out.Some? { O.StillReady(vm, pending + OptSet(last) + OptSet(out), before, net.State(), pending + OptSet(out), flow, out.value); }
          assert pending + OptSet(last) + OptSet(out) - {last.value} == pending + OptSet(out);
        }
      } else {
        assert pending + OptSet(last) == pending;
      }
    }

    /** A closure: its own port abstracts the argument wire from the return path, which the body feeds. */
    method BuildFunction(net: HinNetwork, params: seq<string>, body: seq<Uast>, ghost pending: set<Port>) returns (out: Port)
      requires Building(net, pending) && Scoped() && !flow.firstOrder && Awaits(sem, AllRefs(body))
      requires BindsOnce(Function(params, body)) && Unbound(Binders(Function(params, body)))
      modifies this, net
      ensures Returns(net, pending, Some(out)) && KeepsNodes(net) && KeysGrowBy({}) && Scoped()
      ensures ArgumentsGrowBy(Binders(Function(params, body)))
      ensures out == P(out.owner) && out.owner !in old(net.nodes) && net.nodes[out.owner] == ConstructorNode(UNIT, UNIT)
      ensures var (env, v) := Eval(Function(params, body), old(sem.env)); Computed(old(sem), sem, AllRefs(body), env, Some(out), v)
      decreases body, 3
    {
      hide O.Building, Building, NodePorts, Computed, Extends, Eval, O.Seating, Accepts;
      ghost var (s, before, vm, src) := (sem, flow, net.State(), P(Gensym(Constructor, net.serial)));
      var id := NewBinary(net, ConstructorNode(UNIT, UNIT), Argument(params), src, pending);
      Opened(vm, before, id, Constructor, src);
      assert pending + {P(id), A(id, 0), A(id, 1)} == pending + {P(id)} + {A(id, 1)} + {A(id, 0)};
      ghost var t := sem;
      BuildScope(net, params, body, id, pending + {P(id)});
      out := P(id);
      Close(net, before, id.serial, pending + {out});
      O.SeatReady(net.State(), pending + {out}, flow, id, out);
      IdleThen(s, t, sem, AllRefs(body), Eval(Function(params, body), s.env).0, Some(out), Eval(Function(params, body), s.env).1);
    }

    /** Compile the body in a scope of its own, between the closure's argument wire
        and its return path. */
    method BuildScope(net: HinNetwork, params: seq<string>, body: seq<Uast>, id: NodeId, ghost pending: set<Port>)
      requires Building(net, pending + {A(id, 1)} + {A(id, 0)}) && A(id, 0) !in pending && A(id, 1) !in pending
      requires Inner() && !flow.firstOrder && id in net.nodes && net.nodes[id].kind == Constructor && id in flow.at && flow.at[id] == flow.open
      requires Awaits(sem, AllRefs(body)) && Carries(sem, A(id, 0), Argument(params))
      requires BindsOnce(Function(params, body)) && KeysUnbound(Binders(Function(params, body))) && sem.named !! AllBinders(body)
      modifies this, net
      ensures Building(net, pending) && KeepsNodes(net) && KeysGrowBy({}) && ArgumentsGrowBy(AllBinders(body)) && Inner()
      ensures var (env, v) := Eval(Function(params, body), old(sem.env)); Computed(old(sem), sem, AllRefs(body), env, Some(P(id)), v)
      decreases body, 2, 2
    {
      hide O.Building, Building, NodePorts, Computed, Extends, Awaits, Eval, EvalAll, AllRefs, Popped;
      ghost var s := sem;
      NoneAbsent(s, AllRefs(body));
      EnterScope(net, params, body, id, pending + {A(id, 1)});
      ghost var t := sem;
      EnteredAwaits(s, t, params, body);
      ghost var u := LeaveScope(net, body, A(id, 1), pending);
      Reads(net, id, pending);
      ClosureDone(s, t, u, sem, params, body, id, net.nodes[id]);
      OutCarries(s, sem, AllRefs(body), Eval(Function(params, body), s.env).0, Some(P(id)), Eval(Function(params, body), s.env).1);
    }

    /** Build the body in the scope just entered, and leave that scope. */
    method LeaveScope(net: HinNetwork, body: seq<Uast>, q: Port, ghost pending: set<Port>) returns (ghost built: Sem)
      requires Building(net, pending + {q}) && q !in pending && Scoped() && !flow.firstOrder && Awaits(sem, AllRefs(body))
      requires AllBindOnce(body) && Unbound(AllBinders(body))
      requires Target(net, q)
      modifies this, net
      ensures Building(net, pending) && KeepsNodes(net) && |scopeStack| == |old(scopeStack)| - 1
      ensures forall i :: 0 <= i < |scopeStack| ==> scopeStack[i].Keys <= old(scopeStack)[i].Keys
      ensures var (env, v) := EvalAll(body, old(sem.env), None); Computed(old(sem), built, AllRefs(body), env, Some(q), Some(OrElse(v, NIL)))
      ensures ArgumentsGrowBy(AllBinders(body))
      ensures built.env.scopes != [] && built.left != [] && Idle(PoppedSem(built), sem)
      decreases body, 2, 1
    {
      hide O.Building, Building, Computed, Extends, Awaits, EvalAll, AllRefs, Popped;
      ghost var s := sem;
      NoneAbsent(s, AllRefs(body));
      BuildBody(net, body, q, pending);
      built := sem;
      OutCarries(s, built, AllRefs(body), EvalAll(body, s.env, None).0, Some(q), Some(OrElse(EvalAll(body, s.env, None).1, NIL)));
      PopScope(net, pending);
    }

    method EnterScope(net: HinNetwork, params: seq<string>, body: seq<Uast>, id: NodeId, ghost held: set<Port>)
      requires Building(net, held + {A(id, 0)}) && A(id, 0) !in held && Inner() && !flow.firstOrder
      requires id in net.nodes && net.nodes[id].kind == Constructor && id in flow.at && flow.at[id] == flow.open && sem.absent.None? && Carries(sem, A(id, 0), Argument(params))
      requires KeysUnbound(Binders(Function(params, body)))
      modifies this, net
      ensures Building(net, held) && KeepsNodes(net) && Scoped()
      ensures |scopeStack| == |old(scopeStack)| + 1 && scopeStack[..|scopeStack| - 1] == old(scopeStack)
      ensures scopeStack[|scopeStack| - 1].Keys <= if params == [] then {} else {params[0]}
      ensures Idle(EnteredSem(old(sem), params, body), sem)
    {
      hide O.Building, Building, NodePorts, Extends, AllRefs;
      PushScope(net, body, held + {A(id, 0)});
      BindParameter(net, params, A(id, 0), held);
    }

    /** The body's value, or a constant, is wired to the closure's return path. */
    method BuildBody(net: HinNetwork, body: seq<Uast>, q: Port, ghost pending: set<Port>)
      requires Building(net, pending + {q}) && q !in pending && Scoped() && !flow.firstOrder && Awaits(sem, AllRefs(body))
      requires AllBindOnce(body) && Unbound(AllBinders(body))
      requires Target(net, q)
      modifies this, net
      ensures Building(net, pending) && KeepsNodes(net) && ScopesGrowBy(AllBinders(body)) && Scoped()
      ensures var (env, v) := EvalAll(body, old(sem.env), None);
              Computed(old(sem), sem, AllRefs(body), env, Some(q), Some(OrElse(v, NIL)))
      decreases body, 2, 0
    {
      hide O.Building, Faithful, Computed, Awaits, EvalAll, AllRefs, Extends;
      Standing(net, pending + {q});
      AllStand(body, sem.env);
      var result := BuildContainer(net, body, pending + {q});
      ghost var (env, v) := EvalAll(body, old(sem.env), None);
      DeliverInto(net, result, NOTHING, q, pending, old(sem), AllRefs(body), env, v);
    }

    /** Wire what a builder returned, or a constant, into the input port q. */
    method DeliverInto(net: HinNetwork, port: Option<Port>, default: Payload, q: Port, ghost pending: set<Port>,
                       ghost s: Sem, ghost used: multiset<string>, ghost env: Env, ghost v: Option<Term>)
      requires Returns(net, pending + {q}, port) && q !in pending && Computed(s, sem, used, env, port, v) && v != Some(Missing)
      requires Target(net, q)
      modifies this`flow, this`sem, net
      ensures Building(net, pending) && KeepsNodes(net) && sem.env == old(sem.env) && sem.named == old(sem.named)
      ensures Computed(s, sem, used, env, Some(q), Some(OrElse(v, Lit(default))))
    {
      hide O.Building, Faithful, Computed, Extends;
      ghost var t := sem;
      OutCarries(s, t, used, env, port, v);
      var out := Supply(net, port, default, pending + {q});
      ghost var u := sem;
      if port.Some? { StillCarries(t, u, out, v.value); }
      Feed(net, out, q, pending + {q} + {out});
      assert pending + {q} + {out} - {out, q} == pending;
      AndIdle(s, t, u, used, env, port, v);
      Delivered(s, u, sem, used, env, port, v, q, OrElse(v, Lit(default)));
    }

    /** The closure's first parameter names its argument wire; with no parameter
        the wire is capped. */
    method BindParameter(net: HinNetwork, params: seq<string>, port: Port, ghost held: set<Port>)
      requires Building(net, held + {port}) && port !in held && !flow.firstOrder && Scoped() && sem.absent.None?
      requires Carries(sem, port, Argument(params)) && port.owner in net.nodes && net.nodes[port.owner].kind == Constructor && port.index == 1
      requires port.owner in flow.at && flow.at[port.owner] == flow.open
      requires scopeStack[|scopeStack| - 1] == map[]
      modifies this, net
      ensures Building(net, held) && KeepsNodes(net) && Scoped()
      ensures |scopeStack| == |old(scopeStack)| && scopeStack[..|scopeStack| - 1] == old(scopeStack)[..|scopeStack| - 1]
      ensures scopeStack[|scopeStack| - 1].Keys <= if params == [] then {} else {params[0]}
      ensures Idle(old(sem).(env := if params == [] then old(sem.env) else Bound(old(sem.env), params[0], Argument(params))), sem)
    {
      hide O.Building, Faithful;
      assert held + {port} - {port} == held;
      if params != [] {
        O.ArgumentReady(net.State(), held + {port}, flow, port.owner);
        Enter(net, params[0], port, held + {port});
      } else {
        var _ := Terminate(net, port, held + {port});
      }
    }

    /** A missing output is replaced by a constant. */
    method Supply(net: HinNetwork, port: Option<Port>, default: Payload, ghost pending: set<Port>) returns (out: Port)
      requires Returns(net, pending, port)
      modifies this`flow, this`sem, net
      ensures Returns(net, pending, Some(out)) && KeepsNodes(net) && Idle(old(sem), sem)
      ensures if port.Some? then out == port.value else Carries(sem, out, Lit(default))
    {
      hide O.Building, Faithful;
      if port.Some? {
        out := port.value;
      } else {
        assert pending + OptSet(port) == pending;
        out := NewValue(net, default, pending);
      }
    }

    method BuildBinding(net: HinNetwork, name: Option<string>, value: Option<Uast>, ghost pending: set<Port>)
      requires Building(net, pending) && Scoped() && Awaits(sem, OptRefs(value))
      requires BindsOnce(Binding(name, value)) && Unbound(Binders(Binding(name, value)))
      requires flow.firstOrder ==> OptFirstOrder(value)
      modifies this, net
      ensures Building(net, pending) && KeepsNodes(net) && ScopesGrowBy(Binders(Binding(name, value))) && Scoped()
      ensures Computed(old(sem), sem, OptRefs(value), Eval(Binding(name, value), old(sem.env)).0, None, None)
      decreases value, 1
    {
      hide O.Building, Faithful, Computed, Awaits, Extends, Clear;
      ghost var s := sem;
      NoneAbsent(s, OptRefs(value));
      Standing(net, pending);
      OptStands(value, NIL, s.env);
      var port := BuildOpt(net, value, NOTHING, pending);
      ghost var built := sem;
      assert pending + {port} - {port} == pending;
      OutCarries(s, built, OptRefs(value), EvalOpt(value, NIL, s.env).0, Some(port), Some(EvalOpt(value, NIL, s.env).1));
      if name.Some? {
        Enter(net, name.value, port, pending + {port});
        BoundTo(s, built, sem, name.value, value, port);
      } else {
        var _ := Terminate(net, port, pending + {port});
        NotBound(s, built, sem, value, port);
      }
    }

    /** An optional subtree: a missing one, or one without output, gives a constant. */
    method BuildOpt(net: HinNetwork, node: Option<Uast>, default: Payload, ghost pending: set<Port>) returns (out: Port)
      requires Building(net, pending) && Scoped() && Awaits(sem, OptRefs(node))
      requires OptBindsOnce(node) && Unbound(OptBinders(node)) && (flow.firstOrder ==> OptFirstOrder(node))
      modifies this, net
      ensures Returns(net, pending, Some(out)) && KeepsNodes(net) && ScopesGrowBy(OptBinders(node)) && Scoped()
      ensures var (env, v) := EvalOpt(node, Lit(default), old(sem.env)); Computed(old(sem), sem, OptRefs(node), env, Some(out), Some(v))
      decreases node, 0
    {
      hide O.Building, Faithful, Computed, Awaits, Eval, Refs, Extends;
      ghost var s := sem;
      var port: Option<Port> := None;
      assert pending + OptSet(None) == pending;
      AtRest(s);
      ghost var v: Option<Term> := None;
      if node.Some? {
        v := Eval(node.value, sem.env).1;
        port := Build(net, node.value, pending);
      }
      ghost var t := sem;
      OutCarries(s, t, OptRefs(node), EvalOpt(node, Lit(default), s.env).0, port, v);
      out := Supply(net, port, default, pending);
      if port.Some? { StillCarries(t, sem, out, v.value); }
      Delivered(s, t, sem, OptRefs(node), EvalOpt(node, Lit(default), s.env).0, port, v, out, EvalOpt(node, Lit(default), s.env).1);
    }

    /** Build a subtree and wire its output into the input port q. */
    method BuildInto(net: HinNetwork, node: Option<Uast>, default: Payload, q: Port, ghost pending: set<Port>)
      requires Building(net, pending + {q}) && q !in pending && Scoped() && Awaits(sem, OptRefs(node))
      requires OptBindsOnce(node) && Unbound(OptBinders(node)) && (flow.firstOrder ==> OptFirstOrder(node))
      requires Target(net, q)
      modifies this, net
      ensures Building(net, pending) && KeepsNodes(net) && ScopesGrowBy(OptBinders(node)) && Scoped()
      ensures var (env, v) := EvalOpt(node, Lit(default), old(sem.env)); Computed(old(sem), sem, OptRefs(node), env, Some(q), Some(v))
      decreases node, 1
    {
      hide O.Building, Faithful, Computed, Awaits, Eval, EvalOpt, Refs, Extends;
      ghost var s := sem;
      Standing(net, pending + {q});
      OptStands(node, Lit(default), s.env);
      var port := BuildOpt(net, node, default, pending + {q});
      ghost var t := sem;
      ghost var (env, v) := EvalOpt(node, Lit(default), s.env);
      OutCarries(s, t, OptRefs(node), env, Some(port), Some(v));
      Feed(net, port, q, pending + {q} + {port});
      assert pending + {q} + {port} - {port, q} == pending;
      Delivered(s, t, sem, OptRefs(node), env, Some(port), Some(v), q, v);
    }

    method BuildIf(net: HinNetwork, cond: Option<Uast>, thenBranch: Option<Uast>, elseBranch: Option<Uast>, ghost pending: set<Port>)
        returns (out: Port)
      requires Building(net, pending) && Scoped() && Awaits(sem, Refs(Conditional(cond, thenBranch, elseBranch)))
      requires BindsOnce(Conditional(cond, thenBranch, elseBranch)) && Unbound(Binders(Conditional(cond, thenBranch, elseBranch)))
      requires flow.firstOrder ==> OptFirstOrder(cond) && OptFirstOrder(thenBranch) && OptFirstOrder(elseBranch)
      modifies this, net
      ensures Returns(net, pending, Some(out)) && KeepsNodes(net) && Scoped()
      ensures ScopesGrowBy(Binders(Conditional(cond, thenBranch, elseBranch)))
      ensures var u := Conditional(cond, thenBranch, elseBranch); var (env, v) := Eval(u, old(sem.env));
              Computed(old(sem), sem, Refs(u), env, Some(out), v)
      decreases Conditional(cond, thenBranch, elseBranch), 2
    {
      hide O.Building, Building, NodePorts, Computed, Awaits, Eval, Refs, Binders, BindsOnce, Extends, O.Seating, Accepts, O.Available;
      ghost var s, node := sem, Conditional(cond, thenBranch, elseBranch);
      ghost var (before, vm) := (flow, net.State());
      var id := NewSwitch(net, pending);
      Opened(vm, before, id, Switch, P(id));
      ghost var t := sem;
      ConditionalAwaits(s, t, cond, thenBranch, elseBranch);
      WireSwitch(net, cond, thenBranch, elseBranch, id, pending);
      out := A(id, 2);
      IdleThen(s, t, sem, Refs(node), Eval(node, s.env).0, Some(out), Eval(node, s.env).1);
      Close(net, before, id.serial, pending + {out});
      O.SeatReady(net.State(), pending + {out}, flow, id, out);
    }

    /** Build the condition and the branches of a new switch into its inputs. */
    method WireSwitch(net: HinNetwork, cond: Option<Uast>, thenBranch: Option<Uast>, elseBranch: Option<Uast>, id: NodeId, ghost pending: set<Port>)
      requires Building(net, pending + {A(id, 2)} + {A(id, 0), A(id, 1)} + {P(id)}) && pending !! {P(id), A(id, 0), A(id, 1), A(id, 2)}
      requires Scoped() && Fed(net, id, Switch)
      requires BindsOnce(Conditional(cond, thenBranch, elseBranch)) && Unbound(Binders(Conditional(cond, thenBranch, elseBranch)))
      requires flow.firstOrder ==> OptFirstOrder(cond) && OptFirstOrder(thenBranch) && OptFirstOrder(elseBranch)
      requires Awaits(sem, OptRefs(cond)) && Awaits(sem, OptRefs(cond) + (OptRefs(thenBranch) + OptRefs(elseBranch)))
      modifies this, net
      ensures Building(net, pending + {A(id, 2)}) && KeepsNodes(net) && Scoped()
      ensures ScopesGrowBy(Binders(Conditional(cond, thenBranch, elseBranch)))
      ensures var u := Conditional(cond, thenBranch, elseBranch); var (env, v) := Eval(u, old(sem.env));
              Computed(old(sem), sem, Refs(u), env, Some(A(id, 2)), v)
      decreases Conditional(cond, thenBranch, elseBranch), 1
    {
      hide O.Building, Building, NodePorts, Computed, Awaits, Eval, EvalOpt, Refs, OptRefs, O.Available;
      ghost var s, held, default := sem, pending + {A(id, 2)} + {A(id, 0), A(id, 1)}, Lit(Const(1, false));
      BuildInto(net, cond, Const(1, false), P(id), held);
      ghost var t := sem;
      Rest(s, t, OptRefs(cond), EvalOpt(cond, default, s.env).0, Some(P(id)), Some(EvalOpt(cond, default, s.env).1),
           OptRefs(thenBranch) + OptRefs(elseBranch));
      BuildBranches(net, cond, thenBranch, elseBranch, id, pending + {A(id, 2)}, held);
      Reads(net, id, pending + {A(id, 2)});
      Selected(s, t, sem, id, net.nodes[id], cond, thenBranch, elseBranch);
    }

    /** Both branches are built before either is wired to the switch. */
    method BuildBranches(net: HinNetwork, ghost cond: Option<Uast>, thenBranch: Option<Uast>, elseBranch: Option<Uast>, id: NodeId,
                         ghost rest: set<Port>, ghost held: set<Port>)
      requires held == rest + {A(id, 0), A(id, 1)} && A(id, 0) !in rest && A(id, 1) !in rest
      requires Building(net, held) && Scoped() && Awaits(sem, OptRefs(thenBranch) + OptRefs(elseBranch))
      requires OptBindsOnce(thenBranch) && OptBindsOnce(elseBranch) && OptBinders(thenBranch) !! OptBinders(elseBranch)
      requires Unbound(OptBinders(thenBranch)) && Unbound(OptBinders(elseBranch))
      requires flow.firstOrder ==> OptFirstOrder(thenBranch) && OptFirstOrder(elseBranch)
      requires Fed(net, id, Switch)
      modifies this, net
      ensures Building(net, rest) && KeepsNodes(net) && Scoped()
      ensures ScopesGrowBy(OptBinders(thenBranch) + OptBinders(elseBranch))
      ensures BothBranches(old(sem), sem, A(id, 0), A(id, 1), thenBranch, elseBranch)
      decreases Conditional(cond, thenBranch, elseBranch), 0, 1
    {
      hide O.Building, Building, NodePorts, Computed, Awaits, EvalOpt, OptRefs, BothBranches, O.Available;
      ghost var s := sem;
      Standing(net, held);
      var t, e := BuildBoth(net, cond, thenBranch, elseBranch, held);
      ghost var u := sem;
      BranchTerms(s, u, t, e, thenBranch, elseBranch);
      FeedBranches(net, t, e, id, held);
      assert held + {t} + {e} - {t, A(id, 0)} - {e, A(id, 1)} == rest;
      FedBoth(s, u, sem, t, e, A(id, 0), A(id, 1), thenBranch, elseBranch);
    }

    method BuildBoth(net: HinNetwork, ghost cond: Option<Uast>, thenBranch: Option<Uast>, elseBranch: Option<Uast>, ghost pending: set<Port>)
        returns (t: Port, e: Port)
      requires Building(net, pending) && Scoped() && Awaits(sem, OptRefs(thenBranch) + OptRefs(elseBranch))
      requires OptBindsOnce(thenBranch) && OptBindsOnce(elseBranch) && OptBinders(thenBranch) !! OptBinders(elseBranch)
      requires Unbound(OptBinders(thenBranch)) && Unbound(OptBinders(elseBranch))
      requires flow.firstOrder ==> OptFirstOrder(thenBranch) && OptFirstOrder(elseBranch)
      modifies this, net
      ensures t !in pending && Returns(net, pending + {t}, Some(e)) && KeepsNodes(net) && Scoped()
      ensures O.Ready(net.State(), pending + {t} + {e}, flow, t)
      ensures ScopesGrowBy(OptBinders(thenBranch) + OptBinders(elseBranch))
      ensures BothBranches(old(sem), sem, t, e, thenBranch, elseBranch)
      decreases Conditional(cond, thenBranch, elseBranch), 0, 0
    {
      hide O.Building, Building, NodePorts, Computed, Awaits, EvalOpt, OptRefs, BothBranches, O.Available;
      ghost var s := sem;
      AwaitsPart(s, OptRefs(thenBranch), OptRefs(elseBranch));
      t := BuildOpt(net, thenBranch, NOTHING, pending);
      ghost var (u, before, vm) := (sem, flow, net.State());
      Rest(s, u, OptRefs(thenBranch), EvalOpt(thenBranch, NIL, s.env).0, Some(t), Some(EvalOpt(thenBranch, NIL, s.env).1), OptRefs(elseBranch));
      e := BuildOpt(net, elseBranch, NOTHING, pending + {t});
      O.StillReady(vm, pending + {t}, before, net.State(), pending + {t} + {e}, flow, t);
      OneThenOther(s, u, sem, thenBranch, t, elseBranch, e);
    }

    method FeedBranches(net: HinNetwork, t: Port, e: Port, id: NodeId, ghost held: set<Port>)
      requires Building(net, held + {t} + {e}) && A(id, 0) in held && A(id, 1) in held && t !in held && e !in held + {t}
      requires O.Ready(net.State(), held + {t} + {e}, flow, t) && O.Ready(net.State(), held + {t} + {e}, flow, e)
      requires Fed(net, id, Switch)
      requires t in sem.terms && e in sem.terms && sem.terms[t] != Missing && sem.terms[e] != Missing
      modifies this`sem, net`target, net`activePairs
      ensures Building(net, held + {t} + {e} - {t, A(id, 0)} - {e, A(id, 1)}) && net.nodes == old(net.nodes)
      ensures Idle(old(sem), sem) && Carries(sem, A(id, 0), old(sem.terms)[t]) && Carries(sem, A(id, 1), old(sem.terms)[e])
    {
      hide O.Building, Faithful;
      Feed(net, t, A(id, 0), held + {t} + {e});
      Feed(net, e, A(id, 1), held + {t} + {e} - {t, A(id, 0)});
    }

    /** A call: its output is the application of the callee to the first argument. */
    method BuildCall(net: HinNetwork, callee: Option<Uast>, args: seq<Uast>, ghost pending: set<Port>) returns (out: Port)
      requires Building(net, pending) && Scoped() && !flow.firstOrder && Awaits(sem, Refs(Call(callee, args)))
      requires BindsOnce(Call(callee, args)) && Unbound(Binders(Call(callee, args)))
      modifies this, net
      ensures Returns(net, pending, Some(out)) && KeepsNodes(net) && ScopesGrowBy(Binders(Call(callee, args))) && Scoped()
      ensures out == A(out.owner, 1) && out.owner !in old(net.nodes) && net.nodes[out.owner] == DestructorNode(UNIT, UNIT)
      ensures var (env, v) := Eval(Call(callee, args), old(sem.env)); Computed(old(sem), sem, Refs(Call(callee, args)), env, Some(out), v)
      decreases Call(callee, args), 2
    {
      hide O.Building, Building, NodePorts, Computed, Awaits, Extends, Eval, Refs, Binders, BindsOnce, O.Seating, Accepts, O.Available;
      ghost var s, node := sem, Call(callee, args);
      ghost var (before, vm, src) := (flow, net.State(), P(Gensym(Destructor, net.serial)));
      var id := NewBinary(net, DestructorNode(UNIT, UNIT), Missing, src, pending);
      Opened(vm, before, id, Destructor, src);
      ghost var t := sem;
      CallAwaits(s, t, callee, args);
      assert pending + {P(id), A(id, 0), A(id, 1)} == pending + {A(id, 1)} + {A(id, 0)} + {P(id)};
      WireCall(net, callee, args, id, pending);
      out := A(id, 1);
      Close(net, before, id.serial, pending + {out});
      O.SeatReady(net.State(), pending + {out}, flow, id, out);
      IdleThen(s, t, sem, Refs(node), Eval(node, s.env).0, Some(out), Eval(node, s.env).1);
    }

    /** Build the callee and the first argument of a new application into its inputs. */
    method WireCall(net: HinNetwork, callee: Option<Uast>, args: seq<Uast>, id: NodeId, ghost pending: set<Port>)
      requires Building(net, pending + {A(id, 1)} + {A(id, 0)} + {P(id)}) && pending !! {P(id), A(id, 0), A(id, 1)}
      requires Scoped() && !flow.firstOrder && Fed(net, id, Destructor)
      requires BindsOnce(Call(callee, args)) && Unbound(Binders(Call(callee, args)))
      requires Awaits(sem, OptRefs(callee)) && Awaits(sem, OptRefs(callee) + AllRefs(args))
      modifies this, net
      ensures Building(net, pending + {A(id, 1)}) && KeepsNodes(net) && ScopesGrowBy(Binders(Call(callee, args))) && Scoped()
      ensures var u := Call(callee, args); var (env, v) := Eval(u, old(sem.env)); Computed(old(sem), sem, Refs(u), env, Some(A(id, 1)), v)
      decreases Call(callee, args), 1
    {
      hide O.Building, Building, NodePorts, Computed, Awaits, Eval, EvalOpt, EvalArgument, Refs, OptRefs, AllRefs, Extends, O.Available;
      ghost var s, held := sem, pending + {A(id, 1)};
      BuildInto(net, callee, NOTHING, P(id), held + {A(id, 0)});
      ghost var t := sem;
      Rest(s, t, OptRefs(callee), EvalOpt(callee, NIL, s.env).0, Some(P(id)), Some(EvalOpt(callee, NIL, s.env).1), AllRefs(args));
      BuildArguments(net, args, A(id, 0), held);
      Reads(net, id, held);
      Applied(s, t, sem, id, net.nodes[id], callee, args);
    }

    /** Only the first argument of a call is built; with no argument its wire is capped. */
    method BuildArguments(net: HinNetwork, args: seq<Uast>, q: Port, ghost pending: set<Port>)
      requires Building(net, pending + {q}) && q !in pending && Scoped() && !flow.firstOrder && Awaits(sem, AllRefs(args))
      requires args != [] ==> BindsOnce(args[0]) && Unbound(Binders(args[0]))
      requires Target(net, q) && net.nodes[q.owner].kind == Destructor && q.index == 1
      modifies this, net
      ensures Building(net, pending) && KeepsNodes(net) && ScopesGrowBy(if args == [] then {} else Binders(args[0])) && Scoped()
      ensures var (env, v) := EvalArgument(args, old(sem.env)); Computed(old(sem), sem, AllRefs(args), env, Some(q), Some(v))
      decreases args, 1
    {
      hide O.Building, Faithful, Computed, Awaits, Eval, Refs, Extends;
      ghost var s := sem;
      if args != [] {
        ArgumentAwaits(s, args);
        BuildArgument(net, args[0], q, pending);
        ghost var t := sem;
        Rest(s, t, Refs(args[0]), Eval(args[0], s.env).0, Some(q), Some(OrElse(Eval(args[0], s.env).1, NIL)), AllRefs(args[1..]));
        SkipArguments(net, args[1..], pending);
        ArgumentDone(s, t, sem, args, q);
      } else {
        PendingLive(net, q, pending + {q});
        Unread(net, q, pending + {q});
        var _ := Terminate(net, q, pending + {q});
        assert pending + {q} - {q} == pending;
        AtRest(s);
        Delivered(s, s, sem, multiset{}, s.env, None, None, q, Missing);
      }
    }

    method BuildArgument(net: HinNetwork, arg: Uast, q: Port, ghost pending: set<Port>)
      requires Building(net, pending + {q}) && q !in pending && Scoped() && !flow.firstOrder && Awaits(sem, Refs(arg))
      requires BindsOnce(arg) && Unbound(Binders(arg))
      requires Target(net, q) && net.nodes[q.owner].kind == Destructor && q.index == 1
      modifies this, net
      ensures Building(net, pending) && KeepsNodes(net) && ScopesGrowBy(Binders(arg)) && Scoped()
      ensures var (env, v) := Eval(arg, old(sem.env)); Computed(old(sem), sem, Refs(arg), env, Some(q), Some(OrElse(v, NIL)))
      decreases arg, 4
    {
      hide O.Building, Faithful, Computed, Awaits, Eval, Refs, Extends;
      Standing(net, pending + {q});
      EvalStands(arg, sem.env);
      var built := Build(net, arg, pending + {q});
      ghost var (env, v) := Eval(arg, old(sem.env));
      DeliverInto(net, built, NOTHING, q, pending, old(sem), Refs(arg), env, v);
    }

    /** The other arguments were counted, but are not built. */
    ghost method SkipArguments(net: HinNetwork, args: seq<Uast>, pending: set<Port>)
      requires Building(net, pending) && Scoped() && Awaits(sem, AllRefs(args))
      modifies this`sem
      ensures Building(net, pending) && Scoped() && sem == SkippedSem(old(sem), AllRefs(args))
    {
      hide O.Building, Annotated, AllDenote, Duplicators;
      DenotesSkip(scopeStack, refRemaining, sem, AllRefs(args));
      sem := SkippedSem(sem, AllRefs(args));
    }

    /** Seal a program: its value is capped. */
    method Discard(net: HinNetwork, result: Option<Port>) returns (ghost sink: Option<NodeId>)
      requires Returns(net, {}, result) && (result.Some? ==> result.value in sem.terms)
      modifies this`flow, this`sem, net
      ensures Building(net, {}) && KeepsNodes(net) && Idle(old(sem), sem) && sink.Some? == result.Some?
      ensures sink.Some? ==> sink.value in net.nodes && net.nodes[sink.value].kind == Eraser
      ensures sink.Some? ==> Carries(sem, P(sink.value), old(sem.terms)[result.value])
    {
      hide O.Building, Faithful;
      sink := None;
      if result.Some? {
        PendingLive(net, result.value, {} + OptSet(result));
        if result.value !in net.target {
          sink := Terminate(net, result.value, {} + OptSet(result));
        }
        assert {} + OptSet(result) - {result.value} == {};
      } else {
        assert {} + OptSet(result) == {};
      }
    }

    /** Compile the children of a root node into a fresh net. The program's value, if it has one, ends in an eraser. */
    method TranslateUast(program: seq<Uast>) returns (net: HinNetwork, ghost sink: Option<NodeId>)
      requires AllBindOnce(program)
      modifies this
      ensures fresh(net) && net.Sound() && Consistent(net.State())
      ensures Closed(View(net.State())) && Polarised(View(net.State()))
      ensures Annotated(net.nodes, View(net.State()).wires, sem.terms) && Duplicators(net.nodes) == ProgramForks(program)
      ensures sink.Some? == ProgramTerm(program).Some?
      ensures sink.Some? ==> sink.value in net.nodes && net.nodes[sink.value].kind == Eraser
      ensures sink.Some? ==> Carries(sem, P(sink.value), ProgramTerm(program).value)
      ensures sink.Some? ==> OnlyTerm(View(net.State()), sem.terms, P(sink.value), ProgramTerm(program).value)
      ensures AllFirstOrder(program) ==> DataflowNet(View(net.State()))
      ensures ArgumentsApart(net.nodes, sem.terms) && ArgumentsNamed(net.nodes, sem.terms, sem.named)
      ensures ProgramForks(program) == 0 ==> Nestable(View(net.State()))
    {
      hide O.Building, O.FlowsSoFar, Means, Annotated, ProgramForks, ProgramTerm, OnlyTerm, ArgumentsApart, ArgumentsNamed, Nestable, Duplicators;
      net := new HinNetwork();
      scopeStack, refRemaining := [], [];
      flow := Plan(AllFirstOrder(program), map[], [], []);
      sem := Sem(NOWHERE, map[], [], 0, None, {});
      O.Start(flow);
      StartMeans(sem);
      sink := BuildModule(net, program);
      Sealed(net);
      if sink.Some? { TermDetermined(View(net.State()), sem.terms, P(sink.value), ProgramTerm(program).value); }
    }

    /** The root scope, from its opening to the caps on what is left in it. */
    method BuildModule(net: HinNetwork, program: seq<Uast>) returns (ghost sink: Option<NodeId>)
      requires Building(net, {}) && scopeStack == [] && AllBindOnce(program)
      requires (flow.firstOrder ==> AllFirstOrder(program)) && flow.open == [] && sem == Sem(NOWHERE, map[], [], 0, None, {})
      modifies this, net
      ensures Building(net, {}) && scopeStack == [] && flow.firstOrder == old(flow.firstOrder) && sem.absent.None?
      ensures sink.Some? == ProgramTerm(program).Some? && sem.env.forks == ProgramForks(program)
      ensures sink.Some? ==> sink.value in net.nodes && net.nodes[sink.value].kind == Eraser
      ensures sink.Some? ==> Carries(sem, P(sink.value), ProgramTerm(program).value)
    {
      hide O.Building, Faithful, Computed, Eval, EvalAll, AllRefs, Extends, Tally;
      PushScope(net, program, {});
      ghost var s := sem;
      StartAwaits(s, program);
      var result := BuildContainer(net, program, {});
      OutCarries(s, sem, AllRefs(program), EvalProgram(program).0, result, ProgramTerm(program));
      sink := Discard(net, result);
      ghost var t := sem;
      PopScope(net, {});
      ForksAddUp(program);
      if sink.Some? { StillCarries(t, sem, P(sink.value), ProgramTerm(program).value); }
    }

    lemma Sealed(net: HinNetwork)
      requires Building(net, {}) && scopeStack == [] && sem.absent.None?
      ensures Closed(View(net.State())) && Polarised(View(net.State())) && Consistent(net.State())
      ensures Annotated(net.nodes, View(net.State()).wires, sem.terms) && Duplicators(net.nodes) == sem.env.forks
      ensures ArgumentsApart(net.nodes, sem.terms) && ArgumentsNamed(net.nodes, sem.terms, sem.named)
      ensures flow.firstOrder ==> DataflowNet(View(net.State()))
      ensures sem.env.forks == 0 ==> Nestable(View(net.State()))
    {
      hide O.Building, Annotated, Duplicators, AllDenote, O.FlowsSoFar, ArgumentsApart, ArgumentsNamed, Nestable;
      O.Sealed(net.State(), flow);
      if sem.env.forks == 0 { Unforked(net); }
    }

    lemma Unforked(net: HinNetwork)
      requires Closed(View(net.State())) && O.FlowsSoFar(View(net.State()), flow)
      requires Annotated(net.nodes, View(net.State()).wires, sem.terms) && Duplicators(net.nodes) == 0
      ensures Nestable(View(net.State()))
    {
      hide O.FlowsSoFar, NodeReads, AllForward, AllCaps, AllRead, Nested, Duplicators;
      NoDuplicators(net.nodes);
      forall n | n in net.nodes ensures net.nodes[n].kind in CALL_KINDS {
        assert Compiled(n, net.nodes[n]);
      }
      O.SeatsNest(View(net.State()), flow);
    }
  }
}
