/** The event handlers as they run: loops over the out-port list of a flow that schedule events and
    register live flows one at a time (src/sim/event_handler.c). Each is proved to compute the
    function of module EventHandlers that the runs of the engine are built from. */
module EventHandlerObject {
  import opened Options
  import opened Sequences
  import opened EventQueue
  import opened EventHandlers

  // ----- The out-port loop -----

  /** One iteration: the head entry is served and deleted, or, when it is a flood, replaced by the
      flood ports at the tail. */
  function LoopStep(fp: seq<nat>, out: seq<nat>): seq<nat> {
    if out == [] then [] else if out[0] == OFPP_FLOOD then out[1..] + fp else out[1..]
  }

  function Iterate(fp: seq<nat>, out: seq<nat>, k: nat): seq<nat>
    decreases k
  {
    if k == 0 then out else Iterate(fp, LoopStep(fp, out), k - 1)
  }

  lemma {:induction false} LoopEmpties(fp: seq<nat>, out: seq<nat>) returns (k: nat)
    requires OFPP_FLOOD !in out || OFPP_FLOOD !in fp
    ensures Iterate(fp, out, k) == []
    decreases Floods(out), |out|
  {
    if out == [] {
      k := 0;
    } else {
      if out[0] == OFPP_FLOOD {
        ExpandFlood(fp, out);
      }
      var rest := LoopEmpties(fp, LoopStep(fp, out));
      k := rest + 1;
    }
  }

  lemma {:induction false} LoopKeepsFlood(fp: seq<nat>, out: seq<nat>, k: nat)
    requires OFPP_FLOOD in out && OFPP_FLOOD in fp
    ensures OFPP_FLOOD in Iterate(fp, out, k)
    decreases k
  {
    if k > 0 {
      assert OFPP_FLOOD in LoopStep(fp, out);
      LoopKeepsFlood(fp, LoopStep(fp, out), k - 1);
    }
  }

  /** The loop over the out-port list ends exactly when the list holds no flood or none of the ports
      a flood stands for is itself numbered as a flood. */
  lemma LoopEndsIff(fp: seq<nat>, out: seq<nat>)
    ensures (exists k: nat :: Iterate(fp, out, k) == []) <==> (OFPP_FLOOD !in out || OFPP_FLOOD !in fp)
  {
    if OFPP_FLOOD !in out || OFPP_FLOOD !in fp {
      var k := LoopEmpties(fp, out);
    } else {
      forall k: nat
        ensures Iterate(fp, out, k) != []
      {
        LoopKeepsFlood(fp, out, k);
      }
    }
  }

  /** A node with a port numbered as a flood: its out-port list never becomes empty. */
  lemma LoopForever(k: nat)
    ensures FloodPorts([Port(1, 1000), Port(OFPP_FLOOD, 1000)], 1) == [OFPP_FLOOD]
    ensures Iterate([OFPP_FLOOD], [OFPP_FLOOD], k) != []
  {
    var ports := [Port(1, 1000), Port(OFPP_FLOOD, 1000)];
    assert ports[1..] == [Port(OFPP_FLOOD, 1000)] && ports[1..][1..] == [];
    assert FloodPorts(ports[1..], 1) == [OFPP_FLOOD] + FloodPorts([], 1);
    LoopKeepsFlood([OFPP_FLOOD], [OFPP_FLOOD], k);
  }

  lemma ResultingPlain(fp: seq<nat>, out: seq<nat>)
    requires out != [] && out[0] != OFPP_FLOOD
    ensures Resulting(fp, out) == [out[0]] + Resulting(fp, out[1..])
    ensures Floods(out[1..]) == Floods(out)
  {
    Regroup([out[0]], NonFlood(out[1..]), Repeat(fp, Floods(out[1..])));
  }

  lemma FloodPortsPlain(n: Node, inPort: nat)
    requires NodeOk(n)
    ensures OFPP_FLOOD !in FloodPorts(n.ports, inPort)
  {
    FloodPortsMembers(n.ports, inPort);
  }

  class EventHandler {
    const topo: Topology
    const sch: Scheduler
    var flows: map<nat, Flow>
    var nextFlow: nat
    var execs: map<(nat, nat), nat>

    ghost function State(): Data
      reads this, sch
    {
      Data(sch.queue, flows, nextFlow, execs)
    }

    ghost predicate Valid()
      reads this, sch
    {
      TopologyOk(topo) && sch.Valid()
    }

    constructor (topo: Topology, sch: Scheduler, execs: map<(nat, nat), nat>)
      requires TopologyOk(topo) && sch.Valid()
      ensures Valid() && this.topo == topo && this.sch == sch
      ensures State() == Data(sch.queue, map[], 0, execs)
    {
      this.topo, this.sch, this.execs, flows, nextFlow := topo, sch, execs, map[], 0;
    }

    /** Serve the out-ports of a received flow. */
    method AfterFlowRecv(node: nat, nf: Flow, flow: nat) returns (r: Flow)
      requires Valid() && node in topo.nodes
      modifies sch`queue
      ensures Valid()
      ensures var n := topo.nodes[node];
              && sch.queue == InsertAll(old(sch.queue), ServeEvents(n, node, flow, nf, OutPorts(n, nf)))
              && r == Served(n, nf, OutPorts(n, nf)).(outPorts := [])
    {
      var n, f, out := topo.nodes[node], nf, nf.outPorts;
      var fp := FloodPorts(n.ports, nf.inPort);
      FloodPortsPlain(n, nf.inPort);
      while out != []
        invariant sch.Valid()
        invariant InsertAll(sch.queue, ServeEvents(n, node, flow, f, Resulting(fp, out)))
               == InsertAll(old(sch.queue), ServeEvents(n, node, flow, nf, OutPorts(n, nf)))
        invariant Served(n, f, Resulting(fp, out)) == Served(n, nf, OutPorts(n, nf))
        decreases Floods(out), |out|
      {
        var op := out[0];
        if op == OFPP_CONTROLLER {
          ResultingPlain(fp, out);
          sch.Schedule(Event(f.startTime, OfOut(node)));
          out := out[1..];
        } else if op == OFPP_FLOOD {
          ExpandFlood(fp, out);
          out := out[1..] + fp;
        } else {
          ResultingPlain(fp, out);
          f := AddTxTime(n, op, f);
          sch.Schedule(Event(f.startTime, FlowSend(node, flow, op)));
          out := out[1..];
        }
      }
      r := f.(outPorts := []);
    }

    method HandleRecvNetflow(e: Event, r: Reply)
      requires Valid() && e.kind.FlowRecv? && ReplyOk(topo, State(), e, r)
      modifies this, sch`queue
      ensures Valid() && State() == Handle(topo, old(State()), e, r)
    {
      var node, flow := e.kind.node, e.kind.flow;
      if node in topo.nodes && flow in flows {
        match r.result {
          case Some(nf) =>
            var nf' := AfterFlowRecv(node, nf, flow);
            flows := flows[flow := nf'];
          case None =>
            flows := flows - {flow};
        }
      }
    }

    method AfterFlowSend(node: nat, port: nat, flow: nat)
      requires Valid() && node in topo.nodes && flow in flows
      modifies this, sch`queue
      ensures Valid() && State() == AfterSend(topo, node, port, flow, old(State()))
    {
      var nf := flows[flow];
      if topo.nodes[node].kind.Host? && (node, nf.execId) in execs && execs[(node, nf.execId)] != 0 {
        sch.Schedule(Event(nf.startTime + 1000000, AppStart(node, nf.execId)));
      }
      ghost var d := State();
      if (node, port) in topo.links {
        var l := topo.links[(node, port)];
        nf := nf.(startTime := nf.startTime + l.latency, inPort := l.dstPort);
        sch.Schedule(Event(nf.startTime, FlowRecv(l.dstNode, flow)));
        flows := flows[flow := nf];
        assert State() == Hop(d, flow, l);
      }
    }

    method HandleSendNetflow(e: Event, r: Reply)
      requires Valid() && e.kind.FlowSend? && ReplyOk(topo, State(), e, r)
      modifies this, sch`queue
      ensures Valid() && State() == Handle(topo, old(State()), e, r)
    {
      var node, flow, port := e.kind.node, e.kind.flow, e.kind.port;
      if node in topo.nodes && flow in flows && !r.lost {
        AfterFlowSend(node, port, flow);
      }
    }

    /** Register a copy of `nf` as a live flow and schedule its send on `port`. */
    method LaunchOne(node: nat, nf: Flow, port: nat, afterTx: bool)
      requires Valid() && node in topo.nodes
      modifies this, sch`queue
      ensures Valid() && execs == old(execs)
      ensures var f := AddTxTime(topo.nodes[node], port, nf);
              && nextFlow == old(nextFlow) + 1
              && flows == old(flows)[old(nextFlow) := f.(outPorts := [])]
              && sch.queue == Insert(old(sch.queue), Event(if afterTx then f.startTime else nf.startTime,
                                                            FlowSend(node, old(nextFlow), port)))
    {
      var f := AddTxTime(topo.nodes[node], port, nf);
      var id := nextFlow;
      nextFlow := nextFlow + 1;
      flows := flows[id := f.(outPorts := [])];
      sch.Schedule(Event(if afterTx then f.startTime else nf.startTime, FlowSend(node, id, port)));
    }

    method HandleOfIn(e: Event, r: Reply)
      requires Valid() && e.kind.OfIn? && ReplyOk(topo, State(), e, r)
      modifies this, sch`queue
      ensures Valid() && State() == Handle(topo, old(State()), e, r)
    {
      var node, nf := e.kind.node, r.packet;
      var n, out := topo.nodes[node], nf.outPorts;
      var fp := FloodPorts(n.ports, nf.inPort);
      FloodPortsPlain(n, nf.inPort);
      while out != []
        invariant Valid() && execs == old(execs)
        invariant Launch(n, node, State(), nf, Resulting(fp, out), false)
               == Launch(n, node, old(State()), nf, OutPorts(n, nf), false)
        decreases Floods(out), |out|
      {
        var op := out[0];
        if op == OFPP_FLOOD {
          ExpandFlood(fp, out);
          out := out[1..] + fp;
        } else {
          ResultingPlain(fp, out);
          LaunchOne(node, nf, op, false);
          out := out[1..];
        }
      }
      if r.answer {
        sch.Schedule(Event(e.time, OfOut(node)));
      }
    }

    /** Launch the flow of an application on each of its ports. */
    method LaunchAll(node: nat, nf: Flow)
      requires Valid() && node in topo.nodes
      modifies this, sch`queue
      ensures Valid() && State() == Launch(topo.nodes[node], node, old(State()), nf, nf.outPorts, true)
    {
      var n, i := topo.nodes[node], 0;
      while i < |nf.outPorts|
        invariant 0 <= i <= |nf.outPorts|
        invariant Valid() && execs == old(execs)
        invariant Launch(n, node, State(), nf, nf.outPorts[i..], true)
               == Launch(n, node, old(State()), nf, nf.outPorts, true)
      {
        assert nf.outPorts[i..][1..] == nf.outPorts[i + 1..];
        LaunchOne(node, nf, nf.outPorts[i], true);
        i := i + 1;
      }
    }

    method HandleStartApp(e: Event, r: Reply)
      requires Valid() && e.kind.AppStart? && ReplyOk(topo, State(), e, r)
      modifies this, sch`queue
      ensures Valid() && State() == Handle(topo, old(State()), e, r)
    {
      var node, exec := e.kind.node, e.kind.exec;
      if node in topo.nodes {
        if r.ran && (node, exec) in execs {
          execs := execs[(node, exec) := (execs[(node, exec)] + 0xffff_ffff) % 0x1_0000_0000];
        }
        if r.started.Some? {
          LaunchAll(node, r.started.value);
        }
      }
    }

    /** Dispatch on the type of the event. */
    method HandleEvent(e: Event, r: Reply)
      requires Valid() && ReplyOk(topo, State(), e, r)
      modifies this, sch`queue
      ensures Valid() && State() == Handle(topo, old(State()), e, r)
    {
      match e.kind {
        case FlowRecv(_, _) => HandleRecvNetflow(e, r);
        case FlowSend(_, _, _) => HandleSendNetflow(e, r);
        case OfIn(_) => HandleOfIn(e, r);
        case AppStart(_, _) => HandleStartApp(e, r);
        case _ =>
      }
    }
  }
}
