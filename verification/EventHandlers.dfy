/** What executing an event does to the pending events and the live flows
    (src/sim/event_handler.c), over an arbitrary topology. */
module EventHandlers {
  import opened Options
  import opened Sequences
  import opened EventQueue

  const OFPP_FLOOD: nat := 0xfffffffb
  const OFPP_CONTROLLER: nat := 0xfffffffd

  datatype NodeKind = Datapath | Router | L2Switch | Host

  datatype Port = Port(id: nat, speed: nat)

  /** A node and its ports, in the order they were added. */
  datatype Node = Node(kind: NodeKind, ports: seq<Port>)

  datatype Link = Link(dstNode: nat, dstPort: nat, latency: nat)

  datatype Topology = Topology(nodes: map<nat, Node>, links: map<(nat, nat), Link>)

  datatype Flow = Flow(startTime: nat, byteCnt: nat, inPort: nat, execId: nat, outPorts: seq<nat>)

  /** The state the handlers work on: pending events, live flows with the next unused flow id,
      and the remaining executions of each (host, application) pair. */
  datatype Data = Data(queue: seq<Event>, flows: map<nat, Flow>, nextFlow: nat, execs: map<(nat, nat), nat>)

  // ----- Transmission time -----

  /** The divisor of the transmission time, in bits per microsecond: the product is a 32-bit one
      and wraps around. */
  function TxDivisor(speed: nat): nat {
    speed * 1000 % 0x1_0000_0000 / 1000000
  }

  /** The divisor is the speed in whole Mbps exactly up to the speed where the product wraps, and zero exactly
      when the wrapped product is below a million, as for the next speed up. */
  lemma TxDivisorIsMbps(speed: nat)
    ensures TxDivisor(speed) == speed / 1000 <==> speed <= 4294967
    ensures TxDivisor(speed) == 0 <==> speed * 1000 % 0x1_0000_0000 < 1000000
    ensures TxDivisor(4294968) == 0
  {
    if speed <= 4294967 {
      assert speed * 1000 % 0x1_0000_0000 == speed * 1000;
      assert speed * 1000 / 1000000 == speed / 1000;
    } else {
      WrappedIsLess(speed);
    }
  }

  lemma WrappedIsLess(speed: nat)
    requires speed > 4294967
    ensures TxDivisor(speed) < speed / 1000
  {
    var wrapped := speed * 1000 % 0x1_0000_0000;
    assert wrapped / 1000000 <= 4294;
    assert wrapped / 1000000 < speed / 1000 || speed < 4295000;
    if speed < 4295000 {
      assert wrapped == speed * 1000 - 0x1_0000_0000;
    }
  }

  function FindPort(ports: seq<Port>, id: nat): Option<Port> {
    if ports == [] then None else if ports[0].id == id then Some(ports[0]) else FindPort(ports[1..], id)
  }

  /** Ports a node must have for its flows to be timed and flooded: the transmission time is
      defined, and no real port carries the number reserved for flooding. */
  predicate NodeOk(n: Node) {
    forall p :: p in n.ports ==> TxDivisor(p.speed) > 0 && p.id != OFPP_FLOOD
  }

  predicate TopologyOk(t: Topology) {
    forall n :: n in t.nodes ==> NodeOk(t.nodes[n])
  }

  lemma {:induction false} FindPortMember(ports: seq<Port>, id: nat)
    ensures FindPort(ports, id).Some? ==> FindPort(ports, id).value in ports && FindPort(ports, id).value.id == id
    ensures FindPort(ports, id).None? ==> forall p :: p in ports ==> p.id != id
  {
    if ports != [] && ports[0].id != id {
      FindPortMember(ports[1..], id);
    }
  }

  function AddTxTime(n: Node, port: nat, f: Flow): (r: Flow)
    requires NodeOk(n)
    ensures f.startTime <= r.startTime && r == f.(startTime := r.startTime)
  {
    FindPortMember(n.ports, port);
    match FindPort(n.ports, port)
    case None => f
    case Some(p) => f.(startTime := f.startTime + f.byteCnt * 8 / TxDivisor(p.speed))
  }

  // ----- Flooding -----

  /** The ports a flood stands for: every port of the node except the input port. */
  function FloodPorts(ports: seq<Port>, inPort: nat): seq<nat> {
    if ports == [] then []
    else (if ports[0].id != inPort then [ports[0].id] else []) + FloodPorts(ports[1..], inPort)
  }

  function Floods(ports: seq<nat>): nat {
    if ports == [] then 0 else (if ports[0] == OFPP_FLOOD then 1 else 0) + Floods(ports[1..])
  }

  function NonFlood(ports: seq<nat>): seq<nat> {
    if ports == [] then [] else (if ports[0] == OFPP_FLOOD then [] else [ports[0]]) + NonFlood(ports[1..])
  }

  function Repeat(s: seq<nat>, n: nat): seq<nat> {
    if n == 0 then [] else s + Repeat(s, n - 1)
  }

  /** The ports an out-port list stands for, in the order they are served: the plain ports first,
      then one copy of the flood ports `fp` for each flood entry. */
  function Resulting(fp: seq<nat>, ports: seq<nat>): seq<nat> {
    NonFlood(ports) + Repeat(fp, Floods(ports))
  }

  function OutPorts(n: Node, f: Flow): seq<nat> {
    Resulting(FloodPorts(n.ports, f.inPort), f.outPorts)
  }

  lemma {:induction false} FloodPortsMembers(ports: seq<Port>, inPort: nat)
    ensures forall q :: q in FloodPorts(ports, inPort) <==> q != inPort && exists p :: p in ports && p.id == q
  {
    if ports != [] {
      FloodPortsMembers(ports[1..], inPort);
      assert ports == [ports[0]] + ports[1..];
      forall q
        ensures q in FloodPorts(ports, inPort) <==> q != inPort && exists p :: p in ports && p.id == q
      {
        if q != inPort && exists p :: p in ports && p.id == q {
          var p :| p in ports && p.id == q;
          assert p == ports[0] || p in ports[1..];
        }
      }
    }
  }

  lemma {:induction false} NoFloods(ports: seq<nat>)
    requires OFPP_FLOOD !in ports
    ensures Floods(ports) == 0 && NonFlood(ports) == ports
  {
    if ports != [] {
      NoFloods(ports[1..]);
    }
  }

  lemma {:induction false} FloodsConcat(a: seq<nat>, b: seq<nat>)
    ensures Floods(a + b) == Floods(a) + Floods(b)
    ensures NonFlood(a + b) == NonFlood(a) + NonFlood(b)
  {
    if a == [] {
      assert a + b == b;
    } else {
      assert (a + b)[1..] == a[1..] + b;
      FloodsConcat(a[1..], b);
    }
  }

  /** A flood at the head of the list adds one copy of the flood ports at the end. */
  lemma FloodFirst(fp: seq<nat>, ports: seq<nat>)
    requires ports != [] && ports[0] == OFPP_FLOOD
    ensures Resulting(fp, ports) == NonFlood(ports[1..]) + (fp + Repeat(fp, Floods(ports[1..])))
    ensures Floods(ports) == Floods(ports[1..]) + 1
  {
    assert [] + NonFlood(ports[1..]) == NonFlood(ports[1..]);
  }

  /** Replacing a flood at the head by its ports at the tail changes nothing but the number of
      floods left. */
  lemma ExpandFlood(fp: seq<nat>, ports: seq<nat>)
    requires OFPP_FLOOD !in fp
    requires ports != [] && ports[0] == OFPP_FLOOD
    ensures Resulting(fp, ports[1..] + fp) == Resulting(fp, ports)
    ensures Floods(ports[1..] + fp) < Floods(ports)
  {
    var rest := ports[1..];
    FloodFirst(fp, ports);
    NoFloods(fp);
    FloodsConcat(rest, fp);
    Regroup(NonFlood(rest), fp, Repeat(fp, Floods(rest)));
  }

  // ----- Handlers, as functions of the state -----

  function Push(d: Data, time: nat, kind: Kind): Data {
    d.(queue := Insert(d.queue, Event(time, kind)))
  }

  /** The events that serving the ports of a received flow schedules, one per port: a message to the
      controller or a send. The flow is shared, so every transmission delays the following ones. */
  function ServeEvents(n: Node, node: nat, flow: nat, f: Flow, ports: seq<nat>): seq<Event>
    requires NodeOk(n)
    decreases |ports|
  {
    if ports == [] then []
    else if ports[0] == OFPP_CONTROLLER then
      [Event(f.startTime, OfOut(node))] + ServeEvents(n, node, flow, f, ports[1..])
    else
      var f' := AddTxTime(n, ports[0], f);
      [Event(f'.startTime, FlowSend(node, flow, ports[0]))] + ServeEvents(n, node, flow, f', ports[1..])
  }

  /** The flow once all its ports are served. */
  function Served(n: Node, f: Flow, ports: seq<nat>): (r: Flow)
    requires NodeOk(n)
    ensures f.startTime <= r.startTime && r == f.(startTime := r.startTime)
    decreases |ports|
  {
    if ports == [] then f
    else Served(n, if ports[0] == OFPP_CONTROLLER then f else AddTxTime(n, ports[0], f), ports[1..])
  }

  /** The send events that launching a new flow on `ports` schedules, one per port, each for a live
      flow of its own. The send of a packet-out is due when the flow starts; that of an application
      once it has been transmitted. */
  function LaunchEvents(n: Node, node: nat, next: nat, f: Flow, ports: seq<nat>, afterTx: bool): seq<Event>
    requires NodeOk(n)
    decreases |ports|
  {
    if ports == [] then []
    else
      [Event(if afterTx then AddTxTime(n, ports[0], f).startTime else f.startTime, FlowSend(node, next, ports[0]))]
      + LaunchEvents(n, node, next + 1, f, ports[1..], afterTx)
  }

  /** The live flows once a copy of `f` is launched on each port. */
  function LaunchFlows(n: Node, flows: map<nat, Flow>, next: nat, f: Flow, ports: seq<nat>): map<nat, Flow>
    requires NodeOk(n)
    decreases |ports|
  {
    if ports == [] then flows
    else LaunchFlows(n, flows[next := AddTxTime(n, ports[0], f).(outPorts := [])], next + 1, f, ports[1..])
  }

  function Launch(n: Node, node: nat, d: Data, f: Flow, ports: seq<nat>, afterTx: bool): Data
    requires NodeOk(n)
  {
    d.(queue := InsertAll(d.queue, LaunchEvents(n, node, d.nextFlow, f, ports, afterTx)),
       flows := LaunchFlows(n, d.flows, d.nextFlow, f, ports),
       nextFlow := d.nextFlow + |ports|)
  }

  /** A host that sent a flow of an application with executions left schedules the next one. */
  function Rerun(t: Topology, node: nat, f: Flow, d: Data): Data
    requires node in t.nodes
  {
    if t.nodes[node].kind.Host? && (node, f.execId) in d.execs && d.execs[(node, f.execId)] != 0
    then Push(d, f.startTime + 1000000, AppStart(node, f.execId))
    else d
  }

  /** A flow crosses a link: it starts later by the latency and is received at the other end. */
  function Hop(d: Data, flow: nat, l: Link): Data
    requires flow in d.flows
  {
    var f := d.flows[flow].(startTime := d.flows[flow].startTime + l.latency, inPort := l.dstPort);
    Push(d, f.startTime, FlowRecv(l.dstNode, flow)).(flows := d.flows[flow := f])
  }

  function AfterSend(t: Topology, node: nat, port: nat, flow: nat, d: Data): Data
    requires node in t.nodes && flow in d.flows
  {
    var d1 := Rerun(t, node, d.flows[flow], d);
    if (node, port) in t.links then Hop(d1, flow, t.links[(node, port)]) else d1
  }

  /** What the parts outside the engine answer while an event is handled: what a node makes of a
      received flow, whether a send is lost to congestion, what a control message asks for, and
      what an application starts. */
  datatype Reply =
    | Nothing
    | Received(result: Option<Flow>)
    | Sent(lost: bool)
    | PacketOut(packet: Flow, answer: bool)
    | Started(ran: bool, started: Option<Flow>)

  /** The answers the engine counts on: nodes never move a flow back in time, and packet-outs and
      applications start their flow at the time of the event. */
  predicate ReplyOk(t: Topology, d: Data, e: Event, r: Reply) {
    match e.kind
    case FlowRecv(_, flow) =>
      r.Received? && (flow in d.flows && r.result.Some? ==> d.flows[flow].startTime <= r.result.value.startTime)
    case FlowSend(_, _, _) => r.Sent?
    case OfIn(node) => node in t.nodes && r.PacketOut? && r.packet.startTime == e.time
    case AppStart(_, _) => r.Started? && (r.started.Some? ==> r.ran && r.started.value.startTime == e.time)
    case _ => r.Nothing?
  }

  function Handle(t: Topology, d: Data, e: Event, r: Reply): Data
    requires TopologyOk(t)
    requires ReplyOk(t, d, e, r)
  {
    match e.kind
    case FlowRecv(node, flow) =>
      if node !in t.nodes || flow !in d.flows then d
      else (match r.result
            case None => d.(flows := d.flows - {flow})
            case Some(f) =>
              var n := t.nodes[node];
              var ports := OutPorts(n, f);
              d.(queue := InsertAll(d.queue, ServeEvents(n, node, flow, f, ports)),
                 flows := d.flows[flow := Served(n, f, ports).(outPorts := [])]))
    case FlowSend(node, flow, port) =>
      if node !in t.nodes || flow !in d.flows || r.lost then d else AfterSend(t, node, port, flow, d)
    case OfIn(node) =>
      var n := t.nodes[node];
      var d' := Launch(n, node, d, r.packet, OutPorts(n, r.packet), false);
      if r.answer then Push(d', e.time, OfOut(node)) else d'
    case AppStart(node, exec) =>
      if node !in t.nodes then d
      else
        var d1 := if r.ran && (node, exec) in d.execs
                  then d.(execs := d.execs[(node, exec) := (d.execs[(node, exec)] + 0xffff_ffff) % 0x1_0000_0000])
                  else d;
        if r.started.None? then d1
        else Launch(t.nodes[node], node, d1, r.started.value, r.started.value.outPorts, true)
    case _ => d
  }

  // ----- What every handler keeps -----

  /** A pending flow event is never later than the flow it moves, and names a flow already issued. */
  predicate PendingOk(d: Data, e: Event) {
    e.kind.OfFlow() ==>
      && e.kind.flow < d.nextFlow
      && (e.kind.flow in d.flows ==> e.time <= d.flows[e.kind.flow].startTime)
  }

  ghost predicate DataOk(d: Data) {
    && Sorted(d.queue)
    && (forall e :: e in d.queue ==> PendingOk(d, e))
    && (forall f :: f in d.flows ==> f < d.nextFlow)
  }

  /** What serving one port schedules. */
  function ServeEvent(node: nat, flow: nat, time: nat, port: nat): Event {
    Event(time, if port == OFPP_CONTROLLER then OfOut(node) else FlowSend(node, flow, port))
  }

  /** The flow after one port is served. */
  function ServedOne(n: Node, f: Flow, port: nat): Flow
    requires NodeOk(n)
  {
    if port == OFPP_CONTROLLER then f else AddTxTime(n, port, f)
  }

  lemma ServeFirst(n: Node, node: nat, flow: nat, f: Flow, ports: seq<nat>)
    requires NodeOk(n) && ports != []
    ensures var f' := ServedOne(n, f, ports[0]);
            && f.startTime <= f'.startTime && Served(n, f, ports) == Served(n, f', ports[1..])
            && ServeEvents(n, node, flow, f, ports)
               == [ServeEvent(node, flow, f'.startTime, ports[0])] + ServeEvents(n, node, flow, f', ports[1..])
  {
  }

  /** The events lie between the two times and are in order. */
  ghost predicate Within(es: seq<Event>, from: nat, to: nat) {
    Sorted(es) && forall i :: 0 <= i < |es| ==> from <= es[i].time <= to
  }

  lemma WithinNext(e: Event, es: seq<Event>, from: nat, to: nat)
    requires Within(es, e.time, to) && from <= e.time <= to
    ensures Within([e] + es, from, to)
  {
  }

  /** Serving schedules exactly one event per port, in non-decreasing time, none before the flow
      starts and none after the flow's new start time. */
  lemma {:induction false} ServeEventsPerPort(n: Node, node: nat, flow: nat, f: Flow, ports: seq<nat>)
    requires NodeOk(n)
    ensures var es := ServeEvents(n, node, flow, f, ports);
            && |es| == |ports|
            && (forall i :: 0 <= i < |ports| ==> es[i] == ServeEvent(node, flow, es[i].time, ports[i]))
            && Within(es, f.startTime, Served(n, f, ports).startTime)
    decreases |ports|
  {
    if ports != [] {
      var f' := ServedOne(n, f, ports[0]);
      var e, rest := ServeEvent(node, flow, f'.startTime, ports[0]), ServeEvents(n, node, flow, f', ports[1..]);
      ServeFirst(n, node, flow, f, ports);
      ServeEventsPerPort(n, node, flow, f', ports[1..]);
      WithinNext(e, rest, f.startTime, Served(n, f, ports).startTime);
      forall i | 0 < i < |ports|
        ensures ([e] + rest)[i] == ServeEvent(node, flow, ([e] + rest)[i].time, ports[i])
      {
        assert ([e] + rest)[i] == rest[i - 1] && ports[i] == ports[1..][i - 1];
      }
    }
  }

  /** Launching schedules exactly one send per port, for a fresh live flow that starts no earlier
      than the send, and leaves the flows that were live as they were. */
  lemma {:induction false} LaunchEventsPerPort(n: Node, node: nat, flows: map<nat, Flow>, next: nat, f: Flow,
                                               ports: seq<nat>, afterTx: bool)
    requires NodeOk(n)
    requires forall g :: g in flows ==> g < next
    ensures var es, r := LaunchEvents(n, node, next, f, ports, afterTx), LaunchFlows(n, flows, next, f, ports);
            && |es| == |ports|
            && (forall i :: 0 <= i < |ports| ==>
                  && es[i].kind == FlowSend(node, next + i, ports[i])
                  && f.startTime <= es[i].time
                  && next + i in r && es[i].time <= r[next + i].startTime)
            && (forall g :: g in r ==> g in flows || next <= g < next + |ports|)
            && (forall g :: g in flows ==> g in r && r[g] == flows[g])
    decreases |ports|
  {
    if ports != [] {
      var flows' := flows[next := AddTxTime(n, ports[0], f).(outPorts := [])];
      LaunchEventsPerPort(n, node, flows', next + 1, f, ports[1..], afterTx);
      var es, r := LaunchEvents(n, node, next, f, ports, afterTx), LaunchFlows(n, flows, next, f, ports);
      forall i | 0 <= i < |ports|
        ensures es[i].kind == FlowSend(node, next + i, ports[i]) && f.startTime <= es[i].time
        ensures next + i in r && es[i].time <= r[next + i].startTime
      {
        if i == 0 {
          assert next in flows';
        } else {
          assert next + i == next + 1 + (i - 1);
          assert es[i] == es[1..][i - 1] && ports[i] == ports[1..][i - 1];
        }
      }
    }
  }

  /** What handling `e` may do: keep every pending event, and add events no earlier than `e`, none of
      which ends the simulation or comes from the controller. */
  ghost predicate Extends(d: Data, d': Data, e: Event) {
    && d.nextFlow <= d'.nextFlow
    && (forall x :: x in d.queue ==> x in d'.queue)
    && (forall x :: x in d'.queue ==> x in d.queue || (e.time <= x.time && !x.kind.End? && !x.kind.OfIn?))
  }

  lemma ExtendsTrans(d0: Data, d1: Data, d2: Data, e: Event)
    requires Extends(d0, d1, e) && Extends(d1, d2, e)
    ensures Extends(d0, d2, e)
  {
  }

  lemma PushKeeps(d: Data, e: Event, time: nat, kind: Kind)
    requires DataOk(d) && e.time <= time && !kind.End? && !kind.OfIn?
    requires PendingOk(d, Event(time, kind))
    ensures DataOk(Push(d, time, kind)) && Extends(d, Push(d, time, kind), e)
  {
    InsertMembers(d.queue, Event(time, kind));
    InsertSorted(d.queue, Event(time, kind));
  }

  /** Moving a flow forward in time keeps every pending event no later than its flow. */
  lemma DelayKeeps(d: Data, flow: nat, f: Flow)
    requires DataOk(d) && flow in d.flows && d.flows[flow].startTime <= f.startTime
    ensures DataOk(d.(flows := d.flows[flow := f]))
  {
    var d' := d.(flows := d.flows[flow := f]);
    forall x | x in d'.queue
      ensures PendingOk(d', x)
    {
      assert PendingOk(d, x);
    }
  }

  lemma InsertAllKeeps(d: Data, d': Data, es: seq<Event>, e: Event)
    requires d'.queue == InsertAll(d.queue, es) && Sorted(d.queue) && d.nextFlow <= d'.nextFlow
    requires forall x :: x in d.queue ==> PendingOk(d', x)
    requires forall x :: x in es ==> PendingOk(d', x) && e.time <= x.time && !x.kind.End? && !x.kind.OfIn?
    requires forall f :: f in d'.flows ==> f < d'.nextFlow
    ensures DataOk(d') && Extends(d, d', e)
  {
    InsertAllMembers(d.queue, es);
  }

  lemma RecvKeeps(n: Node, node: nat, d: Data, e: Event, flow: nat, f: Flow)
    requires NodeOk(n) && DataOk(d) && PendingOk(d, e) && e.kind == FlowRecv(node, flow)
    requires flow in d.flows && d.flows[flow].startTime <= f.startTime
    ensures var d' := d.(queue := InsertAll(d.queue, ServeEvents(n, node, flow, f, OutPorts(n, f))),
                         flows := d.flows[flow := Served(n, f, OutPorts(n, f)).(outPorts := [])]);
            DataOk(d') && Extends(d, d', e)
  {
    var ports := OutPorts(n, f);
    var es, f' := ServeEvents(n, node, flow, f, ports), Served(n, f, ports).(outPorts := []);
    ServeEventsPerPort(n, node, flow, f, ports);
    var d1 := d.(flows := d.flows[flow := f']);
    DelayKeeps(d, flow, f');
    forall x | x in es
      ensures PendingOk(d1, x) && e.time <= x.time && !x.kind.End? && !x.kind.OfIn?
    {
      var i :| 0 <= i < |es| && es[i] == x;
    }
    InsertAllKeeps(d1, d1.(queue := InsertAll(d.queue, es)), es, e);
  }

  lemma LaunchKeeps(n: Node, node: nat, d: Data, e: Event, f: Flow, ports: seq<nat>, afterTx: bool)
    requires NodeOk(n) && DataOk(d) && e.time <= f.startTime
    ensures DataOk(Launch(n, node, d, f, ports, afterTx)) && Extends(d, Launch(n, node, d, f, ports, afterTx), e)
  {
    var es, d' := LaunchEvents(n, node, d.nextFlow, f, ports, afterTx), Launch(n, node, d, f, ports, afterTx);
    LaunchFlowsKeep(n, node, d, f, ports, afterTx);
    forall x | x in es
      ensures PendingOk(d', x) && e.time <= x.time && !x.kind.End? && !x.kind.OfIn?
    {
      LaunchedPending(n, node, d, f, ports, afterTx, x);
    }
    InsertAllKeeps(d, d', es, e);
  }

  /** What was pending before a launch still is, and the flows are numbered. */
  lemma LaunchFlowsKeep(n: Node, node: nat, d: Data, f: Flow, ports: seq<nat>, afterTx: bool)
    requires NodeOk(n) && DataOk(d)
    ensures var d' := Launch(n, node, d, f, ports, afterTx);
            && d.nextFlow <= d'.nextFlow && (forall g :: g in d'.flows ==> g < d'.nextFlow)
            && (forall x :: x in d.queue ==> PendingOk(d', x))
  {
    var d' := Launch(n, node, d, f, ports, afterTx);
    LaunchEventsPerPort(n, node, d.flows, d.nextFlow, f, ports, afterTx);
    forall x | x in d.queue
      ensures PendingOk(d', x)
    {
      assert PendingOk(d, x);
    }
  }

  /** A send that a launch schedules is for a live flow and no earlier than the launch. */
  lemma LaunchedPending(n: Node, node: nat, d: Data, f: Flow, ports: seq<nat>, afterTx: bool, x: Event)
    requires NodeOk(n) && DataOk(d) && x in LaunchEvents(n, node, d.nextFlow, f, ports, afterTx)
    ensures PendingOk(Launch(n, node, d, f, ports, afterTx), x)
    ensures f.startTime <= x.time && !x.kind.End? && !x.kind.OfIn?
  {
    LaunchEventsPerPort(n, node, d.flows, d.nextFlow, f, ports, afterTx);
  }

  lemma HopKeeps(d: Data, e: Event, flow: nat, l: Link)
    requires DataOk(d) && flow in d.flows && e.time <= d.flows[flow].startTime
    ensures DataOk(Hop(d, flow, l)) && Extends(d, Hop(d, flow, l), e)
  {
    var f := d.flows[flow].(startTime := d.flows[flow].startTime + l.latency, inPort := l.dstPort);
    var d1 := d.(flows := d.flows[flow := f]);
    DelayKeeps(d, flow, f);
    PushKeeps(d1, e, f.startTime, FlowRecv(l.dstNode, flow));
    assert Extends(d, d1, e);
    ExtendsTrans(d, d1, Push(d1, f.startTime, FlowRecv(l.dstNode, flow)), e);
  }

  lemma RerunKeeps(t: Topology, node: nat, f: Flow, d: Data, e: Event)
    requires DataOk(d) && node in t.nodes && e.time <= f.startTime
    ensures DataOk(Rerun(t, node, f, d)) && Extends(d, Rerun(t, node, f, d), e)
    ensures Rerun(t, node, f, d).flows == d.flows
  {
    var time, start := f.startTime + 1000000, AppStart(node, f.execId);
    assert Rerun(t, node, f, d) == d || Rerun(t, node, f, d) == Push(d, time, start);
    PushKeeps(d, e, time, start);
  }

  lemma SendKeeps(t: Topology, d: Data, e: Event, node: nat, port: nat, flow: nat)
    requires DataOk(d) && PendingOk(d, e)
    requires e.kind == FlowSend(node, flow, port)
    requires node in t.nodes && flow in d.flows
    ensures DataOk(AfterSend(t, node, port, flow, d)) && Extends(d, AfterSend(t, node, port, flow, d), e)
  {
    var d1 := Rerun(t, node, d.flows[flow], d);
    RerunKeeps(t, node, d.flows[flow], d, e);
    if (node, port) in t.links {
      HopKeeps(d1, e, flow, t.links[(node, port)]);
      ExtendsTrans(d, d1, Hop(d1, flow, t.links[(node, port)]), e);
    }
  }

  /** Handling any pending event keeps the queue sorted and every flow event no later than its
      flow, removes no pending event and adds none that is due before the event handled. */
  lemma HandleKeeps(t: Topology, d: Data, e: Event, r: Reply)
    requires TopologyOk(t) && ReplyOk(t, d, e, r)
    requires DataOk(d) && PendingOk(d, e)
    ensures DataOk(Handle(t, d, e, r))
    ensures Extends(d, Handle(t, d, e, r), e)
  {
    match e.kind {
      case FlowRecv(node, flow) =>
        if node in t.nodes && flow in d.flows && r.result.Some? {
          RecvKeeps(t.nodes[node], node, d, e, flow, r.result.value);
        }
      case FlowSend(node, flow, port) =>
        if node in t.nodes && flow in d.flows && !r.lost {
          SendKeeps(t, d, e, node, port, flow);
        }
      case OfIn(node) =>
        var n := t.nodes[node];
        var ports := OutPorts(n, r.packet);
        LaunchKeeps(n, node, d, e, r.packet, ports, false);
        if r.answer {
          PushKeeps(Launch(n, node, d, r.packet, ports, false), e, e.time, OfOut(node));
        }
      case AppStart(node, exec) =>
        if node in t.nodes && r.started.Some? {
          var d1 := if (node, exec) in d.execs
                    then d.(execs := d.execs[(node, exec) := (d.execs[(node, exec)] + 0xffff_ffff) % 0x1_0000_0000])
                    else d;
          assert DataOk(d1);
          LaunchKeeps(t.nodes[node], node, d1, e, r.started.value, r.started.value.outPorts, true);
        }
      case _ =>
    }
  }
}
