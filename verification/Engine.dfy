/** The simulator as a step system (src/sim/sim.c): the event thread (`des_mode`), the timer thread
    (`cont_mode`), the mutex and condition variable they hand the mode over with, and the network
    threads that insert control messages. A run is any interleaving of their steps. */
module Engine {
  import opened EventQueue
  import opened EventHandlers

  // ----- State -----

  /** Where the event thread is (src/sim/sim.c:146-191). */
  datatype DesPc =
    | DLock | DTest | DWait | DWoken          // wait for DES mode
    | DPick | DClock(ev: Event) | DHandle(ev: Event)
    | DRelock | DSetMode | DSignal | DUnlock  // hand over to the timer thread
    | DDone

  /** Where the timer thread is (src/sim/sim.c:203-247); `cur` is the event it retrieved. */
  datatype ContPc =
    | CIdle
    | CLock | CTest | CWait | CWoken          // wait for FTI mode
    | CRead | CAdvance(cur: Event) | CLoop(cur: Event) | CCheck
    | CRelock | CSetMode | CSignal | CUnlock  // hand over to the event thread

  datatype Mutex = Free | HeldByDes | HeldByCont

  datatype Config = Config(topo: Topology, idle: nat)

  /** `log` holds the events executed so far. */
  datatype State = State(
    des: DesPc, cont: ContPc, mutex: Mutex, mode: Mode,
    clock: nat, lastCtrl: nat, lastStats: nat, lastWrt: nat,
    data: Data, log: seq<Event>)

  /** Subtraction of 64-bit unsigned times. */
  function U64Sub(a: nat, b: nat): nat {
    (a - b) % 0x1_0000_0000_0000_0000
  }

  function StatsAt(last: nat, now: nat): nat {
    if U64Sub(now, last) / 1000000 != 0 then now else last
  }

  // ----- Steps -----

  datatype Action =
    | DesAcquire | DesTest | DesWake | DesPick | DesClock | DesHandle(reply: Reply)
    | DesSetMode | DesSignal | DesUnlock
    | Tick | ContAcquire | ContTest | ContWake | ContRead | ContAdvance(delta: nat) | ContProcess(reply: Reply)
    | ContStop | ContCheck | ContSetMode | ContSignal | ContUnlock
    | Arrive(kind: Kind)

  /** The state of the queue and the flows once the timer thread has handled and deleted `cur`. */
  function Processed(c: Config, s: State, cur: Event, r: Reply): Data
    requires TopologyOk(c.topo) && ReplyOk(c.topo, s.data, cur, r)
  {
    var d := Handle(c.topo, s.data, cur, r);
    d.(queue := Remove(d.queue, cur))
  }

  predicate Enabled(c: Config, s: State, a: Action)
    requires TopologyOk(c.topo)
  {
    match a
    case DesAcquire => s.mutex.Free? && (s.des.DLock? || s.des.DWoken? || s.des.DRelock?)
    case DesTest => s.des.DTest?
    case DesWake => s.des.DWait?
    case DesPick => s.des.DPick? && s.data.queue != []
    case DesClock => s.des.DClock?
    case DesHandle(r) => s.des.DHandle? && ReplyOk(c.topo, s.data, s.des.ev, r)
    case DesSetMode => s.des.DSetMode?
    case DesSignal => s.des.DSignal?
    case DesUnlock => s.des.DUnlock?
    case Tick => s.cont.CIdle?
    case ContAcquire => s.mutex.Free? && (s.cont.CLock? || s.cont.CWoken? || s.cont.CRelock?)
    case ContTest => s.cont.CTest?
    case ContWake => s.cont.CWait?
    case ContRead => s.cont.CRead? && s.data.queue != []
    case ContAdvance(_) => s.cont.CAdvance?
    case ContProcess(r) =>
      && s.cont.CLoop? && s.cont.cur.time <= s.clock && !s.cont.cur.kind.End?
      && ReplyOk(c.topo, s.data, s.cont.cur, r)
      && Processed(c, s, s.cont.cur, r).queue != []
    case ContStop => s.cont.CLoop? && (s.clock < s.cont.cur.time || s.cont.cur.kind.End?)
    case ContCheck => s.cont.CCheck?
    case ContSetMode => s.cont.CSetMode?
    case ContSignal => s.cont.CSignal?
    case ContUnlock => s.cont.CUnlock?
    case Arrive(kind) => !s.des.DDone? && (kind.RouterIn? || (kind.OfIn? && kind.node in c.topo.nodes))
  }

  function Apply(c: Config, s: State, a: Action): State
    requires TopologyOk(c.topo)
    requires Enabled(c, s, a)
  {
    match a
    case DesAcquire => s.(mutex := HeldByDes, des := if s.des.DRelock? then DSetMode else DTest)
    case DesTest => s.(mutex := Free, des := if s.mode.FTI? then DWait else DPick)
    case DesWake => s.(des := DWoken)
    case DesPick => s.(des := DClock(s.data.queue[0]), data := s.data.(queue := s.data.queue[1..]))
    case DesClock =>
      var ev := s.des.ev;
      var s' := s.(clock := ev.time, lastStats := StatsAt(s.lastStats, ev.time));
      if ev.kind.End? then s'.(des := DDone, log := s.log + [ev]) else s'.(des := DHandle(ev))
    case DesHandle(r) =>
      var ev := s.des.ev;
      s.(data := Handle(c.topo, s.data, ev, r), log := s.log + [ev],
         des := if ev.kind.Fti() then DRelock else DLock)
    case DesSetMode => s.(lastCtrl := s.clock, mode := FTI, des := DSignal)
    case DesSignal => s.(des := DUnlock, cont := if s.cont.CWait? then CWoken else s.cont)
    case DesUnlock => s.(mutex := Free, des := DLock)
    case Tick => s.(cont := CLock)
    case ContAcquire => s.(mutex := HeldByCont, cont := if s.cont.CRelock? then CSetMode else CTest)
    case ContTest => s.(mutex := Free, cont := if s.mode.DES? then CWait else CRead)
    case ContWake => s.(cont := CWoken)
    case ContRead => s.(cont := CAdvance(s.data.queue[0]))
    case ContAdvance(delta) =>
      var clock := s.clock + delta;
      s.(cont := CLoop(s.cont.cur), clock := clock,
         lastWrt := if U64Sub(clock, s.lastWrt) > 10000000 then clock else s.lastWrt)
    case ContProcess(r) =>
      var cur := s.cont.cur;
      var d := Processed(c, s, cur, r);
      s.(cont := CLoop(d.queue[0]), data := d, log := s.log + [cur],
         lastStats := StatsAt(s.lastStats, cur.time),
         lastCtrl := if cur.kind.Fti() then cur.time else s.lastCtrl)
    case ContStop =>
      var cur := s.cont.cur;
      s.(cont := CCheck, lastStats := if cur.time <= s.clock then StatsAt(s.lastStats, cur.time) else s.lastStats)
    case ContCheck => s.(cont := if U64Sub(s.clock, s.lastCtrl) > c.idle then CRelock else CIdle)
    case ContSetMode => s.(mode := DES, cont := CSignal)
    case ContSignal => s.(cont := CUnlock, des := if s.des.DWait? then DWoken else s.des)
    case ContUnlock => s.(mutex := Free, cont := CIdle)
    case Arrive(kind) => s.(data := Push(s.data, s.clock, kind))
  }

  /** The simulator as `sim_init` leaves it: FTI mode, clock 0, and a queue that holds the end event,
      the application starts and whatever control messages came in during the setup. */
  ghost predicate Init(s: State) {
    && s.des == DLock && s.cont == CIdle && s.mutex == Free && s.mode == FTI
    && s.clock == s.lastCtrl == s.lastStats == s.lastWrt == 0
    && s.log == [] && s.data.flows == map[]
    && Sorted(s.data.queue) && HasEnd(s.data.queue)
    && (forall e :: e in s.data.queue ==> e.kind.End? || e.kind.AppStart? || e.kind.OfIn? || e.kind.RouterIn?)
  }

  // ----- Arrivals and the event already picked -----

  /** An arrival is stamped with the clock. While a thread holds an event it has picked but has not
      moved the clock yet, that stamp must not fall behind the event; and an arrival must not slip in
      front of an end event the timer thread has retrieved. */
  predicate ArrivalSafe(s: State) {
    && (s.des.DClock? ==> s.des.ev.time <= s.clock)
    && (s.cont.CAdvance? ==>
          s.cont.cur.time < s.clock || (s.cont.cur.time == s.clock && !s.cont.cur.kind.End?))
  }

  predicate Disciplined(s: State, a: Action) {
    a.Arrive? ==> ArrivalSafe(s)
  }

  /** Every action of the run is enabled, and every arrival is safe, where it occurs. */
  ghost predicate IsRun(c: Config, s: State, acts: seq<Action>)
    requires TopologyOk(c.topo)
    decreases |acts|
  {
    acts == [] || (Enabled(c, s, acts[0]) && Disciplined(s, acts[0]) && IsRun(c, Apply(c, s, acts[0]), acts[1..]))
  }

  ghost function Run(c: Config, s: State, acts: seq<Action>): State
    requires TopologyOk(c.topo) && IsRun(c, s, acts)
    decreases |acts|
  {
    if acts == [] then s else Run(c, Apply(c, s, acts[0]), acts[1..])
  }

  // ----- Invariant: the threads -----

  /** The event-processing section of each thread. */
  predicate DesActive(s: State) {
    s.des.DPick? || s.des.DClock? || s.des.DHandle? || s.des.DRelock? || s.des.DSetMode?
  }

  predicate ContActive(s: State) {
    s.cont.CRead? || s.cont.CAdvance? || s.cont.CLoop? || s.cont.CCheck? || s.cont.CRelock? || s.cont.CSetMode?
  }

  predicate ThreadsOk(s: State) {
    && (s.mutex.HeldByDes? <==> s.des.DTest? || s.des.DSetMode? || s.des.DSignal? || s.des.DUnlock?)
    && (s.mutex.HeldByCont? <==> s.cont.CTest? || s.cont.CSetMode? || s.cont.CSignal? || s.cont.CUnlock?)
    && (DesActive(s) || s.des.DDone? || s.cont.CSignal? || s.cont.CUnlock? ==> s.mode == DES)
    && (ContActive(s) || s.des.DSignal? || s.des.DUnlock? ==> s.mode == FTI)
    && (s.des.DWait? ==> s.mode == FTI || s.cont.CSignal?)
    && (s.cont.CWait? ==> s.mode == DES || s.des.DSignal?)
  }

  // ----- Invariant: the times -----

  /** The time of the last executed event. */
  function Low(s: State): nat {
    if s.log == [] then 0 else s.log[|s.log| - 1].time
  }

  /** Nothing pending is overdue: every pending event is due at the clock or later, except that an
      end event the clock has passed may be waiting at the head of the queue. */
  ghost predicate Punctual(s: State) {
    NoneBefore(s.data.queue, s.clock) || (s.data.queue != [] && s.data.queue[0].kind.End?)
  }

  ghost predicate DesTimes(s: State) {
    match s.des
    case DClock(ev) =>
      && PendingOk(s.data, ev) && NoneBefore(s.data.queue, ev.time)
      && Low(s) <= ev.time && s.lastStats <= ev.time && (s.clock <= ev.time || ev.kind.End?)
    case DHandle(ev) =>
      PendingOk(s.data, ev) && NoneBefore(s.data.queue, ev.time) && s.clock == ev.time && !ev.kind.End?
    case _ => true
  }

  ghost predicate ContTimes(s: State) {
    match s.cont
    case CAdvance(cur) =>
      && cur in s.data.queue && NoneBefore(s.data.queue, cur.time)
      && (cur.kind.End? ==> cur == s.data.queue[0])
    case CLoop(cur) =>
      && cur in s.data.queue
      && (forall e :: e in s.data.queue ==> cur.time <= e.time || s.clock <= e.time)
      && (cur.kind.End? ==> cur == s.data.queue[0] || NoneBefore(s.data.queue, s.clock))
    case _ => true
  }

  ghost predicate TimesOk(s: State) {
    && DataOk(s.data)
    && (s.des.DDone? || (s.des.DClock? && s.des.ev.kind.End?) || HasEnd(s.data.queue))
    && DesTimes(s) && ContTimes(s)
    && (!s.des.DClock? && !s.cont.CAdvance? && !s.cont.CLoop? ==> Punctual(s))
    && Sorted(s.log) && NoneBefore(s.data.queue, Low(s))
    && NoneBefore(s.data.queue, s.lastStats)
    && (!s.des.DDone? ==>
          Low(s) <= s.clock && s.lastStats <= s.clock && s.lastCtrl <= s.clock && s.lastWrt <= s.clock)
  }

  ghost predicate Inv(s: State) {
    ThreadsOk(s) && TimesOk(s)
  }

  // ----- Every step keeps the invariant -----

  lemma InitOk(s: State)
    requires Init(s)
    ensures Inv(s)
  {
  }

  lemma ThreadsStep(c: Config, s: State, a: Action)
    requires TopologyOk(c.topo) && ThreadsOk(s) && Enabled(c, s, a)
    ensures ThreadsOk(Apply(c, s, a))
  {
  }

  lemma TailKeeps(q: seq<Event>)
    requires q != [] && Sorted(q)
    ensures Sorted(q[1..]) && NoneBefore(q[1..], q[0].time)
    ensures forall x :: x in q[1..] ==> x in q
    ensures HasEnd(q) && !q[0].kind.End? ==> HasEnd(q[1..])
  {
    if HasEnd(q) && !q[0].kind.End? {
      var e :| e in q && e.kind.End?;
      assert e in q[1..];
    }
  }

  /** Dropping pending events keeps what holds of each of them. */
  lemma DropKeeps(d: Data, q: seq<Event>)
    requires DataOk(d) && Sorted(q) && forall x :: x in q ==> x in d.queue
    ensures DataOk(d.(queue := q))
  {
    forall x | x in q
      ensures PendingOk(d.(queue := q), x)
    {
      assert PendingOk(d, x);
    }
  }

  lemma DesPickTimes(c: Config, s: State)
    requires TopologyOk(c.topo) && Inv(s) && Enabled(c, s, DesPick)
    ensures TimesOk(Apply(c, s, DesPick))
  {
    var q := s.data.queue;
    TailKeeps(q);
    DropKeeps(s.data, q[1..]);
    assert q[0] in q && PendingOk(s.data, q[0]);
  }

  lemma DesClockTimes(c: Config, s: State)
    requires TopologyOk(c.topo) && Inv(s) && Enabled(c, s, DesClock)
    ensures TimesOk(Apply(c, s, DesClock))
  {
  }

  /** Adding events no earlier than `t` to the queue keeps it free of events before `t`. */
  lemma ExtendsNoneBefore(d: Data, d': Data, e: Event, t: nat)
    requires Extends(d, d', e) && NoneBefore(d.queue, t) && t <= e.time
    ensures NoneBefore(d'.queue, t)
    ensures HasEnd(d.queue) ==> HasEnd(d'.queue)
  {
    if HasEnd(d.queue) {
      var x :| x in d.queue && x.kind.End?;
      assert x in d'.queue;
    }
  }

  lemma DesHandleTimes(c: Config, s: State, r: Reply)
    requires TopologyOk(c.topo) && Inv(s) && Enabled(c, s, DesHandle(r))
    ensures TimesOk(Apply(c, s, DesHandle(r)))
  {
    var ev := s.des.ev;
    HandleKeeps(c.topo, s.data, ev, r);
    HandledTimes(s, ev, Handle(c.topo, s.data, ev, r), Apply(c, s, DesHandle(r)));
  }

  /** What handling an event in DES mode leaves, when the event's successors are not earlier than it. */
  lemma HandledTimes(s: State, ev: Event, d: Data, s': State)
    requires Inv(s) && s.des == DHandle(ev) && DataOk(d) && Extends(s.data, d, ev)
    requires s' == s.(data := d, log := s.log + [ev], des := s'.des) && (s'.des.DRelock? || s'.des.DLock?)
    ensures TimesOk(s')
  {
    ExtendsNoneBefore(s.data, d, ev, ev.time);
    ExtendsNoneBefore(s.data, d, ev, s.lastStats);
    assert ContTimes(s');
    assert Sorted(s'.log);
  }

  lemma ContReadTimes(c: Config, s: State)
    requires TopologyOk(c.topo) && Inv(s) && Enabled(c, s, ContRead)
    ensures TimesOk(Apply(c, s, ContRead))
  {
  }

  lemma ContAdvanceTimes(c: Config, s: State, delta: nat)
    requires TopologyOk(c.topo) && Inv(s) && Enabled(c, s, ContAdvance(delta))
    ensures TimesOk(Apply(c, s, ContAdvance(delta)))
  {
  }

  /** Handling the earliest pending event and deleting it. */
  lemma ProcessedKeeps(c: Config, s: State, cur: Event, r: Reply)
    requires TopologyOk(c.topo) && ReplyOk(c.topo, s.data, cur, r)
    requires DataOk(s.data) && HasEnd(s.data.queue)
    requires cur in s.data.queue && NoneBefore(s.data.queue, cur.time) && !cur.kind.End?
    ensures var d := Processed(c, s, cur, r);
            DataOk(d) && HasEnd(d.queue) && NoneBefore(d.queue, cur.time) && d.queue != []
  {
    var d := Handle(c.topo, s.data, cur, r);
    assert PendingOk(s.data, cur);
    HandleKeeps(c.topo, s.data, cur, r);
    ExtendsNoneBefore(s.data, d, cur, cur.time);
    RemoveMembers(d.queue, cur);
    RemoveSorted(d.queue, cur);
    DropKeeps(d, Remove(d.queue, cur));
    var e :| e in d.queue && e.kind.End?;
    assert e in Remove(d.queue, cur);
  }

  lemma ContProcessTimes(c: Config, s: State, r: Reply)
    requires TopologyOk(c.topo) && Inv(s) && Enabled(c, s, ContProcess(r))
    ensures TimesOk(Apply(c, s, ContProcess(r)))
  {
    var cur := s.cont.cur;
    assert !s.des.DClock? && !s.des.DHandle? && !s.des.DDone?;
    assert NoneBefore(s.data.queue, cur.time) && Low(s) <= cur.time && s.lastStats <= cur.time;
    ProcessedKeeps(c, s, cur, r);
    var d := Processed(c, s, cur, r);
    LoopKeeps(s, Apply(c, s, ContProcess(r)), cur, d);
  }

  lemma LoopKeeps(s: State, s': State, cur: Event, d: Data)
    requires TimesOk(s) && !s.des.DClock? && !s.des.DHandle? && !s.des.DDone? && cur.time <= s.clock
    requires Low(s) <= cur.time && s.lastStats <= cur.time
    requires DataOk(d) && HasEnd(d.queue) && NoneBefore(d.queue, cur.time) && d.queue != []
    requires s' == s.(cont := CLoop(d.queue[0]), data := d, log := s.log + [cur],
                      lastStats := s'.lastStats, lastCtrl := s'.lastCtrl)
    requires s'.lastStats in {s.lastStats, cur.time} && s'.lastCtrl in {s.lastCtrl, cur.time}
    ensures TimesOk(s')
  {
    assert d.queue[0] in d.queue && NoneBefore(d.queue, d.queue[0].time);
  }

  lemma ContStopTimes(c: Config, s: State)
    requires TopologyOk(c.topo) && Inv(s) && Enabled(c, s, ContStop)
    ensures TimesOk(Apply(c, s, ContStop))
  {
  }

  lemma InsertHead(q: seq<Event>, e: Event)
    ensures var q' := Insert(q, e); if q == [] || e.time <= q[0].time then q'[0] == e else q'[0] == q[0]
    ensures HasEnd(q) ==> HasEnd(Insert(q, e))
  {
    if HasEnd(q) {
      InsertMembers(q, e);
      var x :| x in q && x.kind.End?;
      assert x in Insert(q, e);
    }
  }

  lemma InsertNoneBefore(q: seq<Event>, e: Event, t: nat)
    requires NoneBefore(q, t) && t <= e.time
    ensures NoneBefore(Insert(q, e), t)
  {
    InsertMembers(q, e);
  }

  lemma ArriveData(d: Data, time: nat, kind: Kind)
    requires DataOk(d) && !kind.OfFlow()
    ensures DataOk(Push(d, time, kind))
  {
    InsertMembers(d.queue, Event(time, kind));
    InsertSorted(d.queue, Event(time, kind));
    forall x | x in Push(d, time, kind).queue
      ensures PendingOk(Push(d, time, kind), x)
    {
      if x in d.queue {
        assert PendingOk(d, x);
      }
    }
  }

  lemma ArriveInDes(s: State, e: Event)
    requires Inv(s) && e.time == s.clock && (s.des.DClock? ==> s.des.ev.time <= s.clock)
    ensures DesTimes(s.(data := s.data.(queue := Insert(s.data.queue, e))))
  {
    InsertMembers(s.data.queue, e);
  }

  lemma ArriveInAdvance(q: seq<Event>, cur: Event, e: Event)
    requires cur in q && NoneBefore(q, cur.time) && (cur.kind.End? ==> cur == q[0])
    requires cur.time < e.time || (cur.time == e.time && !cur.kind.End?)
    ensures cur in Insert(q, e) && NoneBefore(Insert(q, e), cur.time)
    ensures cur.kind.End? ==> cur == Insert(q, e)[0]
  {
    InsertMembers(q, e);
    InsertHead(q, e);
    InsertNoneBefore(q, e, cur.time);
  }

  lemma ArriveInLoop(q: seq<Event>, cur: Event, e: Event)
    requires Sorted(q) && cur in q && (forall x :: x in q ==> cur.time <= x.time || e.time <= x.time)
    requires cur.kind.End? ==> cur == q[0] || NoneBefore(q, e.time)
    ensures cur in Insert(q, e) && (forall x :: x in Insert(q, e) ==> cur.time <= x.time || e.time <= x.time)
    ensures cur.kind.End? ==> cur == Insert(q, e)[0] || NoneBefore(Insert(q, e), e.time)
  {
    InsertMembers(q, e);
    InsertHead(q, e);
    if e.time <= q[0].time {
      assert NoneBefore(q, e.time);
      InsertNoneBefore(q, e, e.time);
    } else if NoneBefore(q, e.time) {
      InsertNoneBefore(q, e, e.time);
    }
  }

  lemma ArriveInCont(s: State, e: Event)
    requires ContTimes(s) && Sorted(s.data.queue) && e.time == s.clock
    requires s.cont.CAdvance? ==>
               s.cont.cur.time < s.clock || (s.cont.cur.time == s.clock && !s.cont.cur.kind.End?)
    ensures ContTimes(s.(data := s.data.(queue := Insert(s.data.queue, e))))
  {
    if s.cont.CAdvance? {
      ArriveInAdvance(s.data.queue, s.cont.cur, e);
    } else if s.cont.CLoop? {
      ArriveInLoop(s.data.queue, s.cont.cur, e);
    }
  }

  lemma ArriveInHand(c: Config, s: State, kind: Kind)
    requires TopologyOk(c.topo) && Inv(s) && Enabled(c, s, Arrive(kind)) && ArrivalSafe(s)
    ensures DesTimes(Apply(c, s, Arrive(kind)))
    ensures ContTimes(Apply(c, s, Arrive(kind)))
  {
    ArriveInDes(s, Event(s.clock, kind));
    ArriveInCont(s, Event(s.clock, kind));
  }

  lemma ArrivePunctual(c: Config, s: State, kind: Kind)
    requires TopologyOk(c.topo) && Inv(s) && Enabled(c, s, Arrive(kind)) && Punctual(s)
    ensures Punctual(Apply(c, s, Arrive(kind)))
  {
    var q, e := s.data.queue, Event(s.clock, kind);
    InsertHead(q, e);
    if NoneBefore(q, s.clock) {
      InsertNoneBefore(q, e, s.clock);
    }
  }

  lemma ArriveTimes(c: Config, s: State, kind: Kind)
    requires TopologyOk(c.topo) && Inv(s) && Enabled(c, s, Arrive(kind)) && ArrivalSafe(s)
    ensures TimesOk(Apply(c, s, Arrive(kind)))
  {
    var q, e := s.data.queue, Event(s.clock, kind);
    ArriveInHand(c, s, kind);
    ArriveData(s.data, s.clock, kind);
    InsertNoneBefore(q, e, Low(s));
    InsertNoneBefore(q, e, s.lastStats);
    InsertHead(q, e);
    if Punctual(s) {
      ArrivePunctual(c, s, kind);
    }
    NewData(s, Push(s.data, s.clock, kind));
  }

  /** What a change of the data alone has to keep. */
  lemma NewData(s: State, d: Data)
    requires TimesOk(s) && DataOk(d) && DesTimes(s.(data := d)) && ContTimes(s.(data := d))
    requires HasEnd(s.data.queue) ==> HasEnd(d.queue)
    requires Punctual(s) ==> Punctual(s.(data := d))
    requires NoneBefore(d.queue, Low(s)) && NoneBefore(d.queue, s.lastStats)
    ensures TimesOk(s.(data := d))
  {
  }

  /** The remaining steps move only the threads, the mutex and the mode. */
  predicate Control(a: Action) {
    !a.DesPick? && !a.DesClock? && !a.DesHandle? && !a.ContRead? && !a.ContAdvance? && !a.ContProcess?
    && !a.ContStop? && !a.Arrive?
  }

  lemma ControlTimes(c: Config, s: State, a: Action)
    requires TopologyOk(c.topo) && Inv(s) && Enabled(c, s, a) && Control(a)
    ensures TimesOk(Apply(c, s, a))
  {
    var s' := Apply(c, s, a);
    assert s'.data == s.data && s'.log == s.log && s'.clock == s.clock && s'.lastStats == s.lastStats;
    assert DesTimes(s') && ContTimes(s');
    assert Punctual(s) ==> Punctual(s');
  }

  lemma TimesStep(c: Config, s: State, a: Action)
    requires TopologyOk(c.topo) && Inv(s) && Enabled(c, s, a) && Disciplined(s, a)
    ensures TimesOk(Apply(c, s, a))
  {
    match a {
      case DesPick => DesPickTimes(c, s);
      case DesClock => DesClockTimes(c, s);
      case DesHandle(r) => DesHandleTimes(c, s, r);
      case ContRead => ContReadTimes(c, s);
      case ContAdvance(delta) => ContAdvanceTimes(c, s, delta);
      case ContProcess(r) => ContProcessTimes(c, s, r);
      case ContStop => ContStopTimes(c, s);
      case Arrive(kind) => ArriveTimes(c, s, kind);
      case _ => ControlTimes(c, s, a);
    }
  }

  /** Every step, whichever thread takes it, keeps the invariant. */
  lemma StepKeepsInv(c: Config, s: State, a: Action)
    requires TopologyOk(c.topo) && Inv(s) && Enabled(c, s, a) && Disciplined(s, a)
    ensures Inv(Apply(c, s, a))
  {
    ThreadsStep(c, s, a);
    TimesStep(c, s, a);
  }
}
