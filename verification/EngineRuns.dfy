/** What holds in every run of the simulator, however its threads and the network interleave. */
module EngineRuns {
  import opened Options
  import opened EventQueue
  import opened EventHandlers
  import opened Engine

  /** Control messages come from datapaths of the topology. */
  ghost predicate Known(c: Config, s: State) {
    && (forall e :: e in s.data.queue && e.kind.OfIn? ==> e.kind.node in c.topo.nodes)
    && ((s.des.DClock? || s.des.DHandle?) && s.des.ev.kind.OfIn? ==> s.des.ev.kind.node in c.topo.nodes)
  }

  lemma KnownStep(c: Config, s: State, a: Action)
    requires TopologyOk(c.topo) && Inv(s) && Known(c, s) && Enabled(c, s, a)
    ensures Known(c, Apply(c, s, a))
  {
    match a {
      case DesHandle(r) => HandleKeeps(c.topo, s.data, s.des.ev, r);
      case ContProcess(r) =>
        var cur := s.cont.cur;
        assert PendingOk(s.data, cur);
        HandleKeeps(c.topo, s.data, cur, r);
        RemoveMembers(Handle(c.topo, s.data, cur, r).queue, cur);
      case Arrive(kind) => InsertMembers(s.data.queue, Event(s.clock, kind));
      case _ =>
    }
  }

  /** The start of every run: the initial states, with no message from an unknown datapath. */
  ghost predicate Start(c: Config, s: State) {
    TopologyOk(c.topo) && Init(s) && Known(c, s)
  }

  lemma {:induction false} RunKeepsInv(c: Config, s: State, acts: seq<Action>)
    requires TopologyOk(c.topo) && Inv(s) && Known(c, s) && IsRun(c, s, acts)
    ensures Inv(Run(c, s, acts)) && Known(c, Run(c, s, acts))
    decreases |acts|
  {
    if acts != [] {
      StepKeepsInv(c, s, acts[0]);
      KnownStep(c, s, acts[0]);
      RunKeepsInv(c, Apply(c, s, acts[0]), acts[1..]);
    }
  }

  // ----- Safety -----

  /** Events were executed in time order, and nothing pending is older than the last of them. */
  ghost predicate InTimeOrder(s: State) {
    && (forall i, j :: 0 <= i < j < |s.log| ==> s.log[i].time <= s.log[j].time)
    && (forall e, x :: e in s.data.queue && x in s.log ==> x.time <= e.time)
  }

  /** The threads find an event whenever they take one from the queue: the end event stays in it. */
  ghost predicate NeverEmpty(s: State) {
    s.des.DDone? || (s.des.DClock? && s.des.ev.kind.End?) || exists e :: e in s.data.queue && e.kind.End?
  }

  ghost predicate FlowsAhead(s: State) {
    forall e :: e in s.data.queue && e.kind.OfFlow() && e.kind.flow in s.data.flows ==>
      e.time <= s.data.flows[e.kind.flow].startTime
  }

  /** The subtractions of src/sim/sim.c, where they are evaluated: statistics in either mode, the time
      message, and the controller's idle time. */
  ghost predicate NoUnderflow(s: State) {
    && (s.des.DClock? ==> s.lastStats <= s.des.ev.time)
    && (s.cont.CLoop? && s.cont.cur.time <= s.clock ==> s.lastStats <= s.cont.cur.time)
    && (s.cont.CAdvance? ==> s.lastWrt <= s.clock)
    && (s.cont.CCheck? ==> s.lastCtrl <= s.clock)
  }

  /** At most one thread processes events, and it is the one the mode names. */
  ghost predicate OneOwner(s: State) {
    && !(DesActive(s) && ContActive(s))
    && (DesActive(s) ==> s.mode == DES)
    && (ContActive(s) ==> s.mode == FTI)
  }

  lemma {:induction false} SortedLog(log: seq<Event>, q: seq<Event>)
    requires Sorted(log)
    requires log != [] ==> NoneBefore(q, log[|log| - 1].time)
    ensures forall e, x :: e in q && x in log ==> x.time <= e.time
  {
    forall e, x | e in q && x in log
      ensures x.time <= e.time
    {
      var i :| 0 <= i < |log| && log[i] == x;
      assert log[i].time <= log[|log| - 1].time;
    }
  }

  /** Safety over whole runs. */
  lemma EveryRunIsSafe(c: Config, s: State, acts: seq<Action>)
    requires Start(c, s) && IsRun(c, s, acts)
    ensures InTimeOrder(Run(c, s, acts))
    ensures NeverEmpty(Run(c, s, acts))
    ensures FlowsAhead(Run(c, s, acts))
    ensures NoUnderflow(Run(c, s, acts))
    ensures OneOwner(Run(c, s, acts))
  {
    InitOk(s);
    RunKeepsInv(c, s, acts);
    var t := Run(c, s, acts);
    SortedLog(t.log, t.data.queue);
    forall e | e in t.data.queue && e.kind.OfFlow() && e.kind.flow in t.data.flows
      ensures e.time <= t.data.flows[e.kind.flow].startTime
    {
      assert PendingOk(t.data, e);
    }
  }

  // ----- The clock -----

  lemma ClockStep(c: Config, s: State, a: Action)
    requires TopologyOk(c.topo) && Inv(s) && Enabled(c, s, a)
    ensures s.clock <= Apply(c, s, a).clock || Apply(c, s, a).des.DDone?
    ensures s.des.DDone? ==> Apply(c, s, a).des.DDone?
  {
  }

  lemma {:induction false} ClockRun(c: Config, s: State, acts: seq<Action>)
    requires TopologyOk(c.topo) && Inv(s) && Known(c, s) && IsRun(c, s, acts)
    ensures s.clock <= Run(c, s, acts).clock || Run(c, s, acts).des.DDone?
    ensures s.des.DDone? ==> Run(c, s, acts).des.DDone?
    decreases |acts|
  {
    if acts != [] {
      StepKeepsInv(c, s, acts[0]);
      KnownStep(c, s, acts[0]);
      ClockStep(c, s, acts[0]);
      ClockRun(c, Apply(c, s, acts[0]), acts[1..]);
    }
  }

  /** Between any two points of a run the clock does not go back, unless the end event came between. */
  lemma ClockNeverGoesBack(c: Config, s: State, acts: seq<Action>, more: seq<Action>)
    requires Start(c, s) && IsRun(c, s, acts) && IsRun(c, Run(c, s, acts), more)
    ensures var s1 := Run(c, s, acts);
            s1.clock <= Run(c, s1, more).clock || Run(c, s1, more).des.DDone?
  {
    InitOk(s);
    RunKeepsInv(c, s, acts);
    ClockRun(c, Run(c, s, acts), more);
  }

  // ----- Progress -----

  lemma SomeReply(t: Topology, d: Data, e: Event) returns (r: Reply)
    requires e.kind.OfIn? ==> e.kind.node in t.nodes
    ensures ReplyOk(t, d, e, r)
  {
    match e.kind {
      case FlowRecv(_, _) => r := Received(None);
      case FlowSend(_, _, _) => r := Sent(true);
      case OfIn(_) => r := PacketOut(Flow(e.time, 0, 0, 0, []), false);
      case AppStart(_, _) => r := Started(false, None);
      case _ => r := Nothing;
    }
  }

  lemma DesCanStep(c: Config, s: State) returns (a: Action)
    requires TopologyOk(c.topo) && Inv(s) && Known(c, s)
    requires !s.des.DDone? && !s.des.DWait?
    requires s.des.DLock? || s.des.DWoken? || s.des.DRelock? ==> s.mutex.Free?
    ensures Enabled(c, s, a) && !a.Arrive? && !a.DesWake? && !a.ContWake?
  {
    match s.des {
      case DTest => a := DesTest;
      case DPick => a := DesPick;
      case DClock(_) => a := DesClock;
      case DHandle(ev) =>
        var r := SomeReply(c.topo, s.data, ev);
        a := DesHandle(r);
      case DSetMode => a := DesSetMode;
      case DSignal => a := DesSignal;
      case DUnlock => a := DesUnlock;
      case _ => a := DesAcquire;
    }
  }

  lemma ContCanStep(c: Config, s: State) returns (a: Action)
    requires TopologyOk(c.topo) && Inv(s) && Known(c, s)
    requires !s.des.DDone? && !s.cont.CWait?
    requires s.cont.CLock? || s.cont.CWoken? || s.cont.CRelock? ==> s.mutex.Free?
    ensures Enabled(c, s, a) && !a.Arrive? && !a.DesWake? && !a.ContWake?
  {
    match s.cont {
      case CIdle => a := Tick;
      case CTest => a := ContTest;
      case CRead => a := ContRead;
      case CAdvance(_) => a := ContAdvance(0);
      case CLoop(cur) =>
        if cur.time <= s.clock && !cur.kind.End? {
          var r := SomeReply(c.topo, s.data, cur);
          ProcessedKeeps(c, s, cur, r);
          a := ContProcess(r);
        } else {
          a := ContStop;
        }
      case CCheck => a := ContCheck;
      case CSetMode => a := ContSetMode;
      case CSignal => a := ContSignal;
      case CUnlock => a := ContUnlock;
      case _ => a := ContAcquire;
    }
  }

  /** Until the end event, some thread can always take a step of its own: no wake-up is lost, so the
      threads never wait for each other, even without a spurious wake-up or another message. */
  lemma NoDeadlock(c: Config, s: State, acts: seq<Action>)
    requires Start(c, s) && IsRun(c, s, acts)
    requires !Run(c, s, acts).des.DDone?
    ensures exists a :: Enabled(c, Run(c, s, acts), a) && !a.Arrive? && !a.DesWake? && !a.ContWake?
  {
    InitOk(s);
    RunKeepsInv(c, s, acts);
    var t := Run(c, s, acts);
    var a;
    if t.mutex.HeldByDes? {
      a := DesCanStep(c, t);
    } else if t.mutex.HeldByCont? {
      a := ContCanStep(c, t);
    } else if !t.des.DWait? {
      a := DesCanStep(c, t);
    } else {
      a := ContCanStep(c, t);
    }
  }

  // ----- Arrivals that break the order -----

  /** Something pending is overdue: it is older than the last executed event, or than the clock while
      no thread holds an event it has picked. */
  ghost predicate Late(s: State) {
    || (exists e :: e in s.data.queue && e.time < Low(s))
    || (!s.des.DClock? && !s.cont.CAdvance? && !s.cont.CLoop? && !Punctual(s))
  }

  /** Nothing is overdue in `s` or anywhere after it. */
  ghost predicate StaysOnTime(c: Config, s: State)
    requires TopologyOk(c.topo)
  {
    forall acts :: IsRun(c, s, acts) ==> !Late(Run(c, s, acts))
  }

  lemma InvNotLate(s: State)
    requires Inv(s)
    ensures !Late(s)
  {
  }

  /** A message that arrives while the event thread holds a later event it has picked is overdue as
      soon as the clock moves to that event. */
  lemma LateInDes(c: Config, s: State, kind: Kind) returns (acts: seq<Action>)
    requires TopologyOk(c.topo) && Inv(s) && Enabled(c, s, Arrive(kind))
    requires s.des.DClock? && s.clock < s.des.ev.time
    ensures IsRun(c, Apply(c, s, Arrive(kind)), acts)
    ensures Late(Run(c, Apply(c, s, Arrive(kind)), acts))
  {
    var e := Event(s.clock, kind);
    var s1 := Apply(c, s, Arrive(kind));
    acts := [DesClock];
    OneStep(c, s1, DesClock);
    InsertMembers(s.data.queue, e);
    InsertHead(s.data.queue, e);
    var s2 := Apply(c, s1, DesClock);
    assert s2.data.queue[0] == e && e in s2.data.queue && e.time < s2.clock;
    assert !s2.cont.CAdvance? && !s2.cont.CLoop?;
  }

  lemma OneStep(c: Config, s: State, a: Action)
    requires TopologyOk(c.topo) && !a.Arrive? && Enabled(c, s, a)
    ensures IsRun(c, s, [a]) && Run(c, s, [a]) == Apply(c, s, a)
  {
    assert [a][1..] == [] && IsRun(c, Apply(c, s, a), []);
  }

  lemma TwoSteps(c: Config, s: State, a: Action, b: Action)
    requires TopologyOk(c.topo) && !a.Arrive? && !b.Arrive?
    requires Enabled(c, s, a) && Enabled(c, Apply(c, s, a), b)
    ensures IsRun(c, s, [a, b]) && Run(c, s, [a, b]) == Apply(c, Apply(c, s, a), b)
  {
    OneStep(c, Apply(c, s, a), b);
    assert [a, b][1..] == [b];
  }

  /** The same for the timer thread, once the clock has passed the event it retrieved. */
  lemma LateInLoop(c: Config, s: State, kind: Kind) returns (acts: seq<Action>)
    requires TopologyOk(c.topo) && Inv(s) && Known(c, s) && Enabled(c, s, Arrive(kind))
    requires s.cont.CAdvance? && s.clock < s.cont.cur.time && !s.cont.cur.kind.End?
    ensures IsRun(c, Apply(c, s, Arrive(kind)), acts)
    ensures Late(Run(c, Apply(c, s, Arrive(kind)), acts))
  {
    var e, cur := Event(s.clock, kind), s.cont.cur;
    var s1 := Apply(c, s, Arrive(kind));
    InsertMembers(s.data.queue, e);
    ArriveData(s.data, s.clock, kind);
    var s2 := Apply(c, s1, ContAdvance(cur.time - s.clock));
    var r := SomeReply(c.topo, s1.data, cur);
    MessageStays(c, s2, cur, r, e);
    acts := [ContAdvance(cur.time - s.clock), ContProcess(r)];
    TwoSteps(c, s1, ContAdvance(cur.time - s.clock), ContProcess(r));
    var s3 := Apply(c, s2, ContProcess(r));
    assert Low(s3) == cur.time && e in s3.data.queue && e.time < Low(s3);
  }

  lemma MessageStays(c: Config, s: State, cur: Event, r: Reply, e: Event)
    requires TopologyOk(c.topo) && DataOk(s.data) && ReplyOk(c.topo, s.data, cur, r)
    requires cur in s.data.queue && e in s.data.queue && e != cur
    ensures e in Processed(c, s, cur, r).queue
  {
    assert PendingOk(s.data, cur);
    HandleKeeps(c.topo, s.data, cur, r);
    RemoveMembers(Handle(c.topo, s.data, cur, r).queue, cur);
  }

  /** A message in front of a retrieved end event stays behind once the clock has passed the end. */
  lemma LateAtEnd(c: Config, s: State, kind: Kind) returns (acts: seq<Action>)
    requires TopologyOk(c.topo) && Inv(s) && Enabled(c, s, Arrive(kind))
    requires s.cont.CAdvance? && s.clock <= s.cont.cur.time && s.cont.cur.kind.End?
    ensures IsRun(c, Apply(c, s, Arrive(kind)), acts)
    ensures Late(Run(c, Apply(c, s, Arrive(kind)), acts))
  {
    var e, cur := Event(s.clock, kind), s.cont.cur;
    var s1 := Apply(c, s, Arrive(kind));
    InsertMembers(s.data.queue, e);
    InsertHead(s.data.queue, e);
    acts := [ContAdvance(cur.time - s.clock + 1), ContStop];
    TwoSteps(c, s1, ContAdvance(cur.time - s.clock + 1), ContStop);
    var s3 := Run(c, s1, acts);
    assert s3.data.queue[0] == e && e in s3.data.queue && e.time < s3.clock;
  }

  /** Exactly the safe arrivals leave the order intact: if the arrival is safe, nothing is ever
      overdue afterwards; if it is not, some continuation leaves the message overdue. */
  lemma ArrivalSafeIff(c: Config, s: State, acts: seq<Action>, kind: Kind)
    requires Start(c, s) && IsRun(c, s, acts) && Enabled(c, Run(c, s, acts), Arrive(kind))
    ensures var s1 := Apply(c, Run(c, s, acts), Arrive(kind));
            ArrivalSafe(Run(c, s, acts)) <==> StaysOnTime(c, s1)
  {
    InitOk(s);
    RunKeepsInv(c, s, acts);
    var t := Run(c, s, acts);
    var s1 := Apply(c, t, Arrive(kind));
    if ArrivalSafe(t) {
      StepKeepsInv(c, t, Arrive(kind));
      KnownStep(c, t, Arrive(kind));
      forall more | IsRun(c, s1, more)
        ensures !Late(Run(c, s1, more))
      {
        RunKeepsInv(c, s1, more);
        InvNotLate(Run(c, s1, more));
      }
    } else {
      var more;
      if t.des.DClock? && t.clock < t.des.ev.time {
        more := LateInDes(c, t, kind);
      } else if t.cont.cur.kind.End? {
        more := LateAtEnd(c, t, kind);
      } else {
        more := LateInLoop(c, t, kind);
      }
      assert !StaysOnTime(c, s1) by {
        assert IsRun(c, s1, more) && Late(Run(c, s1, more));
      }
    }
  }

  // ----- Both windows are reached -----

  /** A simulator without nodes: an application starts at 5, the end is at 10. */
  ghost function Small(): State {
    State(DLock, CIdle, Free, FTI, 0, 0, 0, 0,
          Data([Event(5, AppStart(0, 0)), Event(10, End)], map[], 0, map[]), [])
  }

  ghost function Empty(): Config {
    Config(Topology(map[], map[]), 0)
  }

  lemma SmallStarts()
    ensures Start(Empty(), Small())
  {
    assert Event(10, End) in Small().data.queue;
  }

  lemma {:induction false} RunConcat(c: Config, s: State, a: seq<Action>, b: seq<Action>)
    requires TopologyOk(c.topo) && IsRun(c, s, a) && IsRun(c, Run(c, s, a), b)
    ensures IsRun(c, s, a + b) && Run(c, s, a + b) == Run(c, Run(c, s, a), b)
    decreases |a|
  {
    if a == [] {
      assert a + b == b;
    } else {
      assert (a + b)[1..] == a[1..] + b;
      RunConcat(c, Apply(c, s, a[0]), a[1..], b);
    }
  }

  ghost predicate Reaches(acts: seq<Action>, s: State) {
    TopologyOk(Empty().topo) && IsRun(Empty(), Small(), acts) && Run(Empty(), Small(), acts) == s
  }

  lemma Extend(acts: seq<Action>, s: State, a: Action, s': State) returns (more: seq<Action>)
    requires Reaches(acts, s) && Enabled(Empty(), s, a) && !a.Arrive? && Apply(Empty(), s, a) == s'
    ensures Reaches(more, s')
  {
    OneStep(Empty(), s, a);
    RunConcat(Empty(), Small(), acts, [a]);
    more := acts + [a];
  }

  /** The timer thread has read the event at 5 and not moved the clock. */
  lemma ReadWindow() returns (acts: seq<Action>)
    ensures Reaches(acts, Small().(cont := CAdvance(Event(5, AppStart(0, 0)))))
  {
    var s := Small();
    acts := Extend([], s, Tick, s.(cont := CLock));
    acts := Extend(acts, s.(cont := CLock), ContAcquire, s.(cont := CTest, mutex := HeldByCont));
    acts := Extend(acts, s.(cont := CTest, mutex := HeldByCont), ContTest, s.(cont := CRead));
    acts := Extend(acts, s.(cont := CRead), ContRead, s.(cont := CAdvance(Event(5, AppStart(0, 0)))));
  }

  /** From there it moves the clock to 1 and finds that nothing has happened for long enough. */
  lemma TimerDone() returns (acts: seq<Action>)
    ensures Reaches(acts, Small().(clock := 1, cont := CRelock))
  {
    var ev, s := Event(5, AppStart(0, 0)), Small().(clock := 1);
    acts := ReadWindow();
    acts := Extend(acts, Small().(cont := CAdvance(ev)), ContAdvance(1), s.(cont := CLoop(ev)));
    acts := Extend(acts, s.(cont := CLoop(ev)), ContStop, s.(cont := CCheck));
    acts := Extend(acts, s.(cont := CCheck), ContCheck, s.(cont := CRelock));
  }

  /** It hands over to the event thread. */
  lemma HandedOver() returns (acts: seq<Action>)
    ensures Reaches(acts, Small().(clock := 1, mode := DES))
  {
    var s := Small().(clock := 1);
    var t := s.(mutex := HeldByCont, mode := DES);
    acts := TimerDone();
    acts := Extend(acts, s.(cont := CRelock), ContAcquire, s.(mutex := HeldByCont, cont := CSetMode));
    acts := Extend(acts, s.(mutex := HeldByCont, cont := CSetMode), ContSetMode, t.(cont := CSignal));
    acts := Extend(acts, t.(cont := CSignal), ContSignal, t.(cont := CUnlock));
    acts := Extend(acts, t.(cont := CUnlock), ContUnlock, s.(mode := DES));
  }

  /** The event thread has picked the event at 5 and not moved the clock. */
  lemma PickWindow() returns (acts: seq<Action>)
    ensures Reaches(acts, Small().(clock := 1, mode := DES, des := DClock(Event(5, AppStart(0, 0))),
                                   data := Small().data.(queue := [Event(10, End)])))
  {
    var ev, s := Event(5, AppStart(0, 0)), Small().(clock := 1, mode := DES);
    assert s.data.queue[1..] == [Event(10, End)];
    acts := HandedOver();
    acts := Extend(acts, s, DesAcquire, s.(mutex := HeldByDes, des := DTest));
    acts := Extend(acts, s.(mutex := HeldByDes, des := DTest), DesTest, s.(des := DPick));
    acts := Extend(acts, s.(des := DPick), DesPick,
                   s.(des := DClock(ev), data := s.data.(queue := [Event(10, End)])));
  }

  /** A message can arrive and be overdue in some continuation. */
  ghost predicate Breaks(c: Config, s: State)
    requires TopologyOk(c.topo)
  {
    Enabled(c, s, Arrive(RouterIn)) && !StaysOnTime(c, Apply(c, s, Arrive(RouterIn)))
  }

  /** In the windows of both threads a message can arrive that will be overdue. */
  lemma UnsafeArrivals() returns (timer: seq<Action>, picked: seq<Action>)
    ensures Start(Empty(), Small()) && IsRun(Empty(), Small(), timer) && IsRun(Empty(), Small(), picked)
    ensures Run(Empty(), Small(), timer).cont.CAdvance? && Breaks(Empty(), Run(Empty(), Small(), timer))
    ensures Run(Empty(), Small(), picked).des.DClock? && Breaks(Empty(), Run(Empty(), Small(), picked))
  {
    SmallStarts();
    timer := ReadWindow();
    ArrivalSafeIff(Empty(), Small(), timer, RouterIn);
    picked := PickWindow();
    ArrivalSafeIff(Empty(), Small(), picked, RouterIn);
  }
}
