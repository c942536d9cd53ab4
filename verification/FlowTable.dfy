/** The flow table of a datapath (src/net/flow_table.c): one hash table per mask, searched in turn,
    with entries that are dropped only when an operation comes across them expired. */
module FlowTable {
  import opened Options
  import opened FlowKey

  /** An action; the kind fixes its place in an action set. */
  datatype Action = Action(kind: nat, arg: nat)

  /** The instructions of an entry; a metadata value and its mask are sets of one-bits. */
  datatype Instructions = Instructions(
    apply: Option<seq<Action>>, clear: bool, write: Option<map<nat, Action>>,
    metadata: Option<set<nat>>, metadataMask: set<nat>, goto: Option<nat>)

  datatype Entry = Entry(
    key: Key, mask: Key, priority: nat, cookie: nat, pktCnt: nat, byteCnt: nat,
    hardTimeout: nat, idleTimeout: nat, removeAt: nat, lastUsed: nat, insts: Instructions)

  predicate Expired(e: Entry, time: nat) {
    || (e.hardTimeout != 0 && e.removeAt < time)
    || (e.idleTimeout != 0 && e.lastUsed + e.idleTimeout * 1000000 < time)
  }

  /** What a flow-mod names is stored with its clock started. */
  function Stamped(e: Entry, time: nat): Entry {
    e.(removeAt := e.hardTimeout * 1000000 + time, lastUsed := time)
  }

  /** The entry once it has matched more packets. */
  function Counted(e: Entry, packets: nat, bytes: nat): Entry {
    e.(pktCnt := e.pktCnt + packets, byteCnt := e.byteCnt + bytes)
  }

  // ----- The plain list of entries: what the operations mean -----

  datatype Op =
    | Lookup(packet: Key)
    | Add(entry: Entry)
    | ModifyStrict(entry: Entry)
    | Modify(entry: Entry)
    | DeleteStrict(entry: Entry)
    | Delete(entry: Entry)
    | Stats(key: Key, mask: Key)
    | Count(entry: Entry, packets: nat, bytes: nat)

  /** A lookup answers an entry or none, a statistics request a set of entries. */
  datatype Answer = Done | Found(result: Option<Entry>) | Listed(entries: set<Entry>)

  ghost predicate SameMatch(e: Entry, f: Entry) {
    e.mask == f.mask && e.key == f.key && e.priority == f.priority
  }

  ghost predicate Covers(f: Entry, e: Entry) {
    Subsumes(f.key, f.mask, e.key, e.mask)
  }

  ghost function Live(es: set<Entry>, time: nat): set<Entry> {
    set e | e in es && !Expired(e, time)
  }

  /** `e` is a live match of maximal priority. */
  ghost predicate Best(es: set<Entry>, p: Key, time: nat, e: Entry) {
    && e in es && !Expired(e, time) && Matches(p, e.key, e.mask)
    && (forall x :: x in es && !Expired(x, time) && Matches(p, x.key, x.mask) ==> x.priority <= e.priority)
  }

  /** What an operation may answer on the entries `es`. */
  ghost predicate Answers(es: set<Entry>, op: Op, time: nat, a: Answer) {
    match op
    case Lookup(p) =>
      a.Found? && (match a.result
                   case None => forall x :: x in es && !Expired(x, time) ==> !Matches(p, x.key, x.mask)
                   case Some(e) => Best(es, p, time, e))
    case Stats(key, mask) =>
      a == Listed(set e | e in es && !Expired(e, time) && Subsumes(key, mask, e.key, e.mask))
    case Count(e, _, _) => a == Done && e in es && !Expired(e, time)
    case _ => a == Done
  }

  /** A modification replaces the instructions of the live entries it applies to. */
  ghost function Modified(es: set<Entry>, time: nat, insts: Instructions, applies: Entry -> bool): set<Entry> {
    set e | e in es :: if applies(e) && !Expired(e, time) then e.(insts := insts) else e
  }

  /** What an operation makes of the entries `es`. */
  ghost function Effect(es: set<Entry>, op: Op, time: nat, a: Answer): set<Entry> {
    match op
    case Lookup(_) =>
      if a.Found? && a.result.Some? then es - {a.result.value} + {a.result.value.(lastUsed := time)} else es
    case Add(f) => es + {Stamped(f, time)}
    case ModifyStrict(f) => Modified(es, time, f.insts, (e: Entry) => SameMatch(e, f))
    case Modify(f) => Modified(es, time, f.insts, (e: Entry) => Covers(f, e))
    case DeleteStrict(f) => set e | e in es && !SameMatch(e, f)
    case Delete(f) => set e | e in es && !Covers(f, e)
    case Stats(_, _) => es
    case Count(e, packets, bytes) => es - {e} + {Counted(e, packets, bytes)}
  }

  /** What callers of the table owe it: a stored key is canonical and no stored entry has the same mask
      and key as one that is added. */
  ghost predicate Allowed(es: set<Entry>, op: Op) {
    op.Add? ==>
      && ApplyMask(op.entry.key, op.entry.mask) == op.entry.key
      && (forall e :: e in es ==> e.mask != op.entry.mask || e.key != op.entry.key)
  }

  // ----- Lazy expiry against dropping everything expired first -----

  /** The entries left once some expired ones have been dropped. */
  ghost predicate Forgets(es: set<Entry>, es0: set<Entry>, time: nat) {
    es0 <= es && (forall e :: e in es && e !in es0 ==> Expired(e, time))
  }

  /** A step of the table: it drops whichever expired entries it comes across, then acts. */
  ghost predicate LazyStep(es: set<Entry>, op: Op, time: nat, a: Answer, es': set<Entry>) {
    && Allowed(es, op)
    && exists es0 :: Forgets(es, es0, time) && Answers(es0, op, time, a) && es' == Effect(es0, op, time, a)
  }

  lemma LiveForgets(es: set<Entry>, es0: set<Entry>, time: nat)
    requires Forgets(es, es0, time)
    ensures Live(es0, time) == Live(es, time)
  {
  }

  /** What is live later was live before. */
  lemma LiveLater(es: set<Entry>, ls: set<Entry>, time: nat, later: nat)
    requires Live(es, time) == Live(ls, time) && time <= later
    ensures Live(es, later) == Live(ls, later)
  {
    forall e
      ensures e in Live(es, later) <==> e in Live(ls, later)
    {
      assert e in Live(es, later) ==> e in Live(es, time);
      assert e in Live(ls, later) ==> e in Live(ls, time);
    }
  }

  lemma AnswersLive(es: set<Entry>, op: Op, time: nat, a: Answer)
    requires Answers(es, op, time, a)
    ensures Answers(Live(es, time), op, time, a)
  {
    var ls := Live(es, time);
    match op {
      case Lookup(p) =>
        if a.result.Some? {
          assert Best(ls, p, time, a.result.value);
        }
      case Stats(key, mask) =>
        assert (set e | e in es && !Expired(e, time) && Subsumes(key, mask, e.key, e.mask))
            == (set e | e in ls && !Expired(e, time) && Subsumes(key, mask, e.key, e.mask));
      case _ =>
    }
  }

  lemma ModifiedLive(es: set<Entry>, time: nat, insts: Instructions, applies: Entry -> bool)
    ensures Live(Modified(es, time, insts, applies), time) == Modified(Live(es, time), time, insts, applies)
  {
    var l, r := Live(Modified(es, time, insts, applies), time), Modified(Live(es, time), time, insts, applies);
    forall x | x in l
      ensures x in r
    {
      var e :| e in es && x == if applies(e) && !Expired(e, time) then e.(insts := insts) else e;
      assert e in Live(es, time);
    }
    forall x | x in r
      ensures x in l
    {
      var e :| e in Live(es, time) && x == if applies(e) && !Expired(e, time) then e.(insts := insts) else e;
      assert x in Modified(es, time, insts, applies);
    }
  }

  /** The live entries after an operation depend only on the live entries before it. */
  lemma EffectLive(es: set<Entry>, op: Op, time: nat, a: Answer)
    requires Answers(es, op, time, a)
    ensures Live(Effect(es, op, time, a), time) == Effect(Live(es, time), op, time, a)
  {
    match op {
      case ModifyStrict(f) => ModifiedLive(es, time, f.insts, (e: Entry) => SameMatch(e, f));
      case Modify(f) => ModifiedLive(es, time, f.insts, (e: Entry) => Covers(f, e));
      case _ =>
    }
  }

  /** One operation of the table, with the time it runs at and the answer it gave. */
  datatype Record = Record(op: Op, time: nat, answer: Answer)

  /** The operations took the table from the entries `es`, at time `now` or later, to `es'`, with time
      never going back. */
  ghost predicate TableRun(es: set<Entry>, now: nat, rs: seq<Record>, es': set<Entry>)
    decreases |rs|
  {
    if rs == [] then es == es'
    else now <= rs[0].time && exists mid ::
        LazyStep(es, rs[0].op, rs[0].time, rs[0].answer, mid) && TableRun(mid, rs[0].time, rs[1..], es')
  }

  /** The same operations on a plain list that drops every expired entry before each of them. */
  ghost function ListRun(ls: set<Entry>, rs: seq<Record>): set<Entry>
    decreases |rs|
  {
    if rs == [] then ls
    else ListRun(Effect(Live(ls, rs[0].time), rs[0].op, rs[0].time, rs[0].answer), rs[1..])
  }

  /** Every answer of the record is one the plain list gives. */
  ghost predicate ListAnswers(ls: set<Entry>, rs: seq<Record>)
    decreases |rs|
  {
    rs != [] ==>
      var l := Live(ls, rs[0].time);
      && Answers(l, rs[0].op, rs[0].time, rs[0].answer)
      && ListAnswers(Effect(l, rs[0].op, rs[0].time, rs[0].answer), rs[1..])
  }

  lemma {:induction false} RunSimulates(es: set<Entry>, ls: set<Entry>, now: nat, rs: seq<Record>, es': set<Entry>)
    requires TableRun(es, now, rs, es')
    requires Live(es, now) == Live(ls, now)
    ensures ListAnswers(ls, rs)
    ensures var last := if rs == [] then now else rs[|rs| - 1].time;
            Live(es', last) == Live(ListRun(ls, rs), last)
    decreases |rs|
  {
    if rs != [] {
      var r := rs[0];
      var mid :| LazyStep(es, r.op, r.time, r.answer, mid) && TableRun(mid, r.time, rs[1..], es');
      var es0 :| && Forgets(es, es0, r.time) && Answers(es0, r.op, r.time, r.answer)
                 && mid == Effect(es0, r.op, r.time, r.answer);
      LiveLater(es, ls, now, r.time);
      LiveForgets(es, es0, r.time);
      AnswersLive(es0, r.op, r.time, r.answer);
      EffectLive(es0, r.op, r.time, r.answer);
      var ls' := Effect(Live(ls, r.time), r.op, r.time, r.answer);
      assert Live(mid, r.time) == ls';
      assert Live(ls', r.time) == ls';
      RunSimulates(mid, ls', r.time, rs[1..], es');
    }
  }

  /** Runs can be joined where the second starts no earlier than the first ends. */
  lemma {:induction false} TableRunConcat(es: set<Entry>, now: nat, rs: seq<Record>, mid: set<Entry>, later: nat,
                                          more: seq<Record>, es': set<Entry>)
    requires TableRun(es, now, rs, mid) && TableRun(mid, later, more, es')
    requires now <= later && forall r :: r in rs ==> r.time <= later
    ensures TableRun(es, now, rs + more, es')
    decreases |rs|
  {
    if rs == [] {
      assert rs + more == more;
    } else {
      var next :| LazyStep(es, rs[0].op, rs[0].time, rs[0].answer, next) && TableRun(next, rs[0].time, rs[1..], mid);
      assert rs[0] in rs;
      TableRunConcat(next, rs[0].time, rs[1..], mid, later, more, es');
      assert (rs + more)[1..] == rs[1..] + more;
    }
  }

  /** For every sequence of operations in non-decreasing time on an empty table, each answer is one the
      plain list gives at that point, and the live entries are those of the list. */
  lemma LazyExpiryIsExact(rs: seq<Record>, es: set<Entry>)
    requires TableRun({}, 0, rs, es)
    ensures ListAnswers({}, rs)
    ensures rs != [] ==> var last := rs[|rs| - 1].time; Live(es, last) == Live(ListRun({}, rs), last)
  {
    RunSimulates({}, {}, 0, rs, es);
  }
}
