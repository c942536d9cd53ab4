/** The multi-table pipeline of a datapath and its action set (src/net/datapath.c,
    src/lib/action_set.c). */
module Pipeline {
  import opened Options
  import opened FlowKey
  import opened FlowTable
  import opened FlowTableObject

  const MAX_TABLES: nat := 128
  const ACT_OUTPUT: nat := 13

  // ----- Action sets -----

  /** At most one action of each kind, filed under its kind. */
  predicate ActionSetOk(acts: map<nat, Action>) {
    forall k :: k in acts ==> acts[k].kind == k
  }

  /** The actions of the set in the order they are executed, from kind `from` on. */
  function Ordered(acts: map<nat, Action>, from: nat): seq<Action>
    decreases ACT_OUTPUT + 1 - from
  {
    if ACT_OUTPUT < from then []
    else (if from in acts then [acts[from]] else []) + Ordered(acts, from + 1)
  }

  /** They come in strictly ascending kind, and each action of the set comes exactly once. */
  lemma {:induction false} OrderedAscends(acts: map<nat, Action>, from: nat)
    requires ActionSetOk(acts)
    ensures var o := Ordered(acts, from);
            && (forall i, j :: 0 <= i < j < |o| ==> o[i].kind < o[j].kind)
            && (forall a :: a in o <==> from <= a.kind <= ACT_OUTPUT && a.kind in acts && acts[a.kind] == a)
    decreases ACT_OUTPUT + 1 - from
  {
    if from <= ACT_OUTPUT {
      OrderedAscends(acts, from + 1);
    }
  }

  // ----- Instructions -----

  datatype Netflow = Netflow(
    headers: Key, inPort: nat, startTime: nat, pktCnt: nat, byteCnt: nat,
    cookie: nat, tableId: nat, outPorts: seq<nat>)

  function SetMetadata(k: Key, value: set<nat>): Key {
    (set b | b in k && b.0 != Metadata) + (set i | i in value && i < 64 :: (Metadata, i))
  }

  /** The metadata of a packet, as the set of its one-bits. */
  function MetadataOf(k: Key): set<nat> {
    set b | b in k && b.0 == Metadata :: b.1
  }

  /** Writing metadata replaces the whole value. That is the masked write of the OpenFlow switch
      specification 1.3.1, section 5.9, exactly when the value agrees with the old metadata outside
      the mask. */
  lemma WriteMetadataIff(k: Key, value: set<nat>, mask: set<nat>)
    requires forall i :: i in value ==> i < 64
    ensures MetadataOf(SetMetadata(k, value)) == value
    ensures value == (MetadataOf(k) - mask) + (value * mask) <==> value - mask == MetadataOf(k) - mask
  {
    forall i
      ensures i in MetadataOf(SetMetadata(k, value)) <==> i in value
    {
      if i in value {
        var b: Bit := (Metadata, i);
        assert b in (set j | j in value && j < 64 :: (Metadata, j));
        assert b in SetMetadata(k, value);
      }
    }
    var old' := MetadataOf(k);
    if value - mask == old' - mask {
      assert value == (value - mask) + (value * mask);
    }
    if value == (old' - mask) + (value * mask) {
      assert value - mask == old' - mask;
    }
  }

  /** Writing nothing under an empty mask should leave the metadata 1 alone, and clears it. */
  lemma WriteMetadataDiffers()
    ensures var k: Key := {(Metadata, 0)};
            MetadataOf(SetMetadata(k, {})) == {} && (MetadataOf(k) - {}) + ({} * {}) == {0}
  {
    var k: Key := {(Metadata, 0)};
    var b: Bit := (Metadata, 0);
    assert b in k && b.1 in MetadataOf(k);
    WriteMetadataIff(k, {}, {});
  }

  /** Actions other than output rewrite the headers in a way this model leaves open. */
  function Execute(rewrite: (Action, Key) -> Key, a: Action, nf: Netflow): Netflow {
    if a.kind == ACT_OUTPUT then nf.(outPorts := nf.outPorts + [a.arg])
    else nf.(headers := rewrite(a, nf.headers))
  }

  function ExecuteAll(rewrite: (Action, Key) -> Key, acts: seq<Action>, nf: Netflow): Netflow
    decreases |acts|
  {
    if acts == [] then nf
    else Execute(rewrite, acts[|acts| - 1], ExecuteAll(rewrite, acts[..|acts| - 1], nf))
  }

  /** The action set after the instructions of an entry. */
  function ActionsAfter(insts: Instructions, acts: map<nat, Action>): map<nat, Action> {
    var cleared := if insts.clear then map[] else acts;
    if insts.write.Some? then cleared + insts.write.value else cleared
  }

  /** The flow after the entry `e` of a table matched it: cookie, applied actions, metadata. */
  function FlowAfter(rewrite: (Action, Key) -> Key, e: Entry, nf: Netflow): Netflow {
    var nf1 := nf.(cookie := e.cookie);
    var nf2 := if e.insts.apply.Some? then ExecuteAll(rewrite, e.insts.apply.value, nf1) else nf1;
    if e.insts.metadata.Some? then nf2.(headers := SetMetadata(nf2.headers, e.insts.metadata.value)) else nf2
  }

  /** The table named by the entry, 0 without a goto. */
  function Next(e: Entry): nat {
    if e.insts.goto.Some? then e.insts.goto.value else 0
  }

  // ----- A pass through the tables, as the entries it matched -----

  /** The action set after the entries `es` matched in turn. */
  function ActionsOf(es: seq<Entry>): map<nat, Action> {
    if es == [] then map[] else ActionsAfter(es[|es| - 1].insts, ActionsOf(es[..|es| - 1]))
  }

  function FlowOf(rewrite: (Action, Key) -> Key, es: seq<Entry>, nf: Netflow): Netflow {
    if es == [] then nf else FlowAfter(rewrite, es[|es| - 1], FlowOf(rewrite, es[..|es| - 1], nf))
  }

  /** The entry writes the action `a` under the kind `k`. */
  predicate Writes(e: Entry, k: nat, a: Action) {
    e.insts.write.Some? && k in e.insts.write.value && e.insts.write.value[k] == a
  }

  /** The entry neither clears the set nor writes the kind `k`. */
  predicate Leaves(e: Entry, k: nat) {
    !e.insts.clear && (e.insts.write.Some? ==> k !in e.insts.write.value)
  }

  /** Entry `i` writes `a` under `k`, and no later one writes that kind or clears the set. */
  ghost predicate LastAt(es: seq<Entry>, i: nat, k: nat, a: Action)
    requires i < |es|
  {
    Writes(es[i], k, a) && forall j :: i < j < |es| ==> Leaves(es[j], k)
  }

  lemma LastAtNext(es: seq<Entry>, i: nat, k: nat, a: Action)
    requires i < |es| - 1
    ensures LastAt(es, i, k, a) <==> LastAt(es[..|es| - 1], i, k, a) && Leaves(es[|es| - 1], k)
  {
    var n := |es| - 1;
    assert forall j :: 0 <= j < n ==> es[..n][j] == es[j];
  }

  /** The action set holds `a` under `k` exactly when some entry wrote it there and no later one wrote that
      kind or cleared the set. */
  lemma {:induction false} ActionSetHoldsLast(es: seq<Entry>, k: nat, a: Action)
    ensures k in ActionsOf(es) && ActionsOf(es)[k] == a <==>
            exists i :: 0 <= i < |es| && LastAt(es, i, k, a)
  {
    if es != [] {
      var n := |es| - 1;
      ActionSetHoldsLast(es[..n], k, a);
      forall i | 0 <= i < n
        ensures LastAt(es, i, k, a) <==> LastAt(es[..n], i, k, a) && Leaves(es[n], k)
      {
        LastAtNext(es, i, k, a);
      }
      assert LastAt(es, n, k, a) <==> Writes(es[n], k, a);
    }
  }

  /** The instructions of an entry as the flow-mod that made it leaves them: the write actions are filed
      under their kinds. */
  predicate FiledByKind(e: Entry) {
    e.insts.write.Some? ==> ActionSetOk(e.insts.write.value)
  }

  lemma {:induction false} ActionsOfOk(es: seq<Entry>)
    requires forall e :: e in es ==> FiledByKind(e)
    ensures ActionSetOk(ActionsOf(es))
  {
    if es != [] {
      assert es[|es| - 1] in es;
      ActionsOfOk(es[..|es| - 1]);
    }
  }

  /** The action was written by some entry, and its kind neither written nor cleared by a later one. */
  ghost predicate InForce(es: seq<Entry>, a: Action) {
    exists i :: 0 <= i < |es| && LastAt(es, i, a.kind, a)
  }

  /** What is executed after the entries `es` matched: the actions in force, in strictly ascending kind. */
  ghost predicate Executes(es: seq<Entry>, acts: seq<Action>) {
    && (forall i, j :: 0 <= i < j < |acts| ==> acts[i].kind < acts[j].kind)
    && (forall a :: a in acts <==> a.kind <= ACT_OUTPUT && InForce(es, a))
  }

  lemma OrderedExecutes(es: seq<Entry>)
    requires forall e :: e in es ==> FiledByKind(e)
    ensures Executes(es, Ordered(ActionsOf(es), 0))
  {
    var acts := ActionsOf(es);
    ActionsOfOk(es);
    OrderedAscends(acts, 0);
    forall a
      ensures InForce(es, a) <==> a.kind in acts && acts[a.kind] == a
    {
      ActionSetHoldsLast(es, a.kind, a);
    }
  }

  /** There is only one such sequence. */
  lemma {:induction false} ExecutesUnique(es: seq<Entry>, x: seq<Action>, y: seq<Action>)
    requires Executes(es, x) && Executes(es, y)
    ensures x == y
  {
    AscendingUnique(x, y);
  }

  lemma {:induction false} AscendingUnique(x: seq<Action>, y: seq<Action>)
    requires forall i, j :: 0 <= i < j < |x| ==> x[i].kind < x[j].kind
    requires forall i, j :: 0 <= i < j < |y| ==> y[i].kind < y[j].kind
    requires forall a :: a in x <==> a in y
    ensures x == y
  {
    assert x == [] || x[0] in y;
    assert y == [] || y[0] in x;
    if x != [] {
      assert x[0] in y && y[0] in x;
      assert x[0] == y[0];
      forall a
        ensures a in x[1..] <==> a in y[1..]
      {
        assert a in x[1..] <==> a in x && a != x[0];
        assert a in y[1..] <==> a in y && a != y[0];
      }
      AscendingUnique(x[1..], y[1..]);
    }
  }

  // ----- Execution, step by step -----

  method ExecuteActionList(rewrite: (Action, Key) -> Key, acts: seq<Action>, nf: Netflow) returns (r: Netflow)
    ensures r == ExecuteAll(rewrite, acts, nf)
  {
    r := nf;
    for i := 0 to |acts|
      invariant r == ExecuteAll(rewrite, acts[..i], nf)
    {
      assert acts[..i + 1][..i] == acts[..i];
      r := Execute(rewrite, acts[i], r);
    }
    assert acts[..|acts|] == acts;
  }

  lemma {:induction false} ExecuteConcat(rewrite: (Action, Key) -> Key, a: seq<Action>, b: seq<Action>, nf: Netflow)
    ensures ExecuteAll(rewrite, a + b, nf) == ExecuteAll(rewrite, b, ExecuteAll(rewrite, a, nf))
    decreases |b|
  {
    if b == [] {
      assert a + b == a;
    } else {
      assert (a + b)[..|a + b| - 1] == a + b[..|b| - 1];
      ExecuteConcat(rewrite, a, b[..|b| - 1], nf);
    }
  }

  /** Try every kind of action in turn, in ascending order. */
  method ExecuteActionSet(rewrite: (Action, Key) -> Key, acts: map<nat, Action>, nf: Netflow) returns (r: Netflow)
    ensures r == ExecuteAll(rewrite, Ordered(acts, 0), nf)
  {
    r := nf;
    for kind := 0 to ACT_OUTPUT + 1
      invariant ExecuteAll(rewrite, Ordered(acts, kind), r) == ExecuteAll(rewrite, Ordered(acts, 0), nf)
    {
      if kind in acts {
        ExecuteConcat(rewrite, [acts[kind]], Ordered(acts, kind + 1), r);
        assert [acts[kind]][..0] == [];
        r := Execute(rewrite, acts[kind], r);
      } else {
        assert [] + Ordered(acts, kind + 1) == Ordered(acts, kind + 1);
      }
    }
  }

  /** Write the actions of one set into another, one by one. */
  method MergeActions(acts: map<nat, Action>, merge: map<nat, Action>) returns (r: map<nat, Action>)
    ensures r == acts + merge
  {
    r := acts;
    var todo := merge.Keys;
    while todo != {}
      invariant todo <= merge.Keys
      invariant forall k :: k in r <==> k in acts || (k in merge && k !in todo)
      invariant forall k :: k in r ==> r[k] == if k in merge && k !in todo then merge[k] else acts[k]
      decreases todo
    {
      var k :| k in todo;
      r := r[k := merge[k]];
      todo := todo - {k};
    }
  }

  method ExecuteInstructions(rewrite: (Action, Key) -> Key, e: Entry, nf: Netflow, acts: map<nat, Action>)
    returns (nf': Netflow, acts': map<nat, Action>, next: nat)
    ensures nf' == FlowAfter(rewrite, e, nf)
    ensures acts' == ActionsAfter(e.insts, acts)
    ensures next == Next(e)
  {
    nf', acts', next := nf.(cookie := e.cookie), acts, 0;
    if e.insts.apply.Some? {
      nf' := ExecuteActionList(rewrite, e.insts.apply.value, nf');
    }
    if e.insts.clear {
      acts' := map[];
    }
    if e.insts.write.Some? {
      acts' := MergeActions(acts', e.insts.write.value);
    }
    if e.insts.metadata.Some? {
      nf' := nf'.(headers := SetMetadata(nf'.headers, e.insts.metadata.value));
    }
    if e.insts.goto.Some? {
      next := e.insts.goto.value;
    }
  }

  // ----- The datapath -----

  datatype PortStats = PortStats(rxPackets: nat, rxBytes: nat)

  /** A match in the pipeline: the table and the entry found in it. */
  datatype Visit = Visit(table: nat, entry: Entry)

  function EntriesOf(vs: seq<Visit>): seq<Entry> {
    seq(|vs|, i requires 0 <= i < |vs| => vs[i].entry)
  }

  /** The tables are visited from table 0 on, each the one the entry before it named, in strictly
      ascending order. */
  ghost predicate Path(vs: seq<Visit>) {
    && (vs != [] ==> vs[0].table == 0)
    && (forall i :: 0 <= i < |vs| ==> vs[i].table < MAX_TABLES)
    && (forall i :: 0 < i < |vs| ==> vs[i].table == Next(vs[i - 1].entry) && vs[i - 1].table < vs[i].table)
  }

  /** A path visits no table twice and at most 128 of them. */
  lemma {:induction false} PathAscends(vs: seq<Visit>)
    requires Path(vs)
    ensures forall i, j :: 0 <= i < j < |vs| ==> vs[i].table < vs[j].table
    ensures forall i :: 0 <= i < |vs| ==> i <= vs[i].table
    ensures |vs| <= MAX_TABLES
  {
    if vs != [] {
      var n := |vs| - 1;
      PathAscends(vs[..n]);
      forall i | 0 <= i < n
        ensures vs[i].table < vs[n].table
      {
        assert vs[..n][i].table <= vs[..n][n - 1].table;
      }
      assert n > 0 ==> n - 1 <= vs[..n][n - 1].table;
    }
  }

  /** How a matched table changes: the search drops expired entries and records the use, and the
      entry's counters grow by exactly the flow's counts. */
  ghost predicate MatchedIn(es: set<Entry>, es': set<Entry>, p: Key, nf: Netflow, e: Entry) {
    exists mid ::
      && LazyStep(es, Lookup(p), nf.startTime, Found(Some(e)), mid)
      && var used := e.(lastUsed := nf.startTime);
         es' == mid - {used} + {Counted(used, nf.pktCnt, nf.byteCnt)}
  }

  /** The headers by which the flow is looked up after the matches `vs`. */
  function HeadersAfter(rewrite: (Action, Key) -> Key, nf: Netflow, vs: seq<Visit>): Key {
    FlowOf(rewrite, EntriesOf(vs), nf).headers
  }

  ghost predicate Visited(vs: seq<Visit>, t: nat) {
    exists i :: 0 <= i < |vs| && vs[i].table == t
  }

  /** The table of the match `i` changes by that match. */
  ghost predicate MatchedAt(rewrite: (Action, Key) -> Key, cs: seq<set<Entry>>, cs': seq<set<Entry>>, nf: Netflow,
                            vs: seq<Visit>, i: nat)
    requires i < |vs| && vs[i].table < |cs| == |cs'|
  {
    MatchedIn(cs[vs[i].table], cs'[vs[i].table], HeadersAfter(rewrite, nf, vs[..i]), nf, vs[i].entry)
  }

  /** What a pass makes of the contents of the tables: each matched table changes by its own match alone,
      the table that missed only drops expired entries, and the others keep what they hold. */
  ghost predicate TablesAfter(rewrite: (Action, Key) -> Key, cs: seq<set<Entry>>, cs': seq<set<Entry>>, nf: Netflow,
                              vs: seq<Visit>, missed: Option<nat>)
  {
    && |cs'| == |cs|
    && AllMatched(rewrite, cs, cs', nf, vs)
    && (missed.Some? ==>
          && missed.value < |cs|
          && LazyStep(cs[missed.value], Lookup(HeadersAfter(rewrite, nf, vs)), nf.startTime, Found(None),
                      cs'[missed.value]))
    && OthersKept(cs, cs', vs, missed)
  }

  ghost predicate AllMatched(rewrite: (Action, Key) -> Key, cs: seq<set<Entry>>, cs': seq<set<Entry>>, nf: Netflow,
                             vs: seq<Visit>)
    requires |cs'| == |cs|
  {
    forall i :: 0 <= i < |vs| ==> vs[i].table < |cs| && MatchedAt(rewrite, cs, cs', nf, vs, i)
  }

  ghost predicate OthersKept(cs: seq<set<Entry>>, cs': seq<set<Entry>>, vs: seq<Visit>, missed: Option<nat>)
    requires |cs'| == |cs|
  {
    forall t :: 0 <= t < |cs| && !Visited(vs, t) && missed != Some(t) ==> cs'[t] == cs[t]
  }

  /** The pass is about to look into table `tid`. */
  ghost predicate Arriving(vs: seq<Visit>, tid: nat) {
    if vs == [] then tid == 0 else tid == Next(vs[|vs| - 1].entry) && vs[|vs| - 1].table < tid
  }

  /** What the pass answers: on a miss nothing; on a match that names no later table, the flow after the
      actions in force are executed in ascending kind, if that leaves a port to send it to. */
  ghost predicate PassResult(rewrite: (Action, Key) -> Key, nf: Netflow, vs: seq<Visit>, missed: Option<nat>,
                             r: Option<Netflow>)
  {
    if missed.Some? then r.None? && Arriving(vs, missed.value)
    else
      && vs != [] && Next(vs[|vs| - 1].entry) <= vs[|vs| - 1].table
      && exists acts ::
           && Executes(EntriesOf(vs), acts)
           && var out := ExecuteAll(rewrite, acts, FlowOf(rewrite, EntriesOf(vs), nf));
              r == if out.outPorts == [] then None else Some(out.(tableId := vs[|vs| - 1].table))
  }

  /** What the controller owes the tables: goto targets exist and write actions are filed by kind. */
  predicate EntryOk(e: Entry) {
    Next(e) < MAX_TABLES && FiledByKind(e)
  }

  ghost predicate EntriesOk(cs: seq<set<Entry>>) {
    forall t, e :: 0 <= t < |cs| && e in cs[t] ==> EntryOk(e)
  }

  /** The flow as it enters the pipeline: metadata and table id start at zero. */
  function Entering(nf: Netflow): Netflow {
    nf.(headers := SetMetadata(nf.headers, {}), tableId := 0)
  }

  function Received(p: PortStats, nf: Netflow): PortStats {
    PortStats(p.rxPackets + nf.pktCnt, p.rxBytes + nf.byteCnt)
  }

  lemma EntriesSnoc(rewrite: (Action, Key) -> Key, vs: seq<Visit>, v: Visit, nf: Netflow)
    ensures FlowOf(rewrite, EntriesOf(vs + [v]), nf) == FlowAfter(rewrite, v.entry, FlowOf(rewrite, EntriesOf(vs), nf))
    ensures ActionsOf(EntriesOf(vs + [v])) == ActionsAfter(v.entry.insts, ActionsOf(EntriesOf(vs)))
  {
    assert EntriesOf(vs + [v]) == EntriesOf(vs) + [v.entry];
    assert EntriesOf(vs + [v])[..|vs|] == EntriesOf(vs);
  }

  ghost predicate OnPath(vs: seq<Visit>) {
    Path(vs) && forall i :: 0 <= i < |vs| ==> FiledByKind(vs[i].entry)
  }

  lemma OnPathSnoc(vs: seq<Visit>, tid: nat, e: Entry)
    requires OnPath(vs) && Arriving(vs, tid) && tid < MAX_TABLES && FiledByKind(e)
    ensures OnPath(vs + [Visit(tid, e)])
  {
  }

  lemma MatchEnds(rewrite: (Action, Key) -> Key, nf: Netflow, vs: seq<Visit>, out: Netflow, r: Option<Netflow>)
    requires OnPath(vs) && vs != [] && Next(vs[|vs| - 1].entry) <= vs[|vs| - 1].table
    requires out == ExecuteAll(rewrite, Ordered(ActionsOf(EntriesOf(vs)), 0), FlowOf(rewrite, EntriesOf(vs), nf))
    requires r == if out.outPorts == [] then None else Some(out.(tableId := vs[|vs| - 1].table))
    ensures PassResult(rewrite, nf, vs, None, r)
  {
    OrderedExecutes(EntriesOf(vs));
  }

  lemma FoundInOld(es: set<Entry>, p: Key, time: nat, e: Entry, es': set<Entry>)
    requires LazyStep(es, Lookup(p), time, Found(Some(e)), es')
    ensures e in es && e.(lastUsed := time) in es' && !Expired(e.(lastUsed := time), time)
  {
  }

  /** A table that is arrived at has not been visited. */
  lemma ArrivesAnew(vs: seq<Visit>, tid: nat)
    requires Path(vs) && Arriving(vs, tid)
    ensures !Visited(vs, tid)
  {
    PathAscends(vs);
  }

  lemma AfterMatch(rewrite: (Action, Key) -> Key, cs0: seq<set<Entry>>, cs: seq<set<Entry>>, es: set<Entry>,
                   nf: Netflow, vs: seq<Visit>, tid: nat, e: Entry)
    requires Path(vs) && Arriving(vs, tid) && tid < |cs| && TablesAfter(rewrite, cs0, cs, nf, vs, None)
    requires MatchedIn(cs[tid], es, HeadersAfter(rewrite, nf, vs), nf, e)
    ensures TablesAfter(rewrite, cs0, cs[tid := es], nf, vs + [Visit(tid, e)], None)
  {
    ArrivesAnew(vs, tid);
    MatchesExtend(rewrite, cs0, cs, es, nf, vs, tid, e);
    OthersExtend(cs0, cs, es, vs, tid, e);
  }

  lemma MatchesExtend(rewrite: (Action, Key) -> Key, cs0: seq<set<Entry>>, cs: seq<set<Entry>>, es: set<Entry>,
                      nf: Netflow, vs: seq<Visit>, tid: nat, e: Entry)
    requires |cs0| == |cs| && tid < |cs| && AllMatched(rewrite, cs0, cs, nf, vs) && !Visited(vs, tid)
    requires cs0[tid] == cs[tid] && MatchedIn(cs[tid], es, HeadersAfter(rewrite, nf, vs), nf, e)
    ensures AllMatched(rewrite, cs0, cs[tid := es], nf, vs + [Visit(tid, e)])
  {
    var vs', cs' := vs + [Visit(tid, e)], cs[tid := es];
    forall i | 0 <= i < |vs'|
      ensures vs'[i].table < |cs0| && MatchedAt(rewrite, cs0, cs', nf, vs', i)
    {
      if i < |vs| {
        MatchStays(rewrite, cs0, cs, es, nf, vs, tid, e, i);
      } else {
        MatchIsNew(rewrite, cs0, cs, es, nf, vs, tid, e);
      }
    }
  }

  lemma OthersExtend(cs0: seq<set<Entry>>, cs: seq<set<Entry>>, es: set<Entry>, vs: seq<Visit>, tid: nat, e: Entry)
    requires |cs0| == |cs| && tid < |cs| && OthersKept(cs0, cs, vs, None)
    ensures OthersKept(cs0, cs[tid := es], vs + [Visit(tid, e)], None)
  {
    forall t | 0 <= t < |cs| && !Visited(vs + [Visit(tid, e)], t)
      ensures cs[tid := es][t] == cs0[t]
    {
      NotVisited(vs, Visit(tid, e), t);
    }
  }

  lemma MatchStays(rewrite: (Action, Key) -> Key, cs0: seq<set<Entry>>, cs: seq<set<Entry>>, es: set<Entry>,
                   nf: Netflow, vs: seq<Visit>, tid: nat, e: Entry, i: nat)
    requires i < |vs| && vs[i].table < |cs0| == |cs| && tid < |cs| && vs[i].table != tid
    requires MatchedAt(rewrite, cs0, cs, nf, vs, i)
    ensures MatchedAt(rewrite, cs0, cs[tid := es], nf, vs + [Visit(tid, e)], i)
  {
    assert (vs + [Visit(tid, e)])[..i] == vs[..i];
  }

  lemma MatchIsNew(rewrite: (Action, Key) -> Key, cs0: seq<set<Entry>>, cs: seq<set<Entry>>, es: set<Entry>,
                   nf: Netflow, vs: seq<Visit>, tid: nat, e: Entry)
    requires |cs0| == |cs| && tid < |cs| && cs0[tid] == cs[tid]
    requires MatchedIn(cs[tid], es, HeadersAfter(rewrite, nf, vs), nf, e)
    ensures MatchedAt(rewrite, cs0, cs[tid := es], nf, vs + [Visit(tid, e)], |vs|)
  {
    assert (vs + [Visit(tid, e)])[..|vs|] == vs;
  }

  lemma NotVisited(vs: seq<Visit>, v: Visit, t: nat)
    requires !Visited(vs + [v], t)
    ensures !Visited(vs, t) && t != v.table
  {
    assert (vs + [v])[|vs|] == v;
    assert forall i :: 0 <= i < |vs| ==> (vs + [v])[i] == vs[i];
  }

  lemma AfterMiss(rewrite: (Action, Key) -> Key, cs0: seq<set<Entry>>, cs: seq<set<Entry>>, es: set<Entry>,
                  nf: Netflow, vs: seq<Visit>, tid: nat)
    requires Path(vs) && Arriving(vs, tid) && tid < |cs| && TablesAfter(rewrite, cs0, cs, nf, vs, None)
    requires LazyStep(cs[tid], Lookup(HeadersAfter(rewrite, nf, vs)), nf.startTime, Found(None), es)
    ensures TablesAfter(rewrite, cs0, cs[tid := es], nf, vs, Some(tid))
  {
    ArrivesAnew(vs, tid);
    MatchesKept(rewrite, cs0, cs, es, nf, vs, tid);
    assert OthersKept(cs0, cs[tid := es], vs, Some(tid));
  }

  lemma MatchesKept(rewrite: (Action, Key) -> Key, cs0: seq<set<Entry>>, cs: seq<set<Entry>>, es: set<Entry>,
                    nf: Netflow, vs: seq<Visit>, tid: nat)
    requires |cs0| == |cs| && tid < |cs| && AllMatched(rewrite, cs0, cs, nf, vs) && !Visited(vs, tid)
    ensures AllMatched(rewrite, cs0, cs[tid := es], nf, vs)
  {
    forall i | 0 <= i < |vs|
      ensures vs[i].table < |cs0| && MatchedAt(rewrite, cs0, cs[tid := es], nf, vs, i)
    {
      MatchElsewhere(rewrite, cs0, cs, es, nf, vs, tid, i);
    }
  }

  lemma MatchElsewhere(rewrite: (Action, Key) -> Key, cs0: seq<set<Entry>>, cs: seq<set<Entry>>, es: set<Entry>,
                       nf: Netflow, vs: seq<Visit>, tid: nat, i: nat)
    requires i < |vs| && vs[i].table < |cs0| == |cs| && tid < |cs| && vs[i].table != tid
    requires MatchedAt(rewrite, cs0, cs, nf, vs, i)
    ensures MatchedAt(rewrite, cs0, cs[tid := es], nf, vs, i)
  {
    assert cs[tid := es][vs[i].table] == cs[vs[i].table];
  }

  lemma MatchedOk(cs: seq<set<Entry>>, es: set<Entry>, tid: nat, p: Key, nf: Netflow, e: Entry)
    requires tid < |cs| && EntriesOk(cs) && MatchedIn(cs[tid], es, p, nf, e) && e in cs[tid]
    ensures EntriesOk(cs[tid := es]) && EntryOk(e)
  {
  }

  lemma MissedOk(cs: seq<set<Entry>>, es: set<Entry>, tid: nat, p: Key, time: nat)
    requires tid < |cs| && EntriesOk(cs) && LazyStep(cs[tid], Lookup(p), time, Found(None), es)
    ensures EntriesOk(cs[tid := es])
  {
  }

  /** The pass so far: the matches, what they made of the tables, the flow and the action set. */
  ghost predicate Underway(rewrite: (Action, Key) -> Key, cs0: seq<set<Entry>>, cs: seq<set<Entry>>, nf: Netflow,
                           vs: seq<Visit>, f: Netflow, acts: map<nat, Action>)
  {
    && EntriesOk(cs) && OnPath(vs) && TablesAfter(rewrite, cs0, cs, nf, vs, None)
    && f == FlowOf(rewrite, EntriesOf(vs), nf) && acts == ActionsOf(EntriesOf(vs))
  }

  lemma UnderwayStart(rewrite: (Action, Key) -> Key, cs: seq<set<Entry>>, nf: Netflow)
    requires EntriesOk(cs)
    ensures Underway(rewrite, cs, cs, nf, [], nf, map[])
  {
  }

  lemma UnderwayNext(rewrite: (Action, Key) -> Key, cs0: seq<set<Entry>>, cs: seq<set<Entry>>, es: set<Entry>,
                     nf: Netflow, vs: seq<Visit>, tid: nat, e: Entry, f: Netflow, acts: map<nat, Action>)
    requires Underway(rewrite, cs0, cs, nf, vs, f, acts) && Arriving(vs, tid) && tid < |cs| == MAX_TABLES
    requires MatchedIn(cs[tid], es, f.headers, nf, e) && EntriesOk(cs[tid := es]) && EntryOk(e)
    ensures Underway(rewrite, cs0, cs[tid := es], nf, vs + [Visit(tid, e)], FlowAfter(rewrite, e, f),
                     ActionsAfter(e.insts, acts))
  {
    AfterMatch(rewrite, cs0, cs, es, nf, vs, tid, e);
    EntriesSnoc(rewrite, vs, Visit(tid, e), nf);
    OnPathSnoc(vs, tid, e);
  }

  // ----- The tables over many passes -----

  /** The operations `rs`, none after `now`, took the table from empty to `es`. */
  ghost predicate Logged(rs: seq<Record>, es: set<Entry>, now: nat) {
    TableRun({}, 0, rs, es) && forall r :: r in rs ==> r.time <= now
  }

  /** So its answers and its live entries are those of the plain list. */
  lemma LoggedIsExact(rs: seq<Record>, es: set<Entry>, now: nat)
    requires Logged(rs, es, now)
    ensures ListAnswers({}, rs) && Live(es, now) == Live(ListRun({}, rs), now)
  {
    RunSimulates({}, {}, 0, rs, es);
    var last := if rs == [] then 0 else rs[|rs| - 1].time;
    LiveLater(es, ListRun({}, rs), last, now);
  }

  lemma LoggedNext(rs: seq<Record>, es: set<Entry>, now: nat, r: Record, es': set<Entry>)
    requires Logged(rs, es, now) && now <= r.time && LazyStep(es, r.op, r.time, r.answer, es')
    ensures Logged(rs + [r], es', r.time)
  {
    assert [r][1..] == [];
    assert TableRun(es', r.time, [r][1..], es');
    TableRunConcat({}, 0, rs, es, now, [r], es');
  }

  /** The operations of a match: the lookup that found the entry, and the count. */
  function MatchLog(p: Key, nf: Netflow, e: Entry): seq<Record> {
    [Record(Lookup(p), nf.startTime, Found(Some(e))),
     Record(Count(e.(lastUsed := nf.startTime), nf.pktCnt, nf.byteCnt), nf.startTime, Done)]
  }

  lemma MatchIsLogged(rs: seq<Record>, es: set<Entry>, es': set<Entry>, p: Key, nf: Netflow, e: Entry, now: nat)
    requires Logged(rs, es, now) && now <= nf.startTime && MatchedIn(es, es', p, nf, e)
    ensures Logged(rs + MatchLog(p, nf, e), es', nf.startTime)
  {
    var time, used, log := nf.startTime, e.(lastUsed := nf.startTime), MatchLog(p, nf, e);
    var mid :| && LazyStep(es, Lookup(p), time, Found(Some(e)), mid)
               && es' == mid - {used} + {Counted(used, nf.pktCnt, nf.byteCnt)};
    FoundInOld(es, p, time, e, mid);
    CountStep(mid, used, nf.pktCnt, nf.byteCnt, time);
    LoggedNext(rs, es, now, log[0], mid);
    LoggedNext(rs + [log[0]], mid, time, log[1], es');
    assert rs + log == rs + [log[0]] + [log[1]];
  }

  /** What a pass asks of table `t`: the lookup and the count of its match, the lookup that missed, or
      nothing. */
  ghost predicate Asked(rewrite: (Action, Key) -> Key, nf: Netflow, vs: seq<Visit>, missed: Option<nat>, t: nat,
                        log: seq<Record>)
  {
    && (forall i :: 0 <= i < |vs| && vs[i].table == t ==>
                      log == MatchLog(HeadersAfter(rewrite, nf, vs[..i]), nf, vs[i].entry))
    && (!Visited(vs, t) ==>
          log == if missed == Some(t) then [Record(Lookup(HeadersAfter(rewrite, nf, vs)), nf.startTime, Found(None))]
                 else [])
  }

  /** A table is visited at most once. */
  lemma AskedOnce(rewrite: (Action, Key) -> Key, nf: Netflow, vs: seq<Visit>, missed: Option<nat>, i: nat)
    requires Path(vs) && i < |vs|
    ensures Asked(rewrite, nf, vs, missed, vs[i].table,
                  MatchLog(HeadersAfter(rewrite, nf, vs[..i]), nf, vs[i].entry))
  {
    PathAscends(vs);
    assert forall j :: 0 <= j < |vs| && vs[j].table == vs[i].table ==> j == i;
  }

  /** A pass appends what it asked to the operations of each table. So over any number of receptions and
      changes of the tables in order of time, every lookup of every pass is answered as the plain list does. */
  lemma PassIsLogged(rewrite: (Action, Key) -> Key, cs: seq<set<Entry>>, cs': seq<set<Entry>>, nf: Netflow,
                     vs: seq<Visit>, missed: Option<nat>, t: nat, rs: seq<Record>, now: nat)
    returns (log: seq<Record>)
    requires TablesAfter(rewrite, cs, cs', nf, vs, missed) && Path(vs) && t < |cs|
    requires Logged(rs, cs[t], now) && now <= nf.startTime
    ensures Asked(rewrite, nf, vs, missed, t, log)
    ensures Logged(rs + log, cs'[t], nf.startTime) && ListAnswers({}, rs + log)
    ensures Live(cs'[t], nf.startTime) == Live(ListRun({}, rs + log), nf.startTime)
  {
    if i :| 0 <= i < |vs| && vs[i].table == t {
      log := MatchLog(HeadersAfter(rewrite, nf, vs[..i]), nf, vs[i].entry);
      AskedOnce(rewrite, nf, vs, missed, i);
      MatchIsLogged(rs, cs[t], cs'[t], HeadersAfter(rewrite, nf, vs[..i]), nf, vs[i].entry, now);
    } else if missed == Some(t) {
      log := [Record(Lookup(HeadersAfter(rewrite, nf, vs)), nf.startTime, Found(None))];
      LoggedNext(rs, cs[t], now, log[0], cs'[t]);
    } else {
      log := [];
      assert rs + log == rs;
    }
    LoggedIsExact(rs + log, cs'[t], nf.startTime);
  }

  class Datapath {
    const tables: seq<Table>
    const rewrite: (Action, Key) -> Key
    var ports: map<nat, PortStats>

    /** A datapath has 128 empty tables and no ports. */
    constructor (rewrite: (Action, Key) -> Key)
      ensures Holds(seq(MAX_TABLES, _ => {})) && EntriesOk(seq(MAX_TABLES, _ => {}))
      ensures ports == map[] && this.rewrite == rewrite && forall t :: t in tables ==> fresh(t)
    {
      var ts: seq<Table> := [];
      while |ts| < MAX_TABLES
        invariant |ts| <= MAX_TABLES && forall i :: 0 <= i < |ts| ==> fresh(ts[i])
        invariant forall i, j :: 0 <= i < j < |ts| ==> ts[i] != ts[j]
        invariant forall i :: 0 <= i < |ts| ==> ts[i].Valid() && ts[i].Contents() == {}
      {
        var t := new Table();
        ts := ts + [t];
      }
      tables, ports, this.rewrite := ts, map[], rewrite;
    }

    method AddPort(id: nat)
      modifies this
      ensures ports == old(ports)[id := PortStats(0, 0)]
    {
      ports := ports[id := PortStats(0, 0)];
    }

    /** The tables are distinct and well formed, and hold the entries `cs`. */
    ghost predicate Holds(cs: seq<set<Entry>>)
      reads tables
    {
      && |tables| == |cs| == MAX_TABLES
      && (forall i, j :: 0 <= i < j < |tables| ==> tables[i] != tables[j])
      && (forall i :: 0 <= i < |tables| ==> tables[i].Valid() && tables[i].Contents() == cs[i])
    }

    /** Look a flow up in one table and count it against the entry found. */
    method LookupTable(tid: nat, p: Key, nf: Netflow, ghost cs: seq<set<Entry>>)
      returns (found: Option<Entry>, ghost es: set<Entry>)
      requires tid < MAX_TABLES && Holds(cs)
      modifies tables[tid]
      ensures Holds(cs[tid := es])
      ensures found.None? ==> LazyStep(cs[tid], Lookup(p), nf.startTime, Found(None), es)
      ensures found.Some? ==> MatchedIn(cs[tid], es, p, nf, found.value) && found.value in cs[tid]
    {
      var t := tables[tid];
      found := t.Find(p, nf.startTime);
      if found.Some? {
        var e := found.value;
        FoundInOld(cs[tid], p, nf.startTime, e, t.Contents());
        t.Count(e.(lastUsed := nf.startTime), nf.pktCnt, nf.byteCnt, nf.startTime);
      }
      es := t.Contents();
    }

    /** One table of the pass: look the flow up and execute the instructions of the entry found. */
    method PassTable(tid: nat, nf: Netflow, f: Netflow, acts: map<nat, Action>,
                     ghost before: seq<set<Entry>>, ghost cs: seq<set<Entry>>, ghost vs: seq<Visit>)
      returns (found: Option<Entry>, f': Netflow, acts': map<nat, Action>, next: nat, ghost cs': seq<set<Entry>>)
      requires tid < MAX_TABLES && Holds(cs) && Arriving(vs, tid)
      requires Underway(rewrite, before, cs, nf, vs, f, acts)
      modifies tables[tid]
      ensures Holds(cs') && EntriesOk(cs')
      ensures found.None? ==> TablesAfter(rewrite, before, cs', nf, vs, Some(tid))
      ensures found.Some? ==>
                && next == Next(found.value) < MAX_TABLES
                && Underway(rewrite, before, cs', nf, vs + [Visit(tid, found.value)], f', acts')
    {
      ghost var es;
      found, es := LookupTable(tid, f.headers, nf, cs);
      cs' := cs[tid := es];
      f', acts', next := f, acts, 0;
      if found.None? {
        MissedOk(cs, es, tid, f.headers, nf.startTime);
        AfterMiss(rewrite, before, cs, es, nf, vs, tid);
      } else {
        var e := found.value;
        MatchedOk(cs, es, tid, f.headers, nf, e);
        f', acts', next := ExecuteInstructions(rewrite, e, f, acts);
        UnderwayNext(rewrite, before, cs, es, nf, vs, tid, e, f, acts);
      }
    }

    /** The end of the pass: the actions in force are executed. */
    method Conclude(tid: nat, nf: Netflow, f: Netflow, acts: map<nat, Action>,
                    ghost before: seq<set<Entry>>, ghost cs: seq<set<Entry>>, ghost vs: seq<Visit>)
      returns (r: Option<Netflow>)
      requires Underway(rewrite, before, cs, nf, vs, f, acts)
      requires vs != [] && Next(vs[|vs| - 1].entry) <= vs[|vs| - 1].table == tid
      ensures PassResult(rewrite, nf, vs, None, r)
    {
      var out := ExecuteActionSet(rewrite, acts, f);
      r := if out.outPorts == [] then None else Some(out.(tableId := tid));
      MatchEnds(rewrite, nf, vs, out, r);
    }

    /** The pass through the tables. */
    method Pass(nf: Netflow, ghost before: seq<set<Entry>>)
      returns (r: Option<Netflow>, ghost after: seq<set<Entry>>, ghost vs: seq<Visit>, ghost missed: Option<nat>)
      requires Holds(before) && EntriesOk(before)
      modifies tables
      ensures Holds(after) && EntriesOk(after) && Path(vs)
      ensures TablesAfter(rewrite, before, after, nf, vs, missed)
      ensures PassResult(rewrite, nf, vs, missed, r)
    {
      after, vs, missed := before, [], None;
      var f, acts, tid := nf, map[], 0;
      UnderwayStart(rewrite, before, nf);
      while true
        invariant Holds(after) && tid < MAX_TABLES && Arriving(vs, tid)
        invariant Underway(rewrite, before, after, nf, vs, f, acts)
        decreases MAX_TABLES - tid
      {
        var found, next;
        found, f, acts, next, after := PassTable(tid, nf, f, acts, before, after, vs);
        if found.None? {
          missed := Some(tid);
          return None, after, vs, missed;
        }
        vs := vs + [Visit(tid, found.value)];
        if next > tid {
          tid := next;
        } else {
          r := Conclude(tid, nf, f, acts, before, after, vs);
          return r, after, vs, missed;
        }
      }
    }

    /** A flow arrives on a port. */
    method Receive(nf: Netflow, ghost before: seq<set<Entry>>)
      returns (r: Option<Netflow>, ghost after: seq<set<Entry>>, ghost vs: seq<Visit>, ghost missed: Option<nat>)
      requires Holds(before) && EntriesOk(before)
      modifies this, tables
      ensures Holds(after) && EntriesOk(after)
      ensures nf.inPort !in old(ports) ==> r.None? && after == before && ports == old(ports)
      ensures nf.inPort in old(ports) ==>
                && ports == old(ports)[nf.inPort := Received(old(ports)[nf.inPort], nf)]
                && Path(vs)
                && TablesAfter(rewrite, before, after, Entering(nf), vs, missed)
                && PassResult(rewrite, Entering(nf), vs, missed, r)
    {
      after, vs, missed := before, [], None;
      if nf.inPort !in ports {
        return None, after, vs, missed;
      }
      r, after, vs, missed := Pass(Entering(nf), before);
      ports := ports[nf.inPort := Received(ports[nf.inPort], nf)];
    }
  }
}
