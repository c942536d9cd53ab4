/** Collecting the entries a statistics request asks for, into a buffer that grows as it fills
    (flow_table_stats in src/net/flow_table.c). */
module FlowStats {
  import opened Options
  import opened Sequences
  import opened FlowKey
  import opened FlowTable
  import opened FlowTableIndex
  import opened FlowTableObject
  import opened ReplyGrowth

  /** The reply under construction. The writer keeps track of how many slots it believes there are. */
  class Buffer {
    var slots: array<Option<Entry>>
    var count: nat

    ghost var contents: seq<Entry>

    ghost predicate Valid()
      reads this, slots
    {
      && count == |contents| <= slots.Length
      && forall i :: 0 <= i < count ==> slots[i] == Some(contents[i])
    }

    ghost function At(believed: nat): Growth
      reads this
    {
      Growth(believed, slots.Length, count)
    }

    /** `n` writes from `g` on, all in bounds, have led here. */
    ghost predicate Follows(believed: nat, g: Growth, n: nat)
      reads this, slots
    {
      Valid() && At(believed) == WrittenBy(g, n) && Fits(g, n)
    }

    constructor ()
      ensures Valid() && contents == [] && fresh(slots) && At(1) == Growth(1, 1, 0)
    {
      slots := new Option<Entry>[1](_ => None);
      count, contents := 0, [];
    }

    /** Writes an entry, if the slot it goes to exists: what happens otherwise is not defined. */
    method Append(e: Entry, believed: nat, ghost g: Growth, ghost n: nat) returns (believed': nat, ok: bool)
      requires Follows(believed, g, n)
      modifies this, slots
      ensures Valid() && (slots == old(slots) || fresh(slots))
      ensures ok <==> Fits(g, n + 1)
      ensures ok ==> Follows(believed', g, n + 1) && contents == old(contents) + [e]
    {
      believed' := believed;
      if believed == count {
        var old' := slots;
        slots := new Option<Entry>[2 * believed](i requires 0 <= i reads this, old' =>
                                                   if i < old'.Length then old'[i] else None);
        believed' := 2 * believed;
      }
      ok := count < slots.Length;
      if ok {
        slots[count] := Some(e);
        count, contents := count + 1, contents + [e];
      }
    }
  }

  /** The entry is a live one of the mini table that the request selects. */
  ghost predicate Wants(m: Mini, key: Key, mask: Key, time: nat, e: Entry) {
    e.key in m.flows && m.flows[e.key] == e && Selected(key, mask, e) && !Expired(e, time)
  }

  /** A mini table under way: `flows` are the entries left of it, `todo` the keys still to come and `tried` the
      entries reported. */
  ghost predicate Halfway(m: Mini, key: Key, mask: Key, time: nat, flows: map<Key, Entry>, todo: set<Key>,
                          tried: seq<Entry>)
  {
    && todo <= m.flows.Keys && flows.Keys <= m.flows.Keys && Distinct(tried)
    && (forall k :: k in flows ==> flows[k] == m.flows[k])
    && (forall k :: k in m.flows ==>
          (k in flows <==> k in todo || !(Selected(key, mask, m.flows[k]) && Expired(m.flows[k], time))))
    && (forall e :: e in tried <==> e.key !in todo && e.key in flows && flows[e.key] == e && Selected(key, mask, e))
  }

  lemma HalfwayPasses(m: Mini, key: Key, mask: Key, time: nat, flows: map<Key, Entry>, todo: set<Key>,
                      tried: seq<Entry>, k: Key)
    requires MiniOk(m) && Halfway(m, key, mask, time, flows, todo, tried) && k in todo
    requires !Selected(key, mask, m.flows[k])
    ensures Halfway(m, key, mask, time, flows, todo - {k}, tried)
  {
  }

  lemma HalfwayDrops(m: Mini, key: Key, mask: Key, time: nat, flows: map<Key, Entry>, todo: set<Key>,
                     tried: seq<Entry>, k: Key)
    requires MiniOk(m) && Halfway(m, key, mask, time, flows, todo, tried) && k in todo
    requires Selected(key, mask, m.flows[k]) && Expired(m.flows[k], time)
    ensures Halfway(m, key, mask, time, flows - {k}, todo - {k}, tried)
  {
  }

  lemma HalfwayReports(m: Mini, key: Key, mask: Key, time: nat, flows: map<Key, Entry>, todo: set<Key>,
                       tried: seq<Entry>, k: Key)
    requires MiniOk(m) && Halfway(m, key, mask, time, flows, todo, tried) && k in todo
    requires Selected(key, mask, m.flows[k]) && !Expired(m.flows[k], time)
    ensures k in flows && Halfway(m, key, mask, time, flows, todo - {k}, tried + [flows[k]])
  {
    assert flows[k].key == k && flows[k] !in tried;
    DistinctConcat(tried, [flows[k]]);
  }

  lemma HalfwayWants(m: Mini, key: Key, mask: Key, time: nat, flows: map<Key, Entry>, todo: set<Key>, tried: seq<Entry>)
    requires Halfway(m, key, mask, time, flows, todo, tried)
    ensures Distinct(tried) && forall e :: e in tried ==> Wants(m, key, mask, time, e)
  {
  }

  lemma HalfwayIsDone(m: Mini, key: Key, mask: Key, time: nat, flows: map<Key, Entry>, tried: seq<Entry>)
    requires Halfway(m, key, mask, time, flows, {}, tried)
    ensures flows == SweepMini(m, time, (e: Entry) => Selected(key, mask, e)).flows
    ensures forall e :: e in tried <==> e.key in flows && flows[e.key] == e && Selected(key, mask, e)
  {
  }

  /** Report the live selected entries of one mini table, dropping the expired ones. The entries in `tried`
      are written, but for the last one if it does not fit. */
  method StatsFlows(m: Mini, key: Key, mask: Key, time: nat, buf: Buffer, believed: nat, ghost g: Growth, ghost n: nat)
    returns (flows: map<Key, Entry>, believed': nat, ok: bool, ghost tried: seq<Entry>)
    requires MiniOk(m) && ApplyMask(m.mask, mask) == mask
    requires buf.Follows(believed, g, n)
    modifies buf, buf.slots
    ensures buf.Valid() && (buf.slots == old(buf.slots) || fresh(buf.slots))
    ensures Distinct(tried) && (forall e :: e in tried ==> Wants(m, key, mask, time, e))
    ensures ok <==> Fits(g, n + |tried|)
    ensures ok ==>
              && buf.Follows(believed', g, n + |tried|)
              && buf.contents == old(buf.contents) + tried
              && flows == SweepMini(m, time, (e: Entry) => Selected(key, mask, e)).flows
              && forall e :: e in tried <==> e.key in flows && flows[e.key] == e && Selected(key, mask, e)
  {
    flows, tried, believed', ok := m.flows, [], believed, true;
    var todo := m.flows.Keys;
    while todo != {}
      invariant ok && (buf.slots == old(buf.slots) || fresh(buf.slots))
      invariant buf.Follows(believed', g, n + |tried|)
      invariant buf.contents == old(buf.contents) + tried
      invariant Halfway(m, key, mask, time, flows, todo, tried)
      decreases todo
    {
      var k :| k in todo;
      SelectedByKey(m, key, mask, k);
      if ApplyMask(k, mask) != key {
        HalfwayPasses(m, key, mask, time, flows, todo, tried, k);
      } else if Expired(m.flows[k], time) {
        HalfwayDrops(m, key, mask, time, flows, todo, tried, k);
        flows := flows - {k};
      } else {
        HalfwayReports(m, key, mask, time, flows, todo, tried, k);
        believed', ok := buf.Append(flows[k], believed', g, n + |tried|);
        Regroup(old(buf.contents), tried, [flows[k]]);
        tried := tried + [flows[k]];
        if !ok {
          HalfwayWants(m, key, mask, time, flows, todo - {k}, tried);
          return;
        }
      }
      todo := todo - {k};
    }
    HalfwayWants(m, key, mask, time, flows, todo, tried);
    HalfwayIsDone(m, key, mask, time, flows, tried);
  }

  /** What the buffer holds after the mini tables `ms` are visited: each selected entry left in them,
      once. */
  ghost predicate Reported(ms: seq<Mini>, key: Key, mask: Key, out: seq<Entry>) {
    && Distinct(out)
    && forall e :: e in out <==>
         Selected(key, mask, e) && exists m :: m in ms && e.key in m.flows && m.flows[e.key] == e
  }

  lemma ReportedSkip(ms: seq<Mini>, m: Mini, key: Key, mask: Key, out: seq<Entry>)
    requires Reported(ms, key, mask, out)
    requires MiniOk(m) && ApplyMask(m.mask, mask) != mask
    ensures Reported(ms + Piece(m), key, mask, out)
  {
    assert forall x :: x in ms + Piece(m) ==> x in ms || x == m;
  }

  /** The entries of a mini table with a mask of its own differ from those reported before. */
  lemma VisitIsNew(ms: seq<Mini>, m: Mini, key: Key, mask: Key, out: seq<Entry>, added: seq<Entry>)
    requires Reported(ms, key, mask, out) && Distinct(added)
    requires MiniOk(m) && (forall x :: x in ms ==> MiniOk(x) && x.mask != m.mask)
    requires forall e :: e in added ==> e.key in m.flows && m.flows[e.key] == e
    ensures Distinct(out + added)
  {
    forall e | e in out
      ensures e !in added
    {
      var x :| x in ms && e.key in x.flows && x.flows[e.key] == e;
      assert MiniOk(x);
    }
    DistinctConcat(out, added);
  }

  lemma ReportedVisit(ms: seq<Mini>, m: Mini, key: Key, mask: Key, out: seq<Entry>, added: seq<Entry>)
    requires Reported(ms, key, mask, out) && Distinct(added)
    requires MiniOk(m) && (forall x :: x in ms ==> MiniOk(x) && x.mask != m.mask)
    requires forall e :: e in added <==> e.key in m.flows && m.flows[e.key] == e && Selected(key, mask, e)
    ensures Reported(ms + Piece(m), key, mask, out + added)
  {
    VisitIsNew(ms, m, key, mask, out, added);
    assert forall x :: x in ms + Piece(m) ==> x in ms || x == m;
    assert m.flows != map[] ==> m in ms + Piece(m);
  }

  lemma SweepUnselected(m: Mini, key: Key, mask: Key, time: nat)
    requires MiniOk(m) && ApplyMask(m.mask, mask) != mask
    ensures SweepMini(m, time, (e: Entry) => Selected(key, mask, e)) == m
  {
    var sel := (e: Entry) => Selected(key, mask, e);
    assert forall k :: k in m.flows ==> !sel(m.flows[k]);
    assert Swept(m.flows, time, sel) == m.flows;
  }

  /** The mini tables kept so far have masks of their own. */
  lemma KeptMasks(ms: seq<Mini>, n: nat, t: Mini -> Mini)
    requires IndexOk(ms) && n < |ms| && Tame(ms, t)
    ensures forall x :: x in Rebuild(ms[..n], t) ==> MiniOk(x) && x.mask != ms[n].mask
  {
    RebuildOk(ms[..n], t);
    forall x | x in Rebuild(ms[..n], t)
      ensures MiniOk(x) && x.mask != ms[n].mask
    {
      var m :| m in ms[..n] && t(m) == x;
      var i :| 0 <= i < n && ms[i] == m;
    }
  }

  ghost predicate WantsIn(ms: seq<Mini>, key: Key, mask: Key, time: nat, e: Entry) {
    exists m :: m in ms && Wants(m, key, mask, time, e)
  }

  /** One mini table of a pass. */
  method StatsMini(ms: seq<Mini>, n: nat, key: Key, mask: Key, time: nat, buf: Buffer, believed: nat,
                   ghost kept: seq<Mini>, ghost g: Growth, ghost out: seq<Entry>)
    returns (m: Mini, believed': nat, ok: bool, ghost tried: seq<Entry>)
    requires IndexOk(ms) && n < |ms|
    requires kept == Rebuild(ms[..n], (m: Mini) => SweepMini(m, time, (e: Entry) => Selected(key, mask, e)))
    requires Reported(kept, key, mask, out) && buf.Follows(believed, g, |out|)
    modifies buf, buf.slots
    ensures buf.Valid() && (buf.slots == old(buf.slots) || fresh(buf.slots))
    ensures Distinct(out + tried) && forall e :: e in tried ==> Wants(ms[n], key, mask, time, e)
    ensures ok <==> Fits(g, |out + tried|)
    ensures ok ==>
              && m == SweepMini(ms[n], time, (e: Entry) => Selected(key, mask, e))
              && Reported(kept + Piece(m), key, mask, out + tried)
              && buf.Follows(believed', g, |out + tried|) && buf.contents == old(buf.contents) + tried
  {
    ghost var f := (m: Mini) => SweepMini(m, time, (e: Entry) => Selected(key, mask, e));
    m, believed', ok, tried := ms[n], believed, true, [];
    if ApplyMask(m.mask, mask) == mask {
      KeptMasks(ms, n, f);
      var flows;
      flows, believed', ok, tried := StatsFlows(m, key, mask, time, buf, believed, g, |out|);
      VisitIsNew(kept, m, key, mask, out, tried);
      if ok {
        m := m.(flows := flows);
        ReportedVisit(kept, m, key, mask, out, tried);
      }
    } else {
      SweepUnselected(m, key, mask, time);
      ReportedSkip(kept, m, key, mask, out);
      assert out + tried == out;
    }
  }

  /** The loop over the mini tables. It stops at a write that does not fit; the entries in `tried` are
      written, but for that one. */
  method StatsPass(ms: seq<Mini>, key: Key, mask: Key, time: nat, buf: Buffer)
    returns (kept: seq<Mini>, ok: bool, ghost tried: seq<Entry>)
    requires IndexOk(ms) && buf.Valid()
    modifies buf, buf.slots
    ensures buf.Valid() && (buf.slots == old(buf.slots) || fresh(buf.slots))
    ensures Distinct(tried) && forall e :: e in tried ==> WantsIn(ms, key, mask, time, e)
    ensures ok <==> Fits(old(buf.At(1)), |tried|)
    ensures ok ==>
              && kept == Rebuild(ms, (m: Mini) => SweepMini(m, time, (e: Entry) => Selected(key, mask, e)))
              && Reported(kept, key, mask, tried) && buf.contents == old(buf.contents) + tried
              && buf.At(1) == Restarted(WrittenBy(old(buf.At(1)), |tried|))
  {
    ghost var f := (m: Mini) => SweepMini(m, time, (e: Entry) => Selected(key, mask, e));
    ghost var g := buf.At(1);
    var n, believed := 0, 1;
    kept, ok, tried := [], true, [];
    while n < |ms|
      invariant 0 <= n <= |ms| && kept == Rebuild(ms[..n], f)
      invariant ok && (buf.slots == old(buf.slots) || fresh(buf.slots))
      invariant Reported(kept, key, mask, tried) && buf.Follows(believed, g, |tried|)
      invariant buf.contents == old(buf.contents) + tried
      invariant forall e :: e in tried ==> WantsIn(ms, key, mask, time, e)
    {
      PassStep(ms, n, f);
      var m;
      ghost var more;
      m, believed, ok, more := StatsMini(ms, n, key, mask, time, buf, believed, kept, g, tried);
      MoreAreWanted(ms, n, key, mask, time, tried, more);
      Regroup(old(buf.contents), tried, more);
      tried := tried + more;
      if !ok {
        return;
      }
      kept := kept + Piece(m);
      n := n + 1;
    }
    assert ms[..n] == ms;
  }

  lemma MoreAreWanted(ms: seq<Mini>, n: nat, key: Key, mask: Key, time: nat, out: seq<Entry>, tried: seq<Entry>)
    requires n < |ms| && (forall e :: e in out ==> WantsIn(ms, key, mask, time, e))
    requires forall e :: e in tried ==> Wants(ms[n], key, mask, time, e)
    ensures forall e :: e in out + tried ==> WantsIn(ms, key, mask, time, e)
  {
    assert ms[n] in ms;
  }

  lemma ReportedStep(ms: seq<Mini>, key: Key, mask: Key, time: nat, kept: seq<Mini>, out: seq<Entry>)
    requires IndexOk(ms) && Reported(kept, key, mask, out)
    requires kept == Rebuild(ms, (m: Mini) => SweepMini(m, time, (e: Entry) => Selected(key, mask, e)))
    ensures IndexOk(kept)
    ensures LazyStep(Entries(ms), Stats(key, mask), time, Listed(set e | e in out), Entries(kept))
  {
    StatsStep(ms, key, mask, time);
    forall e
      ensures e in out <==> e in Entries(kept) && Selected(key, mask, e)
    {
      MemberEntries(kept, e);
    }
    assert (set e | e in out) == (set e | e in Entries(kept) && Selected(key, mask, e));
  }

  /** The entries a request asks for: the live ones it subsumes. */
  ghost function Wanted(es: set<Entry>, key: Key, mask: Key, time: nat): set<Entry> {
    set e | e in es && !Expired(e, time) && Subsumes(key, mask, e.key, e.mask)
  }

  /** A request is cleared before it is served, and then asks for every live entry. */
  lemma ClearedRequest(es: set<Entry>, time: nat)
    ensures Wanted(es, {}, {}, time) == Live(es, time)
  {
    forall e | e in es
      ensures Subsumes({}, {}, e.key, e.mask)
    {
    }
  }

  lemma AnswerIsWanted(es: set<Entry>, es': set<Entry>, key: Key, mask: Key, time: nat, out: seq<Entry>)
    requires LazyStep(es, Stats(key, mask), time, Listed(set e | e in out), es') && Distinct(out)
    ensures (set e | e in out) == Wanted(es, key, mask, time) && |out| == |Wanted(es, key, mask, time)|
  {
    var es0 :| Forgets(es, es0, time) && Answers(es0, Stats(key, mask), time, Listed(set e | e in out));
    assert Wanted(es0, key, mask, time) == Wanted(es, key, mask, time);
    DistinctSize(out);
  }

  lemma TableReported(ms: seq<Mini>, key: Key, mask: Key, time: nat, kept: seq<Mini>, out: seq<Entry>)
    requires IndexOk(ms) && Reported(kept, key, mask, out)
    requires kept == Rebuild(ms, (m: Mini) => SweepMini(m, time, (e: Entry) => Selected(key, mask, e)))
    ensures IndexOk(kept) && |out| == |Wanted(Entries(ms), key, mask, time)|
    ensures LazyStep(Entries(ms), Stats(key, mask), time, Listed(set e | e in out), Entries(kept))
  {
    ReportedStep(ms, key, mask, time, kept, out);
    AnswerIsWanted(Entries(ms), Entries(kept), key, mask, time, out);
  }

  lemma TriedAreWanted(ms: seq<Mini>, key: Key, mask: Key, time: nat, tried: seq<Entry>)
    requires IndexOk(ms) && Distinct(tried) && forall e :: e in tried ==> WantsIn(ms, key, mask, time, e)
    ensures |tried| <= |Wanted(Entries(ms), key, mask, time)|
  {
    forall e | e in tried
      ensures e in Wanted(Entries(ms), key, mask, time)
    {
      assert WantsIn(ms, key, mask, time, e);
      MemberEntries(ms, e);
      SelectedCovers(ms, key, mask, e);
    }
    DistinctIsShort(tried, Wanted(Entries(ms), key, mask, time));
  }

  /** The part of a reply that one table gives: exactly the live entries the request subsumes, each once, behind
      what the buffer holds; the table drops only expired entries. All this if every write fits. */
  method ReportTable(t: Table, key: Key, mask: Key, time: nat, buf: Buffer) returns (ok: bool, ghost out: seq<Entry>)
    requires t.Valid() && buf.Valid()
    modifies t, buf, buf.slots
    ensures t.Valid() && buf.Valid() && (buf.slots == old(buf.slots) || fresh(buf.slots))
    ensures ok <==> Fits(old(buf.At(1)), |Wanted(old(t.Contents()), key, mask, time)|)
    ensures ok ==>
              && Distinct(out) && buf.contents == old(buf.contents) + out
              && LazyStep(old(t.Contents()), Stats(key, mask), time, Listed(set e | e in out), t.Contents())
              && buf.At(1) == Restarted(WrittenBy(old(buf.At(1)), |Wanted(old(t.Contents()), key, mask, time)|))
  {
    var kept;
    kept, ok, out := StatsPass(t.minis, key, mask, time, buf);
    if ok {
      TableReported(t.minis, key, mask, time, kept, out);
      t.minis := kept;
    } else {
      TriedAreWanted(t.minis, key, mask, time, out);
      FitsFewer(old(buf.At(1)), |out|, |Wanted(t.Contents(), key, mask, time)|);
    }
  }

  /** A statistics request on one table. */
  method TableStats(t: Table, key: Key, mask: Key, time: nat) returns (buf: Buffer)
    requires t.Valid()
    modifies t
    ensures t.Valid() && fresh(buf) && buf.Valid() && Distinct(buf.contents)
    ensures LazyStep(old(t.Contents()), Stats(key, mask), time, Listed(set e | e in buf.contents), t.Contents())
  {
    buf := new Buffer();
    Doubles(buf.At(1), |Wanted(t.Contents(), key, mask, time)|);
    var ok;
    ghost var out;
    ok, out := ReportTable(t, key, mask, time, buf);
    assert buf.contents == out;
  }

  // ----- A request for all tables -----

  /** How many entries of each table a request asks for. */
  ghost function Counts(cs: seq<set<Entry>>, key: Key, mask: Key, time: nat): seq<nat> {
    seq(|cs|, i requires 0 <= i < |cs| => |Wanted(cs[i], key, mask, time)|)
  }

  ghost function Flat(outs: seq<seq<Entry>>): seq<Entry> {
    if outs == [] then [] else Flat(outs[..|outs| - 1]) + outs[|outs| - 1]
  }

  /** What a table gives to the reply. */
  ghost predicate Gives(es: set<Entry>, es': set<Entry>, key: Key, mask: Key, time: nat, out: seq<Entry>) {
    Distinct(out) && LazyStep(es, Stats(key, mask), time, Listed(set e | e in out), es')
  }

  lemma CountsNext(cs: seq<set<Entry>>, key: Key, mask: Key, time: nat, i: nat)
    requires i < |cs|
    ensures var g := Restarted(AfterTables(Counts(cs, key, mask, time)[..i]));
            var n := |Wanted(cs[i], key, mask, time)|;
            && AfterTables(Counts(cs, key, mask, time)[..i + 1]) == WrittenBy(g, n)
            && (AllFit(Counts(cs, key, mask, time)) ==> Fits(g, n))
  {
    var counts := Counts(cs, key, mask, time);
    assert counts[..i + 1][..i] == counts[..i] && counts[i] == |Wanted(cs[i], key, mask, time)|;
  }

  /** The tables are well formed and hold the entries `cs`. */
  ghost predicate HoldAll(ts: seq<Table>, cs: seq<set<Entry>>)
    reads ts
  {
    |cs| == |ts| && forall i :: 0 <= i < |ts| ==> ts[i].Valid() && ts[i].Contents() == cs[i]
  }

  /** After `i` tables: they have given `outs` and every write was inside. */
  ghost predicate Given(cs: seq<set<Entry>>, cs': seq<set<Entry>>, key: Key, mask: Key, time: nat, i: nat,
                        outs: seq<seq<Entry>>)
  {
    && |outs| == i <= |cs| == |cs'|
    && (forall j :: 0 <= j < i ==> Gives(cs[j], cs'[j], key, mask, time, outs[j]))
    && (forall j :: i <= j < |cs| ==> cs'[j] == cs[j])
    && AllFit(Counts(cs, key, mask, time)[..i])
  }

  lemma GivenNext(cs: seq<set<Entry>>, cs': seq<set<Entry>>, key: Key, mask: Key, time: nat, i: nat,
                  outs: seq<seq<Entry>>, es: set<Entry>, out: seq<Entry>)
    requires Given(cs, cs', key, mask, time, i, outs) && i < |cs| && Gives(cs[i], es, key, mask, time, out)
    requires Fits(Restarted(AfterTables(Counts(cs, key, mask, time)[..i])), |Wanted(cs[i], key, mask, time)|)
    ensures Given(cs, cs'[i := es], key, mask, time, i + 1, outs + [out]) && Flat(outs + [out]) == Flat(outs) + out
  {
    CountsFit(cs, key, mask, time, i);
    assert (outs + [out])[..i] == outs;
  }

  lemma CountsFit(cs: seq<set<Entry>>, key: Key, mask: Key, time: nat, i: nat)
    requires i < |cs| && AllFit(Counts(cs, key, mask, time)[..i])
    requires Fits(Restarted(AfterTables(Counts(cs, key, mask, time)[..i])), |Wanted(cs[i], key, mask, time)|)
    ensures AllFit(Counts(cs, key, mask, time)[..i + 1])
  {
    AllFitMore(Counts(cs, key, mask, time), i);
  }

  /** The turn of one table. */
  method ReportNext(ts: seq<Table>, i: nat, key: Key, mask: Key, time: nat, buf: Buffer, ghost cs: seq<set<Entry>>)
    returns (ok: bool, ghost out: seq<Entry>, ghost es: set<Entry>)
    requires i < |ts| && Distinct(ts) && HoldAll(ts, cs) && buf.Valid()
    modifies ts[i], buf, buf.slots
    ensures buf.Valid() && (buf.slots == old(buf.slots) || fresh(buf.slots)) && HoldAll(ts, cs[i := es])
    ensures ok <==> Fits(old(buf.At(1)), |Wanted(cs[i], key, mask, time)|)
    ensures ok ==>
              && Gives(cs[i], es, key, mask, time, out) && buf.contents == old(buf.contents) + out
              && buf.At(1) == Restarted(WrittenBy(old(buf.At(1)), |Wanted(cs[i], key, mask, time)|))
  {
    var t := ts[i];
    ok, out := ReportTable(t, key, mask, time, buf);
    es := t.Contents();
  }

  /** A statistics request on all tables. Every write is inside the buffer exactly when the numbers of entries of
      the tables let it (`ReplyGrowth.AllFitIff`); then the reply is what the tables give, one after the other. */
  method AllTableStats(ts: seq<Table>, key: Key, mask: Key, time: nat, ghost cs: seq<set<Entry>>)
    returns (buf: Buffer, ok: bool, ghost outs: seq<seq<Entry>>, ghost cs': seq<set<Entry>>)
    requires Distinct(ts) && HoldAll(ts, cs)
    modifies ts
    ensures fresh(buf) && buf.Valid() && HoldAll(ts, cs')
    ensures ok <==> AllFit(Counts(cs, key, mask, time))
    ensures ok ==> |outs| == |ts| && buf.contents == Flat(outs)
    ensures ok ==> forall i :: 0 <= i < |ts| ==> Gives(cs[i], cs'[i], key, mask, time, outs[i])
  {
    ghost var counts := Counts(cs, key, mask, time);
    buf := new Buffer();
    outs, ok, cs' := [], true, cs;
    var i := 0;
    while i < |ts|
      invariant 0 <= i <= |ts| && ok && Given(cs, cs', key, mask, time, i, outs) && HoldAll(ts, cs')
      invariant fresh(buf) && fresh(buf.slots) && buf.Valid()
      invariant buf.contents == Flat(outs) && buf.At(1) == Restarted(AfterTables(counts[..i]))
    {
      ghost var out, es;
      CountsNext(cs, key, mask, time, i);
      ok, out, es := ReportNext(ts, i, key, mask, time, buf, cs');
      if !ok {
        cs' := cs'[i := es];
        return;
      }
      GivenNext(cs, cs', key, mask, time, i, outs, es, out);
      outs, cs', i := outs + [out], cs'[i := es], i + 1;
    }
    assert counts[..i] == counts;
  }
}
