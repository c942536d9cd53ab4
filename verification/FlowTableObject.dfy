/** The flow table as it runs: loops over the mini tables and over the entries of a mini table, with
    entries and mini tables deleted during the iteration (src/net/flow_table.c). */
module FlowTableObject {
  import opened Options
  import opened FlowKey
  import opened FlowTable
  import opened FlowTableIndex

  /** One step of a pass: the piece that stays in place of the mini table visited. */
  function Piece(m: Mini): seq<Mini> {
    if m.flows == map[] then [] else [m]
  }

  lemma PassStep(ms: seq<Mini>, n: nat, t: Mini -> Mini)
    requires n < |ms|
    ensures Rebuild(ms[..n + 1], t) == Rebuild(ms[..n], t) + Piece(t(ms[n]))
  {
    assert ms[..n + 1][..n] == ms[..n];
  }

  /** In one mini table only the entry under the masked packet can match. */
  lemma OnlyHit(m: Mini, p: Key, k: Key)
    requires MiniOk(m) && k in m.flows
    ensures Hit(p, m.flows[k]) <==> k == ApplyMask(p, m.mask)
  {
  }

  lemma NoHit(m: Mini, p: Key)
    requires MiniOk(m) && ApplyMask(p, m.mask) !in m.flows
    ensures forall k :: k in m.flows ==> !Hit(p, m.flows[k])
  {
  }

  lemma SweepHit(m: Mini, p: Key, time: nat)
    requires MiniOk(m)
    ensures var k := ApplyMask(p, m.mask);
            SweepMini(m, time, (e: Entry) => Hit(p, e))
            == if k in m.flows && Expired(m.flows[k], time) then m.(flows := m.flows - {k}) else m
  {
    var k := ApplyMask(p, m.mask);
    var l := Swept(m.flows, time, (e: Entry) => Hit(p, e));
    var r := if k in m.flows && Expired(m.flows[k], time) then m.flows - {k} else m.flows;
    forall x
      ensures x in l <==> x in r
      ensures x in l ==> l[x] == r[x]
    {
      if x in m.flows {
        OnlyHit(m, p, x);
      }
    }
    assert l == r;
  }

  /** Where the best entry so far is, and that no live match of `ms` beats it. */
  ghost predicate BestOf(ms: seq<Mini>, p: Key, time: nat, r: Option<Entry>, at: nat) {
    && (r.None? ==> forall i, k :: 0 <= i < |ms| && k in ms[i].flows && !Expired(ms[i].flows[k], time) ==>
                                 !Hit(p, ms[i].flows[k]))
    && (r.Some? ==>
          && at < |ms| && r.value.key in ms[at].flows && ms[at].flows[r.value.key] == r.value
          && !Expired(r.value, time) && Hit(p, r.value)
          && forall i, k :: 0 <= i < |ms| && k in ms[i].flows && !Expired(ms[i].flows[k], time)
                            && Hit(p, ms[i].flows[k]) ==>
                              ms[i].flows[k].priority <= r.value.priority)
  }

  /** A mini table without a live match changes nothing. */
  lemma BestOfSkip(ms: seq<Mini>, m: Mini, p: Key, time: nat, r: Option<Entry>, at: nat)
    requires BestOf(ms, p, time, r, at)
    requires forall k :: k in m.flows && !Expired(m.flows[k], time) ==> !Hit(p, m.flows[k])
    ensures BestOf(ms + Piece(m), p, time, r, at)
  {
  }

  lemma BestOfVisit(ms: seq<Mini>, m: Mini, p: Key, time: nat, r: Option<Entry>, at: nat)
    requires BestOf(ms, p, time, r, at) && MiniOk(m)
    requires ApplyMask(p, m.mask) in m.flows && !Expired(m.flows[ApplyMask(p, m.mask)], time)
    ensures var e := m.flows[ApplyMask(p, m.mask)];
            if r.None? || e.priority > r.value.priority
            then BestOf(ms + [m], p, time, Some(e), |ms|) else BestOf(ms + [m], p, time, r, at)
  {
    var e := m.flows[ApplyMask(p, m.mask)];
    forall k | k in m.flows
      ensures Hit(p, m.flows[k]) <==> m.flows[k] == e
    {
      OnlyHit(m, p, k);
      OnlyHit(m, p, e.key);
    }
  }

  lemma BestOfAnswers(ms: seq<Mini>, p: Key, time: nat, r: Option<Entry>, at: nat)
    requires IndexOk(ms) && BestOf(ms, p, time, r, at)
    ensures Answers(Entries(ms), Lookup(p), time, Found(r))
  {
    if r.Some? {
      assert r.value in Entries(ms);
      assert Best(Entries(ms), p, time, r.value);
    }
  }

  /** Replacing a stored entry by one with the same key and mask. */
  lemma SetEntry(ms: seq<Mini>, at: nat, e: Entry, e': Entry)
    requires IndexOk(ms) && at < |ms| && e.key in ms[at].flows && ms[at].flows[e.key] == e
    requires e'.key == e.key && e'.mask == e.mask
    ensures var r := ms[at := ms[at].(flows := ms[at].flows[e.key := e'])];
            IndexOk(r) && Entries(r) == Entries(ms) - {e} + {e'}
  {
    var r := ms[at := ms[at].(flows := ms[at].flows[e.key := e'])];
    assert IndexOk(r);
    forall x | x in Entries(r)
      ensures x in Entries(ms) - {e} + {e'}
    {
      var i, k :| 0 <= i < |r| && k in r[i].flows && r[i].flows[k] == x;
      if i != at || k != e.key {
        assert ms[i].flows[k] == x;
        assert x != e by {
          assert MiniOk(ms[i]) && MiniOk(ms[at]);
        }
      }
    }
    forall x | x in Entries(ms) - {e} + {e'}
      ensures x in Entries(r)
    {
      if x == e' {
        assert r[at].flows[e.key] == x;
      } else {
        StoredAt(ms, x);
        var i :| 0 <= i < |ms| && ms[i].mask == x.mask && x.key in ms[i].flows && ms[i].flows[x.key] == x;
        assert r[i].flows[x.key] == x;
      }
    }
  }

  /** One mini table of a lookup: an expired entry under the masked packet goes, a better live one is taken. */
  method SearchMini(ms: seq<Mini>, m: Mini, p: Key, time: nat, r: Option<Entry>, at: nat)
    returns (m': Mini, r': Option<Entry>, at': nat)
    requires MiniOk(m) && BestOf(ms, p, time, r, at)
    ensures m' == SweepMini(m, time, (e: Entry) => Hit(p, e))
    ensures BestOf(ms + Piece(m'), p, time, r', at')
  {
    var k := ApplyMask(p, m.mask);
    SweepHit(m, p, time);
    m', r', at' := m, r, at;
    if k !in m.flows {
      NoHit(m, p);
      BestOfSkip(ms, m, p, time, r, at);
    } else if Expired(m.flows[k], time) {
      m' := m.(flows := m.flows - {k});
      NoHit(m', p);
      BestOfSkip(ms, m', p, time, r, at);
    } else {
      BestOfVisit(ms, m, p, time, r, at);
      if r.None? || m.flows[k].priority > r.value.priority {
        r', at' := Some(m.flows[k]), |ms|;
      }
    }
  }

  /** The pass of a lookup: expired entries under the masked packet go, the best live one is kept. */
  method Search(ms: seq<Mini>, p: Key, time: nat) returns (kept: seq<Mini>, r: Option<Entry>, at: nat)
    requires IndexOk(ms)
    ensures kept == Rebuild(ms, (m: Mini) => SweepMini(m, time, (e: Entry) => Hit(p, e)))
    ensures BestOf(kept, p, time, r, at)
  {
    ghost var t := (m: Mini) => SweepMini(m, time, (e: Entry) => Hit(p, e));
    var n: nat := 0;
    kept, r, at := [], None, 0;
    while n < |ms|
      invariant n <= |ms| && kept == Rebuild(ms[..n], t)
      invariant BestOf(kept, p, time, r, at)
    {
      var m;
      m, r, at := SearchMini(kept, ms[n], p, time, r, at);
      PassStep(ms, n, t);
      kept := kept + Piece(m);
      n := n + 1;
    }
    assert ms[..|ms|] == ms;
  }

  function Touched(ms: seq<Mini>, r: Option<Entry>, at: nat, time: nat): seq<Mini>
    requires r.Some? ==> at < |ms|
  {
    match r
    case None => ms
    case Some(e) => ms[at := ms[at].(flows := ms[at].flows[e.key := e.(lastUsed := time)])]
  }

  lemma FindStep(ms: seq<Mini>, kept: seq<Mini>, p: Key, time: nat, r: Option<Entry>, at: nat)
    requires IndexOk(ms) && kept == Rebuild(ms, (m: Mini) => SweepMini(m, time, (e: Entry) => Hit(p, e)))
    requires BestOf(kept, p, time, r, at)
    ensures IndexOk(Touched(kept, r, at, time))
    ensures LazyStep(Entries(ms), Lookup(p), time, Found(r), Entries(Touched(kept, r, at, time)))
  {
    SweepForgets(ms, time, (e: Entry) => Hit(p, e));
    BestOfAnswers(kept, p, time, r, at);
    if r.Some? {
      SetEntry(kept, at, r.value, r.value.(lastUsed := time));
    }
  }

  /** Storing an entry whose mask and key are new. */
  lemma InsertEntry(ms: seq<Mini>, i: nat, e: Entry)
    requires IndexOk(ms) && i < |ms| && ms[i].mask == e.mask && ApplyMask(e.key, e.mask) == e.key
    requires forall x :: x in Entries(ms) ==> x.mask != e.mask || x.key != e.key
    ensures var r := ms[i := ms[i].(flows := ms[i].flows[e.key := e])];
            IndexOk(r) && Entries(r) == Entries(ms) + {e}
  {
    var r := ms[i := ms[i].(flows := ms[i].flows[e.key := e])];
    assert MiniOk(ms[i]);
    forall k | k in ms[i].flows
      ensures k != e.key
    {
      assert ms[i].flows[k] in Entries(ms);
    }
    assert IndexOk(r);
    forall x
      ensures x in Entries(r) <==> x in Entries(ms) || x == e
    {
      MemberEntries(ms, x);
      MemberEntries(r, x);
      assert forall m :: m in r ==> m in ms || m == r[i];
      forall m | m in ms
        ensures m in r || m == ms[i]
      {
        var j :| 0 <= j < |ms| && ms[j] == m;
        assert j != i ==> r[j] == m;
      }
      assert r[i] in r && ms[i] in ms;
    }
  }

  lemma AppendEntry(ms: seq<Mini>, e: Entry)
    requires IndexOk(ms) && ApplyMask(e.key, e.mask) == e.key
    requires forall i :: 0 <= i < |ms| ==> ms[i].mask != e.mask
    ensures var r := ms + [Mini(e.mask, map[e.key := e])];
            IndexOk(r) && Entries(r) == Entries(ms) + {e}
  {
    var r := ms + [Mini(e.mask, map[e.key := e])];
    assert IndexOk(r);
    forall x
      ensures x in Entries(r) <==> x in Entries(ms) || x == e
    {
      MemberEntries(ms, x);
      MemberEntries(r, x);
      assert forall m :: m in r <==> m in ms || m == r[|ms|];
    }
  }

  // ----- Non-strict passes -----

  /** The key test decides the whole test once the mask test has passed. */
  lemma SelectedByKey(m: Mini, key: Key, mask: Key, k: Key)
    requires MiniOk(m) && k in m.flows
    ensures Selected(key, mask, m.flows[k]) <==> ApplyMask(m.mask, mask) == mask && ApplyMask(k, mask) == key
  {
  }

  /** Visit the entries of one mini table for a non-strict modification. */
  method ModifyFlows(m: Mini, f: Entry, time: nat) returns (flows: map<Key, Entry>)
    requires MiniOk(m) && ApplyMask(m.mask, f.mask) == f.mask
    ensures flows == ModifyMini(m, time, f.insts, (e: Entry) => Selected(f.key, f.mask, e)).flows
  {
    ghost var goal := ModifyMini(m, time, f.insts, (e: Entry) => Selected(f.key, f.mask, e)).flows;
    flows := m.flows;
    var todo := m.flows.Keys;
    while todo != {}
      invariant todo <= m.flows.Keys && flows.Keys <= m.flows.Keys
      invariant forall k :: k in todo ==> k in flows && flows[k] == m.flows[k]
      invariant forall k :: k in m.flows && k !in todo ==> (k in flows <==> k in goal)
      invariant forall k :: k in m.flows && k !in todo && k in goal ==> flows[k] == goal[k]
      decreases todo
    {
      var k :| k in todo;
      SelectedByKey(m, f.key, f.mask, k);
      if ApplyMask(k, f.mask) == f.key {
        if Expired(flows[k], time) {
          flows := flows - {k};
        } else {
          flows := flows[k := flows[k].(insts := f.insts)];
        }
      }
      todo := todo - {k};
    }
  }

  lemma UnselectedMini(m: Mini, f: Entry, time: nat)
    requires MiniOk(m) && ApplyMask(m.mask, f.mask) != f.mask
    ensures ModifyMini(m, time, f.insts, (e: Entry) => Selected(f.key, f.mask, e)) == m
    ensures DeleteMini(m, (e: Entry) => Selected(f.key, f.mask, e)) == m
  {
    var sel := (e: Entry) => Selected(f.key, f.mask, e);
    assert forall k :: k in m.flows ==> !sel(m.flows[k]);
    assert Replaced(Swept(m.flows, time, sel), f.insts, sel) == m.flows;
    assert DeleteMini(m, sel).flows == m.flows;
  }

  method ModifyPass(ms: seq<Mini>, f: Entry, time: nat) returns (kept: seq<Mini>)
    requires IndexOk(ms)
    ensures kept == Rebuild(ms, (m: Mini) => ModifyMini(m, time, f.insts, (e: Entry) => Selected(f.key, f.mask, e)))
  {
    ghost var t := (m: Mini) => ModifyMini(m, time, f.insts, (e: Entry) => Selected(f.key, f.mask, e));
    kept := [];
    var n := 0;
    while n < |ms|
      invariant 0 <= n <= |ms| && kept == Rebuild(ms[..n], t)
    {
      var m := ms[n];
      PassStep(ms, n, t);
      if ApplyMask(m.mask, f.mask) == f.mask {
        var flows := ModifyFlows(m, f, time);
        m := m.(flows := flows);
      } else {
        UnselectedMini(m, f, time);
      }
      kept := kept + Piece(m);
      n := n + 1;
    }
    assert ms[..n] == ms;
  }

  /** Visit the entries of one mini table for a non-strict deletion. */
  method DeleteFlows(m: Mini, f: Entry) returns (flows: map<Key, Entry>)
    requires MiniOk(m) && ApplyMask(m.mask, f.mask) == f.mask
    ensures flows == DeleteMini(m, (e: Entry) => Selected(f.key, f.mask, e)).flows
  {
    flows := m.flows;
    var todo := m.flows.Keys;
    while todo != {}
      invariant todo <= m.flows.Keys && flows.Keys <= m.flows.Keys
      invariant forall k :: k in flows ==> flows[k] == m.flows[k]
      invariant forall k :: k in m.flows ==> (k in flows <==> k in todo || !Selected(f.key, f.mask, m.flows[k]))
      decreases todo
    {
      var k :| k in todo;
      SelectedByKey(m, f.key, f.mask, k);
      if ApplyMask(k, f.mask) == f.key {
        flows := flows - {k};
      }
      todo := todo - {k};
    }
  }

  method DeletePass(ms: seq<Mini>, f: Entry) returns (kept: seq<Mini>)
    requires IndexOk(ms)
    ensures kept == Rebuild(ms, (m: Mini) => DeleteMini(m, (e: Entry) => Selected(f.key, f.mask, e)))
  {
    ghost var t := (m: Mini) => DeleteMini(m, (e: Entry) => Selected(f.key, f.mask, e));
    kept := [];
    var n := 0;
    while n < |ms|
      invariant 0 <= n <= |ms| && kept == Rebuild(ms[..n], t)
    {
      var m := ms[n];
      PassStep(ms, n, t);
      if ApplyMask(m.mask, f.mask) == f.mask {
        var flows := DeleteFlows(m, f);
        m := m.(flows := flows);
      } else {
        UnselectedMini(m, f, 0);
      }
      kept := kept + Piece(m);
      n := n + 1;
    }
    assert ms[..n] == ms;
  }

  // ----- Strict operations -----

  /** The position of the mini table for a mask, or the end of the list. */
  method MiniOf(ms: seq<Mini>, mask: Key) returns (i: nat)
    requires IndexOk(ms)
    ensures i <= |ms| && (i < |ms| ==> ms[i].mask == mask)
    ensures forall j :: 0 <= j < |ms| && j != i ==> ms[j].mask != mask
  {
    i := 0;
    while i < |ms| && ms[i].mask != mask
      invariant i <= |ms|
      invariant forall j :: 0 <= j < i ==> ms[j].mask != mask
      decreases |ms| - i
    {
      i := i + 1;
    }
  }

  lemma SplitAt(ms: seq<Mini>, n: nat)
    requires n <= |ms|
    ensures ms == ms[..n] + ms[n..]
  {
  }

  lemma RebuildSplit(ms: seq<Mini>, n: nat, t: Mini -> Mini)
    requires n <= |ms|
    ensures Rebuild(ms, t) == Rebuild(ms[..n], t) + Rebuild(ms[n..], t)
  {
    SplitAt(ms, n);
    RebuildJoined(ms, ms[..n], ms[n..], t);
  }

  lemma RebuildJoined(ms: seq<Mini>, a: seq<Mini>, b: seq<Mini>, t: Mini -> Mini)
    requires ms == a + b
    ensures Rebuild(ms, t) == Rebuild(a, t) + Rebuild(b, t)
  {
    RebuildConcat(a, b, t);
  }

  /** A pass that can change only one mini table. */
  lemma RebuildOne(ms: seq<Mini>, i: nat, t: Mini -> Mini)
    requires IndexOk(ms) && i < |ms|
    requires forall j :: 0 <= j < |ms| && j != i ==> t(ms[j]) == ms[j]
    ensures Rebuild(ms, t) == ms[..i] + Piece(t(ms[i])) + ms[i + 1..]
  {
    RebuildSplit(ms, i + 1, t);
    PassStep(ms, i, t);
    SameFront(ms, i, t);
    SameBack(ms, i + 1, t);
  }

  lemma SameFront(ms: seq<Mini>, n: nat, t: Mini -> Mini)
    requires IndexOk(ms) && n <= |ms| && forall j :: 0 <= j < n ==> t(ms[j]) == ms[j]
    ensures Rebuild(ms[..n], t) == ms[..n]
  {
    RebuildSame(ms[..n], t);
  }

  lemma SameBack(ms: seq<Mini>, n: nat, t: Mini -> Mini)
    requires IndexOk(ms) && n <= |ms| && forall j :: n <= j < |ms| ==> t(ms[j]) == ms[j]
    ensures Rebuild(ms[n..], t) == ms[n..]
  {
    RebuildSame(ms[n..], t);
  }

  /** A strict operation leaves a mini table alone unless it has the entry under the request's key. */
  lemma StrictElsewhere(m: Mini, f: Entry, time: nat)
    requires MiniOk(m)
    requires m.mask != f.mask || f.key !in m.flows || m.flows[f.key].priority != f.priority
    ensures ModifyMini(m, time, f.insts, (e: Entry) => Strict(f, e)) == m
    ensures DeleteMini(m, (e: Entry) => Strict(f, e)) == m
  {
    var sel := (e: Entry) => Strict(f, e);
    assert forall k :: k in m.flows ==> !sel(m.flows[k]);
    assert Replaced(Swept(m.flows, time, sel), f.insts, sel) == m.flows;
    assert DeleteMini(m, sel).flows == m.flows;
  }

  lemma StrictHere(m: Mini, f: Entry, time: nat)
    requires MiniOk(m)
    requires m.mask == f.mask && f.key in m.flows && m.flows[f.key].priority == f.priority
    ensures var e := m.flows[f.key];
            ModifyMini(m, time, f.insts, (e: Entry) => Strict(f, e)).flows
            == if Expired(e, time) then m.flows - {f.key} else m.flows[f.key := e.(insts := f.insts)]
    ensures DeleteMini(m, (e: Entry) => Strict(f, e)).flows == m.flows - {f.key}
  {
    var sel := (e: Entry) => Strict(f, e);
    assert forall k :: k in m.flows ==> (sel(m.flows[k]) <==> k == f.key);
    assert ModifyMini(m, time, f.insts, sel).flows
        == if Expired(m.flows[f.key], time) then m.flows - {f.key}
           else m.flows[f.key := m.flows[f.key].(insts := f.insts)];
    assert DeleteMini(m, sel).flows == m.flows - {f.key};
  }

  method ModifyStrictPass(ms: seq<Mini>, f: Entry, time: nat) returns (kept: seq<Mini>)
    requires IndexOk(ms)
    ensures kept == Rebuild(ms, (m: Mini) => ModifyMini(m, time, f.insts, (e: Entry) => Strict(f, e)))
  {
    ghost var t := (m: Mini) => ModifyMini(m, time, f.insts, (e: Entry) => Strict(f, e));
    var i := MiniOf(ms, f.mask);
    forall j | 0 <= j < |ms| && j != i
      ensures t(ms[j]) == ms[j]
    {
      StrictElsewhere(ms[j], f, time);
    }
    kept := ms;
    if i < |ms| && f.key in ms[i].flows && ms[i].flows[f.key].priority == f.priority {
      var m := ms[i];
      var e := m.flows[f.key];
      StrictHere(m, f, time);
      RebuildOne(ms, i, t);
      m := m.(flows := if Expired(e, time) then m.flows - {f.key} else m.flows[f.key := e.(insts := f.insts)]);
      kept := ms[..i] + Piece(m) + ms[i + 1..];
    } else {
      if i < |ms| {
        StrictElsewhere(ms[i], f, time);
      }
      RebuildSame(ms, t);
    }
  }

  method DeleteStrictPass(ms: seq<Mini>, f: Entry, time: nat) returns (kept: seq<Mini>)
    requires IndexOk(ms)
    ensures kept == Rebuild(ms, (m: Mini) => DeleteMini(m, (e: Entry) => Strict(f, e)))
  {
    ghost var t := (m: Mini) => DeleteMini(m, (e: Entry) => Strict(f, e));
    var i := MiniOf(ms, f.mask);
    forall j | 0 <= j < |ms| && j != i
      ensures t(ms[j]) == ms[j]
    {
      StrictElsewhere(ms[j], f, time);
    }
    kept := ms;
    if i < |ms| && f.key in ms[i].flows && ms[i].flows[f.key].priority == f.priority {
      StrictHere(ms[i], f, time);
      RebuildOne(ms, i, t);
      kept := ms[..i] + Piece(ms[i].(flows := ms[i].flows - {f.key})) + ms[i + 1..];
    } else {
      if i < |ms| {
        StrictElsewhere(ms[i], f, time);
      }
      RebuildSame(ms, t);
    }
  }

  lemma CountStep(es: set<Entry>, e: Entry, packets: nat, bytes: nat, time: nat)
    requires e in es && !Expired(e, time)
    ensures LazyStep(es, FlowTable.Count(e, packets, bytes), time, Done, es - {e} + {Counted(e, packets, bytes)})
  {
    var op := FlowTable.Count(e, packets, bytes);
    assert Forgets(es, es, time) && Answers(es, op, time, Done);
    assert es - {e} + {Counted(e, packets, bytes)} == Effect(es, op, time, Done);
  }

  class Table {
    var minis: seq<Mini>

    ghost predicate Valid()
      reads this
    {
      IndexOk(minis)
    }

    ghost function Contents(): set<Entry>
      reads this
    {
      Entries(minis)
    }

    constructor ()
      ensures Valid() && Contents() == {}
    {
      minis := [];
    }

    method Find(p: Key, time: nat) returns (r: Option<Entry>)
      requires Valid()
      modifies this
      ensures Valid()
      ensures LazyStep(old(Contents()), Lookup(p), time, Found(r), Contents())
    {
      var kept, at;
      kept, r, at := Search(minis, p, time);
      FindStep(minis, kept, p, time, r, at);
      minis := Touched(kept, r, at, time);
    }

    /** Add an entry to the mini table of its mask, or to a new one. */
    method AddFlow(f: Entry, time: nat)
      requires Valid() && Allowed(Contents(), Add(f))
      modifies this
      ensures Valid()
      ensures LazyStep(old(Contents()), Add(f), time, Done, Contents())
    {
      var e := Stamped(f, time);
      var i := MiniOf(minis, e.mask);
      if i < |minis| {
        InsertEntry(minis, i, e);
        minis := minis[i := minis[i].(flows := minis[i].flows[e.key := e])];
      } else {
        AppendEntry(minis, e);
        minis := minis + [Mini(e.mask, map[e.key := e])];
      }
      ghost var es := old(Contents());
      assert Forgets(es, es, time) && Answers(es, Add(f), time, Done);
    }

    method ModifyFlow(f: Entry, strict: bool, time: nat)
      requires Valid()
      modifies this
      ensures Valid()
      ensures LazyStep(old(Contents()), if strict then ModifyStrict(f) else Modify(f), time, Done, Contents())
    {
      if strict {
        ModifyStrictStep(minis, f, time);
        minis := ModifyStrictPass(minis, f, time);
      } else {
        ModifyStep(minis, f, time);
        minis := ModifyPass(minis, f, time);
      }
    }

    method DeleteFlow(f: Entry, time: nat, strict: bool)
      requires Valid()
      modifies this
      ensures Valid()
      ensures LazyStep(old(Contents()), if strict then DeleteStrict(f) else Delete(f), time, Done, Contents())
    {
      if strict {
        DeleteStrictStep(minis, f, time);
        minis := DeleteStrictPass(minis, f, time);
      } else {
        DeleteStep(minis, f, time);
        minis := DeletePass(minis, f);
      }
    }

    /** Add the packets and bytes of a flow to the counters of a live entry. */
    method Count(e: Entry, packets: nat, bytes: nat, ghost time: nat)
      requires Valid() && e in Contents() && !Expired(e, time)
      modifies this
      ensures Valid()
      ensures Contents() == old(Contents()) - {e} + {Counted(e, packets, bytes)}
      ensures LazyStep(old(Contents()), FlowTable.Count(e, packets, bytes), time, Done, Contents())
    {
      var i := MiniOf(minis, e.mask);
      StoredAt(minis, e);
      var e' := Counted(e, packets, bytes);
      SetEntry(minis, i, e, e');
      minis := minis[i := minis[i].(flows := minis[i].flows[e.key := e'])];
      CountStep(old(Contents()), e, packets, bytes, time);
    }
  }
}
