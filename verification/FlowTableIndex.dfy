/** The index behind a flow table: a list of hash tables, one per mask (src/net/flow_table.c). Each
    operation is a loop over the list and is proved to be a step of the plain list of entries. */
module FlowTableIndex {
  import opened FlowKey
  import opened FlowTable

  /** The entries of one mask, by key. */
  datatype Mini = Mini(mask: Key, flows: map<Key, Entry>)

  ghost predicate MiniOk(m: Mini) {
    forall k :: k in m.flows ==> m.flows[k].key == k && m.flows[k].mask == m.mask && ApplyMask(k, m.mask) == k
  }

  /** Masks are distinct and no mini table is empty. */
  ghost predicate IndexOk(ms: seq<Mini>) {
    && (forall i, j :: 0 <= i < j < |ms| ==> ms[i].mask != ms[j].mask)
    && (forall i :: 0 <= i < |ms| ==> MiniOk(ms[i]) && ms[i].flows != map[])
  }

  ghost function Entries(ms: seq<Mini>): set<Entry> {
    set i, k | 0 <= i < |ms| && k in ms[i].flows :: ms[i].flows[k]
  }

  lemma StoredAt(ms: seq<Mini>, e: Entry)
    requires IndexOk(ms) && e in Entries(ms)
    ensures ApplyMask(e.key, e.mask) == e.key
    ensures exists i :: 0 <= i < |ms| && ms[i].mask == e.mask && e.key in ms[i].flows && ms[i].flows[e.key] == e
  {
    var i, k :| 0 <= i < |ms| && k in ms[i].flows && ms[i].flows[k] == e;
    assert MiniOk(ms[i]);
  }

  // ----- Passing over the list, dropping mini tables that become empty -----

  /** What a pass that turns each mini table `m` into `t(m)` leaves of the list. */
  function Rebuild(ms: seq<Mini>, t: Mini -> Mini): seq<Mini> {
    if ms == [] then []
    else Rebuild(ms[..|ms| - 1], t) + (if t(ms[|ms| - 1]).flows == map[] then [] else [t(ms[|ms| - 1])])
  }

  /** `t` keeps masks and keys in order. */
  ghost predicate Tame(ms: seq<Mini>, t: Mini -> Mini) {
    forall m :: m in ms ==> t(m).mask == m.mask && MiniOk(t(m))
  }

  lemma {:induction false} RebuildOk(ms: seq<Mini>, t: Mini -> Mini)
    requires IndexOk(ms) && Tame(ms, t)
    ensures IndexOk(Rebuild(ms, t))
    ensures forall m :: m in Rebuild(ms, t) <==> exists x :: x in ms && t(x) == m && m.flows != map[]
  {
    if ms != [] {
      var ms0, last := ms[..|ms| - 1], ms[|ms| - 1];
      assert forall m :: m in ms <==> m in ms0 || m == last;
      RebuildOk(ms0, t);
      var r := Rebuild(ms0, t);
      forall i | 0 <= i < |r|
        ensures r[i].mask != last.mask
      {
        assert r[i] in r;
        var x :| x in ms0 && t(x) == r[i];
      }
    }
  }

  lemma RebuildEntries(ms: seq<Mini>, t: Mini -> Mini, e: Entry)
    requires IndexOk(ms) && Tame(ms, t)
    ensures e in Entries(Rebuild(ms, t)) <==> exists m :: m in ms && e.key in t(m).flows && t(m).flows[e.key] == e
  {
    RebuildOk(ms, t);
    var r := Rebuild(ms, t);
    if e in Entries(r) {
      StoredAt(r, e);
      var i :| 0 <= i < |r| && r[i].mask == e.mask && e.key in r[i].flows && r[i].flows[e.key] == e;
      assert r[i] in r;
    }
    if m :| m in ms && e.key in t(m).flows && t(m).flows[e.key] == e {
      assert t(m) in r;
      var i :| 0 <= i < |r| && r[i] == t(m);
      assert r[i].flows[e.key] == e;
    }
  }

  lemma MemberEntries(ms: seq<Mini>, e: Entry)
    requires IndexOk(ms)
    ensures e in Entries(ms) <==> exists m :: m in ms && e.key in m.flows && m.flows[e.key] == e
  {
    if e in Entries(ms) {
      StoredAt(ms, e);
    }
    if m :| m in ms && e.key in m.flows && m.flows[e.key] == e {
      var i :| 0 <= i < |ms| && ms[i] == m;
      assert ms[i].flows[e.key] == e;
    }
  }

  /** A pass that leaves the tables of `ms` alone. */
  lemma {:induction false} RebuildSame(ms: seq<Mini>, t: Mini -> Mini)
    requires forall i :: 0 <= i < |ms| ==> t(ms[i]) == ms[i] && ms[i].flows != map[]
    ensures Rebuild(ms, t) == ms
  {
    if ms != [] {
      RebuildSame(ms[..|ms| - 1], t);
    }
  }

  lemma {:induction false} RebuildConcat(a: seq<Mini>, b: seq<Mini>, t: Mini -> Mini)
    ensures Rebuild(a + b, t) == Rebuild(a, t) + Rebuild(b, t)
    decreases |b|
  {
    if b == [] {
      assert a + b == a;
    } else {
      assert (a + b)[..|a + b| - 1] == a + b[..|b| - 1];
      RebuildConcat(a, b[..|b| - 1], t);
    }
  }

  // ----- What each operation does to a mini table -----

  /** The entries without those that are selected and expired. */
  function Swept(flows: map<Key, Entry>, time: nat, selected: Entry -> bool): map<Key, Entry> {
    map k | k in flows && !(selected(flows[k]) && Expired(flows[k], time)) :: flows[k]
  }

  /** The entries with the instructions of the selected ones replaced. */
  function Replaced(flows: map<Key, Entry>, insts: Instructions, selected: Entry -> bool): map<Key, Entry> {
    map k | k in flows :: if selected(flows[k]) then flows[k].(insts := insts) else flows[k]
  }

  predicate Hit(p: Key, e: Entry) {
    Matches(p, e.key, e.mask)
  }

  predicate Strict(f: Entry, e: Entry) {
    e.mask == f.mask && e.key == f.key && e.priority == f.priority
  }

  predicate Selected(key: Key, mask: Key, e: Entry) {
    NonStrict(key, mask, e.key, e.mask)
  }

  function SweepMini(m: Mini, time: nat, selected: Entry -> bool): Mini {
    m.(flows := Swept(m.flows, time, selected))
  }

  function ModifyMini(m: Mini, time: nat, insts: Instructions, selected: Entry -> bool): Mini {
    m.(flows := Replaced(Swept(m.flows, time, selected), insts, selected))
  }

  function DeleteMini(m: Mini, selected: Entry -> bool): Mini {
    m.(flows := map k | k in m.flows && !selected(m.flows[k]) :: m.flows[k])
  }

  /** A pass that sweeps the selected entries drops only expired ones. */
  lemma SweepForgets(ms: seq<Mini>, time: nat, selected: Entry -> bool)
    requires IndexOk(ms)
    ensures var r := Rebuild(ms, (m: Mini) => SweepMini(m, time, selected));
            && IndexOk(r)
            && Entries(r) == (set e | e in Entries(ms) && !(selected(e) && Expired(e, time)))
            && Forgets(Entries(ms), Entries(r), time)
  {
    var t := (m: Mini) => SweepMini(m, time, selected);
    assert Tame(ms, t);
    RebuildOk(ms, t);
    var r := Rebuild(ms, t);
    forall e
      ensures e in Entries(r) <==> e in Entries(ms) && !(selected(e) && Expired(e, time))
    {
      RebuildEntries(ms, t, e);
      MemberEntries(ms, e);
    }
  }

  lemma ModifyOrigin(ms: seq<Mini>, time: nat, insts: Instructions, selected: Entry -> bool, x: Entry)
    requires IndexOk(ms) && x in Entries(Rebuild(ms, (m: Mini) => ModifyMini(m, time, insts, selected)))
    ensures x in Modified((set e | e in Entries(ms) && !(selected(e) && Expired(e, time))), time, insts, selected)
  {
    var t := (m: Mini) => ModifyMini(m, time, insts, selected);
    assert Tame(ms, t);
    RebuildEntries(ms, t, x);
    var m :| m in ms && x.key in t(m).flows && t(m).flows[x.key] == x;
    ModifiedFrom(m, time, insts, selected, x);
    MemberEntries(ms, m.flows[x.key]);
  }

  /** Where an entry of a modified mini table comes from. */
  lemma ModifiedFrom(m: Mini, time: nat, insts: Instructions, selected: Entry -> bool, x: Entry)
    requires MiniOk(m) && x.key in ModifyMini(m, time, insts, selected).flows
    requires ModifyMini(m, time, insts, selected).flows[x.key] == x
    ensures x.key in m.flows
    ensures var e := m.flows[x.key];
            && !(selected(e) && Expired(e, time))
            && x == if selected(e) && !Expired(e, time) then e.(insts := insts) else e
  {
  }

  lemma ModifyOutcome(ms: seq<Mini>, time: nat, insts: Instructions, selected: Entry -> bool, e: Entry)
    requires IndexOk(ms) && e in Entries(ms) && !(selected(e) && Expired(e, time))
    ensures (if selected(e) then e.(insts := insts) else e)
            in Entries(Rebuild(ms, (m: Mini) => ModifyMini(m, time, insts, selected)))
  {
    var t := (m: Mini) => ModifyMini(m, time, insts, selected);
    assert Tame(ms, t);
    MemberEntries(ms, e);
    var m :| m in ms && e.key in m.flows && m.flows[e.key] == e;
    var x := if selected(e) then e.(insts := insts) else e;
    assert t(m).flows[x.key] == x;
    RebuildEntries(ms, t, x);
  }

  /** A modifying pass modifies the live selected entries and drops the expired ones. */
  lemma ModifyRebuilds(ms: seq<Mini>, time: nat, insts: Instructions, selected: Entry -> bool)
    requires IndexOk(ms)
    ensures var r, es0 := Rebuild(ms, (m: Mini) => ModifyMini(m, time, insts, selected)),
                          set e | e in Entries(ms) && !(selected(e) && Expired(e, time));
            && IndexOk(r) && Entries(r) == Modified(es0, time, insts, selected)
  {
    var t := (m: Mini) => ModifyMini(m, time, insts, selected);
    assert Tame(ms, t);
    RebuildOk(ms, t);
    var r, es0 := Rebuild(ms, t), set e | e in Entries(ms) && !(selected(e) && Expired(e, time));
    forall x | x in Entries(r)
      ensures x in Modified(es0, time, insts, selected)
    {
      ModifyOrigin(ms, time, insts, selected, x);
    }
    forall x | x in Modified(es0, time, insts, selected)
      ensures x in Entries(r)
    {
      var e :| e in es0 && x == if selected(e) && !Expired(e, time) then e.(insts := insts) else e;
      ModifyOutcome(ms, time, insts, selected, e);
    }
  }

  lemma DeleteRebuilds(ms: seq<Mini>, selected: Entry -> bool)
    requires IndexOk(ms)
    ensures var r := Rebuild(ms, (m: Mini) => DeleteMini(m, selected));
            IndexOk(r) && Entries(r) == (set e | e in Entries(ms) && !selected(e))
  {
    var t := (m: Mini) => DeleteMini(m, selected);
    assert Tame(ms, t);
    RebuildOk(ms, t);
    forall e
      ensures e in Entries(Rebuild(ms, t)) <==> e in Entries(ms) && !selected(e)
    {
      RebuildEntries(ms, t, e);
      MemberEntries(ms, e);
    }
  }

  // ----- Each pass is a step of the plain list -----

  /** On stored entries the table's test is subsumption. */
  lemma SelectedCovers(ms: seq<Mini>, key: Key, mask: Key, e: Entry)
    requires IndexOk(ms) && e in Entries(ms)
    ensures Selected(key, mask, e) <==> Subsumes(key, mask, e.key, e.mask)
  {
    StoredAt(ms, e);
    NonStrictIffSubsumes(key, mask, e.key, e.mask);
  }

  lemma ModifiedAgrees(es: set<Entry>, time: nat, insts: Instructions, a: Entry -> bool, b: Entry -> bool)
    requires forall e :: e in es ==> a(e) == b(e)
    ensures Modified(es, time, insts, a) == Modified(es, time, insts, b)
  {
  }

  lemma ModifyStep(ms: seq<Mini>, f: Entry, time: nat)
    requires IndexOk(ms)
    ensures var r := Rebuild(ms, (m: Mini) => ModifyMini(m, time, f.insts, (e: Entry) => Selected(f.key, f.mask, e)));
            IndexOk(r) && LazyStep(Entries(ms), Modify(f), time, Done, Entries(r))
  {
    var sel := (e: Entry) => Selected(f.key, f.mask, e);
    ModifyRebuilds(ms, time, f.insts, sel);
    var es0 := set e | e in Entries(ms) && !(sel(e) && Expired(e, time));
    forall e | e in es0
      ensures sel(e) == Covers(f, e)
    {
      SelectedCovers(ms, f.key, f.mask, e);
    }
    ModifiedAgrees(es0, time, f.insts, sel, (e: Entry) => Covers(f, e));
    assert Forgets(Entries(ms), es0, time) && Answers(es0, Modify(f), time, Done);
  }

  lemma ModifyStrictStep(ms: seq<Mini>, f: Entry, time: nat)
    requires IndexOk(ms)
    ensures var r := Rebuild(ms, (m: Mini) => ModifyMini(m, time, f.insts, (e: Entry) => Strict(f, e)));
            IndexOk(r) && LazyStep(Entries(ms), ModifyStrict(f), time, Done, Entries(r))
  {
    var sel := (e: Entry) => Strict(f, e);
    ModifyRebuilds(ms, time, f.insts, sel);
    var es0 := set e | e in Entries(ms) && !(sel(e) && Expired(e, time));
    ModifiedAgrees(es0, time, f.insts, sel, (e: Entry) => SameMatch(e, f));
    assert Forgets(Entries(ms), es0, time) && Answers(es0, ModifyStrict(f), time, Done);
  }

  lemma DeleteStep(ms: seq<Mini>, f: Entry, time: nat)
    requires IndexOk(ms)
    ensures var r := Rebuild(ms, (m: Mini) => DeleteMini(m, (e: Entry) => Selected(f.key, f.mask, e)));
            IndexOk(r) && LazyStep(Entries(ms), Delete(f), time, Done, Entries(r))
  {
    var sel := (e: Entry) => Selected(f.key, f.mask, e);
    DeleteRebuilds(ms, sel);
    forall e | e in Entries(ms)
      ensures sel(e) == Covers(f, e)
    {
      SelectedCovers(ms, f.key, f.mask, e);
    }
    assert Forgets(Entries(ms), Entries(ms), time) && Answers(Entries(ms), Delete(f), time, Done);
  }

  lemma DeleteStrictStep(ms: seq<Mini>, f: Entry, time: nat)
    requires IndexOk(ms)
    ensures var r := Rebuild(ms, (m: Mini) => DeleteMini(m, (e: Entry) => Strict(f, e)));
            IndexOk(r) && LazyStep(Entries(ms), DeleteStrict(f), time, Done, Entries(r))
  {
    DeleteRebuilds(ms, (e: Entry) => Strict(f, e));
    assert Forgets(Entries(ms), Entries(ms), time) && Answers(Entries(ms), DeleteStrict(f), time, Done);
  }

  lemma StatsStep(ms: seq<Mini>, key: Key, mask: Key, time: nat)
    requires IndexOk(ms)
    ensures var r := Rebuild(ms, (m: Mini) => SweepMini(m, time, (e: Entry) => Selected(key, mask, e)));
            && IndexOk(r)
            && LazyStep(Entries(ms), Stats(key, mask), time,
                        Listed(set e | e in Entries(r) && Selected(key, mask, e)), Entries(r))
  {
    var sel := (e: Entry) => Selected(key, mask, e);
    SweepForgets(ms, time, sel);
    var r := Rebuild(ms, (m: Mini) => SweepMini(m, time, sel));
    forall e | e in Entries(r)
      ensures sel(e) == Subsumes(key, mask, e.key, e.mask)
    {
      SelectedCovers(ms, key, mask, e);
    }
    StatsAnswer(Entries(ms), Entries(r), key, mask, time);
  }

  /** Once the expired entries a statistics request covers are gone, all it covers are live. */
  lemma StatsAnswer(all: set<Entry>, es: set<Entry>, key: Key, mask: Key, time: nat)
    requires Forgets(all, es, time)
    requires forall e :: e in es ==> Selected(key, mask, e) == Subsumes(key, mask, e.key, e.mask)
    requires forall e :: e in es && Selected(key, mask, e) ==> !Expired(e, time)
    ensures LazyStep(all, Stats(key, mask), time, Listed(set e | e in es && Selected(key, mask, e)), es)
  {
    var a := Listed(set e | e in es && Selected(key, mask, e));
    assert a.entries == set e | e in es && !Expired(e, time) && Subsumes(key, mask, e.key, e.mask);
    assert Answers(es, Stats(key, mask), time, a);
    assert es == Effect(es, Stats(key, mask), time, a);
  }
}
