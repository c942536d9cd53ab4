/** What holds of a peer after any sequence of announcements. */
module BgpRuns {
  import opened BgpDecision
  import opened BgpPeer

  // ----- The incremental decision follows the whole history -----

  /** No announced route of `h` has a shorter AS path. */
  ghost predicate NoShorter(h: set<Route>, r: Route) {
    forall x :: x in h ==> |r.asPath| <= |x.asPath|
  }

  /** Nor one of the same length a lower next hop. */
  ghost predicate Least(h: set<Route>, r: Route) {
    forall x :: x in h ==> |r.asPath| < |x.asPath| || (|r.asPath| == |x.asPath| && r.nextHop <= x.nextHop)
  }

  /** The MED does not decide between the two. */
  predicate Alike(x: Route, y: Route) {
    |x.asPath| == |y.asPath| && As(x) == As(y) ==> x.med == y.med
  }

  /** Routes of one AS and one length have one MED. */
  ghost predicate SameMed(h: set<Route>) {
    forall x, y :: x in h && y in h ==> Alike(x, y)
  }

  lemma SameMedOfMore(h: set<Route>, r: Route, c: Route)
    requires SameMed(h + {r}) && c in h
    ensures SameMed(h) && Alike(r, c)
  {
    assert c in h + {r};
  }

  function Limit(maxPaths: nat): nat {
    if maxPaths == 0 then 1 else maxPaths
  }

  /** `rs` is what the local table should hold for a prefix with the announced routes `h`: shortest paths,
      within the limit, the first with the lowest next hop where the MEDs do not interfere. */
  ghost predicate ListOk(rs: seq<Route>, maxPaths: nat, h: set<Route>) {
    && (rs == [] <==> h == {})
    && (rs != [] ==> NoShorter(h, rs[0]) && (SameMed(h) ==> Least(h, rs[0])) && |rs| <= Limit(maxPaths))
    && (forall x :: x in rs ==> x in h && |x.asPath| == |rs[0].asPath|)
  }

  lemma SelectPair(r: Route, c: Route, p: Route -> bool)
    ensures Select([r, c], p) == (if p(r) then [r] else []) + (if p(c) then [c] else [])
  {
    assert [r, c][1..] == [c];
    assert [c][1..] == [];
    assert Select([c], p) == (if p(c) then [c] else []) + Select([], p);
  }

  /** What the selection between two routes is when the flags say which of them are kept. */
  lemma PairIs(r: Route, c: Route, keepR: bool, keepC: bool)
    requires keepR == Kept([r, c], r) && keepC == Kept([r, c], c)
    ensures multiset(Selection([r, c])) == multiset((if keepR then [r] else []) + (if keepC then [c] else []))
  {
    SelectionKeeps([r, c]);
    SelectPair(r, c, (x: Route) => Kept([r, c], x));
  }

  lemma SameMultiset(s: seq<Route>, t: seq<Route>)
    requires multiset(s) == multiset(t)
    ensures |s| == |t| && forall x :: x in s <==> x in t
  {
    assert |s| == |multiset(s)| && |t| == |multiset(t)|;
    forall x
      ensures x in s <==> x in t
    {
      assert x in multiset(s) <==> x in multiset(t);
    }
  }

  lemma OneLeft(s: seq<Route>, r: Route)
    requires multiset(s) == multiset([r])
    ensures s == [r]
  {
    SameMultiset(s, [r]);
    assert s[0] in s;
  }

  /** A selection between two routes keeps shortest ones, and both only when they are equally short. */
  ghost predicate PairOk(best: seq<Route>, r: Route, c: Route) {
    && best != []
    && (forall x :: x in best ==> (x == r || x == c) && |x.asPath| <= |r.asPath| && |x.asPath| <= |c.asPath|)
    && (|best| != 1 ==> |r.asPath| == |c.asPath|)
    && (Alike(r, c) && |r.asPath| == |c.asPath| ==> |best| == 2 && r in best && c in best)
  }

  lemma PairSelection(r: Route, c: Route)
    ensures PairOk(Selection([r, c]), r, c)
  {
    var keepR, keepC := Kept([r, c], r), Kept([r, c], c);
    var kept := (if keepR then [r] else []) + (if keepC then [c] else []);
    PairIs(r, c, keepR, keepC);
    SameMultiset(Selection([r, c]), kept);
    NonEmptySelection([r, c]);
    KeptOfPair(r, c);
  }

  lemma KeptOfPair(r: Route, c: Route)
    ensures Kept([r, c], r) ==> |r.asPath| <= |c.asPath|
    ensures Kept([r, c], c) ==> |c.asPath| <= |r.asPath|
    ensures Alike(r, c) && |r.asPath| == |c.asPath| ==> Kept([r, c], r) && Kept([r, c], c)
  {
    assert r in [r, c] && c in [r, c];
  }

  /** With one route left the list keeps its head or becomes the announced route alone. */
  lemma SettleOne(best: seq<Route>, rs: seq<Route>, maxPaths: nat, r: Route, h: set<Route>)
    requires ListOk(rs, maxPaths, h) && rs != [] && PairOk(best, r, rs[0]) && |best| == 1
    ensures ListOk(Settle(best, rs, maxPaths, r).0, maxPaths, h + {r})
  {
    assert best[0] in best && rs[0] in rs;
    if SameMed(h + {r}) {
      SameMedOfMore(h, r, rs[0]);
    }
  }

  lemma SettleTie(best: seq<Route>, rs: seq<Route>, maxPaths: nat, r: Route, h: set<Route>)
    requires ListOk(rs, maxPaths, h) && rs != [] && PairOk(best, r, rs[0]) && |best| != 1
    ensures ListOk(Settle(best, rs, maxPaths, r).0, maxPaths, h + {r})
  {
    var chosen := Lowest(best);
    assert rs[0] in rs;
    if SameMed(h + {r}) {
      SameMedOfMore(h, r, rs[0]);
    }
    if !RoutesEqual(chosen, rs[0]) {
      InstallTie(rs, maxPaths, r, h, best);
    }
  }

  lemma InstallMembers(rs: seq<Route>, maxPaths: nat, r: Route)
    requires rs != [] && |rs| <= Limit(maxPaths)
    ensures var after := Install(rs, maxPaths, r);
            after != [] && after[0] == r && |after| <= Limit(maxPaths) && forall x :: x in after ==> x == r || x in rs
  {
  }

  lemma InstallTie(rs: seq<Route>, maxPaths: nat, r: Route, h: set<Route>, best: seq<Route>)
    requires ListOk(rs, maxPaths, h) && rs != [] && PairOk(best, r, rs[0]) && |best| != 1
    requires Lowest(best) == r
    ensures ListOk(Install(rs, maxPaths, r), maxPaths, h + {r})
  {
    InstallMembers(rs, maxPaths, r);
    assert rs[0] in rs;
    assert NoShorter(h + {r}, r);
    if SameMed(h + {r}) {
      SameMedOfMore(h, r, rs[0]);
      assert rs[0] in best && r.nextHop <= rs[0].nextHop;
      assert Least(h + {r}, r);
    }
  }

  /** Comparing an announcement with the first route alone keeps the list right for all that was announced. */
  lemma ChooseOk(rs: seq<Route>, maxPaths: nat, r: Route, h: set<Route>)
    requires ListOk(rs, maxPaths, h)
    ensures ListOk(Choose(rs, maxPaths, r).0, maxPaths, h + {r})
  {
    if rs != [] {
      var best := Selection([r, rs[0]]);
      PairSelection(r, rs[0]);
      if |best| == 1 {
        SettleOne(best, rs, maxPaths, r, h);
      } else {
        SettleTie(best, rs, maxPaths, r, h);
      }
    }
  }

  /** The MED goes before the next hop: a route with a higher MED from the same AS is dropped, though its next hop
      is lower. */
  lemma MedHidesNextHop(c: Route, maxPaths: nat, r: Route)
    requires |r.asPath| == |c.asPath| && As(r) == As(c) && r.med > c.med && r.nextHop < c.nextHop
    ensures Choose([c], maxPaths, r).0 == [c] && !Least({c, r}, c)
  {
    assert r in [r, c] && c in [r, c];
    assert [] + [c] == [c];
    PairIs(r, c, false, true);
    OneLeft(Selection([r, c]), c);
  }

  // ----- The whole table -----

  /** The announced routes of a prefix. */
  ghost function Of(h: set<Route>, k: Prefix): set<Route> {
    set x | x in h && x.prefix == k
  }

  /** The local table holds, for every prefix, what its announced routes call for. */
  ghost predicate LocalOk(t: Rib, maxPaths: nat, h: set<Route>) {
    RibOk(t) && forall k :: ListOk(RoutesOf(t, k), maxPaths, Of(h, k))
  }

  lemma DecideLocalOk(t: Rib, maxPaths: nat, r: Route, h: set<Route>)
    requires LocalOk(t, maxPaths, h)
    ensures LocalOk(Decide(t, maxPaths, r), maxPaths, h + {r})
  {
    DecideOk(t, maxPaths, r);
    var t' := Decide(t, maxPaths, r);
    forall k
      ensures ListOk(RoutesOf(t', k), maxPaths, Of(h + {r}, k))
    {
      if k == r.prefix {
        DecideHere(t, maxPaths, r, h);
      } else {
        assert Of(h + {r}, k) == Of(h, k);
        assert ListOk(RoutesOf(t, k), maxPaths, Of(h, k));
      }
    }
  }

  lemma DecideHere(t: Rib, maxPaths: nat, r: Route, h: set<Route>)
    requires LocalOk(t, maxPaths, h)
    ensures ListOk(RoutesOf(Decide(t, maxPaths, r), r.prefix), maxPaths, Of(h + {r}, r.prefix))
  {
    var k := r.prefix;
    assert ListOk(RoutesOf(t, k), maxPaths, Of(h, k));
    ChooseOk(RoutesOf(t, k), maxPaths, r, Of(h, k));
    assert Of(h + {r}, k) == Of(h, k) + {r};
  }

  ghost function Elements(rs: seq<Route>): set<Route> {
    set r | r in rs
  }

  lemma {:induction false} DecideAllLocalOk(t: Rib, maxPaths: nat, rs: seq<Route>, h: set<Route>)
    requires LocalOk(t, maxPaths, h)
    ensures LocalOk(DecideAll(t, maxPaths, rs), maxPaths, h + Elements(rs))
  {
    if rs == [] {
      assert h + Elements(rs) == h;
    } else {
      var n := |rs| - 1;
      assert forall r :: r in rs <==> r in rs[..n] || r == rs[n];
      assert h + Elements(rs) == (h + Elements(rs[..n])) + {rs[n]};
      DecideAllLocalOk(t, maxPaths, rs[..n], h);
      DecideLocalOk(DecideAll(t, maxPaths, rs[..n]), maxPaths, rs[n], h + Elements(rs[..n]));
    }
  }

  // ----- The output table -----

  /** The advertised route of a prefix is its best local route, in next hop and AS path. */
  ghost predicate Follows(local: Rib, output: Rib, k: Prefix) {
    k in local && local[k] != [] && k in output && output[k] != [] && RoutesEqual(local[k][0], output[k][0])
  }

  /** The peer has advertised exactly its local prefixes, each with its best route. */
  ghost predicate OutputOk(p: Peer) {
    && RibOk(p.local) && RibOk(p.output)
    && (forall k :: k in p.output ==> k in p.local)
    && (forall k :: k in p.local ==> Follows(p.local, p.output, k))
  }

  /** One step of the advertisement. */
  lemma AdvertiseFollows(p: Peer, output: Rib, r: Route)
    requires r.prefix in p.local && p.local[r.prefix] != [] && RibOk(output) && RibOk(p.local)
    ensures RibOk(Advertise(p, output, r))
    ensures Follows(p.local, Advertise(p, output, r), r.prefix)
    ensures forall k :: Follows(p.local, output, k) ==> Follows(p.local, Advertise(p, output, r), k)
    ensures forall k :: k != r.prefix ==> RoutesOf(Advertise(p, output, r), k) == RoutesOf(output, k)
  {
    assert p.local[r.prefix][0] in p.local[r.prefix];
  }

  /** After the advertisement every updated prefix follows the local table, and nothing else changed. */
  lemma {:induction false} AdvertiseAllFollows(p: Peer, output: Rib, rs: seq<Route>)
    requires forall r :: r in rs ==> r.prefix in p.local && p.local[r.prefix] != []
    requires RibOk(output) && RibOk(p.local)
    ensures RibOk(AdvertiseAll(p, output, rs))
    ensures forall k :: Follows(p.local, output, k) ==> Follows(p.local, AdvertiseAll(p, output, rs), k)
    ensures forall r :: r in rs ==> Follows(p.local, AdvertiseAll(p, output, rs), r.prefix)
    ensures forall k :: RoutesOf(AdvertiseAll(p, output, rs), k) == RoutesOf(output, k)
                        || exists r :: r in rs && r.prefix == k
  {
    if rs != [] {
      var n := |rs| - 1;
      AdvertiseAllFollows(p, output, rs[..n]);
      AdvertiseFollows(p, AdvertiseAll(p, output, rs[..n]), rs[n]);
      assert forall r :: r in rs <==> r in rs[..n] || r == rs[n];
    }
  }

  /** The decisions leave the other prefixes alone. */
  lemma {:induction false} DecideAllElsewhere(t: Rib, maxPaths: nat, rs: seq<Route>, k: Prefix)
    requires forall r :: r in rs ==> r.prefix != k
    ensures RoutesOf(DecideAll(t, maxPaths, rs), k) == RoutesOf(t, k)
  {
    if rs != [] {
      var n := |rs| - 1;
      assert rs[n] in rs;
      DecideAllElsewhere(t, maxPaths, rs[..n], k);
    }
  }

  lemma ReceiveOutputOk(p: Peer, u: Update)
    requires OutputOk(p)
    ensures OutputOk(Receive(p, u))
  {
    var rs, p' := Accepted(p, u), Learn(p, u);
    LearnCovers(p, u);
    AdvertiseAllFollows(p', p.output, rs);
    var o := AdvertiseAll(p', p.output, rs);
    forall k | k in p'.local || k in o
      ensures k in p'.local && Follows(p'.local, o, k)
    {
      if r :| r in rs && r.prefix == k {
        assert Follows(p'.local, o, r.prefix);
      } else {
        DecideAllElsewhere(p.local, p.maxPaths, rs, k);
        assert RoutesOf(o, k) == RoutesOf(p.output, k);
        assert k in o <==> RoutesOf(o, k) != [];
      }
    }
  }

  // ----- What is sent -----

  /** A decision sends routes to the forwarding table exactly when it changes the routes of the prefix, and
      only routes it keeps. */
  lemma ChooseSends(rs: seq<Route>, maxPaths: nat, r: Route)
    ensures Choose(rs, maxPaths, r).1 == [] <==> Choose(rs, maxPaths, r).0 == rs
    ensures forall x :: x in Choose(rs, maxPaths, r).1 ==> x in Choose(rs, maxPaths, r).0
  {
    if rs != [] {
      NonEmptySelection([r, rs[0]]);
      SettleSends(Selection([r, rs[0]]), rs, maxPaths, r);
    }
  }

  lemma SettleSends(best: seq<Route>, rs: seq<Route>, maxPaths: nat, r: Route)
    requires best != [] && rs != []
    ensures Settle(best, rs, maxPaths, r).1 == [] <==> Settle(best, rs, maxPaths, r).0 == rs
    ensures forall x :: x in Settle(best, rs, maxPaths, r).1 ==> x in Settle(best, rs, maxPaths, r).0
  {
    var after := Settle(best, rs, maxPaths, r).0;
    assert after == rs || |after| != |rs| || after[0] != rs[0];
  }

  /** The announcement of a prefix's best route to a neighbour. */
  ghost function Telling(p: Peer, n: nat, k: Prefix): Announcement
    requires n in p.neighbors && k in p.local && p.local[k] != []
  {
    Announcement(n, k, p.neighbors[n].localIp, [p.asn] + p.local[k][0].asPath)
  }

  ghost predicate Updated(rs: seq<Route>, k: Prefix) {
    exists r :: r in rs && r.prefix == k
  }

  /** The best route of the prefix has not been advertised, and the neighbour is one to tell. */
  ghost predicate Due(p: Peer, output: Rib, sender: nat, n: nat, k: Prefix) {
    k in p.local && p.local[k] != [] && !Follows(p.local, output, k) && n in p.neighbors && n != sender
  }

  lemma AnnouncedIff(p: Peer, output: Rib, r: Route, a: Announcement)
    requires r.prefix in p.local && p.local[r.prefix] != []
    ensures a in Announced(p, output, r) <==>
            a.prefix == r.prefix && Due(p, output, r.neighbor, a.to, a.prefix) && a == Telling(p, a.to, a.prefix)
  {
  }

  lemma UpdatedNext(rs: seq<Route>, k: Prefix)
    requires rs != []
    ensures Updated(rs, k) <==> Updated(rs[..|rs| - 1], k) || rs[|rs| - 1].prefix == k
  {
    var n := |rs| - 1;
    assert forall r :: r in rs <==> r in rs[..n] || r == rs[n];
  }

  /** The advertisement settles the updated prefixes and no others. */
  lemma FollowsAfter(p: Peer, output: Rib, rs: seq<Route>, k: Prefix)
    requires RibOk(output) && RibOk(p.local)
    requires forall r :: r in rs ==> r.prefix in p.local && p.local[r.prefix] != []
    ensures Follows(p.local, AdvertiseAll(p, output, rs), k) <==> Updated(rs, k) || Follows(p.local, output, k)
  {
    AdvertiseAllFollows(p, output, rs);
    assert RoutesOf(AdvertiseAll(p, output, rs), k) == RoutesOf(output, k) || Updated(rs, k);
  }

  lemma {:induction false} AnnouncedAllIff(p: Peer, output: Rib, rs: seq<Route>, sender: nat, a: Announcement)
    requires RibOk(output) && RibOk(p.local)
    requires forall r :: r in rs ==> r.prefix in p.local && p.local[r.prefix] != [] && r.neighbor == sender
    ensures a in AnnouncedAll(p, output, rs) <==>
            Updated(rs, a.prefix) && Due(p, output, sender, a.to, a.prefix) && a == Telling(p, a.to, a.prefix)
  {
    if rs != [] {
      var n := |rs| - 1;
      AnnouncedAllIff(p, output, rs[..n], sender, a);
      UpdatedNext(rs, a.prefix);
      FollowsAfter(p, output, rs[..n], a.prefix);
      AnnouncedIff(p, AdvertiseAll(p, output, rs[..n]), rs[n], a);
    }
  }

  /** An update makes the peer announce exactly the best routes that it changed, with the peer's AS in front,
      to every neighbour but the one it came from. */
  lemma SentIff(p: Peer, u: Update, a: Announcement)
    requires RibOk(p.local) && RibOk(p.output)
    ensures a in Sent(p, u) <==>
            && Updated(Accepted(p, u), a.prefix)
            && Due(Learn(p, u), p.output, u.sender, a.to, a.prefix)
            && a == Telling(Learn(p, u), a.to, a.prefix)
  {
    LearnCovers(p, u);
    AnnouncedAllIff(Learn(p, u), p.output, Accepted(p, u), u.sender, a);
  }

  // ----- Runs -----

  /** What happens to a peer: an update arrives, or the set of established sessions changes. */
  datatype Input = Recv(update: Update) | Sessions(neighbors: map<nat, Session>)

  function Take(p: Peer, i: Input): Peer
    requires RibOk(p.local)
  {
    match i
    case Recv(u) => Receive(p, u)
    case Sessions(n) => p.(neighbors := n)
  }

  /** The routes a peer accepts from an input. */
  ghost function Routes(p: Peer, i: Input): set<Route> {
    if i.Recv? then Elements(Accepted(p, i.update)) else {}
  }

  /** The peer after a run from `p`, with what it has accepted on the way. */
  ghost function PeerAfter(p: Peer, run: seq<Input>): (q: Peer)
    requires OutputOk(p)
    ensures OutputOk(q) && q.maxPaths == p.maxPaths && q.asn == p.asn && q.allowAsIn == p.allowAsIn
    decreases |run|
  {
    if run == [] then p
    else
      var q := PeerAfter(p, run[..|run| - 1]);
      var i := run[|run| - 1];
      if i.Recv? then ReceiveOutputOk(q, i.update); Take(q, i) else Take(q, i)
  }

  ghost function AcceptedIn(p: Peer, run: seq<Input>): set<Route> {
    if run == [] then {} else AcceptedIn(p, run[..|run| - 1]) + Routes(p, run[|run| - 1])
  }

  /** For every run of announcements, from empty tables: the routes of a prefix are those its announcements
      call for. With `PeerAfter`: what has been advertised follows the best ones. */
  lemma {:induction false} LocalTableFollowsHistory(p: Peer, run: seq<Input>)
    requires p.local == map[] && OutputOk(p)
    ensures LocalOk(PeerAfter(p, run).local, p.maxPaths, AcceptedIn(p, run))
  {
    if run == [] {
      forall k
        ensures ListOk(RoutesOf(p.local, k), p.maxPaths, Of({}, k))
      {
        assert Of({}, k) == {};
      }
    } else {
      var n := |run| - 1;
      LocalTableFollowsHistory(p, run[..n]);
      var q := PeerAfter(p, run[..n]);
      if run[n].Recv? {
        DecideAllLocalOk(q.local, q.maxPaths, Accepted(q, run[n].update), AcceptedIn(p, run[..n]));
      } else {
        assert AcceptedIn(p, run) == AcceptedIn(p, run[..n]);
      }
    }
  }

  /** The same, spelled out for one prefix. */
  lemma BestRouteOfEveryRun(p: Peer, run: seq<Input>, k: Prefix)
    requires p.local == map[] && OutputOk(p)
    ensures var q, h := PeerAfter(p, run), Of(AcceptedIn(p, run), k);
            && (k in q.local <==> h != {})
            && (k in q.output <==> h != {})
            && (h != {} ==>
                  && 1 <= |q.local[k]| <= Limit(p.maxPaths)
                  && NoShorter(h, q.local[k][0]) && (SameMed(h) ==> Least(h, q.local[k][0]))
                  && (forall x :: x in q.local[k] ==> x in h && |x.asPath| == |q.local[k][0].asPath|)
                  && |q.output[k]| > 0 && RoutesEqual(q.local[k][0], q.output[k][0]))
  {
    LocalTableFollowsHistory(p, run);
    var q := PeerAfter(p, run);
    assert ListOk(RoutesOf(q.local, k), p.maxPaths, Of(AcceptedIn(p, run), k));
    if k in q.local {
      assert Follows(q.local, q.output, k);
    }
  }
}
