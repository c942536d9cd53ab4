/** One BGP peer (horse/bgp_peer/peer.py, horse/bgp_peer/rib.py): its RIBs, the incremental decision
    process with multiple paths, and the announcements it makes. */
module BgpPeer {
  import opened BgpDecision

  /** A route table: the routes of a prefix, best first. */
  type Rib = map<Prefix, seq<Route>>

  datatype Session = Session(asn: nat, localIp: nat)

  datatype Peer = Peer(
    asn: nat, allowAsIn: bool, maxPaths: nat, prefixes: set<Prefix>,
    neighbors: map<nat, Session>, input: map<nat, map<Prefix, Route>>, local: Rib, output: Rib)

  /** A BGP update: one set of attributes for the prefixes it announces, each with its next hop. */
  datatype Update = Update(
    sender: nat, senderAs: nat, origin: string, asPath: seq<nat>, communities: string, med: int,
    atomicAggregate: string, announced: seq<(nat, Prefix)>)

  /** A route announced to a neighbour. */
  datatype Announcement = Announcement(to: nat, prefix: Prefix, nextHop: nat, asPath: seq<nat>)

  predicate RoutesEqual(a: Route, b: Route) {
    a.nextHop == b.nextHop && a.asPath == b.asPath
  }

  function AdjUpdate(t: map<nat, map<Prefix, Route>>, r: Route): map<nat, map<Prefix, Route>> {
    t[r.neighbor := (if r.neighbor in t then t[r.neighbor] else map[])[r.prefix := r]]
  }

  // ----- Receiving an update -----

  function RouteOf(u: Update, a: (nat, Prefix)): Route {
    Route(a.1, u.sender, u.senderAs, a.0, u.origin, u.asPath, u.communities, u.med, u.atomicAggregate)
  }

  /** The routes of an update, none when the peer finds its own AS in the path. */
  function Accepted(p: Peer, u: Update): seq<Route> {
    if !p.allowAsIn && p.asn in u.asPath then []
    else seq(|u.announced|, i requires 0 <= i < |u.announced| => RouteOf(u, u.announced[i]))
  }

  function AddAll(t: map<nat, map<Prefix, Route>>, rs: seq<Route>): map<nat, map<Prefix, Route>> {
    if rs == [] then t else AdjUpdate(AddAll(t, rs[..|rs| - 1]), rs[|rs| - 1])
  }

  // ----- The decision process -----

  /** Every listed prefix has a route, and only routes of its own. */
  predicate RibOk(t: Rib) {
    forall k :: k in t ==> t[k] != [] && forall r :: r in t[k] ==> r.prefix == k
  }

  lemma SelectionMembers(routes: seq<Route>)
    ensures forall x :: x in Selection(routes) <==> x in routes && Kept(routes, x)
    ensures routes != [] ==> Selection(routes) != []
  {
    SelectionKeeps(routes);
    NonEmptySelection(routes);
    SelectMembers(routes, (r: Route) => Kept(routes, r));
    forall x
      ensures x in Selection(routes) <==> x in routes && Kept(routes, x)
    {
      assert x in Selection(routes) <==> x in multiset(Selection(routes));
    }
  }

  /** The routes of a prefix once a tied route that is not the current best is put in front: alone, or
      followed by the others as far as the paths go. */
  function Install(rs: seq<Route>, maxPaths: nat, r: Route): seq<Route>
    requires rs != []
  {
    if maxPaths == 0 then [r]
    else if |rs| + 1 <= maxPaths then [r] + rs
    else ([r] + rs)[..|rs|]
  }

  /** The routes of a prefix after an announced route `r` when `best` are the better ones of it and the
      current best, and the routes sent to the forwarding table. */
  function Settle(best: seq<Route>, rs: seq<Route>, maxPaths: nat, r: Route): (seq<Route>, seq<Route>)
    requires best != [] && rs != []
  {
    if |best| == 1 then
      if RoutesEqual(best[0], rs[0]) then (rs, []) else ([best[0]], [best[0]])
    else
      var chosen := Lowest(best);
      if !RoutesEqual(chosen, rs[0]) then (Install(rs, maxPaths, chosen), [chosen])
      else if |rs| + 1 <= maxPaths then (rs + [r], [r])
      else (rs, [])
  }

  function Choose(rs: seq<Route>, maxPaths: nat, r: Route): (seq<Route>, seq<Route>) {
    if rs == [] then ([r], [r])
    else
      NonEmptySelection([r, rs[0]]);
      Settle(Selection([r, rs[0]]), rs, maxPaths, r)
  }

  lemma SettleMembers(best: seq<Route>, rs: seq<Route>, maxPaths: nat, r: Route)
    requires best != [] && rs != [] && forall x :: x in best ==> x == r || x == rs[0]
    ensures Settle(best, rs, maxPaths, r).0 != []
    ensures forall x :: x in Settle(best, rs, maxPaths, r).0 ==> x == r || x in rs
    ensures forall x :: x in Settle(best, rs, maxPaths, r).1 ==> x == r || x in rs
  {
    assert best[0] in best;
  }

  /** A choice keeps at least one route and adds none but the announced one. */
  lemma ChooseMembers(rs: seq<Route>, maxPaths: nat, r: Route)
    ensures Choose(rs, maxPaths, r).0 != []
    ensures forall x :: x in Choose(rs, maxPaths, r).0 ==> x == r || x in rs
    ensures forall x :: x in Choose(rs, maxPaths, r).1 ==> x == r || x in rs
  {
    if rs != [] {
      SelectionMembers([r, rs[0]]);
      SettleMembers(Selection([r, rs[0]]), rs, maxPaths, r);
    }
  }

  function RoutesOf(t: Rib, k: Prefix): seq<Route> {
    if k in t then t[k] else []
  }

  function Decide(t: Rib, maxPaths: nat, r: Route): Rib {
    t[r.prefix := Choose(RoutesOf(t, r.prefix), maxPaths, r).0]
  }

  lemma DecideOk(t: Rib, maxPaths: nat, r: Route)
    requires RibOk(t)
    ensures RibOk(Decide(t, maxPaths, r))
  {
    ChooseMembers(RoutesOf(t, r.prefix), maxPaths, r);
  }

  function DecideAll(t: Rib, maxPaths: nat, rs: seq<Route>): Rib {
    if rs == [] then t else Decide(DecideAll(t, maxPaths, rs[..|rs| - 1]), maxPaths, rs[|rs| - 1])
  }

  /** The routes the decisions send to the forwarding table, in order. */
  function FibAll(t: Rib, maxPaths: nat, rs: seq<Route>): seq<Route> {
    if rs == [] then []
    else
      var n := |rs| - 1;
      FibAll(t, maxPaths, rs[..n]) + Choose(RoutesOf(DecideAll(t, maxPaths, rs[..n]), rs[n].prefix), maxPaths, rs[n]).1
  }

  // ----- Propagation -----

  /** The output table after one of the updates: it follows the best local route. */
  function Advertise(p: Peer, output: Rib, r: Route): Rib
    requires r.prefix in p.local && p.local[r.prefix] != []
  {
    if Unchanged(p, output, r) then output else output[r.prefix := [p.local[r.prefix][0]]]
  }

  predicate Unchanged(p: Peer, output: Rib, r: Route)
    requires r.prefix in p.local && p.local[r.prefix] != []
  {
    r.prefix in output && output[r.prefix] != [] && RoutesEqual(p.local[r.prefix][0], output[r.prefix][0])
  }

  /** What is announced for one of the updates: a changed best route, to every neighbour but the sender,
      with the peer's own AS in front of the path. */
  function Announced(p: Peer, output: Rib, r: Route): set<Announcement>
    requires r.prefix in p.local && p.local[r.prefix] != []
  {
    if Unchanged(p, output, r) then {}
    else
      set n | n in p.neighbors && n != r.neighbor ::
        Announcement(n, r.prefix, p.neighbors[n].localIp, [p.asn] + p.local[r.prefix][0].asPath)
  }

  /** Every updated prefix has a local route to announce. */
  predicate Listed(t: Rib, rs: seq<Route>) {
    forall r :: r in rs ==> r.prefix in t && t[r.prefix] != []
  }

  function AdvertiseAll(p: Peer, output: Rib, rs: seq<Route>): Rib
    requires Listed(p.local, rs)
  {
    if rs == [] then output else Advertise(p, AdvertiseAll(p, output, rs[..|rs| - 1]), rs[|rs| - 1])
  }

  function AnnouncedAll(p: Peer, output: Rib, rs: seq<Route>): set<Announcement>
    requires Listed(p.local, rs)
  {
    if rs == [] then {}
    else AnnouncedAll(p, output, rs[..|rs| - 1]) + Announced(p, AdvertiseAll(p, output, rs[..|rs| - 1]), rs[|rs| - 1])
  }

  // ----- A whole update -----

  lemma {:induction false} DecideAllOk(t: Rib, maxPaths: nat, rs: seq<Route>)
    requires RibOk(t)
    ensures RibOk(DecideAll(t, maxPaths, rs))
    ensures forall k :: k in DecideAll(t, maxPaths, rs) <==> k in t || exists r :: r in rs && r.prefix == k
  {
    if rs != [] {
      var n := |rs| - 1;
      DecideAllOk(t, maxPaths, rs[..n]);
      DecideOk(DecideAll(t, maxPaths, rs[..n]), maxPaths, rs[n]);
      assert forall r :: r in rs <==> r in rs[..n] || r == rs[n];
    }
  }

  /** Every route of the table was announced or was there before. */
  lemma {:induction false} DecideAllMembers(t: Rib, maxPaths: nat, rs: seq<Route>, k: Prefix, x: Route)
    requires x in RoutesOf(DecideAll(t, maxPaths, rs), k)
    ensures x in rs || x in RoutesOf(t, k)
  {
    if rs != [] {
      var n := |rs| - 1;
      var t' := DecideAll(t, maxPaths, rs[..n]);
      if k == rs[n].prefix {
        ChooseMembers(RoutesOf(t', k), maxPaths, rs[n]);
      }
      if x != rs[n] {
        DecideAllMembers(t, maxPaths, rs[..n], k, x);
      }
    }
  }

  /** The peer's tables after the input and local RIBs have taken an update in. */
  function Learn(p: Peer, u: Update): Peer
    requires RibOk(p.local)
  {
    var rs := Accepted(p, u);
    p.(input := AddAll(p.input, rs), local := DecideAll(p.local, p.maxPaths, rs))
  }

  lemma LearnCovers(p: Peer, u: Update)
    requires RibOk(p.local)
    ensures RibOk(Learn(p, u).local)
    ensures forall r :: r in Accepted(p, u) ==> r.prefix in Learn(p, u).local && Learn(p, u).local[r.prefix] != []
  {
    DecideAllOk(p.local, p.maxPaths, Accepted(p, u));
  }

  function Receive(p: Peer, u: Update): Peer
    requires RibOk(p.local)
  {
    LearnCovers(p, u);
    var p' := Learn(p, u);
    p'.(output := AdvertiseAll(p', p.output, Accepted(p, u)))
  }

  function Sent(p: Peer, u: Update): set<Announcement>
    requires RibOk(p.local)
  {
    LearnCovers(p, u);
    AnnouncedAll(Learn(p, u), p.output, Accepted(p, u))
  }

  /** What a peer tells a neighbour whose session has come up: the routes it has advertised, except those
      learnt from that neighbour, and its own prefixes. */
  function Introduction(p: Peer, n: nat): set<Announcement>
    requires n in p.neighbors && RibOk(p.output)
  {
    (set k | k in p.output && p.output[k][0].neighbor != n ::
       Announcement(n, k, p.neighbors[n].localIp, [p.asn] + p.output[k][0].asPath))
    + (set k | k in p.prefixes :: Announcement(n, k, p.neighbors[n].localIp, [p.asn]))
  }
}
