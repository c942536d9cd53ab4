/** The peer as an object: its tables are changed in place, step by step. */
module BgpPeerObject {
  import opened BgpDecision
  import opened BgpPeer

  /** A route table (horse/bgp_peer/rib.py). */
  class RouteTable {
    var table: Rib

    constructor ()
      ensures table == map[]
    {
      table := map[];
    }

    method Update(item: Route, replace: bool, best: bool)
      requires !replace ==> item.prefix in table
      modifies this
      ensures replace ==> table == old(table)[item.prefix := [item]]
      ensures !replace && best ==> table == old(table)[item.prefix := [item] + old(table)[item.prefix]]
      ensures !replace && !best ==> table == old(table)[item.prefix := old(table)[item.prefix] + [item]]
    {
      if replace {
        table := table[item.prefix := []];
      }
      assert [item] + [] == [item] && [] + [item] == [item];
      if best {
        table := table[item.prefix := [item] + table[item.prefix]];
      } else {
        table := table[item.prefix := table[item.prefix] + [item]];
      }
    }

    /** Drops the last route of a prefix. */
    method Drop(prefix: Prefix)
      modifies this
      ensures prefix !in old(table) || old(table)[prefix] == [] ==> table == old(table)
      ensures prefix in old(table) && old(table)[prefix] != [] ==>
                table == old(table)[prefix := old(table)[prefix][..|old(table)[prefix]| - 1]]
    {
      if prefix in table && table[prefix] != [] {
        table := table[prefix := table[prefix][..|table[prefix]| - 1]];
      }
    }
  }

  /** The routes received from each neighbour. */
  class NeighborTable {
    var table: map<nat, map<Prefix, Route>>

    constructor ()
      ensures table == map[]
    {
      table := map[];
    }

    method Update(item: Route)
      modifies this
      ensures table == AdjUpdate(old(table), item)
    {
      if item.neighbor !in table {
        table := table[item.neighbor := map[]];
      }
      table := table[item.neighbor := table[item.neighbor][item.prefix := item]];
    }
  }

  lemma AdvertiseNext(p: Peer, routes: seq<Route>, i: nat)
    requires i < |routes| && Listed(p.local, routes)
    ensures Listed(p.local, routes[..i]) && Listed(p.local, routes[..i + 1])
    ensures AdvertiseAll(p, p.output, routes[..i + 1])
            == Advertise(p, AdvertiseAll(p, p.output, routes[..i]), routes[i])
    ensures AnnouncedAll(p, p.output, routes[..i + 1])
            == AnnouncedAll(p, p.output, routes[..i])
               + Announced(p, AdvertiseAll(p, p.output, routes[..i]), routes[i])
  {
    assert routes[..i + 1][..i] == routes[..i];
  }

  class BgpSpeaker {
    const asn: nat
    const allowAsIn: bool
    const maxPaths: nat
    const prefixes: set<Prefix>
    var neighborsUp: map<nat, Session>
    const input: NeighborTable
    const local: RouteTable
    const output: RouteTable

    constructor (asn: nat, allowAsIn: bool, maxPaths: nat, prefixes: set<Prefix>)
      ensures Valid() && fresh(input) && fresh(local) && fresh(output)
      ensures State() == Peer(asn, allowAsIn, maxPaths, prefixes, map[], map[], map[], map[])
    {
      this.asn, this.allowAsIn, this.maxPaths, this.prefixes := asn, allowAsIn, maxPaths, prefixes;
      neighborsUp := map[];
      input := new NeighborTable();
      local := new RouteTable();
      output := new RouteTable();
    }

    ghost predicate Valid()
      reads this, local, output
    {
      local != output && RibOk(local.table) && RibOk(output.table)
    }

    ghost function State(): Peer
      reads this, input, local, output
    {
      Peer(asn, allowAsIn, maxPaths, prefixes, neighborsUp, input.table, local.table, output.table)
    }

    /** Puts the routes of an update into the input table, unless the peer's own AS is in the path. */
    method Update(u: Update) returns (routes: seq<Route>)
      requires Valid()
      modifies input
      ensures routes == Accepted(old(State()), u)
      ensures State() == old(State()).(input := AddAll(old(input.table), routes))
    {
      routes := [];
      if !allowAsIn && asn in u.asPath {
        return;
      }
      ghost var all, before := Accepted(State(), u), input.table;
      var i := 0;
      while i < |u.announced|
        invariant 0 <= i <= |u.announced| == |all| && routes == all[..i]
        invariant input.table == AddAll(before, routes)
      {
        var r := RouteOf(u, u.announced[i]);
        input.Update(r);
        assert all[..i + 1] == all[..i] + [r] && all[..i + 1][..i] == all[..i];
        routes := routes + [input.table[r.neighbor][r.prefix]];
        i := i + 1;
      }
    }

    /** Brings the local table in line with the better ones of an announced route and the current best. */
    method SettleLocal(best: seq<Route>, tie: bool, r: Route) returns (fib: seq<Route>)
      requires r.prefix in local.table && local.table[r.prefix] != []
      requires best != [] && (tie <==> |best| != 1) && forall x :: x in best ==> x.prefix == r.prefix
      modifies local
      ensures local.table == old(local.table)[r.prefix := Settle(best, old(local.table)[r.prefix], maxPaths, r).0]
      ensures fib == Settle(best, old(local.table)[r.prefix], maxPaths, r).1
    {
      assert local.table[r.prefix := local.table[r.prefix]] == local.table;
      var number, current := |local.table[r.prefix]|, local.table[r.prefix][0];
      if !tie {
        var chosen := best[|best| - 1];
        assert chosen in best;
        if !RoutesEqual(chosen, current) {
          local.Update(chosen, true, true);
          return [chosen];
        }
        return [];
      }
      var chosen := LowestRouterId(best);
      if !RoutesEqual(chosen, current) {
        if maxPaths == 0 {
          local.Update(chosen, true, true);
        } else if number + 1 <= maxPaths {
          local.Update(chosen, false, true);
        } else {
          local.Update(chosen, false, true);
          local.Drop(r.prefix);
        }
        return [chosen];
      } else if number + 1 <= maxPaths {
        local.Update(r, false, false);
        return [r];
      }
      return [];
    }

    /** The decision for one announced route; returns the routes for the forwarding table. */
    method DecisionProcessLocal(r: Route) returns (fib: seq<Route>)
      requires Valid()
      modifies local
      ensures Valid()
      ensures State() == old(State()).(local := Decide(old(local.table), maxPaths, r))
      ensures fib == Choose(RoutesOf(old(local.table), r.prefix), maxPaths, r).1
    {
      DecideOk(local.table, maxPaths, r);
      if r.prefix !in local.table {
        local.Update(r, true, true);
        return [r];
      }
      var current := local.table[r.prefix][0];
      assert current in local.table[r.prefix];
      var best, tie := BestPathSelection([r, current]);
      SelectionMembers([r, current]);
      fib := SettleLocal(best, tie, r);
    }

    // ----- Propagation -----

    /** Announces the best route of a prefix to every neighbour but the sender. */
    method Propagate(r: Route, best: Route) returns (sent: set<Announcement>)
      ensures sent == set n | n in neighborsUp && n != r.neighbor ::
                        Announcement(n, r.prefix, neighborsUp[n].localIp, [asn] + best.asPath)
    {
      sent := {};
      var left := neighborsUp.Keys;
      while left != {}
        invariant left <= neighborsUp.Keys
        invariant sent == set n | n in neighborsUp && n !in left && n != r.neighbor ::
                            Announcement(n, r.prefix, neighborsUp[n].localIp, [asn] + best.asPath)
        decreases left
      {
        var n :| n in left;
        if n != r.neighbor {
          sent := sent + {Announcement(n, r.prefix, neighborsUp[n].localIp, [asn] + best.asPath)};
        }
        left := left - {n};
      }
    }

    /** Stores and announces the best route of an updated prefix when it has changed; `p` is the peer before
        the updates. */
    method UpdateOne(r: Route, ghost p: Peer) returns (sent: set<Announcement>)
      requires Valid() && r.prefix in local.table && State() == p.(output := output.table)
      modifies output
      ensures Valid() && output.table == Advertise(p, old(output.table), r)
      ensures sent == Announced(p, old(output.table), r)
    {
      sent := {};
      var best := local.table[r.prefix][0];
      assert best in local.table[r.prefix];
      if !(r.prefix in output.table && RoutesEqual(best, output.table[r.prefix][0])) {
        output.Update(best, true, true);
        sent := Propagate(r, best);
      }
    }

    method UpdatePeers(routes: seq<Route>) returns (sent: set<Announcement>)
      requires Valid() && forall r :: r in routes ==> r.prefix in local.table
      modifies output
      ensures Valid()
      ensures State() == old(State()).(output := AdvertiseAll(old(State()), old(output.table), routes))
      ensures sent == AnnouncedAll(old(State()), old(output.table), routes)
    {
      sent := {};
      ghost var p := State();
      var i := 0;
      while i < |routes|
        invariant 0 <= i <= |routes| && Valid() && Listed(p.local, routes) && Listed(p.local, routes[..i])
        invariant output.table == AdvertiseAll(p, p.output, routes[..i])
        invariant sent == AnnouncedAll(p, p.output, routes[..i])
      {
        AdvertiseNext(p, routes, i);
        var more := UpdateOne(routes[i], p);
        sent := sent + more;
        i := i + 1;
      }
      assert routes[..|routes|] == routes;
    }

    // ----- Messages -----

    method DecideRoutes(routes: seq<Route>) returns (fib: seq<Route>)
      requires Valid()
      modifies local
      ensures Valid()
      ensures State() == old(State()).(local := DecideAll(old(local.table), maxPaths, routes))
      ensures fib == FibAll(old(local.table), maxPaths, routes)
    {
      ghost var before := local.table;
      fib := [];
      var i := 0;
      while i < |routes|
        invariant 0 <= i <= |routes| && Valid()
        invariant local.table == DecideAll(before, maxPaths, routes[..i])
        invariant fib == FibAll(before, maxPaths, routes[..i])
      {
        assert routes[..i + 1][..i] == routes[..i];
        var chosen := DecisionProcessLocal(routes[i]);
        fib := fib + chosen;
        i := i + 1;
      }
      assert routes[..|routes|] == routes;
    }

    /** Processes an update: the tables, the routes for the forwarding table and the announcements. */
    method ProcessRoute(u: Update) returns (fib: seq<Route>, sent: set<Announcement>)
      requires Valid()
      modifies input, local, output
      ensures Valid()
      ensures State() == Receive(old(State()), u)
      ensures fib == FibAll(old(local.table), maxPaths, Accepted(old(State()), u))
      ensures sent == Sent(old(State()), u)
    {
      ghost var p := State();
      var routes := Update(u);
      fib := DecideRoutes(routes);
      LearnCovers(p, u);
      assert State() == Learn(p, u);
      sent := UpdatePeers(routes);
    }

    /** Tells a neighbour whose session is up the routes it has missed and the peer's own prefixes. */
    method Introduce(n: nat) returns (sent: set<Announcement>)
      requires Valid() && n in neighborsUp
      ensures sent == Introduction(State(), n)
    {
      sent := {};
      var left := output.table.Keys;
      while left != {}
        invariant left <= output.table.Keys
        invariant sent == set k | k in output.table && k !in left && output.table[k][0].neighbor != n ::
                            Announcement(n, k, neighborsUp[n].localIp, [asn] + output.table[k][0].asPath)
        decreases left
      {
        var k :| k in left;
        if n != output.table[k][0].neighbor {
          sent := sent + {Announcement(n, k, neighborsUp[n].localIp, [asn] + output.table[k][0].asPath)};
        }
        left := left - {k};
      }
      var others, rest := sent, prefixes;
      while rest != {}
        invariant rest <= prefixes
        invariant sent == others
                          + set k | k in prefixes && k !in rest :: Announcement(n, k, neighborsUp[n].localIp, [asn])
        decreases rest
      {
        var k :| k in rest;
        sent := sent + {Announcement(n, k, neighborsUp[n].localIp, [asn])};
        rest := rest - {k};
      }
    }

    method SessionUp(n: nat, s: Session)
      requires Valid()
      modifies this`neighborsUp
      ensures Valid() && State() == old(State()).(neighbors := old(neighborsUp)[n := s])
    {
      neighborsUp := neighborsUp[n := s];
    }

    method SessionDown(n: nat)
      requires Valid()
      modifies this`neighborsUp
      ensures Valid() && State() == old(State()).(neighbors := old(neighborsUp) - {n})
    {
      neighborsUp := neighborsUp - {n};
    }
  }
}
