/** A network of BGP peers that exchange announcements: every AS path is free of loops. */
module BgpNetwork {
  import opened Sequences
  import opened BgpDecision
  import opened BgpPeer

  /** The peers, the peer behind each address, and the announcements under way with their senders. */
  datatype Network = Network(peers: map<nat, Peer>, owner: map<nat, nat>, flight: set<(nat, Announcement)>)

  /** An announcement may be delivered, together with others with the same path, any number of times or
      never; sessions come up and go down at any time. */
  datatype Step =
    | Deliver(to: nat, update: Update)
    | Drop(message: (nat, Announcement))
    | Introduce(peer: nat, neighbor: nat)
    | SessionUp(peer: nat, neighbor: nat, session: Session)
    | SessionDown(peer: nat, neighbor: nat)

  /** When a step can be taken; the tables are well formed in every reachable state. */
  ghost predicate Enabled(w: Network, s: Step) {
    match s
    case Deliver(to, u) =>
      to in w.peers && RibOk(w.peers[to].local) && forall a :: a in u.announced ==> UnderWay(w, to, u, a)
    case Drop(m) => true
    case Introduce(p, n) => p in w.peers && n in w.peers[p].neighbors && RibOk(w.peers[p].output)
    case SessionUp(p, n, s) => p in w.peers
    case SessionDown(p, n) => p in w.peers
  }

  /** Some announcement under way to the peer carries this part of the update. */
  ghost predicate UnderWay(w: Network, to: nat, u: Update, a: (nat, Prefix)) {
    exists m :: m in w.flight && m.1.to in w.owner && w.owner[m.1.to] == to
                && m.1.nextHop == a.0 && m.1.prefix == a.1 && m.1.asPath == u.asPath
  }

  ghost function From(peer: nat, sent: set<Announcement>): set<(nat, Announcement)> {
    set a | a in sent :: (peer, a)
  }

  ghost function Apply(w: Network, s: Step): Network
    requires Enabled(w, s)
  {
    match s
    case Deliver(to, u) =>
      w.(peers := w.peers[to := Receive(w.peers[to], u)], flight := w.flight + From(to, Sent(w.peers[to], u)))
    case Drop(m) => w.(flight := w.flight - {m})
    case Introduce(p, n) => w.(flight := w.flight + From(p, Introduction(w.peers[p], n)))
    case SessionUp(p, n, s) =>
      w.(peers := w.peers[p := w.peers[p].(neighbors := w.peers[p].neighbors[n := s])])
    case SessionDown(p, n) =>
      w.(peers := w.peers[p := w.peers[p].(neighbors := w.peers[p].neighbors - {n})])
  }

  /** All peers are configured to reject their own AS, and nothing has happened yet. */
  ghost predicate Init(w: Network) {
    && w.flight == {}
    && forall p :: p in w.peers ==>
         !w.peers[p].allowAsIn && w.peers[p].input == map[] && w.peers[p].local == map[] && w.peers[p].output == map[]
  }

  // ----- Loop-free paths -----

  ghost function Ases(w: Network): set<nat> {
    set p | p in w.peers :: w.peers[p].asn
  }

  /** An AS that some peer of it is configured with the prefix. */
  ghost predicate Originates(w: Network, k: Prefix, a: nat) {
    exists p :: p in w.peers && w.peers[p].asn == a && k in w.peers[p].prefixes
  }

  /** A path of ASes of the network without repetition that ends where the prefix is configured. */
  ghost predicate PathOk(w: Network, k: Prefix, path: seq<nat>) {
    && path != [] && Distinct(path)
    && (forall a :: a in path ==> a in Ases(w))
    && Originates(w, k, path[|path| - 1])
  }

  ghost predicate RouteOk(w: Network, asn: nat, r: Route) {
    PathOk(w, r.prefix, r.asPath) && asn !in r.asPath
  }

  ghost predicate RoutesOk(w: Network, asn: nat, rs: seq<Route>) {
    forall r :: r in rs ==> RouteOk(w, asn, r)
  }

  ghost predicate TableOk(w: Network, asn: nat, t: Rib) {
    RibOk(t) && forall k :: k in t ==> RoutesOk(w, asn, t[k])
  }

  ghost predicate InputOk(w: Network, asn: nat, t: map<nat, map<Prefix, Route>>) {
    forall n, k :: n in t && k in t[n] ==> t[n][k].prefix == k && RouteOk(w, asn, t[n][k])
  }

  ghost predicate PeerOk(w: Network, p: Peer) {
    && !p.allowAsIn && p.asn in Ases(w) && (forall k :: k in p.prefixes ==> Originates(w, k, p.asn))
    && InputOk(w, p.asn, p.input) && TableOk(w, p.asn, p.local) && TableOk(w, p.asn, p.output)
  }

  ghost predicate SentOk(w: Network, sent: set<Announcement>) {
    forall a :: a in sent ==> PathOk(w, a.prefix, a.asPath)
  }

  /** The peers of `w'` and what is under way in it are free of loops, as to the configuration of `w`. */
  ghost predicate Safe(w: Network, w': Network) {
    && (forall p :: p in w'.peers ==> PeerOk(w, w'.peers[p]))
    && (forall m :: m in w'.flight ==> PathOk(w, m.1.prefix, m.1.asPath))
  }

  // ----- One peer -----

  lemma {:induction false} AddAllOk(w: Network, asn: nat, t: map<nat, map<Prefix, Route>>, rs: seq<Route>)
    requires InputOk(w, asn, t) && RoutesOk(w, asn, rs)
    ensures InputOk(w, asn, AddAll(t, rs))
  {
    if rs != [] {
      AddAllOk(w, asn, t, rs[..|rs| - 1]);
    }
  }

  lemma DecideAllKeeps(w: Network, asn: nat, t: Rib, maxPaths: nat, rs: seq<Route>)
    requires TableOk(w, asn, t) && RoutesOk(w, asn, rs)
    ensures TableOk(w, asn, DecideAll(t, maxPaths, rs))
  {
    DecideAllOk(t, maxPaths, rs);
    var t' := DecideAll(t, maxPaths, rs);
    forall k, x | k in t' && x in t'[k]
      ensures RouteOk(w, asn, x)
    {
      DecideAllMembers(t, maxPaths, rs, k, x);
    }
  }

  lemma {:induction false} AdvertiseAllOk(w: Network, p: Peer, output: Rib, rs: seq<Route>)
    requires TableOk(w, p.asn, p.local) && TableOk(w, p.asn, output)
    requires forall r :: r in rs ==> r.prefix in p.local && p.local[r.prefix] != []
    ensures TableOk(w, p.asn, AdvertiseAll(p, output, rs))
  {
    if rs != [] {
      var n := |rs| - 1;
      AdvertiseAllOk(w, p, output, rs[..n]);
      assert p.local[rs[n].prefix][0] in p.local[rs[n].prefix];
    }
  }

  /** Putting the peer's own AS in front keeps a path free of loops. */
  lemma ExtendedOk(w: Network, asn: nat, r: Route)
    requires RouteOk(w, asn, r) && asn in Ases(w)
    ensures PathOk(w, r.prefix, [asn] + r.asPath)
  {
    var path := [asn] + r.asPath;
    assert path[|path| - 1] == r.asPath[|r.asPath| - 1];
    forall i, j | 0 <= i < j < |path|
      ensures path[i] != path[j]
    {
      assert path[j] == r.asPath[j - 1] && r.asPath[j - 1] in r.asPath;
      if i > 0 {
        assert path[i] == r.asPath[i - 1];
      }
    }
  }

  lemma AnnouncedOk(w: Network, p: Peer, output: Rib, r: Route)
    requires TableOk(w, p.asn, p.local) && p.asn in Ases(w)
    requires r.prefix in p.local && p.local[r.prefix] != []
    ensures SentOk(w, Announced(p, output, r))
  {
    assert p.local[r.prefix][0] in p.local[r.prefix];
    ExtendedOk(w, p.asn, p.local[r.prefix][0]);
  }

  lemma {:induction false} AnnouncedAllOk(w: Network, p: Peer, output: Rib, rs: seq<Route>)
    requires TableOk(w, p.asn, p.local) && p.asn in Ases(w)
    requires forall r :: r in rs ==> r.prefix in p.local && p.local[r.prefix] != []
    ensures SentOk(w, AnnouncedAll(p, output, rs))
  {
    if rs != [] {
      var n := |rs| - 1;
      AnnouncedAllOk(w, p, output, rs[..n]);
      AnnouncedOk(w, p, AdvertiseAll(p, output, rs[..n]), rs[n]);
    }
  }

  lemma AcceptedOk(w: Network, p: Peer, u: Update)
    requires !p.allowAsIn && forall a :: a in u.announced ==> PathOk(w, a.1, u.asPath)
    ensures RoutesOk(w, p.asn, Accepted(p, u))
  {
    forall r | r in Accepted(p, u)
      ensures RouteOk(w, p.asn, r)
    {
      var i :| 0 <= i < |Accepted(p, u)| && Accepted(p, u)[i] == r;
      assert u.announced[i] in u.announced;
    }
  }

  lemma ReceiveOk(w: Network, p: Peer, u: Update)
    requires PeerOk(w, p) && forall a :: a in u.announced ==> PathOk(w, a.1, u.asPath)
    ensures PeerOk(w, Receive(p, u)) && SentOk(w, Sent(p, u))
  {
    var rs := Accepted(p, u);
    AcceptedOk(w, p, u);
    AddAllOk(w, p.asn, p.input, rs);
    DecideAllKeeps(w, p.asn, p.local, p.maxPaths, rs);
    LearnCovers(p, u);
    AdvertiseAllOk(w, Learn(p, u), p.output, rs);
    AnnouncedAllOk(w, Learn(p, u), p.output, rs);
  }

  lemma IntroductionOk(w: Network, p: Peer, n: nat)
    requires PeerOk(w, p) && n in p.neighbors
    ensures SentOk(w, Introduction(p, n))
  {
    forall k | k in p.output
      ensures PathOk(w, k, [p.asn] + p.output[k][0].asPath)
    {
      assert p.output[k][0] in p.output[k];
      ExtendedOk(w, p.asn, p.output[k][0]);
    }
    forall k | k in p.prefixes
      ensures PathOk(w, k, [p.asn])
    {
    }
  }

  // ----- Runs -----

  lemma StepKeeps(w: Network, w': Network, s: Step)
    requires Safe(w, w') && Enabled(w', s)
    ensures Safe(w, Apply(w', s))
  {
    match s
    case Deliver(to, u) =>
      forall a | a in u.announced
        ensures PathOk(w, a.1, u.asPath)
      {
        assert UnderWay(w', to, u, a);
      }
      ReceiveOk(w, w'.peers[to], u);
    case Introduce(p, n) =>
      IntroductionOk(w, w'.peers[p], n);
    case _ =>
  }

  ghost predicate IsRun(w: Network, run: seq<Step>)
    decreases |run|, 0
  {
    run == [] || (IsRun(w, run[..|run| - 1]) && Enabled(After(w, run[..|run| - 1]), run[|run| - 1]))
  }

  ghost function After(w: Network, run: seq<Step>): Network
    requires IsRun(w, run)
    decreases |run|, 1
  {
    if run == [] then w else Apply(After(w, run[..|run| - 1]), run[|run| - 1])
  }

  /** In every run no AS path in a table or under way repeats an AS, no table of a peer holds a path
      with the peer's own AS, and every path ends at an AS configured with the prefix. */
  lemma {:induction false} EveryRunIsLoopFree(w: Network, run: seq<Step>)
    requires Init(w) && IsRun(w, run)
    ensures Safe(w, After(w, run))
  {
    if run != [] {
      EveryRunIsLoopFree(w, run[..|run| - 1]);
      StepKeeps(w, After(w, run[..|run| - 1]), run[|run| - 1]);
    }
  }

  /** A path that is under way or in some table. */
  ghost predicate Occurs(w: Network, path: seq<nat>) {
    || (exists m :: m in w.flight && m.1.asPath == path)
    || (exists p :: p in w.peers && OccursIn(w.peers[p], path))
  }

  ghost predicate OccursIn(p: Peer, path: seq<nat>) {
    || (exists n, k :: n in p.input && k in p.input[n] && p.input[n][k].asPath == path)
    || (exists k, r :: k in p.local && r in p.local[k] && r.asPath == path)
    || (exists k, r :: k in p.output && r in p.output[k] && r.asPath == path)
  }

  /** So no path is ever longer than the number of ASes. */
  lemma PathsAreBounded(w: Network, run: seq<Step>, path: seq<nat>)
    requires Init(w) && IsRun(w, run) && Occurs(After(w, run), path)
    ensures |path| <= |Ases(w)|
  {
    EveryRunIsLoopFree(w, run);
    DistinctIsShort(path, Ases(w));
  }
}
