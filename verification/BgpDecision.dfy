/** The BGP decision process (horse/bgp_peer/decision_process.py). */
module BgpDecision {
  import opened Sequences

  /** An address prefix; addresses are 32-bit numbers. */
  datatype Prefix = Prefix(ip: nat, length: nat)

  /** A route of a RIB. */
  datatype Route = Route(
    prefix: Prefix, neighbor: nat, neighborAs: nat, nextHop: nat, origin: string,
    asPath: seq<nat>, communities: string, med: int, atomicAggregate: string)

  /** The AS that advertised a route. */
  function As(r: Route): nat {
    if r.asPath == [] then 0 else r.asPath[0]
  }

  function Select<T>(s: seq<T>, p: T -> bool): seq<T> {
    if s == [] then [] else (if p(s[0]) then [s[0]] else []) + Select(s[1..], p)
  }

  lemma {:induction false} SelectMembers<T>(s: seq<T>, p: T -> bool)
    ensures forall x :: x in Select(s, p) <==> x in s && p(x)
  {
    if s != [] {
      SelectMembers(s[1..], p);
    }
  }

  lemma {:induction false} SelectConcat<T>(a: seq<T>, b: seq<T>, p: T -> bool)
    ensures Select(a + b, p) == Select(a, p) + Select(b, p)
  {
    if a == [] {
      assert a + b == b;
    } else {
      assert (a + b)[1..] == a[1..] + b;
      SelectConcat(a[1..], b, p);
      Regroup(if p(a[0]) then [a[0]] else [], Select(a[1..], p), Select(b, p));
    }
  }

  lemma {:induction false} SelectAgrees<T>(s: seq<T>, p: T -> bool, q: T -> bool)
    requires forall x :: x in s ==> p(x) == q(x)
    ensures Select(s, p) == Select(s, q)
  {
    if s != [] {
      SelectAgrees(s[1..], p, q);
    }
  }

  lemma {:induction false} SelectAll<T>(s: seq<T>, p: T -> bool)
    requires forall x :: x in s ==> p(x)
    ensures Select(s, p) == s
  {
    if s != [] {
      SelectAll(s[1..], p);
    }
  }

  lemma {:induction false} SelectNone<T>(s: seq<T>, p: T -> bool)
    requires forall x :: x in s ==> !p(x)
    ensures Select(s, p) == []
  {
    if s != [] {
      SelectNone(s[1..], p);
    }
  }

  lemma {:induction false} SelectTwice<T>(s: seq<T>, p: T -> bool, q: T -> bool, r: T -> bool)
    requires forall x :: x in s ==> (r(x) <==> p(x) && q(x))
    ensures Select(Select(s, p), q) == Select(s, r)
  {
    if s != [] {
      SelectTwice(s[1..], p, q, r);
      if p(s[0]) {
        assert Select(s, p)[1..] == Select(s[1..], p);
      } else {
        assert Select(s, p) == Select(s[1..], p);
      }
    }
  }

  /** Selecting by one of two exclusive conditions. */
  lemma {:induction false} SelectEither<T>(s: seq<T>, p: T -> bool, q: T -> bool, r: T -> bool)
    requires forall x :: x in s ==> (r(x) <==> p(x) || q(x)) && !(p(x) && q(x))
    ensures multiset(Select(s, r)) == multiset(Select(s, p)) + multiset(Select(s, q))
  {
    if s != [] {
      SelectEither(s[1..], p, q, r);
    }
  }

  // ----- What the selection keeps -----

  predicate Shortest(routes: seq<Route>, r: Route) {
    forall x :: x in routes ==> |r.asPath| <= |x.asPath|
  }

  /** No route of the same length from the same AS has a lower MED. */
  predicate LeastMed(routes: seq<Route>, r: Route) {
    forall x :: x in routes && As(x) == As(r) ==> r.med <= x.med
  }

  /** The routes of minimal AS-path length that have minimal MED among the minimal-length routes from
      the same AS. */
  predicate Kept(routes: seq<Route>, r: Route) {
    Shortest(routes, r)
    && forall x :: x in routes && Shortest(routes, x) && As(x) == As(r) ==> r.med <= x.med
  }

  // ----- The selection, step by step -----

  function InsertAs(x: nat, s: seq<nat>): seq<nat> {
    if s == [] || x <= s[0] then [x] + s else [s[0]] + InsertAs(x, s[1..])
  }

  function SortAs(s: seq<nat>): seq<nat> {
    if s == [] then [] else InsertAs(s[0], SortAs(s[1..]))
  }

  predicate Ascending(s: seq<nat>) {
    forall i, j :: 0 <= i < j < |s| ==> s[i] <= s[j]
  }

  lemma {:induction false} InsertAsOk(x: nat, s: seq<nat>)
    requires Ascending(s)
    ensures Ascending(InsertAs(x, s)) && forall y :: y in InsertAs(x, s) <==> y == x || y in s
  {
    if s != [] && s[0] < x {
      InsertAsOk(x, s[1..]);
      var r := InsertAs(x, s[1..]);
      forall i | 0 <= i < |r|
        ensures s[0] <= r[i]
      {
        assert r[i] == x || r[i] in s[1..];
      }
    }
  }

  lemma {:induction false} SortAsOk(s: seq<nat>)
    ensures Ascending(SortAs(s)) && forall y :: y in SortAs(s) <==> y in s
  {
    if s != [] {
      SortAsOk(s[1..]);
      InsertAsOk(s[0], SortAs(s[1..]));
    }
  }

  function AsList(b: seq<Route>): seq<nat> {
    seq(|b|, i requires 0 <= i < |b| => As(b[i]))
  }

  function MinMed(g: seq<Route>): (m: int)
    requires g != []
    ensures forall x :: x in g ==> m <= x.med
    ensures exists x :: x in g && x.med == m
  {
    if |g| == 1 then
      assert g[0] in g;
      g[0].med
    else
      var m := MinMed(g[1..]);
      assert forall x :: x in g <==> x == g[0] || x in g[1..];
      if g[0].med < m then g[0].med else m
  }

  /** The routes from AS `a` with the lowest MED. */
  function Picks(b: seq<Route>, a: nat): seq<Route> {
    var g := Select(b, (x: Route) => As(x) == a);
    if g == [] then [] else Select(g, (x: Route) => x.med == MinMed(g))
  }

  /** The picks of each AS of the list, in turn. */
  function Groups(b: seq<Route>, ases: seq<nat>): seq<Route>
    decreases |ases|
  {
    if ases == [] then []
    else
      Picks(b, ases[0]) + Groups(b, Others(ases[1..], ases[0]))
  }

  function Others(s: seq<nat>, a: nat): (r: seq<nat>)
    ensures |r| <= |s|
  {
    var other := (y: nat) => y != a;
    SelectShorter(s, other);
    Select(s, other)
  }

  lemma {:induction false} SelectShorter<T>(s: seq<T>, p: T -> bool)
    ensures |Select(s, p)| <= |s|
  {
    if s != [] {
      SelectShorter(s[1..], p);
    }
  }

  function ShortestOf(routes: seq<Route>): seq<Route> {
    Select(routes, (r: Route) => Shortest(routes, r))
  }

  /** The routes the selection returns, in order. */
  function Selection(routes: seq<Route>): seq<Route> {
    var b := ShortestOf(routes);
    if |b| == 1 then b else Groups(b, SortAs(AsList(b)))
  }

  // ----- What it keeps is what it should keep -----

  lemma PicksAreLeast(b: seq<Route>, a: nat)
    ensures Picks(b, a) == Select(b, (x: Route) => As(x) == a && LeastMed(b, x))
  {
    var from, kept := (x: Route) => As(x) == a, (x: Route) => As(x) == a && LeastMed(b, x);
    var g := Select(b, from);
    SelectMembers(b, from);
    if g != [] {
      var m := MinMed(g);
      forall x | x in b
        ensures kept(x) <==> from(x) && x.med == m
      {
        if from(x) {
          assert x in g && m <= x.med;
          var y :| y in g && y.med == m;
        }
      }
      SelectTwice(b, from, (x: Route) => x.med == MinMed(g), kept);
    } else {
      SelectNone(b, kept);
    }
  }

  lemma {:induction false} GroupsKeepLeast(b: seq<Route>, ases: seq<nat>)
    ensures multiset(Groups(b, ases)) == multiset(Select(b, (x: Route) => As(x) in ases && LeastMed(b, x)))
    decreases |ases|
  {
    var kept := (x: Route) => As(x) in ases && LeastMed(b, x);
    if ases == [] {
      SelectNone(b, kept);
    } else {
      var a, rest := ases[0], Others(ases[1..], ases[0]);
      SelectMembers(ases[1..], (y: nat) => y != a);
      GroupsKeepLeast(b, rest);
      PicksAreLeast(b, a);
      SelectEither(b, (x: Route) => As(x) == a && LeastMed(b, x), (x: Route) => As(x) in rest && LeastMed(b, x), kept);
    }
  }

  lemma ShortestMeds(routes: seq<Route>, x: Route)
    requires Shortest(routes, x)
    ensures LeastMed(ShortestOf(routes), x) <==> Kept(routes, x)
  {
    SelectMembers(routes, (r: Route) => Shortest(routes, r));
  }

  /** Selecting the shortest and then those of least MED is selecting the kept ones. */
  lemma LeastOfShortest(routes: seq<Route>)
    ensures var b := ShortestOf(routes);
            Select(b, (r: Route) => LeastMed(b, r)) == Select(routes, (r: Route) => Kept(routes, r))
  {
    var b := ShortestOf(routes);
    var short, least, kept :=
      (r: Route) => Shortest(routes, r), (r: Route) => LeastMed(b, r), (r: Route) => Kept(routes, r);
    forall x | x in routes
      ensures kept(x) <==> short(x) && least(x)
    {
      if Shortest(routes, x) {
        ShortestMeds(routes, x);
      }
    }
    SelectTwice(routes, short, least, kept);
  }

  lemma ListedAs(b: seq<Route>, x: Route)
    requires x in b
    ensures As(x) in SortAs(AsList(b))
  {
    SortAsOk(AsList(b));
    var i :| 0 <= i < |b| && b[i] == x;
    assert AsList(b)[i] == As(x);
  }

  /** Grouping by AS loses no route of least MED. */
  lemma GroupsAreLeast(b: seq<Route>)
    ensures multiset(Groups(b, SortAs(AsList(b)))) == multiset(Select(b, (r: Route) => LeastMed(b, r)))
  {
    var ases := SortAs(AsList(b));
    var grouped, least := (x: Route) => As(x) in ases && LeastMed(b, x), (r: Route) => LeastMed(b, r);
    GroupsKeepLeast(b, ases);
    forall x | x in b
      ensures grouped(x) == least(x)
    {
      ListedAs(b, x);
    }
    SelectAgrees(b, grouped, least);
  }

  /** As a multiset, the selection is exactly the kept routes, each as often as it was given. */
  lemma SelectionKeeps(routes: seq<Route>)
    ensures multiset(Selection(routes)) == multiset(Select(routes, (r: Route) => Kept(routes, r)))
  {
    var b := ShortestOf(routes);
    LeastOfShortest(routes);
    if |b| == 1 {
      SelectAll(b, (r: Route) => LeastMed(b, r));
    } else {
      GroupsAreLeast(b);
    }
  }

  // ----- The loops -----

  lemma SelectSnoc<T>(s: seq<T>, i: nat, p: T -> bool)
    requires i < |s|
    ensures Select(s[..i + 1], p) == Select(s[..i], p) + (if p(s[i]) then [s[i]] else [])
  {
    assert s[..i + 1] == s[..i] + [s[i]];
    SelectConcat(s[..i], [s[i]], p);
  }

  lemma SelectOnly<T>(s: seq<T>, i: nat, p: T -> bool)
    requires i < |s| && p(s[i]) && forall x :: x in s[..i] ==> !p(x)
    ensures Select(s[..i + 1], p) == [s[i]]
  {
    SelectSnoc(s, i, p);
    SelectNone(s[..i], p);
  }

  /** Keep the routes with the shortest AS path. */
  method ShortestRoutes(routes: seq<Route>) returns (best: seq<Route>)
    ensures best == ShortestOf(routes)
  {
    best := [];
    var min := 0;
    for i := 0 to |routes|
      invariant i > 0 ==> exists x :: x in routes[..i] && |x.asPath| == min
      invariant forall x :: x in routes[..i] ==> min <= |x.asPath|
      invariant best == Select(routes[..i], (r: Route) => |r.asPath| == min)
    {
      var r := routes[i];
      assert routes[..i + 1] == routes[..i] + [r];
      SelectMembers(routes[..i], (r: Route) => |r.asPath| == min);
      if best == [] || |r.asPath| < min {
        min := |r.asPath|;
        SelectOnly(routes, i, (r: Route) => |r.asPath| == min);
        best := [r];
      } else {
        SelectSnoc(routes, i, (r: Route) => |r.asPath| == min);
        if |r.asPath| == min {
          best := best + [r];
        }
      }
    }
    assert routes[..|routes|] == routes;
    SelectAgrees(routes, (r: Route) => |r.asPath| == min, (r: Route) => Shortest(routes, r));
  }

  function Count(s: seq<nat>, a: nat): nat {
    |Select(s, (y: nat) => y == a)|
  }

  lemma CountRun(x: seq<nat>, y: seq<nat>, z: seq<nat>, a: nat)
    requires a !in x && a !in z && forall v :: v in y ==> v == a
    ensures Count(x + y + z, a) == |y|
  {
    var same := (v: nat) => v == a;
    SelectConcat(x + y, z, same);
    SelectConcat(x, y, same);
    SelectNone(x, same);
    SelectAll(y, same);
    SelectNone(z, same);
  }

  lemma SkipRun(y: seq<nat>, z: seq<nat>, a: nat)
    requires a !in z && forall v :: v in y ==> v == a
    ensures Others(y + z, a) == z
  {
    var other := (v: nat) => v != a;
    SelectConcat(y, z, other);
    SelectNone(y, other);
    SelectAll(z, other);
  }

  lemma RunEnd(s: seq<nat>, i: nat) returns (e: nat)
    requires Ascending(s) && i < |s| && s[i] !in s[..i]
    ensures i < e <= |s| && (forall j :: i <= j < e ==> s[j] == s[i]) && s[i] !in s[e..]
    ensures e < |s| ==> s[e] !in s[..e]
  {
    e := i + 1;
    while e < |s| && s[e] == s[i]
      invariant i < e <= |s| && forall j :: i <= j < e ==> s[j] == s[i]
    {
      e := e + 1;
    }
  }

  /** In a sorted list the occurrences of a value that has not occurred yet come next, and the rest of
      the list is what follows them. */
  lemma SkipGroup(s: seq<nat>, i: nat)
    requires Ascending(s) && i < |s| && s[i] !in s[..i]
    ensures var c := Count(s, s[i]);
            && 0 < c <= |s| - i
            && (i + c < |s| ==> s[i + c] !in s[..i + c])
            && Others(s[i..][1..], s[i]) == s[i + c..]
  {
    var e := RunEnd(s, i);
    assert s == s[..i] + s[i..e] + s[e..];
    CountRun(s[..i], s[i..e], s[e..], s[i]);
    assert s[i..][1..] == s[i + 1..e] + s[e..];
    SkipRun(s[i + 1..e], s[e..], s[i]);
  }

  lemma GroupsStep(b: seq<Route>, ases: seq<nat>, i: nat, n: nat)
    requires Ascending(ases) && i < |ases| && ases[i] !in ases[..i] && n == i + Count(ases, ases[i])
    ensures i < n <= |ases| && (n < |ases| ==> ases[n] !in ases[..n])
    ensures Groups(b, ases[i..]) == Picks(b, ases[i]) + Groups(b, ases[n..])
  {
    SkipGroup(ases, i);
    GroupsFrom(b, ases[i..], ases[n..]);
  }

  lemma GroupsFrom(b: seq<Route>, ases: seq<nat>, rest: seq<nat>)
    requires ases != [] && Others(ases[1..], ases[0]) == rest
    ensures Groups(b, ases) == Picks(b, ases[0]) + Groups(b, rest)
  {
  }

  /** The routes left by the MED comparison, one AS of the sorted list after the other. */
  method MedRoutes(b: seq<Route>, ases: seq<nat>) returns (post: seq<Route>)
    requires Ascending(ases)
    ensures post == Groups(b, ases)
  {
    post := [];
    var i := 0;
    ghost var goal := Groups(b, ases);
    assert ases[0..] == ases;
    ghost var rest := goal;
    while i < |ases|
      invariant 0 <= i <= |ases| && (i < |ases| ==> ases[i] !in ases[..i])
      invariant rest == Groups(b, ases[i..]) && post + rest == goal
    {
      var n := i + Count(ases, ases[i]);
      GroupsStep(b, ases, i, n);
      rest := Groups(b, ases[n..]);
      var picks := PickRoutes(b, ases[i]);
      Regroup(post, picks, rest);
      post, i := post + picks, n;
    }
  }

  method PickRoutes(b: seq<Route>, a: nat) returns (r: seq<Route>)
    ensures r == Picks(b, a)
  {
    var g := Select(b, (x: Route) => As(x) == a);
    if g == [] {
      return [];
    }
    var lowest, j := g[0].med, 1;
    assert g[0] in g;
    while j < |g|
      invariant 1 <= j <= |g|
      invariant forall k :: 0 <= k < j ==> lowest <= g[k].med
      invariant exists x :: x in g && x.med == lowest
    {
      if lowest > g[j].med {
        lowest := g[j].med;
        assert g[j] in g;
      }
      j := j + 1;
    }
    assert lowest == MinMed(g);
    SelectAgrees(g, (x: Route) => x.med == lowest, (x: Route) => x.med == MinMed(g));
    r := Select(g, (x: Route) => x.med == lowest);
  }

  /** The selection keeps exactly the kept routes; the flag is false exactly when one route is left. */
  method BestPathSelection(routes: seq<Route>) returns (best: seq<Route>, tie: bool)
    ensures best == Selection(routes)
    ensures multiset(best) == multiset(Select(routes, (r: Route) => Kept(routes, r)))
    ensures tie <==> |best| != 1
    ensures routes != [] ==> best != []
  {
    SelectionKeeps(routes);
    NonEmptySelection(routes);
    best := ShortestRoutes(routes);
    if |best| == 1 {
      return best, false;
    }
    SortAsOk(AsList(best));
    best := MedRoutes(best, SortAs(AsList(best)));
    tie := |best| != 1;
  }

  lemma {:induction false} SomeShortest(routes: seq<Route>) returns (r: Route)
    requires routes != []
    ensures r in routes && Shortest(routes, r)
  {
    r := routes[0];
    if |routes| > 1 {
      var x := SomeShortest(routes[1..]);
      if |x.asPath| < |r.asPath| {
        r := x;
      }
      assert forall y :: y in routes ==> y == routes[0] || y in routes[1..];
    }
  }

  lemma SomeKept(routes: seq<Route>) returns (x: Route)
    requires routes != []
    ensures x in routes && Kept(routes, x)
  {
    var r := SomeShortest(routes);
    var like := (y: Route) => Shortest(routes, y) && As(y) == As(r);
    var g := Select(routes, like);
    SelectMembers(routes, like);
    assert r in g;
    var m := MinMed(g);
    x :| x in g && x.med == m;
    forall y | y in routes && Shortest(routes, y) && As(y) == As(x)
      ensures x.med <= y.med
    {
      assert y in g && m <= y.med;
    }
  }

  lemma NonEmptySelection(routes: seq<Route>)
    ensures routes != [] ==> Selection(routes) != []
  {
    if routes != [] {
      var x := SomeKept(routes);
      SelectMembers(routes, (r: Route) => Kept(routes, r));
      SelectionKeeps(routes);
      assert x in multiset(Selection(routes));
    }
  }

  /** The first of the routes with the lowest next hop. */
  method LowestRouterId(routes: seq<Route>) returns (r: Route)
    requires routes != []
    ensures r == Lowest(routes)
    ensures r in routes && forall x :: x in routes ==> r.nextHop <= x.nextHop
  {
    var lowest, i := routes[0].nextHop, 1;
    while i < |routes|
      invariant 1 <= i <= |routes|
      invariant forall k :: 0 <= k < i ==> lowest <= routes[k].nextHop
      invariant exists k :: 0 <= k < i && routes[k].nextHop == lowest
    {
      if lowest > routes[i].nextHop {
        lowest := routes[i].nextHop;
      }
      i := i + 1;
    }
    var k := 0;
    while routes[k].nextHop != lowest
      invariant 0 <= k < |routes| && forall j :: 0 <= j < k ==> routes[j].nextHop != lowest
      decreases |routes| - k
    {
      k := k + 1;
    }
    r := routes[k];
    LowestIs(routes, k);
  }

  function Lowest(routes: seq<Route>): (r: Route)
    requires routes != []
    ensures r in routes && forall x :: x in routes ==> r.nextHop <= x.nextHop
  {
    if |routes| == 1 then routes[0]
    else
      var r := Lowest(routes[1..]);
      assert forall x :: x in routes <==> x == routes[0] || x in routes[1..];
      if routes[0].nextHop <= r.nextHop then routes[0] else r
  }

  lemma {:induction false} LowestIs(routes: seq<Route>, k: nat)
    requires k < |routes| && forall x :: x in routes ==> routes[k].nextHop <= x.nextHop
    requires forall j :: 0 <= j < k ==> routes[j].nextHop != routes[k].nextHop
    ensures Lowest(routes) == routes[k]
  {
    assert routes[0] in routes;
    if k > 0 {
      LowestIs(routes[1..], k - 1);
    }
  }
}
