/** The incremental decision of a peer against a decision over everything that was announced to it. */
module BgpHistory {
  import opened Options
  import opened BgpDecision
  import opened BgpPeer
  import opened BgpRuns

  // ----- Which route comes first after an announcement -----

  /** The announced route `r` takes the place of the first route `c`. */
  predicate Displaces(r: Route, c: Route) {
    || |r.asPath| < |c.asPath|
    || (|r.asPath| == |c.asPath| && !RoutesEqual(r, c) &&
        if As(r) == As(c) then r.med < c.med || (r.med == c.med && r.nextHop <= c.nextHop)
        else r.nextHop < c.nextHop || (r.nextHop == c.nextHop && As(r) < As(c)))
  }

  lemma PicksOfPair(r: Route, c: Route, a: nat)
    ensures var b := [r, c];
            Picks(b, a) == (if As(r) == a && LeastMed(b, r) then [r] else [])
                           + (if As(c) == a && LeastMed(b, c) then [c] else [])
  {
    PicksAreLeast([r, c], a);
    SelectPair(r, c, (x: Route) => As(x) == a && LeastMed([r, c], x));
  }

  lemma ShortestOfPair(r: Route, c: Route)
    requires |r.asPath| == |c.asPath|
    ensures ShortestOf([r, c]) == [r, c]
  {
    SelectPair(r, c, (x: Route) => Shortest([r, c], x));
  }

  lemma OthersOfOne(y: nat, a: nat)
    ensures Others([y], a) == if y == a then [] else [y]
  {
    assert [y] + [] == [y] && [] + [y] == [y];
    if y == a {
      SkipRun([y], [], a);
    } else {
      SkipRun([], [y], a);
    }
  }

  lemma GroupsOfPair(b: seq<Route>, x: nat, y: nat)
    ensures Groups(b, [x, y]) == if x == y then Picks(b, x) else Picks(b, x) + Picks(b, y)
  {
    assert [x, y][1..] == [y] && [y][1..] == [];
    OthersOfOne(y, x);
    assert Groups(b, [y]) == Picks(b, y) + Groups(b, Others([], y));
  }

  lemma SortedPair(x: nat, y: nat)
    ensures SortAs([x, y]) == if x <= y then [x, y] else [y, x]
  {
    assert [x, y][1..] == [y] && [y][1..] == [];
    assert SortAs([y]) == InsertAs(y, SortAs([])) == [y];
    assert InsertAs(x, []) == [x];
  }

  lemma SelectionOfPair(r: Route, c: Route)
    requires |r.asPath| == |c.asPath|
    ensures Selection([r, c]) == Groups([r, c], if As(r) <= As(c) then [As(r), As(c)] else [As(c), As(r)])
  {
    ShortestOfPair(r, c);
    SortedPair(As(r), As(c));
    assert AsList([r, c]) == [As(r), As(c)];
  }

  /** Of two routes that tie, the one of the lower AS is listed first, and the announced one if it is the same. */
  lemma TieOrder(r: Route, c: Route)
    requires |r.asPath| == |c.asPath| && Alike(r, c)
    ensures Selection([r, c]) == if As(r) <= As(c) then [r, c] else [c, r]
  {
    assert LeastMed([r, c], r) && LeastMed([r, c], c);
    SelectionOfPair(r, c);
    if As(r) <= As(c) {
      TiePicks(r, c, As(r), As(c));
    } else {
      TiePicks(r, c, As(c), As(r));
    }
  }

  lemma TiePicks(r: Route, c: Route, x: nat, y: nat)
    requires LeastMed([r, c], r) && LeastMed([r, c], c)
    requires (x == As(r) && y == As(c)) || (x == As(c) && y == As(r))
    ensures Groups([r, c], [x, y]) == if x == As(r) then [r, c] else [c, r]
  {
    GroupsOfPair([r, c], x, y);
    PicksOfPair(r, c, x);
    PicksOfPair(r, c, y);
  }

  lemma OneIsKept(r: Route, c: Route, keepR: bool)
    requires keepR == Kept([r, c], r) != Kept([r, c], c)
    ensures Selection([r, c]) == [if keepR then r else c]
  {
    assert [] + [c] == [c] && [r] + [] == [r];
    PairIs(r, c, keepR, !keepR);
    OneLeft(Selection([r, c]), if keepR then r else c);
  }

  lemma LowestOfPair(a: Route, b: Route)
    ensures Lowest([a, b]) == if a.nextHop <= b.nextHop then a else b
  {
    assert [a, b][1..] == [b];
  }

  lemma HeadOfSettled(best: seq<Route>, rs: seq<Route>, maxPaths: nat, r: Route)
    requires |best| > 1 && rs != []
    ensures Settle(best, rs, maxPaths, r).0 != []
    ensures Settle(best, rs, maxPaths, r).0[0] == if RoutesEqual(Lowest(best), rs[0]) then rs[0] else Lowest(best)
  {
  }

  lemma HeadOfTie(rs: seq<Route>, maxPaths: nat, r: Route)
    requires rs != [] && |r.asPath| == |rs[0].asPath| && Alike(r, rs[0])
    ensures Choose(rs, maxPaths, r).0 != []
    ensures Choose(rs, maxPaths, r).0[0] == if Displaces(r, rs[0]) then r else rs[0]
  {
    var c := rs[0];
    var best := if As(r) <= As(c) then [r, c] else [c, r];
    TieOrder(r, c);
    LowestOfPair(best[0], best[1]);
    HeadOfSettled(best, rs, maxPaths, r);
    assert !RoutesEqual(r, c) && Lowest(best) == r <==> Displaces(r, c);
  }

  lemma HeadOfOne(rs: seq<Route>, maxPaths: nat, r: Route)
    requires rs != [] && (|r.asPath| != |rs[0].asPath| || !Alike(r, rs[0]))
    ensures Choose(rs, maxPaths, r).0 != []
    ensures Choose(rs, maxPaths, r).0[0] == if Displaces(r, rs[0]) then r else rs[0]
  {
    var c := rs[0];
    assert r in [r, c] && c in [r, c];
    OneIsKept(r, c, Kept([r, c], r));
  }

  /** What the list starts with after an announcement. */
  lemma HeadAfter(rs: seq<Route>, maxPaths: nat, r: Route)
    requires rs != []
    ensures Choose(rs, maxPaths, r).0 != []
    ensures Choose(rs, maxPaths, r).0[0] == if Displaces(r, rs[0]) then r else rs[0]
  {
    if |r.asPath| == |rs[0].asPath| && Alike(r, rs[0]) {
      HeadOfTie(rs, maxPaths, r);
    } else {
      HeadOfOne(rs, maxPaths, r);
    }
  }

  // ----- One announcement -----

  function Successor(r: Route, c: Route): Route {
    if Displaces(r, c) then r else c
  }

  /** MED and next hop rank the two routes of one AS and length differently. */
  predicate Clash(r: Route, c: Route) {
    |r.asPath| == |c.asPath| && As(r) == As(c) &&
    ((r.med < c.med && r.nextHop > c.nextHop) || (r.med > c.med && r.nextHop < c.nextHop))
  }

  /** The first route stays the one of lowest next hop exactly when the announcement does not clash with it. */
  lemma LeastStep(h: set<Route>, c: Route, r: Route)
    requires c in h && Least(h, c)
    ensures Least(h + {r}, Successor(r, c)) <==> !Clash(r, c)
  {
    assert r in h + {r} && c in h + {r};
  }

  /** Some announced route of the length and AS of `r` has a lower MED. */
  predicate Undercut(anns: seq<Route>, r: Route) {
    exists x :: x in anns && |x.asPath| == |r.asPath| && As(x) == As(r) && x.med < r.med
  }

  /** Compared with the first route `c` alone, `r` escapes the MED comparison: it comes from another AS, or it
      lowers the MED of `c` itself and is taken for the same route. */
  predicate Escapes(anns: seq<Route>, c: Route, r: Route) {
    |r.asPath| == |c.asPath| &&
    ((RoutesEqual(r, c) && r.med < c.med) || (As(r) != As(c) && Displaces(r, c) && Undercut(anns, r)))
  }

  lemma ShortestOfMore(anns: seq<Route>, r: Route, x: Route)
    ensures Shortest(anns + [r], x) <==> Shortest(anns, x) && |x.asPath| <= |r.asPath|
  {
    assert forall y :: y in anns + [r] <==> y in anns || y == r;
  }

  lemma KeptIffNotUndercut(anns: seq<Route>, x: Route)
    requires x in anns && Shortest(anns, x)
    ensures Kept(anns, x) <==> !Undercut(anns, x)
  {
    forall y | y in anns
      ensures Shortest(anns, y) <==> |y.asPath| == |x.asPath|
    {
    }
  }

  lemma KeptOfMore(anns: seq<Route>, r: Route, x: Route)
    requires x in anns + [r] && Shortest(anns + [r], x)
    ensures Kept(anns + [r], x) <==>
            !Undercut(anns, x) && !(|r.asPath| == |x.asPath| && As(r) == As(x) && r.med < x.med)
  {
    KeptIffNotUndercut(anns + [r], x);
    assert forall y :: y in anns + [r] <==> y in anns || y == r;
  }

  /** The first route stays one that the selection among all announced routes keeps exactly when the
      announcement does not escape the MED comparison. */
  lemma KeptStep(anns: seq<Route>, c: Route, r: Route)
    requires c in anns && Kept(anns, c)
    ensures Kept(anns + [r], Successor(r, c)) <==> !Escapes(anns, c, r)
  {
    var next := Successor(r, c);
    ShortestOfMore(anns, r, next);
    assert |r.asPath| <= |c.asPath| ==> Shortest(anns, r);
    assert Shortest(anns + [r], next);
    KeptIffNotUndercut(anns, c);
    KeptOfMore(anns, r, next);
  }

  /** The route is among those the selection keeps, and none of them has a lower next hop. */
  ghost predicate Best(anns: seq<Route>, c: Route) {
    Kept(anns, c) && forall x :: x in anns && Kept(anns, x) ==> c.nextHop <= x.nextHop
  }

  /** The announcement replaces the first route by its lower MED, and a route of another AS is now better. */
  predicate Overtaken(anns: seq<Route>, c: Route, r: Route) {
    |r.asPath| == |c.asPath| && As(r) == As(c) && r.med < c.med &&
    exists x :: x in anns && Kept(anns, x) && As(x) != As(c) && x.nextHop < r.nextHop
  }

  /** Comparing the announcement with the first route alone gives another answer than the decision over all
      announced routes. */
  predicate Misled(anns: seq<Route>, c: Route, r: Route) {
    Escapes(anns, c, r) || Overtaken(anns, c, r)
  }

  /** A route of another AS is kept or not whatever `r` is, if `r` is not shorter. */
  lemma KeptElsewhere(anns: seq<Route>, r: Route, x: Route, c: Route)
    requires c in anns && x in anns && Shortest(anns, c) && |c.asPath| <= |r.asPath| && As(x) != As(r)
    ensures Kept(anns + [r], x) <==> Kept(anns, x)
  {
    ShortestOfMore(anns, r, x);
    if Shortest(anns, x) {
      KeptOfMore(anns, r, x);
      KeptIffNotUndercut(anns, x);
    }
  }

  lemma KeptBefore(anns: seq<Route>, r: Route, x: Route)
    requires x in anns && Kept(anns + [r], x)
    ensures Kept(anns, x)
  {
    ShortestOfMore(anns, r, x);
    KeptOfMore(anns, r, x);
    KeptIffNotUndercut(anns, x);
  }

  /** The first route stays the best of all announced ones exactly when the comparison is not misled. */
  lemma BestStep(anns: seq<Route>, c: Route, r: Route)
    requires c in anns && Best(anns, c)
    ensures Best(anns + [r], Successor(r, c)) <==> !Misled(anns, c, r)
  {
    KeptStep(anns, c, r);
    if Overtaken(anns, c, r) && !Escapes(anns, c, r) {
      var x :| x in anns && Kept(anns, x) && As(x) != As(c) && x.nextHop < r.nextHop;
      KeptElsewhere(anns, r, x, c);
      assert x in anns + [r] && Successor(r, c) == r;
    } else if !Misled(anns, c, r) {
      forall x | x in anns + [r] && Kept(anns + [r], x)
        ensures Successor(r, c).nextHop <= x.nextHop
      {
        StillLowest(anns, c, r, x);
      }
    }
  }

  lemma StillLowest(anns: seq<Route>, c: Route, r: Route, x: Route)
    requires c in anns && Best(anns, c) && !Misled(anns, c, r)
    requires x in anns + [r] && Kept(anns + [r], x)
    ensures Successor(r, c).nextHop <= x.nextHop
  {
    ShortestOfMore(anns, r, x);
    KeptOfMore(anns, r, x);
    if x in anns {
      KeptBefore(anns, r, x);
    }
  }

  // ----- All announcements of a prefix -----

  /** The routes of a prefix after all its announcements. */
  function Chosen(anns: seq<Route>, maxPaths: nat): seq<Route> {
    if anns == [] then [] else Choose(Chosen(anns[..|anns| - 1], maxPaths), maxPaths, anns[|anns| - 1]).0
  }

  /** The route that comes first after all announcements. */
  function First(anns: seq<Route>): (c: Route)
    requires anns != []
    ensures c in anns
  {
    var n := |anns| - 1;
    if n == 0 then anns[0] else Successor(anns[n], First(anns[..n]))
  }

  /** The first route does not depend on how many others are kept. */
  lemma {:induction false} ChosenFirst(anns: seq<Route>, maxPaths: nat)
    requires anns != []
    ensures Chosen(anns, maxPaths) != [] && Chosen(anns, maxPaths)[0] == First(anns)
  {
    var n := |anns| - 1;
    if n > 0 {
      ChosenFirst(anns[..n], maxPaths);
      HeadAfter(Chosen(anns[..n], maxPaths), maxPaths, anns[n]);
    }
  }

  lemma FirstNext(anns: seq<Route>, i: nat)
    requires 0 < i < |anns|
    ensures anns[..i + 1] == anns[..i] + [anns[i]]
    ensures First(anns[..i + 1]) == Successor(anns[i], First(anns[..i]))
  {
    assert anns[..i + 1][..i] == anns[..i];
  }

  /** What holds at the start and is kept by a step exactly when the step is not bad holds throughout exactly
      when no step is. */
  lemma {:induction false} Throughout(n: nat, good: nat -> bool, bad: nat -> bool)
    requires n > 0 ==> good(1)
    requires forall i :: 0 < i < n && good(i) ==> (good(i + 1) <==> !bad(i))
    ensures (forall i :: 0 < i <= n ==> good(i)) <==> (forall i :: 0 < i < n ==> !bad(i))
  {
    if n > 1 {
      Throughout(n - 1, good, bad);
      var i := n - 1;
      assert good(i) ==> (good(i + 1) <==> !bad(i));
    }
  }

  lemma OnlyOne(anns: seq<Route>)
    requires anns != []
    ensures anns[..1] == [anns[0]] && First(anns[..1]) == anns[0]
    ensures Kept(anns[..1], anns[0]) && Best(anns[..1], anns[0]) && Least(Elements(anns[..1]), anns[0])
  {
  }

  ghost predicate BestAt(anns: seq<Route>, i: nat)
    requires 0 < i <= |anns|
  {
    Best(anns[..i], First(anns[..i]))
  }

  ghost predicate MisledAt(anns: seq<Route>, i: nat)
    requires 0 < i < |anns|
  {
    Misled(anns[..i], First(anns[..i]), anns[i])
  }

  lemma BestAtNext(anns: seq<Route>, i: nat)
    requires 0 < i < |anns| && BestAt(anns, i)
    ensures BestAt(anns, i + 1) <==> !MisledAt(anns, i)
  {
    FirstNext(anns, i);
    BestStep(anns[..i], First(anns[..i]), anns[i]);
  }

  /** The first route is the best of all routes announced so far, at every point, exactly when no announcement
      misleads the comparison with the first route it meets. */
  lemma BestThroughoutIff(anns: seq<Route>)
    ensures (forall i :: 0 < i <= |anns| ==> BestAt(anns, i)) <==> (forall i :: 0 < i < |anns| ==> !MisledAt(anns, i))
  {
    var good, bad := (i: nat) => 0 < i <= |anns| && BestAt(anns, i), (i: nat) => 0 < i < |anns| && MisledAt(anns, i);
    if anns != [] {
      OnlyOne(anns);
    }
    forall i | 0 < i < |anns| && good(i)
      ensures good(i + 1) <==> !bad(i)
    {
      BestAtNext(anns, i);
    }
    Throughout(|anns|, good, bad);
    assert forall i :: 0 < i <= |anns| ==> (good(i) <==> BestAt(anns, i));
    assert forall i :: 0 < i < |anns| ==> (bad(i) <==> MisledAt(anns, i));
  }

  ghost predicate KeptAt(anns: seq<Route>, i: nat)
    requires 0 < i <= |anns|
  {
    Kept(anns[..i], First(anns[..i]))
  }

  ghost predicate EscapeAt(anns: seq<Route>, i: nat)
    requires 0 < i < |anns|
  {
    Escapes(anns[..i], First(anns[..i]), anns[i])
  }

  lemma KeptAtNext(anns: seq<Route>, i: nat)
    requires 0 < i < |anns| && KeptAt(anns, i)
    ensures KeptAt(anns, i + 1) <==> !EscapeAt(anns, i)
  {
    FirstNext(anns, i);
    KeptStep(anns[..i], First(anns[..i]), anns[i]);
  }

  /** It is one the selection among them keeps exactly when no announcement escapes the MED comparison. */
  lemma KeptThroughoutIff(anns: seq<Route>)
    ensures (forall i :: 0 < i <= |anns| ==> KeptAt(anns, i)) <==> (forall i :: 0 < i < |anns| ==> !EscapeAt(anns, i))
  {
    var good, bad := (i: nat) => 0 < i <= |anns| && KeptAt(anns, i), (i: nat) => 0 < i < |anns| && EscapeAt(anns, i);
    if anns != [] {
      OnlyOne(anns);
    }
    forall i | 0 < i < |anns| && good(i)
      ensures good(i + 1) <==> !bad(i)
    {
      KeptAtNext(anns, i);
    }
    Throughout(|anns|, good, bad);
    assert forall i :: 0 < i <= |anns| ==> (good(i) <==> KeptAt(anns, i));
    assert forall i :: 0 < i < |anns| ==> (bad(i) <==> EscapeAt(anns, i));
  }

  ghost predicate LeastAt(anns: seq<Route>, i: nat)
    requires 0 < i <= |anns|
  {
    Least(Elements(anns[..i]), First(anns[..i]))
  }

  ghost predicate ClashAt(anns: seq<Route>, i: nat)
    requires 0 < i < |anns|
  {
    Clash(anns[i], First(anns[..i]))
  }

  lemma LeastAtNext(anns: seq<Route>, i: nat)
    requires 0 < i < |anns| && LeastAt(anns, i)
    ensures LeastAt(anns, i + 1) <==> !ClashAt(anns, i)
  {
    FirstNext(anns, i);
    assert Elements(anns[..i + 1]) == Elements(anns[..i]) + {anns[i]};
    LeastStep(Elements(anns[..i]), First(anns[..i]), anns[i]);
  }

  /** It has the shortest path and the lowest next hop exactly when no announcement clashes with it. */
  lemma LeastThroughoutIff(anns: seq<Route>)
    ensures (forall i :: 0 < i <= |anns| ==> LeastAt(anns, i)) <==> (forall i :: 0 < i < |anns| ==> !ClashAt(anns, i))
  {
    var good, bad := (i: nat) => 0 < i <= |anns| && LeastAt(anns, i), (i: nat) => 0 < i < |anns| && ClashAt(anns, i);
    if anns != [] {
      OnlyOne(anns);
    }
    forall i | 0 < i < |anns| && good(i)
      ensures good(i + 1) <==> !bad(i)
    {
      LeastAtNext(anns, i);
    }
    Throughout(|anns|, good, bad);
    assert forall i :: 0 < i <= |anns| ==> (good(i) <==> LeastAt(anns, i));
    assert forall i :: 0 < i < |anns| ==> (bad(i) <==> ClashAt(anns, i));
  }

  /** The best is what a decision over all announced routes would put first, in next hop. */
  lemma BestIsDecided(anns: seq<Route>, c: Route)
    requires c in anns
    ensures Selection(anns) != []
    ensures Best(anns, c) <==> c in Selection(anns) && c.nextHop == Lowest(Selection(anns)).nextHop
  {
    SelectionMembers(anns);
  }

  /** Where routes of one AS and length have one MED the comparison is never misled. */
  lemma SameMedNotMisled(anns: seq<Route>, i: nat)
    requires SameMed(Elements(anns)) && 0 < i < |anns|
    ensures !MisledAt(anns, i) && !ClashAt(anns, i)
  {
    var h := Elements(anns);
    assert anns[i] in h && First(anns[..i]) in h;
    assert forall x :: x in anns[..i] ==> x in h && Alike(x, anns[i]);
    assert Alike(anns[i], First(anns[..i]));
  }

  // ----- The first route and the input table -----

  /** The last route that a neighbour announced. */
  function Latest(anns: seq<Route>, neighbor: nat): Option<Route> {
    if anns == [] then None
    else
      var n := |anns| - 1;
      if anns[n].neighbor == neighbor then Some(anns[n]) else Latest(anns[..n], neighbor)
  }

  ghost predicate CurrentAt(anns: seq<Route>, i: nat)
    requires 0 < i <= |anns|
  {
    Latest(anns[..i], First(anns[..i]).neighbor) == Some(First(anns[..i]))
  }

  /** The neighbour of the first route replaces it by one that does not come first. */
  ghost predicate OutdatedAt(anns: seq<Route>, i: nat)
    requires 0 < i < |anns|
  {
    var c, r := First(anns[..i]), anns[i];
    r.neighbor == c.neighbor && r != c && !Displaces(r, c)
  }

  lemma CurrentAtNext(anns: seq<Route>, i: nat)
    requires 0 < i < |anns| && CurrentAt(anns, i)
    ensures CurrentAt(anns, i + 1) <==> !OutdatedAt(anns, i)
  {
    FirstNext(anns, i);
    assert anns[..i + 1][..i] == anns[..i];
  }

  /** The first route is what its neighbour announced last, at every point, exactly when no neighbour replaces
      the first route by one that does not come first. */
  lemma CurrentThroughoutIff(anns: seq<Route>)
    ensures (forall i :: 0 < i <= |anns| ==> CurrentAt(anns, i)) <==>
            (forall i :: 0 < i < |anns| ==> !OutdatedAt(anns, i))
  {
    var good, bad :=
      (i: nat) => 0 < i <= |anns| && CurrentAt(anns, i), (i: nat) => 0 < i < |anns| && OutdatedAt(anns, i);
    if anns != [] {
      OnlyOne(anns);
    }
    forall i | 0 < i < |anns| && good(i)
      ensures good(i + 1) <==> !bad(i)
    {
      CurrentAtNext(anns, i);
    }
    Throughout(|anns|, good, bad);
    assert forall i :: 0 < i <= |anns| ==> (good(i) <==> CurrentAt(anns, i));
    assert forall i :: 0 < i < |anns| ==> (bad(i) <==> OutdatedAt(anns, i));
  }

  // ----- The tables of a peer -----

  /** The announcements of a prefix, in order. */
  function For(rs: seq<Route>, k: Prefix): seq<Route> {
    Select(rs, (x: Route) => x.prefix == k)
  }

  lemma ForNext(rs: seq<Route>, k: Prefix)
    requires rs != []
    ensures var n := |rs| - 1; For(rs, k) == if rs[n].prefix == k then For(rs[..n], k) + [rs[n]] else For(rs[..n], k)
  {
    var n := |rs| - 1;
    assert rs[..n + 1] == rs;
    SelectSnoc(rs, n, (x: Route) => x.prefix == k);
  }

  lemma ChosenNext(anns: seq<Route>, maxPaths: nat, r: Route)
    ensures Chosen(anns + [r], maxPaths) == Choose(Chosen(anns, maxPaths), maxPaths, r).0
  {
    assert (anns + [r])[..|anns|] == anns;
  }

  lemma {:induction false} LocalIsChosen(rs: seq<Route>, maxPaths: nat, k: Prefix)
    ensures RoutesOf(DecideAll(map[], maxPaths, rs), k) == Chosen(For(rs, k), maxPaths)
  {
    if rs != [] {
      var n := |rs| - 1;
      ForNext(rs, k);
      LocalIsChosen(rs[..n], maxPaths, k);
      ChosenNext(For(rs[..n], k), maxPaths, rs[n]);
      LocalNext(DecideAll(map[], maxPaths, rs[..n]), maxPaths, rs[n], k);
    }
  }

  lemma LocalNext(t: Rib, maxPaths: nat, r: Route, k: Prefix)
    ensures RoutesOf(Decide(t, maxPaths, r), k) ==
            if r.prefix == k then Choose(RoutesOf(t, k), maxPaths, r).0 else RoutesOf(t, k)
  {
  }

  function InputOf(t: map<nat, map<Prefix, Route>>, neighbor: nat, k: Prefix): Option<Route> {
    if neighbor in t && k in t[neighbor] then Some(t[neighbor][k]) else None
  }

  lemma InputNext(t: map<nat, map<Prefix, Route>>, r: Route, neighbor: nat, k: Prefix)
    ensures InputOf(AdjUpdate(t, r), neighbor, k) ==
            if r.neighbor == neighbor && r.prefix == k then Some(r) else InputOf(t, neighbor, k)
  {
  }

  lemma LatestNext(anns: seq<Route>, r: Route, neighbor: nat)
    ensures Latest(anns + [r], neighbor) == if r.neighbor == neighbor then Some(r) else Latest(anns, neighbor)
  {
    assert (anns + [r])[..|anns|] == anns;
  }

  lemma {:induction false} InputIsLatest(rs: seq<Route>, neighbor: nat, k: Prefix)
    ensures InputOf(AddAll(map[], rs), neighbor, k) == Latest(For(rs, k), neighbor)
  {
    if rs != [] {
      var n := |rs| - 1;
      ForNext(rs, k);
      InputIsLatest(rs[..n], neighbor, k);
      InputNext(AddAll(map[], rs[..n]), rs[n], neighbor, k);
      LatestNext(For(rs[..n], k), rs[n], neighbor);
    }
  }

  /** The routes that a peer accepts in a run, in order. */
  ghost function Heard(p: Peer, run: seq<Input>): seq<Route> {
    if run == [] then []
    else
      var n := |run| - 1;
      Heard(p, run[..n]) + (if run[n].Recv? then Accepted(p, run[n].update) else [])
  }

  lemma {:induction false} DecideAllConcat(t: Rib, maxPaths: nat, a: seq<Route>, b: seq<Route>)
    ensures DecideAll(t, maxPaths, a + b) == DecideAll(DecideAll(t, maxPaths, a), maxPaths, b)
  {
    if b == [] {
      assert a + b == a;
    } else {
      assert (a + b)[..|a + b| - 1] == a + b[..|b| - 1];
      DecideAllConcat(t, maxPaths, a, b[..|b| - 1]);
    }
  }

  lemma {:induction false} AddAllConcat(t: map<nat, map<Prefix, Route>>, a: seq<Route>, b: seq<Route>)
    ensures AddAll(t, a + b) == AddAll(AddAll(t, a), b)
  {
    if b == [] {
      assert a + b == a;
    } else {
      assert (a + b)[..|a + b| - 1] == a + b[..|b| - 1];
      AddAllConcat(t, a, b[..|b| - 1]);
    }
  }

  lemma {:induction false} TablesOfHeard(p: Peer, run: seq<Input>)
    requires p.local == map[] && p.input == map[] && OutputOk(p)
    ensures PeerAfter(p, run).local == DecideAll(map[], p.maxPaths, Heard(p, run))
    ensures PeerAfter(p, run).input == AddAll(map[], Heard(p, run))
  {
    if run != [] {
      var n := |run| - 1;
      TablesOfHeard(p, run[..n]);
      if run[n].Recv? {
        var q, rs := PeerAfter(p, run[..n]), Accepted(p, run[n].update);
        assert Accepted(q, run[n].update) == rs;
        DecideAllConcat(map[], p.maxPaths, Heard(p, run[..n]), rs);
        AddAllConcat(map[], Heard(p, run[..n]), rs);
      } else {
        assert Heard(p, run) == Heard(p, run[..n]);
      }
    }
  }

  /** For every run from empty tables, the first local route of a prefix is the one its accepted announcements
      lead to one by one, and the input table holds the last of each neighbour. */
  lemma PeerFollowsAnnouncements(p: Peer, run: seq<Input>, k: Prefix)
    requires p.local == map[] && p.input == map[] && OutputOk(p)
    ensures var q, anns := PeerAfter(p, run), For(Heard(p, run), k);
            && (k in q.local <==> anns != [])
            && (anns != [] ==> q.local[k] != [] && q.local[k][0] == First(anns))
            && forall n :: InputOf(q.input, n, k) == Latest(anns, n)
  {
    var q, rs := PeerAfter(p, run), Heard(p, run);
    TablesOfHeard(p, run);
    LocalIsChosen(rs, p.maxPaths, k);
    if For(rs, k) != [] {
      ChosenFirst(For(rs, k), p.maxPaths);
    }
    forall n
      ensures InputOf(q.input, n, k) == Latest(For(rs, k), n)
    {
      InputIsLatest(rs, n, k);
    }
  }

  // ----- Announcements that mislead -----

  function RouteVia(neighbor: nat, nextHop: nat, asPath: seq<nat>, med: int): Route {
    Route(Prefix(0, 0), neighbor, 0, nextHop, "", asPath, "", med, "")
  }

  /** A route whose MED is not the lowest of its AS comes first, because the route it meets is of another AS. */
  lemma EscapedRoute()
    ensures var c, b, a := RouteVia(1, 3, [1, 9], 5), RouteVia(2, 2, [2, 9], 0), RouteVia(3, 1, [1, 9], 10);
            First([c, b, a]) == a && !Kept([c, b, a], a) && Selection([c, b, a]) != [] && a !in Selection([c, b, a])
  {
    var c, b, a := RouteVia(1, 3, [1, 9], 5), RouteVia(2, 2, [2, 9], 0), RouteVia(3, 1, [1, 9], 10);
    assert [c, b, a][..2] == [c, b] && [c, b][..1] == [c];
    assert First([c]) == c;
    assert First([c, b]) == b;
    assert c in [c, b, a] && a in [c, b, a];
    SelectionMembers([c, b, a]);
  }

  /** A neighbour announces a longer path, and the route it replaced still comes first. */
  lemma OutdatedRoute()
    ensures var c, r := RouteVia(1, 1, [1], 0), RouteVia(1, 1, [1, 2, 5], 0);
            First([c, r]) == c && Latest([c, r], 1) == Some(r)
  {
    var c, r := RouteVia(1, 1, [1], 0), RouteVia(1, 1, [1, 2, 5], 0);
    assert [c, r][..1] == [c];
  }

  /** A lower MED puts a route in front that one of another AS should precede. */
  lemma OvertakenRoute()
    ensures var c, b, a := RouteVia(1, 1, [1, 9], 5), RouteVia(2, 2, [2, 9], 0), RouteVia(3, 3, [1, 9], 4);
            First([c, b, a]) == a && Kept([c, b, a], a) && Kept([c, b, a], b) && b.nextHop < a.nextHop
  {
    var c, b, a := RouteVia(1, 1, [1, 9], 5), RouteVia(2, 2, [2, 9], 0), RouteVia(3, 3, [1, 9], 4);
    assert [c, b, a][..2] == [c, b] && [c, b][..1] == [c];
    assert First([c]) == c;
    assert First([c, b]) == c;
  }
}
