/** Layered path search (StructuredRouting in experiments/fat_tree_dc/ripl/routing.py): two frontiers
    climb from the source and the destination towards the core until they meet. */
module Routing {
  import opened Options
  import opened Sequences

  type Path = seq<nat>

  /** A layered network: layer 0 is the core, higher layers are closer to the hosts. */
  datatype Topo = Topo(g: map<nat, seq<nat>>, layers: map<nat, nat>)

  ghost predicate TopoOk(t: Topo) {
    forall n :: n in t.g ==>
      n in t.layers && Distinct(t.g[n]) && forall m :: m in t.g[n] ==> m in t.g
  }

  function Filter(ns: seq<nat>, layers: map<nat, nat>, layer: nat): seq<nat> {
    if ns == [] then []
    else (if ns[0] in layers && layers[ns[0]] + 1 == layer then [ns[0]] else []) + Filter(ns[1..], layers, layer)
  }

  /** The neighbours one layer closer to the core. */
  function UpNodes(t: Topo, n: nat): seq<nat>
    requires n in t.g && n in t.layers
  {
    Filter(t.g[n], t.layers, t.layers[n])
  }

  lemma {:induction false} FilterMembers(ns: seq<nat>, layers: map<nat, nat>, layer: nat)
    ensures forall m :: m in Filter(ns, layers, layer) <==> m in ns && m in layers && layers[m] + 1 == layer
    ensures Distinct(ns) ==> Distinct(Filter(ns, layers, layer))
  {
    if ns != [] {
      FilterMembers(ns[1..], layers, layer);
      assert forall m :: m in ns <==> m == ns[0] || m in ns[1..];
    }
  }

  // ----- Paths -----

  /** One step up. */
  ghost predicate Edge(t: Topo, n: nat, m: nat) {
    n in t.g && n in t.layers && m in t.g[n] && m in t.layers && t.layers[m] + 1 == t.layers[n]
  }

  lemma UpNodesAreEdges(t: Topo, n: nat)
    requires TopoOk(t) && n in t.g
    ensures forall m :: m in UpNodes(t, n) <==> Edge(t, n, m)
    ensures Distinct(UpNodes(t, n))
  {
    FilterMembers(t.g[n], t.layers, t.layers[n]);
  }

  /** A path of upward steps from `s` to `n`. */
  ghost predicate Up(t: Topo, p: Path, s: nat, n: nat)
    decreases |p|
  {
    p != [] && p[|p| - 1] == n && n in t.g && n in t.layers
    && if |p| == 1 then s == n else Up(t, p[..|p| - 1], s, p[|p| - 2]) && Edge(t, p[|p| - 2], n)
  }

  /** Its length is fixed by the layers it spans. */
  lemma {:induction false} UpLength(t: Topo, p: Path, s: nat, n: nat)
    requires Up(t, p, s, n)
    ensures s in t.g && s in t.layers && p[0] == s && |p| + t.layers[n] == t.layers[s] + 1
    decreases |p|
  {
    if |p| > 1 {
      UpLength(t, p[..|p| - 1], s, p[|p| - 2]);
    }
  }

  function Reverse(p: Path): Path {
    if p == [] then [] else [p[|p| - 1]] + Reverse(p[..|p| - 1])
  }

  lemma {:induction false} ReverseAt(p: Path)
    ensures |Reverse(p)| == |p|
    ensures forall i :: 0 <= i < |p| ==> Reverse(p)[i] == p[|p| - 1 - i]
  {
    if p != [] {
      ReverseAt(p[..|p| - 1]);
    }
  }

  lemma ReverseInjective(p: Path, q: Path)
    requires Reverse(p) == Reverse(q)
    ensures p == q
  {
    ReverseAt(p);
    ReverseAt(q);
    forall i | 0 <= i < |p|
      ensures p[i] == q[i]
    {
      assert Reverse(p)[|p| - 1 - i] == p[i] && Reverse(q)[|p| - 1 - i] == q[i];
    }
  }

  /** `x` goes up from `s` to the apex `a` along `u` and down to `e` against `v`. */
  ghost predicate UpDown(t: Topo, s: nat, e: nat, a: nat, u: Path, v: Path, x: Path) {
    Up(t, u, s, a) && Up(t, v, e, a) && x == u + Reverse(v[..|v| - 1])
  }

  /** An up-then-down path from `s` to `e` whose apex is in layer `d`. */
  ghost predicate Apex(t: Topo, s: nat, e: nat, d: nat, x: Path) {
    exists a, u, v :: UpDown(t, s, e, a, u, v, x) && t.layers[a] == d
  }

  ghost predicate HasApex(t: Topo, s: nat, e: nat, d: nat) {
    exists x :: Apex(t, s, e, d, x)
  }

  // ----- One expansion of a frontier -----

  /** A path from the expanding frontier joined with one from the other: the path from the source comes
      first, the one from the destination is reversed. */
  function Join(fromSrc: bool, p: Path, q: Path): Path {
    if fromSrc then p + Reverse(q) else q + Reverse(p)
  }

  lemma JoinDiffers(fromSrc: bool, p: Path, q: Path, p': Path, q': Path)
    requires |p| == |p'| && |q| == |q'| && (p != p' || q != q')
    ensures Join(fromSrc, p, q) != Join(fromSrc, p', q')
  {
    if Join(fromSrc, p, q) == Join(fromSrc, p', q') {
      JoinInjective(fromSrc, p, q, p', q');
    }
  }

  lemma JoinInjective(fromSrc: bool, p: Path, q: Path, p': Path, q': Path)
    requires |p| == |p'| && |q| == |q'| && Join(fromSrc, p, q) == Join(fromSrc, p', q')
    ensures p == p' && q == q'
  {
    ReverseAt(p);
    ReverseAt(q);
    ReverseAt(p');
    ReverseAt(q');
    var x, x' := Join(fromSrc, p, q), Join(fromSrc, p', q');
    var n := if fromSrc then |p| else |q|;
    assert x[..n] == x'[..n] && x[n..] == x'[n..];
    if fromSrc {
      ReverseInjective(q, q');
    } else {
      ReverseInjective(p, p');
    }
  }

  /** All paths of `ps` have length `n`. */
  predicate Even(ps: seq<Path>, n: nat) {
    forall p :: p in ps ==> |p| == n
  }

  /** The paths `xs` are the combinations of a path of `ps` with one of `qs`, each once. */
  ghost predicate AllJoins(fromSrc: bool, ps: seq<Path>, qs: seq<Path>, xs: seq<Path>) {
    Distinct(xs) && forall x :: x in xs <==> exists p, q :: p in ps && q in qs && x == Join(fromSrc, p, q)
  }

  lemma JoinsNext(fromSrc: bool, ps: seq<Path>, p: Path, qs: seq<Path>, n: nat, m: nat, xs: seq<Path>, ys: seq<Path>)
    requires AllJoins(fromSrc, ps, qs, xs) && Distinct(ys) && p !in ps && Even(ps + [p], n) && Even(qs, m)
    requires forall y :: y in ys <==> exists q :: q in qs && y == Join(fromSrc, p, q)
    ensures AllJoins(fromSrc, ps + [p], qs, xs + ys)
  {
    forall x, y | x in xs && y in ys
      ensures x != y
    {
      var p', q :| p' in ps && q in qs && x == Join(fromSrc, p', q);
      var q' :| q' in qs && y == Join(fromSrc, p, q');
      assert p' in ps + [p] && p in ps + [p];
      JoinDiffers(fromSrc, p', q, p, q');
    }
    DistinctConcat(xs, ys);
  }

  /** Every combination of a path of `ps` with one of `qs`, once. */
  method Combine(fromSrc: bool, ps: seq<Path>, qs: seq<Path>, ghost n: nat, ghost m: nat) returns (xs: seq<Path>)
    requires Distinct(ps) && Distinct(qs) && Even(ps, n) && Even(qs, m)
    ensures AllJoins(fromSrc, ps, qs, xs)
  {
    xs := [];
    for i := 0 to |ps|
      invariant AllJoins(fromSrc, ps[..i], qs, xs)
    {
      var ys := CombineOne(fromSrc, ps[i], qs, m);
      assert ps[..i + 1] == ps[..i] + [ps[i]] && ps[i] !in ps[..i];
      JoinsNext(fromSrc, ps[..i], ps[i], qs, n, m, xs, ys);
      xs := xs + ys;
    }
    assert ps[..|ps|] == ps;
  }

  method CombineOne(fromSrc: bool, p: Path, qs: seq<Path>, ghost m: nat) returns (xs: seq<Path>)
    requires Distinct(qs) && Even(qs, m)
    ensures Distinct(xs)
    ensures forall x :: x in xs <==> exists q :: q in qs && x == Join(fromSrc, p, q)
  {
    xs := [];
    for i := 0 to |qs|
      invariant |xs| == i && forall j :: 0 <= j < i ==> xs[j] == Join(fromSrc, p, qs[j])
    {
      xs := xs + [Join(fromSrc, p, qs[i])];
    }
    forall i, j | 0 <= i < j < |xs|
      ensures xs[i] != xs[j]
    {
      if xs[i] == xs[j] {
        assert qs[i] in qs && qs[j] in qs;
        JoinInjective(fromSrc, p, qs[i], p, qs[j]);
      }
    }
  }

  function Extended(ps: seq<Path>, b: nat): seq<Path> {
    seq(|ps|, i requires 0 <= i < |ps| => ps[i] + [b])
  }

  lemma ExtendedIn(ps: seq<Path>, b: nat, x: Path)
    requires x != [] && x[|x| - 1] == b && x[..|x| - 1] in ps
    ensures x in Extended(ps, b)
  {
    var i :| 0 <= i < |ps| && ps[i] == x[..|x| - 1];
    Rejoin(x);
    assert Extended(ps, b)[i] == x;
  }

  lemma ExtendedMembers(ps: seq<Path>, b: nat)
    requires Distinct(ps)
    ensures Distinct(Extended(ps, b))
    ensures forall x :: x in Extended(ps, b) <==> x != [] && x[|x| - 1] == b && x[..|x| - 1] in ps
  {
    forall x | x in Extended(ps, b)
      ensures x != [] && x[|x| - 1] == b && x[..|x| - 1] in ps
    {
      var i :| 0 <= i < |ps| && x == ps[i] + [b];
      assert x[..|x| - 1] == ps[i];
    }
    forall x: Path | x != [] && x[|x| - 1] == b && x[..|x| - 1] in ps
      ensures x in Extended(ps, b)
    {
      ExtendedIn(ps, b, x);
    }
    forall i, j | 0 <= i < j < |ps|
      ensures Extended(ps, b)[i] != Extended(ps, b)[j]
    {
      assert Extended(ps, b)[i][..|ps[i]|] == ps[i] && Extended(ps, b)[j][..|ps[j]|] == ps[j];
    }
  }

  type Paths = map<nat, seq<Path>>

  function At(f: Paths, n: nat): seq<Path> {
    if n in f then f[n] else []
  }

  /** The frontier `f` holds, for each node of layer `l` that can be reached upwards from `s`, exactly
      the upward paths to it, each once. */
  ghost predicate Frontier(t: Topo, s: nat, l: nat, f: Paths) {
    && (forall n :: n in f ==> n in t.g && n in t.layers && t.layers[n] == l && f[n] != [] && Distinct(f[n]))
    && (forall n, p :: n in t.layers && t.layers[n] == l ==> (p in At(f, n) <==> Up(t, p, s, n)))
  }

  /** The paths of `f` end at their node and have length `n`. */
  ghost predicate Level(f: Paths, n: nat) {
    forall k :: k in f ==> Distinct(f[k]) && Even(f[k], n) && n > 0 && forall p :: p in f[k] ==> p[n - 1] == k
  }

  /** `x` joins a path of `ps`, whose end has the upward edges `bs`, with a path of the other frontier. */
  ghost predicate Meets(fromSrc: bool, ps: seq<Path>, bs: seq<nat>, other: Paths, x: Path) {
    exists b, p, q :: b in bs && b in other && p in ps && q in other[b] && x == Join(fromSrc, p, q)
  }

  /** `next'` is `next` with the paths of `ps` extended along the edges `bs`, but not to the other frontier. */
  ghost predicate Advanced(ps: seq<Path>, bs: seq<nat>, other: Paths, next: Paths, next': Paths) {
    && (forall b :: b in next' <==> b in next || (b in bs && b !in other))
    && (forall b :: b in next' ==>
          next'[b] == if b in bs && b !in other then At(next, b) + Extended(ps, b) else At(next, b))
  }

  lemma AdvancedStep(ps: seq<Path>, bs: seq<nat>, b: nat, other: Paths, next: Paths, next': Paths)
    requires Advanced(ps, bs, other, next, next') && b !in bs && b !in other
    ensures Advanced(ps, bs + [b], other, next, next'[b := At(next', b) + Extended(ps, b)])
  {
  }

  lemma AdvancedSkip(ps: seq<Path>, bs: seq<nat>, b: nat, other: Paths, next: Paths, next': Paths)
    requires Advanced(ps, bs, other, next, next') && b in other
    ensures Advanced(ps, bs + [b], other, next, next')
  {
  }

  /** The paths `xs` are the joins with the other frontier along the edges `bs`, each once. */
  ghost predicate AllMeetings(fromSrc: bool, ps: seq<Path>, bs: seq<nat>, other: Paths, xs: seq<Path>) {
    Distinct(xs) && forall x :: x in xs <==> Meets(fromSrc, ps, bs, other, x)
  }

  lemma MeetingsSkip(fromSrc: bool, ps: seq<Path>, bs: seq<nat>, b: nat, other: Paths, xs: seq<Path>)
    requires AllMeetings(fromSrc, ps, bs, other, xs) && b !in other
    ensures AllMeetings(fromSrc, ps, bs + [b], other, xs)
  {
    assert forall c :: c in bs + [b] && c in other <==> c in bs && c in other;
  }

  /** Visit one more upward edge. */
  method ExpandEdge(fromSrc: bool, ps: seq<Path>, ghost bs: seq<nat>, b: nat, other: Paths, ghost n: nat, ghost m: nat,
                    ghost before: Paths, xs: seq<Path>, next: Paths)
    returns (xs': seq<Path>, next': Paths)
    requires Distinct(ps) && Even(ps, n) && Level(other, m) && b !in bs
    requires AllMeetings(fromSrc, ps, bs, other, xs) && Advanced(ps, bs, other, before, next)
    ensures AllMeetings(fromSrc, ps, bs + [b], other, xs') && Advanced(ps, bs + [b], other, before, next')
  {
    if b in other {
      var ys := Combine(fromSrc, ps, other[b], n, m);
      MeetsApart(fromSrc, ps, bs, b, other, n, m, xs, ys);
      AdvancedSkip(ps, bs, b, other, before, next);
      xs', next' := xs + ys, next;
    } else {
      MeetingsSkip(fromSrc, ps, bs, b, other, xs);
      AdvancedStep(ps, bs, b, other, before, next);
      xs', next' := xs, next[b := At(next, b) + Extended(ps, b)];
    }
  }

  /** Visit the upward edges `bs` of one node: a path is complete where the other frontier is met, and
      extended elsewhere. */
  method ExpandNode(fromSrc: bool, ps: seq<Path>, bs: seq<nat>, other: Paths, ghost n: nat, ghost m: nat, next: Paths)
    returns (complete: seq<Path>, next': Paths)
    requires Distinct(ps) && Even(ps, n) && Distinct(bs) && Level(other, m)
    ensures AllMeetings(fromSrc, ps, bs, other, complete)
    ensures Advanced(ps, bs, other, next, next')
  {
    complete, next' := [], next;
    for i := 0 to |bs|
      invariant AllMeetings(fromSrc, ps, bs[..i], other, complete)
      invariant Advanced(ps, bs[..i], other, next, next')
    {
      assert bs[..i + 1] == bs[..i] + [bs[i]] && bs[i] !in bs[..i];
      complete, next' := ExpandEdge(fromSrc, ps, bs[..i], bs[i], other, n, m, next, complete, next');
    }
    assert bs[..|bs|] == bs;
  }

  /** Paths complete at different nodes are different. */
  lemma MeetsApart(fromSrc: bool, ps: seq<Path>, bs: seq<nat>, b: nat, other: Paths, n: nat, m: nat,
                   xs: seq<Path>, ys: seq<Path>)
    requires AllMeetings(fromSrc, ps, bs, other, xs) && Even(ps, n) && Level(other, m) && b !in bs && b in other
    requires AllJoins(fromSrc, ps, other[b], ys)
    ensures AllMeetings(fromSrc, ps, bs + [b], other, xs + ys)
  {
    forall x, y | x in xs && y in ys
      ensures x != y
    {
      var b', p, q :| b' in bs && b' in other && p in ps && q in other[b'] && x == Join(fromSrc, p, q);
      var p', q' :| p' in ps && q' in other[b] && y == Join(fromSrc, p', q');
      assert q[m - 1] == b' && q'[m - 1] == b;
      JoinDiffers(fromSrc, p, q, p', q');
    }
    DistinctConcat(xs, ys);
    forall x
      ensures x in xs + ys <==> Meets(fromSrc, ps, bs + [b], other, x)
    {
      if x in ys {
        var p, q :| p in ps && q in other[b] && x == Join(fromSrc, p, q);
        assert b in bs + [b];
      }
      if Meets(fromSrc, ps, bs + [b], other, x) {
        var b', p, q :| b' in bs + [b] && b' in other && p in ps && q in other[b'] && x == Join(fromSrc, p, q);
        if b' in bs {
          assert Meets(fromSrc, ps, bs, other, x);
        }
      }
    }
  }

  /** `x` joins a path of the frontier `f` at one of `nodes`, one step up, with the other frontier. */
  ghost predicate Completes(t: Topo, fromSrc: bool, f: Paths, nodes: set<nat>, other: Paths, x: Path)
    requires TopoOk(t) && forall k :: k in f ==> k in t.g
  {
    exists k :: k in nodes && k in f && Meets(fromSrc, f[k], UpNodes(t, k), other, x)
  }

  /** `p` extends a path of the frontier `f` at one of `nodes` by one step up to `b`. */
  ghost predicate Extends(t: Topo, f: Paths, nodes: set<nat>, b: nat, p: Path) {
    exists k :: k in nodes && k in f && Edge(t, k, b) && |p| > 1 && p[|p| - 1] == b && p[..|p| - 1] in f[k]
  }

  /** The frontier after a step up, as far as `nodes` have been visited. */
  ghost predicate NextOf(t: Topo, f: Paths, nodes: set<nat>, other: Paths, next: Paths) {
    && (forall b :: b in next <==> b !in other && exists k :: k in nodes && k in f && Edge(t, k, b))
    && (forall b :: b in next ==> Distinct(next[b]) && forall p :: p in next[b] <==> Extends(t, f, nodes, b, p))
  }

  lemma NextVisit(t: Topo, f: Paths, nodes: set<nat>, k: nat, other: Paths, n: nat, next: Paths, next': Paths)
    requires TopoOk(t) && (forall k :: k in f ==> k in t.g) && Level(f, n)
    requires NextOf(t, f, nodes, other, next) && k in f && k !in nodes
    requires Advanced(f[k], UpNodes(t, k), other, next, next')
    ensures NextOf(t, f, nodes + {k}, other, next')
  {
    UpNodesAreEdges(t, k);
    forall b | b in next'
      ensures Distinct(next'[b])
      ensures forall p :: p in next'[b] <==> Extends(t, f, nodes + {k}, b, p)
    {
      NextVisitAt(t, f, nodes, k, n, b, At(next, b), next'[b], b in UpNodes(t, k) && b !in other);
    }
  }

  lemma NextVisitAt(t: Topo, f: Paths, nodes: set<nat>, k: nat, n: nat, b: nat, ps: seq<Path>, ps': seq<Path>,
                    here: bool)
    requires Level(f, n) && k in f && k !in nodes && Distinct(ps)
    requires forall p :: p in ps <==> Extends(t, f, nodes, b, p)
    requires ps' == if here then ps + Extended(f[k], b) else ps
    requires here <==> Edge(t, k, b)
    ensures Distinct(ps')
    ensures forall p :: p in ps' <==> Extends(t, f, nodes + {k}, b, p)
  {
    ExtendedMembers(f[k], b);
    if here {
      forall p, q | p in ps && q in Extended(f[k], b)
        ensures p != q
      {
        var k' :| k' in nodes && k' in f && Edge(t, k', b) && |p| > 1 && p[|p| - 1] == b && p[..|p| - 1] in f[k'];
        assert p[..|p| - 1][n - 1] == k';
        assert q[..|q| - 1][n - 1] == k;
      }
      DistinctConcat(ps, Extended(f[k], b));
    }
    forall p
      ensures p in ps' <==> Extends(t, f, nodes + {k}, b, p)
    {
      if p in ps' && p !in ps {
        assert p in Extended(f[k], b) && p[..|p| - 1] in f[k] && |p[..|p| - 1]| == n;
        assert k in nodes + {k};
      }
      if Extends(t, f, nodes + {k}, b, p) {
        var k' :| k' in nodes + {k} && k' in f && Edge(t, k', b) && |p| > 1 && p[|p| - 1] == b && p[..|p| - 1] in f[k'];
        if k' != k {
          assert Extends(t, f, nodes, b, p);
        }
      }
    }
  }

  /** Paths complete from different nodes are different. */
  lemma CompletesVisit(t: Topo, fromSrc: bool, f: Paths, nodes: set<nat>, k: nat, other: Paths, n: nat, m: nat,
                       xs: seq<Path>, ys: seq<Path>)
    requires TopoOk(t) && (forall k :: k in f ==> k in t.g) && Level(f, n) && Level(other, m)
    requires k in f && k !in nodes && Distinct(xs) && Distinct(ys)
    requires forall x :: x in xs <==> Completes(t, fromSrc, f, nodes, other, x)
    requires forall x :: x in ys <==> Meets(fromSrc, f[k], UpNodes(t, k), other, x)
    ensures Distinct(xs + ys)
    ensures forall x :: x in xs + ys <==> Completes(t, fromSrc, f, nodes + {k}, other, x)
  {
    forall x, y | x in xs && y in ys
      ensures x != y
    {
      var k' :| k' in nodes && k' in f && Meets(fromSrc, f[k'], UpNodes(t, k'), other, x);
      MeetsApartAt(fromSrc, f, k', k, UpNodes(t, k'), UpNodes(t, k), other, n, m, x, y);
    }
    DistinctConcat(xs, ys);
    forall x
      ensures x in xs + ys <==> Completes(t, fromSrc, f, nodes + {k}, other, x)
    {
      CompletesNext(t, fromSrc, f, nodes, k, other, x);
    }
  }

  lemma MeetsApartAt(fromSrc: bool, f: Paths, k: nat, k': nat, bs: seq<nat>, bs': seq<nat>, other: Paths,
                     n: nat, m: nat, x: Path, y: Path)
    requires Level(f, n) && Level(other, m) && k in f && k' in f && k != k'
    requires Meets(fromSrc, f[k], bs, other, x) && Meets(fromSrc, f[k'], bs', other, y)
    ensures x != y
  {
    var b, p, q :| b in bs && b in other && p in f[k] && q in other[b] && x == Join(fromSrc, p, q);
    var b', p', q' :| b' in bs' && b' in other && p' in f[k'] && q' in other[b'] && y == Join(fromSrc, p', q');
    assert p[n - 1] == k && p'[n - 1] == k';
    JoinDiffers(fromSrc, p, q, p', q');
  }

  lemma CompletesNext(t: Topo, fromSrc: bool, f: Paths, nodes: set<nat>, k: nat, other: Paths, x: Path)
    requires TopoOk(t) && (forall k :: k in f ==> k in t.g) && k in f
    ensures Completes(t, fromSrc, f, nodes + {k}, other, x) <==>
            Completes(t, fromSrc, f, nodes, other, x) || Meets(fromSrc, f[k], UpNodes(t, k), other, x)
  {
    assert k in nodes + {k};
  }

  /** Expand every node of a frontier. */
  method Expand(t: Topo, fromSrc: bool, f: Paths, other: Paths, ghost n: nat, ghost m: nat)
    returns (complete: seq<Path>, next: Paths)
    requires TopoOk(t) && (forall k :: k in f ==> k in t.g) && Level(f, n) && Level(other, m)
    ensures Distinct(complete)
    ensures forall x :: x in complete <==> Completes(t, fromSrc, f, f.Keys, other, x)
    ensures NextOf(t, f, f.Keys, other, next)
  {
    complete, next := [], map[];
    var todo := f.Keys;
    ghost var nodes: set<nat> := {};
    while todo != {}
      invariant nodes + todo == f.Keys && nodes !! todo
      invariant Distinct(complete)
      invariant forall x :: x in complete <==> Completes(t, fromSrc, f, nodes, other, x)
      invariant NextOf(t, f, nodes, other, next)
      decreases todo
    {
      var k :| k in todo;
      UpNodesAreEdges(t, k);
      var xs, next' := ExpandNode(fromSrc, f[k], UpNodes(t, k), other, n, m, next);
      CompletesVisit(t, fromSrc, f, nodes, k, other, n, m, complete, xs);
      NextVisit(t, f, nodes, k, other, n, next, next');
      complete, next, todo, nodes := complete + xs, next', todo - {k}, nodes + {k};
    }
    assert nodes == f.Keys;
  }

  // ----- What an expansion finds -----

  lemma FrontierLevel(t: Topo, s: nat, l: nat, f: Paths)
    requires TopoOk(t) && s in t.g && l <= t.layers[s] && Frontier(t, s, l, f)
    ensures Level(f, t.layers[s] - l + 1)
  {
    forall k, p | k in f && p in f[k]
      ensures |p| == t.layers[s] - l + 1 && p[|p| - 1] == k
    {
      assert p in At(f, k);
      UpLength(t, p, s, k);
    }
  }

  /** A longer upward path ends with an edge from the layer below. */
  lemma UpLast(t: Topo, s: nat, l: nat, f: Paths, p: Path, b: nat)
    requires TopoOk(t) && s in t.g && Frontier(t, s, l + 1, f) && l + 1 <= t.layers[s]
    requires Up(t, p, s, b) && t.layers[b] == l
    ensures |p| > 1 && Edge(t, p[|p| - 2], b) && p[|p| - 2] in f && p[..|p| - 1] in f[p[|p| - 2]]
  {
    UpLength(t, p, s, b);
    var k := p[|p| - 2];
    assert p[..|p| - 1] in At(f, k);
  }

  lemma UpSnoc(t: Topo, s: nat, p: Path, k: nat, b: nat)
    requires TopoOk(t) && Up(t, p, s, k) && Edge(t, k, b)
    ensures Up(t, p + [b], s, b)
  {
    assert (p + [b])[..|p|] == p;
  }

  /** Where the other frontier was not met, the step up is the whole frontier of the next layer. */
  lemma FrontierStep(t: Topo, s: nat, l: nat, f: Paths, other: Paths, next: Paths)
    requires TopoOk(t) && s in t.g && Frontier(t, s, l + 1, f) && l + 1 <= t.layers[s]
    requires NextOf(t, f, f.Keys, other, next)
    requires forall k, b :: k in f && Edge(t, k, b) ==> b !in other
    ensures Frontier(t, s, l, next)
  {
    forall b | b in next
      ensures b in t.g && b in t.layers && t.layers[b] == l && next[b] != [] && Distinct(next[b])
    {
      var k :| k in f.Keys && k in f && Edge(t, k, b);
      assert f[k][0] in At(f, k);
      UpSnoc(t, s, f[k][0], k, b);
      var p := f[k][0] + [b];
      assert p[..|p| - 1] == f[k][0];
      assert Extends(t, f, f.Keys, b, p);
    }
    forall b, p | b in t.layers && t.layers[b] == l
      ensures p in At(next, b) <==> Up(t, p, s, b)
    {
      if p in At(next, b) {
        ExtendsUp(t, s, l, f, b, p);
      }
      if Up(t, p, s, b) {
        UpLast(t, s, l, f, p, b);
        assert Extends(t, f, f.Keys, b, p);
      }
    }
  }

  lemma ExtendsUp(t: Topo, s: nat, l: nat, f: Paths, b: nat, p: Path)
    requires TopoOk(t) && s in t.g && Frontier(t, s, l + 1, f) && Extends(t, f, f.Keys, b, p)
    ensures Up(t, p, s, b)
  {
    var k :| k in f.Keys && k in f && Edge(t, k, b) && |p| > 1 && p[|p| - 1] == b && p[..|p| - 1] in f[k];
    var q := p[..|p| - 1];
    assert q in At(f, k);
    UpSnoc(t, s, q, k, b);
    Rejoin(p);
  }

  lemma Rejoin(p: Path)
    requires p != []
    ensures p == p[..|p| - 1] + [p[|p| - 1]]
  {
  }

  /** Meeting a non-empty frontier completes a path. */
  lemma MeetingCompletes(t: Topo, fromSrc: bool, f: Paths, other: Paths, k: nat, b: nat)
    requires TopoOk(t) && (forall k :: k in f ==> k in t.g)
    requires k in f && f[k] != [] && Edge(t, k, b) && b in other && other[b] != []
    ensures Completes(t, fromSrc, f, f.Keys, other, Join(fromSrc, f[k][0], other[b][0]))
  {
    UpNodesAreEdges(t, k);
    var x := Join(fromSrc, f[k][0], other[b][0]);
    assert f[k][0] in f[k] && other[b][0] in other[b];
    assert Meets(fromSrc, f[k], UpNodes(t, k), other, x);
  }

  /** Joining at `b`: the apex belongs to either half. */
  lemma JoinAt(p: Path, b: nat, q: Path)
    requires q != [] && q[|q| - 1] == b
    ensures (p + [b]) + Reverse(q[..|q| - 1]) == Join(true, p, q)
  {
    assert Reverse(q) == [b] + Reverse(q[..|q| - 1]);
  }

  lemma SrcCompletesApex(t: Topo, s: nat, e: nat, d: nat, f: Paths, other: Paths, x: Path)
    requires TopoOk(t) && Frontier(t, s, d + 1, f) && Frontier(t, e, d, other)
    requires Completes(t, true, f, f.Keys, other, x)
    ensures Apex(t, s, e, d, x)
  {
    var k :| k in f.Keys && k in f && Meets(true, f[k], UpNodes(t, k), other, x);
    var b, p, q :| b in UpNodes(t, k) && b in other && p in f[k] && q in other[b] && x == Join(true, p, q);
    UpNodesAreEdges(t, k);
    assert p in At(f, k) && q in At(other, b);
    UpSnoc(t, s, p, k, b);
    JoinAt(p, b, q);
    assert UpDown(t, s, e, b, p + [b], q, x);
  }

  lemma SrcApexCompletes(t: Topo, s: nat, e: nat, d: nat, f: Paths, other: Paths, x: Path)
    requires TopoOk(t) && s in t.g && d + 1 <= t.layers[s]
    requires Frontier(t, s, d + 1, f) && Frontier(t, e, d, other)
    requires Apex(t, s, e, d, x)
    ensures Completes(t, true, f, f.Keys, other, x)
  {
    var b, u, v :| UpDown(t, s, e, b, u, v, x) && t.layers[b] == d;
    UpLast(t, s, d, f, u, b);
    var k, p := u[|u| - 2], u[..|u| - 1];
    UpNodesAreEdges(t, k);
    assert v in At(other, b);
    assert u == p + [b];
    JoinAt(p, b, v);
    assert Meets(true, f[k], UpNodes(t, k), other, x);
  }

  lemma DstCompletesApex(t: Topo, s: nat, e: nat, d: nat, f: Paths, other: Paths, x: Path)
    requires TopoOk(t) && Frontier(t, e, d + 1, f) && Frontier(t, s, d, other)
    requires Completes(t, false, f, f.Keys, other, x)
    ensures Apex(t, s, e, d, x)
  {
    var k :| k in f.Keys && k in f && Meets(false, f[k], UpNodes(t, k), other, x);
    var b, p, q :| b in UpNodes(t, k) && b in other && p in f[k] && q in other[b] && x == Join(false, p, q);
    UpNodesAreEdges(t, k);
    assert p in At(f, k) && q in At(other, b);
    UpSnoc(t, e, p, k, b);
    assert (p + [b])[..|p|] == p;
    assert UpDown(t, s, e, b, q, p + [b], x);
  }

  lemma DstApexCompletes(t: Topo, s: nat, e: nat, d: nat, f: Paths, other: Paths, x: Path)
    requires TopoOk(t) && e in t.g && d + 1 <= t.layers[e]
    requires Frontier(t, e, d + 1, f) && Frontier(t, s, d, other)
    requires Apex(t, s, e, d, x)
    ensures Completes(t, false, f, f.Keys, other, x)
  {
    var b, u, v :| UpDown(t, s, e, b, u, v, x) && t.layers[b] == d;
    UpLast(t, e, d, f, v, b);
    var k, p := v[|v| - 2], v[..|v| - 1];
    UpNodesAreEdges(t, k);
    assert u in At(other, b);
    assert x == Join(false, p, u);
    assert Meets(false, f[k], UpNodes(t, k), other, x);
  }

  /** A frontier in another layer is not met, and no path has its apex below its own ends. */
  lemma NoMeeting(t: Topo, fromSrc: bool, s: nat, f: Paths, l: nat, other: Paths, e: nat, d: nat)
    requires TopoOk(t) && Frontier(t, s, d + 1, f) && Frontier(t, e, l, other) && l != d
    ensures forall k, b :: k in f && Edge(t, k, b) ==> b !in other
    ensures forall x :: !Completes(t, fromSrc, f, f.Keys, other, x)
  {
    forall x
      ensures !Completes(t, fromSrc, f, f.Keys, other, x)
    {
      if Completes(t, fromSrc, f, f.Keys, other, x) {
        var k :| k in f.Keys && k in f && Meets(fromSrc, f[k], UpNodes(t, k), other, x);
        var b :| b in UpNodes(t, k) && b in other;
        UpNodesAreEdges(t, k);
      }
    }
  }

  lemma NoApexBelow(t: Topo, s: nat, e: nat, d: nat, x: Path)
    requires Apex(t, s, e, d, x)
    ensures s in t.layers && e in t.layers && d <= t.layers[s] && d <= t.layers[e]
  {
    var a, u, v :| UpDown(t, s, e, a, u, v, x) && t.layers[a] == d;
    UpLength(t, u, s, a);
    UpLength(t, v, e, a);
  }

  // ----- The search -----

  function Min(a: nat, b: nat): nat {
    if a < b then a else b
  }

  /** The frontiers between two rounds: each at layer `d`, or still at its start if that is closer to the
      core. */
  ghost predicate Ready(t: Topo, s: nat, e: nat, d: nat, src: Paths, dst: Paths) {
    && s in t.g && e in t.g && TopoOk(t)
    && Frontier(t, s, Min(t.layers[s], d), src)
    && Frontier(t, e, Min(t.layers[e], d), dst)
  }

  class StructuredRouting {
    const topo: Topo
    var srcPaths: Paths
    var dstPaths: Paths
    var srcLayer: nat
    var dstLayer: nat

    constructor (topo: Topo)
      ensures this.topo == topo
    {
      this.topo := topo;
      srcPaths, dstPaths, srcLayer, dstLayer := map[], map[], 0, 0;
    }

    /** Extend the frontiers to layer `d`: the complete paths are exactly those with their apex there,
        each once. */
    method ExtendReachable(d: nat, ghost s: nat, ghost e: nat) returns (complete: seq<Path>)
      requires Ready(topo, s, e, d + 1, srcPaths, dstPaths)
      requires srcLayer == Min(topo.layers[s], d + 1) && dstLayer == Min(topo.layers[e], d + 1)
      requires srcLayer > d || dstLayer > d
      modifies this
      ensures Distinct(complete)
      ensures forall x :: x in complete <==> Apex(topo, s, e, d, x)
      ensures complete == [] ==>
                && Ready(topo, s, e, d, srcPaths, dstPaths)
                && srcLayer == Min(topo.layers[s], d) && dstLayer == Min(topo.layers[e], d)
    {
      complete := [];
      if srcLayer > d {
        var next;
        complete, next := ClimbSrc(topo, d, srcPaths, dstPaths, dstLayer, s, e);
        srcPaths, srcLayer := next, srcLayer - 1;
      }
      if dstLayer > d {
        var more, next := ClimbDst(topo, d, srcPaths, dstPaths, srcLayer, s, e);
        assert complete == [];
        complete := complete + more;
        dstPaths, dstLayer := next, dstLayer - 1;
      }
    }

    /** All routes from `s` to `e`: exactly the up-then-down paths whose apex lies in the layer closest to
        the hosts where there is one, each once; none when there is no such path at all. */
    method GetAllRoute(s: nat, e: nat) returns (r: Option<seq<Path>>)
      requires TopoOk(topo) && s in topo.g && e in topo.g
      modifies this
      ensures r.None? ==> forall d :: !HasApex(topo, s, e, d)
      ensures r.Some? ==> r.value != [] && Distinct(r.value) && exists d :: Nearest(topo, s, e, d, r.value)
    {
      if s == e {
        SameNode(topo, s);
        return Some([[s]]);
      }
      srcPaths, dstPaths := map[s := [[s]]], map[e := [[e]]];
      srcLayer, dstLayer := topo.layers[s], topo.layers[e];
      Seed(topo, s);
      Seed(topo, e);
      var d := if dstLayer > srcLayer then dstLayer else srcLayer;
      DifferentNodes(topo, s, e, d);
      while d > 0
        invariant 0 <= d && Ready(topo, s, e, d, srcPaths, dstPaths)
        invariant d <= topo.layers[s] || d <= topo.layers[e]
        invariant srcLayer == Min(topo.layers[s], d) && dstLayer == Min(topo.layers[e], d)
        invariant forall d' :: d' >= d ==> !HasApex(topo, s, e, d')
      {
        d := d - 1;
        var found := ExtendReachable(d, s, e);
        if found != [] {
          assert Nearest(topo, s, e, d, found);
          return Some(found);
        }
        assert !HasApex(topo, s, e, d);
      }
      return None;
    }
  }

  /** `xs` are the paths with their apex in layer `d`, and no layer closer to the hosts has any. */
  ghost predicate Nearest(t: Topo, s: nat, e: nat, d: nat, xs: seq<Path>) {
    (forall x :: x in xs <==> Apex(t, s, e, d, x)) && (forall d' :: d' > d ==> !HasApex(t, s, e, d'))
  }

  lemma Seed(t: Topo, s: nat)
    requires TopoOk(t) && s in t.g
    ensures Frontier(t, s, t.layers[s], map[s := [[s]]])
  {
    var f := map[s := [[s]]];
    assert Up(t, [s], s, s);
    forall n, p | n in t.layers && t.layers[n] == t.layers[s]
      ensures p in At(f, n) <==> Up(t, p, s, n)
    {
      if Up(t, p, s, n) {
        UpLength(t, p, s, n);
        assert p == [s];
      }
    }
  }

  lemma NoApexUnder(t: Topo, s: nat, e: nat, d: nat)
    requires TopoOk(t) && s in t.g && e in t.g && (d > t.layers[s] || d > t.layers[e])
    ensures !HasApex(t, s, e, d)
  {
    if HasApex(t, s, e, d) {
      var x :| Apex(t, s, e, d, x);
      NoApexBelow(t, s, e, d, x);
    }
  }

  lemma SameNode(t: Topo, s: nat)
    requires TopoOk(t) && s in t.g
    ensures Nearest(t, s, s, t.layers[s], [[s]])
  {
    var d := t.layers[s];
    assert Up(t, [s], s, s);
    assert UpDown(t, s, s, s, [s], [s], [s]);
    forall x | Apex(t, s, s, d, x)
      ensures x == [s]
    {
      var a, u, v :| UpDown(t, s, s, a, u, v, x) && t.layers[a] == d;
      UpLength(t, u, s, a);
      UpLength(t, v, s, a);
      assert u == [s] && v == [s];
    }
    forall d' | d' > d
      ensures !HasApex(t, s, s, d')
    {
      NoApexUnder(t, s, s, d');
    }
  }

  lemma OneNode(t: Topo, p: Path, s: nat, n: nat)
    requires TopoOk(t) && Up(t, p, s, n) && s in t.layers && t.layers[s] <= t.layers[n]
    ensures s == n
  {
    UpLength(t, p, s, n);
  }

  lemma EmptyOrFirst<T>(s: seq<T>)
    ensures s == [] || s[0] in s
  {
  }

  /** Two nodes share no apex in the layer of the one closer to the hosts. */
  lemma DifferentNodes(t: Topo, s: nat, e: nat, d: nat)
    requires TopoOk(t) && s in t.g && e in t.g && s != e
    requires d >= t.layers[s] && d >= t.layers[e]
    ensures forall d' :: d' >= d ==> !HasApex(t, s, e, d')
  {
    forall d' | d' >= d
      ensures !HasApex(t, s, e, d')
    {
      if d' > t.layers[s] || d' > t.layers[e] {
        NoApexUnder(t, s, e, d');
      } else if HasApex(t, s, e, d') {
        var x :| Apex(t, s, e, d', x);
        var a, u, v :| UpDown(t, s, e, a, u, v, x) && t.layers[a] == d';
        OneNode(t, u, s, a);
        OneNode(t, v, e, a);
      }
    }
  }

  // ----- Returned paths are simple -----

  /** A node of an upward path is reached upwards, in the layer its position gives. */
  lemma {:induction false} UpNode(t: Topo, p: Path, s: nat, n: nat, i: nat)
    requires Up(t, p, s, n) && i < |p|
    ensures Up(t, p[..i + 1], s, p[i])
    decreases |p|
  {
    if i + 1 == |p| {
      assert p[..i + 1] == p;
    } else {
      UpNode(t, p[..|p| - 1], s, p[|p| - 2], i);
      assert p[..|p| - 1][..i + 1] == p[..i + 1];
    }
  }

  lemma UpNodeLayer(t: Topo, p: Path, s: nat, n: nat, i: nat)
    requires Up(t, p, s, n) && i < |p|
    ensures s in t.layers && p[i] in t.layers && t.layers[p[i]] + i == t.layers[s]
  {
    UpNode(t, p, s, n, i);
    UpLength(t, p[..i + 1], s, p[i]);
  }

  /** A node on both halves is an apex of its own. */
  lemma SharedNode(t: Topo, s: nat, e: nat, a: nat, u: Path, v: Path, i: nat, j: nat)
    requires Up(t, u, s, a) && Up(t, v, e, a) && i < |u| && j < |v| && u[i] == v[j]
    ensures u[i] in t.layers && HasApex(t, s, e, t.layers[u[i]])
  {
    UpNode(t, u, s, a, i);
    UpNode(t, v, e, a, j);
    UpNodeLayer(t, u, s, a, i);
    var x := u[..i + 1] + Reverse(v[..j + 1][..|v[..j + 1]| - 1]);
    assert UpDown(t, s, e, u[i], u[..i + 1], v[..j + 1], x);
    assert Apex(t, s, e, t.layers[u[i]], x);
  }

  lemma UpDistinct(t: Topo, p: Path, s: nat, n: nat)
    requires Up(t, p, s, n)
    ensures Distinct(p)
  {
    forall i, j | 0 <= i < j < |p|
      ensures p[i] != p[j]
    {
      UpNodeLayer(t, p, s, n, i);
      UpNodeLayer(t, p, s, n, j);
    }
  }

  /** A returned path visits no node twice: a node shared by its two halves below the apex would have been
      an apex closer to the hosts, where the search found none. */
  lemma RoutesAreSimple(t: Topo, s: nat, e: nat, d: nat, xs: seq<Path>, x: Path)
    requires Nearest(t, s, e, d, xs) && x in xs
    ensures Distinct(x) && x[0] == s && x[|x| - 1] == e
  {
    var a, u, v :| UpDown(t, s, e, a, u, v, x) && t.layers[a] == d;
    var w := v[..|v| - 1];
    UpDistinct(t, u, s, a);
    UpDistinct(t, v, e, a);
    UpLength(t, u, s, a);
    UpLength(t, v, e, a);
    ReverseAt(w);
    forall i, j | 0 <= i < j < |Reverse(w)|
      ensures Reverse(w)[i] != Reverse(w)[j]
    {
      assert Reverse(w)[i] == v[|w| - 1 - i] && Reverse(w)[j] == v[|w| - 1 - j];
    }
    forall n, m | n in u && m in Reverse(w)
      ensures n != m
    {
      var i :| 0 <= i < |u| && u[i] == n;
      var k :| 0 <= k < |w| && Reverse(w)[k] == m;
      var j := |w| - 1 - k;
      assert m == v[j];
      UpNodeLayer(t, v, e, a, j);
      UpNodeLayer(t, v, e, a, |v| - 1);
      if n == m {
        SharedNode(t, s, e, a, u, v, i, j);
      }
    }
    DistinctConcat(u, Reverse(w));
  }

  method ClimbSrc(t: Topo, d: nat, src: Paths, dst: Paths, l: nat, ghost s: nat, ghost e: nat)
    returns (complete: seq<Path>, next: Paths)
    requires TopoOk(t) && s in t.g && e in t.g && d + 1 <= t.layers[s]
    requires Frontier(t, s, d + 1, src) && Frontier(t, e, l, dst) && l == Min(t.layers[e], d + 1)
    ensures Distinct(complete)
    ensures l > d ==> complete == []
    ensures l <= d ==> forall x :: x in complete <==> Apex(t, s, e, d, x)
    ensures complete == [] ==> Frontier(t, s, d, next)
  {
    FrontierLevel(t, s, d + 1, src);
    FrontierLevel(t, e, l, dst);
    complete, next := Expand(t, true, src, dst, t.layers[s] - d, t.layers[e] - l + 1);
    SrcRound(t, s, e, d, src, dst, l, next, complete);
  }

  method ClimbDst(t: Topo, d: nat, src: Paths, dst: Paths, l: nat, ghost s: nat, ghost e: nat)
    returns (complete: seq<Path>, next: Paths)
    requires TopoOk(t) && s in t.g && e in t.g && d + 1 <= t.layers[e]
    requires Frontier(t, e, d + 1, dst) && Frontier(t, s, l, src) && l == Min(t.layers[s], d)
    ensures Distinct(complete)
    ensures forall x :: x in complete <==> Apex(t, s, e, d, x)
    ensures complete == [] ==> Frontier(t, e, d, next)
  {
    FrontierLevel(t, e, d + 1, dst);
    FrontierLevel(t, s, l, src);
    complete, next := Expand(t, false, dst, src, t.layers[e] - d, t.layers[s] - l + 1);
    DstRound(t, s, e, d, src, dst, l, next, complete);
  }

  /** The source's half of a round. */
  lemma SrcRound(t: Topo, s: nat, e: nat, d: nat, f: Paths, other: Paths, l: nat, next: Paths, complete: seq<Path>)
    requires TopoOk(t) && s in t.g && e in t.g && d + 1 <= t.layers[s]
    requires Frontier(t, s, d + 1, f) && Frontier(t, e, l, other) && l == Min(t.layers[e], d + 1)
    requires NextOf(t, f, f.Keys, other, next)
    requires forall x :: x in complete <==> Completes(t, true, f, f.Keys, other, x)
    ensures l > d ==> complete == []
    ensures l <= d ==> forall x :: x in complete <==> Apex(t, s, e, d, x)
    ensures complete == [] ==> Frontier(t, s, d, next)
  {
    if l == d {
      forall x
        ensures x in complete <==> Apex(t, s, e, d, x)
      {
        if x in complete {
          SrcCompletesApex(t, s, e, d, f, other, x);
        }
        if Apex(t, s, e, d, x) {
          SrcApexCompletes(t, s, e, d, f, other, x);
        }
      }
    } else {
      NoMeeting(t, true, s, f, l, other, e, d);
      EmptyOrFirst(complete);
      if l < d {
        forall x
          ensures !Apex(t, s, e, d, x)
        {
          if Apex(t, s, e, d, x) {
            NoApexBelow(t, s, e, d, x);
          }
        }
      }
    }
    if complete == [] {
      Unmet(t, true, f, other, complete);
      FrontierStep(t, s, d, f, other, next);
    }
  }

  lemma Unmet(t: Topo, fromSrc: bool, f: Paths, other: Paths, complete: seq<Path>)
    requires TopoOk(t) && (forall k :: k in f ==> k in t.g && f[k] != []) && (forall b :: b in other ==> other[b] != [])
    requires complete == [] && forall x :: x in complete <==> Completes(t, fromSrc, f, f.Keys, other, x)
    ensures forall k, b :: k in f && Edge(t, k, b) ==> b !in other
  {
    forall k, b | k in f && Edge(t, k, b)
      ensures b !in other
    {
      if b in other {
        MeetingCompletes(t, fromSrc, f, other, k, b);
      }
    }
  }

  /** The destination's half of a round. */
  lemma DstRound(t: Topo, s: nat, e: nat, d: nat, other: Paths, f: Paths, l: nat, next: Paths, complete: seq<Path>)
    requires TopoOk(t) && s in t.g && e in t.g && d + 1 <= t.layers[e]
    requires Frontier(t, e, d + 1, f) && Frontier(t, s, l, other) && l == Min(t.layers[s], d)
    requires NextOf(t, f, f.Keys, other, next)
    requires forall x :: x in complete <==> Completes(t, false, f, f.Keys, other, x)
    ensures forall x :: x in complete <==> Apex(t, s, e, d, x)
    ensures complete == [] ==> Frontier(t, e, d, next)
  {
    if l == d {
      forall x
        ensures x in complete <==> Apex(t, s, e, d, x)
      {
        if x in complete {
          DstCompletesApex(t, s, e, d, f, other, x);
        }
        if Apex(t, s, e, d, x) {
          DstApexCompletes(t, s, e, d, f, other, x);
        }
      }
    } else {
      NoMeeting(t, false, e, f, l, other, s, d);
      forall x
        ensures x !in complete && !Apex(t, s, e, d, x)
      {
        if Apex(t, s, e, d, x) {
          NoApexBelow(t, s, e, d, x);
        }
      }
    }
    if complete == [] {
      Unmet(t, false, f, other, complete);
      FrontierStep(t, e, d, f, other, next);
    }
  }
}
