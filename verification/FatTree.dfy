/** The numbering and the wiring of a fat tree of k-port switches
    (experiments/fat_tree_dc/hedera.py, experiments/fat_tree_dc/ripl/horsedctopo.py). */
module FatTree {
  import opened Arithmetic

  // ----- Host names -----

  /** A host by pod, edge switch and link. */
  datatype HostName = HostName(pod: int, edge: int, link: int)

  function GetHostName(k: nat, index: nat): HostName
    requires k >= 2
  {
    Quarter(k);
    HostName(index / (k * k / 4), (index % (k * k / 4)) / (k / 2), index % (k / 2) + 2)
  }

  function GetHostIndex(k: nat, h: HostName): int {
    h.pod * (k * k / 4) + h.edge * (k / 2) + h.link - 2
  }

  predicate IsHost(k: nat, h: HostName) {
    0 <= h.pod < k && 0 <= h.edge < k / 2 && 2 <= h.link < k / 2 + 2
  }

  lemma Quarter(k: nat)
    requires k >= 2
    ensures k * k / 4 > 0
  {
    assert k * k >= 4;
  }

  lemma Halved(m: nat)
    ensures (2 * m) * (2 * m) / 4 == m * m && (2 * m) / 2 == m
    ensures (2 * m) * (2 * m) * (2 * m) / 4 == 2 * m * (m * m)
  {
    assert (2 * m) * (2 * m) == 4 * (m * m);
    assert (2 * m) * (2 * m) * (2 * m) == 4 * (2 * m * (m * m));
  }

  lemma Factored(p: int, e: int, m: int)
    ensures (p * m + e) * m == p * (m * m) + e * m
  {
  }

  /** The index of a name is in range, and gives the name back. */
  lemma IndexThenName(m: nat, h: HostName)
    requires m >= 1 && IsHost(2 * m, h)
    ensures 0 <= GetHostIndex(2 * m, h) < 2 * m * (m * m)
    ensures GetHostName(2 * m, GetHostIndex(2 * m, h)) == h
  {
    Halved(m);
    var i, rest := GetHostIndex(2 * m, h), h.edge * m + (h.link - 2);
    Below(h.edge, m, m, h.link - 2);
    Below(h.pod, m * m, 2 * m, rest);
    assert i == h.pod * (m * m) + rest;
    Divides(i, h.pod, m * m, rest);
    Divides(rest, h.edge, m, h.link - 2);
    Factored(h.pod, h.edge, m);
    Divides(i, h.pod * m + h.edge, m, h.link - 2);
  }

  /** The name of an index is a host's, and gives the index back. */
  lemma NameThenIndex(m: nat, i: nat)
    requires m >= 1 && i < 2 * m * (m * m)
    ensures IsHost(2 * m, GetHostName(2 * m, i))
    ensures GetHostIndex(2 * m, GetHostName(2 * m, i)) == i
  {
    Halved(m);
    var p, rest := i / (m * m), i % (m * m);
    DividedBelow(i, m * m, 2 * m);
    DividedBelow(rest, m, m);
    var e, l := rest / m, rest % m;
    Factored(p, e, m);
    Divides(i, p * m + e, m, l);
  }

  // ----- Traffic with a stride -----

  /** Every host sends `stride` hosts further on, around the end. */
  ghost predicate Strided(matrix: seq<nat>, stride: int) {
    forall i :: 0 <= i < |matrix| ==> 0 <= matrix[i] < |matrix| && (matrix[i] - i - stride) % |matrix| == 0
  }

  /** The destinations of the hosts in turn. */
  method ComputeStride(k: nat, stride: int) returns (matrix: seq<nat>)
    ensures |matrix| == k * k * k / 4
    ensures Strided(matrix, stride)
  {
    matrix := [];
    var n := k * k * k / 4;
    while |matrix| < n
      invariant |matrix| <= n
      invariant forall i :: 0 <= i < |matrix| ==> matrix[i] == (i + stride) % n
    {
      matrix := matrix + [(|matrix| + stride) % n];
    }
    forall i | 0 <= i < n
      ensures (matrix[i] - i - stride) % n == 0
    {
      var x := i + stride;
      Divides(x % n - x, -(x / n), n, 0);
    }
  }

  lemma SameRemainder(a: int, b: int, n: int)
    requires n > 0 && 0 <= a < n && 0 <= b < n && (a - b) % n == 0
    ensures a == b
  {
    var q := (a - b) / n;
    assert a - b == q * n;
    if q > 0 {
      Monotone(1, q, n);
    } else if q < 0 {
      Monotone(q, -1, n);
    }
  }

  lemma DifferenceDivides(x: int, y: int, n: int)
    requires n > 0 && x % n == 0 && y % n == 0
    ensures (x - y) % n == 0
  {
    Divides(x - y, x / n - y / n, n, 0);
  }

  /** No two hosts send to the same one, and every host is sent to. */
  lemma StrideIsPermutation(matrix: seq<nat>, stride: int)
    requires Strided(matrix, stride)
    ensures forall i, j :: 0 <= i < j < |matrix| ==> matrix[i] != matrix[j]
    ensures forall v :: 0 <= v < |matrix| ==> v in matrix
  {
    var n := |matrix|;
    forall i, j | 0 <= i < j < n
      ensures matrix[i] != matrix[j]
    {
      if matrix[i] == matrix[j] {
        DifferenceDivides(matrix[i] - i - stride, matrix[j] - j - stride, n);
        SameRemainder(j, i, n);
      }
    }
    forall v | 0 <= v < n
      ensures v in matrix
    {
      var i := (v - stride) % n;
      Divides((v - stride) - i, (v - stride) / n, n, 0);
      DifferenceDivides(matrix[i] - i - stride, v - stride - i, n);
      SameRemainder(matrix[i], v, n);
    }
  }

  // ----- Wiring -----

  /** The nodes of the topology. With 2m ports: the core switches (i, j) for 1 <= i, j <= m, the
      aggregation switches m .. 2m - 1 and the edge switches 0 .. m - 1 of the 2m pods, and the hosts
      2 .. m + 1 of an edge switch. */
  datatype Node =
    | Core(sw: nat, host: nat)
    | Agg(pod: nat, sw: nat)
    | Edge(pod: nat, sw: nat)
    | Host(pod: nat, sw: nat, host: nat)

  datatype Ports = Ports(src: int, dst: int) | NoPort

  /** The port numbers of a link, before switch ports are shifted by one. */
  function RawPort(m: nat, src: Node, dst: Node): Ports {
    match (src, dst)
    case (Host(_, _, h), Edge(_, _)) => Ports(0, (h - 2) * 2 + 1)
    case (Edge(p, _), Core(c, _)) => Ports((c - 2) * 2, p)
    case (Edge(_, e), Agg(_, a)) => Ports((a - m) * 2, e * 2 + 1)
    case (Agg(p, _), Core(_, c)) => Ports((c - 1) * 2, p)
    case (Core(_, c), Agg(p, _)) => Ports(p, (c - 1) * 2)
    case (Agg(_, a), Edge(_, e)) => Ports(e * 2 + 1, (a - m) * 2)
    case (Core(c, _), Edge(p, _)) => Ports(p, (c - 2) * 2)
    case (Edge(_, _), Host(_, _, h)) => Ports((h - 2) * 2 + 1, 0)
    case _ => NoPort
  }

  function Port(m: nat, src: Node, dst: Node): Ports {
    var p := RawPort(m, src, dst);
    if p.NoPort? then p
    else Ports(if src.Host? then p.src else p.src + 1, if dst.Host? then p.dst else p.dst + 1)
  }

  /** The ports of a link seen from its other end. */
  function Reversed(p: Ports): Ports {
    if p.NoPort? then p else Ports(p.dst, p.src)
  }

  lemma PortIsSymmetric(m: nat, a: Node, b: Node)
    ensures Port(m, a, b) == Reversed(Port(m, b, a))
  {
  }

  predicate IsSwitch(m: nat, n: Node) {
    match n
    case Core(i, j) => 1 <= i <= m && 1 <= j <= m
    case Agg(p, a) => p < 2 * m && m <= a < 2 * m
    case Edge(p, e) => p < 2 * m && e < m
    case Host(_, _, _) => false
  }

  type PortTable = map<Node, seq<int>>

  function PortsOf(t: PortTable, n: Node): seq<int> {
    if n in t then t[n] else []
  }

  function Evens(n: nat): (s: seq<int>)
    ensures |s| == n
  {
    seq(n, i => 2 * i + 2)
  }

  function Odds(n: nat): (s: seq<int>)
    ensures |s| == n
  {
    seq(n, i => 2 * i + 1)
  }

  function UpTo(n: nat): (s: seq<int>)
    ensures |s| == n
  {
    seq(n, i => i + 1)
  }

  /** The ports that a node has when `p` pods are done, in the next one `e` edge switches are done, and
      then `x` of its aggregation switches are linked to the core. */
  ghost function Expected(m: nat, n: Node, p: nat, e: nat, x: nat): seq<int> {
    match n
    case Edge(q, s) => if s < m && (q < p || (q == p && s < e)) then Evens(m) + Odds(m) else []
    case Agg(q, a) =>
      if !(m <= a < 2 * m) || q > p then []
      else if q < p then Evens(m) + Odds(m)
      else Evens(e) + (if a - m < x then Odds(m) else [])
    case Core(i, j) =>
      if !(1 <= i <= m && 1 <= j <= m) then []
      else if i - 1 < x then UpTo(p + 1) else UpTo(p)
    case Host(q, s, h) => if s < m && 2 <= h < m + 2 && (q < p || (q == p && s < e)) then [0] else []
  }

  ghost predicate Wired(m: nat, t: PortTable, p: nat, e: nat, x: nat) {
    forall n :: PortsOf(t, n) == Expected(m, n, p, e, x)
  }

  class FatTreeTopo {
    const m: nat
    var ports: PortTable

    method AddPort(n: Node, port: int)
      modifies this
      ensures ports == old(ports)[n := PortsOf(old(ports), n) + [port]]
    {
      ports := ports[n := PortsOf(ports, n) + [port]];
    }

    method AddLink(a: Node, b: Node)
      requires a != b && Port(m, a, b).Ports?
      modifies this
      ensures PortsOf(ports, a) == PortsOf(old(ports), a) + [Port(m, a, b).src]
      ensures PortsOf(ports, b) == PortsOf(old(ports), b) + [Port(m, a, b).dst]
      ensures forall n :: n != a && n != b ==> PortsOf(ports, n) == PortsOf(old(ports), n)
    {
      var p := Port(m, a, b);
      AddPort(a, p.src);
      AddPort(b, p.dst);
    }

    /** Links an edge switch to its hosts. */
    method AddHosts(p: nat, e: nat)
      requires PortsOf(ports, Edge(p, e)) == []
      requires forall h: nat :: PortsOf(ports, Host(p, e, h)) == []
      modifies this
      ensures PortsOf(ports, Edge(p, e)) == Evens(m)
      ensures forall h: nat :: PortsOf(ports, Host(p, e, h)) == if 2 <= h < m + 2 then [0] else []
      ensures forall n :: n != Edge(p, e) && !(n.Host? && n.pod == p && n.sw == e) ==>
                PortsOf(ports, n) == PortsOf(old(ports), n)
    {
      var h := 2;
      while h < m + 2
        invariant 2 <= h <= m + 2
        invariant PortsOf(ports, Edge(p, e)) == Evens(h - 2)
        invariant forall g: nat :: PortsOf(ports, Host(p, e, g)) == if 2 <= g < h then [0] else []
        invariant forall n :: n != Edge(p, e) && !(n.Host? && n.pod == p && n.sw == e) ==>
                    PortsOf(ports, n) == PortsOf(old(ports), n)
      {
        AddLink(Edge(p, e), Host(p, e, h));
        h := h + 1;
      }
    }

    /** Links an edge switch to the aggregation switches of its pod. */
    method AddAggs(p: nat, e: nat)
      requires PortsOf(ports, Edge(p, e)) == Evens(m)
      modifies this
      ensures PortsOf(ports, Edge(p, e)) == Evens(m) + Odds(m)
      ensures forall a: nat :: m <= a < 2 * m ==>
                PortsOf(ports, Agg(p, a)) == PortsOf(old(ports), Agg(p, a)) + [2 * e + 2]
      ensures forall n :: n != Edge(p, e) && !(n.Agg? && n.pod == p && m <= n.sw < 2 * m) ==>
                PortsOf(ports, n) == PortsOf(old(ports), n)
    {
      var a := m;
      while a < 2 * m
        invariant m <= a <= 2 * m
        invariant PortsOf(ports, Edge(p, e)) == Evens(m) + Odds(a - m)
        invariant forall b: nat :: m <= b < a ==>
                    PortsOf(ports, Agg(p, b)) == PortsOf(old(ports), Agg(p, b)) + [2 * e + 2]
        invariant forall n :: n != Edge(p, e) && !(n.Agg? && n.pod == p && m <= n.sw < a) ==>
                    PortsOf(ports, n) == PortsOf(old(ports), n)
      {
        AddLink(Edge(p, e), Agg(p, a));
        assert Odds(a + 1 - m) == Odds(a - m) + [2 * (a - m) + 1];
        a := a + 1;
      }
    }

    /** Links an aggregation switch to its core switches. */
    method AddCores(p: nat, a: nat)
      requires m <= a < 2 * m
      modifies this
      ensures PortsOf(ports, Agg(p, a)) == PortsOf(old(ports), Agg(p, a)) + Odds(m)
      ensures forall n: Node :: n.Core? && n.sw == a - m + 1 && 1 <= n.host <= m ==>
                PortsOf(ports, n) == PortsOf(old(ports), n) + [p + 1]
      ensures forall n :: n != Agg(p, a) && !(n.Core? && n.sw == a - m + 1 && 1 <= n.host <= m) ==>
                PortsOf(ports, n) == PortsOf(old(ports), n)
    {
      var i, c := a - m + 1, 1;
      while c <= m
        invariant 1 <= c <= m + 1
        invariant PortsOf(ports, Agg(p, a)) == PortsOf(old(ports), Agg(p, a)) + Odds(c - 1)
        invariant forall n: Node :: n.Core? && n.sw == i && 1 <= n.host < c ==>
                    PortsOf(ports, n) == PortsOf(old(ports), n) + [p + 1]
        invariant forall n :: n != Agg(p, a) && !(n.Core? && n.sw == i && 1 <= n.host < c) ==>
                    PortsOf(ports, n) == PortsOf(old(ports), n)
      {
        AddLink(Core(i, c), Agg(p, a));
        assert Odds(c) == Odds(c - 1) + [2 * (c - 1) + 1];
        c := c + 1;
      }
    }

    method AddEdge(p: nat, e: nat)
      requires e < m && Wired(m, ports, p, e, 0)
      modifies this
      ensures Wired(m, ports, p, e + 1, 0)
    {
      ghost var before := ports;
      AddHosts(p, e);
      AddAggs(p, e);
      assert Evens(e + 1) == Evens(e) + [2 * e + 2];
      forall n
        ensures PortsOf(ports, n) == Expected(m, n, p, e + 1, 0)
      {
        assert PortsOf(before, n) == Expected(m, n, p, e, 0);
      }
    }

    method AddAgg(p: nat, x: nat)
      requires x < m && Wired(m, ports, p, m, x)
      modifies this
      ensures Wired(m, ports, p, m, x + 1)
    {
      ghost var before := ports;
      AddCores(p, m + x);
      assert UpTo(p + 1) == UpTo(p) + [p + 1];
      forall n
        ensures PortsOf(ports, n) == Expected(m, n, p, m, x + 1)
      {
        assert PortsOf(before, n) == Expected(m, n, p, m, x);
      }
    }

    method AddPod(p: nat)
      requires Wired(m, ports, p, 0, 0)
      modifies this
      ensures Wired(m, ports, p + 1, 0, 0)
    {
      var e := 0;
      while e < m
        invariant 0 <= e <= m && Wired(m, ports, p, e, 0)
      {
        AddEdge(p, e);
        e := e + 1;
      }
      var x := 0;
      while x < m
        invariant 0 <= x <= m && Wired(m, ports, p, m, x)
      {
        AddAgg(p, x);
        x := x + 1;
      }
      PodDone(m, p, ports);
    }

    /** Builds the topology of switches with 2m ports: every switch uses each of its ports once. */
    constructor (m: nat)
      ensures this.m == m
      ensures forall n :: IsSwitch(m, n) ==> EachOnce(PortsOf(ports, n), 2 * m)
      ensures forall p: nat, e: nat, h: nat :: p < 2 * m && e < m && 2 <= h < m + 2 ==>
                PortsOf(ports, Host(p, e, h)) == [0]
    {
      this.m := m;
      ports := map[];
      new;
      var p := 0;
      while p < 2 * m
        invariant 0 <= p <= 2 * m && Wired(m, ports, p, 0, 0)
      {
        AddPod(p);
        p := p + 1;
      }
      forall n | IsSwitch(m, n)
        ensures EachOnce(PortsOf(ports, n), 2 * m)
      {
        SwitchUsesEachPort(m, n);
      }
    }
  }

  lemma PodDone(m: nat, p: nat, t: PortTable)
    requires Wired(m, t, p, m, m)
    ensures Wired(m, t, p + 1, 0, 0)
  {
    forall n
      ensures PortsOf(t, n) == Expected(m, n, p + 1, 0, 0)
    {
      assert PortsOf(t, n) == Expected(m, n, p, m, m);
      if n.Agg? && n.pod == p + 1 {
        assert Evens(0) + [] == [];
      }
    }
  }

  /** The ports 1 .. k, each once, in any order. */
  ghost predicate EachOnce(s: seq<int>, k: nat) {
    && |s| == k
    && (forall i, j :: 0 <= i < j < |s| ==> s[i] != s[j])
    && (forall q :: 1 <= q <= k <==> q in s)
  }

  lemma EvensAndOdds(m: nat)
    ensures EachOnce(Evens(m) + Odds(m), 2 * m)
  {
    var s := Evens(m) + Odds(m);
    forall q | 1 <= q <= 2 * m
      ensures q in s
    {
      if q % 2 == 0 {
        assert s[q / 2 - 1] == q;
      } else {
        assert s[m + q / 2] == q;
      }
    }
  }

  lemma SwitchUsesEachPort(m: nat, n: Node)
    requires IsSwitch(m, n)
    ensures EachOnce(Expected(m, n, 2 * m, 0, 0), 2 * m)
  {
    if n.Core? {
      forall q | 1 <= q <= 2 * m
        ensures q in UpTo(2 * m)
      {
        assert UpTo(2 * m)[q - 1] == q;
      }
    } else {
      EvensAndOdds(m);
    }
  }
}
