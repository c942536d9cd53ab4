/** The demand matrix of the estimator (experiments/fat_tree_dc/riplryu/demand.py) and how it follows the
    flows. */
module DemandMatrix {
  import opened Demand

  function Pair(f: Flow): (nat, nat) {
    (f.src, f.dest)
  }

  ghost predicate Covers(cells: Matrix, flows: seq<Flow>) {
    forall f :: f in flows ==> Pair(f) in cells
  }

  lemma StillCovers(cells: Matrix, cells': Matrix, flows: seq<Flow>, flows': seq<Flow>)
    requires Covers(cells, flows) && cells'.Keys == cells.Keys && |flows'| == |flows|
    requires forall i :: 0 <= i < |flows| ==> Pair(flows'[i]) == Pair(flows[i])
    ensures Covers(cells', flows')
  {
    forall f | f in flows'
      ensures Pair(f) in cells'
    {
      var i :| 0 <= i < |flows'| && flows'[i] == f;
      assert flows[i] in flows;
    }
  }

  ghost predicate SomeOpen(flows: seq<Flow>, s: nat, p: (nat, nat)) {
    exists f :: f in flows && Open(f, s) && Pair(f) == p
  }

  ghost predicate SomeGreedy(flows: seq<Flow>, d: nat, equal: real, p: (nat, nat)) {
    exists f :: f in flows && Greedy(f, d, equal) && Pair(f) == p
  }

  /** The matrix after a source's turn: the entries of its open flows hold the share. */
  ghost function SourceCells(cells: Matrix, flows: seq<Flow>, s: nat, share: real): Matrix {
    map p | p in cells :: if SomeOpen(flows, s, p) then cells[p].(demand := share) else cells[p]
  }

  /** The matrix after a receiver's turn: the entries of its greedy flows hold the share, converged. */
  ghost function ReceiverCells(cells: Matrix, flows: seq<Flow>, d: nat, equal: real, share: real): Matrix {
    map p | p in cells ::
      if SomeGreedy(flows, d, equal, p) then cells[p].(demand := share, converged := true) else cells[p]
  }

  lemma SourceCellsStep(cells: Matrix, flows: seq<Flow>, f: Flow, s: nat, share: real)
    requires Covers(cells, flows + [f])
    ensures var c := SourceCells(cells, flows, s, share);
            Pair(f) in c && SourceCells(cells, flows + [f], s, share) ==
            if Open(f, s) then c[Pair(f) := c[Pair(f)].(demand := share)] else c
  {
    assert f in flows + [f];
    forall p | p in cells
      ensures SomeOpen(flows + [f], s, p) <==> SomeOpen(flows, s, p) || (Open(f, s) && Pair(f) == p)
    {
      assert forall g :: g in flows + [f] <==> g in flows || g == f;
    }
  }

  lemma SourceCellsNext(cells: Matrix, flows: seq<Flow>, i: nat, s: nat, share: real)
    requires Covers(cells, flows) && i < |flows|
    ensures var c, f := SourceCells(cells, flows[..i], s, share), flows[i];
            Pair(f) in c && SourceCells(cells, flows[..i + 1], s, share) ==
            if Open(f, s) then c[Pair(f) := c[Pair(f)].(demand := share)] else c
  {
    assert flows[..i + 1] == flows[..i] + [flows[i]];
    SourceCellsStep(cells, flows[..i], flows[i], s, share);
  }

  lemma ReceiverCellsStep(cells: Matrix, flows: seq<Flow>, f: Flow, d: nat, equal: real, share: real)
    requires Covers(cells, flows + [f])
    ensures var c := ReceiverCells(cells, flows, d, equal, share);
            Pair(f) in c && ReceiverCells(cells, flows + [f], d, equal, share) ==
            if Greedy(f, d, equal) then c[Pair(f) := c[Pair(f)].(demand := share, converged := true)] else c
  {
    assert f in flows + [f];
    forall p | p in cells
      ensures SomeGreedy(flows + [f], d, equal, p) <==>
              SomeGreedy(flows, d, equal, p) || (Greedy(f, d, equal) && Pair(f) == p)
    {
      assert forall g :: g in flows + [f] <==> g in flows || g == f;
    }
  }

  // ----- Turns and rounds -----

  ghost function CellsAfterSource(cells: Matrix, flows: seq<Flow>, s: nat): Matrix {
    if Unsettled(flows, s) == 0 then cells else SourceCells(cells, flows, s, SourceShare(flows, s))
  }

  ghost function CellsAfterReceiver(cells: Matrix, flows: seq<Flow>, d: nat): Matrix {
    if Incoming(flows, d) <= 1.0 then cells
    else
      SomeoneIsGreedy(flows, d);
      ReceiverCells(cells, flows, d, EqualShare(flows, d), ReceiverShare(flows, d))
  }

  ghost function CellsAfterSources(cells: Matrix, flows: seq<Flow>, hosts: seq<nat>): Matrix {
    if hosts == [] then cells
    else
      var n := |hosts| - 1;
      CellsAfterSource(CellsAfterSources(cells, flows, hosts[..n]), AfterSources(flows, hosts[..n]), hosts[n])
  }

  ghost function CellsAfterReceivers(cells: Matrix, flows: seq<Flow>, hosts: seq<nat>): Matrix {
    if hosts == [] then cells
    else
      var n := |hosts| - 1;
      CellsAfterReceiver(CellsAfterReceivers(cells, flows, hosts[..n]), AfterReceivers(flows, hosts[..n]), hosts[n])
  }

  function Blank(hosts: seq<nat>): Matrix {
    map i, j | i in hosts && j in hosts :: (i, j) := Cell(0.0, false, 0.0)
  }

  function Remembered(cells: Matrix): Matrix {
    map p | p in cells :: cells[p].(oldDemand := cells[p].demand)
  }

  /** The matrix after the turns of a round. */
  ghost function TurnCells(cells: Matrix, flows: seq<Flow>, hosts: seq<nat>): Matrix {
    CellsAfterReceivers(CellsAfterSources(cells, flows, hosts), AfterSources(flows, hosts), hosts)
  }

  ghost function RoundCells(cells: Matrix, flows: seq<Flow>, hosts: seq<nat>): Matrix {
    Remembered(TurnCells(cells, flows, hosts))
  }

  ghost function RoundsCells(flows: seq<Flow>, hosts: seq<nat>, n: nat): Matrix {
    if n == 0 then Blank(hosts) else RoundCells(RoundsCells(flows, hosts, n - 1), Rounds(flows, hosts, n - 1), hosts)
  }

  // ----- When the rounds end -----

  /** What the exit test looks at. */
  ghost predicate Repeats(cells: Matrix) {
    forall p :: p in cells ==> cells[p].oldDemand == cells[p].demand
  }

  ghost predicate SameDemands(a: Matrix, b: Matrix) {
    a.Keys == b.Keys && forall p :: p in a ==> a[p].demand == b[p].demand
  }

  /** The turns remember the demands of the round before. */
  ghost predicate SameOld(a: Matrix, b: Matrix) {
    a.Keys == b.Keys && forall p :: p in a ==> a[p].oldDemand == b[p].oldDemand
  }

  lemma {:induction false} SourcesKeepOld(cells: Matrix, flows: seq<Flow>, hosts: seq<nat>)
    ensures SameOld(cells, CellsAfterSources(cells, flows, hosts))
  {
    if hosts != [] {
      SourcesKeepOld(cells, flows, hosts[..|hosts| - 1]);
    }
  }

  lemma {:induction false} ReceiversKeepOld(cells: Matrix, flows: seq<Flow>, hosts: seq<nat>)
    ensures SameOld(cells, CellsAfterReceivers(cells, flows, hosts))
  {
    if hosts != [] {
      ReceiversKeepOld(cells, flows, hosts[..|hosts| - 1]);
    }
  }

  /** The exit test holds after a round exactly when the round changed no demand of the matrix. */
  lemma RepeatsIff(flows: seq<Flow>, hosts: seq<nat>, n: nat)
    ensures Repeats(TurnCells(RoundsCells(flows, hosts, n), Rounds(flows, hosts, n), hosts)) <==>
            SameDemands(RoundsCells(flows, hosts, n), RoundsCells(flows, hosts, n + 1))
  {
    var cells, fs := RoundsCells(flows, hosts, n), Rounds(flows, hosts, n);
    SourcesKeepOld(cells, fs, hosts);
    ReceiversKeepOld(CellsAfterSources(cells, fs, hosts), AfterSources(fs, hosts), hosts);
    var turned := TurnCells(cells, fs, hosts);
    assert SameOld(cells, turned);
    assert forall p :: p in cells ==> cells[p].oldDemand == cells[p].demand;
    assert RoundsCells(flows, hosts, n + 1) == Remembered(turned);
  }

  // ----- The matrix holds what the flows do -----

  /** A flow's entry knows whether it has converged, and the demand of one that has. */
  ghost predicate Tracked(cells: Matrix, f: Flow) {
    && Pair(f) in cells && cells[Pair(f)].converged == f.converged
    && (f.converged ==> cells[Pair(f)].demand == f.demand)
  }

  ghost predicate Current(cells: Matrix, f: Flow) {
    Pair(f) in cells && cells[Pair(f)].converged == f.converged && cells[Pair(f)].demand == f.demand
  }

  ghost predicate HasFlow(flows: seq<Flow>, p: (nat, nat)) {
    exists i :: 0 <= i < |flows| && Pair(flows[i]) == p
  }

  /** Entries without a flow stay empty. */
  ghost predicate EmptyElsewhere(cells: Matrix, flows: seq<Flow>) {
    forall p :: p in cells && !HasFlow(flows, p) ==> cells[p].demand == 0.0 && !cells[p].converged
  }

  ghost predicate AllTracked(cells: Matrix, flows: seq<Flow>) {
    (forall i :: 0 <= i < |flows| ==> Tracked(cells, flows[i])) && EmptyElsewhere(cells, flows)
  }

  /** The matrix holds the demand of every flow, and nothing elsewhere. */
  ghost predicate Agrees(cells: Matrix, flows: seq<Flow>) {
    (forall i :: 0 <= i < |flows| ==> Current(cells, flows[i])) && EmptyElsewhere(cells, flows)
  }

  /** The entries of a source's flows are up to date. */
  ghost predicate DoneFor(cells: Matrix, flows: seq<Flow>, s: nat) {
    forall i :: 0 <= i < |flows| && flows[i].src == s ==> Current(cells, flows[i])
  }

  ghost predicate Fresh(flows: seq<Flow>) {
    forall i :: 0 <= i < |flows| ==> !flows[i].converged
  }

  ghost predicate SamePairs(flows: seq<Flow>, flows': seq<Flow>) {
    |flows'| == |flows| && forall i :: 0 <= i < |flows| ==> Pair(flows'[i]) == Pair(flows[i])
  }

  lemma SamePairsHave(flows: seq<Flow>, flows': seq<Flow>, p: (nat, nat))
    requires SamePairs(flows, flows')
    ensures HasFlow(flows, p) <==> HasFlow(flows', p)
  {
    if i :| 0 <= i < |flows| && Pair(flows[i]) == p {
      assert Pair(flows'[i]) == p;
    }
    if i :| 0 <= i < |flows'| && Pair(flows'[i]) == p {
      assert Pair(flows[i]) == p;
    }
  }

  lemma SomeOpenIff(flows: seq<Flow>, s: nat, p: (nat, nat))
    ensures SomeOpen(flows, s, p) <==> exists i :: 0 <= i < |flows| && Open(flows[i], s) && Pair(flows[i]) == p
  {
    if f :| f in flows && Open(f, s) && Pair(f) == p {
      var i :| 0 <= i < |flows| && flows[i] == f;
      assert Open(flows[i], s) && Pair(flows[i]) == p;
    }
  }

  lemma SomeGreedyIff(flows: seq<Flow>, d: nat, equal: real, p: (nat, nat))
    ensures SomeGreedy(flows, d, equal, p) <==>
            exists i :: 0 <= i < |flows| && Greedy(flows[i], d, equal) && Pair(flows[i]) == p
  {
    if f :| f in flows && Greedy(f, d, equal) && Pair(f) == p {
      var i :| 0 <= i < |flows| && flows[i] == f;
      assert Greedy(flows[i], d, equal) && Pair(flows[i]) == p;
    }
  }

  /** Of a tracked matrix, an entry of an open flow has only open flows. */
  lemma SharedEntry(cells: Matrix, flows: seq<Flow>, s: nat, share: real, i: nat)
    requires AllTracked(cells, flows) && i < |flows|
    ensures SomeOpen(flows, s, Pair(flows[i])) <==> Open(flows[i], s)
    ensures Tracked(SourceCells(cells, flows, s, share), Shared(flows, s, share)[i])
    ensures flows[i].src == s ==> Current(SourceCells(cells, flows, s, share), Shared(flows, s, share)[i])
    ensures flows[i].src != s && Current(cells, flows[i]) ==>
              Current(SourceCells(cells, flows, s, share), Shared(flows, s, share)[i])
  {
    SomeOpenIff(flows, s, Pair(flows[i]));
    assert Tracked(cells, flows[i]);
    if j :| 0 <= j < |flows| && Open(flows[j], s) && Pair(flows[j]) == Pair(flows[i]) {
      assert Tracked(cells, flows[j]);
    }
  }

  lemma SharedElsewhere(cells: Matrix, flows: seq<Flow>, s: nat, share: real)
    requires EmptyElsewhere(cells, flows)
    ensures EmptyElsewhere(SourceCells(cells, flows, s, share), Shared(flows, s, share))
  {
    forall p | p in cells && !HasFlow(Shared(flows, s, share), p)
      ensures SourceCells(cells, flows, s, share)[p] == cells[p] && !HasFlow(flows, p)
    {
      SamePairsHave(flows, Shared(flows, s, share), p);
      SomeOpenIff(flows, s, p);
    }
  }

  lemma SourceTurn(cells: Matrix, flows: seq<Flow>, s: nat)
    requires AllTracked(cells, flows)
    ensures var cells', flows' := CellsAfterSource(cells, flows, s), AfterSource(flows, s);
            && AllTracked(cells', flows') && DoneFor(cells', flows', s)
            && forall h :: DoneFor(cells, flows, h) ==> DoneFor(cells', flows', h)
  {
    if Unsettled(flows, s) == 0 {
      UnsettledIff(flows, s);
      forall i | 0 <= i < |flows| && flows[i].src == s
        ensures Current(cells, flows[i])
      {
        assert flows[i] in flows && Tracked(cells, flows[i]);
      }
    } else {
      var share := SourceShare(flows, s);
      SharedElsewhere(cells, flows, s, share);
      forall i | 0 <= i < |flows|
        ensures Tracked(SourceCells(cells, flows, s, share), Shared(flows, s, share)[i])
        ensures flows[i].src == s || Current(cells, flows[i]) ==>
                  Current(SourceCells(cells, flows, s, share), Shared(flows, s, share)[i])
      {
        SharedEntry(cells, flows, s, share, i);
      }
    }
  }

  lemma {:induction false} SourcesTurn(cells: Matrix, flows: seq<Flow>, hosts: seq<nat>)
    requires AllTracked(cells, flows)
    ensures var cells', flows' := CellsAfterSources(cells, flows, hosts), AfterSources(flows, hosts);
            AllTracked(cells', flows') && forall h :: h in hosts ==> DoneFor(cells', flows', h)
  {
    if hosts != [] {
      var n := |hosts| - 1;
      SourcesTurn(cells, flows, hosts[..n]);
      SourceTurn(CellsAfterSources(cells, flows, hosts[..n]), AfterSources(flows, hosts[..n]), hosts[n]);
      assert forall h :: h in hosts <==> h in hosts[..n] || h == hosts[n];
    }
  }

  /** Of an up-to-date matrix, an entry of a greedy flow has only greedy flows. */
  lemma GrantedEntry(cells: Matrix, flows: seq<Flow>, d: nat, equal: real, share: real, i: nat)
    requires Agrees(cells, flows) && i < |flows|
    ensures Current(ReceiverCells(cells, flows, d, equal, share), GrantedAll(flows, d, equal, share)[i])
  {
    SomeGreedyIff(flows, d, equal, Pair(flows[i]));
    assert Current(cells, flows[i]);
    if j :| 0 <= j < |flows| && Greedy(flows[j], d, equal) && Pair(flows[j]) == Pair(flows[i]) {
      assert Current(cells, flows[j]);
    }
  }

  lemma GrantedElsewhere(cells: Matrix, flows: seq<Flow>, d: nat, equal: real, share: real)
    requires EmptyElsewhere(cells, flows)
    ensures EmptyElsewhere(ReceiverCells(cells, flows, d, equal, share), GrantedAll(flows, d, equal, share))
  {
    var flows' := GrantedAll(flows, d, equal, share);
    forall p | p in cells && !HasFlow(flows', p)
      ensures ReceiverCells(cells, flows, d, equal, share)[p] == cells[p] && !HasFlow(flows, p)
    {
      SamePairsHave(flows, flows', p);
      SomeGreedyIff(flows, d, equal, p);
    }
  }

  lemma ReceiverTurnAgrees(cells: Matrix, flows: seq<Flow>, d: nat)
    requires Agrees(cells, flows)
    ensures Agrees(CellsAfterReceiver(cells, flows, d), AfterReceiver(flows, d))
  {
    if Incoming(flows, d) <= 1.0 {
      MarkedAgrees(cells, flows, d);
    } else {
      SomeoneIsGreedy(flows, d);
      var equal, share := EqualShare(flows, d), ReceiverShare(flows, d);
      GrantedElsewhere(cells, flows, d, equal, share);
      forall i | 0 <= i < |flows|
        ensures Current(ReceiverCells(cells, flows, d, equal, share), GrantedAll(flows, d, equal, share)[i])
      {
        GrantedEntry(cells, flows, d, equal, share, i);
      }
    }
  }

  lemma MarkedAgrees(cells: Matrix, flows: seq<Flow>, d: nat)
    requires Agrees(cells, flows)
    ensures Agrees(cells, Marked(flows, d))
  {
    forall i | 0 <= i < |flows|
      ensures Current(cells, Marked(flows, d)[i])
    {
      assert Current(cells, flows[i]);
    }
    forall p | p in cells && !HasFlow(Marked(flows, d), p)
      ensures !HasFlow(flows, p)
    {
      SamePairsHave(flows, Marked(flows, d), p);
    }
  }

  lemma {:induction false} ReceiversTurn(cells: Matrix, flows: seq<Flow>, hosts: seq<nat>)
    requires Agrees(cells, flows)
    ensures Agrees(CellsAfterReceivers(cells, flows, hosts), AfterReceivers(flows, hosts))
  {
    if hosts != [] {
      var n := |hosts| - 1;
      ReceiversTurn(cells, flows, hosts[..n]);
      ReceiverTurnAgrees(CellsAfterReceivers(cells, flows, hosts[..n]), AfterReceivers(flows, hosts[..n]), hosts[n]);
    }
  }

  // ----- Pairs -----

  lemma {:induction false} SourcesKeepPairs(flows: seq<Flow>, hosts: seq<nat>)
    ensures SamePairs(flows, AfterSources(flows, hosts))
  {
    if hosts != [] {
      SourcesKeepPairs(flows, hosts[..|hosts| - 1]);
    }
  }

  lemma {:induction false} ReceiversKeepPairs(flows: seq<Flow>, hosts: seq<nat>)
    ensures SamePairs(flows, AfterReceivers(flows, hosts))
  {
    if hosts != [] {
      ReceiversKeepPairs(flows, hosts[..|hosts| - 1]);
    }
  }

  lemma {:induction false} RoundsKeepPairs(flows: seq<Flow>, hosts: seq<nat>, n: nat)
    ensures SamePairs(flows, Rounds(flows, hosts, n))
  {
    if n > 0 {
      var before := Rounds(flows, hosts, n - 1);
      RoundsKeepPairs(flows, hosts, n - 1);
      SourcesKeepPairs(before, hosts);
      ReceiversKeepPairs(AfterSources(before, hosts), hosts);
    }
  }

  // ----- Whole rounds -----

  lemma RoundAgrees(cells: Matrix, flows: seq<Flow>, hosts: seq<nat>)
    requires AllTracked(cells, flows) && forall i :: 0 <= i < |flows| ==> flows[i].src in hosts
    ensures Agrees(RoundCells(cells, flows, hosts), Round(flows, hosts))
  {
    var cells1, flows1 := CellsAfterSources(cells, flows, hosts), AfterSources(flows, hosts);
    SourcesTurn(cells, flows, hosts);
    SourcesKeepPairs(flows, hosts);
    forall i | 0 <= i < |flows1|
      ensures Current(cells1, flows1[i])
    {
      assert Pair(flows1[i]) == Pair(flows[i]);
      assert DoneFor(cells1, flows1, flows1[i].src);
    }
    ReceiversTurn(cells1, flows1, hosts);
    RememberedAgrees(TurnCells(cells, flows, hosts), Round(flows, hosts));
  }

  lemma RememberedAgrees(cells: Matrix, flows: seq<Flow>)
    requires Agrees(cells, flows)
    ensures Agrees(Remembered(cells), flows)
  {
    forall i | 0 <= i < |flows|
      ensures Current(Remembered(cells), flows[i])
    {
      assert Current(cells, flows[i]);
    }
  }

  lemma BlankTracks(flows: seq<Flow>, hosts: seq<nat>)
    requires Fresh(flows) && forall f :: f in flows ==> f.src in hosts && f.dest in hosts
    ensures AllTracked(Blank(hosts), flows)
  {
    forall i | 0 <= i < |flows|
      ensures Tracked(Blank(hosts), flows[i])
    {
      assert flows[i] in flows;
    }
  }

  /** After any round over flows that start unconverged the matrix holds exactly the demands of the flows. */
  lemma {:induction false} MatrixAgrees(flows: seq<Flow>, hosts: seq<nat>, n: nat)
    requires Fresh(flows) && n > 0 && forall f :: f in flows ==> f.src in hosts && f.dest in hosts
    ensures Agrees(RoundsCells(flows, hosts, n), Rounds(flows, hosts, n))
  {
    var cells, before := RoundsCells(flows, hosts, n - 1), Rounds(flows, hosts, n - 1);
    if n == 1 {
      BlankTracks(flows, hosts);
    } else {
      MatrixAgrees(flows, hosts, n - 1);
      assert forall i :: 0 <= i < |before| && Current(cells, before[i]) ==> Tracked(cells, before[i]);
    }
    RoundsKeepPairs(flows, hosts, n - 1);
    forall i | 0 <= i < |before|
      ensures before[i].src in hosts
    {
      assert flows[i] in flows && Pair(before[i]) == Pair(flows[i]);
    }
    RoundAgrees(cells, before, hosts);
  }

  /** So when the rounds end after more than one, the last one changed no flow's demand. */
  lemma EndIsFixed(flows: seq<Flow>, hosts: seq<nat>, n: nat)
    requires Fresh(flows) && forall f :: f in flows ==> f.src in hosts && f.dest in hosts
    requires n > 1 && SameDemands(RoundsCells(flows, hosts, n - 1), RoundsCells(flows, hosts, n))
    ensures |Rounds(flows, hosts, n)| == |Rounds(flows, hosts, n - 1)| == |flows|
    ensures forall i :: 0 <= i < |flows| ==> Rounds(flows, hosts, n)[i].demand == Rounds(flows, hosts, n - 1)[i].demand
  {
    var a, b := Rounds(flows, hosts, n - 1), Rounds(flows, hosts, n);
    MatrixAgrees(flows, hosts, n - 1);
    MatrixAgrees(flows, hosts, n);
    RoundsKeepPairs(flows, hosts, n - 1);
    RoundsKeepPairs(flows, hosts, n);
    forall i | 0 <= i < |flows|
      ensures b[i].demand == a[i].demand
    {
      assert Current(RoundsCells(flows, hosts, n - 1), a[i]) && Current(RoundsCells(flows, hosts, n), b[i]);
      assert Pair(a[i]) == Pair(flows[i]) == Pair(b[i]);
    }
  }
}
