/** The demand estimator as it runs: passes over the flows that rewrite them and the demand matrix. */
module DemandObject {
  import opened Demand
  import opened DemandMatrix

  /** The flows of a receiver once the modest ones are told from the greedy ones. */
  function Sifted(flows: seq<Flow>, d: nat, equal: real): (r: seq<Flow>)
    ensures |r| == |flows|
  {
    seq(|flows|, i requires 0 <= i < |flows| =>
      if flows[i].dest == d then flows[i].(receiverLimited := flows[i].demand >= equal) else flows[i])
  }

  class Estimator {
    var flows: seq<Flow>
    var cells: Matrix

    constructor (flows: seq<Flow>)
      ensures this.flows == flows && cells == map[]
    {
      this.flows := flows;
      cells := map[];
    }

    method EstimateSource(s: nat)
      requires Covers(cells, flows)
      modifies this
      ensures flows == AfterSource(old(flows), s)
      ensures cells == CellsAfterSource(old(cells), old(flows), s)
      ensures Covers(cells, flows) && cells.Keys == old(cells).Keys
    {
      ghost var before, all := flows, cells;
      var convergedDemand, unconverged, i := 0.0, 0, 0;
      while i < |flows|
        invariant 0 <= i <= |flows| && flows == before && cells == all
        invariant convergedDemand == Settled(before[..i], s) && unconverged == Unsettled(before[..i], s)
      {
        assert before[..i + 1][..i] == before[..i];
        if flows[i].src == s {
          if flows[i].converged {
            convergedDemand := convergedDemand + flows[i].demand;
          } else {
            unconverged := unconverged + 1;
          }
        }
        i := i + 1;
      }
      assert before[..|before|] == before;
      if unconverged == 0 {
        return;
      }
      var share := (1.0 - convergedDemand) / (unconverged as real);
      GiveShare(s, share);
      StillCovers(all, cells, before, flows);
    }

    method GiveShare(s: nat, share: real)
      requires Covers(cells, flows)
      modifies this
      ensures flows == Shared(old(flows), s, share)
      ensures cells == SourceCells(old(cells), old(flows), s, share)
    {
      ghost var before, all, goal := flows, cells, Shared(flows, s, share);
      var i := 0;
      while i < |flows|
        invariant 0 <= i <= |flows| == |before|
        invariant forall k :: 0 <= k < i ==> flows[k] == goal[k]
        invariant forall k :: i <= k < |before| ==> flows[k] == before[k]
        invariant cells == SourceCells(all, before[..i], s, share)
      {
        SourceCellsNext(all, before, i, s, share);
        if flows[i].src == s && !flows[i].converged {
          cells := cells[Pair(flows[i]) := cells[Pair(flows[i])].(demand := share)];
          flows := flows[i := flows[i].(demand := share)];
        }
        i := i + 1;
      }
      assert before[..|before|] == before && flows == goal;
    }

    /** Marks the flows of a receiver and adds them up. */
    method Mark(d: nat) returns (total: real, number: nat)
      modifies this`flows
      ensures flows == Marked(old(flows), d)
      ensures total == Incoming(old(flows), d) && number == Arrivals(old(flows), d)
    {
      ghost var before := flows;
      var i := 0;
      total, number := 0.0, 0;
      while i < |flows|
        invariant 0 <= i <= |flows| == |before|
        invariant forall k :: 0 <= k < i ==> flows[k] == Marked(before, d)[k]
        invariant forall k :: i <= k < |before| ==> flows[k] == before[k]
        invariant total == Incoming(before[..i], d) && number == Arrivals(before[..i], d)
      {
        assert before[..i + 1][..i] == before[..i];
        if flows[i].dest == d {
          flows := flows[i := flows[i].(receiverLimited := true)];
          total := total + flows[i].demand;
          number := number + 1;
        }
        i := i + 1;
      }
      assert before[..|before|] == before;
    }

    /** Tells the modest flows of a receiver from the greedy ones. */
    method Sift(d: nat, equal: real, ghost before: seq<Flow>) returns (limited: real, number: nat)
      requires flows == Marked(before, d)
      modifies this`flows
      ensures flows == Sifted(before, d, equal)
      ensures limited == ModestDemand(before, d, equal) && number == GreedyCount(before, d, equal)
    {
      var i := 0;
      limited, number := 0.0, 0;
      while i < |flows|
        invariant 0 <= i <= |flows| == |before|
        invariant forall k :: 0 <= k < i ==> flows[k] == Sifted(before, d, equal)[k]
        invariant forall k :: i <= k < |before| ==> flows[k] == Marked(before, d)[k]
        invariant limited == ModestDemand(before[..i], d, equal) && number == GreedyCount(before[..i], d, equal)
      {
        assert before[..i + 1][..i] == before[..i];
        if flows[i].dest == d && flows[i].receiverLimited {
          if flows[i].demand < equal {
            limited := limited + flows[i].demand;
            flows := flows[i := flows[i].(receiverLimited := false)];
          } else {
            number := number + 1;
          }
        }
        i := i + 1;
      }
      assert before[..|before|] == before;
    }

    /** Gives the greedy flows of a receiver their share. */
    method Grant(d: nat, share: real, ghost equal: real, ghost before: seq<Flow>)
      requires flows == Sifted(before, d, equal) && Covers(cells, before)
      modifies this
      ensures flows == GrantedAll(before, d, equal, share)
      ensures cells == ReceiverCells(old(cells), before, d, equal, share)
    {
      ghost var all := cells;
      var i := 0;
      while i < |flows|
        invariant 0 <= i <= |flows| == |before|
        invariant forall k :: 0 <= k < i ==> flows[k] == GrantedAll(before, d, equal, share)[k]
        invariant forall k :: i <= k < |before| ==> flows[k] == Sifted(before, d, equal)[k]
        invariant cells == ReceiverCells(all, before[..i], d, equal, share)
      {
        assert before[..i + 1] == before[..i] + [before[i]];
        assert Covers(all, before[..i + 1]);
        ReceiverCellsStep(all, before[..i], before[i], d, equal, share);
        if flows[i].dest == d && flows[i].receiverLimited {
          cells := cells[Pair(flows[i]) := cells[Pair(flows[i])].(demand := share, converged := true)];
          flows := flows[i := flows[i].(converged := true, demand := share)];
        }
        i := i + 1;
      }
      assert before[..|before|] == before;
    }

    method EstimateReceiver(d: nat)
      requires Covers(cells, flows)
      modifies this
      ensures flows == AfterReceiver(old(flows), d)
      ensures cells == CellsAfterReceiver(old(cells), old(flows), d)
      ensures Covers(cells, flows) && cells.Keys == old(cells).Keys
    {
      ghost var before, all := flows, cells;
      var total, number := Mark(d);
      if total <= 1.0 {
        StillCovers(all, cells, before, flows);
        return;
      }
      SomeoneIsGreedy(before, d);
      var equal := 1.0 / (number as real);
      var share, limited, changed := equal, 0.0, true;
      while changed
        invariant changed ==> flows == Marked(before, d) && share == equal
        invariant !changed ==> flows == Sifted(before, d, equal) && share == ReceiverShare(before, d)
        invariant cells == old(cells)
        decreases changed
      {
        changed := false;
        limited, number := Sift(d, share, before);
        share := (1.0 - limited) / (number as real);
      }
      Grant(d, share, equal, before);
      StillCovers(all, cells, before, flows);
    }

    // ----- Rounds -----

    /** Empties the matrix. */
    method Clear(hosts: seq<nat>)
      modifies this`cells
      ensures cells == Blank(hosts)
    {
      cells := map i, j | i in hosts && j in hosts :: (i, j) := Cell(0.0, false, 0.0);
    }

    method EstimateSources(hosts: seq<nat>)
      requires Covers(cells, flows)
      modifies this
      ensures flows == AfterSources(old(flows), hosts) && Covers(cells, flows) && cells.Keys == old(cells).Keys
      ensures cells == CellsAfterSources(old(cells), old(flows), hosts)
    {
      ghost var before, all := flows, cells;
      var i := 0;
      while i < |hosts|
        invariant 0 <= i <= |hosts| && Covers(cells, flows) && cells.Keys == old(cells).Keys
        invariant flows == AfterSources(before, hosts[..i])
        invariant cells == CellsAfterSources(all, before, hosts[..i])
      {
        assert hosts[..i + 1][..i] == hosts[..i];
        EstimateSource(hosts[i]);
        i := i + 1;
      }
      assert hosts[..|hosts|] == hosts;
    }

    method EstimateReceivers(hosts: seq<nat>)
      requires Covers(cells, flows)
      modifies this
      ensures flows == AfterReceivers(old(flows), hosts) && Covers(cells, flows) && cells.Keys == old(cells).Keys
      ensures cells == CellsAfterReceivers(old(cells), old(flows), hosts)
    {
      ghost var before, all := flows, cells;
      var i := 0;
      while i < |hosts|
        invariant 0 <= i <= |hosts| && Covers(cells, flows) && cells.Keys == old(cells).Keys
        invariant flows == AfterReceivers(before, hosts[..i])
        invariant cells == CellsAfterReceivers(all, before, hosts[..i])
      {
        assert hosts[..i + 1][..i] == hosts[..i];
        EstimateReceiver(hosts[i]);
        i := i + 1;
      }
      assert hosts[..|hosts|] == hosts;
    }

    /** Whether no demand has changed since the last look; remembers the demands. */
    method Unchanged() returns (same: bool)
      modifies this`cells
      ensures same <==> forall p :: p in old(cells) ==> old(cells)[p].oldDemand == old(cells)[p].demand
      ensures cells == Remembered(old(cells))
    {
      same := true;
      var all, left := cells, cells.Keys;
      while left != {}
        invariant left <= all.Keys == cells.Keys
        invariant forall p :: p in left ==> cells[p] == all[p]
        invariant forall p :: p in all && p !in left ==> cells[p] == all[p].(oldDemand := all[p].demand)
        invariant same <==> forall p :: p in all && p !in left ==> all[p].oldDemand == all[p].demand
        decreases left
      {
        var p :| p in left;
        if cells[p].oldDemand != cells[p].demand {
          same := false;
          cells := cells[p := cells[p].(oldDemand := cells[p].demand)];
        }
        left := left - {p};
      }
    }

    method OneRound(hosts: seq<nat>) returns (same: bool)
      requires Covers(cells, flows)
      modifies this
      ensures flows == Round(old(flows), hosts) && Covers(cells, flows)
      ensures cells == RoundCells(old(cells), old(flows), hosts)
      ensures same <==> Repeats(TurnCells(old(cells), old(flows), hosts))
    {
      EstimateSources(hosts);
      EstimateReceivers(hosts);
      ghost var all := cells;
      same := Unchanged();
      StillCovers(all, cells, flows, flows);
    }

    /** Runs rounds until no demand changes, at most `limit` of them. The flows and the matrix are those of so
        many rounds; it ends exactly when the last round changed no entry of the matrix. Then, and after any
        round, no receiver is sent more than its capacity, and for flows that start unconverged the matrix
        holds what the flows do. */
    method EstimateDemands(hosts: seq<nat>, limit: nat) returns (ended: bool, ghost rounds: nat)
      requires forall f :: f in flows ==> f.src in hosts && f.dest in hosts
      modifies this
      ensures rounds <= limit && (rounds == limit || ended)
      ensures flows == Rounds(old(flows), hosts, rounds) && cells == RoundsCells(old(flows), hosts, rounds)
      ensures ended <==> rounds > 0 && Ends(old(flows), hosts, rounds)
      ensures rounds > 0 ==> forall d :: d in hosts ==> Incoming(flows, d) <= 1.0
      ensures rounds > 0 && Fresh(old(flows)) ==> Agrees(cells, flows)
    {
      ghost var before := flows;
      Clear(hosts);
      ended, rounds := RunRounds(hosts, limit, before);
      if rounds > 0 {
        NoReceiverOverloaded(AfterSources(Rounds(before, hosts, rounds - 1), hosts), hosts);
        if Fresh(before) {
          MatrixAgrees(before, hosts, rounds);
        }
      }
    }

    method RunRounds(hosts: seq<nat>, limit: nat, ghost before: seq<Flow>) returns (ended: bool, ghost rounds: nat)
      requires At(before, hosts, 0)
      modifies this
      ensures rounds <= limit && (rounds == limit || ended) && At(before, hosts, rounds)
      ensures ended <==> rounds > 0 && Ends(before, hosts, rounds)
    {
      ended, rounds := false, 0;
      var left := limit;
      while left > 0 && !ended
        invariant 0 <= left <= limit && rounds == limit - left && At(before, hosts, rounds)
        invariant ended <==> rounds > 0 && Ends(before, hosts, rounds)
      {
        ended := NextRound(hosts, before, rounds);
        left, rounds := left - 1, rounds + 1;
      }
    }

    method NextRound(hosts: seq<nat>, ghost before: seq<Flow>, ghost n: nat) returns (same: bool)
      requires At(before, hosts, n)
      modifies this
      ensures At(before, hosts, n + 1)
      ensures same <==> Ends(before, hosts, n + 1)
    {
      RepeatsIff(before, hosts, n);
      same := OneRound(hosts);
    }

    /** The flows and the matrix are those of `n` rounds. */
    ghost predicate At(before: seq<Flow>, hosts: seq<nat>, n: nat)
      reads this
    {
      flows == Rounds(before, hosts, n) && cells == RoundsCells(before, hosts, n) && Covers(cells, flows)
    }
  }

  /** The last of `n` rounds changed no demand of the matrix. */
  ghost predicate Ends(flows: seq<Flow>, hosts: seq<nat>, n: nat)
    requires n > 0
  {
    SameDemands(RoundsCells(flows, hosts, n - 1), RoundsCells(flows, hosts, n))
  }
}
