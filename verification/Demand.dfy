/** The demand estimator (experiments/fat_tree_dc/riplryu/demand.py), over reals: the fair shares. */
module Demand {

  datatype Flow = Flow(src: nat, dest: nat, demand: real, converged: bool, receiverLimited: bool)

  /** An entry of the demand matrix. */
  datatype Cell = Cell(demand: real, converged: bool, oldDemand: real)

  type Matrix = map<(nat, nat), Cell>

  lemma OneMore(n: nat, x: real)
    ensures ((n + 1) as real) * x == (n as real) * x + x
  {
  }

  // ----- Totals -----

  /** What a source sends. */
  function Outgoing(flows: seq<Flow>, s: nat): real {
    if flows == [] then 0.0
    else
      var n := |flows| - 1;
      Outgoing(flows[..n], s) + (if flows[n].src == s then flows[n].demand else 0.0)
  }

  /** What a receiver is sent. */
  function Incoming(flows: seq<Flow>, d: nat): real {
    if flows == [] then 0.0
    else
      var n := |flows| - 1;
      Incoming(flows[..n], d) + (if flows[n].dest == d then flows[n].demand else 0.0)
  }

  /** The number of flows to a receiver. */
  function Arrivals(flows: seq<Flow>, d: nat): nat {
    if flows == [] then 0
    else
      var n := |flows| - 1;
      Arrivals(flows[..n], d) + (if flows[n].dest == d then 1 else 0)
  }

  // ----- The share of a source -----

  /** A flow whose demand the source may still choose. */
  predicate Open(f: Flow, s: nat) {
    f.src == s && !f.converged
  }

  function Settled(flows: seq<Flow>, s: nat): real {
    if flows == [] then 0.0
    else
      var n := |flows| - 1;
      Settled(flows[..n], s) + (if flows[n].src == s && flows[n].converged then flows[n].demand else 0.0)
  }

  function Unsettled(flows: seq<Flow>, s: nat): nat {
    if flows == [] then 0
    else
      var n := |flows| - 1;
      Unsettled(flows[..n], s) + (if Open(flows[n], s) then 1 else 0)
  }

  function SourceShare(flows: seq<Flow>, s: nat): real
    requires Unsettled(flows, s) > 0
  {
    (1.0 - Settled(flows, s)) / (Unsettled(flows, s) as real)
  }

  /** The flows with the demand of the open flows of `s` set. */
  function Shared(flows: seq<Flow>, s: nat, share: real): (r: seq<Flow>)
    ensures |r| == |flows|
  {
    seq(|flows|, i requires 0 <= i < |flows| => if Open(flows[i], s) then flows[i].(demand := share) else flows[i])
  }

  function AfterSource(flows: seq<Flow>, s: nat): (r: seq<Flow>)
    ensures |r| == |flows|
  {
    if Unsettled(flows, s) == 0 then flows else Shared(flows, s, SourceShare(flows, s))
  }

  lemma {:induction false} SharedTotal(flows: seq<Flow>, s: nat, share: real)
    ensures Outgoing(Shared(flows, s, share), s) == Settled(flows, s) + (Unsettled(flows, s) as real) * share
  {
    if flows != [] {
      var n := |flows| - 1;
      SharedTotal(flows[..n], s, share);
      OneMore(Unsettled(flows[..n], s), share);
      assert Shared(flows, s, share)[..n] == Shared(flows[..n], s, share);
    }
  }

  lemma {:induction false} UnsettledIff(flows: seq<Flow>, s: nat)
    ensures Unsettled(flows, s) > 0 <==> exists f :: f in flows && Open(f, s)
  {
    if flows != [] {
      var n := |flows| - 1;
      UnsettledIff(flows[..n], s);
      assert forall f :: f in flows <==> f in flows[..n] || f == flows[n];
    }
  }

  lemma Divided(a: real, n: nat)
    requires n > 0
    ensures (n as real) * (a / (n as real)) == a
  {
  }

  /** A source with an unconverged flow sends exactly its capacity, the same on all such flows. */
  lemma SourceIsFull(flows: seq<Flow>, s: nat)
    requires exists f :: f in flows && Open(f, s)
    ensures Outgoing(AfterSource(flows, s), s) == 1.0
    ensures forall i, j :: 0 <= i < |flows| && 0 <= j < |flows| && Open(flows[i], s) && Open(flows[j], s) ==>
              AfterSource(flows, s)[i].demand == AfterSource(flows, s)[j].demand
    ensures forall i :: 0 <= i < |flows| && !Open(flows[i], s) ==> AfterSource(flows, s)[i] == flows[i]
  {
    UnsettledIff(flows, s);
    SourceTotal(flows, s);
  }

  lemma SourceTotal(flows: seq<Flow>, s: nat)
    requires Unsettled(flows, s) > 0
    ensures Outgoing(AfterSource(flows, s), s) == 1.0
  {
    var share := SourceShare(flows, s);
    SharedTotal(flows, s, share);
    FilledUp(Settled(flows, s), Unsettled(flows, s), share);
  }

  /** What is left of the capacity, shared out, fills it up. */
  lemma FilledUp(a: real, n: nat, share: real)
    requires n > 0 && share == (1.0 - a) / (n as real)
    ensures a + (n as real) * share == 1.0
  {
    Divided(1.0 - a, n);
  }

  // ----- The share of a receiver -----

  /** A flow to `d` that asks for less than the equal share. */
  predicate Modest(f: Flow, d: nat, equal: real) {
    f.dest == d && f.demand < equal
  }

  predicate Greedy(f: Flow, d: nat, equal: real) {
    f.dest == d && f.demand >= equal
  }

  function ModestDemand(flows: seq<Flow>, d: nat, equal: real): real {
    if flows == [] then 0.0
    else
      var n := |flows| - 1;
      ModestDemand(flows[..n], d, equal) + (if Modest(flows[n], d, equal) then flows[n].demand else 0.0)
  }

  function GreedyCount(flows: seq<Flow>, d: nat, equal: real): nat {
    if flows == [] then 0
    else
      var n := |flows| - 1;
      GreedyCount(flows[..n], d, equal) + (if Greedy(flows[n], d, equal) then 1 else 0)
  }

  /** The flow once its receiver has shared its capacity out. */
  function Granted(f: Flow, d: nat, equal: real, share: real): Flow {
    if Modest(f, d, equal) then f.(receiverLimited := false)
    else if Greedy(f, d, equal) then f.(receiverLimited := true, converged := true, demand := share)
    else f
  }

  function GrantedAll(flows: seq<Flow>, d: nat, equal: real, share: real): (r: seq<Flow>)
    ensures |r| == |flows|
  {
    seq(|flows|, i requires 0 <= i < |flows| => Granted(flows[i], d, equal, share))
  }

  /** The flows of a receiver within its capacity are only marked. */
  function Marked(flows: seq<Flow>, d: nat): (r: seq<Flow>)
    ensures |r| == |flows|
  {
    seq(|flows|, i requires 0 <= i < |flows| =>
      if flows[i].dest == d then flows[i].(receiverLimited := true) else flows[i])
  }

  function EqualShare(flows: seq<Flow>, d: nat): real
    requires Arrivals(flows, d) > 0
  {
    1.0 / (Arrivals(flows, d) as real)
  }

  /** A receiver that is sent something has a flow to it. */
  lemma {:induction false} IncomingArrives(flows: seq<Flow>, d: nat)
    ensures Incoming(flows, d) != 0.0 ==> Arrivals(flows, d) > 0
  {
    if flows != [] {
      IncomingArrives(flows[..|flows| - 1], d);
    }
  }

  lemma {:induction false} ModestTotal(flows: seq<Flow>, d: nat, equal: real)
    requires GreedyCount(flows, d, equal) == 0
    ensures Incoming(flows, d) <= (Arrivals(flows, d) as real) * equal
  {
    if flows != [] {
      ModestTotal(flows[..|flows| - 1], d, equal);
      OneMore(Arrivals(flows[..|flows| - 1], d), equal);
    }
  }

  /** An overloaded receiver has a flow that asks for the equal share or more. */
  lemma SomeoneIsGreedy(flows: seq<Flow>, d: nat)
    requires Incoming(flows, d) > 1.0
    ensures Arrivals(flows, d) > 0 && GreedyCount(flows, d, EqualShare(flows, d)) > 0
  {
    IncomingArrives(flows, d);
    if GreedyCount(flows, d, EqualShare(flows, d)) == 0 {
      ModestTotal(flows, d, EqualShare(flows, d));
      Divided(1.0, Arrivals(flows, d));
    }
  }

  function ReceiverShare(flows: seq<Flow>, d: nat): real
    requires Incoming(flows, d) > 1.0
  {
    SomeoneIsGreedy(flows, d);
    (1.0 - ModestDemand(flows, d, EqualShare(flows, d))) / (GreedyCount(flows, d, EqualShare(flows, d)) as real)
  }

  function AfterReceiver(flows: seq<Flow>, d: nat): (r: seq<Flow>)
    ensures |r| == |flows|
  {
    if Incoming(flows, d) <= 1.0 then Marked(flows, d)
    else
      SomeoneIsGreedy(flows, d);
      GrantedAll(flows, d, EqualShare(flows, d), ReceiverShare(flows, d))
  }

  lemma GrantedPrefix(flows: seq<Flow>, d: nat, equal: real, share: real, n: nat)
    requires n <= |flows|
    ensures GrantedAll(flows, d, equal, share)[..n] == GrantedAll(flows[..n], d, equal, share)
  {
  }

  lemma {:induction false} GrantedTotal(flows: seq<Flow>, d: nat, equal: real, share: real)
    ensures Incoming(GrantedAll(flows, d, equal, share), d)
            == ModestDemand(flows, d, equal) + (GreedyCount(flows, d, equal) as real) * share
  {
    if flows != [] {
      var n := |flows| - 1;
      GrantedTotal(flows[..n], d, equal, share);
      OneMore(GreedyCount(flows[..n], d, equal), share);
      GrantedPrefix(flows, d, equal, share, n);
    }
  }

  lemma {:induction false} ModestAtMost(flows: seq<Flow>, d: nat, equal: real)
    ensures ModestDemand(flows, d, equal) + (GreedyCount(flows, d, equal) as real) * equal
            <= (Arrivals(flows, d) as real) * equal
  {
    if flows != [] {
      ModestAtMost(flows[..|flows| - 1], d, equal);
      OneMore(Arrivals(flows[..|flows| - 1], d), equal);
      OneMore(GreedyCount(flows[..|flows| - 1], d, equal), equal);
    }
  }

  lemma Increasing(a: real, b: real, x: real)
    requires a < b && x > 0.0
    ensures x * a < x * b
  {
  }

  /** What is left after the modest flows, divided among the `n` greedy ones of `m`, is at least the
      equal share. */
  lemma ShareAtLeast(a: real, n: nat, m: nat, equal: real)
    requires n > 0 && m > 0 && equal == 1.0 / (m as real)
    requires a + (n as real) * equal <= (m as real) * equal
    ensures (1.0 - a) / (n as real) >= equal
  {
    var share := (1.0 - a) / (n as real);
    Divided(1.0, m);
    Divided(1.0 - a, n);
    if share < equal {
      Increasing(share, equal, n as real);
    }
  }

  lemma ShareIsFair(flows: seq<Flow>, d: nat)
    requires Incoming(flows, d) > 1.0
    ensures Arrivals(flows, d) > 0 && ReceiverShare(flows, d) >= EqualShare(flows, d)
  {
    SomeoneIsGreedy(flows, d);
    var equal := EqualShare(flows, d);
    ModestAtMost(flows, d, equal);
    ShareAtLeast(ModestDemand(flows, d, equal), GreedyCount(flows, d, equal), Arrivals(flows, d), equal);
  }

  lemma ReceiverTotal(flows: seq<Flow>, d: nat)
    requires Incoming(flows, d) > 1.0
    ensures Incoming(AfterReceiver(flows, d), d) == 1.0
  {
    SomeoneIsGreedy(flows, d);
    var equal := EqualShare(flows, d);
    var share := ReceiverShare(flows, d);
    GrantedTotal(flows, d, equal, share);
    FilledUp(ModestDemand(flows, d, equal), GreedyCount(flows, d, equal), share);
  }

  /** An overloaded receiver ends with exactly its capacity: the flows that ask for less than the equal
      share are unchanged, the others get the same, and no less than the equal share. */
  lemma ReceiverIsFull(flows: seq<Flow>, d: nat)
    requires Incoming(flows, d) > 1.0
    ensures Arrivals(flows, d) > 0
    ensures Incoming(AfterReceiver(flows, d), d) == 1.0
    ensures ReceiverShare(flows, d) >= EqualShare(flows, d)
    ensures forall i :: 0 <= i < |flows| && Modest(flows[i], d, EqualShare(flows, d)) ==>
              AfterReceiver(flows, d)[i] == flows[i].(receiverLimited := false)
    ensures forall i :: 0 <= i < |flows| && Greedy(flows[i], d, EqualShare(flows, d)) ==>
              AfterReceiver(flows, d)[i].demand == ReceiverShare(flows, d) && AfterReceiver(flows, d)[i].converged
    ensures forall i :: 0 <= i < |flows| && flows[i].dest != d ==> AfterReceiver(flows, d)[i] == flows[i]
  {
    ReceiverTotal(flows, d);
    ShareIsFair(flows, d);
  }

  function Min(a: real, b: real): real {
    if a <= b then a else b
  }

  /** Max-min fairness: every flow to the receiver gets what it asks for, up to one common level. */
  ghost predicate Levelled(flows: seq<Flow>, after: seq<Flow>, d: nat)
    requires |after| == |flows|
  {
    exists level: real :: IsLevel(flows, after, d, level)
  }

  ghost predicate IsLevel(flows: seq<Flow>, after: seq<Flow>, d: nat, level: real)
    requires |after| == |flows|
  {
    forall i :: 0 <= i < |flows| && flows[i].dest == d ==> after[i].demand == Min(flows[i].demand, level)
  }

  /** No flow to the receiver asks for the equal share or more and yet for less than the share it is given. */
  ghost predicate NoneBetween(flows: seq<Flow>, d: nat)
    requires Incoming(flows, d) > 1.0 && Arrivals(flows, d) > 0
  {
    forall i :: 0 <= i < |flows| && Greedy(flows[i], d, EqualShare(flows, d)) ==>
      ReceiverShare(flows, d) <= flows[i].demand
  }

  /** The single pass over an overloaded receiver's flows is fair exactly when none of them is between the two
      shares: such a flow is given more than it asks for. */
  lemma ReceiverIsFairIff(flows: seq<Flow>, d: nat)
    requires Incoming(flows, d) > 1.0
    ensures Arrivals(flows, d) > 0
    ensures Levelled(flows, AfterReceiver(flows, d), d) <==> NoneBetween(flows, d)
  {
    ReceiverIsFull(flows, d);
    var after, share := AfterReceiver(flows, d), ReceiverShare(flows, d);
    if NoneBetween(flows, d) {
      assert IsLevel(flows, after, d, share);
    } else {
      var i :| 0 <= i < |flows| && Greedy(flows[i], d, EqualShare(flows, d)) && flows[i].demand < share;
      assert after[i].demand == share;
    }
  }

  function Ask(src: nat, demand: real): Flow {
    Flow(src, 0, demand, false, false)
  }

  /** Of three flows that ask for 0.1, 0.4 and 0.9 the second is given 0.45. */
  lemma RaisedFlow()
    ensures var flows := [Ask(1, 0.1), Ask(2, 0.4), Ask(3, 0.9)];
            Incoming(flows, 0) == 1.4 && AfterReceiver(flows, 0)[1].demand == 0.45
  {
    var a, b, c := Ask(1, 0.1), Ask(2, 0.4), Ask(3, 0.9);
    var flows, equal := [a, b, c], 1.0 / 3.0;
    assert flows[..2] == [a, b] && [a, b][..1] == [a] && [a][..0] == [];
    assert Incoming([a], 0) == 0.1 && Incoming([a, b], 0) == 0.5 && Incoming(flows, 0) == 1.4;
    assert Arrivals([a], 0) == 1 && Arrivals([a, b], 0) == 2 && Arrivals(flows, 0) == 3;
    assert ModestDemand([a], 0, equal) == 0.1 && ModestDemand([a, b], 0, equal) == 0.1;
    assert GreedyCount([a], 0, equal) == 0 && GreedyCount([a, b], 0, equal) == 1 && GreedyCount(flows, 0, equal) == 2;
    assert ReceiverShare(flows, 0) == 0.45;
  }

  // ----- A round -----

  /** A receiver's turn leaves what the others are sent alone. */
  lemma {:induction false} OthersUnchanged(flows: seq<Flow>, after: seq<Flow>, d: nat, e: nat)
    requires |after| == |flows|
    requires forall i :: 0 <= i < |flows| ==>
               after[i].dest == flows[i].dest && (flows[i].dest == d || after[i].demand == flows[i].demand)
    requires d != e || forall i :: 0 <= i < |flows| ==> after[i].demand == flows[i].demand
    ensures Incoming(after, e) == Incoming(flows, e)
  {
    if flows != [] {
      var n := |flows| - 1;
      OthersUnchanged(flows[..n], after[..n], d, e);
    }
  }

  /** After its turn a receiver is sent at most its capacity, and no other total has changed. */
  lemma ReceiverTurn(flows: seq<Flow>, d: nat)
    ensures Incoming(AfterReceiver(flows, d), d) <= 1.0
    ensures forall e :: e != d ==> Incoming(AfterReceiver(flows, d), e) == Incoming(flows, e)
  {
    if Incoming(flows, d) <= 1.0 {
      OthersUnchanged(flows, AfterReceiver(flows, d), d, d);
    } else {
      ReceiverTotal(flows, d);
    }
    forall e | e != d
      ensures Incoming(AfterReceiver(flows, d), e) == Incoming(flows, e)
    {
      OthersUnchanged(flows, AfterReceiver(flows, d), d, e);
    }
  }

  function AfterSources(flows: seq<Flow>, hosts: seq<nat>): (r: seq<Flow>) {
    if hosts == [] then flows
    else AfterSource(AfterSources(flows, hosts[..|hosts| - 1]), hosts[|hosts| - 1])
  }

  function AfterReceivers(flows: seq<Flow>, hosts: seq<nat>): (r: seq<Flow>) {
    if hosts == [] then flows
    else AfterReceiver(AfterReceivers(flows, hosts[..|hosts| - 1]), hosts[|hosts| - 1])
  }

  function Round(flows: seq<Flow>, hosts: seq<nat>): seq<Flow> {
    AfterReceivers(AfterSources(flows, hosts), hosts)
  }

  function Rounds(flows: seq<Flow>, hosts: seq<nat>, n: nat): seq<Flow> {
    if n == 0 then flows else Round(Rounds(flows, hosts, n - 1), hosts)
  }

  /** No receiver is sent more than its capacity once all have had a turn. */
  lemma {:induction false} NoReceiverOverloaded(flows: seq<Flow>, hosts: seq<nat>)
    ensures forall d :: d in hosts ==> Incoming(AfterReceivers(flows, hosts), d) <= 1.0
  {
    if hosts != [] {
      var n := |hosts| - 1;
      NoReceiverOverloaded(flows, hosts[..n]);
      ReceiverTurn(AfterReceivers(flows, hosts[..n]), hosts[n]);
      assert forall d :: d in hosts <==> d in hosts[..n] || d == hosts[n];
    }
  }
}
