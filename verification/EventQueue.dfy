/** Simulation events and the time-ordered list that holds them (src/sim/scheduler.c). */
module EventQueue {

  /** What an event does when it is executed. The FTI kinds are those that keep or put the
      simulator in fixed-time-increment mode. */
  datatype Kind =
    | FlowRecv(node: nat, flow: nat)
    | FlowSend(node: nat, flow: nat, port: nat)
    | Packet
    | PortChange
    | OfIn(node: nat)
    | OfOut(node: nat)
    | RouterIn
    | RouterOut
    | RouterConfig
    | AppStart(node: nat, exec: nat)
    | End
  {
    predicate Fti() {
      OfIn? || OfOut? || RouterIn? || RouterOut? || RouterConfig?
    }

    predicate OfFlow() {
      FlowRecv? || FlowSend?
    }
  }

  datatype Event = Event(time: nat, kind: Kind)

  ghost predicate Sorted(q: seq<Event>) {
    forall i, j :: 0 <= i < j < |q| ==> q[i].time <= q[j].time
  }

  /** Every event of `q` is due at `t` or later. */
  ghost predicate NoneBefore(q: seq<Event>, t: nat) {
    forall e :: e in q ==> t <= e.time
  }

  ghost predicate HasEnd(q: seq<Event>) {
    exists e :: e in q && e.kind.End?
  }

  /** The list after an ordered insertion: the event goes in front of the first event that is
      not earlier than it. */
  function Insert(q: seq<Event>, e: Event): seq<Event> {
    if q == [] || e.time <= q[0].time then [e] + q else [q[0]] + Insert(q[1..], e)
  }

  lemma FromRest(q: seq<Event>, i: nat)
    requires 0 < i <= |q|
    ensures q[1..][i - 1..] == q[i..] && [q[0]] + q[1..][..i - 1] == q[..i]
  {
  }

  /** Insertion puts the event behind every earlier one. */
  lemma {:induction false} InsertAt(q: seq<Event>, i: nat, e: Event)
    requires i <= |q|
    requires forall j :: 0 <= j < i ==> q[j].time < e.time
    requires i < |q| ==> e.time <= q[i].time
    ensures Insert(q, e) == q[..i] + [e] + q[i..]
  {
    if 0 < i {
      var rest := q[1..];
      InsertAt(rest, i - 1, e);
      FromRest(q, i);
      assert [q[0]] + (rest[..i - 1] + [e] + rest[i - 1..]) == ([q[0]] + rest[..i - 1]) + [e] + rest[i - 1..];
    }
  }

  /** The list after one occurrence of `e` is unlinked. */
  function Remove(q: seq<Event>, e: Event): seq<Event> {
    if q == [] then [] else if q[0] == e then q[1..] else [q[0]] + Remove(q[1..], e)
  }

  lemma {:induction false} RemoveAt(q: seq<Event>, i: nat, e: Event)
    requires i <= |q|
    requires forall j :: 0 <= j < i ==> q[j] != e
    requires i < |q| ==> q[i] == e
    ensures Remove(q, e) == if i < |q| then q[..i] + q[i + 1..] else q
  {
    if 0 < i {
      RemoveAt(q[1..], i - 1, e);
      assert q == [q[0]] + q[1..];
      if i < |q| {
        assert q[1..][..i - 1] == q[1..i] && q[1..][i..] == q[i + 1..];
        assert q[..i] == [q[0]] + q[1..i];
      }
    }
  }

  lemma {:induction false} InsertMembers(q: seq<Event>, e: Event)
    ensures multiset(Insert(q, e)) == multiset(q) + multiset{e}
    ensures forall x :: x in Insert(q, e) <==> x in q || x == e
  {
    if q == [] || e.time <= q[0].time {
      assert multiset([e] + q) == multiset{e} + multiset(q);
    } else {
      InsertMembers(q[1..], e);
      assert q == [q[0]] + q[1..];
    }
    assert forall x :: x in Insert(q, e) <==> x in multiset(Insert(q, e));
  }

  lemma {:induction false} InsertSorted(q: seq<Event>, e: Event)
    requires Sorted(q)
    ensures Sorted(Insert(q, e))
    ensures Insert(q, e)[0].time == if q == [] || e.time <= q[0].time then e.time else q[0].time
  {
    if q != [] && q[0].time < e.time {
      InsertSorted(q[1..], e);
      InsertMembers(q[1..], e);
      forall x | x in Insert(q[1..], e)
        ensures q[0].time <= x.time
      {
        assert x in q[1..] || x == e;
      }
    }
  }

  lemma {:induction false} RemoveMembers(q: seq<Event>, e: Event)
    ensures forall x :: x in Remove(q, e) ==> x in q
    ensures forall x :: x in q && x != e ==> x in Remove(q, e)
    ensures e in q ==> multiset(Remove(q, e)) + multiset{e} == multiset(q)
  {
    if q != [] {
      assert q == [q[0]] + q[1..];
      if q[0] != e {
        RemoveMembers(q[1..], e);
      }
    }
  }

  lemma {:induction false} RemoveSorted(q: seq<Event>, e: Event)
    requires Sorted(q)
    ensures Sorted(Remove(q, e))
  {
    if q != [] && q[0] != e {
      RemoveSorted(q[1..], e);
      RemoveMembers(q[1..], e);
      forall x | x in Remove(q[1..], e)
        ensures q[0].time <= x.time
      {
        assert x in q[1..];
      }
    }
  }

  /** The list after inserting the events of `es` one by one. */
  function InsertAll(q: seq<Event>, es: seq<Event>): seq<Event>
    decreases |es|
  {
    if es == [] then q else InsertAll(Insert(q, es[0]), es[1..])
  }

  lemma {:induction false} InsertAllMembers(q: seq<Event>, es: seq<Event>)
    ensures multiset(InsertAll(q, es)) == multiset(q) + multiset(es)
    ensures forall x :: x in InsertAll(q, es) <==> x in q || x in es
    ensures Sorted(q) ==> Sorted(InsertAll(q, es))
    decreases |es|
  {
    if es != [] {
      InsertMembers(q, es[0]);
      if Sorted(q) {
        InsertSorted(q, es[0]);
      }
      InsertAllMembers(Insert(q, es[0]), es[1..]);
      assert es == [es[0]] + es[1..];
    }
  }

  /** Two sorted lists of the same events have the same times, position by position: whatever
      order equal timestamps take, the sequence of times is fixed by the events alone. */
  lemma {:induction false} SortedTimesUnique(p: seq<Event>, q: seq<Event>)
    requires Sorted(p) && Sorted(q)
    requires multiset(p) == multiset(q)
    ensures |p| == |q|
    ensures forall i :: 0 <= i < |p| ==> p[i].time == q[i].time
  {
    assert |p| == |multiset(p)| == |multiset(q)| == |q|;
    if p != [] {
      var rest := Remove(q, p[0]);
      SameFirst(p, q);
      RemoveHead(p, q);
      RemoveSorted(q, p[0]);
      RemoveTimes(q, p[0]);
      SortedTimesUnique(p[1..], rest);
      forall i | 0 <= i < |p|
        ensures p[i].time == q[i].time
      {
        if i > 0 {
          assert p[1..][i - 1] == p[i];
          assert rest[i - 1].time == q[i].time;
        }
      }
    }
  }

  lemma SameFirst(p: seq<Event>, q: seq<Event>)
    requires Sorted(p) && Sorted(q) && p != [] && q != [] && multiset(p) == multiset(q)
    ensures p[0] in q && p[0].time == q[0].time
  {
    assert p[0] in multiset(q) && q[0] in multiset(p);
  }

  lemma RemoveHead(p: seq<Event>, q: seq<Event>)
    requires p != [] && multiset(p) == multiset(q)
    ensures multiset(p[1..]) == multiset(Remove(q, p[0]))
  {
    assert p == [p[0]] + p[1..];
    assert p[0] in multiset(q);
    RemoveMembers(q, p[0]);
    assert multiset(p[1..]) == multiset(p) - multiset{p[0]};
    assert multiset(Remove(q, p[0])) == multiset(q) - multiset{p[0]};
  }

  /** Unlinking an event of the earliest time shifts the times of the list by one. */
  lemma {:induction false} RemoveTimes(q: seq<Event>, e: Event)
    requires Sorted(q) && e in q && e.time == q[0].time
    ensures |Remove(q, e)| == |q| - 1
    ensures forall i :: 0 <= i < |q| - 1 ==> Remove(q, e)[i].time == q[i + 1].time
  {
    if q[0] != e {
      assert e in q[1..];
      assert q[1].time == q[0].time by {
        var j :| 1 <= j < |q| && q[j] == e;
        assert q[0].time <= q[1].time <= q[j].time;
      }
      RemoveTimes(q[1..], e);
      forall i | 0 <= i < |q| - 1
        ensures Remove(q, e)[i].time == q[i + 1].time
      {
        if i > 0 {
          assert Remove(q, e)[i] == Remove(q[1..], e)[i - 1];
        }
      }
    }
  }

  datatype Mode = DES | FTI

  /** The scheduler: the simulation clock, the mode and the pending events. */
  class Scheduler {
    var clock: nat
    var mode: Mode
    var queue: seq<Event>

    ghost predicate Valid()
      reads this
    {
      Sorted(queue)
    }

    constructor ()
      ensures Valid() && clock == 0 && mode == FTI && queue == []
    {
      clock, mode, queue := 0, FTI, [];
    }

    method Schedule(e: Event)
      requires Valid()
      modifies this`queue
      ensures Valid()
      ensures queue == Insert(old(queue), e)
    {
      var i := 0;
      while i < |queue| && queue[i].time < e.time
        invariant 0 <= i <= |queue|
        invariant forall j :: 0 <= j < i ==> queue[j].time < e.time
      {
        i := i + 1;
      }
      InsertAt(queue, i, e);
      InsertSorted(queue, e);
      queue := queue[..i] + [e] + queue[i..];
    }

    method Delete(e: Event)
      requires Valid()
      modifies this`queue
      ensures Valid()
      ensures queue == Remove(old(queue), e)
    {
      var i := 0;
      while i < |queue| && queue[i] != e
        invariant 0 <= i <= |queue|
        invariant forall j :: 0 <= j < i ==> queue[j] != e
      {
        i := i + 1;
      }
      RemoveAt(queue, i, e);
      RemoveSorted(queue, e);
      if i < |queue| {
        queue := queue[..i] + queue[i + 1..];
      }
    }

    method Dispatch() returns (e: Event)
      requires Valid()
      requires queue != []
      modifies this`queue
      ensures Valid()
      ensures old(queue) == [e] + queue
      ensures NoneBefore(queue, e.time)
    {
      e := queue[0];
      queue := queue[1..];
    }
  }
}
