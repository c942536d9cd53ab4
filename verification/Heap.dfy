/** The binary heap of events (src/lib/heap.c, src/lib/heap.h): positions count from 1, and a node's
    children are at twice its position and the next. */
module Heap {
  import opened EventQueue

  function At(s: seq<Event>, i: nat): nat
    requires 1 <= i <= |s|
  {
    s[i - 1].time
  }

  /** No event is earlier than its parent. */
  ghost predicate HeapOrder(s: seq<Event>) {
    forall i :: 2 <= i <= |s| ==> At(s, i / 2) <= At(s, i)
  }

  function Swapped(s: seq<Event>, i: nat, j: nat): (r: seq<Event>)
    requires 1 <= i <= |s| && 1 <= j <= |s|
    ensures |r| == |s|
  {
    s[i - 1 := s[j - 1]][j - 1 := s[i - 1]]
  }

  /** Bubbles the event at `i` up. */
  function Up(s: seq<Event>, i: nat): (r: seq<Event>)
    requires 1 <= i <= |s|
    ensures |r| == |s|
    decreases i
  {
    if i == 1 || At(s, i / 2) <= At(s, i) then s else Up(Swapped(s, i, i / 2), i / 2)
  }

  /** The earliest of an event and its children. */
  function Least(s: seq<Event>, i: nat): (min: nat)
    requires 1 <= i <= |s|
    ensures min == i || i < min <= |s|
  {
    var min := if 2 * i + 1 <= |s| && At(s, 2 * i + 1) < At(s, i) then 2 * i + 1 else i;
    if 2 * i <= |s| && At(s, 2 * i) < At(s, min) then 2 * i else min
  }

  /** Sifts the event at `i` down. */
  function Down(s: seq<Event>, i: nat): (r: seq<Event>)
    requires 1 <= i <= |s|
    ensures |r| == |s|
    decreases |s| - i
  {
    if Least(s, i) == i then s else Down(Swapped(s, i, Least(s, i)), Least(s, i))
  }

  function Inserted(s: seq<Event>, e: Event): seq<Event> {
    Up(s + [e], |s| + 1)
  }

  function Removed(s: seq<Event>): (r: seq<Event>)
    requires s != []
    ensures |r| == |s| - 1
  {
    if |s| == 1 then [] else Down([s[|s| - 1]] + s[1..|s| - 1], 1)
  }

  // ----- The events are kept -----

  lemma SwappedPermutes(s: seq<Event>, i: nat, j: nat)
    requires 1 <= i <= |s| && 1 <= j <= |s|
    ensures multiset(Swapped(s, i, j)) == multiset(s)
  {
  }

  lemma {:induction false} UpPermutes(s: seq<Event>, i: nat)
    requires 1 <= i <= |s|
    ensures multiset(Up(s, i)) == multiset(s)
    decreases i
  {
    if !(i == 1 || At(s, i / 2) <= At(s, i)) {
      SwappedPermutes(s, i, i / 2);
      UpPermutes(Swapped(s, i, i / 2), i / 2);
    }
  }

  lemma {:induction false} DownPermutes(s: seq<Event>, i: nat)
    requires 1 <= i <= |s|
    ensures multiset(Down(s, i)) == multiset(s)
    decreases |s| - i
  {
    if Least(s, i) != i {
      SwappedPermutes(s, i, Least(s, i));
      DownPermutes(Swapped(s, i, Least(s, i)), Least(s, i));
    }
  }

  lemma InsertedKeeps(s: seq<Event>, e: Event)
    ensures multiset(Inserted(s, e)) == multiset(s) + multiset{e}
  {
    UpPermutes(s + [e], |s| + 1);
  }

  lemma RemovedKeeps(s: seq<Event>)
    requires s != []
    ensures multiset(Removed(s)) == multiset(s) - multiset{s[0]}
  {
    var n := |s| - 1;
    if n == 0 {
      assert s == [s[0]];
    } else {
      assert s == [s[0]] + s[1..n] + [s[n]];
      DownPermutes([s[n]] + s[1..n], 1);
    }
  }

  // ----- The order is restored -----

  /** The heap order holds but for the event at `i`, which may be earlier than its parent. */
  ghost predicate OrderAbove(s: seq<Event>, i: nat)
    requires 1 <= i <= |s|
  {
    && (forall j :: 2 <= j <= |s| && j != i ==> At(s, j / 2) <= At(s, j))
    && (i > 1 ==> forall j :: 2 <= j <= |s| && j / 2 == i ==> At(s, i / 2) <= At(s, j))
  }

  /** The heap order holds but for the event at `i`, which may be later than its children. */
  ghost predicate OrderBelow(s: seq<Event>, i: nat)
    requires 1 <= i <= |s|
  {
    && (forall j :: 2 <= j <= |s| && j / 2 != i ==> At(s, j / 2) <= At(s, j))
    && (i > 1 ==> forall j :: 2 <= j <= |s| && j / 2 == i ==> At(s, i / 2) <= At(s, j))
  }

  lemma UpStep(s: seq<Event>, i: nat)
    requires 1 < i <= |s| && OrderAbove(s, i) && At(s, i) < At(s, i / 2)
    ensures OrderAbove(Swapped(s, i, i / 2), i / 2)
  {
  }

  lemma {:induction false} UpOrders(s: seq<Event>, i: nat)
    requires 1 <= i <= |s| && OrderAbove(s, i)
    ensures HeapOrder(Up(s, i))
    decreases i
  {
    if !(i == 1 || At(s, i / 2) <= At(s, i)) {
      UpStep(s, i);
      UpOrders(Swapped(s, i, i / 2), i / 2);
    }
  }

  lemma DownStep(s: seq<Event>, i: nat)
    requires 1 <= i <= |s| && OrderBelow(s, i) && Least(s, i) != i
    ensures OrderBelow(Swapped(s, i, Least(s, i)), Least(s, i))
  {
    var m, t := Least(s, i), Swapped(s, i, Least(s, i));
    assert m / 2 == i && At(s, m) < At(s, i);
    forall j | 2 <= j <= |t| && j / 2 != m
      ensures At(t, j / 2) <= At(t, j)
    {
      if j / 2 == i {
        assert j == 2 * i || j == 2 * i + 1;
      }
    }
    forall j | 2 <= j <= |t| && j / 2 == m
      ensures At(t, m / 2) <= At(t, j)
    {
      assert At(s, j / 2) <= At(s, j);
    }
  }

  lemma {:induction false} DownOrders(s: seq<Event>, i: nat)
    requires 1 <= i <= |s| && OrderBelow(s, i)
    ensures HeapOrder(Down(s, i))
    decreases |s| - i
  {
    if Least(s, i) != i {
      DownStep(s, i);
      DownOrders(Swapped(s, i, Least(s, i)), Least(s, i));
    }
  }

  lemma InsertedOrders(s: seq<Event>, e: Event)
    requires HeapOrder(s)
    ensures HeapOrder(Inserted(s, e))
  {
    UpOrders(s + [e], |s| + 1);
  }

  lemma RemovedOrders(s: seq<Event>)
    requires s != [] && HeapOrder(s)
    ensures HeapOrder(Removed(s))
  {
    if |s| > 1 {
      var t := [s[|s| - 1]] + s[1..|s| - 1];
      forall j | 2 <= j <= |t| && j / 2 != 1
        ensures At(t, j / 2) <= At(t, j)
      {
        assert At(t, j) == At(s, j) && At(t, j / 2) == At(s, j / 2);
      }
      DownOrders(t, 1);
    }
  }

  /** The first event is an earliest one. */
  lemma {:induction false} RootIsLeast(s: seq<Event>, i: nat)
    requires HeapOrder(s) && 1 <= i <= |s|
    ensures At(s, 1) <= At(s, i)
  {
    if i > 1 {
      RootIsLeast(s, i / 2);
    }
  }

  // ----- Draining -----

  /** The events in the order in which the heap gives them up. */
  function Drained(s: seq<Event>): seq<Event>
    decreases |s|
  {
    if s == [] then []
    else
      [s[0]] + Drained(Removed(s))
  }

  /** No event of a heap is earlier than the first one. */
  lemma NoneBeforeRoot(s: seq<Event>)
    requires s != [] && HeapOrder(s)
    ensures NoneBefore(s, s[0].time)
  {
    forall e | e in s
      ensures s[0].time <= e.time
    {
      var i :| 0 <= i < |s| && s[i] == e;
      RootIsLeast(s, i + 1);
    }
  }

  lemma SortedFrom(e: Event, rest: seq<Event>, s: seq<Event>)
    requires Sorted(rest) && NoneBefore(s, e.time)
    requires multiset(rest) == multiset(s) - multiset{e}
    ensures Sorted([e] + rest)
  {
    forall k | 0 <= k < |rest|
      ensures e.time <= rest[k].time
    {
      assert rest[k] in multiset(rest) && rest[k] in multiset(s);
    }
  }

  lemma MultisetFrom(s: seq<Event>, rest: seq<Event>)
    requires s != [] && multiset(rest) == multiset(s) - multiset{s[0]}
    ensures multiset([s[0]] + rest) == multiset(s)
  {
    assert s[0] in multiset(s);
  }

  /** A heap gives its events up in order of time. */
  lemma {:induction false} DrainedIsSorted(s: seq<Event>)
    requires HeapOrder(s)
    ensures multiset(Drained(s)) == multiset(s) && Sorted(Drained(s))
    decreases |s|
  {
    if s != [] {
      RemovedKeeps(s);
      RemovedOrders(s);
      DrainedIsSorted(Removed(s));
      NoneBeforeRoot(s);
      SortedFrom(s[0], Drained(Removed(s)), s);
      MultisetFrom(s, Drained(Removed(s)));
    }
  }

  /** Draining a heap gives the times of any sorted list of the same events, position by position. */
  lemma DrainAgreesWithList(s: seq<Event>, q: seq<Event>)
    requires HeapOrder(s) && Sorted(q) && multiset(s) == multiset(q)
    ensures |Drained(s)| == |q| && forall i :: 0 <= i < |q| ==> Drained(s)[i].time == q[i].time
  {
    DrainedIsSorted(s);
    SortedTimesUnique(Drained(s), q);
  }

  // ----- Insertions and deletions in any order -----

  datatype Op = Put(event: Event) | Take

  /** There is an event to take whenever one is taken, from `n` events on. */
  predicate CanRun(n: nat, ops: seq<Op>)
    decreases |ops|
  {
    ops == [] || (if ops[0].Put? then CanRun(n + 1, ops[1..]) else n > 0 && CanRun(n - 1, ops[1..]))
  }

  /** The times of the events the heap gives up in a run. */
  function HeapTimes(s: seq<Event>, ops: seq<Op>): seq<nat>
    requires CanRun(|s|, ops)
    decreases |ops|
  {
    if ops == [] then []
    else if ops[0].Put? then HeapTimes(Inserted(s, ops[0].event), ops[1..])
    else [s[0].time] + HeapTimes(Removed(s), ops[1..])
  }

  /** The times of the events dispatched from the list in the same run. */
  function ListTimes(q: seq<Event>, ops: seq<Op>): seq<nat>
    requires CanRun(|q|, ops)
    decreases |ops|
  {
    if ops == [] then []
    else if ops[0].Put? then
      InsertLength(q, ops[0].event);
      ListTimes(Insert(q, ops[0].event), ops[1..])
    else [q[0].time] + ListTimes(q[1..], ops[1..])
  }

  lemma {:induction false} InsertLength(q: seq<Event>, e: Event)
    ensures |Insert(q, e)| == |q| + 1
  {
    if q != [] && e.time > q[0].time {
      InsertLength(q[1..], e);
    }
  }

  /** The times of the events, with their multiplicities. */
  function Times(s: seq<Event>): multiset<nat> {
    if s == [] then multiset{} else multiset{s[0].time} + Times(s[1..])
  }

  lemma {:induction false} TimesConcat(a: seq<Event>, b: seq<Event>)
    ensures Times(a + b) == Times(a) + Times(b)
  {
    if a == [] {
      assert a + b == b;
    } else {
      assert (a + b)[1..] == a[1..] + b;
      TimesConcat(a[1..], b);
    }
  }

  lemma SplitOut(s: seq<Event>, i: nat)
    requires i < |s|
    ensures s == s[..i] + ([s[i]] + s[i + 1..])
  {
  }

  lemma TimesWithout(s: seq<Event>, i: nat)
    requires i < |s|
    ensures Times(s) == Times(s[..i] + s[i + 1..]) + multiset{s[i].time}
  {
    var front, back := s[..i], s[i + 1..];
    SplitOut(s, i);
    TimesConcat(front, [s[i]] + back);
    TimesConcat(front, back);
    assert ([s[i]] + back)[1..] == back;
  }

  lemma EventsWithout(s: seq<Event>, i: nat)
    requires i < |s|
    ensures multiset(s) == multiset(s[..i] + s[i + 1..]) + multiset{s[i]}
  {
    SplitOut(s, i);
  }

  lemma Cancel<T>(a: multiset<T>, b: multiset<T>, x: T)
    requires a + multiset{x} == b + multiset{x}
    ensures a == b
  {
    assert a == (a + multiset{x}) - multiset{x};
    assert b == (b + multiset{x}) - multiset{x};
  }

  lemma WithHead(s: seq<Event>)
    requires s != []
    ensures multiset(s) == multiset(s[1..]) + multiset{s[0]}
  {
    assert s == [s[0]] + s[1..];
  }

  /** The times depend only on which events there are. */
  lemma {:induction false} TimesOfSame(s: seq<Event>, t: seq<Event>)
    requires multiset(s) == multiset(t)
    ensures Times(s) == Times(t)
    decreases |s|
  {
    if s == [] {
      assert |t| == |multiset(t)| == 0;
    } else {
      assert s[0] in multiset(t);
      var i :| 0 <= i < |t| && t[i] == s[0];
      var rest := t[..i] + t[i + 1..];
      TimesWithout(t, i);
      EventsWithout(t, i);
      WithHead(s);
      Cancel(multiset(s[1..]), multiset(rest), s[0]);
      TimesOfSame(s[1..], rest);
    }
  }

  lemma {:induction false} TimesMembers(s: seq<Event>, t: nat)
    ensures t in Times(s) <==> exists e :: e in s && e.time == t
  {
    if s != [] {
      TimesMembers(s[1..], t);
      assert forall e :: e in s <==> e == s[0] || e in s[1..];
    }
  }

  lemma {:induction false} TimesSize(s: seq<Event>)
    ensures |Times(s)| == |s|
  {
    if s != [] {
      TimesSize(s[1..]);
    }
  }

  lemma PutTimes(s: seq<Event>, q: seq<Event>, e: Event)
    requires Times(s) == Times(q)
    ensures Times(Inserted(s, e)) == Times(Insert(q, e))
  {
    InsertedKeeps(s, e);
    TimesOfSame(Inserted(s, e), s + [e]);
    TimesConcat(s, [e]);
    InsertMembers(q, e);
    TimesOfSame(Insert(q, e), q + [e]);
    TimesConcat(q, [e]);
  }

  lemma TakeTimes(s: seq<Event>, q: seq<Event>)
    requires HeapOrder(s) && Sorted(q) && Times(s) == Times(q) && s != [] && q != []
    ensures s[0].time == q[0].time && Times(Removed(s)) == Times(q[1..])
  {
    SameEarliest(s, q);
    RemovedTimes(s);
    Cancel(Times(Removed(s)), Times(q[1..]), s[0].time);
  }

  lemma RemovedTimes(s: seq<Event>)
    requires s != []
    ensures Times(s) == Times(Removed(s)) + multiset{s[0].time}
  {
    RemovedKeeps(s);
    WithHead(s);
    TimesOfSame(Removed(s), s[1..]);
  }

  /** The root of the heap and the head of the list have the same time. */
  lemma SameEarliest(s: seq<Event>, q: seq<Event>)
    requires HeapOrder(s) && Sorted(q) && Times(s) == Times(q) && s != [] && q != []
    ensures s[0].time == q[0].time
  {
    NoneBeforeRoot(s);
    TimesMembers(s, q[0].time);
    TimesMembers(s, s[0].time);
    TimesMembers(q, q[0].time);
    TimesMembers(q, s[0].time);
    assert s[0] in s && q[0] in q;
  }

  /** In every run of insertions and deletions the heap gives up the same times as the sorted list that
      replaced it. */
  lemma {:induction false} HeapAgreesWithList(s: seq<Event>, q: seq<Event>, ops: seq<Op>)
    requires HeapOrder(s) && Sorted(q) && Times(s) == Times(q) && CanRun(|s|, ops)
    ensures |s| == |q| && HeapTimes(s, ops) == ListTimes(q, ops)
    decreases |ops|
  {
    TimesSize(s);
    TimesSize(q);
    if ops != [] {
      if ops[0].Put? {
        var e := ops[0].event;
        PutTimes(s, q, e);
        InsertedOrders(s, e);
        InsertSorted(q, e);
        InsertLength(q, e);
        HeapAgreesWithList(Inserted(s, e), Insert(q, e), ops[1..]);
      } else {
        TakeTimes(s, q);
        RemovedOrders(s);
        HeapAgreesWithList(Removed(s), q[1..], ops[1..]);
      }
    }
  }

  // ----- In place -----

  class EventHeap {
    var nodes: array<Event>
    var size: nat
    var capacity: nat

    constructor ()
      ensures Valid() && Contents() == [] && fresh(nodes)
    {
      nodes := new Event[1];
      size := 0;
      capacity := 0;
    }

    ghost predicate InBounds()
      reads this
    {
      nodes.Length == capacity + 1 && size <= capacity
    }

    ghost function Contents(): seq<Event>
      requires InBounds()
      reads this, nodes
    {
      nodes[1..size + 1]
    }

    ghost predicate Valid()
      reads this, nodes
    {
      InBounds() && HeapOrder(Contents())
    }

    method Swap(i: nat, j: nat)
      requires InBounds() && 1 <= i <= size && 1 <= j <= size
      modifies nodes
      ensures Contents() == Swapped(old(Contents()), i, j)
    {
      var tmp := nodes[i];
      nodes[i] := nodes[j];
      nodes[j] := tmp;
    }

    /** Makes room for one more event. */
    method Grow()
      requires InBounds()
      modifies this`nodes, this`capacity
      ensures InBounds() && size < capacity && Contents() == old(Contents())
      ensures nodes == old(nodes) || fresh(nodes)
    {
      if size >= capacity {
        capacity := if size == 0 then 1 else 2 * size;
        var bigger := new Event[capacity + 1];
        var i := 1;
        while i <= size
          invariant 1 <= i <= size + 1 <= nodes.Length && bigger.Length == capacity + 1 && size < capacity
          invariant nodes == old(nodes)
          invariant forall k :: 1 <= k < i ==> bigger[k] == nodes[k]
        {
          bigger[i] := nodes[i];
          i := i + 1;
        }
        nodes := bigger;
      }
    }

    method Insert(e: Event)
      requires Valid()
      modifies this, nodes
      ensures Valid() && Contents() == Inserted(old(Contents()), e)
      ensures multiset(Contents()) == multiset(old(Contents())) + multiset{e}
      ensures nodes == old(nodes) || fresh(nodes)
    {
      ghost var before := Contents();
      InsertedOrders(before, e);
      InsertedKeeps(before, e);
      Grow();
      size := size + 1;
      nodes[size] := e;
      assert Contents() == before + [e];
      BubbleUp();
    }

    method BubbleUp()
      requires InBounds() && size > 0
      modifies nodes
      ensures Contents() == Up(old(Contents()), size)
    {
      var i := size;
      while i > 1
        invariant 1 <= i <= size
        invariant Up(Contents(), i) == Up(old(Contents()), size)
      {
        var parent := i / 2;
        if nodes[parent].time <= nodes[i].time {
          break;
        }
        Swap(i, parent);
        i := parent;
      }
    }

    /** The position of the earliest of an event and its children. */
    method Earliest(i: nat) returns (min: nat)
      requires InBounds() && 1 <= i <= size
      ensures min == Least(Contents(), i)
    {
      assert forall k :: 1 <= k <= size ==> Contents()[k - 1] == nodes[k];
      min := i;
      var left, right := 2 * i + 1, 2 * i;
      if left <= size && nodes[left].time < nodes[min].time {
        min := left;
      }
      if right <= size && nodes[right].time < nodes[min].time {
        min := right;
      }
    }

    method MinHeapify()
      requires InBounds() && size > 0
      modifies nodes
      ensures Contents() == Down(old(Contents()), 1)
    {
      var i, min := 1, 0;
      while min < size
        invariant 1 <= i <= size && (min == 0 || min == i)
        invariant Down(Contents(), i) == Down(old(Contents()), 1)
        decreases size - min
      {
        min := Earliest(i);
        if min == i {
          break;
        }
        Swap(i, min);
        i := min;
      }
    }

    /** Puts the last event in the place of the first and sifts it down. */
    method TakeFirst() returns (e: Event)
      requires InBounds() && Contents() != []
      modifies this`size, nodes
      ensures InBounds() && Contents() == Removed(old(Contents()))
      ensures e == old(Contents())[0]
    {
      ghost var before := Contents();
      var last := nodes[size];
      size := size - 1;
      e := nodes[1];
      nodes[1] := last;
      if size > 0 {
        assert Contents() == [before[|before| - 1]] + before[1..|before| - 1];
        MinHeapify();
      }
    }

    /** Takes an earliest event out. */
    method Delete() returns (e: Event)
      requires Valid() && Contents() != []
      modifies this`size, nodes
      ensures Valid() && Contents() == Removed(old(Contents()))
      ensures e == old(Contents())[0] && NoneBefore(old(Contents()), e.time)
      ensures multiset(Contents()) == multiset(old(Contents())) - multiset{e}
    {
      ghost var before := Contents();
      NoneBeforeRoot(before);
      RemovedOrders(before);
      RemovedKeeps(before);
      e := TakeFirst();
    }
  }
}
