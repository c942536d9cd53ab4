/** How the buffer of a statistics reply grows. Each table starts again with room for one entry in mind,
    whatever the buffer holds by then (src/net/flow_table.c, src/net/datapath.c). */
module ReplyGrowth {
  import opened Arithmetic

  /** The slots a table believes to be allocated, those that are, and the entries written. */
  datatype Growth = Growth(believed: nat, slots: nat, count: nat)

  /** Before a write the buffer is enlarged if the table believes it to be full. */
  function Grown(g: Growth): Growth {
    if g.believed == g.count then Growth(2 * g.believed, 2 * g.believed, g.count) else g
  }

  predicate InBounds(g: Growth) {
    Grown(g).count < Grown(g).slots
  }

  function Written(g: Growth): Growth {
    Grown(g).(count := g.count + 1)
  }

  function WrittenBy(g: Growth, n: nat): Growth {
    if n == 0 then g else Written(WrittenBy(g, n - 1))
  }

  /** Each of the next `n` writes falls inside the buffer. */
  predicate Fits(g: Growth, n: nat) {
    n > 0 ==> Fits(g, n - 1) && InBounds(WrittenBy(g, n - 1))
  }

  lemma {:induction false} FitsFewer(g: Growth, n: nat, m: nat)
    requires n <= m
    ensures Fits(g, m) ==> Fits(g, n)
    decreases m
  {
    if n < m {
      FitsFewer(g, n, m - 1);
    }
  }

  /** The least power of two that is not below `n`. */
  function Room(n: nat): nat {
    if n <= 1 then 1 else 2 * Room((n + 1) / 2)
  }

  lemma {:induction false} RoomIsLeast(n: nat) returns (k: nat)
    ensures Room(n) == Power(k) && n <= Room(n) && (n > 1 ==> Room(n) < 2 * n)
  {
    if n <= 1 {
      k := 0;
    } else {
      k := RoomIsLeast((n + 1) / 2);
      k := k + 1;
    }
  }

  lemma {:induction false} RoomNext(n: nat)
    requires n > 0
    ensures n <= Room(n)
    ensures Room(n + 1) == if n == Room(n) then 2 * n else Room(n)
  {
    if n > 1 {
      RoomNext(n / 2);
      if n % 2 == 1 {
        RoomNext(n / 2 + 1);
      }
    }
  }

  // ----- One table -----

  lemma DoublesOnce(count: nat)
    ensures InBounds(Growth(Room(count), Room(count), count))
    ensures Written(Growth(Room(count), Room(count), count)) == Growth(Room(count + 1), Room(count + 1), count + 1)
  {
    if count > 0 {
      RoomNext(count);
    }
  }

  /** From an empty buffer, or one with a single entry, a table never runs out of room. */
  lemma {:induction false} Doubles(g: Growth, n: nat)
    requires g.believed == g.slots == 1 && g.count <= 1
    ensures Fits(g, n) && WrittenBy(g, n) == Growth(Room(g.count + n), Room(g.count + n), g.count + n)
  {
    if n > 0 {
      Doubles(g, n - 1);
      DoublesOnce(g.count + n - 1);
    }
  }

  /** With two entries or more in the buffer a table no longer enlarges it. */
  lemma {:induction false} IsStuck(g: Growth, n: nat)
    requires g.believed == 1 && g.count >= 2
    ensures WrittenBy(g, n) == g.(count := g.count + n)
    ensures Fits(g, n) <==> n == 0 || g.count + n <= g.slots
  {
    if n > 0 {
      IsStuck(g, n - 1);
    }
  }

  // ----- All tables -----

  function Restarted(g: Growth): Growth {
    g.(believed := 1)
  }

  /** The buffer after tables that report so many entries each. */
  function AfterTables(counts: seq<nat>): Growth {
    if counts == [] then Growth(1, 1, 0)
    else
      var n := |counts| - 1;
      WrittenBy(Restarted(AfterTables(counts[..n])), counts[n])
  }

  ghost predicate AllFit(counts: seq<nat>) {
    forall j :: 0 <= j < |counts| ==> Fits(Restarted(AfterTables(counts[..j])), counts[j])
  }

  function Total(counts: seq<nat>): nat {
    if counts == [] then 0 else Total(counts[..|counts| - 1]) + counts[|counts| - 1]
  }

  /** The entries reported by the end of the table that reports the second one, or all if there is no second. */
  function Settled(counts: seq<nat>): nat {
    if counts != [] && Total(counts[..|counts| - 1]) >= 2 then Settled(counts[..|counts| - 1]) else Total(counts)
  }

  /** Spelled out by position. */
  lemma {:induction false} SettledAt(counts: seq<nat>, j: nat)
    requires j < |counts| && Total(counts[..j]) < 2 <= Total(counts[..j + 1])
    ensures 2 <= Total(counts) && Settled(counts) == Total(counts[..j + 1])
  {
    var n := |counts| - 1;
    if j < n {
      assert counts[..n][..j] == counts[..j] && counts[..n][..j + 1] == counts[..j + 1];
      SettledAt(counts[..n], j);
    } else {
      assert counts[..j + 1] == counts;
    }
  }

  lemma AllFitNext(counts: seq<nat>)
    requires counts != []
    ensures var n := |counts| - 1;
            AllFit(counts) <==> AllFit(counts[..n]) && Fits(Restarted(AfterTables(counts[..n])), counts[n])
  {
    var n := |counts| - 1;
    assert forall j :: 0 <= j < n ==> counts[..n][..j] == counts[..j] && counts[..n][j] == counts[j];
  }

  lemma AllFitMore(counts: seq<nat>, i: nat)
    requires i < |counts| && AllFit(counts[..i]) && Fits(Restarted(AfterTables(counts[..i])), counts[i])
    ensures AllFit(counts[..i + 1])
  {
    assert counts[..i + 1][..i] == counts[..i];
    AllFitNext(counts[..i + 1]);
  }

  /** Over all tables every write is inside the buffer exactly when no more entries are reported than the
      buffer has room for when the second entry's table is done. */
  lemma {:induction false} AllFitIff(counts: seq<nat>)
    ensures AfterTables(counts).slots == Room(Settled(counts)) && AfterTables(counts).count == Total(counts)
    ensures AllFit(counts) <==> Total(counts) <= Room(Settled(counts))
  {
    if counts != [] {
      var n := |counts| - 1;
      var g := Restarted(AfterTables(counts[..n]));
      AllFitIff(counts[..n]);
      AllFitNext(counts);
      if g.count >= 2 {
        IsStuck(g, counts[n]);
      } else {
        Doubles(g, counts[n]);
        var k := RoomIsLeast(Total(counts));
      }
    }
  }

  /** Two entries in one table and one in another: the third is written behind the end. */
  lemma ThirdIsOutside()
    ensures !AllFit([2, 1])
  {
    assert [2, 1][..1] == [2] && [2][..0] == [];
    assert Total([2]) == 2 && Total([2, 1]) == 3;
    AllFitIff([2, 1]);
    assert Settled([2, 1]) == Settled([2]) == 2;
    assert Room(2) == 2 * Room(1);
  }
}
