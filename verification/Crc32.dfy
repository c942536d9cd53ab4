/** The CRC-32 of section 8 of RFC 1952, bit by bit, and the table-driven form of src/lib/util.h. */
module Crc32 {
  import opened Arithmetic

  // ----- Words, least significant bit first -----

  /** A 32-bit word. */
  type Word = w: seq<bool> | |w| == 32 witness seq(32, _ => false)

  type Octet = w: seq<bool> | |w| == 8 witness seq(8, _ => false)

  function Digits(n: nat, length: nat): (w: seq<bool>)
    ensures |w| == length
  {
    if length == 0 then [] else [n % 2 == 1] + Digits(n / 2, length - 1)
  }

  function Number(w: seq<bool>): nat {
    if w == [] then 0 else (if w[0] then 1 else 0) + 2 * Number(w[1..])
  }

  lemma {:induction false} NumberFits(w: seq<bool>)
    ensures Number(w) < Power(|w|)
  {
    if w != [] {
      NumberFits(w[1..]);
    }
  }

  lemma Halves(bit: bool, m: nat)
    ensures var n := (if bit then 1 else 0) + 2 * m; n / 2 == m && (n % 2 == 1 <==> bit)
  {
  }

  function Zeros(n: nat): (w: seq<bool>)
    ensures |w| == n
  {
    seq(n, _ => false)
  }

  lemma {:induction false} DigitsOfZero(length: nat)
    ensures Digits(0, length) == Zeros(length)
  {
    if length > 0 {
      DigitsOfZero(length - 1);
    }
  }

  lemma {:induction false} DigitsOfNumber(w: seq<bool>, length: nat)
    requires |w| <= length
    ensures Digits(Number(w), length) == w + Zeros(length - |w|)
    decreases |w|
  {
    if w == [] {
      DigitsOfZero(length);
    } else {
      DigitsOfNumber(w[1..], length - 1);
      Halves(w[0], Number(w[1..]));
      assert w == [w[0]] + w[1..];
    }
  }

  function Xor(a: Word, b: Word): Word {
    seq(32, i requires 0 <= i < 32 => a[i] != b[i])
  }

  function Not(a: Word): Word {
    seq(32, i requires 0 <= i < 32 => !a[i])
  }

  /** A shift to the right. */
  function Shift(a: Word, n: nat): Word
    requires n <= 32
  {
    a[n..] + Zeros(n)
  }

  /** The word with `n` ones at the top. */
  function Top(n: nat): Word {
    seq(32, i requires 0 <= i < 32 => i >= 32 - n)
  }

  const ZERO: Word := Top(0)

  const POLYNOMIAL: Word := Digits(0xEDB88320, 32)

  // ----- The reference: one bit at a time -----

  /** Shifts out one bit of the reflected remainder. */
  function Bit(x: Word): Word {
    if x[0] then Xor(Shift(x, 1), POLYNOMIAL) else Shift(x, 1)
  }

  function Bits(x: Word, n: nat): Word {
    if n == 0 then x else Bit(Bits(x, n - 1))
  }

  /** A byte as a word. */
  function Extend(b: Octet): Word {
    b + Zeros(24)
  }

  /** The remainder after the data, from the remainder `x`. */
  function Remainder(x: Word, data: seq<Octet>): Word {
    if data == [] then x
    else
      var n := |data| - 1;
      Bits(Xor(Remainder(x, data[..n]), Extend(data[n])), 8)
  }

  /** The checksum: all ones to begin with, complemented at the end. */
  function Checksum(data: seq<Octet>): Word {
    Not(Remainder(Top(32), data))
  }

  // ----- The complemented form -----

  /** One round of the loop that computes a table entry. */
  function Round(r: Word): Word {
    Xor(if r[0] then ZERO else POLYNOMIAL, Shift(r, 1))
  }

  function Rounds(r: Word, n: nat): Word {
    if n == 0 then r else Round(Rounds(r, n - 1))
  }

  function Entry(i: Word): Word {
    Xor(Rounds(i, 8), Top(8))
  }

  lemma BitIsLinear(a: Word, b: Word)
    ensures Bit(Xor(a, b)) == Xor(Bit(a), Bit(b))
  {
  }

  lemma {:induction false} BitsAreLinear(a: Word, b: Word, n: nat)
    ensures Bits(Xor(a, b), n) == Xor(Bits(a, n), Bits(b, n))
  {
    if n > 0 {
      BitsAreLinear(a, b, n - 1);
      BitIsLinear(Bits(a, n - 1), Bits(b, n - 1));
    }
  }

  lemma RoundComplements(r: Word, n: nat)
    requires n < 31
    ensures Bit(Xor(Not(r), Top(n))) == Xor(Not(Round(r)), Top(n + 1))
  {
  }

  lemma XorNothing(x: Word)
    ensures Xor(x, Top(0)) == x
  {
  }

  /** The rounds work on the complement, up to the ones that enter at the top. */
  lemma {:induction false} RoundsComplement(r: Word, n: nat)
    requires n < 32
    ensures Bits(Not(r), n) == Xor(Not(Rounds(r, n)), Top(n))
  {
    if n == 0 {
      XorNothing(Not(r));
    } else {
      RoundsComplement(r, n - 1);
      RoundComplements(Rounds(r, n - 1), n - 1);
    }
  }

  /** A table entry is the complement of the byte step on the complemented index. */
  lemma EntryComplements(i: Word)
    ensures Entry(i) == Not(Bits(Not(i), 8))
  {
    RoundsComplement(i, 8);
  }

  /** Steps on a word with zeros at the bottom only shift. */
  lemma {:induction false} ZerosShift(x: Word, n: nat)
    requires n <= 32 && forall i :: 0 <= i < n ==> !x[i]
    ensures Bits(x, n) == Shift(x, n)
  {
    if n == 0 {
      assert Shift(x, 0) == x;
    } else {
      ZerosShift(x, n - 1);
      assert Shift(Shift(x, n - 1), 1) == Shift(x, n);
    }
  }

  // ----- The table-driven form -----

  function Low(x: Word): Octet {
    x[..8]
  }

  function XorOctets(a: Octet, b: Octet): Octet {
    seq(8, i requires 0 <= i < 8 => a[i] != b[i])
  }

  /** The word that takes the place of `x` on one byte of data, for a table entry `t`. */
  function Next(x: Word, t: Word): Word {
    Xor(t, Shift(x, 8))
  }

  /** `x` with its low byte cleared. */
  function High(x: Word): Word {
    Zeros(8) + x[8..]
  }

  lemma SplitWord(x: Word, b: Octet)
    ensures Xor(Not(x), Extend(b)) == Xor(Not(Extend(XorOctets(Low(x), b))), High(x))
  {
  }

  lemma RejoinWord(x: Word, y: Word)
    ensures Not(Xor(x, y)) == Xor(Not(x), y)
  {
  }

  /** One step by the table is one byte of the reference, on the complemented word. */
  lemma TableStep(x: Word, b: Octet)
    ensures Next(x, Entry(Extend(XorOctets(Low(x), b)))) == Not(Bits(Xor(Not(x), Extend(b)), 8))
  {
    var i := Extend(XorOctets(Low(x), b));
    SplitWord(x, b);
    BitsAreLinear(Not(i), High(x), 8);
    ZerosShift(High(x), 8);
    assert Shift(High(x), 8) == Shift(x, 8);
    EntryComplements(i);
    RejoinWord(Bits(Not(i), 8), Shift(x, 8));
  }

  /** The checksum `crc` resumed over more data. */
  function Resume(crc: Word, data: seq<Octet>): Word {
    Not(Remainder(Not(crc), data))
  }

  lemma NotNot(x: Word)
    ensures Not(Not(x)) == x
  {
  }

  lemma {:induction false} RemainderConcat(x: Word, a: seq<Octet>, b: seq<Octet>)
    ensures Remainder(x, a + b) == Remainder(Remainder(x, a), b)
    decreases |b|
  {
    if b == [] {
      assert a + b == a;
    } else {
      var n := |b| - 1;
      RemainderConcat(x, a, b[..n]);
      assert (a + b)[..|a + b| - 1] == a + b[..n];
    }
  }

  /** Started at zero the resumed form is the checksum, and it can be resumed anywhere. */
  lemma ResumeIsChecksum(a: seq<Octet>, b: seq<Octet>)
    ensures Resume(ZERO, a) == Checksum(a)
    ensures Resume(Resume(ZERO, a), b) == Checksum(a + b)
  {
    assert Not(ZERO) == Top(32);
    NotNot(Remainder(Top(32), a));
    RemainderConcat(Top(32), a, b);
  }

  /** The static table, filled at the first use. */
  class Crc {
    const table: array<Word>

    constructor ()
      ensures Valid() && fresh(table)
    {
      table := new Word[256](_ => ZERO);
    }

    ghost predicate Filled()
      reads table
    {
      table.Length == 256 && forall i :: 0 <= i < 256 ==> table[i] == Entry(Digits(i, 32))
    }

    /** A table with a first entry is complete. */
    ghost predicate Valid()
      reads table
    {
      table.Length == 256 && (table[0] != ZERO ==> Filled())
    }

    method ForByte(i: Word) returns (r: Word)
      ensures r == Entry(i)
    {
      r := i;
      var j := 0;
      while j < 8
        invariant 0 <= j <= 8 && r == Rounds(i, j)
      {
        r := Round(r);
        j := j + 1;
      }
      r := Xor(r, Top(8));
    }

    method Fill()
      requires Valid()
      modifies table
      ensures Filled()
    {
      if table[0] == ZERO {
        var i := 0;
        while i < 256
          invariant 0 <= i <= 256 && table.Length == 256
          invariant forall k :: 0 <= k < i ==> table[k] == Entry(Digits(k, 32))
        {
          table[i] := ForByte(Digits(i, 32));
          i := i + 1;
        }
      }
    }

    lemma Lookup(x: Octet)
      requires Filled()
      ensures Number(x) < 256 && table[Number(x)] == Entry(Extend(x))
    {
      NumberFits(x);
      assert Power(8) == 256;
      DigitsOfNumber(x, 32);
    }

    /** Runs the checksum over the data, from `crc`. */
    method Run(data: seq<Octet>, crc: Word) returns (r: Word)
      requires Valid()
      modifies table
      ensures Valid()
      ensures r == Resume(crc, data)
      ensures crc == ZERO ==> r == Checksum(data)
    {
      Fill();
      r := crc;
      NotNot(crc);
      var i := 0;
      while i < |data|
        invariant 0 <= i <= |data| && Filled()
        invariant r == Resume(crc, data[..i])
      {
        var index := XorOctets(Low(r), data[i]);
        Lookup(index);
        TableStep(r, data[i]);
        NotNot(Remainder(Not(crc), data[..i]));
        assert data[..i + 1][..i] == data[..i];
        r := Xor(table[Number(index)], Shift(r, 8));
        i := i + 1;
      }
      assert data[..|data|] == data;
      ResumeIsChecksum(data, []);
    }
  }
}
