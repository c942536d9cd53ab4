/** Numbers as bytes, most significant first. */
module Bytes {
  import opened Arithmetic

  type Byte = b: int | 0 <= b < 256

  type Short = n: int | 0 <= n < 0x1_0000

  type Word = n: int | 0 <= n < 0x1_0000_0000

  function Encode(n: nat, length: nat): (b: seq<Byte>)
    ensures |b| == length
  {
    if length == 0 then [] else Encode(n / 256, length - 1) + [n % 256]
  }

  function Decode(b: seq<Byte>): nat {
    if b == [] then 0 else Decode(b[..|b| - 1]) * 256 + b[|b| - 1]
  }

  lemma PowerOfByte(length: nat)
    ensures Power(8 * length + 8) == Power(8 * length) * 256
  {
    PowerSum(8 * length, 8);
    assert Power(8) == 256;
  }

  lemma {:induction false} DecodeEncode(n: nat, length: nat)
    requires n < Power(8 * length)
    ensures Decode(Encode(n, length)) == n
  {
    if length > 0 {
      PowerOfByte(length - 1);
      DividedBelow(n, 256, Power(8 * (length - 1)));
      DecodeEncode(n / 256, length - 1);
      var b := Encode(n, length);
      assert b[..|b| - 1] == Encode(n / 256, length - 1);
    }
  }

  lemma {:induction false} EncodeDecode(b: seq<Byte>)
    ensures Decode(b) < Power(8 * |b|)
    ensures Encode(Decode(b), |b|) == b
  {
    if b != [] {
      var n := |b| - 1;
      EncodeDecode(b[..n]);
      PowerOfByte(n);
      Below(Decode(b[..n]), 256, Power(8 * n), b[n]);
      Divides(Decode(b), Decode(b[..n]), 256, b[n]);
      assert b == b[..n] + [b[n]];
    }
  }

  function Zeros(n: nat): (b: seq<Byte>)
    ensures |b| == n
  {
    seq(n, _ => 0)
  }

  lemma PowerOfShort()
    ensures Power(16) == 0x1_0000
  {
    assert Power(8) == 256;
    PowerSum(8, 8);
  }

  lemma PowerOfWord()
    ensures Power(32) == 0x1_0000_0000
  {
    PowerOfShort();
    PowerSum(16, 16);
  }

  /** The 16-bit number at `i`. */
  function Short2(b: seq<Byte>, i: nat): (n: Short)
    requires i + 2 <= |b|
  {
    EncodeDecode(b[i..i + 2]);
    PowerOfShort();
    Decode(b[i..i + 2])
  }

  /** The 32-bit number at `i`. */
  function Word4(b: seq<Byte>, i: nat): (n: Word)
    requires i + 4 <= |b|
  {
    EncodeDecode(b[i..i + 4]);
    PowerOfWord();
    Decode(b[i..i + 4])
  }

  lemma Short2Reads(b: seq<Byte>, i: nat, n: Short)
    requires i + 2 <= |b| && b[i..i + 2] == Encode(n, 2)
    ensures Short2(b, i) == n
  {
    PowerOfShort();
    DecodeEncode(n, 2);
  }

  lemma Word4Reads(b: seq<Byte>, i: nat, n: Word)
    requires i + 4 <= |b| && b[i..i + 4] == Encode(n, 4)
    ensures Word4(b, i) == n
  {
    PowerOfWord();
    DecodeEncode(n, 4);
  }
}
