/** Bytes and their bits, the low bit of each byte first. */
module Bytes {
  type Byte = bv8
  type Word = bv32

  function Odd(w: Word): bool {
    w & 1 == 1
  }

  /** A word moved down by one place. */
  function Half(w: Word): Word {
    w >> 1
  }

  /** The n lowest bits of a word, the lowest first. */
  function LowBits(n: nat, w: Word): (bits: seq<bool>)
    ensures |bits| == n
  {
    if n == 0 then [] else [Odd(w)] + LowBits(n - 1, Half(w))
  }

  /** Bit i of a byte, the lowest first. */
  function ByteBit(b: Byte, i: nat): bool
    requires i < 8
  {
    LowBits(8, b as Word)[i]
  }

  /** The bits of a byte string: low bit of each byte first. */
  function Bits(data: seq<Byte>): (bits: seq<bool>)
    ensures |bits| == 8 * |data|
  {
    if data == [] then [] else LowBits(8, data[0] as Word) + Bits(data[1..])
  }

  /** The bits of a byte string lie byte by byte. */
  lemma {:induction false} BitsAt(data: seq<Byte>, z: nat)
    requires z < 8 * |data|
    ensures Bits(data)[z] == ByteBit(data[z / 8], z % 8)
  {
    hide LowBits;
    if z >= 8 {
      BitsAt(data[1..], z - 8);
    }
  }

  lemma {:induction false} BitsPlus(a: seq<Byte>, b: seq<Byte>)
    ensures Bits(a + b) == Bits(a) + Bits(b)
  {
    if a == [] {
      assert a + b == b;
    } else {
      assert (a + b)[1..] == a[1..] + b;
      BitsPlus(a[1..], b);
    }
  }

  /** The byte with the binary digits of a number. */
  function ByteOf(x: nat): Byte
    requires x < 256
  {
    if x == 0 then 0 else Digit(ByteOf(x / 2), x % 2 == 1)
  }

  /** One more binary digit, as the lowest. */
  function Digit(b: Byte, one: bool): Byte {
    (b << 1) | (if one then 1 else 0)
  }

  function NumberOf(b: Byte): nat {
    b as nat
  }

  lemma {:induction false} ByteBack(x: nat)
    requires x < 256
    ensures NumberOf(ByteOf(x)) == x
  {
    hide Digit, NumberOf;
    if x == 0 {
      Nothing();
    } else {
      ByteBack(x / 2);
      Doubled(ByteOf(x / 2), x % 2 == 1);
    }
  }

  lemma Nothing()
    ensures NumberOf(0) == 0
  {
  }

  lemma Doubled(b: Byte, one: bool)
    requires NumberOf(b) < 128
    ensures NumberOf(Digit(b, one)) == 2 * NumberOf(b) + if one then 1 else 0
  {
    TopClear(b);
    if one {
      assert Digit(b, one) == (b << 1) + 1;
    }
  }

  lemma TopClear(b: Byte)
    requires NumberOf(b) < 128
    ensures b < 128
  {
  }

  lemma {:induction false} NumberBack(b: Byte)
    ensures NumberOf(b) < 256 && ByteOf(NumberOf(b)) == b
    decreases NumberOf(b)
  {
    hide Digit, NumberOf;
    InByte(b);
    if NumberOf(b) == 0 {
      OnlyNothing(b);
    } else {
      var half, one := b >> 1, b & 1 == 1;
      Halves(b);
      TopHalf(b);
      Doubled(half, one);
      NumberBack(half);
    }
  }

  lemma InByte(b: Byte)
    ensures NumberOf(b) < 256
  {
  }

  lemma OnlyNothing(b: Byte)
    requires NumberOf(b) == 0
    ensures b == 0
  {
  }

  lemma Halves(b: Byte)
    ensures Digit(b >> 1, b & 1 == 1) == b
  {
  }

  lemma TopHalf(b: Byte)
    ensures NumberOf(b >> 1) < 128
  {
  }
}
