/** Cutting a stream of bytes into blocks of one size. */
module Blocks {
  import opened Bytes
  import opened Modulo

  /** The data behind the last whole block. */
  function Tail(rate: nat, data: seq<Byte>): (tail: seq<Byte>)
    requires rate > 0
    ensures |tail| < rate
    decreases |data|
  {
    if |data| < rate then data else Tail(rate, data[rate..])
  }

  lemma {:induction false} TailLength(rate: nat, data: seq<Byte>)
    requires rate > 0
    ensures |Tail(rate, data)| == |data| % rate
    decreases |data|
  {
    if |data| >= rate {
      TailLength(rate, data[rate..]);
      ModuloMinus(|data|, rate);
    } else {
      ModuloSmall(|data|, rate);
    }
  }

  function Falses(n: nat): (s: seq<bool>)
    ensures |s| == n
  {
    seq(n, i => false)
  }

  lemma ZeroByte()
    ensures LowBits(8, 0) == Falses(8)
  {
  }

  /** The last set bit of a byte of padding. */
  lemma HighBit()
    ensures LowBits(5, 0x10) == Falses(4) + [true]
  {
    assert LowBits(3, 0x04) == Falses(2) + [true];
  }

  lemma EndByte()
    ensures LowBits(8, 0x80) == Falses(7) + [true]
  {
    HighBit();
    assert LowBits(6, 0x20) == [false] + LowBits(5, 0x10);
  }
}
