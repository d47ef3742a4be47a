/** 64-bit words and their bytes. */
module Longs {
  import opened Bytes

  type Long = bv64

  /** A word of binary digits: one more, as the lowest. */
  function JoinLong(up: Long, low: bool): Long {
    (up << 1) | (if low then 1 else 0)
  }

  /** The word with the given bits, the lowest first. */
  function LongOfBits(bits: seq<bool>): Long {
    if bits == [] then 0 else JoinLong(LongOfBits(bits[1..]), bits[0])
  }

  /** Eight bytes as one word, the first byte lowest. */
  function LongOf(b: seq<Byte>): Long
    requires |b| == 8
  {
    LongOfBits(Bits(b))
  }

  /** Byte j of a word, the lowest first. */
  function LongByte(x: Long, j: nat): Byte
    requires j < 8
  {
    match j
    case 0 => (x & 0xFF) as Byte
    case 1 => ((x >> 8) & 0xFF) as Byte
    case 2 => ((x >> 16) & 0xFF) as Byte
    case 3 => ((x >> 24) & 0xFF) as Byte
    case 4 => ((x >> 32) & 0xFF) as Byte
    case 5 => ((x >> 40) & 0xFF) as Byte
    case 6 => ((x >> 48) & 0xFF) as Byte
    case _ => ((x >> 56) & 0xFF) as Byte
  }

  function Xor(a: Long, b: Long): Long {
    a ^ b
  }

  function And(a: Long, b: Long): Long {
    a & b
  }

  function Or(a: Long, b: Long): Long {
    a | b
  }

  function Not(a: Long): Long {
    !a
  }

  function OddLong(x: Long): bool {
    x & 1 == 1
  }

  function HalfLong(x: Long): Long {
    x >> 1
  }

  function TwiceLong(x: Long): Long {
    x << 1
  }

  /** The n lowest bits of a word, the lowest first. */
  function LowLongBits(n: nat, x: Long): (bits: seq<bool>)
    ensures |bits| == n
  {
    if n == 0 then [] else [OddLong(x)] + LowLongBits(n - 1, HalfLong(x))
  }

  /** x << n, place by place. */
  function Up(x: Long, n: nat): Long {
    if n == 0 then x else TwiceLong(Up(x, n - 1))
  }

  /** x >> n, place by place. */
  function Down(x: Long, n: nat): Long {
    if n == 0 then x else HalfLong(Down(x, n - 1))
  }

  function RotateLeft(x: Long, numBits: nat): Long
    requires 0 < numBits < 64
  {
    Or(Up(x, numBits), Down(x, 64 - numBits))
  }
}
