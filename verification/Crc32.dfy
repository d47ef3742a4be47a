/** The CRC-32 checksum: eight bytes a step through eight tables, against the bit-at-a-time register. */
module Crc32 {
  import opened Bytes
  import opened WordBits
  import opened Words

  /** The reflected generator polynomial. */
  const Polynomial: Word := 0xEDB88320

  // ------------------------------------------------------------ the standard

  /** One message bit through the feedback register. */
  function ShiftIn(register: Word, bit: bool): Word {
    if Odd(register) != bit then (register >> 1) ^ Polynomial else register >> 1
  }

  /** The register after a bit string. */
  function Register(register: Word, bits: seq<bool>): Word
    decreases |bits|
  {
    if bits == [] then register else Register(ShiftIn(register, bits[0]), bits[1..])
  }

  /** The checksum of a whole message, as the standard defines it. */
  function Checksum(message: seq<Byte>): Word {
    Not(Running(message))
  }

  /** The register after a message, which starts with all ones. */
  function Running(message: seq<Byte>): Word {
    Register(0xFFFF_FFFF, Bits(message))
  }

  // ------------------------------------------------------------ the tables

  /** One step of the table generator: a zero bit through the register. */
  function Halve(c: Word): Word {
    (c >> 1) ^ (if c & 1 == 1 then Polynomial else 0)
  }

  /** A zero byte through the register. */
  function Zero(c: Word): Word {
    Halve(Halve(Halve(Halve(Halve(Halve(Halve(Halve(c))))))))
  }

  function Zeros(n: nat, c: Word): Word {
    if n == 0 then c else Zero(Zeros(n - 1, c))
  }

  lemma HalveXor(a: Word, b: Word)
    ensures Halve(Xor(a, b)) == Xor(Halve(a), Halve(b))
  {
    hide Halve;
    HalveBits(a, b);
  }

  lemma HalveBits(a: Word, b: Word)
    ensures Halve(a ^ b) == Halve(a) ^ Halve(b)
  {
    LowBit(a, b);
    ShiftXor(a, b);
    LowBitCases(a);
    LowBitCases(b);
    XorCancels(a >> 1, b >> 1);
  }

  lemma LowBitCases(a: Word)
    ensures a & 1 == 0 || a & 1 == 1
  {
  }

  lemma LowBit(a: Word, b: Word)
    ensures (a ^ b) & 1 == (a & 1) ^ (b & 1)
  {
  }

  lemma ShiftXor(a: Word, b: Word)
    ensures (a ^ b) >> 1 == (a >> 1) ^ (b >> 1)
  {
  }

  lemma XorCancels(x: Word, y: Word)
    ensures (x ^ Polynomial) ^ y == (x ^ y) ^ Polynomial
    ensures x ^ (y ^ Polynomial) == (x ^ y) ^ Polynomial
    ensures (x ^ Polynomial) ^ (y ^ Polynomial) == x ^ y
  {
  }

  lemma ZeroXor(a: Word, b: Word)
    ensures Zero(Xor(a, b)) == Xor(Zero(a), Zero(b))
  {
    hide Halve, Xor;
    HalveXor(a, b);
    var a1, b1 := Halve(a), Halve(b);
    HalveXor(a1, b1);
    var a2, b2 := Halve(a1), Halve(b1);
    HalveXor(a2, b2);
    var a3, b3 := Halve(a2), Halve(b2);
    HalveXor(a3, b3);
    var a4, b4 := Halve(a3), Halve(b3);
    HalveXor(a4, b4);
    var a5, b5 := Halve(a4), Halve(b4);
    HalveXor(a5, b5);
    var a6, b6 := Halve(a5), Halve(b5);
    HalveXor(a6, b6);
    var a7, b7 := Halve(a6), Halve(b6);
    HalveXor(a7, b7);
  }

  lemma {:induction false} ZerosXor(n: nat, a: Word, b: Word)
    ensures Zeros(n, Xor(a, b)) == Xor(Zeros(n, a), Zeros(n, b))
  {
    hide Zero, Xor;
    if n > 0 {
      ZerosXor(n - 1, a, b);
      ZeroXor(Zeros(n - 1, a), Zeros(n - 1, b));
    }
  }

  lemma {:induction false} ZerosPlus(m: nat, n: nat, c: Word)
    ensures Zeros(m, Zeros(n, c)) == Zeros(m + n, c)
  {
    if m > 0 { ZerosPlus(m - 1, n, c); }
  }

  /** The low byte of the register. */
  function Low(c: Word): Word {
    c & 0xFF
  }

  /** The register moved down by a byte. */
  function High(c: Word): Word {
    c >> 8
  }

  /** The register without its low byte. */
  function Rest(c: Word): Word {
    c & 0xFFFF_FF00
  }

  /** The step of the byte loop: shift by a byte and correct from the table. */
  lemma ZeroByTable(c: Word)
    ensures Zero(c) == Xor(High(c), Zero(Low(c)))
  {
    hide Zero, Xor, High, Low, Rest;
    Parted(c);
    ZeroXor(Rest(c), Low(c));
    ZeroMoves(c);
  }

  /** A register whose low byte is clear only moves. */
  lemma ZeroMoves(c: Word)
    ensures Zero(Rest(c)) == High(c)
  {
  }

  lemma Parted(c: Word)
    ensures c == Xor(Rest(c), Low(c))
  {
  }

  /** Row k of the tables at i is k + 1 zero bytes through a register holding i. */
  ghost predicate IsRow(k: nat, row: seq<Word>) {
    |row| == 256 && forall i: nat :: i < 256 ==> row[i] == Zeros(k + 1, i as Word)
  }

  ghost predicate IsTables(lookup: seq<seq<Word>>) {
    |lookup| == 8 && forall k: nat :: k < 8 ==> IsRow(k, lookup[k])
  }

  /** One entry of a row, indexed by a word below 256. */
  function Entry(k: nat, row: seq<Word>, i: Word): (entry: Word)
    requires i < 256 && IsRow(k, row)
    ensures entry == Zeros(k + 1, i)
  {
    row[i as int]
  }

  // ------------------------------------------------------------ bits into bytes

  lemma {:induction false} RegisterPlus(register: Word, a: seq<bool>, b: seq<bool>)
    ensures Register(register, a + b) == Register(Register(register, a), b)
    decreases |a|
  {
    if a == [] {
      assert a + b == b;
    } else {
      assert (a + b)[1..] == a[1..] + b;
      RegisterPlus(ShiftIn(register, a[0]), a[1..], b);
    }
  }

  /** Taking a bit in equals mixing it into the register first. */
  lemma ShiftInMixed(register: Word, w: Word)
    ensures Halve(Xor(register, w)) == Xor(ShiftIn(register, Odd(w)), w >> 1)
  {
    hide Halve;
    HalveXor(register, w);
    HalveShiftIn(register, w);
  }

  lemma HalveShiftIn(register: Word, w: Word)
    ensures Halve(register) ^ Halve(w) == ShiftIn(register, Odd(w)) ^ (w >> 1)
  {
    LowBitCases(register);
    LowBitCases(w);
    XorCancels(register >> 1, w >> 1);
  }

  /** n zero bits through the register. */
  function Halvings(n: nat, c: Word): Word {
    if n == 0 then c else Halvings(n - 1, Halve(c))
  }

  function Drop(n: nat, w: Word): Word {
    if n == 0 then w else Drop(n - 1, w >> 1)
  }

  lemma {:induction false} LowBitsMixed(n: nat, register: Word, w: Word)
    ensures Halvings(n, Xor(register, w)) == Xor(Register(register, LowBits(n, w)), Drop(n, w))
  {
    hide Halve, Xor, ShiftIn, Odd;
    if n > 0 {
      ShiftInMixed(register, w);
      assert LowBits(n, w)[1..] == LowBits(n - 1, w >> 1);
      LowBitsMixed(n - 1, ShiftIn(register, Odd(w)), w >> 1);
    }
  }

  /** Eight message bits equal one byte mixed into the low end of the register and eight zero bits. */
  lemma ByteMixed(register: Word, b: Byte)
    ensures Register(register, LowBits(8, b as Word)) == Zero(Xor(register, b as Word))
  {
    var w, out := b as Word, Register(register, LowBits(8, b as Word));
    LowBitsMixed(8, register, w);
    DropByte(w);
    XorZero(out);
    ZeroIsHalvings(Xor(register, w));
  }

  lemma XorZero(c: Word)
    ensures Xor(c, 0) == c
  {
  }

  lemma ZeroIsHalvings(c: Word)
    ensures Zero(c) == Halvings(8, c)
  {
    hide Halve;
    var c2 := Halve(Halve(c));
    var c4 := Halve(Halve(c2));
    var c6 := Halve(Halve(c4));
    assert Halvings(8, c) == Halvings(6, c2) == Halvings(4, c4) == Halvings(2, c6);
    assert Halvings(1, Halve(c6)) == Halve(Halve(c6));
  }

  lemma DropByte(w: Word)
    requires w < 256
    ensures Drop(8, w) == 0
  {
    var w2, w4, w6 := w >> 1 >> 1, w >> 1 >> 1 >> 1 >> 1, w >> 1 >> 1 >> 1 >> 1 >> 1 >> 1;
    assert Drop(8, w) == Drop(6, w2) == Drop(4, w4) == Drop(2, w6);
    assert Drop(1, w6 >> 1) == w6 >> 1 >> 1;
  }

  // ------------------------------------------------------------ four bytes at once

  /** The register after whole bytes, one at a time. */
  function Feed(register: Word, data: seq<Byte>): (r: Word)
    decreases |data|
  {
    if data == [] then register else Feed(Zero(Xor(register, data[0] as Word)), data[1..])
  }

  lemma {:induction false} FeedIsRegister(register: Word, data: seq<Byte>)
    ensures Feed(register, data) == Register(register, Bits(data))
    decreases |data|
  {
    hide Zero, Xor;
    if data != [] {
      ByteMixed(register, data[0]);
      RegisterPlus(register, LowBits(8, data[0] as Word), Bits(data[1..]));
      FeedIsRegister(Zero(Xor(register, data[0] as Word)), data[1..]);
    }
  }

  lemma {:induction false} FeedPlus(register: Word, a: seq<Byte>, b: seq<Byte>)
    ensures Feed(register, a + b) == Feed(Feed(register, a), b)
    decreases |a|
  {
    hide Zero, Xor;
    if a == [] {
      assert a + b == b;
    } else {
      assert (a + b)[1..] == a[1..] + b;
      FeedPlus(Zero(Xor(register, a[0] as Word)), a[1..], b);
    }
  }

  /** A word moved up by a byte. */
  function Up(w: Word): Word {
    w << 8
  }

  lemma XorAssociates(a: Word, b: Word, c: Word)
    ensures Xor(a, Xor(b, c)) == Xor(Xor(a, b), c)
  {
  }

  /** A byte moved up falls back to its place when a zero byte is fed. */
  lemma ZeroOfUp(w: Word)
    requires w < 0x100_0000
    ensures Zero(Up(w)) == w
  {
  }

  lemma LittleUp(b0: Byte, b1: Byte, b2: Byte, b3: Byte)
    ensures var w3 := b3 as Word; var w2 := Xor(b2 as Word, Up(w3)); var w1 := Xor(b1 as Word, Up(w2));
      && w3 < 0x100_0000 && w2 < 0x100_0000 && w1 < 0x100_0000
      && Little(b0, b1, b2, b3) == Xor(b0 as Word, Up(w1))
  {
    WordsUp(b0 as Word, b1 as Word, b2 as Word, b3 as Word);
  }

  lemma WordsUp(w0: Word, w1: Word, w2: Word, w3: Word)
    requires w0 < 256 && w1 < 256 && w2 < 256 && w3 < 256
    ensures w2 ^ (w3 << 8) < 0x100_0000
    ensures w1 ^ ((w2 ^ (w3 << 8)) << 8) < 0x100_0000
    ensures w0 | (w1 << 8) | (w2 << 16) | (w3 << 24) == w0 ^ ((w1 ^ ((w2 ^ (w3 << 8)) << 8)) << 8)
  {
  }

  /** Feeding a byte and then mixing w equals mixing the byte with w moved up and feeding a zero byte. */
  lemma FeedUp(register: Word, b: Word, w: Word)
    requires w < 0x100_0000
    ensures Xor(Zero(Xor(register, b)), w) == Zero(Xor(register, Xor(b, Up(w))))
  {
    hide Zero, Xor, Up;
    ZeroOfUp(w);
    XorAssociates(register, b, Up(w));
    ZeroXor(Xor(register, b), Up(w));
  }

  lemma FeedFour(register: Word, b0: Byte, b1: Byte, b2: Byte, b3: Byte)
    ensures Feed(register, [b0, b1, b2, b3])
         == Zero(Xor(Zero(Xor(Zero(Xor(Zero(Xor(register, b0 as Word)), b1 as Word)), b2 as Word)), b3 as Word))
  {
    hide Zero, Xor, Feed;
    var data := [b0, b1, b2, b3];
    assert data == [b0] + [b1, b2, b3] && [b1, b2, b3] == [b1] + [b2, b3] && [b2, b3] == [b2] + [b3] && [b3] == [b3] + [];
    var r1 := Zero(Xor(register, b0 as Word));
    var r2 := Zero(Xor(r1, b1 as Word));
    var r3 := Zero(Xor(r2, b2 as Word));
    FeedFirst(register, b0, [b1, b2, b3]);
    FeedFirst(r1, b1, [b2, b3]);
    FeedFirst(r2, b2, [b3]);
    FeedFirst(r3, b3, []);
    FeedNothing(Zero(Xor(r3, b3 as Word)), []);
  }

  lemma FeedFirst(register: Word, b: Byte, rest: seq<Byte>)
    ensures Feed(register, [b] + rest) == Feed(Zero(Xor(register, b as Word)), rest)
  {
    hide Zero, Xor;
    assert ([b] + rest)[1..] == rest;
  }

  lemma ZerosFour(c: Word)
    ensures Zeros(4, c) == Zero(Zero(Zero(Zero(c))))
  {
    hide Zero;
    assert Zeros(1, c) == Zero(c) && Zeros(2, c) == Zero(Zero(c));
    assert Zeros(3, c) == Zero(Zero(Zero(c)));
  }

  lemma FourBytes(register: Word, b0: Byte, b1: Byte, b2: Byte, b3: Byte)
    ensures Feed(register, [b0, b1, b2, b3]) == Zeros(4, Xor(register, Little(b0, b1, b2, b3)))
  {
    hide Zero, Xor, Up, Little;
    var w3 := b3 as Word;
    var w2 := Xor(b2 as Word, Up(w3));
    var w1 := Xor(b1 as Word, Up(w2));
    LittleUp(b0, b1, b2, b3);
    var r1 := Zero(Xor(register, b0 as Word));
    var r2 := Zero(Xor(r1, b1 as Word));
    var r3 := Zero(Xor(r2, b2 as Word));
    FeedUp(register, b0 as Word, w1);
    FeedUp(r1, b1 as Word, w2);
    FeedUp(r2, b2 as Word, w3);
    FeedFour(register, b0, b1, b2, b3);
    ZerosFour(Xor(register, Little(b0, b1, b2, b3)));
  }

  // ------------------------------------------------------------ eight bytes through the tables

  lemma ZerosUp(n: nat, w: Word)
    requires n > 0 && w < 0x100_0000
    ensures Zeros(n, Up(w)) == Zeros(n - 1, w)
  {
    hide Zero, Up;
    ZeroOfUp(w);
    ZerosPlus(n - 1, 1, Up(w));
    assert Zeros(1, Up(w)) == Zero(Zeros(0, Up(w)));
  }

  /** The four bytes of a word, lowest first, as the table look-ups take them. */
  function Lane(w: Word, k: nat): (b: Word)
    requires k < 4
    ensures b < 256
  {
    if k == 0 then w & 0xFF else if k == 1 then (w >> 8) & 0xFF else if k == 2 then (w >> 16) & 0xFF else w >> 24
  }

  lemma Lanes(w: Word)
    ensures w == Lane(w, 0) | (Lane(w, 1) << 8) | (Lane(w, 2) << 16) | (Lane(w, 3) << 24)
  {
  }

  lemma LanesUp(w: Word)
    ensures var w2 := Xor(Lane(w, 2), Up(Lane(w, 3))); var w1 := Xor(Lane(w, 1), Up(w2));
      w2 < 0x100_0000 && w1 < 0x100_0000 && w == Xor(Lane(w, 0), Up(w1))
  {
    hide Lane;
    Lanes(w);
    WordsUp(Lane(w, 0), Lane(w, 1), Lane(w, 2), Lane(w, 3));
  }

  /** Zero bytes through a word, split over its four bytes. */
  function Sliced(n: nat, w: Word): Word
    requires n >= 4
  {
    Xor(Zeros(n, Lane(w, 0)), Xor(Zeros(n - 1, Lane(w, 1)), Xor(Zeros(n - 2, Lane(w, 2)), Zeros(n - 3, Lane(w, 3)))))
  }

  lemma ZerosSliced(n: nat, w: Word)
    requires n >= 4
    ensures Zeros(n, w) == Sliced(n, w)
  {
    hide Zero, Xor, Up, Lane, Zeros;
    LanesUp(w);
    var w3 := Lane(w, 3);
    var w2 := Xor(Lane(w, 2), Up(w3));
    var w1 := Xor(Lane(w, 1), Up(w2));
    ZerosXor(n, Lane(w, 0), Up(w1));
    ZerosUp(n, w1);
    ZerosXor(n - 1, Lane(w, 1), Up(w2));
    ZerosUp(n - 1, w2);
    ZerosXor(n - 2, Lane(w, 2), Up(w3));
    ZerosUp(n - 2, w3);
  }

  /** Eight bytes, the first four mixed into the register as one word. */
  lemma EightBytes(register: Word, low: seq<Byte>, high: seq<Byte>)
    requires |low| == 4 && |high| == 4
    ensures Feed(register, low + high)
         == Xor(Sliced(8, Xor(register, Little(low[0], low[1], low[2], low[3]))),
                Sliced(4, Little(high[0], high[1], high[2], high[3])))
  {
    hide Zero, Xor, Up, Lane, Zeros, Feed, Sliced, Little;
    var one := Xor(register, Little(low[0], low[1], low[2], low[3]));
    var two := Little(high[0], high[1], high[2], high[3]);
    assert low == [low[0], low[1], low[2], low[3]] && high == [high[0], high[1], high[2], high[3]];
    FeedPlus(register, low, high);
    FourBytes(register, low[0], low[1], low[2], low[3]);
    FourBytes(Zeros(4, one), high[0], high[1], high[2], high[3]);
    ZerosXor(4, Zeros(4, one), two);
    ZerosPlus(4, 4, one);
    ZerosSliced(8, one);
    ZerosSliced(4, two);
  }

  lemma XorThree(a: Word, b: Word, c: Word, d: Word)
    ensures Xor(Xor(Xor(a, b), c), d) == Xor(a, Xor(b, Xor(c, d)))
  {
    hide Xor;
    XorAssociates(Xor(a, b), c, d);
    XorAssociates(a, b, Xor(c, d));
  }

  lemma XorFour(s: Word, e: Word, f: Word, g: Word, h: Word)
    ensures Xor(Xor(Xor(Xor(s, e), f), g), h) == Xor(s, Xor(e, Xor(f, Xor(g, h))))
  {
    hide Xor;
    XorAssociates(Xor(Xor(s, e), f), g, h);
    XorAssociates(Xor(s, e), f, Xor(g, h));
    XorAssociates(s, e, Xor(f, Xor(g, h)));
  }

  // ------------------------------------------------------------ the polynomial, and a message

  /** The exponents of the generator: x^32 goes without saying, and the others are x^k for these k. */
  predicate Exponent(k: nat) {
    k in {26, 23, 22, 16, 12, 11, 10, 8, 7, 5, 4, 2, 1, 0}
  }

  /** The constant holds the generator with its highest power lowest. */
  lemma PolynomialBits(k: nat)
    requires k < 32
    ensures BitsOf(Polynomial)[31 - k] <==> Exponent(k)
  {
    hide LowBits;
    PolynomialDigits();
  }

  /** Four bits at a time. */
  lemma Nibble(n: nat, w: Word)
    ensures LowBits(n + 4, w) == [Odd(w), Odd(Half(w)), Odd(Half(Half(w))), Odd(Half(Half(Half(w))))] + LowBits(n, Half(Half(Half(Half(w)))))
  {
    hide Odd, Half;
    assert LowBits(n + 4, w) == [Odd(w)] + LowBits(n + 3, Half(w));
    assert LowBits(n + 3, Half(w)) == [Odd(Half(w))] + LowBits(n + 2, Half(Half(w)));
    assert LowBits(n + 2, Half(Half(w))) == [Odd(Half(Half(w)))] + LowBits(n + 1, Half(Half(Half(w))));
  }

  lemma PolynomialDigits()
    ensures BitsOf(Polynomial) ==
      [false, false, false, false] + ([false, true, false, false] + ([true, true, false, false] + ([false, false, false, true] + ([false, false, false, true] + ([true, true, false, true] + ([true, false, true, true] + ([false, true, true, true])))))))
  {
    hide LowBits;
    NibbleOf(28, 0xedb88320, 0xedb8832);
    NibbleOf(24, 0xedb8832, 0xedb883);
    NibbleOf(20, 0xedb883, 0xedb88);
    NibbleOf(16, 0xedb88, 0xedb8);
    NibbleOf(12, 0xedb8, 0xedb);
    NibbleOf(8, 0xedb, 0xed);
    NibbleOf(4, 0xed, 0xe);
    NibbleOf(0, 0xe, 0x0);
    NoneLeft();
  }

  lemma NoneLeft()
    ensures LowBits(0, 0) == []
  {
  }

  lemma NibbleOf(n: nat, w: Word, rest: Word)
    requires w >> 4 == rest
    ensures LowBits(n + 4, w) == [w & 1 == 1, w & 2 == 2, w & 4 == 4, w & 8 == 8] + LowBits(n, rest)
  {
    hide LowBits, Odd, Half;
    Nibble(n, w);
    NibbleRaw(w);
  }

  lemma NibbleRaw(w: Word)
    ensures Half(Half(Half(Half(w)))) == w >> 4
    ensures (Odd(w) <==> w & 1 == 1) && (Odd(Half(w)) <==> w & 2 == 2)
    ensures (Odd(Half(Half(w))) <==> w & 4 == 4) && (Odd(Half(Half(Half(w)))) <==> w & 8 == 8)
  {
  }

  /** Entries of the literal table: the first row at the powers of two. By linearity they give the rest of it. */
  lemma FirstRow()
    ensures Zero(0x01) == 0x77073096 && Zero(0x02) == 0xEE0E612C
    ensures Zero(0x04) == 0x076DC419 && Zero(0x08) == 0x0EDB8832
    ensures Zero(0x10) == 0x1DB71064 && Zero(0x20) == 0x3B6E20C8
    ensures Zero(0x40) == 0x76DC4190 && Zero(0x80) == 0xEDB88320
  {
  }

  /** And the other rows at 1, each from the row before. */
  lemma FirstColumn()
    ensures Zeros(1, 1) == 0x77073096 && Zeros(2, 1) == 0x191B3141 && Zeros(3, 1) == 0x01C26A37 && Zeros(4, 1) == 0xB8BC6765
    ensures Zeros(5, 1) == 0x3D6029B0 && Zeros(6, 1) == 0xCB5CD3A5 && Zeros(7, 1) == 0xA6770BB4 && Zeros(8, 1) == 0xCCAA009E
  {
    hide Zero;
    ColumnSteps();
    assert Zeros(0, 1) == 1;
    assert Zeros(1, 1) == Zero(Zeros(0, 1)) && Zeros(2, 1) == Zero(Zeros(1, 1)) && Zeros(3, 1) == Zero(Zeros(2, 1));
    assert Zeros(4, 1) == Zero(Zeros(3, 1)) && Zeros(5, 1) == Zero(Zeros(4, 1)) && Zeros(6, 1) == Zero(Zeros(5, 1));
    assert Zeros(7, 1) == Zero(Zeros(6, 1)) && Zeros(8, 1) == Zero(Zeros(7, 1));
  }

  lemma ColumnSteps()
    ensures Zero(0x00000001) == 0x77073096
    ensures Zero(0x77073096) == 0x191B3141
    ensures Zero(0x191B3141) == 0x01C26A37
    ensures Zero(0x01C26A37) == 0xB8BC6765
    ensures Zero(0xB8BC6765) == 0x3D6029B0
    ensures Zero(0x3D6029B0) == 0xCB5CD3A5
    ensures Zero(0xCB5CD3A5) == 0xA6770BB4
    ensures Zero(0xA6770BB4) == 0xCCAA009E
  {
  }

  /** The check value: the checksum of the digits 1 to 9. */
  lemma CheckValue()
    ensures Checksum([0x31, 0x32, 0x33, 0x34, 0x35, 0x36, 0x37, 0x38, 0x39]) == 0xCBF43926
  {
    hide Feed, Register, Bits;
    var digits: seq<Byte> := [0x31, 0x32, 0x33, 0x34, 0x35, 0x36, 0x37, 0x38, 0x39];
    FeedIsRegister(0xFFFF_FFFF, digits);
    Digits(digits);
    assert Not(0x340BC6D9) == 0xCBF43926;
  }

  lemma Digits(digits: seq<Byte>)
    requires digits == [0x31, 0x32, 0x33, 0x34, 0x35, 0x36, 0x37, 0x38, 0x39]
    ensures Feed(0xFFFF_FFFF, digits) == 0x340BC6D9
  {
    hide Feed, Zero, Xor;
    assert digits[0..] == digits && digits[9..] == [];
    FedNone(0x340BC6D9);
    DigitSteps();
    OneFed(0xFFFFFFFF, digits, 0, 0x7C231048);
    OneFed(0x7C231048, digits, 1, 0xB0ACBB32);
    OneFed(0xB0ACBB32, digits, 2, 0x77B79C2D);
    OneFed(0x77B79C2D, digits, 3, 0x641C1F5C);
    OneFed(0x641C1F5C, digits, 4, 0x340AC5E3);
    OneFed(0x340AC5E3, digits, 5, 0xF68D2C9E);
    OneFed(0xF68D2C9E, digits, 6, 0xAFFC9660);
    OneFed(0xAFFC9660, digits, 7, 0x651F2550);
    OneFed(0x651F2550, digits, 8, 0x340BC6D9);
  }

  lemma FedNone(register: Word)
    ensures Feed(register, []) == register
  {
  }

  lemma DigitSteps()
    ensures Zero(Xor(0xFFFFFFFF, 0x31)) == 0x7C231048
    ensures Zero(Xor(0x7C231048, 0x32)) == 0xB0ACBB32
    ensures Zero(Xor(0xB0ACBB32, 0x33)) == 0x77B79C2D
    ensures Zero(Xor(0x77B79C2D, 0x34)) == 0x641C1F5C
    ensures Zero(Xor(0x641C1F5C, 0x35)) == 0x340AC5E3
    ensures Zero(Xor(0x340AC5E3, 0x36)) == 0xF68D2C9E
    ensures Zero(Xor(0xF68D2C9E, 0x37)) == 0xAFFC9660
    ensures Zero(Xor(0xAFFC9660, 0x38)) == 0x651F2550
    ensures Zero(Xor(0x651F2550, 0x39)) == 0x340BC6D9
  {
  }

  /** Byte k through the register, and then the rest. */
  lemma OneFed(register: Word, data: seq<Byte>, k: nat, next: Word)
    requires k < |data| && Zero(Xor(register, data[k] as Word)) == next
    ensures Feed(register, data[k..]) == Feed(next, data[k + 1..])
  {
    hide Zero, Xor;
    assert data[k..][1..] == data[k + 1..];
  }

  // ------------------------------------------------------------ the generator and the class

  lemma HalveByProduct(c: Word)
    ensures (c >> 1) ^ ((c & 1) * Polynomial) == Halve(c)
  {
    LowBitCases(c);
    TimesBit(c & 1);
  }

  lemma TimesBit(b: Word)
    requires b == 0 || b == 1
    ensures b * Polynomial == if b == 1 then Polynomial else 0
  {
  }

  lemma ZerosOne(c: Word)
    ensures Zeros(1, c) == Halvings(8, c)
  {
    hide Zero;
    assert Zeros(1, c) == Zero(Zeros(0, c));
    ZeroIsHalvings(c);
  }

  /** The first i entries of row k. */
  ghost predicate IsPart(k: nat, row: seq<Word>, i: nat) {
    i <= 256 && |row| == i && forall m: nat :: m < i ==> row[m] == Zeros(k + 1, m as Word)
  }

  /** A zero byte through an entry, with the first row for its low byte. */
  method NextEntry(first: seq<Word>, last: Word) returns (next: Word)
    requires IsRow(0, first)
    ensures next == Zero(last)
  {
    hide Zero, Zeros, IsRow, Xor, Low, High;
    LowByte(last);
    next := Xor(High(last), Entry(0, first, Low(last)));
    ZerosOnce(Low(last));
    ZeroByTable(last);
  }

  lemma LowByte(c: Word)
    ensures Low(c) < 256
  {
  }

  lemma ZerosOnce(c: Word)
    ensures Zeros(1, c) == Zero(c)
  {
    hide Zero;
    assert Zeros(1, c) == Zero(Zeros(0, c));
  }

  /** The first row of the generator: eight zero bits through each byte. */
  method GenerateFirst() returns (first: seq<Word>)
    ensures IsRow(0, first)
  {
    hide Zero, Zeros, Halve;
    first := [];
    for i := 0 to 256
      invariant IsPart(0, first, i)
    {
      var crc: Word := i as Word;
      for j := 0 to 8
        invariant Halvings(8 - j, crc) == Halvings(8, i as Word)
      {
        HalveByProduct(crc);
        crc := (crc >> 1) ^ ((crc & 1) * Polynomial);
      }
      ZerosOne(i as Word);
      first := first + [crc];
    }
  }

  /** Rows 1 to 7 up to column i, beside the whole first row. */
  ghost predicate AreParts(lookup: seq<seq<Word>>, first: seq<Word>, i: nat) {
    |lookup| == 8 && lookup[0] == first && forall k: nat :: 1 <= k < 8 ==> IsPart(k, lookup[k], i)
  }

  lemma PartExtends(k: nat, row: seq<Word>, i: nat, entry: Word)
    requires i < 256 && IsPart(k, row, i) && entry == Zeros(k + 1, i as Word)
    ensures IsPart(k, row + [entry], i + 1)
  {
    hide Zeros;
  }

  lemma FirstEntry(first: seq<Word>, i: nat)
    requires IsRow(0, first) && i < 256
    ensures first[i] == Zeros(1, i as Word)
  {
    hide Zeros;
  }

  lemma ZerosNext(k: nat, c: Word)
    ensures Zeros(k + 1, c) == Zero(Zeros(k, c))
  {
    hide Zero;
  }

  /** One column of the generator. */
  method GenerateColumn(first: seq<Word>, before: seq<seq<Word>>, i: nat) returns (lookup: seq<seq<Word>>)
    requires IsRow(0, first) && i < 256 && AreParts(before, first, i)
    ensures AreParts(lookup, first, i + 1)
  {
    hide Zero, Zeros, IsPart;
    lookup := before;
    FirstEntry(first, i);
    var last := first[i];
    for k := 1 to 8
      invariant |lookup| == 8 && lookup[0] == first
      invariant last == Zeros(k, i as Word)
      invariant forall m: nat :: 1 <= m < k ==> IsPart(m, lookup[m], i + 1)
      invariant forall m: nat :: k <= m < 8 ==> IsPart(m, lookup[m], i)
    {
      last := NextEntry(first, last);
      ZerosNext(k, i as Word);
      PartExtends(k, lookup[k], i, last);
      lookup := lookup[k := lookup[k] + [last]];
    }
  }

  /** The generator of the eight tables. */
  method GenerateTables() returns (lookup: seq<seq<Word>>)
    ensures IsTables(lookup)
  {
    hide Zero, Zeros;
    var first := GenerateFirst();
    lookup := [first, [], [], [], [], [], [], []];
    for i := 0 to 256
      invariant AreParts(lookup, first, i)
    {
      lookup := GenerateColumn(first, lookup, i);
    }
    assert forall k: nat :: 1 <= k < 8 ==> IsPart(k, lookup[k], 256);
  }

  /** The loop body for eight bytes: eight look-ups. */
  function Slice(lookup: seq<seq<Word>>, one: Word, two: Word): (crc: Word)
    requires IsTables(lookup)
    ensures crc == Xor(Sliced(8, one), Sliced(4, two))
  {
    hide IsRow, Zeros, Zero, Xor, Lane;
    var first := Xor(Xor(Xor(Entry(7, lookup[7], Lane(one, 0)), Entry(6, lookup[6], Lane(one, 1))),
                         Entry(5, lookup[5], Lane(one, 2))), Entry(4, lookup[4], Lane(one, 3)));
    XorThree(Zeros(8, Lane(one, 0)), Zeros(7, Lane(one, 1)), Zeros(6, Lane(one, 2)), Zeros(5, Lane(one, 3)));
    XorFour(first, Zeros(4, Lane(two, 0)), Zeros(3, Lane(two, 1)), Zeros(2, Lane(two, 2)), Zeros(1, Lane(two, 3)));
    Xor(Xor(Xor(Xor(first, Entry(3, lookup[3], Lane(two, 0))), Entry(2, lookup[2], Lane(two, 1))),
            Entry(1, lookup[1], Lane(two, 2))), Entry(0, lookup[0], Lane(two, 3)))
  }

  /** The loop body for one byte: one look-up. */
  function ByteStep(lookup: seq<seq<Word>>, crc: Word, b: Word): (r: Word)
    requires IsTables(lookup) && b < 256
    ensures r == Zero(Xor(crc, b))
  {
    hide IsRow, Zeros, Zero, Xor, Low, High;
    LowHighOfXor(crc, b);
    ZerosOnce(Xor(Low(crc), b));
    ZeroByTable(Xor(crc, b));
    Xor(High(crc), Entry(0, lookup[0], Xor(Low(crc), b)))
  }

  lemma LowHighOfXor(crc: Word, b: Word)
    requires b < 256
    ensures Low(Xor(crc, b)) == Xor(Low(crc), b) < 256
    ensures High(Xor(crc, b)) == High(crc)
  {
  }

  lemma FeedEight(start: Word, crc: Word, data: seq<Byte>, at: nat)
    requires at + 8 <= |data| && crc == Feed(start, data[..at])
    ensures Feed(start, data[..at + 8])
         == Xor(Sliced(8, Xor(Little(data[at], data[at + 1], data[at + 2], data[at + 3]), crc)),
                Sliced(4, Little(data[at + 4], data[at + 5], data[at + 6], data[at + 7])))
  {
    hide Zero, Zeros, Sliced, Feed, Little;
    var low, high := data[at..at + 4], data[at + 4..at + 8];
    assert data[..at + 8] == data[..at] + (low + high);
    FeedPlus(start, data[..at], low + high);
    EightBytes(crc, low, high);
    XorCommutes(crc, Little(low[0], low[1], low[2], low[3]));
  }

  lemma XorCommutes(a: Word, b: Word)
    ensures Xor(a, b) == Xor(b, a)
  {
  }

  lemma FeedNothing(start: Word, data: seq<Byte>)
    ensures Feed(start, data[..0]) == start
  {
  }

  lemma FeedOne(start: Word, crc: Word, data: seq<Byte>, at: nat)
    requires at < |data| && crc == Feed(start, data[..at])
    ensures Feed(start, data[..at + 1]) == Zero(Xor(crc, data[at] as Word))
  {
    hide Zero, Xor;
    assert data[..at + 1] == data[..at] + [data[at]];
    FeedPlus(start, data[..at], [data[at]]);
    assert Feed(crc, [data[at]]) == Feed(Zero(Xor(crc, data[at] as Word)), [data[at]][1..]);
  }

  lemma Continued(a: seq<Byte>, b: seq<Byte>)
    ensures Feed(Running(a), b) == Running(a + b)
    ensures Running([]) == 0xFFFF_FFFF
  {
    hide Register, Feed, Bits;
    BitsPlus(a, b);
    RegisterPlus(0xFFFF_FFFF, Bits(a), Bits(b));
    FeedIsRegister(Running(a), b);
    RegisterOfNothing(0xFFFF_FFFF);
  }

  lemma RegisterOfNothing(c: Word)
    ensures Register(c, Bits([])) == c
  {
  }

  /** The register is the complement of the stored checksum. */
  lemma Complement(message: seq<Byte>)
    ensures Not(Checksum(message)) == Running(message)
    ensures Checksum([]) == 0
  {
    hide Running;
    Continued([], []);
  }

  /** A checksum can be taken up again: the parts give the checksum of the whole. */
  lemma ChecksumPlus(a: seq<Byte>, b: seq<Byte>)
    ensures Checksum(a + b) == Not(Feed(Not(Checksum(a)), b))
  {
    hide Running, Feed, Not;
    Complement(a);
    Continued(a, b);
  }

  /** The two loops over the data: eight bytes a step, then the remaining bytes. */
  method Extend(lookup: seq<seq<Word>>, start: Word, data: seq<Byte>) returns (crc: Word)
    requires IsTables(lookup)
    ensures crc == Feed(start, data)
  {
    hide IsTables, Zero, Zeros, Xor, Sliced, Feed, Little;
    crc := start;
    var at, numBytes := 0, |data|;
    FeedNothing(start, data);
    while numBytes >= 8
      invariant 0 <= at <= |data| && numBytes == |data| - at
      invariant crc == Feed(start, data[..at])
    {
      ghost var before := crc;
      var one := Xor(Little(data[at], data[at + 1], data[at + 2], data[at + 3]), crc);
      var two := Little(data[at + 4], data[at + 5], data[at + 6], data[at + 7]);
      crc := Slice(lookup, one, two);
      FeedEight(start, before, data, at);
      at, numBytes := at + 8, numBytes - 8;
    }
    while numBytes > 0
      invariant 0 <= at <= |data| && numBytes == |data| - at
      invariant crc == Feed(start, data[..at])
    {
      FeedOne(start, crc, data, at);
      crc := ByteStep(lookup, crc, data[at] as Word);
      at, numBytes := at + 1, numBytes - 1;
    }
    assert data[..at] == data;
  }

  class CRC32 {
    const lookup: seq<seq<Word>>
    var hash: Word
    /** The bytes added since the last reset. */
    ghost var message: seq<Byte>

    ghost predicate Valid()
      reads this
    {
      IsTables(lookup) && hash == Checksum(message)
    }

    constructor ()
      ensures Valid() && message == []
    {
      var tables := GenerateTables();
      Complement([]);
      lookup := tables;
      hash := 0;
      message := [];
    }

    method Reset()
      requires Valid()
      modifies this
      ensures Valid() && message == []
    {
      Complement([]);
      hash := 0;
      message := [];
    }

    /** Adds any number of bytes: eight at once, then one at a time. */
    method Add(data: seq<Byte>)
      requires Valid()
      modifies this
      ensures Valid() && message == old(message) + data
    {
      hide IsTables, Feed, Checksum, Not;
      var crc := Extend(lookup, Not(hash), data);
      ChecksumPlus(message, data);
      message := message + data;
      hash := Not(crc);
    }

    /** The four bytes of the checksum, the highest first. */
    method GetHash() returns (buffer: seq<Byte>)
      requires Valid()
      ensures |buffer| == 4
      ensures Big(buffer[0], buffer[1], buffer[2], buffer[3]) == Checksum(message)
    {
      hide Checksum, Little, WordByte;
      buffer := [WordByte(hash, 3), WordByte(hash, 2), WordByte(hash, 1), WordByte(hash, 0)];
      WordOfBytes(hash);
    }

    /** The checksum of one block of memory. */
    method Compute(data: seq<Byte>) returns (buffer: seq<Byte>)
      requires Valid()
      modifies this
      ensures Valid() && |buffer| == 4
      ensures Big(buffer[0], buffer[1], buffer[2], buffer[3]) == Checksum(data)
    {
      Reset();
      Add(data);
      buffer := GetHash();
      assert [] + data == data;
    }
  }
}
