/** What the operations on 64-bit words do to their bits. */
module LongBits {
  import opened Bytes
  import opened Longs

  /** The bits of a lane, the lowest first. */
  function LaneBits(w: Long): (bits: seq<bool>)
    ensures |bits| == 64
  {
    LowLongBits(64, w)
  }

  // ------------------------------------------------------------ the lowest bit and the others

  const Top: Long := 0x8000_0000_0000_0000

  lemma XorApart(a: Long, b: Long)
    ensures HalfLong(Xor(a, b)) == Xor(HalfLong(a), HalfLong(b)) && (OddLong(Xor(a, b)) <==> OddLong(a) != OddLong(b))
  {
  }

  lemma AndApart(a: Long, b: Long)
    ensures HalfLong(And(a, b)) == And(HalfLong(a), HalfLong(b)) && (OddLong(And(a, b)) <==> OddLong(a) && OddLong(b))
  {
  }

  lemma OrApart(a: Long, b: Long)
    ensures HalfLong(Or(a, b)) == Or(HalfLong(a), HalfLong(b)) && (OddLong(Or(a, b)) <==> OddLong(a) || OddLong(b))
  {
  }

  lemma NotApart(a: Long)
    ensures HalfLong(Not(a)) == Xor(Not(HalfLong(a)), Top) && (OddLong(Not(a)) <==> !OddLong(a))
  {
  }

  lemma TwiceApart(w: Long)
    ensures !OddLong(TwiceLong(w)) && (HalfLong(TwiceLong(w)) == w || HalfLong(TwiceLong(w)) == Xor(w, Top))
  {
  }

  /** The lane in which bit z alone is set. */
  function Unit(z: nat): Long
    requires z < 64
  {
    if z == 0 then 1 else TwiceLong(Unit(z - 1))
  }

  lemma UnitTop()
    ensures Unit(63) == Top
  {
    assert Unit(8) == 0x100 && Unit(16) == 0x1_0000 && Unit(24) == 0x100_0000 && Unit(32) == 0x1_0000_0000 && Unit(40) == 0x100_0000_0000 && Unit(48) == 0x1_0000_0000_0000 && Unit(56) == 0x100_0000_0000_0000;
  }

  lemma {:induction false} Gone(z: nat, y: nat)
    requires z <= y < 64 && Unit(z) == 0
    ensures Unit(y) == 0
  {
    if z < y {
      Gone(z, y - 1);
    }
  }

  predicate Single(u: Long) {
    u & (u - 1) == 0
  }

  lemma {:induction false} UnitSingle(z: nat)
    requires z < 64
    ensures Single(Unit(z))
  {
    hide TwiceLong;
    if z > 0 {
      UnitSingle(z - 1);
      TwiceSingle(Unit(z - 1));
    } else {
      OneSingle();
    }
  }

  lemma OneSingle()
    ensures Single(1)
  {
  }

  lemma TwiceSingle(u: Long)
    requires Single(u)
    ensures Single(TwiceLong(u))
    ensures HalfLong(TwiceLong(u)) == u || TwiceLong(u) == 0
  {
  }

  /** Below the top, a unit is half of the next. */
  lemma UnitHalf(z: nat)
    requires 0 < z < 64
    ensures HalfLong(Unit(z)) == Unit(z - 1) && !OddLong(Unit(z))
  {
    hide HalfLong, OddLong, TwiceLong, Single;
    UnitSingle(z - 1);
    TwiceSingle(Unit(z - 1));
    TwiceApart(Unit(z - 1));
    if Unit(z) == 0 {
      Gone(z, 63);
      UnitTop();
    }
  }

  /** A bit is no part of those below it. */
  lemma {:induction false} AboveIgnored(n: nat, w: Long, z: nat)
    requires n <= z < 64
    ensures LowLongBits(n, Xor(w, Unit(z))) == LowLongBits(n, w)
  {
    hide OddLong, HalfLong, Xor, Unit;
    if n > 0 {
      XorApart(w, Unit(z));
      UnitHalf(z);
      AboveIgnored(n - 1, HalfLong(w), z - 1);
    }
  }

  lemma TopIgnored(n: nat, w: Long)
    requires n < 64
    ensures LowLongBits(n, Xor(w, Top)) == LowLongBits(n, w)
  {
    hide Unit;
    UnitTop();
    AboveIgnored(n, w, 63);
  }

  // ------------------------------------------------------------ bit by bit

  lemma {:induction false} XorBits(n: nat, a: Long, b: Long)
    ensures forall z :: 0 <= z < n ==> (LowLongBits(n, Xor(a, b))[z] <==> LowLongBits(n, a)[z] != LowLongBits(n, b)[z])
  {
    hide OddLong, HalfLong, Xor;
    if n > 0 {
      XorApart(a, b);
      XorBits(n - 1, HalfLong(a), HalfLong(b));
    }
  }

  lemma {:induction false} AndBits(n: nat, a: Long, b: Long)
    ensures forall z :: 0 <= z < n ==> (LowLongBits(n, And(a, b))[z] <==> LowLongBits(n, a)[z] && LowLongBits(n, b)[z])
  {
    hide OddLong, HalfLong, And;
    if n > 0 {
      AndApart(a, b);
      AndBits(n - 1, HalfLong(a), HalfLong(b));
    }
  }

  lemma {:induction false} OrBits(n: nat, a: Long, b: Long)
    ensures forall z :: 0 <= z < n ==> (LowLongBits(n, Or(a, b))[z] <==> LowLongBits(n, a)[z] || LowLongBits(n, b)[z])
  {
    hide OddLong, HalfLong, Or;
    if n > 0 {
      OrApart(a, b);
      OrBits(n - 1, HalfLong(a), HalfLong(b));
    }
  }

  lemma {:induction false} NotBits(n: nat, a: Long)
    requires n <= 64
    ensures forall z :: 0 <= z < n ==> (LowLongBits(n, Not(a))[z] <==> !LowLongBits(n, a)[z])
  {
    hide OddLong, HalfLong, Xor, Not;
    if n > 0 {
      NotApart(a);
      TopIgnored(n - 1, Not(HalfLong(a)));
      NotBits(n - 1, HalfLong(a));
    }
  }

  // ------------------------------------------------------------ moving bits

  /** By one place up. */
  lemma TwiceBits(w: Long)
    ensures LaneBits(TwiceLong(w)) == [false] + LowLongBits(63, w)
  {
    hide OddLong, HalfLong, TwiceLong, Xor;
    TwiceApart(w);
    TopIgnored(63, w);
  }

  /** The lower bits are the first of all bits. */
  lemma {:induction false} Fewer(n: nat, m: nat, w: Long)
    requires n <= m
    ensures LowLongBits(m, w)[..n] == LowLongBits(n, w)
  {
    hide OddLong, HalfLong;
    if n > 0 {
      Fewer(n - 1, m - 1, HalfLong(w));
    }
  }

  lemma {:induction false} UpBits(w: Long, n: nat, z: nat)
    requires n <= 64 && z < 64
    ensures LaneBits(Up(w, n))[z] <==> n <= z && LaneBits(w)[z - n]
  {
    hide LowLongBits, TwiceLong;
    if n > 0 {
      TwiceBits(Up(w, n - 1));
      Fewer(63, 64, Up(w, n - 1));
      if z > 0 {
        UpBits(w, n - 1, z - 1);
      }
    }
  }

  /** Nothing but zeros stands above the highest bit. */
  lemma HalfBits(w: Long)
    ensures LaneBits(HalfLong(w)) == LaneBits(w)[1..] + [false]
  {
    hide OddLong, HalfLong;
    Fewer(63, 64, HalfLong(w));
    TopBit(HalfLong(w));
    TopOfHalf(w);
    assert LaneBits(HalfLong(w))[..63] == LaneBits(w)[1..];
  }

  lemma {:induction false} BitAt(n: nat, w: Long, z: nat)
    requires z < n && z < 64
    ensures LowLongBits(n, w)[z] <==> And(w, Unit(z)) != 0
  {
    hide OddLong, HalfLong, And, Unit;
    UnitBit(w, z);
    if z > 0 {
      BitAt(n - 1, HalfLong(w), z - 1);
    }
  }

  lemma UnitBit(w: Long, z: nat)
    requires z < 64
    ensures z == 0 ==> (OddLong(w) <==> And(w, Unit(z)) != 0)
    ensures z > 0 ==> (And(HalfLong(w), Unit(z - 1)) != 0 <==> And(w, Unit(z)) != 0)
  {
    hide TwiceLong;
    if z > 0 {
      UnitHalf(z);
      HalfMeets(w, Unit(z));
    }
  }

  lemma HalfMeets(w: Long, u: Long)
    requires !OddLong(u)
    ensures And(HalfLong(w), HalfLong(u)) != 0 <==> And(w, u) != 0
  {
  }

  lemma TopBit(w: Long)
    ensures LaneBits(w)[63] <==> And(w, Top) != 0
  {
    hide LowLongBits, And, Unit;
    UnitTop();
    BitAt(64, w, 63);
  }

  lemma TopOfHalf(w: Long)
    ensures And(HalfLong(w), Top) == 0
  {
  }

  lemma {:induction false} DownBits(w: Long, n: nat, z: nat)
    requires n <= 64 && z < 64
    ensures LaneBits(Down(w, n))[z] <==> z + n < 64 && LaneBits(w)[z + n]
  {
    hide LowLongBits, HalfLong;
    if n > 0 {
      HalfBits(Down(w, n - 1));
      if z < 63 {
        DownBits(w, n - 1, z + 1);
      }
    }
  }

  /** A rotation by n places: bit z moves to place z + n, modulo 64. */
  lemma RotateLeftBits(x: Long, n: nat, z: nat)
    requires 0 < n < 64 && z < 64
    ensures LaneBits(RotateLeft(x, n))[(z + n) % 64] <==> LaneBits(x)[z]
  {
    hide LowLongBits, Up, Down, Or;
    var to := (z + n) % 64;
    OrBits(64, Up(x, n), Down(x, 64 - n));
    UpBits(x, n, to);
    DownBits(x, 64 - n, to);
  }

  // ------------------------------------------------------------ bytes

  lemma JoinApart(up: Long, low: bool)
    ensures (OddLong(JoinLong(up, low)) <==> low) && (HalfLong(JoinLong(up, low)) == up || HalfLong(JoinLong(up, low)) == Xor(up, Top))
  {
  }

  lemma {:induction false} BitsBack(bits: seq<bool>)
    requires |bits| <= 64
    ensures LowLongBits(|bits|, LongOfBits(bits)) == bits
  {
    hide OddLong, HalfLong, JoinLong, Xor;
    if bits != [] {
      var n, up := |bits| - 1, LongOfBits(bits[1..]);
      JoinApart(up, bits[0]);
      TopIgnored(n, up);
      BitsBack(bits[1..]);
    }
  }

  /** Eight bytes read as a lane: its bits are those of the bytes, in order. */
  lemma LongOfBytes(b: seq<Byte>)
    requires |b| == 8
    ensures LaneBits(LongOf(b)) == Bits(b)
  {
    hide Bits, LowLongBits;
    BitsBack(Bits(b));
  }

  /** The same number in both widths has the same bits. */
  lemma {:induction false} Widened(n: nat, w: Word)
    ensures LowLongBits(n, w as Long) == LowBits(n, w)
  {
    hide Odd, Half, OddLong, HalfLong;
    if n > 0 {
      WidenedHalf(w);
      Widened(n - 1, Half(w));
    }
  }

  lemma WidenedHalf(w: Word)
    ensures HalfLong(w as Long) == Half(w) as Long && OddLong(w as Long) == Odd(w)
  {
  }

  lemma DownEight(x: Long)
    ensures Down(x, 8) == Byte8(x)
  {
    hide HalfLong;
    HalfLongs(x);
    assert Down(x, 0) == x;
    assert Down(x, 1) == HalfLong(Down(x, 0)) && Down(x, 2) == HalfLong(Down(x, 1)) && Down(x, 3) == HalfLong(Down(x, 2)) && Down(x, 4) == HalfLong(Down(x, 3));
    assert Down(x, 5) == HalfLong(Down(x, 4)) && Down(x, 6) == HalfLong(Down(x, 5)) && Down(x, 7) == HalfLong(Down(x, 6)) && Down(x, 8) == HalfLong(Down(x, 7));
  }

  lemma HalfLongs(x: Long)
    ensures HalfLong(x) == x >> 1
    ensures HalfLong(x >> 1) == x >> 2 && HalfLong(x >> 2) == x >> 3 && HalfLong(x >> 3) == x >> 4
    ensures HalfLong(x >> 4) == x >> 5 && HalfLong(x >> 5) == x >> 6
    ensures HalfLong(x >> 6) == x >> 7 && HalfLong(x >> 7) == x >> 8
  {
  }

  lemma {:induction false} DownPlus(x: Long, m: nat, n: nat)
    ensures Down(Down(x, m), n) == Down(x, m + n)
  {
    hide HalfLong;
    if n > 0 {
      DownPlus(x, m, n - 1);
    }
  }

  function Byte8(x: Long): Long {
    x >> 8
  }

  /** x >> 8j, byte by byte. */
  function Bytes8(x: Long, j: nat): Long {
    if j == 0 then x else Byte8(Bytes8(x, j - 1))
  }

  lemma {:induction false} BytesDown(x: Long, j: nat)
    ensures Bytes8(x, j) == Down(x, 8 * j)
  {
    hide Down;
    if j == 0 {
      DownNone(x);
    } else {
      BytesDown(x, j - 1);
      DownEight(Down(x, 8 * (j - 1)));
      DownPlus(x, 8 * (j - 1), 8);
    }
  }

  lemma DownNone(x: Long)
    ensures Down(x, 0) == x
  {
  }

  function Wide(b: Byte): Long {
    (b as Word) as Long
  }

  lemma LongByteIs(x: Long, j: nat)
    requires j < 8
    ensures Wide(LongByte(x, j)) == And(Bytes8(x, j), 0xFF)
  {
    hide Bytes8, And, LongByte, Wide;
    BytesAre(x);
    LongBytes(x);
  }

  lemma BytesAre(x: Long)
    ensures Bytes8(x, 0) == x && Bytes8(x, 1) == x >> 8 && Bytes8(x, 2) == x >> 16 && Bytes8(x, 3) == x >> 24
    ensures Bytes8(x, 4) == x >> 32 && Bytes8(x, 5) == x >> 40 && Bytes8(x, 6) == x >> 48 && Bytes8(x, 7) == x >> 56
  {
    hide Byte8;
    Byte8s(x);
    assert Bytes8(x, 0) == x && Bytes8(x, 1) == Byte8(Bytes8(x, 0)) && Bytes8(x, 2) == Byte8(Bytes8(x, 1));
    assert Bytes8(x, 3) == Byte8(Bytes8(x, 2)) && Bytes8(x, 4) == Byte8(Bytes8(x, 3)) && Bytes8(x, 5) == Byte8(Bytes8(x, 4));
    assert Bytes8(x, 6) == Byte8(Bytes8(x, 5)) && Bytes8(x, 7) == Byte8(Bytes8(x, 6));
  }

  lemma Byte8s(x: Long)
    ensures Byte8(x) == x >> 8 && Byte8(x >> 8) == x >> 16 && Byte8(x >> 16) == x >> 24 && Byte8(x >> 24) == x >> 32
    ensures Byte8(x >> 32) == x >> 40 && Byte8(x >> 40) == x >> 48 && Byte8(x >> 48) == x >> 56
  {
  }

  lemma LongBytes(x: Long)
    ensures Wide(LongByte(x, 0)) == And(x, 0xFF) && Wide(LongByte(x, 1)) == And(x >> 8, 0xFF)
    ensures Wide(LongByte(x, 2)) == And(x >> 16, 0xFF) && Wide(LongByte(x, 3)) == And(x >> 24, 0xFF)
    ensures Wide(LongByte(x, 4)) == And(x >> 32, 0xFF) && Wide(LongByte(x, 5)) == And(x >> 40, 0xFF)
    ensures Wide(LongByte(x, 6)) == And(x >> 48, 0xFF) && Wide(LongByte(x, 7)) == And(x >> 56, 0xFF)
  {
  }

  /** Byte j of a lane holds its bits from place 8j on. */
  lemma LongByteBits(x: Long, j: nat, i: nat)
    requires j < 8 && i < 8
    ensures ByteBit(LongByte(x, j), i) <==> LaneBits(x)[8 * j + i]
  {
    hide LowBits, LowLongBits, And, Down, LongByte, Bytes8;
    LongByteIs(x, j);
    BytesDown(x, j);
    Widened(8, LongByte(x, j) as Word);
    AndBits(8, Down(x, 8 * j), 0xFF);
    AllOnes();
    Fewer(8, 64, Down(x, 8 * j));
    DownBits(x, 8 * j, i);
  }

  lemma AllOnes()
    ensures LowLongBits(8, 0xFF) == [true, true, true, true, true, true, true, true]
  {
    assert LowLongBits(2, 0x03) == [true, true];
    assert LowLongBits(4, 0x0F) == [true, true] + LowLongBits(2, 0x03);
    assert LowLongBits(6, 0x3F) == [true, true] + LowLongBits(4, 0x0F);
  }
}
