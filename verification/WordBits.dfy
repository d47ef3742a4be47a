/** What the operations on 32-bit words do to their bits, and to the numbers that the bits stand for. */
module WordBits {
  import opened Bytes
  import opened Modulo
  import opened Words

  /** The bits of a word, the lowest first. */
  function BitsOf(w: Word): (bits: seq<bool>)
    ensures |bits| == 32
  {
    LowBits(32, w)
  }

  // ------------------------------------------------------------ the lowest bit and the others

  const Top: Word := 0x8000_0000

  lemma XorApart(a: Word, b: Word)
    ensures Half(Xor(a, b)) == Xor(Half(a), Half(b)) && (Odd(Xor(a, b)) <==> Odd(a) != Odd(b))
  {
  }

  lemma AndApart(a: Word, b: Word)
    ensures Half(And(a, b)) == And(Half(a), Half(b)) && (Odd(And(a, b)) <==> Odd(a) && Odd(b))
  {
  }

  lemma OrApart(a: Word, b: Word)
    ensures Half(Or(a, b)) == Or(Half(a), Half(b)) && (Odd(Or(a, b)) <==> Odd(a) || Odd(b))
  {
  }

  lemma NotApart(a: Word)
    ensures Half(Not(a)) == Xor(Not(Half(a)), Top) && (Odd(Not(a)) <==> !Odd(a))
  {
  }

  lemma TwiceApart(w: Word)
    ensures !Odd(Twice(w)) && (Half(Twice(w)) == w || Half(Twice(w)) == Xor(w, Top))
  {
  }

  /** The word in which bit z alone is set. */
  function Unit(z: nat): Word
    requires z < 32
  {
    if z == 0 then 1 else Twice(Unit(z - 1))
  }

  lemma UnitTop()
    ensures Unit(31) == Top
  {
    assert Unit(8) == 0x100 && Unit(16) == 0x1_0000 && Unit(24) == 0x100_0000;
  }

  lemma {:induction false} Gone(z: nat, y: nat)
    requires z <= y < 32 && Unit(z) == 0
    ensures Unit(y) == 0
  {
    if z < y {
      Gone(z, y - 1);
    }
  }

  predicate Single(u: Word) {
    u & (u - 1) == 0
  }

  lemma {:induction false} UnitSingle(z: nat)
    requires z < 32
    ensures Single(Unit(z))
  {
    hide Twice;
    if z > 0 {
      UnitSingle(z - 1);
      TwiceSingle(Unit(z - 1));
    } else {
      OneSingle();
    }
  }

  lemma OneSingle()
    ensures Single(1)
  {
  }

  lemma TwiceSingle(u: Word)
    requires Single(u)
    ensures Single(Twice(u))
    ensures Half(Twice(u)) == u || Twice(u) == 0
  {
  }

  /** Below the top, a unit is half of the next. */
  lemma UnitHalf(z: nat)
    requires 0 < z < 32
    ensures Half(Unit(z)) == Unit(z - 1) && !Odd(Unit(z))
  {
    hide Half, Odd, Twice, Single;
    UnitSingle(z - 1);
    TwiceSingle(Unit(z - 1));
    TwiceApart(Unit(z - 1));
    if Unit(z) == 0 {
      Gone(z, 31);
      UnitTop();
    }
  }

  /** A bit is no part of those below it. */
  lemma {:induction false} AboveIgnored(n: nat, w: Word, z: nat)
    requires n <= z < 32
    ensures LowBits(n, Xor(w, Unit(z))) == LowBits(n, w)
  {
    hide Odd, Half, Xor, Unit;
    if n > 0 {
      XorApart(w, Unit(z));
      UnitHalf(z);
      AboveIgnored(n - 1, Half(w), z - 1);
    }
  }

  lemma TopIgnored(n: nat, w: Word)
    requires n < 32
    ensures LowBits(n, Xor(w, Top)) == LowBits(n, w)
  {
    hide Unit;
    UnitTop();
    AboveIgnored(n, w, 31);
  }

  // ------------------------------------------------------------ bit by bit

  lemma {:induction false} XorBits(n: nat, a: Word, b: Word)
    ensures forall z :: 0 <= z < n ==> (LowBits(n, Xor(a, b))[z] <==> LowBits(n, a)[z] != LowBits(n, b)[z])
  {
    hide Odd, Half, Xor;
    if n > 0 {
      XorApart(a, b);
      XorBits(n - 1, Half(a), Half(b));
    }
  }

  lemma {:induction false} AndBits(n: nat, a: Word, b: Word)
    ensures forall z :: 0 <= z < n ==> (LowBits(n, And(a, b))[z] <==> LowBits(n, a)[z] && LowBits(n, b)[z])
  {
    hide Odd, Half, And;
    if n > 0 {
      AndApart(a, b);
      AndBits(n - 1, Half(a), Half(b));
    }
  }

  lemma {:induction false} OrBits(n: nat, a: Word, b: Word)
    ensures forall z :: 0 <= z < n ==> (LowBits(n, Or(a, b))[z] <==> LowBits(n, a)[z] || LowBits(n, b)[z])
  {
    hide Odd, Half, Or;
    if n > 0 {
      OrApart(a, b);
      OrBits(n - 1, Half(a), Half(b));
    }
  }

  lemma {:induction false} NotBits(n: nat, a: Word)
    requires n <= 32
    ensures forall z :: 0 <= z < n ==> (LowBits(n, Not(a))[z] <==> !LowBits(n, a)[z])
  {
    hide Odd, Half, Xor, Not;
    if n > 0 {
      NotApart(a);
      TopIgnored(n - 1, Not(Half(a)));
      NotBits(n - 1, Half(a));
    }
  }

  // ------------------------------------------------------------ moving bits

  /** By one place up. */
  lemma TwiceBits(w: Word)
    ensures BitsOf(Twice(w)) == [false] + LowBits(31, w)
  {
    hide Odd, Half, Twice, Xor;
    TwiceApart(w);
    TopIgnored(31, w);
  }

  /** The lower bits are the first of all bits. */
  lemma {:induction false} Fewer(n: nat, m: nat, w: Word)
    requires n <= m
    ensures LowBits(m, w)[..n] == LowBits(n, w)
  {
    hide Odd, Half;
    if n > 0 {
      Fewer(n - 1, m - 1, Half(w));
    }
  }

  lemma {:induction false} UpBits(w: Word, n: nat, z: nat)
    requires n <= 32 && z < 32
    ensures BitsOf(Up(w, n))[z] <==> n <= z && BitsOf(w)[z - n]
  {
    hide LowBits, Twice;
    if n > 0 {
      TwiceBits(Up(w, n - 1));
      Fewer(31, 32, Up(w, n - 1));
      if z > 0 {
        UpBits(w, n - 1, z - 1);
      }
    }
  }

  /** Nothing but zeros stands above the highest bit. */
  lemma HalfBits(w: Word)
    ensures BitsOf(Half(w)) == BitsOf(w)[1..] + [false]
  {
    hide Odd, Half;
    Fewer(31, 32, Half(w));
    TopBit(Half(w));
    TopOfHalf(w);
    assert BitsOf(Half(w))[..31] == BitsOf(w)[1..];
  }

  lemma {:induction false} BitAt(n: nat, w: Word, z: nat)
    requires z < n && z < 32
    ensures LowBits(n, w)[z] <==> And(w, Unit(z)) != 0
  {
    hide Odd, Half, And, Unit;
    UnitBit(w, z);
    if z > 0 {
      BitAt(n - 1, Half(w), z - 1);
    }
  }

  lemma UnitBit(w: Word, z: nat)
    requires z < 32
    ensures z == 0 ==> (Odd(w) <==> And(w, Unit(z)) != 0)
    ensures z > 0 ==> (And(Half(w), Unit(z - 1)) != 0 <==> And(w, Unit(z)) != 0)
  {
    hide Twice;
    if z > 0 {
      UnitHalf(z);
      HalfMeets(w, Unit(z));
    }
  }

  lemma HalfMeets(w: Word, u: Word)
    requires !Odd(u)
    ensures And(Half(w), Half(u)) != 0 <==> And(w, u) != 0
  {
  }

  lemma TopBit(w: Word)
    ensures BitsOf(w)[31] <==> And(w, Top) != 0
  {
    hide LowBits, And, Unit;
    UnitTop();
    BitAt(32, w, 31);
  }

  lemma TopOfHalf(w: Word)
    ensures And(Half(w), Top) == 0
  {
  }

  lemma {:induction false} DownBits(w: Word, n: nat, z: nat)
    requires n <= 32 && z < 32
    ensures BitsOf(Down(w, n))[z] <==> z + n < 32 && BitsOf(w)[z + n]
  {
    hide LowBits, Half;
    if n > 0 {
      HalfBits(Down(w, n - 1));
      if z < 31 {
        DownBits(w, n - 1, z + 1);
      }
    }
  }

  /** ROTL of section 3.2 of FIPS 180-4: bit z moves to place z + c, modulo 32. */
  lemma RotateLeftBits(w: Word, c: nat, z: nat)
    requires 0 < c < 32 && z < 32
    ensures BitsOf(RotateLeft(w, c))[(z + c) % 32] <==> BitsOf(w)[z]
  {
    hide LowBits, Up, Down, Or;
    var to := (z + c) % 32;
    OrBits(32, Up(w, c), Down(w, 32 - c));
    UpBits(w, c, to);
    DownBits(w, 32 - c, to);
  }

  /** ROTR: bit z comes from place z + c, modulo 32. */
  lemma RotateRightBits(w: Word, c: nat, z: nat)
    requires 0 < c < 32 && z < 32
    ensures BitsOf(RotateRight(w, c))[z] <==> BitsOf(w)[(z + c) % 32]
  {
    hide LowBits, Up, Down, Or;
    OrBits(32, Down(w, c), Up(w, 32 - c));
    DownBits(w, c, z);
    UpBits(w, 32 - c, z);
  }

  /** SHR: bit z comes from place z + c, and zeros come in at the top. */
  lemma ShiftRightBits(w: Word, c: nat, z: nat)
    requires 0 < c < 32 && z < 32
    ensures BitsOf(ShiftRight(w, c))[z] <==> z + c < 32 && BitsOf(w)[z + c]
  {
    hide LowBits, Down;
    DownBits(w, c, z);
  }

  lemma ChApart(x: Word, y: Word, w: Word)
    ensures Half(Ch(x, y, w)) == Ch(Half(x), Half(y), Half(w)) && (Odd(Ch(x, y, w)) <==> Chooses(Odd(x), Odd(y), Odd(w)))
  {
  }

  /** The choice of section 4.1.1 of FIPS 180-4, bit by bit. */
  lemma {:induction false} ChBits(n: nat, x: Word, y: Word, w: Word, z: nat)
    requires z < n
    ensures LowBits(n, Ch(x, y, w))[z] <==> Chooses(LowBits(n, x)[z], LowBits(n, y)[z], LowBits(n, w)[z])
  {
    hide Odd, Half, Ch, Chooses;
    ChApart(x, y, w);
    if z > 0 {
      ChBits(n - 1, Half(x), Half(y), Half(w), z - 1);
    }
  }

  lemma ParityApart(x: Word, y: Word, w: Word)
    ensures Half(Parity(x, y, w)) == Parity(Half(x), Half(y), Half(w)) && (Odd(Parity(x, y, w)) <==> OddOf(Odd(x), Odd(y), Odd(w)))
  {
  }

  /** The parity, bit by bit. */
  lemma {:induction false} ParityBits(n: nat, x: Word, y: Word, w: Word, z: nat)
    requires z < n
    ensures LowBits(n, Parity(x, y, w))[z] <==> OddOf(LowBits(n, x)[z], LowBits(n, y)[z], LowBits(n, w)[z])
  {
    hide Odd, Half, Parity, OddOf;
    ParityApart(x, y, w);
    if z > 0 {
      ParityBits(n - 1, Half(x), Half(y), Half(w), z - 1);
    }
  }

  lemma MajApart(x: Word, y: Word, w: Word)
    ensures Half(Maj(x, y, w)) == Maj(Half(x), Half(y), Half(w)) && (Odd(Maj(x, y, w)) <==> TwoOf(Odd(x), Odd(y), Odd(w)))
  {
  }

  /** The majority, bit by bit. */
  lemma {:induction false} MajBits(n: nat, x: Word, y: Word, w: Word, z: nat)
    requires z < n
    ensures LowBits(n, Maj(x, y, w))[z] <==> TwoOf(LowBits(n, x)[z], LowBits(n, y)[z], LowBits(n, w)[z])
  {
    hide Odd, Half, Maj, TwoOf;
    MajApart(x, y, w);
    if z > 0 {
      MajBits(n - 1, Half(x), Half(y), Half(w), z - 1);
    }
  }

  /** The second where the first holds, and the third elsewhere. */
  predicate Chooses(a: bool, b: bool, c: bool) {
    if a then b else c
  }

  /** One or all of three. */
  predicate OddOf(a: bool, b: bool, c: bool) {
    (a != b) != c
  }

  /** At least two of three. */
  predicate TwoOf(a: bool, b: bool, c: bool) {
    (a && b) || (a && c) || (b && c)
  }

  // ------------------------------------------------------------ bytes

  lemma Downs(w: Word)
    ensures Down(w, 8) == w >> 8 && Down(w, 16) == w >> 16 && Down(w, 24) == w >> 24
  {
    hide Down, DownByte;
    DownBytes(w);
    DownEight(w);
    DownEight(Down(w, 8));
    DownEight(Down(w, 16));
    DownPlus(w, 8, 8);
    DownPlus(w, 16, 8);
  }

  /** By a byte. */
  function DownByte(w: Word): Word {
    w >> 8
  }

  lemma DownBytes(w: Word)
    ensures DownByte(w) == w >> 8 && DownByte(w >> 8) == w >> 16 && DownByte(w >> 16) == w >> 24
  {
  }

  lemma DownEight(w: Word)
    ensures Down(w, 8) == DownByte(w)
  {
    hide Half;
    Halfs(w);
    assert Down(w, 0) == w;
    assert Down(w, 1) == Half(Down(w, 0)) && Down(w, 2) == Half(Down(w, 1)) && Down(w, 3) == Half(Down(w, 2)) && Down(w, 4) == Half(Down(w, 3));
    assert Down(w, 5) == Half(Down(w, 4)) && Down(w, 6) == Half(Down(w, 5)) && Down(w, 7) == Half(Down(w, 6)) && Down(w, 8) == Half(Down(w, 7));
  }

  lemma Halfs(w: Word)
    ensures Half(w) == w >> 1
    ensures Half(w >> 1) == w >> 2 && Half(w >> 2) == w >> 3 && Half(w >> 3) == w >> 4
    ensures Half(w >> 4) == w >> 5 && Half(w >> 5) == w >> 6
    ensures Half(w >> 6) == w >> 7 && Half(w >> 7) == w >> 8
  {
  }

  lemma {:induction false} DownPlus(w: Word, m: nat, n: nat)
    ensures Down(Down(w, m), n) == Down(w, m + n)
  {
    hide Half;
    if n > 0 {
      DownPlus(w, m, n - 1);
    }
  }

  lemma Ups(w: Word)
    ensures Up(w, 8) == w << 8 && Up(w, 16) == w << 16 && Up(w, 24) == w << 24
  {
    hide Up, UpByte;
    UpBytes(w);
    UpEight(w);
    UpEight(Up(w, 8));
    UpEight(Up(w, 16));
    UpPlus(w, 8, 8);
    UpPlus(w, 16, 8);
  }

  /** By a byte. */
  function UpByte(w: Word): Word {
    w << 8
  }

  lemma UpBytes(w: Word)
    ensures UpByte(w) == w << 8 && UpByte(w << 8) == w << 16 && UpByte(w << 16) == w << 24
  {
  }

  lemma UpEight(w: Word)
    ensures Up(w, 8) == UpByte(w)
  {
    hide Twice;
    Twices(w);
    assert Up(w, 0) == w;
    assert Up(w, 1) == Twice(Up(w, 0)) && Up(w, 2) == Twice(Up(w, 1)) && Up(w, 3) == Twice(Up(w, 2)) && Up(w, 4) == Twice(Up(w, 3));
    assert Up(w, 5) == Twice(Up(w, 4)) && Up(w, 6) == Twice(Up(w, 5)) && Up(w, 7) == Twice(Up(w, 6)) && Up(w, 8) == Twice(Up(w, 7));
  }

  lemma Twices(w: Word)
    ensures Twice(w) == w << 1
    ensures Twice(w << 1) == w << 2 && Twice(w << 2) == w << 3 && Twice(w << 3) == w << 4
    ensures Twice(w << 4) == w << 5 && Twice(w << 5) == w << 6
    ensures Twice(w << 6) == w << 7 && Twice(w << 7) == w << 8
  {
  }

  lemma {:induction false} UpPlus(w: Word, m: nat, n: nat)
    ensures Up(Up(w, m), n) == Up(w, m + n)
  {
    hide Twice;
    if n > 0 {
      UpPlus(w, m, n - 1);
    }
  }

  lemma {:induction false} NoBits(n: nat)
    ensures forall z :: 0 <= z < n ==> !LowBits(n, 0)[z]
  {
    hide Odd, Half;
    if n > 0 {
      NoDigits();
      NoBits(n - 1);
    }
  }

  lemma NoDigits()
    ensures !Odd(0) && Half(0) == 0
  {
  }

  /** A byte as a word: its eight bits, and zeros above. */
  lemma ByteWord(b: Byte, z: nat)
    requires z < 32
    ensures BitsOf(b as Word)[z] <==> z < 8 && ByteBit(b, z)
  {
    hide LowBits, Half, Down;
    Fewer(8, 32, b as Word);
    if z >= 8 {
      DownBits(b as Word, 8, z - 8);
      Downs(b as Word);
      ByteShifted(b);
      NoBits(32);
    }
  }

  lemma ByteShifted(b: Byte)
    ensures (b as Word) >> 8 == 0
  {
  }

  lemma LittleIs(b0: Byte, b1: Byte, b2: Byte, b3: Byte)
    ensures Little(b0, b1, b2, b3) == Or(Or(Or(b0 as Word, Up(b1 as Word, 8)), Up(b2 as Word, 16)), Up(b3 as Word, 24))
  {
    hide Up;
    Ups(b1 as Word);
    Ups(b2 as Word);
    Ups(b3 as Word);
  }

  lemma LittleParts(b0: Byte, b1: Byte, b2: Byte, b3: Byte, z: nat)
    requires z < 32
    ensures BitsOf(Little(b0, b1, b2, b3))[z] <==>
      if z < 8 then ByteBit(b0, z)
      else if z < 16 then ByteBit(b1, z - 8)
      else if z < 24 then ByteBit(b2, z - 16)
      else ByteBit(b3, z - 24)
  {
    hide BitsOf, ByteBit, Or, Up, Little;
    LittleIs(b0, b1, b2, b3);
    FourParts(b0 as Word, Up(b1 as Word, 8), Up(b2 as Word, 16), Up(b3 as Word, 24), z);
    LowByte(b0, z);
    ByteUp(b1, 8, z);
    ByteUp(b2, 16, z);
    ByteUp(b3, 24, z);
  }

  /** Four bytes read with the lowest first: the bits of the word are those of the bytes, in order. */
  lemma LittleBits(b0: Byte, b1: Byte, b2: Byte, b3: Byte, z: nat)
    requires z < 32
    ensures BitsOf(Little(b0, b1, b2, b3))[z] <==> ByteBit([b0, b1, b2, b3][z / 8], z % 8)
  {
    hide BitsOf, ByteBit, Little;
    LittleParts(b0, b1, b2, b3, z);
    Eighths(z);
  }

  lemma Eighths(z: nat)
    requires z < 32
    ensures z / 8 == (if z < 8 then 0 else if z < 16 then 1 else if z < 24 then 2 else 3) && z % 8 == z - 8 * (z / 8)
  {
  }

  lemma LowByte(b: Byte, z: nat)
    requires z < 32
    ensures BitsOf(b as Word)[z] <==> z < 8 && ByteBit(b, z)
  {
    hide LowBits;
    ByteWord(b, z);
  }

  lemma FourParts(w0: Word, w1: Word, w2: Word, w3: Word, z: nat)
    requires z < 32
    ensures BitsOf(Or(Or(Or(w0, w1), w2), w3))[z] <==> BitsOf(w0)[z] || BitsOf(w1)[z] || BitsOf(w2)[z] || BitsOf(w3)[z]
  {
    hide LowBits, Or;
    OrBits(32, w0, w1);
    OrBits(32, Or(w0, w1), w2);
    OrBits(32, Or(Or(w0, w1), w2), w3);
  }

  lemma ByteUp(b: Byte, n: nat, z: nat)
    requires n <= 24 && z < 32
    ensures BitsOf(Up(b as Word, n))[z] <==> n <= z < n + 8 && ByteBit(b, z - n)
  {
    hide LowBits, ByteBit, Up;
    UpBits(b as Word, n, z);
    if n <= z {
      ByteWord(b, z - n);
    }
  }

  /** With the highest first: the same bytes from the other end. */
  lemma BigBits(b0: Byte, b1: Byte, b2: Byte, b3: Byte, z: nat)
    requires z < 32
    ensures BitsOf(Big(b0, b1, b2, b3))[z] <==> ByteBit([b0, b1, b2, b3][3 - z / 8], z % 8)
  {
    hide BitsOf, ByteBit, Little;
    LittleBits(b3, b2, b1, b0, z);
    assert [b3, b2, b1, b0][z / 8] == [b0, b1, b2, b3][3 - z / 8];
  }

  /** Byte k of a word holds its bits from place 8k on. */
  lemma WordByteBits(w: Word, k: nat, i: nat)
    requires k < 4 && i < 8
    ensures ByteBit(WordByte(w, k), i) <==> BitsOf(w)[8 * k + i]
  {
    hide LowBits, And, Down, WordByte;
    WordByteIs(w, k);
    AndBits(8, Down(w, 8 * k), 0xFF);
    AllOnes();
    Fewer(8, 32, Down(w, 8 * k));
    DownBits(w, 8 * k, i);
  }

  lemma WordByteIs(w: Word, k: nat)
    requires k < 4
    ensures WordByte(w, k) as Word == And(Down(w, 8 * k), 0xFF)
  {
    hide Down, WordByte;
    BytesOfWord(w);
    Downs(w);
    assert k == 0 ==> Down(w, 8 * k) == w by {
      DownNone(w);
    }
  }

  lemma DownNone(w: Word)
    ensures Down(w, 0) == w
  {
  }

  lemma AllOnes()
    ensures LowBits(8, 0xFF) == [true, true, true, true, true, true, true, true]
  {
    assert LowBits(2, 0x03) == [true, true];
    assert LowBits(4, 0x0F) == [true, true] + LowBits(2, 0x03);
    assert LowBits(6, 0x3F) == [true, true] + LowBits(4, 0x0F);
  }

  // ------------------------------------------------------------ numbers

  lemma ValueApart(n: nat, w: Word)
    requires n > 0
    ensures Value(LowBits(n, w)) == One(Odd(w)) + 2 * Value(LowBits(n - 1, Half(w)))
  {
    hide Odd, Half;
    assert LowBits(n, w)[1..] == LowBits(n - 1, Half(w));
  }

  lemma ModuloTwice(x: nat, p: nat, low: nat)
    requires p > 0 && low < 2
    ensures (low + 2 * x) % (2 * p) == low + 2 * (x % p)
  {
    var q, r := x / p, x % p;
    assert low + 2 * x == (2 * p) * q + (low + 2 * r) by {
      assert x == p * q + r;
      assert 2 * (p * q) == (2 * p) * q;
    }
    ModuloIs(low + 2 * x, 2 * p, q, low + 2 * r);
  }

  function TwoTo(n: nat): (p: nat)
    ensures p > 0
  {
    if n == 0 then 1 else 2 * TwoTo(n - 1)
  }

  lemma TwoTo32()
    ensures TwoTo(32) == 0x1_0000_0000
  {
    assert TwoTo(8) == 0x100;
    assert TwoTo(16) == 0x1_0000;
    assert TwoTo(24) == 0x100_0000;
  }

  lemma JoinApart(up: Word, low: bool)
    ensures (Odd(Join(up, low)) <==> low) && (Half(Join(up, low)) == up || Half(Join(up, low)) == Xor(up, Top))
  {
  }

  /** A word holds a number modulo 2^32. */
  lemma {:induction false} WordValue(n: nat, x: nat)
    requires n <= 32
    ensures Value(LowBits(n, WordOf(x))) == x % TwoTo(n)
    decreases n
  {
    hide Odd, Half, Xor, Join;
    if n > 0 {
      ValueApart(n, WordOf(x));
      TopIgnored(n - 1, WordOf(x / 2));
      WordValue(n - 1, x / 2);
      ModuloTwice(x / 2, TwoTo(n - 1), x % 2);
      if x == 0 {
        NoDigits();
      } else {
        JoinApart(WordOf(x / 2), x % 2 == 1);
      }
    }
  }

  /** Addition is modulo 2^32, as the standards mean it. */
  lemma AddValue(a: Word, b: Word)
    ensures Value(BitsOf(Add(a, b))) == (Value(BitsOf(a)) + Value(BitsOf(b))) % 0x1_0000_0000
  {
    hide LowBits, WordOf;
    WordValue(32, ValueOf(a) + ValueOf(b));
    TwoTo32();
  }
}
