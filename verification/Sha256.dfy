/** The block function of SHA-256: unrolled rounds with renamed registers against the rounds of section 6.2.2 of FIPS 180-4. */
module Sha256 {
  import opened Bytes
  import opened WordBits
  import opened Words

  datatype Registers = Registers(a: Word, b: Word, c: Word, d: Word, e: Word, f: Word, g: Word, h: Word)

  // ------------------------------------------------------------ the standard

  function BigSigma0(x: Word): Word {
    Xor(Xor(RotateRight(x, 2), RotateRight(x, 13)), RotateRight(x, 22))
  }

  function BigSigma1(x: Word): Word {
    Xor(Xor(RotateRight(x, 6), RotateRight(x, 11)), RotateRight(x, 25))
  }

  function SmallSigma0(x: Word): Word {
    Xor(Xor(RotateRight(x, 7), RotateRight(x, 18)), ShiftRight(x, 3))
  }

  function SmallSigma1(x: Word): Word {
    Xor(Xor(RotateRight(x, 17), RotateRight(x, 19)), ShiftRight(x, 10))
  }

  lemma ThreeMixed(a: Word, b: Word, c: Word, z: nat)
    requires z < 32
    ensures BitsOf(Xor(Xor(a, b), c))[z] <==> OddOf(BitsOf(a)[z], BitsOf(b)[z], BitsOf(c)[z])
  {
    hide LowBits, Xor;
    XorBits(32, a, b);
    XorBits(32, Xor(a, b), c);
  }

  /** The four functions of section 4.1.2 of FIPS 180-4, bit by bit. */
  lemma BigSigma0Bits(x: Word, z: nat)
    requires z < 32
    ensures BitsOf(BigSigma0(x))[z] <==> OddOf(BitsOf(x)[(z + 2) % 32], BitsOf(x)[(z + 13) % 32], BitsOf(x)[(z + 22) % 32])
  {
    hide BitsOf, RotateRight, ShiftRight, Xor;
    RotateRightBits(x, 2, z);
    RotateRightBits(x, 13, z);
    RotateRightBits(x, 22, z);
    ThreeMixed(RotateRight(x, 2), RotateRight(x, 13), RotateRight(x, 22), z);
  }

  lemma BigSigma1Bits(x: Word, z: nat)
    requires z < 32
    ensures BitsOf(BigSigma1(x))[z] <==> OddOf(BitsOf(x)[(z + 6) % 32], BitsOf(x)[(z + 11) % 32], BitsOf(x)[(z + 25) % 32])
  {
    hide BitsOf, RotateRight, ShiftRight, Xor;
    RotateRightBits(x, 6, z);
    RotateRightBits(x, 11, z);
    RotateRightBits(x, 25, z);
    ThreeMixed(RotateRight(x, 6), RotateRight(x, 11), RotateRight(x, 25), z);
  }

  lemma SmallSigma0Bits(x: Word, z: nat)
    requires z < 32
    ensures BitsOf(SmallSigma0(x))[z] <==> OddOf(BitsOf(x)[(z + 7) % 32], BitsOf(x)[(z + 18) % 32], (z + 3 < 32 && BitsOf(x)[z + 3]))
  {
    hide BitsOf, RotateRight, ShiftRight, Xor;
    RotateRightBits(x, 7, z);
    RotateRightBits(x, 18, z);
    ShiftRightBits(x, 3, z);
    ThreeMixed(RotateRight(x, 7), RotateRight(x, 18), ShiftRight(x, 3), z);
  }

  lemma SmallSigma1Bits(x: Word, z: nat)
    requires z < 32
    ensures BitsOf(SmallSigma1(x))[z] <==> OddOf(BitsOf(x)[(z + 17) % 32], BitsOf(x)[(z + 19) % 32], (z + 10 < 32 && BitsOf(x)[z + 10]))
  {
    hide BitsOf, RotateRight, ShiftRight, Xor;
    RotateRightBits(x, 17, z);
    RotateRightBits(x, 19, z);
    ShiftRightBits(x, 10, z);
    ThreeMixed(RotateRight(x, 17), RotateRight(x, 19), ShiftRight(x, 10), z);
  }

  /** The round constants. */
  function K(t: nat): Word
    requires t < 64
  {
    if t < 16 then KA(t) else if t < 32 then KB(t - 16) else if t < 48 then KC(t - 32) else KD(t - 48)
  }

  function KA(t: nat): Word {
    match t
    case 0 => 0x428a2f98 case 1 => 0x71374491 case 2 => 0xb5c0fbcf case 3 => 0xe9b5dba5
    case 4 => 0x3956c25b case 5 => 0x59f111f1 case 6 => 0x923f82a4 case 7 => 0xab1c5ed5
    case 8 => 0xd807aa98 case 9 => 0x12835b01 case 10 => 0x243185be case 11 => 0x550c7dc3
    case 12 => 0x72be5d74 case 13 => 0x80deb1fe case 14 => 0x9bdc06a7 case _ => 0xc19bf174
  }

  function KB(t: nat): Word {
    match t
    case 0 => 0xe49b69c1 case 1 => 0xefbe4786 case 2 => 0x0fc19dc6 case 3 => 0x240ca1cc
    case 4 => 0x2de92c6f case 5 => 0x4a7484aa case 6 => 0x5cb0a9dc case 7 => 0x76f988da
    case 8 => 0x983e5152 case 9 => 0xa831c66d case 10 => 0xb00327c8 case 11 => 0xbf597fc7
    case 12 => 0xc6e00bf3 case 13 => 0xd5a79147 case 14 => 0x06ca6351 case _ => 0x14292967
  }

  function KC(t: nat): Word {
    match t
    case 0 => 0x27b70a85 case 1 => 0x2e1b2138 case 2 => 0x4d2c6dfc case 3 => 0x53380d13
    case 4 => 0x650a7354 case 5 => 0x766a0abb case 6 => 0x81c2c92e case 7 => 0x92722c85
    case 8 => 0xa2bfe8a1 case 9 => 0xa81a664b case 10 => 0xc24b8b70 case 11 => 0xc76c51a3
    case 12 => 0xd192e819 case 13 => 0xd6990624 case 14 => 0xf40e3585 case _ => 0x106aa070
  }

  function KD(t: nat): Word {
    match t
    case 0 => 0x19a4c116 case 1 => 0x1e376c08 case 2 => 0x2748774c case 3 => 0x34b0bcb5
    case 4 => 0x391c0cb3 case 5 => 0x4ed8aa4a case 6 => 0x5b9cca4f case 7 => 0x682e6ff3
    case 8 => 0x748f82ee case 9 => 0x78a5636f case 10 => 0x84c87814 case 11 => 0x8cc70208
    case 12 => 0x90befffa case 13 => 0xa4506ceb case 14 => 0xbef9a3f7 case _ => 0xc67178f2
  }

  /** The first 64 primes, sixteen at a time. */
  function Prime(t: nat): nat
    requires t < 64
  {
    if t < 16 then PrimeA(t) else if t < 32 then PrimeB(t - 16) else if t < 48 then PrimeC(t - 32) else PrimeD(t - 48)
  }

  function PrimeA(t: nat): nat {
    match t
    case 0 => 2 case 1 => 3 case 2 => 5 case 3 => 7 case 4 => 11 case 5 => 13 case 6 => 17 case 7 => 19
    case 8 => 23 case 9 => 29 case 10 => 31 case 11 => 37 case 12 => 41 case 13 => 43 case 14 => 47 case _ => 53
  }

  function PrimeB(t: nat): nat {
    match t
    case 0 => 59 case 1 => 61 case 2 => 67 case 3 => 71 case 4 => 73 case 5 => 79 case 6 => 83 case 7 => 89
    case 8 => 97 case 9 => 101 case 10 => 103 case 11 => 107 case 12 => 109 case 13 => 113 case 14 => 127 case _ => 131
  }

  function PrimeC(t: nat): nat {
    match t
    case 0 => 137 case 1 => 139 case 2 => 149 case 3 => 151 case 4 => 157 case 5 => 163 case 6 => 167 case 7 => 173
    case 8 => 179 case 9 => 181 case 10 => 191 case 11 => 193 case 12 => 197 case 13 => 199 case 14 => 211 case _ => 223
  }

  function PrimeD(t: nat): nat {
    match t
    case 0 => 227 case 1 => 229 case 2 => 233 case 3 => 239 case 4 => 241 case 5 => 251 case 6 => 257 case 7 => 263
    case 8 => 269 case 9 => 271 case 10 => 277 case 11 => 281 case 12 => 283 case 13 => 293 case 14 => 307 case _ => 311
  }

  /** The 32 digits k behind the point are those of the cube root of p. */
  predicate CubeRootDigits(p: nat, k: nat) {
    exists whole: nat :: whole < 7 && IsCubeRoot(p, whole * 0x1_0000_0000 + k)
  }

  predicate IsCubeRoot(p: nat, r: nat) {
    r * r * r <= p * 0x1_0000_0000_0000_0000_0000_0000 < (r + 1) * (r + 1) * (r + 1)
  }

  predicate SquareRootDigits(p: nat, k: nat) {
    exists whole: nat :: whole < 5 && IsSquareRoot(p, whole * 0x1_0000_0000 + k)
  }

  predicate IsSquareRoot(p: nat, r: nat) {
    r * r <= p * 0x1_0000_0000_0000_0000 < (r + 1) * (r + 1)
  }

  lemma RootsFrom0()
    ensures CubeRootDigits(Prime(0), K(0) as nat) && CubeRootDigits(Prime(1), K(1) as nat)
    ensures CubeRootDigits(Prime(2), K(2) as nat) && CubeRootDigits(Prime(3), K(3) as nat)
    ensures CubeRootDigits(Prime(4), K(4) as nat) && CubeRootDigits(Prime(5), K(5) as nat)
    ensures CubeRootDigits(Prime(6), K(6) as nat) && CubeRootDigits(Prime(7), K(7) as nat)
  {
    assert IsCubeRoot(2, 1 * 0x1_0000_0000 + 0x428a2f98);
    assert IsCubeRoot(3, 1 * 0x1_0000_0000 + 0x71374491);
    assert IsCubeRoot(5, 1 * 0x1_0000_0000 + 0xb5c0fbcf);
    assert IsCubeRoot(7, 1 * 0x1_0000_0000 + 0xe9b5dba5);
    assert IsCubeRoot(11, 2 * 0x1_0000_0000 + 0x3956c25b);
    assert IsCubeRoot(13, 2 * 0x1_0000_0000 + 0x59f111f1);
    assert IsCubeRoot(17, 2 * 0x1_0000_0000 + 0x923f82a4);
    assert IsCubeRoot(19, 2 * 0x1_0000_0000 + 0xab1c5ed5);
  }

  lemma RootsFrom8()
    ensures CubeRootDigits(Prime(8), K(8) as nat) && CubeRootDigits(Prime(9), K(9) as nat)
    ensures CubeRootDigits(Prime(10), K(10) as nat) && CubeRootDigits(Prime(11), K(11) as nat)
    ensures CubeRootDigits(Prime(12), K(12) as nat) && CubeRootDigits(Prime(13), K(13) as nat)
    ensures CubeRootDigits(Prime(14), K(14) as nat) && CubeRootDigits(Prime(15), K(15) as nat)
  {
    assert IsCubeRoot(23, 2 * 0x1_0000_0000 + 0xd807aa98);
    assert IsCubeRoot(29, 3 * 0x1_0000_0000 + 0x12835b01);
    assert IsCubeRoot(31, 3 * 0x1_0000_0000 + 0x243185be);
    assert IsCubeRoot(37, 3 * 0x1_0000_0000 + 0x550c7dc3);
    assert IsCubeRoot(41, 3 * 0x1_0000_0000 + 0x72be5d74);
    assert IsCubeRoot(43, 3 * 0x1_0000_0000 + 0x80deb1fe);
    assert IsCubeRoot(47, 3 * 0x1_0000_0000 + 0x9bdc06a7);
    assert IsCubeRoot(53, 3 * 0x1_0000_0000 + 0xc19bf174);
  }

  lemma RootsFrom16()
    ensures CubeRootDigits(Prime(16), K(16) as nat) && CubeRootDigits(Prime(17), K(17) as nat)
    ensures CubeRootDigits(Prime(18), K(18) as nat) && CubeRootDigits(Prime(19), K(19) as nat)
    ensures CubeRootDigits(Prime(20), K(20) as nat) && CubeRootDigits(Prime(21), K(21) as nat)
    ensures CubeRootDigits(Prime(22), K(22) as nat) && CubeRootDigits(Prime(23), K(23) as nat)
  {
    assert IsCubeRoot(59, 3 * 0x1_0000_0000 + 0xe49b69c1);
    assert IsCubeRoot(61, 3 * 0x1_0000_0000 + 0xefbe4786);
    assert IsCubeRoot(67, 4 * 0x1_0000_0000 + 0x0fc19dc6);
    assert IsCubeRoot(71, 4 * 0x1_0000_0000 + 0x240ca1cc);
    assert IsCubeRoot(73, 4 * 0x1_0000_0000 + 0x2de92c6f);
    assert IsCubeRoot(79, 4 * 0x1_0000_0000 + 0x4a7484aa);
    assert IsCubeRoot(83, 4 * 0x1_0000_0000 + 0x5cb0a9dc);
    assert IsCubeRoot(89, 4 * 0x1_0000_0000 + 0x76f988da);
  }

  lemma RootsFrom24()
    ensures CubeRootDigits(Prime(24), K(24) as nat) && CubeRootDigits(Prime(25), K(25) as nat)
    ensures CubeRootDigits(Prime(26), K(26) as nat) && CubeRootDigits(Prime(27), K(27) as nat)
    ensures CubeRootDigits(Prime(28), K(28) as nat) && CubeRootDigits(Prime(29), K(29) as nat)
    ensures CubeRootDigits(Prime(30), K(30) as nat) && CubeRootDigits(Prime(31), K(31) as nat)
  {
    assert IsCubeRoot(97, 4 * 0x1_0000_0000 + 0x983e5152);
    assert IsCubeRoot(101, 4 * 0x1_0000_0000 + 0xa831c66d);
    assert IsCubeRoot(103, 4 * 0x1_0000_0000 + 0xb00327c8);
    assert IsCubeRoot(107, 4 * 0x1_0000_0000 + 0xbf597fc7);
    assert IsCubeRoot(109, 4 * 0x1_0000_0000 + 0xc6e00bf3);
    assert IsCubeRoot(113, 4 * 0x1_0000_0000 + 0xd5a79147);
    assert IsCubeRoot(127, 5 * 0x1_0000_0000 + 0x06ca6351);
    assert IsCubeRoot(131, 5 * 0x1_0000_0000 + 0x14292967);
  }

  lemma RootsFrom32()
    ensures CubeRootDigits(Prime(32), K(32) as nat) && CubeRootDigits(Prime(33), K(33) as nat)
    ensures CubeRootDigits(Prime(34), K(34) as nat) && CubeRootDigits(Prime(35), K(35) as nat)
    ensures CubeRootDigits(Prime(36), K(36) as nat) && CubeRootDigits(Prime(37), K(37) as nat)
    ensures CubeRootDigits(Prime(38), K(38) as nat) && CubeRootDigits(Prime(39), K(39) as nat)
  {
    assert IsCubeRoot(137, 5 * 0x1_0000_0000 + 0x27b70a85);
    assert IsCubeRoot(139, 5 * 0x1_0000_0000 + 0x2e1b2138);
    assert IsCubeRoot(149, 5 * 0x1_0000_0000 + 0x4d2c6dfc);
    assert IsCubeRoot(151, 5 * 0x1_0000_0000 + 0x53380d13);
    assert IsCubeRoot(157, 5 * 0x1_0000_0000 + 0x650a7354);
    assert IsCubeRoot(163, 5 * 0x1_0000_0000 + 0x766a0abb);
    assert IsCubeRoot(167, 5 * 0x1_0000_0000 + 0x81c2c92e);
    assert IsCubeRoot(173, 5 * 0x1_0000_0000 + 0x92722c85);
  }

  lemma RootsFrom40()
    ensures CubeRootDigits(Prime(40), K(40) as nat) && CubeRootDigits(Prime(41), K(41) as nat)
    ensures CubeRootDigits(Prime(42), K(42) as nat) && CubeRootDigits(Prime(43), K(43) as nat)
    ensures CubeRootDigits(Prime(44), K(44) as nat) && CubeRootDigits(Prime(45), K(45) as nat)
    ensures CubeRootDigits(Prime(46), K(46) as nat) && CubeRootDigits(Prime(47), K(47) as nat)
  {
    assert IsCubeRoot(179, 5 * 0x1_0000_0000 + 0xa2bfe8a1);
    assert IsCubeRoot(181, 5 * 0x1_0000_0000 + 0xa81a664b);
    assert IsCubeRoot(191, 5 * 0x1_0000_0000 + 0xc24b8b70);
    assert IsCubeRoot(193, 5 * 0x1_0000_0000 + 0xc76c51a3);
    assert IsCubeRoot(197, 5 * 0x1_0000_0000 + 0xd192e819);
    assert IsCubeRoot(199, 5 * 0x1_0000_0000 + 0xd6990624);
    assert IsCubeRoot(211, 5 * 0x1_0000_0000 + 0xf40e3585);
    assert IsCubeRoot(223, 6 * 0x1_0000_0000 + 0x106aa070);
  }

  lemma RootsFrom48()
    ensures CubeRootDigits(Prime(48), K(48) as nat) && CubeRootDigits(Prime(49), K(49) as nat)
    ensures CubeRootDigits(Prime(50), K(50) as nat) && CubeRootDigits(Prime(51), K(51) as nat)
    ensures CubeRootDigits(Prime(52), K(52) as nat) && CubeRootDigits(Prime(53), K(53) as nat)
    ensures CubeRootDigits(Prime(54), K(54) as nat) && CubeRootDigits(Prime(55), K(55) as nat)
  {
    assert IsCubeRoot(227, 6 * 0x1_0000_0000 + 0x19a4c116);
    assert IsCubeRoot(229, 6 * 0x1_0000_0000 + 0x1e376c08);
    assert IsCubeRoot(233, 6 * 0x1_0000_0000 + 0x2748774c);
    assert IsCubeRoot(239, 6 * 0x1_0000_0000 + 0x34b0bcb5);
    assert IsCubeRoot(241, 6 * 0x1_0000_0000 + 0x391c0cb3);
    assert IsCubeRoot(251, 6 * 0x1_0000_0000 + 0x4ed8aa4a);
    assert IsCubeRoot(257, 6 * 0x1_0000_0000 + 0x5b9cca4f);
    assert IsCubeRoot(263, 6 * 0x1_0000_0000 + 0x682e6ff3);
  }

  lemma RootsFrom56()
    ensures CubeRootDigits(Prime(56), K(56) as nat) && CubeRootDigits(Prime(57), K(57) as nat)
    ensures CubeRootDigits(Prime(58), K(58) as nat) && CubeRootDigits(Prime(59), K(59) as nat)
    ensures CubeRootDigits(Prime(60), K(60) as nat) && CubeRootDigits(Prime(61), K(61) as nat)
    ensures CubeRootDigits(Prime(62), K(62) as nat) && CubeRootDigits(Prime(63), K(63) as nat)
  {
    assert IsCubeRoot(269, 6 * 0x1_0000_0000 + 0x748f82ee);
    assert IsCubeRoot(271, 6 * 0x1_0000_0000 + 0x78a5636f);
    assert IsCubeRoot(277, 6 * 0x1_0000_0000 + 0x84c87814);
    assert IsCubeRoot(281, 6 * 0x1_0000_0000 + 0x8cc70208);
    assert IsCubeRoot(283, 6 * 0x1_0000_0000 + 0x90befffa);
    assert IsCubeRoot(293, 6 * 0x1_0000_0000 + 0xa4506ceb);
    assert IsCubeRoot(307, 6 * 0x1_0000_0000 + 0xbef9a3f7);
    assert IsCubeRoot(311, 6 * 0x1_0000_0000 + 0xc67178f2);
  }

  /** The constants of section 4.2.2 of FIPS 180-4: the cube roots of the first 64 primes. */
  lemma ConstantIsRoot(t: nat)
    requires t < 64
    ensures CubeRootDigits(Prime(t), K(t) as nat)
  {
    hide Prime, K, CubeRootDigits;
    if t < 32 {
      LowConstantIsRoot(t);
    } else {
      HighConstantIsRoot(t);
    }
  }

  lemma LowConstantIsRoot(t: nat)
    requires t < 32
    ensures CubeRootDigits(Prime(t), K(t) as nat)
  {
    hide Prime, K, CubeRootDigits;
    if t < 8 {
      RootsFrom0();
    } else if t < 16 {
      RootsFrom8();
    } else if t < 24 {
      RootsFrom16();
    } else {
      RootsFrom24();
    }
  }

  lemma HighConstantIsRoot(t: nat)
    requires 32 <= t < 64
    ensures CubeRootDigits(Prime(t), K(t) as nat)
  {
    hide Prime, K, CubeRootDigits;
    if t < 40 {
      RootsFrom32();
    } else if t < 48 {
      RootsFrom40();
    } else if t < 56 {
      RootsFrom48();
    } else {
      RootsFrom56();
    }
  }

  /** The message schedule. */
  function W(block: seq<Word>, t: nat): Word
    requires |block| == 16
  {
    if t < 16 then block[t]
    else Add(Add(Add(W(block, t - 16), SmallSigma0(W(block, t - 15))), W(block, t - 7)), SmallSigma1(W(block, t - 2)))
  }

  /** One round: every register moves on by one place. */
  function Round(v: Registers, k: Word, w: Word): Registers {
    var t1 := Add(Add(Add(v.h, Add(BigSigma1(v.e), Ch(v.e, v.f, v.g))), k), w);
    var t2 := Add(BigSigma0(v.a), Maj(v.a, v.b, v.c));
    Registers(Add(t1, t2), v.a, v.b, v.c, Add(v.d, t1), v.e, v.f, v.g)
  }

  /** The registers after the first t rounds. */
  function Rounds(v: Registers, block: seq<Word>, t: nat): Registers
    requires |block| == 16 && t <= 64
  {
    if t == 0 then v else Round(Rounds(v, block, t - 1), K(t - 1), W(block, t - 1))
  }

  function OfHash(hash: seq<Word>): Registers
    requires |hash| == 8
  {
    Registers(hash[0], hash[1], hash[2], hash[3], hash[4], hash[5], hash[6], hash[7])
  }

  /** The next hash value: the old one plus the registers after all rounds. */
  function Compress(hash: seq<Word>, block: seq<Byte>): (next: seq<Word>)
    requires |hash| == 8 && |block| == 64
    ensures |next| == 8
  {
    Summed(hash, Rounds(OfHash(hash), BigWords(block), 64))
  }

  /** The registers added to the hash, word by word. */
  function Summed(hash: seq<Word>, v: Registers): (next: seq<Word>)
    requires |hash| == 8
    ensures |next| == 8
  {
    [Add(hash[0], v.a), Add(hash[1], v.b), Add(hash[2], v.c), Add(hash[3], v.d),
     Add(hash[4], v.e), Add(hash[5], v.f), Add(hash[6], v.g), Add(hash[7], v.h)]
  }

  const InitialHash: seq<Word> :=
    [0x6a09e667, 0xbb67ae85, 0x3c6ef372, 0xa54ff53a, 0x510e527f, 0x9b05688c, 0x1f83d9ab, 0x5be0cd19]

  /** The initial hash of section 5.3.3 of FIPS 180-4: the square roots of the first eight primes. */
  lemma InitialIsRoot(i: nat)
    requires i < 8
    ensures SquareRootDigits(Prime(i), InitialHash[i] as nat)
  {
    assert IsSquareRoot(2, 1 * 0x1_0000_0000 + 0x6a09e667);
    assert IsSquareRoot(3, 1 * 0x1_0000_0000 + 0xbb67ae85);
    assert IsSquareRoot(5, 2 * 0x1_0000_0000 + 0x3c6ef372);
    assert IsSquareRoot(7, 2 * 0x1_0000_0000 + 0xa54ff53a);
    assert IsSquareRoot(11, 3 * 0x1_0000_0000 + 0x510e527f);
    assert IsSquareRoot(13, 3 * 0x1_0000_0000 + 0x9b05688c);
    assert IsSquareRoot(17, 4 * 0x1_0000_0000 + 0x1f83d9ab);
    assert IsSquareRoot(19, 4 * 0x1_0000_0000 + 0x5be0cd19);
  }

  // ------------------------------------------------------------ the code's mix functions

  function F1(e: Word, f: Word, g: Word): (r: Word)
    ensures r == Add(BigSigma1(e), Ch(e, f, g))
  {
    var term1 := Xor(Xor(RotateRight(e, 6), RotateRight(e, 11)), RotateRight(e, 25));
    var term2 := Xor(And(e, f), And(Not(e), g));
    Add(term1, term2)
  }

  function F2(a: Word, b: Word, c: Word): (r: Word)
    ensures r == Add(BigSigma0(a), Maj(a, b, c))
  {
    hide Add, Xor, RotateRight;
    MajRewritten(a, b, c);
    var term1 := Xor(Xor(RotateRight(a, 2), RotateRight(a, 13)), RotateRight(a, 22));
    var term2 := Or(And(Or(a, b), c), And(a, b));
    Add(term1, term2)
  }

  /** One line of the unrolled loop: only two registers change, the others change their names. */
  method Step(a: Word, b: Word, c: Word, d: Word, e: Word, f: Word, g: Word, h: Word, k: Word, w: Word)
    returns (newD: Word, newH: Word)
    ensures Registers(newH, a, b, c, newD, e, f, g) == Round(Registers(a, b, c, d, e, f, g, h), k, w)
  {
    hide Maj, Ch, Add, BigSigma0, BigSigma1;
    var x := Add(Add(Add(h, F1(e, f, g)), k), w);
    var y := F2(a, b, c);
    newD := Add(d, x);
    newH := Add(x, y);
  }

  // ------------------------------------------------------------ the unrolled rounds

  /** The first n words of the schedule stand in the array. */
  ghost predicate Scheduled(words: array<Word>, block: seq<Word>, n: nat)
    reads words
  {
    words.Length == 64 && n <= 64 && |block| == 16 && forall i :: 0 <= i < n ==> words[i] == W(block, i)
  }

  lemma Unrolled(start: Registers, block: seq<Word>, t: nat)
    requires |block| == 16 && t + 8 <= 64
    ensures forall i {:trigger Rounds(start, block, i)} :: t <= i < t + 8 ==>
      Rounds(start, block, i + 1) == Round(Rounds(start, block, i), K(i), W(block, i))
  {
    hide Round, K, W;
  }

  lemma Constants0()
    ensures K(0) == 0x428a2f98 && K(1) == 0x71374491 && K(2) == 0xb5c0fbcf && K(3) == 0xe9b5dba5
    ensures K(4) == 0x3956c25b && K(5) == 0x59f111f1 && K(6) == 0x923f82a4 && K(7) == 0xab1c5ed5
  {
  }

  lemma Constants8()
    ensures K(8) == 0xd807aa98 && K(9) == 0x12835b01 && K(10) == 0x243185be && K(11) == 0x550c7dc3
    ensures K(12) == 0x72be5d74 && K(13) == 0x80deb1fe && K(14) == 0x9bdc06a7 && K(15) == 0xc19bf174
  {
  }

  lemma Constants16()
    ensures K(16) == 0xe49b69c1 && K(17) == 0xefbe4786 && K(18) == 0x0fc19dc6 && K(19) == 0x240ca1cc
    ensures K(20) == 0x2de92c6f && K(21) == 0x4a7484aa && K(22) == 0x5cb0a9dc && K(23) == 0x76f988da
  {
  }

  lemma Constants24()
    ensures K(24) == 0x983e5152 && K(25) == 0xa831c66d && K(26) == 0xb00327c8 && K(27) == 0xbf597fc7
    ensures K(28) == 0xc6e00bf3 && K(29) == 0xd5a79147 && K(30) == 0x06ca6351 && K(31) == 0x14292967
  {
  }

  lemma Constants32()
    ensures K(32) == 0x27b70a85 && K(33) == 0x2e1b2138 && K(34) == 0x4d2c6dfc && K(35) == 0x53380d13
    ensures K(36) == 0x650a7354 && K(37) == 0x766a0abb && K(38) == 0x81c2c92e && K(39) == 0x92722c85
  {
  }

  lemma Constants40()
    ensures K(40) == 0xa2bfe8a1 && K(41) == 0xa81a664b && K(42) == 0xc24b8b70 && K(43) == 0xc76c51a3
    ensures K(44) == 0xd192e819 && K(45) == 0xd6990624 && K(46) == 0xf40e3585 && K(47) == 0x106aa070
  {
  }

  lemma Constants48()
    ensures K(48) == 0x19a4c116 && K(49) == 0x1e376c08 && K(50) == 0x2748774c && K(51) == 0x34b0bcb5
    ensures K(52) == 0x391c0cb3 && K(53) == 0x4ed8aa4a && K(54) == 0x5b9cca4f && K(55) == 0x682e6ff3
  {
  }

  lemma Constants56()
    ensures K(56) == 0x748f82ee && K(57) == 0x78a5636f && K(58) == 0x84c87814 && K(59) == 0x8cc70208
    ensures K(60) == 0x90befffa && K(61) == 0xa4506ceb && K(62) == 0xbef9a3f7 && K(63) == 0xc67178f2
  {
  }

  method FirstEight(v: Registers, words: array<Word>, ghost start: Registers, ghost block: seq<Word>) returns (r: Registers)
    requires words.Length == 64 && |block| == 16 && Scheduled(words, block, 16) && v == Rounds(start, block, 0)
    ensures r == Rounds(start, block, 8)
  {
    hide Round, K, W, Rounds;
    Constants0();
    Unrolled(start, block, 0);
    var Registers(a, b, c, d, e, f, g, h) := v;
    d, h := Step(a, b, c, d, e, f, g, h, 0x428a2f98, words[0]);
    c, g := Step(h, a, b, c, d, e, f, g, 0x71374491, words[1]);
    b, f := Step(g, h, a, b, c, d, e, f, 0xb5c0fbcf, words[2]);
    a, e := Step(f, g, h, a, b, c, d, e, 0xe9b5dba5, words[3]);
    h, d := Step(e, f, g, h, a, b, c, d, 0x3956c25b, words[4]);
    g, c := Step(d, e, f, g, h, a, b, c, 0x59f111f1, words[5]);
    f, b := Step(c, d, e, f, g, h, a, b, 0x923f82a4, words[6]);
    e, a := Step(b, c, d, e, f, g, h, a, 0xab1c5ed5, words[7]);
    r := Registers(a, b, c, d, e, f, g, h);
  }

  method SecondEight(v: Registers, words: array<Word>, ghost start: Registers, ghost block: seq<Word>) returns (r: Registers)
    requires words.Length == 64 && |block| == 16 && Scheduled(words, block, 16) && v == Rounds(start, block, 8)
    ensures r == Rounds(start, block, 16)
  {
    hide Round, K, W, Rounds;
    Constants8();
    Unrolled(start, block, 8);
    var Registers(a, b, c, d, e, f, g, h) := v;
    d, h := Step(a, b, c, d, e, f, g, h, 0xd807aa98, words[8]);
    c, g := Step(h, a, b, c, d, e, f, g, 0x12835b01, words[9]);
    b, f := Step(g, h, a, b, c, d, e, f, 0x243185be, words[10]);
    a, e := Step(f, g, h, a, b, c, d, e, 0x550c7dc3, words[11]);
    h, d := Step(e, f, g, h, a, b, c, d, 0x72be5d74, words[12]);
    g, c := Step(d, e, f, g, h, a, b, c, 0x80deb1fe, words[13]);
    f, b := Step(c, d, e, f, g, h, a, b, 0x9bdc06a7, words[14]);
    e, a := Step(b, c, d, e, f, g, h, a, 0xc19bf174, words[15]);
    r := Registers(a, b, c, d, e, f, g, h);
  }

  method ThirdEight(v: Registers, words: array<Word>, ghost start: Registers, ghost block: seq<Word>) returns (r: Registers)
    requires words.Length == 64 && |block| == 16 && Scheduled(words, block, 24) && v == Rounds(start, block, 16)
    ensures r == Rounds(start, block, 24)
  {
    hide Round, K, W, Rounds;
    Constants16();
    Unrolled(start, block, 16);
    var Registers(a, b, c, d, e, f, g, h) := v;
    d, h := Step(a, b, c, d, e, f, g, h, 0xe49b69c1, words[16]);
    c, g := Step(h, a, b, c, d, e, f, g, 0xefbe4786, words[17]);
    b, f := Step(g, h, a, b, c, d, e, f, 0x0fc19dc6, words[18]);
    a, e := Step(f, g, h, a, b, c, d, e, 0x240ca1cc, words[19]);
    h, d := Step(e, f, g, h, a, b, c, d, 0x2de92c6f, words[20]);
    g, c := Step(d, e, f, g, h, a, b, c, 0x4a7484aa, words[21]);
    f, b := Step(c, d, e, f, g, h, a, b, 0x5cb0a9dc, words[22]);
    e, a := Step(b, c, d, e, f, g, h, a, 0x76f988da, words[23]);
    r := Registers(a, b, c, d, e, f, g, h);
  }

  method FourthEight(v: Registers, words: array<Word>, ghost start: Registers, ghost block: seq<Word>) returns (r: Registers)
    requires words.Length == 64 && |block| == 16 && Scheduled(words, block, 32) && v == Rounds(start, block, 24)
    ensures r == Rounds(start, block, 32)
  {
    hide Round, K, W, Rounds;
    Constants24();
    Unrolled(start, block, 24);
    var Registers(a, b, c, d, e, f, g, h) := v;
    d, h := Step(a, b, c, d, e, f, g, h, 0x983e5152, words[24]);
    c, g := Step(h, a, b, c, d, e, f, g, 0xa831c66d, words[25]);
    b, f := Step(g, h, a, b, c, d, e, f, 0xb00327c8, words[26]);
    a, e := Step(f, g, h, a, b, c, d, e, 0xbf597fc7, words[27]);
    h, d := Step(e, f, g, h, a, b, c, d, 0xc6e00bf3, words[28]);
    g, c := Step(d, e, f, g, h, a, b, c, 0xd5a79147, words[29]);
    f, b := Step(c, d, e, f, g, h, a, b, 0x06ca6351, words[30]);
    e, a := Step(b, c, d, e, f, g, h, a, 0x14292967, words[31]);
    r := Registers(a, b, c, d, e, f, g, h);
  }

  method FifthEight(v: Registers, words: array<Word>, ghost start: Registers, ghost block: seq<Word>) returns (r: Registers)
    requires words.Length == 64 && |block| == 16 && Scheduled(words, block, 40) && v == Rounds(start, block, 32)
    ensures r == Rounds(start, block, 40)
  {
    hide Round, K, W, Rounds;
    Constants32();
    Unrolled(start, block, 32);
    var Registers(a, b, c, d, e, f, g, h) := v;
    d, h := Step(a, b, c, d, e, f, g, h, 0x27b70a85, words[32]);
    c, g := Step(h, a, b, c, d, e, f, g, 0x2e1b2138, words[33]);
    b, f := Step(g, h, a, b, c, d, e, f, 0x4d2c6dfc, words[34]);
    a, e := Step(f, g, h, a, b, c, d, e, 0x53380d13, words[35]);
    h, d := Step(e, f, g, h, a, b, c, d, 0x650a7354, words[36]);
    g, c := Step(d, e, f, g, h, a, b, c, 0x766a0abb, words[37]);
    f, b := Step(c, d, e, f, g, h, a, b, 0x81c2c92e, words[38]);
    e, a := Step(b, c, d, e, f, g, h, a, 0x92722c85, words[39]);
    r := Registers(a, b, c, d, e, f, g, h);
  }

  method SixthEight(v: Registers, words: array<Word>, ghost start: Registers, ghost block: seq<Word>) returns (r: Registers)
    requires words.Length == 64 && |block| == 16 && Scheduled(words, block, 48) && v == Rounds(start, block, 40)
    ensures r == Rounds(start, block, 48)
  {
    hide Round, K, W, Rounds;
    Constants40();
    Unrolled(start, block, 40);
    var Registers(a, b, c, d, e, f, g, h) := v;
    d, h := Step(a, b, c, d, e, f, g, h, 0xa2bfe8a1, words[40]);
    c, g := Step(h, a, b, c, d, e, f, g, 0xa81a664b, words[41]);
    b, f := Step(g, h, a, b, c, d, e, f, 0xc24b8b70, words[42]);
    a, e := Step(f, g, h, a, b, c, d, e, 0xc76c51a3, words[43]);
    h, d := Step(e, f, g, h, a, b, c, d, 0xd192e819, words[44]);
    g, c := Step(d, e, f, g, h, a, b, c, 0xd6990624, words[45]);
    f, b := Step(c, d, e, f, g, h, a, b, 0xf40e3585, words[46]);
    e, a := Step(b, c, d, e, f, g, h, a, 0x106aa070, words[47]);
    r := Registers(a, b, c, d, e, f, g, h);
  }

  method SeventhEight(v: Registers, words: array<Word>, ghost start: Registers, ghost block: seq<Word>) returns (r: Registers)
    requires words.Length == 64 && |block| == 16 && Scheduled(words, block, 56) && v == Rounds(start, block, 48)
    ensures r == Rounds(start, block, 56)
  {
    hide Round, K, W, Rounds;
    Constants48();
    Unrolled(start, block, 48);
    var Registers(a, b, c, d, e, f, g, h) := v;
    d, h := Step(a, b, c, d, e, f, g, h, 0x19a4c116, words[48]);
    c, g := Step(h, a, b, c, d, e, f, g, 0x1e376c08, words[49]);
    b, f := Step(g, h, a, b, c, d, e, f, 0x2748774c, words[50]);
    a, e := Step(f, g, h, a, b, c, d, e, 0x34b0bcb5, words[51]);
    h, d := Step(e, f, g, h, a, b, c, d, 0x391c0cb3, words[52]);
    g, c := Step(d, e, f, g, h, a, b, c, 0x4ed8aa4a, words[53]);
    f, b := Step(c, d, e, f, g, h, a, b, 0x5b9cca4f, words[54]);
    e, a := Step(b, c, d, e, f, g, h, a, 0x682e6ff3, words[55]);
    r := Registers(a, b, c, d, e, f, g, h);
  }

  method EighthEight(v: Registers, words: array<Word>, ghost start: Registers, ghost block: seq<Word>) returns (r: Registers)
    requires words.Length == 64 && |block| == 16 && Scheduled(words, block, 64) && v == Rounds(start, block, 56)
    ensures r == Rounds(start, block, 64)
  {
    hide Round, K, W, Rounds;
    Constants56();
    Unrolled(start, block, 56);
    var Registers(a, b, c, d, e, f, g, h) := v;
    d, h := Step(a, b, c, d, e, f, g, h, 0x748f82ee, words[56]);
    c, g := Step(h, a, b, c, d, e, f, g, 0x78a5636f, words[57]);
    b, f := Step(g, h, a, b, c, d, e, f, 0x84c87814, words[58]);
    a, e := Step(f, g, h, a, b, c, d, e, 0x8cc70208, words[59]);
    h, d := Step(e, f, g, h, a, b, c, d, 0x90befffa, words[60]);
    g, c := Step(d, e, f, g, h, a, b, c, 0xa4506ceb, words[61]);
    f, b := Step(c, d, e, f, g, h, a, b, 0xbef9a3f7, words[62]);
    e, a := Step(b, c, d, e, f, g, h, a, 0xc67178f2, words[63]);
    r := Registers(a, b, c, d, e, f, g, h);
  }

  /** Extends the schedule in place up to n words. */
  method Extend(words: array<Word>, start: nat, n: nat, ghost block: seq<Word>)
    requires 16 <= start <= n <= 64 && words.Length == 64 && |block| == 16 && Scheduled(words, block, start)
    modifies words
    ensures Scheduled(words, block, n)
  {
    hide Add, Xor, RotateRight, ShiftRight;
    for i := start to n
      invariant Scheduled(words, block, i)
    {
      words[i] := Add(Add(Add(words[i - 16],
        Xor(Xor(RotateRight(words[i - 15], 7), RotateRight(words[i - 15], 18)), ShiftRight(words[i - 15], 3))),
        words[i - 7]),
        Xor(Xor(RotateRight(words[i - 2], 17), RotateRight(words[i - 2], 19)), ShiftRight(words[i - 2], 10)));
    }
  }

  method LoadWords(data: seq<Byte>) returns (words: array<Word>)
    requires |data| == 64
    ensures fresh(words) && words.Length == 64 && Scheduled(words, BigWords(data), 16)
  {
    hide Little;
    words := new Word[64];
    for i := 0 to 16
      invariant Scheduled(words, BigWords(data), i)
    {
      words[i] := Big(data[4 * i], data[4 * i + 1], data[4 * i + 2], data[4 * i + 3]);
    }
  }

  /** The rounds in groups of eight, each after its words are in place. */
  method AllRounds(start: Registers, data: seq<Byte>) returns (v: Registers)
    requires |data| == 64
    ensures v == Rounds(start, BigWords(data), 64)
  {
    hide Rounds, W, BigWords, K, Scheduled;
    ghost var block := BigWords(data);
    v := start;
    var words := LoadWords(data);
    RoundsStart(start, block);
    v := FirstEight(v, words, start, block);
    v := SecondEight(v, words, start, block);
    Extend(words, 16, 24, block);
    v := ThirdEight(v, words, start, block);
    Extend(words, 24, 32, block);
    v := FourthEight(v, words, start, block);
    Extend(words, 32, 40, block);
    v := FifthEight(v, words, start, block);
    Extend(words, 40, 48, block);
    v := SixthEight(v, words, start, block);
    Extend(words, 48, 56, block);
    v := SeventhEight(v, words, start, block);
    Extend(words, 56, 64, block);
    v := EighthEight(v, words, start, block);
  }

  /** Mixes one block into the hash. */
  method ProcessBlock(hash: array<Word>, data: seq<Byte>)
    requires hash.Length == 8 && |data| == 64
    modifies hash
    ensures hash[..] == Compress(old(hash[..]), data)
  {
    hide Rounds, BigWords, Add, Summed;
    var v := AllRounds(Registers(hash[0], hash[1], hash[2], hash[3], hash[4], hash[5], hash[6], hash[7]), data);
    AddAll(hash, v);
  }

  method AddAll(hash: array<Word>, v: Registers)
    requires hash.Length == 8
    modifies hash
    ensures hash[..] == Summed(old(hash[..]), v)
  {
    hide Add;
    AddTo(hash, 0, v.a);
    AddTo(hash, 1, v.b);
    AddTo(hash, 2, v.c);
    AddTo(hash, 3, v.d);
    AddTo(hash, 4, v.e);
    AddTo(hash, 5, v.f);
    AddTo(hash, 6, v.g);
    AddTo(hash, 7, v.h);
  }

  method AddTo(hash: array<Word>, i: nat, x: Word)
    requires i < hash.Length
    modifies hash
    ensures hash[i] == Add(old(hash[i]), x) && forall j :: 0 <= j < hash.Length && j != i ==> hash[j] == old(hash[j])
  {
    hash[i] := Add(hash[i], x);
  }

  lemma RoundsStart(start: Registers, block: seq<Word>)
    requires |block| == 16
    ensures Rounds(start, block, 0) == start
  {
  }
}
