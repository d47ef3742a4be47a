/** The block function of MD5: 64 unrolled steps against the rounds of section 3.4 of RFC 1321. */
module Md5 {
  import opened Bytes
  import opened WordBits
  import opened Words

  datatype Registers = Registers(a: Word, b: Word, c: Word, d: Word)

  // ------------------------------------------------------------ the standard

  function F(x: Word, y: Word, z: Word): Word {
    (x & y) | (!x & z)
  }

  function G(x: Word, y: Word, z: Word): Word {
    (x & z) | (y & !z)
  }

  function H(x: Word, y: Word, z: Word): Word {
    x ^ y ^ z
  }

  function I(x: Word, y: Word, z: Word): Word {
    y ^ (x | !z)
  }

  /** The four functions of section 3.4 of RFC 1321, bit by bit. */
  lemma FApart(x: Word, y: Word, z: Word)
    ensures Half(F(x, y, z)) == F(Half(x), Half(y), Half(z))
    ensures Odd(F(x, y, z)) <==> Chooses(Odd(x), Odd(y), Odd(z))
  {
  }

  lemma {:induction false} FBits(n: nat, x: Word, y: Word, z: Word, i: nat)
    requires i < n
    ensures LowBits(n, F(x, y, z))[i] <==> Chooses(LowBits(n, x)[i], LowBits(n, y)[i], LowBits(n, z)[i])
  {
    hide Odd, Half, F, Chooses;
    FApart(x, y, z);
    if i > 0 {
      FBits(n - 1, Half(x), Half(y), Half(z), i - 1);
    }
  }

  /** G is F with its arguments turned. */
  lemma GIsF(x: Word, y: Word, z: Word)
    ensures G(x, y, z) == F(z, x, y)
  {
  }

  lemma GBits(n: nat, x: Word, y: Word, z: Word, i: nat)
    requires i < n
    ensures LowBits(n, G(x, y, z))[i] <==> Chooses(LowBits(n, z)[i], LowBits(n, x)[i], LowBits(n, y)[i])
  {
    hide LowBits, F, G, Chooses;
    GIsF(x, y, z);
    FBits(n, z, x, y, i);
  }

  lemma HApart(x: Word, y: Word, z: Word)
    ensures Half(H(x, y, z)) == H(Half(x), Half(y), Half(z))
    ensures Odd(H(x, y, z)) <==> OddOf(Odd(x), Odd(y), Odd(z))
  {
  }

  lemma {:induction false} HBits(n: nat, x: Word, y: Word, z: Word, i: nat)
    requires i < n
    ensures LowBits(n, H(x, y, z))[i] <==> OddOf(LowBits(n, x)[i], LowBits(n, y)[i], LowBits(n, z)[i])
  {
    hide Odd, Half, H, OddOf;
    HApart(x, y, z);
    if i > 0 {
      HBits(n - 1, Half(x), Half(y), Half(z), i - 1);
    }
  }

  /** y, flipped where x is set or z is clear. */
  predicate Flips(x: bool, y: bool, z: bool) {
    y != (x || !z)
  }

  lemma IApart(x: Word, y: Word, z: Word)
    ensures Half(I(x, y, z)) == Xor(I(Half(x), Half(y), Half(z)), Top)
    ensures Odd(I(x, y, z)) <==> Flips(Odd(x), Odd(y), Odd(z))
  {
  }

  lemma INext(n: nat, x: Word, y: Word, z: Word)
    requires 0 < n <= 32
    ensures LowBits(n, I(x, y, z)) == [Flips(Odd(x), Odd(y), Odd(z))] + LowBits(n - 1, I(Half(x), Half(y), Half(z)))
  {
    hide Odd, Half, I, Xor, Flips;
    IApart(x, y, z);
    TopIgnored(n - 1, I(Half(x), Half(y), Half(z)));
  }

  lemma {:induction false} IBits(n: nat, x: Word, y: Word, z: Word, i: nat)
    requires i < n <= 32
    ensures LowBits(n, I(x, y, z))[i] <==> Flips(LowBits(n, x)[i], LowBits(n, y)[i], LowBits(n, z)[i])
  {
    hide Odd, Half, I, Flips;
    INext(n, x, y, z);
    if i > 0 {
      IBits(n - 1, Half(x), Half(y), Half(z), i - 1);
    }
  }

  /** The function of step t. */
  function Mix(t: nat, x: Word, y: Word, z: Word): Word {
    if t < 16 then F(x, y, z) else if t < 32 then G(x, y, z) else if t < 48 then H(x, y, z) else I(x, y, z)
  }

  /** The message word of step t. */
  function Index(t: nat): (k: nat)
    ensures k < 16
  {
    if t < 16 then t else if t < 32 then (5 * t + 1) % 16 else if t < 48 then (3 * t + 5) % 16 else 7 * t % 16
  }

  /** The distance of the rotation in step t. */
  function Shift(t: nat): (s: nat)
    ensures 0 < s < 32
  {
    var r := t % 4;
    if t < 16 then (if r == 0 then 7 else if r == 1 then 12 else if r == 2 then 17 else 22)
    else if t < 32 then (if r == 0 then 5 else if r == 1 then 9 else if r == 2 then 14 else 20)
    else if t < 48 then (if r == 0 then 4 else if r == 1 then 11 else if r == 2 then 16 else 23)
    else (if r == 0 then 6 else if r == 1 then 10 else if r == 2 then 15 else 21)
  }

  /** The sine table. */
  function T(t: nat): Word {
    if t < 16 then TA(t) else if t < 32 then TB(t - 16) else if t < 48 then TC(t - 32) else TD(t - 48)
  }

  function TA(t: nat): Word {
    match t
    case 0 => 0xd76aa478 case 1 => 0xe8c7b756 case 2 => 0x242070db case 3 => 0xc1bdceee
    case 4 => 0xf57c0faf case 5 => 0x4787c62a case 6 => 0xa8304613 case 7 => 0xfd469501
    case 8 => 0x698098d8 case 9 => 0x8b44f7af case 10 => 0xffff5bb1 case 11 => 0x895cd7be
    case 12 => 0x6b901122 case 13 => 0xfd987193 case 14 => 0xa679438e case _ => 0x49b40821
  }

  function TB(t: nat): Word {
    match t
    case 0 => 0xf61e2562 case 1 => 0xc040b340 case 2 => 0x265e5a51 case 3 => 0xe9b6c7aa
    case 4 => 0xd62f105d case 5 => 0x02441453 case 6 => 0xd8a1e681 case 7 => 0xe7d3fbc8
    case 8 => 0x21e1cde6 case 9 => 0xc33707d6 case 10 => 0xf4d50d87 case 11 => 0x455a14ed
    case 12 => 0xa9e3e905 case 13 => 0xfcefa3f8 case 14 => 0x676f02d9 case _ => 0x8d2a4c8a
  }

  function TC(t: nat): Word {
    match t
    case 0 => 0xfffa3942 case 1 => 0x8771f681 case 2 => 0x6d9d6122 case 3 => 0xfde5380c
    case 4 => 0xa4beea44 case 5 => 0x4bdecfa9 case 6 => 0xf6bb4b60 case 7 => 0xbebfbc70
    case 8 => 0x289b7ec6 case 9 => 0xeaa127fa case 10 => 0xd4ef3085 case 11 => 0x04881d05
    case 12 => 0xd9d4d039 case 13 => 0xe6db99e5 case 14 => 0x1fa27cf8 case _ => 0xc4ac5665
  }

  function TD(t: nat): Word {
    match t
    case 0 => 0xf4292244 case 1 => 0x432aff97 case 2 => 0xab9423a7 case 3 => 0xfc93a039
    case 4 => 0x655b59c3 case 5 => 0x8f0ccc92 case 6 => 0xffeff47d case 7 => 0x85845dd1
    case 8 => 0x6fa87e4f case 9 => 0xfe2ce6e0 case 10 => 0xa3014314 case 11 => 0x4e0811a1
    case 12 => 0xf7537e82 case 13 => 0xbd3af235 case 14 => 0x2ad7d2bb case _ => 0xeb86d391
  }

  /** One step: every register moves on by one place. */
  function Step(t: nat, v: Registers, w: Word): Registers {
    Registers(v.d, Add(v.b, RotateLeft(Add(Add(Add(v.a, Mix(t, v.b, v.c, v.d)), w), T(t)), Shift(t))), v.b, v.c)
  }

  /** The registers after the first t steps. */
  function Steps(v: Registers, words: seq<Word>, t: nat): Registers
    requires |words| == 16
  {
    if t == 0 then v else Step(t - 1, Steps(v, words, t - 1), words[Index(t - 1)])
  }

  function OfHash(hash: seq<Word>): Registers
    requires |hash| == 4
  {
    Registers(hash[0], hash[1], hash[2], hash[3])
  }

  /** The next hash value: the old one plus the registers after all steps. */
  function Compress(hash: seq<Word>, block: seq<Byte>): (next: seq<Word>)
    requires |hash| == 4 && |block| == 64
    ensures |next| == 4
  {
    var v := Steps(OfHash(hash), LittleWords(block), 64);
    [Add(hash[0], v.a), Add(hash[1], v.b), Add(hash[2], v.c), Add(hash[3], v.d)]
  }

  const InitialHash: seq<Word> := [0x67452301, 0xefcdab89, 0x98badcfe, 0x10325476]

  /** The initial words, the lowest byte first: the digits up and down again (section 3.3 of RFC 1321). */
  lemma InitialBytes(k: nat)
    requires k < 16
    ensures WordByte(InitialHash[k / 4], k % 4) ==
      [0x01, 0x23, 0x45, 0x67, 0x89, 0xab, 0xcd, 0xef, 0xfe, 0xdc, 0xba, 0x98, 0x76, 0x54, 0x32, 0x10][k]
  {
  }

  // ------------------------------------------------------------ the code's mix functions

  function F1(b: Word, c: Word, d: Word): (r: Word)
    ensures r == F(b, c, d)
  {
    FRewritten(b, c, d);
    d ^ (b & (c ^ d))
  }

  function F2(b: Word, c: Word, d: Word): (r: Word)
    ensures r == G(b, c, d)
  {
    GRewritten(b, c, d);
    c ^ (d & (b ^ c))
  }

  function F3(b: Word, c: Word, d: Word): (r: Word)
    ensures r == H(b, c, d)
  {
    b ^ c ^ d
  }

  function F4(b: Word, c: Word, d: Word): (r: Word)
    ensures r == I(b, c, d)
  {
    c ^ (b | !d)
  }

  lemma FRewritten(b: Word, c: Word, d: Word)
    ensures d ^ (b & (c ^ d)) == (b & c) | (!b & d)
  {
  }

  lemma GRewritten(b: Word, c: Word, d: Word)
    ensures c ^ (d & (b ^ c)) == (b & d) | (c & !d)
  {
  }

  /** One line of the unrolled loop: one register changes, the others change their names. */
  method Line(ghost t: nat, a: Word, b: Word, c: Word, d: Word, mixed: Word, word: Word, k: Word, s: nat) returns (newA: Word)
    requires mixed == Mix(t, b, c, d) && k == T(t) && s == Shift(t)
    ensures Registers(d, newA, b, c) == Step(t, Registers(a, b, c, d), word)
  {
    hide Mix, T, Shift, Add, RotateLeft;
    AddCommutes(b, RotateLeft(Add(Add(Add(a, mixed), word), k), s));
    newA := Add(RotateLeft(Add(Add(Add(a, mixed), word), k), s), b);
  }

  // ------------------------------------------------------------ the unrolled steps

  /** What the standard's tables say of step t. */
  ghost predicate Uses(t: nat, index: nat, k: Word, s: nat) {
    Index(t) == index && T(t) == k && Shift(t) == s
  }

  lemma Unrolled(start: Registers, words: seq<Word>, t: nat)
    requires |words| == 16
    ensures forall i {:trigger Steps(start, words, i)} :: t <= i < t + 8 ==>
      Steps(start, words, i + 1) == Step(i, Steps(start, words, i), words[Index(i)])
  {
    hide Step, Index;
  }

  lemma StepsStart(start: Registers, words: seq<Word>)
    requires |words| == 16
    ensures Steps(start, words, 0) == start
  {
  }

  lemma Mixes(t: nat, x: Word, y: Word, z: Word)
    ensures t < 16 ==> Mix(t, x, y, z) == F(x, y, z)
    ensures 16 <= t < 32 ==> Mix(t, x, y, z) == G(x, y, z)
    ensures 32 <= t < 48 ==> Mix(t, x, y, z) == H(x, y, z)
    ensures 48 <= t ==> Mix(t, x, y, z) == I(x, y, z)
  {
    hide F, G, H, I;
  }

  lemma Uses0()
    ensures Uses(0, 0, 0xd76aa478, 7) && Uses(1, 1, 0xe8c7b756, 12)
    ensures Uses(2, 2, 0x242070db, 17) && Uses(3, 3, 0xc1bdceee, 22)
    ensures Uses(4, 4, 0xf57c0faf, 7) && Uses(5, 5, 0x4787c62a, 12)
    ensures Uses(6, 6, 0xa8304613, 17) && Uses(7, 7, 0xfd469501, 22)
  {
  }

  method FirstRound(v: Registers, words: seq<Word>, ghost start: Registers) returns (r: Registers)
    requires |words| == 16 && v == Steps(start, words, 0)
    ensures r == Steps(start, words, 8)
  {
    hide Step, Steps, Mix, F, G, H, I, T, Shift, Index;
    Uses0();
    Unrolled(start, words, 0);
    var Registers(a, b, c, d) := v;
    Mixes(0, b, c, d);
    a := Line(0, a, b, c, d, F1(b, c, d), words[0], 0xd76aa478, 7);
    Mixes(1, a, b, c);
    d := Line(1, d, a, b, c, F1(a, b, c), words[1], 0xe8c7b756, 12);
    Mixes(2, d, a, b);
    c := Line(2, c, d, a, b, F1(d, a, b), words[2], 0x242070db, 17);
    Mixes(3, c, d, a);
    b := Line(3, b, c, d, a, F1(c, d, a), words[3], 0xc1bdceee, 22);
    Mixes(4, b, c, d);
    a := Line(4, a, b, c, d, F1(b, c, d), words[4], 0xf57c0faf, 7);
    Mixes(5, a, b, c);
    d := Line(5, d, a, b, c, F1(a, b, c), words[5], 0x4787c62a, 12);
    Mixes(6, d, a, b);
    c := Line(6, c, d, a, b, F1(d, a, b), words[6], 0xa8304613, 17);
    Mixes(7, c, d, a);
    b := Line(7, b, c, d, a, F1(c, d, a), words[7], 0xfd469501, 22);
    r := Registers(a, b, c, d);
  }

  lemma Uses8()
    ensures Uses(8, 8, 0x698098d8, 7) && Uses(9, 9, 0x8b44f7af, 12)
    ensures Uses(10, 10, 0xffff5bb1, 17) && Uses(11, 11, 0x895cd7be, 22)
    ensures Uses(12, 12, 0x6b901122, 7) && Uses(13, 13, 0xfd987193, 12)
    ensures Uses(14, 14, 0xa679438e, 17) && Uses(15, 15, 0x49b40821, 22)
  {
  }

  method FirstRoundEnd(v: Registers, words: seq<Word>, ghost start: Registers) returns (r: Registers)
    requires |words| == 16 && v == Steps(start, words, 8)
    ensures r == Steps(start, words, 16)
  {
    hide Step, Steps, Mix, F, G, H, I, T, Shift, Index;
    Uses8();
    Unrolled(start, words, 8);
    var Registers(a, b, c, d) := v;
    Mixes(8, b, c, d);
    a := Line(8, a, b, c, d, F1(b, c, d), words[8], 0x698098d8, 7);
    Mixes(9, a, b, c);
    d := Line(9, d, a, b, c, F1(a, b, c), words[9], 0x8b44f7af, 12);
    Mixes(10, d, a, b);
    c := Line(10, c, d, a, b, F1(d, a, b), words[10], 0xffff5bb1, 17);
    Mixes(11, c, d, a);
    b := Line(11, b, c, d, a, F1(c, d, a), words[11], 0x895cd7be, 22);
    Mixes(12, b, c, d);
    a := Line(12, a, b, c, d, F1(b, c, d), words[12], 0x6b901122, 7);
    Mixes(13, a, b, c);
    d := Line(13, d, a, b, c, F1(a, b, c), words[13], 0xfd987193, 12);
    Mixes(14, d, a, b);
    c := Line(14, c, d, a, b, F1(d, a, b), words[14], 0xa679438e, 17);
    Mixes(15, c, d, a);
    b := Line(15, b, c, d, a, F1(c, d, a), words[15], 0x49b40821, 22);
    r := Registers(a, b, c, d);
  }

  lemma Uses16()
    ensures Uses(16, 1, 0xf61e2562, 5) && Uses(17, 6, 0xc040b340, 9)
    ensures Uses(18, 11, 0x265e5a51, 14) && Uses(19, 0, 0xe9b6c7aa, 20)
    ensures Uses(20, 5, 0xd62f105d, 5) && Uses(21, 10, 0x02441453, 9)
    ensures Uses(22, 15, 0xd8a1e681, 14) && Uses(23, 4, 0xe7d3fbc8, 20)
  {
  }

  method SecondRound(v: Registers, words: seq<Word>, ghost start: Registers) returns (r: Registers)
    requires |words| == 16 && v == Steps(start, words, 16)
    ensures r == Steps(start, words, 24)
  {
    hide Step, Steps, Mix, F, G, H, I, T, Shift, Index;
    Uses16();
    Unrolled(start, words, 16);
    var Registers(a, b, c, d) := v;
    Mixes(16, b, c, d);
    a := Line(16, a, b, c, d, F2(b, c, d), words[1], 0xf61e2562, 5);
    Mixes(17, a, b, c);
    d := Line(17, d, a, b, c, F2(a, b, c), words[6], 0xc040b340, 9);
    Mixes(18, d, a, b);
    c := Line(18, c, d, a, b, F2(d, a, b), words[11], 0x265e5a51, 14);
    Mixes(19, c, d, a);
    b := Line(19, b, c, d, a, F2(c, d, a), words[0], 0xe9b6c7aa, 20);
    Mixes(20, b, c, d);
    a := Line(20, a, b, c, d, F2(b, c, d), words[5], 0xd62f105d, 5);
    Mixes(21, a, b, c);
    d := Line(21, d, a, b, c, F2(a, b, c), words[10], 0x02441453, 9);
    Mixes(22, d, a, b);
    c := Line(22, c, d, a, b, F2(d, a, b), words[15], 0xd8a1e681, 14);
    Mixes(23, c, d, a);
    b := Line(23, b, c, d, a, F2(c, d, a), words[4], 0xe7d3fbc8, 20);
    r := Registers(a, b, c, d);
  }

  lemma Uses24()
    ensures Uses(24, 9, 0x21e1cde6, 5) && Uses(25, 14, 0xc33707d6, 9)
    ensures Uses(26, 3, 0xf4d50d87, 14) && Uses(27, 8, 0x455a14ed, 20)
    ensures Uses(28, 13, 0xa9e3e905, 5) && Uses(29, 2, 0xfcefa3f8, 9)
    ensures Uses(30, 7, 0x676f02d9, 14) && Uses(31, 12, 0x8d2a4c8a, 20)
  {
  }

  method SecondRoundEnd(v: Registers, words: seq<Word>, ghost start: Registers) returns (r: Registers)
    requires |words| == 16 && v == Steps(start, words, 24)
    ensures r == Steps(start, words, 32)
  {
    hide Step, Steps, Mix, F, G, H, I, T, Shift, Index;
    Uses24();
    Unrolled(start, words, 24);
    var Registers(a, b, c, d) := v;
    Mixes(24, b, c, d);
    a := Line(24, a, b, c, d, F2(b, c, d), words[9], 0x21e1cde6, 5);
    Mixes(25, a, b, c);
    d := Line(25, d, a, b, c, F2(a, b, c), words[14], 0xc33707d6, 9);
    Mixes(26, d, a, b);
    c := Line(26, c, d, a, b, F2(d, a, b), words[3], 0xf4d50d87, 14);
    Mixes(27, c, d, a);
    b := Line(27, b, c, d, a, F2(c, d, a), words[8], 0x455a14ed, 20);
    Mixes(28, b, c, d);
    a := Line(28, a, b, c, d, F2(b, c, d), words[13], 0xa9e3e905, 5);
    Mixes(29, a, b, c);
    d := Line(29, d, a, b, c, F2(a, b, c), words[2], 0xfcefa3f8, 9);
    Mixes(30, d, a, b);
    c := Line(30, c, d, a, b, F2(d, a, b), words[7], 0x676f02d9, 14);
    Mixes(31, c, d, a);
    b := Line(31, b, c, d, a, F2(c, d, a), words[12], 0x8d2a4c8a, 20);
    r := Registers(a, b, c, d);
  }

  lemma Uses32()
    ensures Uses(32, 5, 0xfffa3942, 4) && Uses(33, 8, 0x8771f681, 11)
    ensures Uses(34, 11, 0x6d9d6122, 16) && Uses(35, 14, 0xfde5380c, 23)
    ensures Uses(36, 1, 0xa4beea44, 4) && Uses(37, 4, 0x4bdecfa9, 11)
    ensures Uses(38, 7, 0xf6bb4b60, 16) && Uses(39, 10, 0xbebfbc70, 23)
  {
  }

  method ThirdRound(v: Registers, words: seq<Word>, ghost start: Registers) returns (r: Registers)
    requires |words| == 16 && v == Steps(start, words, 32)
    ensures r == Steps(start, words, 40)
  {
    hide Step, Steps, Mix, F, G, H, I, T, Shift, Index;
    Uses32();
    Unrolled(start, words, 32);
    var Registers(a, b, c, d) := v;
    Mixes(32, b, c, d);
    a := Line(32, a, b, c, d, F3(b, c, d), words[5], 0xfffa3942, 4);
    Mixes(33, a, b, c);
    d := Line(33, d, a, b, c, F3(a, b, c), words[8], 0x8771f681, 11);
    Mixes(34, d, a, b);
    c := Line(34, c, d, a, b, F3(d, a, b), words[11], 0x6d9d6122, 16);
    Mixes(35, c, d, a);
    b := Line(35, b, c, d, a, F3(c, d, a), words[14], 0xfde5380c, 23);
    Mixes(36, b, c, d);
    a := Line(36, a, b, c, d, F3(b, c, d), words[1], 0xa4beea44, 4);
    Mixes(37, a, b, c);
    d := Line(37, d, a, b, c, F3(a, b, c), words[4], 0x4bdecfa9, 11);
    Mixes(38, d, a, b);
    c := Line(38, c, d, a, b, F3(d, a, b), words[7], 0xf6bb4b60, 16);
    Mixes(39, c, d, a);
    b := Line(39, b, c, d, a, F3(c, d, a), words[10], 0xbebfbc70, 23);
    r := Registers(a, b, c, d);
  }

  lemma Uses40()
    ensures Uses(40, 13, 0x289b7ec6, 4) && Uses(41, 0, 0xeaa127fa, 11)
    ensures Uses(42, 3, 0xd4ef3085, 16) && Uses(43, 6, 0x04881d05, 23)
    ensures Uses(44, 9, 0xd9d4d039, 4) && Uses(45, 12, 0xe6db99e5, 11)
    ensures Uses(46, 15, 0x1fa27cf8, 16) && Uses(47, 2, 0xc4ac5665, 23)
  {
  }

  method ThirdRoundEnd(v: Registers, words: seq<Word>, ghost start: Registers) returns (r: Registers)
    requires |words| == 16 && v == Steps(start, words, 40)
    ensures r == Steps(start, words, 48)
  {
    hide Step, Steps, Mix, F, G, H, I, T, Shift, Index;
    Uses40();
    Unrolled(start, words, 40);
    var Registers(a, b, c, d) := v;
    Mixes(40, b, c, d);
    a := Line(40, a, b, c, d, F3(b, c, d), words[13], 0x289b7ec6, 4);
    Mixes(41, a, b, c);
    d := Line(41, d, a, b, c, F3(a, b, c), words[0], 0xeaa127fa, 11);
    Mixes(42, d, a, b);
    c := Line(42, c, d, a, b, F3(d, a, b), words[3], 0xd4ef3085, 16);
    Mixes(43, c, d, a);
    b := Line(43, b, c, d, a, F3(c, d, a), words[6], 0x04881d05, 23);
    Mixes(44, b, c, d);
    a := Line(44, a, b, c, d, F3(b, c, d), words[9], 0xd9d4d039, 4);
    Mixes(45, a, b, c);
    d := Line(45, d, a, b, c, F3(a, b, c), words[12], 0xe6db99e5, 11);
    Mixes(46, d, a, b);
    c := Line(46, c, d, a, b, F3(d, a, b), words[15], 0x1fa27cf8, 16);
    Mixes(47, c, d, a);
    b := Line(47, b, c, d, a, F3(c, d, a), words[2], 0xc4ac5665, 23);
    r := Registers(a, b, c, d);
  }

  lemma Uses48()
    ensures Uses(48, 0, 0xf4292244, 6) && Uses(49, 7, 0x432aff97, 10)
    ensures Uses(50, 14, 0xab9423a7, 15) && Uses(51, 5, 0xfc93a039, 21)
    ensures Uses(52, 12, 0x655b59c3, 6) && Uses(53, 3, 0x8f0ccc92, 10)
    ensures Uses(54, 10, 0xffeff47d, 15) && Uses(55, 1, 0x85845dd1, 21)
  {
  }

  method FourthRound(v: Registers, words: seq<Word>, ghost start: Registers) returns (r: Registers)
    requires |words| == 16 && v == Steps(start, words, 48)
    ensures r == Steps(start, words, 56)
  {
    hide Step, Steps, Mix, F, G, H, I, T, Shift, Index;
    Uses48();
    Unrolled(start, words, 48);
    var Registers(a, b, c, d) := v;
    Mixes(48, b, c, d);
    a := Line(48, a, b, c, d, F4(b, c, d), words[0], 0xf4292244, 6);
    Mixes(49, a, b, c);
    d := Line(49, d, a, b, c, F4(a, b, c), words[7], 0x432aff97, 10);
    Mixes(50, d, a, b);
    c := Line(50, c, d, a, b, F4(d, a, b), words[14], 0xab9423a7, 15);
    Mixes(51, c, d, a);
    b := Line(51, b, c, d, a, F4(c, d, a), words[5], 0xfc93a039, 21);
    Mixes(52, b, c, d);
    a := Line(52, a, b, c, d, F4(b, c, d), words[12], 0x655b59c3, 6);
    Mixes(53, a, b, c);
    d := Line(53, d, a, b, c, F4(a, b, c), words[3], 0x8f0ccc92, 10);
    Mixes(54, d, a, b);
    c := Line(54, c, d, a, b, F4(d, a, b), words[10], 0xffeff47d, 15);
    Mixes(55, c, d, a);
    b := Line(55, b, c, d, a, F4(c, d, a), words[1], 0x85845dd1, 21);
    r := Registers(a, b, c, d);
  }

  lemma Uses56()
    ensures Uses(56, 8, 0x6fa87e4f, 6) && Uses(57, 15, 0xfe2ce6e0, 10)
    ensures Uses(58, 6, 0xa3014314, 15) && Uses(59, 13, 0x4e0811a1, 21)
    ensures Uses(60, 4, 0xf7537e82, 6) && Uses(61, 11, 0xbd3af235, 10)
    ensures Uses(62, 2, 0x2ad7d2bb, 15) && Uses(63, 9, 0xeb86d391, 21)
  {
  }

  method FourthRoundEnd(v: Registers, words: seq<Word>, ghost start: Registers) returns (r: Registers)
    requires |words| == 16 && v == Steps(start, words, 56)
    ensures r == Steps(start, words, 64)
  {
    hide Step, Steps, Mix, F, G, H, I, T, Shift, Index;
    Uses56();
    Unrolled(start, words, 56);
    var Registers(a, b, c, d) := v;
    Mixes(56, b, c, d);
    a := Line(56, a, b, c, d, F4(b, c, d), words[8], 0x6fa87e4f, 6);
    Mixes(57, a, b, c);
    d := Line(57, d, a, b, c, F4(a, b, c), words[15], 0xfe2ce6e0, 10);
    Mixes(58, d, a, b);
    c := Line(58, c, d, a, b, F4(d, a, b), words[6], 0xa3014314, 15);
    Mixes(59, c, d, a);
    b := Line(59, b, c, d, a, F4(c, d, a), words[13], 0x4e0811a1, 21);
    Mixes(60, b, c, d);
    a := Line(60, a, b, c, d, F4(b, c, d), words[4], 0xf7537e82, 6);
    Mixes(61, a, b, c);
    d := Line(61, d, a, b, c, F4(a, b, c), words[11], 0xbd3af235, 10);
    Mixes(62, d, a, b);
    c := Line(62, c, d, a, b, F4(d, a, b), words[2], 0x2ad7d2bb, 15);
    Mixes(63, c, d, a);
    b := Line(63, b, c, d, a, F4(c, d, a), words[9], 0xeb86d391, 21);
    r := Registers(a, b, c, d);
  }

  method AllSteps(start: Registers, data: seq<Byte>) returns (v: Registers)
    requires |data| == 64
    ensures v == Steps(start, LittleWords(data), 64)
  {
    hide Steps;
    var words := LittleWords(data);
    StepsStart(start, words);
    v := start;
    v := FirstRound(v, words, start);
    v := FirstRoundEnd(v, words, start);
    v := SecondRound(v, words, start);
    v := SecondRoundEnd(v, words, start);
    v := ThirdRound(v, words, start);
    v := ThirdRoundEnd(v, words, start);
    v := FourthRound(v, words, start);
    v := FourthRoundEnd(v, words, start);
  }

  /** Mixes one block into the hash. */
  method ProcessBlock(hash: array<Word>, data: seq<Byte>)
    requires hash.Length == 4 && |data| == 64
    modifies hash
    ensures hash[..] == Compress(old(hash[..]), data)
  {
    hide Steps, LittleWords, Add;
    var v := AllSteps(Registers(hash[0], hash[1], hash[2], hash[3]), data);
    hash[0] := Add(hash[0], v.a);
    hash[1] := Add(hash[1], v.b);
    hash[2] := Add(hash[2], v.c);
    hash[3] := Add(hash[3], v.d);
  }
}
