/** The block function of SHA-1: five steps a turn with renamed registers against the rounds of section 6.1.2 of FIPS 180-4. */
module Sha1 {
  import opened Bytes
  import opened Words

  datatype Registers = Registers(a: Word, b: Word, c: Word, d: Word, e: Word)

  // ------------------------------------------------------------ the standard

  /** The function of round t. */
  function F(t: nat, x: Word, y: Word, z: Word): Word {
    if t < 20 then Ch(x, y, z) else if t < 40 then Parity(x, y, z) else if t < 60 then Maj(x, y, z) else Parity(x, y, z)
  }

  /** The constant of round t. */
  function K(t: nat): Word {
    if t < 20 then 0x5a827999 else if t < 40 then 0x6ed9eba1 else if t < 60 then 0x8f1bbcdc else 0xca62c1d6
  }

  /** The constants are the square roots of 2, 3, 5 and 10 with 30 digits behind the point. */
  lemma ConstantIsRoot(t: nat)
    requires t < 80
    ensures var k, n := K(t) as nat, if t < 20 then 2 else if t < 40 then 3 else if t < 60 then 5 else 10;
      k * k <= n * 0x1000_0000_0000_0000 < (k + 1) * (k + 1)
  {
  }

  /** The message schedule. */
  function W(block: seq<Word>, t: nat): Word
    requires |block| == 16
  {
    if t < 16 then block[t]
    else RotateLeft(Xor(Xor(Xor(W(block, t - 3), W(block, t - 8)), W(block, t - 14)), W(block, t - 16)), 1)
  }

  /** One round: every register moves on by one place. */
  function Round(t: nat, v: Registers, w: Word): Registers {
    var temp := Add(v.e, Add(Add(Add(RotateLeft(v.a, 5), F(t, v.b, v.c, v.d)), w), K(t)));
    Registers(temp, v.a, RotateLeft(v.b, 30), v.c, v.d)
  }

  /** The registers after the first t rounds. */
  function Rounds(v: Registers, block: seq<Word>, t: nat): Registers
    requires |block| == 16
  {
    if t == 0 then v else Round(t - 1, Rounds(v, block, t - 1), W(block, t - 1))
  }

  function OfHash(hash: seq<Word>): Registers
    requires |hash| == 5
  {
    Registers(hash[0], hash[1], hash[2], hash[3], hash[4])
  }

  /** The next hash value: the old one plus the registers after all rounds. */
  function Compress(hash: seq<Word>, block: seq<Byte>): (next: seq<Word>)
    requires |hash| == 5 && |block| == 64
    ensures |next| == 5
  {
    var v := Rounds(OfHash(hash), BigWords(block), 80);
    [Add(hash[0], v.a), Add(hash[1], v.b), Add(hash[2], v.c), Add(hash[3], v.d), Add(hash[4], v.e)]
  }

  const InitialHash: seq<Word> := [0x67452301, 0xefcdab89, 0x98badcfe, 0x10325476, 0xc3d2e1f0]

  /** The initial words, the lowest byte first: the digits up and down again, and then pairs of them. */
  lemma InitialBytes(k: nat)
    requires k < 20
    ensures WordByte(InitialHash[k / 4], k % 4) ==
      [0x01, 0x23, 0x45, 0x67, 0x89, 0xab, 0xcd, 0xef, 0xfe, 0xdc, 0xba, 0x98, 0x76, 0x54, 0x32, 0x10, 0xf0, 0xe1, 0xd2, 0xc3][k]
  {
  }

  // ------------------------------------------------------------ the code's mix functions

  /** The choice written with one operation less. */
  function F1(b: Word, c: Word, d: Word): (r: Word)
    ensures r == Ch(b, c, d)
  {
    ChRewritten(b, c, d);
    d ^ (b & (c ^ d))
  }

  function F2(b: Word, c: Word, d: Word): (r: Word)
    ensures r == Parity(b, c, d)
  {
    b ^ c ^ d
  }

  function F3(b: Word, c: Word, d: Word): (r: Word)
    ensures r == Maj(b, c, d)
  {
    MajRewritten(b, c, d);
    (b & c) | (b & d) | (c & d)
  }

  /** One line of the code: only two registers change, the others change their names. */
  method Step(ghost t: nat, a: Word, b: Word, c: Word, d: Word, e: Word, mixed: Word, w: Word, k: Word) returns (newE: Word, newB: Word)
    requires mixed == F(t, b, c, d) && k == K(t)
    ensures Registers(newE, a, newB, c, d) == Round(t, Registers(a, b, c, d, e), w)
  {
    hide F, K, Add, RotateLeft;
    newE := Add(e, Add(Add(Add(RotateLeft(a, 5), mixed), w), k));
    newB := RotateLeft(b, 30);
  }

  // ------------------------------------------------------------ the four loops

  /** The first n words of the schedule stand in the array. */
  ghost predicate Scheduled(words: array<Word>, block: seq<Word>, n: nat)
    reads words
  {
    words.Length == 80 && n <= 80 && |block| == 16 && forall i :: 0 <= i < n ==> words[i] == W(block, i)
  }

  lemma RoundsNext(start: Registers, block: seq<Word>, t: nat)
    requires |block| == 16
    ensures Rounds(start, block, t + 1) == Round(t, Rounds(start, block, t), W(block, t))
  {
    hide Round, W;
  }

  lemma RoundsStart(start: Registers, block: seq<Word>)
    requires |block| == 16
    ensures Rounds(start, block, 0) == start
  {
  }

  lemma FiveRounds(start: Registers, block: seq<Word>, t: nat)
    requires |block| == 16
    ensures var v := Rounds(start, block, t);
      Rounds(start, block, t + 5) == Round(t + 4, Round(t + 3, Round(t + 2, Round(t + 1, Round(t, v, W(block, t)),
        W(block, t + 1)), W(block, t + 2)), W(block, t + 3)), W(block, t + 4))
  {
    hide Round, W, Rounds;
    RoundsNext(start, block, t);
    RoundsNext(start, block, t + 1);
    RoundsNext(start, block, t + 2);
    RoundsNext(start, block, t + 3);
    RoundsNext(start, block, t + 4);
  }

  lemma Functions(t: nat, x: Word, y: Word, z: Word)
    ensures t < 20 ==> F(t, x, y, z) == Ch(x, y, z) && K(t) == 0x5a827999
    ensures 20 <= t < 40 ==> F(t, x, y, z) == Parity(x, y, z) && K(t) == 0x6ed9eba1
    ensures 40 <= t < 60 ==> F(t, x, y, z) == Maj(x, y, z) && K(t) == 0x8f1bbcdc
    ensures 60 <= t ==> F(t, x, y, z) == Parity(x, y, z) && K(t) == 0xca62c1d6
  {
    hide Ch, Parity, Maj;
  }

  method FirstRound(v: Registers, words: array<Word>, ghost start: Registers, ghost block: seq<Word>) returns (r: Registers)
    requires words.Length == 80 && |block| == 16 && Scheduled(words, block, 80) && v == Rounds(start, block, 0)
    ensures r == Rounds(start, block, 20)
  {
    hide Round, Rounds, W, F, K, Ch, Parity, Maj;
    var Registers(a, b, c, d, e) := v;
    for i := 0 to 4
      invariant Registers(a, b, c, d, e) == Rounds(start, block, 5 * i)
    {
      var offset := 5 * i;
      FiveRounds(start, block, offset);
      Functions(offset, b, c, d);
      e, b := Step(offset, a, b, c, d, e, F1(b, c, d), words[offset], 0x5a827999);
      Functions(offset + 1, a, b, c);
      d, a := Step(offset + 1, e, a, b, c, d, F1(a, b, c), words[offset + 1], 0x5a827999);
      Functions(offset + 2, e, a, b);
      c, e := Step(offset + 2, d, e, a, b, c, F1(e, a, b), words[offset + 2], 0x5a827999);
      Functions(offset + 3, d, e, a);
      b, d := Step(offset + 3, c, d, e, a, b, F1(d, e, a), words[offset + 3], 0x5a827999);
      Functions(offset + 4, c, d, e);
      a, c := Step(offset + 4, b, c, d, e, a, F1(c, d, e), words[offset + 4], 0x5a827999);
    }
    r := Registers(a, b, c, d, e);
  }

  method SecondRound(v: Registers, words: array<Word>, ghost start: Registers, ghost block: seq<Word>) returns (r: Registers)
    requires words.Length == 80 && |block| == 16 && Scheduled(words, block, 80) && v == Rounds(start, block, 20)
    ensures r == Rounds(start, block, 40)
  {
    hide Round, Rounds, W, F, K, Ch, Parity, Maj;
    var Registers(a, b, c, d, e) := v;
    for i := 4 to 8
      invariant Registers(a, b, c, d, e) == Rounds(start, block, 5 * i)
    {
      var offset := 5 * i;
      FiveRounds(start, block, offset);
      Functions(offset, b, c, d);
      e, b := Step(offset, a, b, c, d, e, F2(b, c, d), words[offset], 0x6ed9eba1);
      Functions(offset + 1, a, b, c);
      d, a := Step(offset + 1, e, a, b, c, d, F2(a, b, c), words[offset + 1], 0x6ed9eba1);
      Functions(offset + 2, e, a, b);
      c, e := Step(offset + 2, d, e, a, b, c, F2(e, a, b), words[offset + 2], 0x6ed9eba1);
      Functions(offset + 3, d, e, a);
      b, d := Step(offset + 3, c, d, e, a, b, F2(d, e, a), words[offset + 3], 0x6ed9eba1);
      Functions(offset + 4, c, d, e);
      a, c := Step(offset + 4, b, c, d, e, a, F2(c, d, e), words[offset + 4], 0x6ed9eba1);
    }
    r := Registers(a, b, c, d, e);
  }

  method ThirdRound(v: Registers, words: array<Word>, ghost start: Registers, ghost block: seq<Word>) returns (r: Registers)
    requires words.Length == 80 && |block| == 16 && Scheduled(words, block, 80) && v == Rounds(start, block, 40)
    ensures r == Rounds(start, block, 60)
  {
    hide Round, Rounds, W, F, K, Ch, Parity, Maj;
    var Registers(a, b, c, d, e) := v;
    for i := 8 to 12
      invariant Registers(a, b, c, d, e) == Rounds(start, block, 5 * i)
    {
      var offset := 5 * i;
      FiveRounds(start, block, offset);
      Functions(offset, b, c, d);
      e, b := Step(offset, a, b, c, d, e, F3(b, c, d), words[offset], 0x8f1bbcdc);
      Functions(offset + 1, a, b, c);
      d, a := Step(offset + 1, e, a, b, c, d, F3(a, b, c), words[offset + 1], 0x8f1bbcdc);
      Functions(offset + 2, e, a, b);
      c, e := Step(offset + 2, d, e, a, b, c, F3(e, a, b), words[offset + 2], 0x8f1bbcdc);
      Functions(offset + 3, d, e, a);
      b, d := Step(offset + 3, c, d, e, a, b, F3(d, e, a), words[offset + 3], 0x8f1bbcdc);
      Functions(offset + 4, c, d, e);
      a, c := Step(offset + 4, b, c, d, e, a, F3(c, d, e), words[offset + 4], 0x8f1bbcdc);
    }
    r := Registers(a, b, c, d, e);
  }

  method FourthRound(v: Registers, words: array<Word>, ghost start: Registers, ghost block: seq<Word>) returns (r: Registers)
    requires words.Length == 80 && |block| == 16 && Scheduled(words, block, 80) && v == Rounds(start, block, 60)
    ensures r == Rounds(start, block, 80)
  {
    hide Round, Rounds, W, F, K, Ch, Parity, Maj;
    var Registers(a, b, c, d, e) := v;
    for i := 12 to 16
      invariant Registers(a, b, c, d, e) == Rounds(start, block, 5 * i)
    {
      var offset := 5 * i;
      FiveRounds(start, block, offset);
      Functions(offset, b, c, d);
      e, b := Step(offset, a, b, c, d, e, F2(b, c, d), words[offset], 0xca62c1d6);
      Functions(offset + 1, a, b, c);
      d, a := Step(offset + 1, e, a, b, c, d, F2(a, b, c), words[offset + 1], 0xca62c1d6);
      Functions(offset + 2, e, a, b);
      c, e := Step(offset + 2, d, e, a, b, c, F2(e, a, b), words[offset + 2], 0xca62c1d6);
      Functions(offset + 3, d, e, a);
      b, d := Step(offset + 3, c, d, e, a, b, F2(d, e, a), words[offset + 3], 0xca62c1d6);
      Functions(offset + 4, c, d, e);
      a, c := Step(offset + 4, b, c, d, e, a, F2(c, d, e), words[offset + 4], 0xca62c1d6);
    }
    r := Registers(a, b, c, d, e);
  }

  /** The words of a block, the first of the schedule. */
  method LoadWords(data: seq<Byte>) returns (words: array<Word>)
    requires |data| == 64
    ensures fresh(words) && words.Length == 80 && Scheduled(words, BigWords(data), 16)
  {
    hide Little;
    words := new Word[80];
    for i := 0 to 16
      invariant Scheduled(words, BigWords(data), i)
    {
      words[i] := Big(data[4 * i], data[4 * i + 1], data[4 * i + 2], data[4 * i + 3]);
    }
  }

  method Extend(words: array<Word>, ghost block: seq<Word>)
    requires words.Length == 80 && |block| == 16 && Scheduled(words, block, 16)
    modifies words
    ensures Scheduled(words, block, 80)
  {
    hide Xor, RotateLeft;
    for i := 16 to 80
      invariant Scheduled(words, block, i)
    {
      words[i] := RotateLeft(Xor(Xor(Xor(words[i - 3], words[i - 8]), words[i - 14]), words[i - 16]), 1);
    }
  }

  method AllRounds(start: Registers, data: seq<Byte>) returns (v: Registers)
    requires |data| == 64
    ensures v == Rounds(start, BigWords(data), 80)
  {
    hide Rounds, W, BigWords, Scheduled;
    ghost var block := BigWords(data);
    var words := LoadWords(data);
    Extend(words, block);
    RoundsStart(start, block);
    v := FirstRound(start, words, start, block);
    v := SecondRound(v, words, start, block);
    v := ThirdRound(v, words, start, block);
    v := FourthRound(v, words, start, block);
  }

  /** Mixes one block into the hash. */
  method ProcessBlock(hash: array<Word>, data: seq<Byte>)
    requires hash.Length == 5 && |data| == 64
    modifies hash
    ensures hash[..] == Compress(old(hash[..]), data)
  {
    hide Rounds, BigWords, Add;
    var v := AllRounds(Registers(hash[0], hash[1], hash[2], hash[3], hash[4]), data);
    hash[0] := Add(hash[0], v.a);
    hash[1] := Add(hash[1], v.b);
    hash[2] := Add(hash[2], v.c);
    hash[3] := Add(hash[3], v.d);
    hash[4] := Add(hash[4], v.e);
  }
}
