/** 32-bit words: the operations of the hashes, each under a name that proofs by equations can hide. */
module Words {
  import opened Bytes

  function Xor(a: Word, b: Word): Word {
    a ^ b
  }

  function And(a: Word, b: Word): Word {
    a & b
  }

  function Or(a: Word, b: Word): Word {
    a | b
  }

  function Not(a: Word): Word {
    !a
  }

  /** The number with the given binary digits, the lowest first. */
  function Value(bits: seq<bool>): nat {
    if bits == [] then 0 else One(bits[0]) + 2 * Value(bits[1..])
  }

  function One(bit: bool): nat {
    if bit then 1 else 0
  }

  function ValueOf(w: Word): nat {
    Value(LowBits(32, w))
  }

  /** A word of binary digits: one more, as the lowest. */
  function Join(up: Word, low: bool): Word {
    (up << 1) | (if low then 1 else 0)
  }

  /** The word that a number leaves, modulo 2^32. */
  function WordOf(x: nat): Word {
    if x == 0 then 0 else Join(WordOf(x / 2), x % 2 == 1)
  }

  /** Addition modulo 2^32. */
  function Add(a: Word, b: Word): Word {
    WordOf(ValueOf(a) + ValueOf(b))
  }

  function Twice(w: Word): Word {
    w << 1
  }

  /** w << n, place by place. */
  function Up(w: Word, n: nat): Word {
    if n == 0 then w else Twice(Up(w, n - 1))
  }

  /** w >> n, place by place. */
  function Down(w: Word, n: nat): Word {
    if n == 0 then w else Half(Down(w, n - 1))
  }

  function RotateLeft(a: Word, c: nat): Word
    requires 0 < c < 32
  {
    Or(Up(a, c), Down(a, 32 - c))
  }

  function RotateRight(a: Word, c: nat): Word
    requires 0 < c < 32
  {
    Or(Down(a, c), Up(a, 32 - c))
  }

  function ShiftRight(a: Word, c: nat): Word
    requires 0 < c < 32
  {
    Down(a, c)
  }

  /** Choice: y where x is set, z where it is clear. */
  function Ch(x: Word, y: Word, z: Word): Word {
    (x & y) ^ (!x & z)
  }

  function Parity(x: Word, y: Word, z: Word): Word {
    x ^ y ^ z
  }

  /** Majority of three bits. */
  function Maj(x: Word, y: Word, z: Word): Word {
    (x & y) ^ (x & z) ^ (y & z)
  }

  /** Choice with one operation less. */
  lemma ChRewritten(x: Word, y: Word, z: Word)
    ensures z ^ (x & (y ^ z)) == (x & y) ^ (!x & z)
  {
  }

  /** Majority by or, and with two operations less. */
  lemma MajRewritten(x: Word, y: Word, z: Word)
    ensures (x & y) | (x & z) | (y & z) == (x & y) ^ (x & z) ^ (y & z)
    ensures ((x | y) & z) | (x & y) == (x & y) ^ (x & z) ^ (y & z)
  {
  }

  lemma AddCommutes(a: Word, b: Word)
    ensures Add(a, b) == Add(b, a)
  {
  }

  /** Four bytes read as one word, the first byte lowest. */
  function Little(b0: Byte, b1: Byte, b2: Byte, b3: Byte): Word {
    (b0 as Word) | (b1 as Word << 8) | (b2 as Word << 16) | (b3 as Word << 24)
  }

  /** Four bytes read as one word, the first byte highest. */
  function Big(b0: Byte, b1: Byte, b2: Byte, b3: Byte): Word {
    Little(b3, b2, b1, b0)
  }

  /** A 64-byte block as sixteen words. */
  function LittleWords(block: seq<Byte>): (words: seq<Word>)
    requires |block| == 64
    ensures |words| == 16
  {
    seq(16, i requires 0 <= i < 16 => Little(block[4 * i], block[4 * i + 1], block[4 * i + 2], block[4 * i + 3]))
  }

  function BigWords(block: seq<Byte>): (words: seq<Word>)
    requires |block| == 64
    ensures |words| == 16
  {
    seq(16, i requires 0 <= i < 16 => Big(block[4 * i], block[4 * i + 1], block[4 * i + 2], block[4 * i + 3]))
  }

  /** Byte k of a word, the lowest first. */
  function WordByte(w: Word, k: nat): Byte
    requires k < 4
  {
    match k
    case 0 => (w & 0xFF) as Byte
    case 1 => ((w >> 8) & 0xFF) as Byte
    case 2 => ((w >> 16) & 0xFF) as Byte
    case _ => ((w >> 24) & 0xFF) as Byte
  }

  lemma WordOfBytes(w: Word)
    ensures Little(WordByte(w, 0), WordByte(w, 1), WordByte(w, 2), WordByte(w, 3)) == w
  {
    hide WordByte;
    BytesOfWord(w);
    Joined(w);
  }

  lemma BytesOfWord(w: Word)
    ensures WordByte(w, 0) as Word == w & 0xFF && WordByte(w, 1) as Word == (w >> 8) & 0xFF
    ensures WordByte(w, 2) as Word == (w >> 16) & 0xFF && WordByte(w, 3) as Word == (w >> 24) & 0xFF
  {
  }

  lemma Joined(w: Word)
    ensures w == (w & 0xFF) | (((w >> 8) & 0xFF) << 8) | (((w >> 16) & 0xFF) << 16) | (((w >> 24) & 0xFF) << 24)
  {
  }
}
