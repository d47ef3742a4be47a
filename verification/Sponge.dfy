/** The sponge around Keccak-f: Keccak and SHA-3 as streams, against padding and absorbing the whole message. */
module Sponge {
  import opened Blocks
  import opened Bytes
  import opened LongBits
  import opened Longs
  import opened Modulo
  import opened KeccakF

  /** The largest block, that of the 224-bit digest. */
  const MaxBlockSize := 144

  /** The suffix byte: the first byte of the padding, before its last bit is set. */
  const KeccakSuffix: Byte := 0x01
  const Sha3Suffix: Byte := 0x06

  ghost predicate IsDigestSize(bits: nat) {
    bits == 224 || bits == 256 || bits == 384 || bits == 512
  }

  // ------------------------------------------------------------ absorbing

  /** The state with a block mixed into its first lanes. */
  function Mix(a: State, block: seq<Byte>): State {
    seq(StateSize, i requires 0 <= i < StateSize => MixLane(a, block, i))
  }

  function MixLane(a: State, block: seq<Byte>, i: nat): Lane
    requires i < StateSize
  {
    if 8 * i + 8 <= |block| then Xor(a[i], LongOf(block[8 * i..8 * i + 8])) else a[i]
  }

  /** A block is mixed in bit by bit: bit z of lane i with bit 64i + z of the block. */
  lemma MixBits(a: State, block: seq<Byte>, i: nat, z: nat)
    requires i < StateSize && z < 64 && 8 * i + 8 <= |block|
    ensures LaneBits(Mix(a, block)[i])[z] <==> LaneBits(a[i])[z] != ByteBit(block[8 * i + z / 8], z % 8)
  {
    hide LowLongBits, Bits, ByteBit, Xor, LongOf;
    var b := block[8 * i..8 * i + 8];
    LongOfBytes(b);
    BitsAt(b, z);
    XorBits(64, a[i], LongOf(b));
  }

  function AbsorbBlock(a: State, block: seq<Byte>): State {
    Permuted(Mix(a, block), Rounds)
  }

  /** The state after every whole block of the data; what is left is not used. */
  function Absorb(a: State, rate: nat, data: seq<Byte>): State
    requires rate > 0
    decreases |data|
  {
    if |data| < rate then a else Absorb(AbsorbBlock(a, data[..rate]), rate, data[rate..])
  }

  /** Absorbing goes on from the state and the tail alone. */
  lemma {:induction false} AbsorbPlus(a: State, rate: nat, m: seq<Byte>, d: seq<Byte>)
    requires rate > 0
    ensures Absorb(a, rate, m + d) == Absorb(Absorb(a, rate, m), rate, Tail(rate, m) + d)
    ensures Tail(rate, m + d) == Tail(rate, Tail(rate, m) + d)
    decreases |m|
  {
    hide AbsorbBlock;
    if |m| >= rate {
      assert (m + d)[..rate] == m[..rate] && (m + d)[rate..] == m[rate..] + d;
      AbsorbPlus(AbsorbBlock(a, m[..rate]), rate, m[rate..], d);
    }
  }

  // ------------------------------------------------------------ padding

  /** The padding of a message whose last n bytes fill no block: a suffix byte, zeros, and one bit at the very end. */
  function Padding(n: nat, rate: nat, suffix: Byte): (p: seq<Byte>)
    requires n < rate
    ensures |p| == rate - n
  {
    if n + 1 == rate then [suffix | 0x80] else [suffix] + seq(rate - n - 2, i => 0) + [0x80]
  }

  function Padded(message: seq<Byte>, rate: nat, suffix: Byte): seq<Byte>
    requires rate > 0
  {
    message + Padding(|Tail(rate, message)|, rate, suffix)
  }

  /** The bits that the suffix byte puts before the padding proper. */
  function DomainBits(suffix: Byte): seq<bool> {
    if suffix == Sha3Suffix then [false, true] else []
  }

  /** The padding rule 10*1 for blocks of x bits behind m bits. */
  function Pad101(x: nat, m: nat): seq<bool>
    requires x > 0
  {
    [true] + seq((0 - m - 2) % x, i => false) + [true]
  }

  lemma {:induction false} ZeroBits(n: nat)
    ensures Bits(seq(n, i => 0)) == Falses(8 * n)
  {
    var zeros: seq<Byte> := seq(n, i => 0);
    if n > 0 {
      var fewer: seq<Byte> := seq(n - 1, i => 0);
      assert zeros[1..] == fewer;
      ZeroBits(n - 1);
      ZeroByte();
    }
  }

  lemma SuffixBytes()
    ensures LowBits(8, 0x01) == [true] + Falses(7)
    ensures LowBits(8, 0x06) == [false, true] + [true] + Falses(5)
  {
    assert LowBits(5, 0) == Falses(5) && LowBits(7, 0) == Falses(7);
    assert LowBits(6, 0x01) == [true] + LowBits(5, 0);
    assert LowBits(7, 0x03) == [true] + LowBits(6, 0x01);
  }

  lemma BothEnds()
    ensures LowBits(8, 0x81) == [true] + Falses(6) + [true]
    ensures LowBits(8, 0x86) == [false, true] + [true] + Falses(4) + [true]
  {
    HighBit();
    assert LowBits(6, 0x20) == [false] + LowBits(5, 0x10);
    assert LowBits(7, 0x40) == [false] + LowBits(6, 0x20);
    assert LowBits(6, 0x21) == [true] + LowBits(5, 0x10);
    assert LowBits(7, 0x43) == [true] + LowBits(6, 0x21);
  }

  /** The bits of a byte one by one. */
  lemma BitsOfByte(b: Byte)
    ensures Bits([b]) == LowBits(8, b as Word)
  {
    assert [b][1..] == [];
  }

  lemma LongPadding(n: nat, suffix: Byte)
    ensures Bits([suffix] + seq(n, i => 0) + [0x80]) == LowBits(8, suffix as Word) + Falses(8 * n) + LowBits(8, 0x80)
  {
    hide Bits, LowBits;
    var zeros: seq<Byte> := seq(n, i => 0);
    BitsPlus([suffix] + zeros, [0x80]);
    BitsPlus([suffix], zeros);
    BitsOfByte(suffix);
    BitsOfByte(0x80);
    ZeroBits(n);
  }

  /** The padding bytes are, bit for bit, the domain bits followed by the rule 10*1. */
  lemma PaddingBits(n: nat, rate: nat, suffix: Byte)
    requires n < rate && (suffix == KeccakSuffix || suffix == Sha3Suffix)
    ensures Bits(Padding(n, rate, suffix)) == DomainBits(suffix) + [true] + Falses(8 * (rate - n) - 2 - |DomainBits(suffix)|) + [true]
  {
    hide Bits, LowBits;
    SuffixBytes();
    BothEnds();
    EndByte();
    if n + 1 == rate {
      BitsOfByte(suffix | 0x80);
    } else {
      LongPadding(rate - n - 2, suffix);
    }
  }

  lemma Octets(rate: nat, q: nat)
    ensures (8 * rate) * (0 - q - 1) == 0 - 8 * (rate * q) - 8 * rate
  {
  }

  /** Where the message ends in its last block, in bits. */
  lemma PadLength(message: seq<Byte>, rate: nat, m: nat)
    requires rate > 0 && m <= 2 && (m == 0 || m == 2)
    ensures var n := |Tail(rate, message)|; n < rate && (0 - (8 * |message| + m) - 2) % (8 * rate) == 8 * (rate - n) - 2 - m
  {
    TailLength(rate, message);
    var q, n := |message| / rate, |message| % rate;
    assert |message| == rate * q + n;
    Octets(rate, q);
    ModuloIs(0 - (8 * |message| + m) - 2, 8 * rate, 0 - q - 1, 8 * (rate - n) - 2 - m);
  }

  /** Main statement on padding: the padded bytes are the message bits, the domain bits and the rule 10*1. */
  lemma PaddedBits(message: seq<Byte>, rate: nat, suffix: Byte)
    requires rate > 0 && (suffix == KeccakSuffix || suffix == Sha3Suffix)
    ensures var bits := Bits(message) + DomainBits(suffix);
      Bits(Padded(message, rate, suffix)) == bits + Pad101(8 * rate, |bits|)
    ensures |Padded(message, rate, suffix)| % rate == 0
  {
    hide Bits, Padding, Tail;
    var n := |Tail(rate, message)|;
    BitsPlus(message, Padding(n, rate, suffix));
    PaddingBits(n, rate, suffix);
    PadLength(message, rate, |DomainBits(suffix)|);
    TailLength(rate, message);
    var q := |message| / rate;
    assert |message| + rate - n == rate * (q + 1) + 0;
    ModuloIs(|message| + rate - n, rate, q + 1, 0);
  }


  // ------------------------------------------------------------ the digest

  function Zero(): State {
    seq(StateSize, i => 0)
  }

  /** The first bytes of the state. */
  function Squeeze(a: State, size: nat): (digest: seq<Byte>)
    requires size <= 200
    ensures |digest| == size
  {
    seq(size, k requires 0 <= k < size => LongByte(a[k / 8], k % 8))
  }

  /** The digest is the front of the state: bit 64i + z is bit z of lane i. */
  lemma SqueezeBits(a: State, size: nat, k: nat, z: nat)
    requires k < size <= 200 && z < 8
    ensures ByteBit(Squeeze(a, size)[k], z) <==> LaneBits(a[k / 8])[8 * (k % 8) + z]
  {
    hide LaneBits, ByteBit, LongByte;
    LongByteBits(a[k / 8], k % 8, z);
  }

  function BlockSize(bits: nat): (size: nat)
    requires IsDigestSize(bits)
    ensures 72 <= size <= MaxBlockSize && size % 8 == 0
    ensures 8 * size + 2 * bits == 64 * StateSize
  {
    200 - 2 * (bits / 8)
  }

  /** The digest of a message: the padded message absorbed from the zero state, and the first bits of the result. */
  function Digest(message: seq<Byte>, bits: nat, suffix: Byte): seq<Byte>
    requires IsDigestSize(bits)
  {
    Squeeze(Absorb(Zero(), BlockSize(bits), Padded(message, BlockSize(bits), suffix)), bits / 8)
  }

  /** The last block: what is left of the message and its padding. */
  function LastBlock(tail: seq<Byte>, rate: nat, suffix: Byte): (block: seq<Byte>)
    requires |tail| < rate
    ensures |block| == rate
  {
    tail + Padding(|tail|, rate, suffix)
  }

  /** Absorbing the padded message is absorbing the last block after the whole ones. */
  lemma AbsorbLast(message: seq<Byte>, rate: nat, suffix: Byte)
    requires rate > 0
    ensures Absorb(Zero(), rate, Padded(message, rate, suffix))
         == AbsorbBlock(Absorb(Zero(), rate, message), LastBlock(Tail(rate, message), rate, suffix))
  {
    hide AbsorbBlock, Padding;
    var tail := Tail(rate, message);
    AbsorbPlus(Zero(), rate, message, Padding(|tail|, rate, suffix));
    var last, before := LastBlock(tail, rate, suffix), Absorb(Zero(), rate, message);
    assert last[..rate] == last && last[rate..] == [];
    assert Absorb(before, rate, last) == Absorb(AbsorbBlock(before, last), rate, []);
  }

  // ------------------------------------------------------------ the stream

  method MixInPlace(h: array<Lane>, block: seq<Byte>)
    requires h.Length == StateSize && |block| <= MaxBlockSize && |block| % 8 == 0
    modifies h
    ensures h[..] == Mix(old(h[..]), block)
  {
    hide Xor, LongOf;
    ghost var a := h[..];
    for i := 0 to |block| / 8
      invariant forall k :: 0 <= k < i ==> h[k] == MixLane(a, block, k)
      invariant forall k :: i <= k < StateSize ==> h[k] == a[k]
    {
      h[i] := Xor(h[i], LongOf(block[8 * i..8 * i + 8]));
    }
    forall k | 0 <= k < StateSize ensures h[k] == MixLane(a, block, k) {
    }
  }

  /** State a with the bytes held back stands for message m. */
  ghost predicate StandsFor(a: State, held: seq<Byte>, rate: nat, m: seq<Byte>)
    requires rate > 0
  {
    Absorb(Zero(), rate, m) == Absorb(a, rate, held) && Tail(rate, m) == Tail(rate, held)
  }

  lemma HoldMore(m: seq<Byte>, rate: nat, data: seq<Byte>)
    requires rate > 0
    ensures StandsFor(Absorb(Zero(), rate, m), Tail(rate, m) + data, rate, m + data)
  {
    AbsorbPlus(Zero(), rate, m, data);
  }

  lemma BlockDone(a: State, held: seq<Byte>, rate: nat, m: seq<Byte>)
    requires rate > 0 && StandsFor(a, held, rate, m) && |held| >= rate
    ensures StandsFor(AbsorbBlock(a, held[..rate]), held[rate..], rate, m)
  {
    hide AbsorbBlock;
  }

  lemma AllDone(a: State, held: seq<Byte>, rate: nat, m: seq<Byte>)
    requires rate > 0 && StandsFor(a, held, rate, m) && |held| < rate
    ensures a == Absorb(Zero(), rate, m) && held == Tail(rate, m)
  {
    assert Absorb(a, rate, held) == a;
  }

  /** Both hashes: they differ in the suffix byte alone. */
  class Hasher {
    const bits: nat
    const blockSize: nat
    const suffix: Byte
    const hash: array<Lane>
    const buffer: array<Byte>
    var bufferSize: nat
    /** The bytes added since the last reset. */
    ghost var message: seq<Byte>

    ghost predicate Shaped()
      reads this
    {
      && IsDigestSize(bits) && blockSize == BlockSize(bits)
      && hash.Length == StateSize && buffer.Length == MaxBlockSize
    }

    /** Whole blocks are absorbed, the rest waits in the buffer and never fills a block. */
    ghost predicate Valid()
      reads this, hash, buffer
    {
      && Shaped()
      && bufferSize < blockSize
      && hash[..] == Absorb(Zero(), blockSize, message)
      && buffer[..bufferSize] == Tail(blockSize, message)
    }

    constructor (bits: nat, suffix: Byte)
      requires IsDigestSize(bits)
      ensures Valid() && message == [] && this.bits == bits && this.suffix == suffix
      ensures fresh(hash) && fresh(buffer)
    {
      this.bits := bits;
      this.suffix := suffix;
      blockSize := 200 - 2 * (bits / 8);
      hash := new Lane[StateSize](i => 0);
      buffer := new Byte[MaxBlockSize];
      bufferSize := 0;
      message := [];
      new;
      assert hash[..] == Zero();
    }

    method Reset()
      requires Shaped()
      modifies this, hash
      ensures Valid() && message == []
    {
      for i := 0 to StateSize
        invariant Shaped()
        invariant forall k :: 0 <= k < i ==> hash[k] == 0
      {
        hash[i] := 0;
      }
      bufferSize := 0;
      message := [];
      assert hash[..] == Zero();
    }

    method ProcessBlock(block: seq<Byte>)
      requires Shaped() && |block| == blockSize
      modifies hash
      ensures hash[..] == AbsorbBlock(old(hash[..]), block)
    {
      MixInPlace(hash, block);
      Permute(hash);
    }

    /** The buffered bytes and the data not yet read. */
    ghost function Held(data: seq<Byte>, at: nat): seq<Byte>
      requires Shaped() && bufferSize <= blockSize && at <= |data|
      reads this, buffer
    {
      buffer[..bufferSize] + data[at..]
    }

    ghost predicate Adding(data: seq<Byte>, at: nat, m: seq<Byte>)
      reads this, hash, buffer
    {
      Shaped() && bufferSize <= blockSize && at <= |data| && StandsFor(hash[..], Held(data, at), blockSize, m)
    }

    /** Puts the next byte of the data into the buffer. */
    method Keep(data: seq<Byte>, at: nat, ghost m: seq<Byte>)
      requires Adding(data, at, m) && at < |data| && bufferSize < blockSize
      modifies this`bufferSize, buffer
      ensures Adding(data, at + 1, m) && bufferSize == old(bufferSize) + 1
    {
      hide StandsFor;
      ghost var held := Held(data, at);
      buffer[bufferSize] := data[at];
      bufferSize := bufferSize + 1;
      assert Held(data, at + 1) == held;
    }

    /** A full buffer is absorbed and emptied. */
    method AbsorbBuffer(data: seq<Byte>, at: nat, ghost m: seq<Byte>)
      requires Adding(data, at, m) && bufferSize == blockSize
      modifies this`bufferSize, hash
      ensures Adding(data, at, m) && bufferSize == 0
    {
      hide StandsFor, AbsorbBlock;
      ghost var held := Held(data, at);
      assert held[..blockSize] == buffer[..blockSize] && held[blockSize..] == data[at..];
      BlockDone(hash[..], held, blockSize, m);
      ProcessBlock(buffer[..blockSize]);
      bufferSize := 0;
      assert Held(data, at) == data[at..];
    }

    /** A whole block of the data is absorbed where it stands. */
    method AbsorbNext(data: seq<Byte>, at: nat, ghost m: seq<Byte>)
      requires Adding(data, at, m) && bufferSize == 0 && at + blockSize <= |data|
      modifies hash
      ensures Adding(data, at + blockSize, m)
    {
      hide StandsFor, AbsorbBlock;
      ghost var held := Held(data, at);
      assert held == data[at..] && held[..blockSize] == data[at..at + blockSize] && held[blockSize..] == data[at + blockSize..];
      BlockDone(hash[..], held, blockSize, m);
      ProcessBlock(data[at..at + blockSize]);
      assert Held(data, at + blockSize) == data[at + blockSize..];
    }

    lemma Begins(data: seq<Byte>)
      requires Valid()
      ensures Adding(data, 0, message + data)
    {
      HoldMore(message, blockSize, data);
      assert Held(data, 0) == buffer[..bufferSize] + data;
    }

    lemma Ends(data: seq<Byte>, m: seq<Byte>)
      requires Adding(data, |data|, m) && bufferSize < blockSize
      ensures hash[..] == Absorb(Zero(), blockSize, m) && buffer[..bufferSize] == Tail(blockSize, m)
    {
      hide Absorb, Tail, StandsFor;
      assert Held(data, |data|) == buffer[..bufferSize];
      AllDone(hash[..], buffer[..bufferSize], blockSize, m);
    }

    /** Fills up a buffer that was begun and absorbs it when it is full. */
    method FillUp(data: seq<Byte>, ghost m: seq<Byte>) returns (at: nat)
      requires Adding(data, 0, m) && bufferSize < blockSize
      modifies this`bufferSize, buffer, hash
      ensures Adding(data, at, m) && bufferSize < blockSize
      ensures at < |data| ==> bufferSize == 0
    {
      hide StandsFor, Held;
      at := 0;
      if bufferSize > 0 {
        while at < |data| && bufferSize < blockSize
          invariant Adding(data, at, m) && 0 < bufferSize
        {
          Keep(data, at, m);
          at := at + 1;
        }
      }
      if bufferSize == blockSize {
        AbsorbBuffer(data, at, m);
      }
    }

    /** Absorbs the whole blocks of the data. */
    method AbsorbWhole(data: seq<Byte>, start: nat, ghost m: seq<Byte>) returns (at: nat)
      requires Adding(data, start, m) && bufferSize < blockSize && (start < |data| ==> bufferSize == 0)
      modifies hash
      ensures Adding(data, at, m) && |data| - at < blockSize
      ensures at < |data| ==> bufferSize == 0
    {
      hide StandsFor, Held;
      at := start;
      while |data| - at >= blockSize
        invariant Adding(data, at, m)
        invariant at < |data| ==> bufferSize == 0
      {
        AbsorbNext(data, at, m);
        at := at + blockSize;
      }
    }

    /** Puts the rest of the data into the buffer. */
    method KeepRest(data: seq<Byte>, start: nat, ghost m: seq<Byte>)
      requires Adding(data, start, m) && bufferSize + |data| - start < blockSize
      modifies this`bufferSize, buffer
      ensures Adding(data, |data|, m) && bufferSize < blockSize
    {
      hide StandsFor, Held;
      var at := start;
      while at < |data|
        invariant Adding(data, at, m) && bufferSize + |data| - at < blockSize
      {
        Keep(data, at, m);
        at := at + 1;
      }
    }

    /** Adds any number of bytes. */
    method Add(data: seq<Byte>)
      requires Valid()
      modifies this, hash, buffer
      ensures Valid() && message == old(message) + data
    {
      hide StandsFor, Held, Absorb, Tail;
      ghost var m := message + data;
      Begins(data);
      var at := FillUp(data, m);
      at := AbsorbWhole(data, at, m);
      KeepRest(data, at, m);
      Ends(data, m);
      message := m;
    }

    /** Pads the rest of the message in the buffer and absorbs it. */
    method ProcessBuffer()
      requires Shaped() && bufferSize < blockSize
      modifies hash, buffer
      ensures hash[..] == AbsorbBlock(old(hash[..]), LastBlock(old(buffer[..bufferSize]), blockSize, suffix))
      ensures buffer[..bufferSize] == old(buffer[..bufferSize])
    {
      ghost var tail := buffer[..bufferSize];
      Pad();
      ProcessBlock(buffer[..blockSize]);
    }

    method Pad()
      requires Shaped() && bufferSize < blockSize
      modifies buffer
      ensures buffer[..blockSize] == LastBlock(old(buffer[..bufferSize]), blockSize, suffix)
      ensures buffer[..bufferSize] == old(buffer[..bufferSize])
    {
      ghost var tail := buffer[..bufferSize];
      var offset := bufferSize;
      buffer[offset] := suffix;
      offset := offset + 1;
      while offset < blockSize
        invariant bufferSize < offset <= blockSize
        invariant buffer[..bufferSize] == tail
        invariant buffer[bufferSize] == suffix
        invariant forall k :: bufferSize < k < offset ==> buffer[k] == 0
      {
        buffer[offset] := 0;
        offset := offset + 1;
      }
      buffer[blockSize - 1] := buffer[blockSize - 1] | 0x80;
    }

    /** The digest of the bytes added so far; the stream goes on undisturbed. */
    method GetHash() returns (result: seq<Byte>)
      requires Valid()
      modifies hash, buffer
      ensures Valid() && result == Digest(message, bits, suffix)
    {
      hide Absorb, Tail, AbsorbBlock, Squeeze, LastBlock, Padded;
      AbsorbLast(message, blockSize, suffix);
      var oldHash := hash[..];
      ProcessBuffer();
      result := Output(hash[..], bits);
      Restore(oldHash);
    }

    method Restore(oldHash: seq<Lane>)
      requires Shaped() && |oldHash| == StateSize
      modifies hash
      ensures hash[..] == oldHash
    {
      for i := 0 to StateSize
        invariant forall k :: 0 <= k < i ==> hash[k] == oldHash[k]
      {
        hash[i] := oldHash[i];
      }
    }

    /** The digest of one block of memory. */
    method Compute(data: seq<Byte>) returns (result: seq<Byte>)
      requires Valid()
      modifies this, hash, buffer
      ensures Valid() && message == data && result == Digest(data, bits, suffix)
    {
      Reset();
      Add(data);
      assert [] + data == data;
      result := GetHash();
    }
  }

  /** The bytes of the digest: whole lanes first, then the half lane of the 224-bit digest. */
  method Output(hash: State, bits: nat) returns (result: seq<Byte>)
    requires IsDigestSize(bits)
    ensures result == Squeeze(hash, bits / 8)
  {
    hide LongByte, Squeezed;
    var hashLength := bits / 64;
    result := [];
    NothingSqueezed(hash);
    for i := 0 to hashLength
      invariant |result| == 8 * i && Squeezed(hash, result)
    {
      for j := 0 to 8
        invariant |result| == 8 * i + j && Squeezed(hash, result)
      {
        SqueezedOne(hash, result, i, j);
        result := result + [LongByte(hash[i], j)];
      }
    }
    var remainder := bits - hashLength * 64;
    var processed := 0;
    while processed < remainder
      invariant processed % 8 == 0 && |result| == 8 * hashLength + processed / 8 && processed <= remainder
      invariant Squeezed(hash, result)
    {
      SqueezedOne(hash, result, hashLength, processed / 8);
      result := result + [LongByte(hash[hashLength], processed / 8)];
      processed := processed + 8;
    }
    AllSqueezed(hash, result);
  }

  /** The bytes so far are the first bytes of the state. */
  ghost predicate Squeezed(hash: State, result: seq<Byte>) {
    forall k :: 0 <= k < |result| <= 200 ==> result[k] == LongByte(hash[k / 8], k % 8)
  }

  lemma NothingSqueezed(hash: State)
    ensures Squeezed(hash, [])
  {
  }

  lemma SqueezedOne(hash: State, result: seq<Byte>, i: nat, j: nat)
    requires Squeezed(hash, result) && |result| == 8 * i + j && i < StateSize && j < 8
    ensures Squeezed(hash, result + [LongByte(hash[i], j)])
  {
    hide LongByte;
  }

  lemma AllSqueezed(hash: State, result: seq<Byte>)
    requires Squeezed(hash, result) && |result| <= 200
    ensures result == Squeeze(hash, |result|)
  {
    hide LongByte;
  }
}
