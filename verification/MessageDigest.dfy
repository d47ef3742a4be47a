/** MD5, SHA-1 and SHA-256 as streams, against folding the block function over the padded message. */
module MessageDigest {
  import opened Blocks
  import opened Bytes
  import opened Numbers
  import opened WordBits
  import opened Words
  import Md5
  import Sha1
  import Sha256

  /** The three hashes share their buffering; they differ in the block function and in the order of bytes. */
  datatype Algorithm = MD5 | SHA1 | SHA256

  const BlockSize := 64

  function HashValues(algorithm: Algorithm): (n: nat)
    ensures n <= 8
  {
    match algorithm
    case MD5 => 4
    case SHA1 => 5
    case SHA256 => 8
  }

  type Hash = seq<Word>

  function InitialHash(algorithm: Algorithm): (hash: Hash)
    ensures |hash| == HashValues(algorithm)
  {
    match algorithm
    case MD5 => Md5.InitialHash
    case SHA1 => Sha1.InitialHash
    case SHA256 => Sha256.InitialHash
  }

  function Compress(algorithm: Algorithm, hash: Hash, block: seq<Byte>): (next: Hash)
    requires |hash| == HashValues(algorithm) && |block| == BlockSize
    ensures |next| == HashValues(algorithm)
  {
    match algorithm
    case MD5 => Md5.Compress(hash, block)
    case SHA1 => Sha1.Compress(hash, block)
    case SHA256 => Sha256.Compress(hash, block)
  }

  // ------------------------------------------------------------ folding

  /** The hash after every whole block of the data; what is left is not used. */
  function Fold(algorithm: Algorithm, hash: Hash, data: seq<Byte>): (next: Hash)
    requires |hash| == HashValues(algorithm)
    ensures |next| == HashValues(algorithm)
    decreases |data|
  {
    if |data| < BlockSize then hash
    else Fold(algorithm, Compress(algorithm, hash, data[..BlockSize]), data[BlockSize..])
  }

  /** Folding goes on from the hash and the tail alone. */
  lemma {:induction false} FoldPlus(algorithm: Algorithm, hash: Hash, m: seq<Byte>, d: seq<Byte>)
    requires |hash| == HashValues(algorithm)
    ensures Fold(algorithm, hash, m + d) == Fold(algorithm, Fold(algorithm, hash, m), Tail(BlockSize, m) + d)
    ensures Tail(BlockSize, m + d) == Tail(BlockSize, Tail(BlockSize, m) + d)
    decreases |m|
  {
    hide Compress;
    if |m| >= BlockSize {
      assert (m + d)[..BlockSize] == m[..BlockSize] && (m + d)[BlockSize..] == m[BlockSize..] + d;
      FoldPlus(algorithm, Compress(algorithm, hash, m[..BlockSize]), m[BlockSize..], d);
    }
  }

  /** One block and one more. */
  lemma FoldTwo(algorithm: Algorithm, hash: Hash, first: seq<Byte>, second: seq<Byte>)
    requires |hash| == HashValues(algorithm) && |first| == BlockSize && |second| == BlockSize
    ensures Fold(algorithm, hash, first) == Compress(algorithm, hash, first)
    ensures Fold(algorithm, hash, first + second) == Compress(algorithm, Compress(algorithm, hash, first), second)
  {
    hide Compress;
    assert first[..BlockSize] == first && first[BlockSize..] == [];
    assert second[..BlockSize] == second && second[BlockSize..] == [];
    assert (first + second)[..BlockSize] == first && (first + second)[BlockSize..] == second;
    var next := Compress(algorithm, hash, first);
    assert Fold(algorithm, next, second) == Fold(algorithm, Compress(algorithm, next, second), []);
  }

  // ------------------------------------------------------------ padding

  /** The length field: the number of bits modulo 2^64, in the byte order of the hash. */
  function LengthField(algorithm: Algorithm, numBytes: nat): (field: seq<Byte>)
    ensures |field| == 8
  {
    var msgBits := 8 * numBytes % TwoTo64;
    if algorithm == MD5 then LittleBytes(msgBits, 8) else BigBytes(msgBits, 8)
  }

  const TwoTo64 := 0x1_0000_0000_0000_0000

  /** Below 2^61 bytes the field is the exact number of bits. */
  lemma LengthExact(algorithm: Algorithm, numBytes: nat)
    requires numBytes < 0x2000_0000_0000_0000
    ensures var field := LengthField(algorithm, numBytes);
      (if algorithm == MD5 then LittleNumber(field) else BigNumber(field)) == 8 * numBytes
  {
    hide LittleBytes, LittleNumber, Reversed;
    Powers();
    LittleNumberOfBytes(8 * numBytes, 8);
    BigNumberOfBytes(8 * numBytes, 8);
  }

  /** Byte k of the field counts 256^k in MD5, and 256^(7 - k) in the others. */
  lemma LengthPlaces(algorithm: Algorithm, numBytes: nat, k: nat)
    requires k < 8
    ensures NumberOf(LengthField(algorithm, numBytes)[k])
      == 8 * numBytes % TwoTo64 / Power(if algorithm == MD5 then k else 7 - k) % 256
  {
    hide LittleBytes, BigBytes, NumberOf, Power;
    LittlePlace(8 * numBytes % TwoTo64, 8, k);
    BigPlace(8 * numBytes % TwoTo64, 8, k);
  }

  /** The number of zero bytes behind the first byte of padding, when n bytes fill no block. */
  function ZeroBytes(n: nat): nat
    requires n < BlockSize
  {
    if n < 56 then 55 - n else 119 - n
  }

  function Zeros(n: nat): (zeros: seq<Byte>)
    ensures |zeros| == n
  {
    seq(n, i => 0)
  }

  /** What is hashed behind the message: one bit, zeros, and the length field. */
  function Padding(n: nat, field: seq<Byte>): seq<Byte>
    requires n < BlockSize && |field| == 8
  {
    [0x80] + Zeros(ZeroBytes(n)) + field
  }

  function Padded(algorithm: Algorithm, message: seq<Byte>): seq<Byte> {
    message + Padding(|Tail(BlockSize, message)|, LengthField(algorithm, |message|))
  }

  /** The digest: the hash values after the padded message, in the byte order of the hash. */
  function Digest(algorithm: Algorithm, message: seq<Byte>): seq<Byte> {
    Output(algorithm, Fold(algorithm, InitialHash(algorithm), Padded(algorithm, message)))
  }

  function Output(algorithm: Algorithm, hash: Hash): (bytes: seq<Byte>)
    ensures |bytes| == 4 * |hash|
  {
    seq(4 * |hash|, k requires 0 <= k < 4 * |hash| => OutputByte(algorithm, hash[k / 4], k % 4))
  }

  function OutputByte(algorithm: Algorithm, w: Word, k: nat): Byte
    requires k < 4
  {
    WordByte(w, if algorithm == MD5 then k else 3 - k)
  }

  /** The words of a block: in MD5 the first byte of a word is its lowest, in the others its highest. */
  lemma BlockBits(block: seq<Byte>, i: nat, z: nat)
    requires |block| == BlockSize && i < 16 && z < 32
    ensures BitsOf(LittleWords(block)[i])[z] <==> ByteBit(block[4 * i + z / 8], z % 8)
    ensures BitsOf(BigWords(block)[i])[z] <==> ByteBit(block[4 * i + 3 - z / 8], z % 8)
  {
    hide BitsOf, ByteBit, Little, Big, LittleWords, BigWords;
    WordsAt(block, i);
    var b0, b1, b2, b3 := block[4 * i], block[4 * i + 1], block[4 * i + 2], block[4 * i + 3];
    LittleBits(b0, b1, b2, b3, z);
    BigBits(b0, b1, b2, b3, z);
    FourAt(block, i, z / 8);
    FourAt(block, i, 3 - z / 8);
  }

  lemma WordsAt(block: seq<Byte>, i: nat)
    requires |block| == BlockSize && i < 16
    ensures LittleWords(block)[i] == Little(block[4 * i], block[4 * i + 1], block[4 * i + 2], block[4 * i + 3])
    ensures BigWords(block)[i] == Big(block[4 * i], block[4 * i + 1], block[4 * i + 2], block[4 * i + 3])
  {
    hide Little, Big;
  }

  lemma FourAt(block: seq<Byte>, i: nat, j: nat)
    requires |block| == BlockSize && i < 16 && j < 4
    ensures [block[4 * i], block[4 * i + 1], block[4 * i + 2], block[4 * i + 3]][j] == block[4 * i + j]
  {
  }

  /** The digest: the bytes of each hash value, in MD5 the lowest first, in the others the highest first. */
  lemma OutputBits(algorithm: Algorithm, hash: Hash, k: nat, z: nat)
    requires k < 4 * |hash| && z < 8
    ensures ByteBit(Output(algorithm, hash)[k], z) <==>
      BitsOf(hash[k / 4])[8 * (if algorithm == MD5 then k % 4 else 3 - k % 4) + z]
  {
    hide BitsOf, ByteBit, WordByte;
    WordByteBits(hash[k / 4], if algorithm == MD5 then k % 4 else 3 - k % 4, z);
  }

  // ------------------------------------------------------------ padding, bit for bit

  /** The bits of a byte string, the high bit of each byte first. */
  function HighBits(data: seq<Byte>): (bits: seq<bool>)
    ensures |bits| == 8 * |data|
  {
    if data == [] then [] else HighFirst(LowBits(8, data[0] as Word)) + HighBits(data[1..])
  }

  function HighFirst(bits: seq<bool>): (r: seq<bool>)
    ensures |r| == |bits|
  {
    seq(|bits|, i requires 0 <= i < |bits| => bits[|bits| - 1 - i])
  }

  lemma {:induction false} HighBitsPlus(a: seq<Byte>, b: seq<Byte>)
    ensures HighBits(a + b) == HighBits(a) + HighBits(b)
  {
    hide LowBits, HighFirst;
    if a == [] {
      assert a + b == b;
    } else {
      assert (a + b)[1..] == a[1..] + b;
      HighBitsPlus(a[1..], b);
    }
  }

  lemma {:induction false} HighZeros(n: nat)
    ensures HighBits(Zeros(n)) == Falses(8 * n)
  {
    if n > 0 {
      assert Zeros(n)[1..] == Zeros(n - 1);
      HighZeros(n - 1);
      ZeroByte();
    }
  }

  lemma OneByte()
    ensures HighBits([0x80]) == [true] + Falses(7)
  {
    EndByte();
    assert [0x80 as Byte][1..] == [];
  }

  predicate Fits(n: nat, k: nat) {
    (n + 1 + k) % 512 == 448
  }

  /** The number of zero bits the standards prescribe for a message of n bits. */
  function ZeroBitCount(n: nat): (k: nat)
    ensures Fits(n, k)
    ensures forall j: nat :: j < k ==> !Fits(n, j)
  {
    if (n + 1) % 512 <= 448 then 448 - (n + 1) % 512 else 960 - (n + 1) % 512
  }

  lemma ZeroBytesAreBits(message: seq<Byte>)
    ensures 7 + 8 * ZeroBytes(|Tail(BlockSize, message)|) == ZeroBitCount(8 * |message|)
  {
    TailLength(BlockSize, message);
    ZeroCounts(|message| / 64, |message| % 64);
  }

  lemma ZeroCounts(q: nat, n: nat)
    requires n < 64
    ensures 7 + 8 * ZeroBytes(n) == ZeroBitCount(8 * (64 * q + n))
  {
    InBits(q, n);
  }

  lemma InBits(q: nat, n: nat)
    requires n < 64
    ensures (8 * (64 * q + n) + 1) % 512 == 8 * n + 1
  {
    assert 8 * (64 * q + n) + 1 == 512 * q + (8 * n + 1);
  }

  /** Main statement on padding: one set bit, the least number of zeros that leaves 448 modulo 512, and the length field. */
  lemma PaddedBits(algorithm: Algorithm, message: seq<Byte>)
    ensures HighBits(Padded(algorithm, message)) == HighBits(message) + [true] + Falses(ZeroBitCount(8 * |message|))
      + HighBits(LengthField(algorithm, |message|))
  {
    hide HighBits, ZeroBitCount, Fits, ZeroBytes, LengthField, Falses, Tail, Padded;
    PaddedBytes(algorithm, message);
    ZeroBytesAreBits(message);
  }

  lemma PaddedBytes(algorithm: Algorithm, message: seq<Byte>)
    ensures HighBits(Padded(algorithm, message)) == HighBits(message) + [true]
      + Falses(7 + 8 * ZeroBytes(|Tail(BlockSize, message)|)) + HighBits(LengthField(algorithm, |message|))
  {
    hide HighBits, ZeroBytes, Padding, LengthField, Falses, Tail;
    var n, field := |Tail(BlockSize, message)|, LengthField(algorithm, |message|);
    HighBitsPlus(message, Padding(n, field));
    PaddingBits(n, field);
    Regroup(HighBits(message), [true], Falses(7 + 8 * ZeroBytes(n)), HighBits(field));
  }

  lemma Regroup<T>(a: seq<T>, b: seq<T>, c: seq<T>, d: seq<T>)
    ensures a + (b + c + d) == a + b + c + d
  {
  }

  lemma PaddingBits(n: nat, field: seq<Byte>)
    requires n < BlockSize && |field| == 8
    ensures HighBits(Padding(n, field)) == [true] + Falses(7 + 8 * ZeroBytes(n)) + HighBits(field)
  {
    hide HighBits, ZeroBytes, Zeros;
    var zeros := Zeros(ZeroBytes(n));
    HighBitsPlus([0x80] + zeros, field);
    HighBitsPlus([0x80], zeros);
    OneByte();
    HighZeros(ZeroBytes(n));
    assert Falses(7) + Falses(8 * ZeroBytes(n)) == Falses(7 + 8 * ZeroBytes(n));
  }

  // ------------------------------------------------------------ the stream

  /** The hash with the bytes held back stands for message m. */
  ghost predicate StandsFor(algorithm: Algorithm, hash: Hash, held: seq<Byte>, m: seq<Byte>) {
    && |hash| == HashValues(algorithm)
    && Fold(algorithm, InitialHash(algorithm), m) == Fold(algorithm, hash, held)
    && Tail(BlockSize, m) == Tail(BlockSize, held)
  }

  lemma HoldMore(algorithm: Algorithm, m: seq<Byte>, data: seq<Byte>)
    ensures StandsFor(algorithm, Fold(algorithm, InitialHash(algorithm), m), Tail(BlockSize, m) + data, m + data)
  {
    FoldPlus(algorithm, InitialHash(algorithm), m, data);
  }

  lemma BlockDone(algorithm: Algorithm, hash: Hash, held: seq<Byte>, m: seq<Byte>)
    requires StandsFor(algorithm, hash, held, m) && |held| >= BlockSize
    ensures StandsFor(algorithm, Compress(algorithm, hash, held[..BlockSize]), held[BlockSize..], m)
  {
    hide Compress;
  }

  lemma AllDone(algorithm: Algorithm, hash: Hash, held: seq<Byte>, m: seq<Byte>)
    requires StandsFor(algorithm, hash, held, m) && |held| < BlockSize
    ensures hash == Fold(algorithm, InitialHash(algorithm), m) && held == Tail(BlockSize, m)
  {
    hide Compress;
    assert Fold(algorithm, hash, held) == hash;
  }

  lemma Counted(before: nat, n: nat, done: nat)
    requires n == done % TwoTo64
    ensures (n + before) % TwoTo64 == (done + before) % TwoTo64
  {
  }

  lemma FieldPlaces(algorithm: Algorithm, msgBits: nat)
    ensures var field := if algorithm == MD5 then LittleBytes(msgBits, 8) else BigBytes(msgBits, 8);
      forall k {:trigger field[k]} :: 0 <= k < 8 ==> NumberOf(field[k]) == msgBits / Power(if algorithm == MD5 then k else 7 - k) % 256
  {
    hide LittleBytes, BigBytes, NumberOf, Power;
    forall k | 0 <= k < 8
      ensures NumberOf(LittleBytes(msgBits, 8)[k]) == msgBits / Power(k) % 256
      ensures NumberOf(BigBytes(msgBits, 8)[k]) == msgBits / Power(7 - k) % 256
    {
      LittlePlace(msgBits, 8, k);
      BigPlace(msgBits, 8, k);
    }
  }

  class Hasher {
    const algorithm: Algorithm
    const hash: array<Word>
    const buffer: array<Byte>
    /** The bytes of the blocks processed so far, as a 64-bit count. */
    var numBytes: nat
    var bufferSize: nat
    /** The bytes added since the last reset. */
    ghost var message: seq<Byte>

    ghost predicate Shaped()
      reads this
    {
      hash.Length == HashValues(algorithm) && buffer.Length == BlockSize
    }

    /** Whole blocks are folded in, the rest waits in the buffer and never fills a block. */
    ghost predicate Valid()
      reads this, hash, buffer
    {
      && Shaped()
      && bufferSize < BlockSize
      && hash[..] == Fold(algorithm, InitialHash(algorithm), message)
      && buffer[..bufferSize] == Tail(BlockSize, message)
      && numBytes == (|message| - bufferSize) % TwoTo64
    }

    constructor (algorithm: Algorithm)
      ensures Valid() && message == [] && this.algorithm == algorithm
      ensures fresh(hash) && fresh(buffer)
    {
      hide Fold;
      var initial := InitialHash(algorithm);
      FoldNothing(algorithm);
      this.algorithm := algorithm;
      hash := new Word[HashValues(algorithm)](i requires 0 <= i < |initial| => initial[i]);
      buffer := new Byte[BlockSize];
      numBytes := 0;
      bufferSize := 0;
      message := [];
      new;
      assert hash[..] == initial;
    }

    method Reset()
      requires Shaped()
      modifies this, hash
      ensures Valid() && message == []
    {
      hide Fold;
      numBytes := 0;
      bufferSize := 0;
      message := [];
      Restore(InitialHash(algorithm));
      FoldNothing(algorithm);
    }

    method Restore(oldHash: Hash)
      requires Shaped() && |oldHash| == HashValues(algorithm)
      modifies hash
      ensures hash[..] == oldHash
    {
      for i := 0 to hash.Length
        invariant forall k :: 0 <= k < i ==> hash[k] == oldHash[k]
      {
        hash[i] := oldHash[i];
      }
    }

    method ProcessBlock(block: seq<Byte>)
      requires Shaped() && |block| == BlockSize
      modifies hash
      ensures hash[..] == Compress(algorithm, old(hash[..]), block)
    {
      match algorithm
      case MD5 => Md5.ProcessBlock(hash, block);
      case SHA1 => Sha1.ProcessBlock(hash, block);
      case SHA256 => Sha256.ProcessBlock(hash, block);
    }

    /** The buffered bytes and the data not yet read. */
    ghost function Held(data: seq<Byte>, at: nat): seq<Byte>
      requires Shaped() && bufferSize <= BlockSize && at <= |data|
      reads this, buffer
    {
      buffer[..bufferSize] + data[at..]
    }

    ghost predicate Adding(data: seq<Byte>, at: nat, m: seq<Byte>)
      reads this, hash, buffer
    {
      && Shaped() && bufferSize <= BlockSize && at <= |data|
      && StandsFor(algorithm, hash[..], Held(data, at), m)
      && bufferSize + |data| - at <= |m|
      && numBytes == (|m| - (bufferSize + |data| - at)) % TwoTo64
    }

    /** Puts the next byte of the data into the buffer. */
    method Keep(data: seq<Byte>, at: nat, ghost m: seq<Byte>)
      requires Adding(data, at, m) && at < |data| && bufferSize < BlockSize
      modifies this`bufferSize, buffer
      ensures Adding(data, at + 1, m) && bufferSize == old(bufferSize) + 1
    {
      hide StandsFor;
      ghost var held := Held(data, at);
      buffer[bufferSize] := data[at];
      bufferSize := bufferSize + 1;
      assert Held(data, at + 1) == held;
    }

    /** A full buffer is processed and emptied. */
    method ProcessFull(data: seq<Byte>, at: nat, ghost m: seq<Byte>)
      requires Adding(data, at, m) && bufferSize == BlockSize
      modifies this`bufferSize, this`numBytes, hash
      ensures Adding(data, at, m) && bufferSize == 0
    {
      hide StandsFor, Compress;
      ghost var held := Held(data, at);
      assert held[..BlockSize] == buffer[..BlockSize] && held[BlockSize..] == data[at..];
      BlockDone(algorithm, hash[..], held, m);
      Counted(BlockSize, numBytes, |m| - (bufferSize + |data| - at));
      ProcessBlock(buffer[..BlockSize]);
      numBytes := (numBytes + BlockSize) % TwoTo64;
      bufferSize := 0;
      assert Held(data, at) == data[at..];
    }

    /** A whole block of the data is processed where it stands. */
    method ProcessNext(data: seq<Byte>, at: nat, ghost m: seq<Byte>)
      requires Adding(data, at, m) && bufferSize == 0 && at + BlockSize <= |data|
      modifies this`numBytes, hash
      ensures Adding(data, at + BlockSize, m)
    {
      hide StandsFor, Compress;
      ghost var held := Held(data, at);
      assert held == data[at..] && held[..BlockSize] == data[at..at + BlockSize] && held[BlockSize..] == data[at + BlockSize..];
      BlockDone(algorithm, hash[..], held, m);
      Counted(BlockSize, numBytes, |m| - (|data| - at));
      ProcessBlock(data[at..at + BlockSize]);
      numBytes := (numBytes + BlockSize) % TwoTo64;
      assert Held(data, at + BlockSize) == data[at + BlockSize..];
    }

    lemma Begins(data: seq<Byte>)
      requires Valid()
      ensures Adding(data, 0, message + data)
    {
      hide Fold;
      HoldMore(algorithm, message, data);
      TailLength(BlockSize, message);
      assert Held(data, 0) == buffer[..bufferSize] + data;
    }

    lemma Ends(data: seq<Byte>, m: seq<Byte>)
      requires Adding(data, |data|, m) && bufferSize < BlockSize
      ensures hash[..] == Fold(algorithm, InitialHash(algorithm), m) && buffer[..bufferSize] == Tail(BlockSize, m)
    {
      hide Fold, Tail, StandsFor;
      assert Held(data, |data|) == buffer[..bufferSize];
      AllDone(algorithm, hash[..], buffer[..bufferSize], m);
    }

    /** Fills up a buffer that was begun and processes it when it is full. */
    method FillUp(data: seq<Byte>, ghost m: seq<Byte>) returns (at: nat)
      requires Adding(data, 0, m) && bufferSize < BlockSize
      modifies this`bufferSize, this`numBytes, buffer, hash
      ensures Adding(data, at, m) && bufferSize < BlockSize
      ensures at < |data| ==> bufferSize == 0
    {
      hide StandsFor, Held;
      at := 0;
      if bufferSize > 0 {
        while at < |data| && bufferSize < BlockSize
          invariant Adding(data, at, m) && 0 < bufferSize
        {
          Keep(data, at, m);
          at := at + 1;
        }
      }
      if bufferSize == BlockSize {
        ProcessFull(data, at, m);
      }
    }

    /** Processes the whole blocks of the data. */
    method ProcessWhole(data: seq<Byte>, start: nat, ghost m: seq<Byte>) returns (at: nat)
      requires Adding(data, start, m) && bufferSize < BlockSize && (start < |data| ==> bufferSize == 0)
      modifies this`numBytes, hash
      ensures Adding(data, at, m) && |data| - at < BlockSize
      ensures at < |data| ==> bufferSize == 0
    {
      hide StandsFor, Held;
      at := start;
      while |data| - at >= BlockSize
        invariant Adding(data, at, m)
        invariant at < |data| ==> bufferSize == 0
      {
        ProcessNext(data, at, m);
        at := at + BlockSize;
      }
    }

    /** Puts the rest of the data into the buffer. */
    method KeepRest(data: seq<Byte>, start: nat, ghost m: seq<Byte>)
      requires Adding(data, start, m) && bufferSize + |data| - start < BlockSize
      modifies this`bufferSize, buffer
      ensures Adding(data, |data|, m) && bufferSize < BlockSize
    {
      hide StandsFor, Held;
      var at := start;
      while at < |data|
        invariant Adding(data, at, m) && bufferSize + |data| - at < BlockSize
      {
        Keep(data, at, m);
        at := at + 1;
      }
    }

    /** Adds any number of bytes. */
    method Add(data: seq<Byte>)
      requires Valid()
      modifies this, hash, buffer
      ensures Valid() && message == old(message) + data
    {
      hide StandsFor, Held, Fold, Tail;
      ghost var m := message + data;
      Begins(data);
      var at := FillUp(data, m);
      at := ProcessWhole(data, at, m);
      KeepRest(data, at, m);
      Ends(data, m);
      message := m;
    }

    /** Writes the length field at the given place. */
    method WriteLength(dst: array<Byte>, at: nat, msgBits: nat)
      requires at + 8 <= dst.Length
      modifies dst
      ensures dst[..] == old(dst[..at]) + (if algorithm == MD5 then LittleBytes(msgBits, 8) else BigBytes(msgBits, 8)) + old(dst[at + 8..])
      ensures forall k :: at <= k < at + 8 ==>
        NumberOf(dst[k]) == msgBits / Power(if algorithm == MD5 then k - at else 7 - (k - at)) % 256
    {
      hide ByteAt, LittleBytes, BigBytes, NumberOf, Power;
      FieldPlaces(algorithm, msgBits);
      ghost var field := if algorithm == MD5 then LittleBytes(msgBits, 8) else BigBytes(msgBits, 8);
      for k := 0 to 8
        invariant forall i :: 0 <= i < dst.Length && !(at <= i < at + k) ==> dst[i] == old(dst[i])
        invariant forall i :: at <= i < at + k ==> dst[i] == field[i - at]
      {
        if algorithm == MD5 {
          LittleBytesAt(msgBits, 8, k);
          dst[at + k] := ByteAt(msgBits, k);
        } else {
          BigBytesAt(msgBits, 8, k);
          dst[at + k] := ByteAt(msgBits, 7 - k);
        }
      }
    }

    /** Where the length field goes, counted from the start of the buffer. */
    method PaddedLength() returns (paddedLength: nat)
      requires bufferSize < BlockSize
      ensures paddedLength == bufferSize + 1 + ZeroBytes(bufferSize)
      ensures paddedLength == 56 || paddedLength == 120
    {
      paddedLength := bufferSize * 8;
      paddedLength := paddedLength + 1;
      var lower11Bits := paddedLength % 512;
      if lower11Bits <= 448 {
        paddedLength := paddedLength + 448 - lower11Bits;
      } else {
        paddedLength := paddedLength + 512 + 448 - lower11Bits;
      }
      paddedLength := paddedLength / 8;
    }

    /** The set bit and the zeros: the rest of the buffer, and the extra block up to the given length. */
    method PadZeros(paddedLength: nat) returns (extra: array<Byte>)
      requires Shaped() && bufferSize < BlockSize && paddedLength <= 2 * BlockSize
      modifies buffer
      ensures fresh(extra) && extra.Length == BlockSize
      ensures buffer[..] == old(buffer[..bufferSize]) + [0x80] + Zeros(BlockSize - 1 - bufferSize)
      ensures forall k :: 0 <= k < paddedLength - BlockSize ==> extra[k] == 0
    {
      ghost var tail := buffer[..bufferSize];
      extra := new Byte[BlockSize];
      buffer[bufferSize] := 128;
      for i := bufferSize + 1 to BlockSize
        invariant buffer[..bufferSize] == tail && buffer[bufferSize] == 128
        invariant forall k :: bufferSize < k < i ==> buffer[k] == 0
      {
        buffer[i] := 0;
      }
      assert buffer[..] == tail + [0x80] + Zeros(BlockSize - 1 - bufferSize);
      var i := BlockSize;
      while i < paddedLength
        invariant BlockSize <= i <= 2 * BlockSize
        invariant buffer[..] == tail + [0x80] + Zeros(BlockSize - 1 - bufferSize)
        invariant forall k :: 0 <= k < i - BlockSize ==> extra[k] == 0
      {
        extra[i - BlockSize] := 0;
        i := i + 1;
      }
    }

    /** Lays out the last block in the buffer, or the last two in the buffer and an extra block. */
    method Pad() returns (extra: array<Byte>, two: bool)
      requires Shaped() && bufferSize < BlockSize
      modifies buffer
      ensures fresh(extra) && extra.Length == BlockSize
      ensures buffer[..bufferSize] == old(buffer[..bufferSize])
      ensures var last := old(buffer[..bufferSize]) + Padding(bufferSize, LengthField(algorithm, numBytes + bufferSize));
        if two then buffer[..] + extra[..] == last else buffer[..] == last
    {
      hide LittleBytes, BigBytes;
      ghost var tail := buffer[..bufferSize];
      ghost var field := LengthField(algorithm, numBytes + bufferSize);
      var paddedLength := PaddedLength();
      extra := PadZeros(paddedLength);
      var msgBits := 8 * (numBytes + bufferSize) % TwoTo64;
      if paddedLength < BlockSize {
        OneBlock(tail, buffer[..], field);
        WriteLength(buffer, paddedLength, msgBits);
      } else {
        WriteLength(extra, paddedLength - BlockSize, msgBits);
        TwoBlocks(tail, buffer[..], extra[..], field);
      }
      two := paddedLength > BlockSize;
    }

    /** Processes what is left in the buffer, padded to one block or two. */
    method ProcessBuffer()
      requires Shaped() && bufferSize < BlockSize
      modifies hash, buffer
      ensures hash[..] == Fold(algorithm, old(hash[..]),
        old(buffer[..bufferSize]) + Padding(bufferSize, LengthField(algorithm, numBytes + bufferSize)))
      ensures buffer[..bufferSize] == old(buffer[..bufferSize])
    {
      hide Compress, Fold, Padding, LengthField;
      var extra, two := Pad();
      FoldTwo(algorithm, hash[..], buffer[..], extra[..]);
      ProcessBlock(buffer[..]);
      if two {
        ProcessBlock(extra[..]);
      }
    }

    /** The digest of the bytes added so far; the stream goes on undisturbed. */
    method GetHash() returns (digest: seq<Byte>)
      requires Valid()
      modifies hash, buffer
      ensures Valid() && digest == Digest(algorithm, message)
    {
      hide Fold, Tail, Padding, Output;
      FoldLast(algorithm, message, numBytes);
      var oldHash := hash[..];
      ProcessBuffer();
      digest := WriteOut(algorithm, hash[..]);
      Restore(oldHash);
    }

    /** The digest of one block of memory. */
    method Compute(data: seq<Byte>) returns (digest: seq<Byte>)
      requires Valid()
      modifies this, hash, buffer
      ensures Valid() && message == data && digest == Digest(algorithm, data)
    {
      Reset();
      Add(data);
      assert [] + data == data;
      digest := GetHash();
    }
  }

  /** Folding the padded message is folding the last blocks after the whole ones; the 64-bit counters give its length field. */
  lemma FoldLast(algorithm: Algorithm, message: seq<Byte>, numBytes: nat)
    requires numBytes == (|message| - |Tail(BlockSize, message)|) % TwoTo64
    ensures Fold(algorithm, InitialHash(algorithm), Padded(algorithm, message))
         == Fold(algorithm, Fold(algorithm, InitialHash(algorithm), message),
              Tail(BlockSize, message) + Padding(|Tail(BlockSize, message)|, LengthField(algorithm, numBytes + |Tail(BlockSize, message)|)))
  {
    hide Fold, Padding;
    var n := |Tail(BlockSize, message)|;
    SameField(algorithm, numBytes, n, |message|);
    FoldPlus(algorithm, InitialHash(algorithm), message, Padding(n, LengthField(algorithm, |message|)));
  }

  lemma SameField(algorithm: Algorithm, numBytes: nat, n: nat, length: nat)
    requires n <= length && numBytes == (length - n) % TwoTo64
    ensures LengthField(algorithm, numBytes + n) == LengthField(algorithm, length)
  {
    hide LittleBytes, BigBytes;
    var q := (length - n) / TwoTo64;
    assert 8 * length == 8 * (numBytes + n) + TwoTo64 * (8 * q);
    WrapsAway(8 * (numBytes + n), 8 * q);
  }

  lemma WrapsAway(x: nat, q: nat)
    ensures (x + TwoTo64 * q) % TwoTo64 == x % TwoTo64
  {
  }

  /** The bytes of the digest, hash value by hash value. */
  method WriteOut(algorithm: Algorithm, hash: Hash) returns (digest: seq<Byte>)
    ensures digest == Output(algorithm, hash)
  {
    hide WordByte;
    digest := [];
    for i := 0 to |hash|
      invariant |digest| == 4 * i
      invariant forall k :: 0 <= k < |digest| ==> digest[k] == OutputByte(algorithm, hash[k / 4], k % 4)
    {
      if algorithm == MD5 {
        digest := digest + [WordByte(hash[i], 0), WordByte(hash[i], 1), WordByte(hash[i], 2), WordByte(hash[i], 3)];
      } else {
        digest := digest + [WordByte(hash[i], 3), WordByte(hash[i], 2), WordByte(hash[i], 1), WordByte(hash[i], 0)];
      }
    }
  }

  lemma FoldNothing(algorithm: Algorithm)
    ensures Fold(algorithm, InitialHash(algorithm), []) == InitialHash(algorithm)
  {
  }

  lemma OneBlock(tail: seq<Byte>, block: seq<Byte>, field: seq<Byte>)
    requires |tail| < 56 && |field| == 8 && block == tail + [0x80] + Zeros(63 - |tail|)
    ensures block[..56] + field + block[64..] == tail + Padding(|tail|, field)
  {
    assert block[..56] == tail + [0x80] + Zeros(55 - |tail|);
  }

  lemma TwoBlocks(tail: seq<Byte>, block: seq<Byte>, extra: seq<Byte>, field: seq<Byte>)
    requires 56 <= |tail| < BlockSize && |field| == 8 && block == tail + [0x80] + Zeros(63 - |tail|)
    requires |extra| == BlockSize && extra[56..] == field && forall k :: 0 <= k < 56 ==> extra[k] == 0
    ensures block + extra == tail + Padding(|tail|, field)
  {
    assert extra == Zeros(56) + field;
    assert Zeros(63 - |tail|) + Zeros(56) == Zeros(119 - |tail|);
  }
}
