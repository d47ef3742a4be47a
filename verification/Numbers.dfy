/** Numbers as byte strings, in both orders. */
module Numbers {
  import opened Bytes
  import opened Modulo

  function Power(n: nat): (p: nat)
    ensures p > 0
  {
    if n == 0 then 1 else 256 * Power(n - 1)
  }

  /** The n low bytes of a number, the lowest first. */
  function LittleBytes(x: nat, n: nat): (bytes: seq<Byte>)
    ensures |bytes| == n
  {
    if n == 0 then [] else [ByteOf(x % 256)] + LittleBytes(x / 256, n - 1)
  }

  function LittleNumber(bytes: seq<Byte>): nat {
    if bytes == [] then 0 else NumberOf(bytes[0]) + 256 * LittleNumber(bytes[1..])
  }

  function Reversed<T>(s: seq<T>): (r: seq<T>)
    ensures |r| == |s|
    ensures forall i {:trigger r[i]} :: 0 <= i < |s| ==> r[i] == s[|s| - 1 - i]
  {
    seq(|s|, i requires 0 <= i < |s| => s[|s| - 1 - i])
  }

  lemma ReversedTwice<T>(s: seq<T>)
    ensures Reversed(Reversed(s)) == s
  {
  }

  function BigBytes(x: nat, n: nat): (bytes: seq<Byte>)
    ensures |bytes| == n
  {
    Reversed(LittleBytes(x, n))
  }

  function BigNumber(bytes: seq<Byte>): nat {
    LittleNumber(Reversed(bytes))
  }

  lemma {:induction false} LittleNumberOfBytes(x: nat, n: nat)
    requires x < Power(n)
    ensures LittleNumber(LittleBytes(x, n)) == x
  {
    hide ByteOf, NumberOf;
    if n > 0 {
      assert LittleBytes(x, n)[1..] == LittleBytes(x / 256, n - 1);
      ByteBack(x % 256);
      LittleNumberOfBytes(x / 256, n - 1);
    }
  }

  lemma {:induction false} LittleBytesOfNumber(bytes: seq<Byte>)
    ensures LittleNumber(bytes) < Power(|bytes|)
    ensures LittleBytes(LittleNumber(bytes), |bytes|) == bytes
  {
    hide ByteOf, NumberOf;
    if bytes != [] {
      LittleBytesOfNumber(bytes[1..]);
      NumberBack(bytes[0]);
      Digits(NumberOf(bytes[0]), LittleNumber(bytes[1..]));
    }
  }

  lemma Digits(digit: nat, rest: nat)
    requires digit < 256
    ensures (digit + 256 * rest) % 256 == digit && (digit + 256 * rest) / 256 == rest
  {
  }

  /** Writing a number and reading it back, the highest byte first. */
  lemma BigNumberOfBytes(x: nat, n: nat)
    requires x < Power(n)
    ensures BigNumber(BigBytes(x, n)) == x
  {
    ReversedTwice(LittleBytes(x, n));
    LittleNumberOfBytes(x, n);
  }

  lemma BigBytesOfNumber(bytes: seq<Byte>)
    ensures BigNumber(bytes) < Power(|bytes|) && BigBytes(BigNumber(bytes), |bytes|) == bytes
  {
    ReversedTwice(bytes);
    LittleBytesOfNumber(Reversed(bytes));
  }

  lemma Powers()
    ensures Power(4) == 0x1_0000_0000 && Power(8) == 0x1_0000_0000_0000_0000
  {
    assert Power(2) == 0x1_0000;
    assert Power(6) == 0x1_0000_0000_0000;
  }

  /** Byte k of a number, the lowest first. */
  function ByteAt(x: nat, k: nat): Byte {
    ByteOf(x / Power(k) % 256)
  }

  lemma PowerIs(k: nat)
    ensures Power(k) == if k == 0 then 1 else 256 * Power(k - 1)
  {
  }

  lemma {:induction false} LittleBytesAt(x: nat, n: nat, k: nat)
    requires k < n
    ensures LittleBytes(x, n)[k] == ByteAt(x, k)
  {
    hide ByteOf, Power;
    PowerIs(k);
    if k > 0 {
      LittleBytesAt(x / 256, n - 1, k - 1);
      DivideTwice(x, Power(k - 1));
    }
  }

  /** The place of every byte, the lowest first: byte k counts 256^k. */
  lemma LittlePlace(x: nat, n: nat, k: nat)
    requires k < n
    ensures NumberOf(LittleBytes(x, n)[k]) == x / Power(k) % 256
  {
    hide ByteOf, NumberOf, LittleBytes, Power;
    LittleBytesAt(x, n, k);
    ByteBack(x / Power(k) % 256);
  }

  lemma BigBytesAt(x: nat, n: nat, k: nat)
    requires k < n
    ensures BigBytes(x, n)[k] == ByteAt(x, n - 1 - k)
  {
    hide LittleBytes, ByteAt;
    LittleBytesAt(x, n, n - 1 - k);
  }

  /** The place of every byte, the highest first: byte k counts 256^(n - 1 - k). */
  lemma BigPlace(x: nat, n: nat, k: nat)
    requires k < n
    ensures NumberOf(BigBytes(x, n)[k]) == x / Power(n - 1 - k) % 256
  {
    hide LittleBytes, NumberOf, Power;
    LittlePlace(x, n, n - 1 - k);
  }

  /** Four bytes with the highest first. */
  lemma BigFour(x: nat)
    requires x < 0x1_0000_0000
    ensures var b := BigBytes(x, 4);
      x == 0x100_0000 * NumberOf(b[0]) + 0x1_0000 * NumberOf(b[1]) + 0x100 * NumberOf(b[2]) + NumberOf(b[3])
  {
    hide BigBytes, NumberOf, Power;
    BigPlace(x, 4, 0);
    BigPlace(x, 4, 1);
    BigPlace(x, 4, 2);
    BigPlace(x, 4, 3);
    SmallPowers();
    FourDigits(x);
  }

  lemma SmallPowers()
    ensures Power(0) == 1 && Power(1) == 0x100 && Power(2) == 0x1_0000 && Power(3) == 0x100_0000
  {
  }

  lemma FourDigits(x: nat)
    requires x < 0x1_0000_0000
    ensures x == 0x100_0000 * (x / 0x100_0000 % 256) + 0x1_0000 * (x / 0x1_0000 % 256) + 0x100 * (x / 0x100 % 256) + x % 256
  {
  }
}
