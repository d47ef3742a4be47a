/** The step mappings of Keccak-f bit by bit, as sections 3.2.1 to 3.2.5 of FIPS 202 write them. */
module KeccakBits {
  import opened KeccakF
  import opened LongBits
  import opened Longs

  /** A[x, y, z], with the coordinates taken modulo 5, 5 and 64. */
  function Bit(a: State, x: int, y: int, z: int): bool {
    LaneBits(a[Index(x, y)])[z % 64]
  }

  /** The parity of the five bits of column (x, z). */
  function ColumnParity(a: State, x: int, z: int): bool {
    (((Bit(a, x, 0, z) != Bit(a, x, 1, z)) != Bit(a, x, 2, z)) != Bit(a, x, 3, z)) != Bit(a, x, 4, z)
  }

  lemma XorBit(a: Lane, b: Lane, z: nat)
    requires z < 64
    ensures LaneBits(Xor(a, b))[z] <==> LaneBits(a)[z] != LaneBits(b)[z]
  {
    hide LowLongBits, Xor;
    XorBits(64, a, b);
  }

  lemma ColumnBits(a: State, x: int, z: nat)
    requires z < 64
    ensures LaneBits(Column(a, x))[z] <==> ColumnParity(a, x, z)
  {
    hide LaneBits, Xor, Index;
    var c1 := Xor(a[Index(x, 0)], a[Index(x, 1)]);
    var c2 := Xor(c1, a[Index(x, 2)]);
    var c3 := Xor(c2, a[Index(x, 3)]);
    XorBit(a[Index(x, 0)], a[Index(x, 1)], z);
    XorBit(c1, a[Index(x, 2)], z);
    XorBit(c2, a[Index(x, 3)], z);
    XorBit(c3, a[Index(x, 4)], z);
  }

  /** Theta: every bit is mixed with the parities of two columns, that beside it and that on the other side one place below. */
  lemma ThetaBits(a: State, x: nat, y: nat, z: nat)
    requires x < 5 && y < 5 && z < 64
    ensures Bit(Theta(a), x, y, z) <==> (Bit(a, x, y, z) != ColumnParity(a, x - 1, z)) != ColumnParity(a, x + 1, z - 1)
  {
    hide LaneBits, Xor, ColumnParity, ThetaEffect, Theta, Index;
    Placed(x, y);
    ThetaAt(a, Index(x, y));
    XorBit(a[Index(x, y)], ThetaEffect(a, x), z);
    EffectBits(a, x, z);
  }

  lemma EffectBits(a: State, x: int, z: nat)
    requires z < 64
    ensures LaneBits(ThetaEffect(a, x))[z] <==> ColumnParity(a, x - 1, z) != ColumnParity(a, x + 1, z - 1)
  {
    hide LaneBits, Xor, RotateLeft, Column, ColumnParity, ThetaEffect, Index;
    EffectIs(a, x);
    XorBit(Column(a, x - 1), RotateLeft(Column(a, x + 1), 1), z);
    ColumnBits(a, x - 1, z);
    TurnedColumn(a, x + 1, z);
  }

  lemma TurnedColumn(a: State, x: int, z: nat)
    requires z < 64
    ensures LaneBits(RotateLeft(Column(a, x), 1))[z] <==> ColumnParity(a, x, z - 1)
  {
    hide LaneBits, RotateLeft, Column, ColumnParity, Index;
    var below := OneBelow(z);
    ColumnBits(a, x, below);
    RotateLeftBits(Column(a, x), 1, below);
    ParityModulo(a, x, z - 1);
  }

  lemma OneBelow(z: nat) returns (below: nat)
    requires z < 64
    ensures below == (z - 1) % 64 && below < 64 && (below + 1) % 64 == z
  {
    below := (z - 1) % 64;
  }

  lemma Placed(x: nat, y: nat)
    requires x < 5 && y < 5
    ensures Index(x, y) == 5 * y + x && Index(x, y) % 5 == x && Index(x, y) / 5 == y
  {
  }

  lemma EffectIs(a: State, x: int)
    ensures ThetaEffect(a, x) == Xor(Column(a, x - 1), RotateLeft(Column(a, x + 1), 1))
  {
  }

  lemma ParityModulo(a: State, x: int, z: int)
    ensures ColumnParity(a, x, z % 64) == ColumnParity(a, x, z)
  {
    hide LaneBits, Index;
  }

  /** Rho: the lane at the origin stays, and the lane that the walk reaches after t places is turned by (t + 1)(t + 2)/2. */
  lemma RhoBits(a: State, t: nat, z: nat)
    requires t < 24 && z < 64
    ensures var (x, y) := Walk(t);
      Bit(Rho(a), x, y, z + (t + 1) * (t + 2) / 2) == Bit(a, x, y, z)
    ensures Bit(Rho(a), 0, 0, z) == Bit(a, 0, 0, z)
  {
    hide LaneBits, RotateLeft, Walk, Offset, Index;
    var (x, y) := Walk(t);
    OffsetsFollowWalk(t);
    OffOrigin(t);
    TurnedLane(a, Index(x, y), (t + 1) * (t + 2) / 2, z);
    OriginIndex();
    assert Rho(a)[0] == a[0];
  }

  lemma OriginIndex()
    ensures Index(0, 0) == 0
  {
  }

  lemma TurnedLane(a: State, i: nat, total: nat, z: nat)
    requires 0 < i < StateSize && Offset(i) == total % 64 && z < 64
    ensures LaneBits(Rho(a)[i])[(z + total) % 64] <==> LaneBits(a[i])[z]
  {
    hide LaneBits, RotateLeft, Offset;
    RotateLeftBits(a[i], Offset(i), z);
    Turned(z, total);
  }

  lemma Turned(z: nat, n: nat)
    ensures (z + n % 64) % 64 == (z + n) % 64
  {
  }

  /** The walk does not come to the origin. */
  lemma OffOrigin(t: nat)
    requires t < 24
    ensures Index(Walk(t).0, Walk(t).1) != 0
  {
    hide Walk, Visited, Index;
    OrderIsWalk(t);
  }

  /** Pi: the lane at (x, y) comes from (x + 3y, x). */
  lemma PiBits(a: State, x: nat, y: nat, z: nat)
    requires x < 5 && y < 5 && z < 64
    ensures Bit(Pi(a), x, y, z) == Bit(a, x + 3 * y, x, z)
  {
    hide LaneBits, Index;
    Placed(x, y);
    assert Pi(a)[Index(x, y)] == a[Source(Index(x, y))];
  }

  /** Chi: a bit is flipped where the next in its row is clear and the one after that is set. */
  lemma ChiBits(a: State, x: nat, y: nat, z: nat)
    requires x < 5 && y < 5 && z < 64
    ensures Bit(Chi(a), x, y, z) <==> Bit(a, x, y, z) != (!Bit(a, x + 1, y, z) && Bit(a, x + 2, y, z))
  {
    hide LaneBits, Mixed, Index;
    Placed(x, y);
    MixedBit(a[Index(x, y)], a[Index(x + 1, y)], a[Index(x + 2, y)], z);
  }

  lemma MixedBit(a: Lane, b: Lane, c: Lane, z: nat)
    requires z < 64
    ensures LaneBits(Mixed(a, b, c))[z] <==> LaneBits(a)[z] != (!LaneBits(b)[z] && LaneBits(c)[z])
  {
    hide LowLongBits, Xor, And, Not;
    NotBits(64, b);
    AndBits(64, Not(b), c);
    XorBits(64, a, And(Not(b), c));
  }

  /** Iota: the lane at the origin is mixed with the constant of the round. */
  lemma IotaBits(a: State, mask: Lane, x: nat, y: nat, z: nat)
    requires x < 5 && y < 5 && z < 64
    ensures Bit(Iota(a, mask), x, y, z) <==> Bit(a, x, y, z) != (x == 0 && y == 0 && LaneBits(mask)[z])
  {
    hide LaneBits, Xor, Index;
    Placed(x, y);
    XorBit(a[0], mask, z);
    assert Iota(a, mask)[0] == Xor(a[0], mask);
  }

  /** Lanes of 2^l bits take 12 + 2l rounds. */
  lemma RoundCount(l: nat)
    requires TwoTo(l) == 64
    ensures Rounds == 12 + 2 * l
  {
    assert TwoTo(6) == 64;
    if l < 6 {
      Grows(l, 6);
    } else if l > 6 {
      Grows(6, l);
    }
  }

  function TwoTo(n: nat): nat {
    if n == 0 then 1 else 2 * TwoTo(n - 1)
  }

  lemma {:induction false} Grows(m: nat, n: nat)
    requires m < n
    ensures 0 < TwoTo(m) < TwoTo(n)
  {
    if m + 1 < n {
      Grows(m, n - 1);
    } else if m > 0 {
      Grows(m - 1, m);
    }
  }
}
