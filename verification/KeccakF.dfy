/** Keccak-f[1600]: the in-place round of the code against the step mappings on a whole state. */
module KeccakF {
  import opened Longs

  type Lane = Long
  /** Lane (x, y) of the state stands at index x + 5y. */
  type State = s: seq<Lane> | |s| == 25 witness seq(25, i => 0)

  const StateSize := 25
  const Rounds := 24

  function Index(x: int, y: int): (i: nat)
    ensures i < StateSize
  {
    x % 5 + 5 * (y % 5)
  }

  function Mixed(a: Lane, b: Lane, c: Lane): Lane {
    Xor(a, And(Not(b), c))
  }

  lemma Coordinates(k: nat, y: nat)
    requires k < 5 && y < 5
    ensures (5 * y + k) % 5 == k && (5 * y + k) / 5 == y && 5 * y + k < StateSize
  {
  }

  /** The index of a lane d places beside (x, y), wrapping within the row. */
  lemma IndexAt(x: nat, y: nat, d: nat)
    requires x < 5 && y < 5 && d < 5
    ensures Index(x + d, y) == 5 * y + if x + d < 5 then x + d else x + d - 5
  {
  }

  // ------------------------------------------------------------ the step mappings

  function Column(a: State, x: int): Lane {
    Xor(Xor(Xor(Xor(a[Index(x, 0)], a[Index(x, 1)]), a[Index(x, 2)]), a[Index(x, 3)]), a[Index(x, 4)])
  }

  /** What column x of the state is mixed with: the columns beside it. */
  function ThetaEffect(a: State, x: int): Lane {
    Xor(Column(a, x - 1), RotateLeft(Column(a, x + 1), 1))
  }

  function ThetaLane(a: State, i: nat): Lane
    requires i < StateSize
  {
    Xor(a[i], ThetaEffect(a, i % 5))
  }

  function Theta(a: State): State {
    seq(StateSize, i requires 0 <= i < StateSize => ThetaLane(a, i))
  }

  /** The walk over the 24 lanes other than (0, 0) that numbers the rotation offsets. */
  function Walk(t: nat): (lane: (nat, nat))
    ensures lane.0 < 5 && lane.1 < 5
  {
    if t == 0 then (1, 0) else var (x, y) := Walk(t - 1); (y, (2 * x + 3 * y) % 5)
  }

  /** The offset of the lane at each index. */
  function Offset(i: nat): (n: nat)
    requires i < StateSize
    ensures n < 64 && (i > 0 ==> n > 0)
  {
    match i
    case 0 => 0 case 1 => 1 case 2 => 62 case 3 => 28 case 4 => 27
    case 5 => 36 case 6 => 44 case 7 => 6 case 8 => 55 case 9 => 20
    case 10 => 3 case 11 => 10 case 12 => 43 case 13 => 25 case 14 => 39
    case 15 => 41 case 16 => 45 case 17 => 15 case 18 => 21 case 19 => 8
    case 20 => 18 case 21 => 2 case 22 => 61 case 23 => 56 case _ => 14
  }

  /** The lane at the origin is not turned. */
  function RhoLane(a: State, i: nat): Lane
    requires i < StateSize
  {
    if i == 0 then a[i] else RotateLeft(a[i], Offset(i))
  }

  function Rho(a: State): State {
    seq(StateSize, i requires 0 <= i < StateSize => RhoLane(a, i))
  }

  /** The lane that moves to index i. */
  function Source(i: nat): (s: nat)
    ensures s < StateSize
  {
    Index(i % 5 + 3 * (i / 5), i % 5)
  }

  function Pi(a: State): State {
    seq(StateSize, i requires 0 <= i < StateSize => a[Source(i)])
  }

  /** The lane d places further in the row of lane i. */
  function Beside(i: nat, d: nat): (s: nat)
    requires i < StateSize
    ensures s < StateSize
  {
    Index(i % 5 + d, i / 5)
  }

  function Chi(a: State): State {
    seq(StateSize, i requires 0 <= i < StateSize =>
      Mixed(a[i], a[Beside(i, 1)], a[Beside(i, 2)]))
  }

  function Iota(a: State, mask: Lane): State {
    a[0 := Xor(a[0], mask)]
  }

  // ------------------------------------------------------------ in place

  /** How far the lane written at time t is turned. */
  function Turn(t: nat): (n: nat)
    ensures n < 64 && (t > 0 ==> n > 0)
  {
    match t
    case 0 => 0 case 1 => 1 case 2 => 3 case 3 => 6 case 4 => 10
    case 5 => 15 case 6 => 21 case 7 => 28 case 8 => 36 case 9 => 45
    case 10 => 55 case 11 => 2 case 12 => 14 case 13 => 27 case 14 => 41
    case 15 => 56 case 16 => 8 case 17 => 25 case 18 => 43 case 19 => 62
    case 20 => 18 case 21 => 39 case 22 => 61 case 23 => 20 case _ => 44
  }

  /** The distances are the triangular numbers. */
  lemma TurnIsTriangular(t: nat)
    requires t <= 24
    ensures Turn(t) == Triangular(t)
  {
    hide Turn, Triangular;
    if t <= 8 {
      TriangularTo8(t);
    } else if t <= 16 {
      TriangularTo16(t);
    } else {
      TriangularTo24(t);
    }
  }

  function Triangular(t: nat): nat {
    t * (t + 1) / 2 % 64
  }

  lemma TriangularTo8(t: nat)
    requires t <= 8
    ensures Turn(t) == Triangular(t)
  {
  }

  lemma TriangularTo16(t: nat)
    requires 8 < t <= 16
    ensures Turn(t) == Triangular(t)
  {
  }

  lemma TriangularTo24(t: nat)
    requires 16 < t <= 24
    ensures Turn(t) == Triangular(t)
  {
  }

  /** The lanes in the order the in-place chain visits them: it closes where it began. */
  function Visited(t: nat): (i: nat)
    requires t <= 24
    ensures 0 < i < StateSize
  {
    match t
    case 0 => 1 case 1 => 10 case 2 => 7 case 3 => 11 case 4 => 17
    case 5 => 18 case 6 => 3 case 7 => 5 case 8 => 16 case 9 => 8
    case 10 => 21 case 11 => 24 case 12 => 4 case 13 => 15 case 14 => 23
    case 15 => 19 case 16 => 13 case 17 => 12 case 18 => 2 case 19 => 20
    case 20 => 14 case 21 => 22 case 22 => 9 case 23 => 6 case _ => 1
  }

  /** When the chain writes each lane. */
  function TimeOf(i: nat): (t: nat)
    requires i < StateSize
    ensures t <= 24
  {
    match i
    case 0 => 0 case 1 => 24 case 2 => 18 case 3 => 6 case 4 => 12
    case 5 => 7 case 6 => 23 case 7 => 2 case 8 => 9 case 9 => 22
    case 10 => 1 case 11 => 3 case 12 => 17 case 13 => 16 case 14 => 20
    case 15 => 13 case 16 => 8 case 17 => 4 case 18 => 5 case 19 => 15
    case 20 => 19 case 21 => 10 case 22 => 21 case 23 => 14 case _ => 11
  }

  lemma AtTime(t: nat)
    requires 1 <= t <= 24
    ensures TimeOf(Visited(t)) == t
    ensures forall i {:trigger TimeOf(i)} :: 0 <= i < StateSize && TimeOf(i) == t ==> i == Visited(t)
  {
  }

  /** The chain follows the walk that numbers the offsets, and the offsets are those of the standard's table. */
  lemma {:induction false} OrderIsWalk(t: nat)
    requires t <= 24
    ensures Visited(t) == Index(Walk(t).0, Walk(t).1)
  {
    hide Visited, Index;
    if t == 0 {
      OrderStep(1);
      IndexAt(1, 0, 0);
    } else {
      OrderIsWalk(t - 1);
      var (x, y) := Walk(t - 1);
      WalkOn(t, x, y);
    }
  }

  lemma WalkOn(t: nat, x: nat, y: nat)
    requires 1 <= t <= 24 && x < 5 && y < 5 && Visited(t - 1) == Index(x, y)
    ensures Visited(t) == Index(y, (2 * x + 3 * y) % 5)
  {
    hide Visited, Index;
    OrderStep(t);
    IndexAt(x, y, 0);
    Coordinates(x, y);
    IndexAt(y, (2 * x + 3 * y) % 5, 0);
  }

  lemma OrderStep(t: nat)
    requires 1 <= t <= 24
    ensures var i := Visited(t - 1); Visited(t) == i / 5 + 5 * ((2 * (i % 5) + 3 * (i / 5)) % 5)
    ensures Visited(0) == 1
  {
  }

  lemma OffsetsFollowWalk(t: nat)
    requires t < 24
    ensures Offset(Index(Walk(t).0, Walk(t).1)) == (t + 1) * (t + 2) / 2 % 64
  {
    hide Walk, Visited, Offset, Index, Turn;
    OrderIsWalk(t);
    EveryTurn(t + 1);
    TurnIsTriangular(t + 1);
  }

  /** Lane s, visited just before time t, has the offset that the chain uses at time t. */
  ghost predicate Turned(t: nat, s: nat, numBits: nat)
    requires 1 <= t <= 24 && s < StateSize
  {
    Visited(t - 1) == s && Offset(s) == numBits && Turn(t) == numBits
  }

  lemma TurnedFrom1()
    ensures Turned(1, 1, 1) && Turned(2, 10, 3) && Turned(3, 7, 6) && Turned(4, 11, 10)
  {
  }

  lemma TurnedFrom5()
    ensures Turned(5, 17, 15) && Turned(6, 18, 21) && Turned(7, 3, 28) && Turned(8, 5, 36)
  {
  }

  lemma TurnedFrom9()
    ensures Turned(9, 16, 45) && Turned(10, 8, 55) && Turned(11, 21, 2) && Turned(12, 24, 14)
  {
  }

  lemma TurnedFrom13()
    ensures Turned(13, 4, 27) && Turned(14, 15, 41) && Turned(15, 23, 56) && Turned(16, 19, 8)
  {
  }

  lemma TurnedFrom17()
    ensures Turned(17, 13, 25) && Turned(18, 12, 43) && Turned(19, 2, 62) && Turned(20, 20, 18)
  {
  }

  lemma TurnedFrom21()
    ensures Turned(21, 14, 39) && Turned(22, 22, 61) && Turned(23, 9, 20) && Turned(24, 6, 44)
  {
  }

  lemma EveryTurned()
    ensures Turned(1, 1, 1) && Turned(2, 10, 3) && Turned(3, 7, 6) && Turned(4, 11, 10)
    ensures Turned(5, 17, 15) && Turned(6, 18, 21) && Turned(7, 3, 28) && Turned(8, 5, 36)
    ensures Turned(9, 16, 45) && Turned(10, 8, 55) && Turned(11, 21, 2) && Turned(12, 24, 14)
    ensures Turned(13, 4, 27) && Turned(14, 15, 41) && Turned(15, 23, 56) && Turned(16, 19, 8)
    ensures Turned(17, 13, 25) && Turned(18, 12, 43) && Turned(19, 2, 62) && Turned(20, 20, 18)
    ensures Turned(21, 14, 39) && Turned(22, 22, 61) && Turned(23, 9, 20) && Turned(24, 6, 44)
  {
    hide Turned;
    TurnedFrom1();
    TurnedFrom5();
    TurnedFrom9();
    TurnedFrom13();
    TurnedFrom17();
    TurnedFrom21();
  }

  lemma EveryTurn(t: nat)
    requires 1 <= t <= 24
    ensures Offset(Visited(t - 1)) == Turn(t)
  {
    hide Visited, Offset, Turn;
    EveryTurned();
    assert t == 1 || t == 2 || t == 3 || t == 4 || t == 5 || t == 6 || t == 7 || t == 8 || t == 9 || t == 10 || t == 11 || t == 12
      || t == 13 || t == 14 || t == 15 || t == 16 || t == 17 || t == 18 || t == 19 || t == 20 || t == 21 || t == 22 || t == 23 || t == 24;
  }

  lemma VisitedLast()
    ensures Visited(24) == 1
  {
  }

  /** The lane that moves to where the chain writes at time t is the one it visited just before. */
  lemma SourceOfVisited(t: nat)
    requires 1 <= t <= 24
    ensures Source(Visited(t)) == Visited(t - 1)
  {
    hide Visited, Index;
    OrderStep(t);
    var before := Visited(t - 1);
    var x, y := before % 5, before / 5;
    var q, z := (2 * x + 3 * y) / 5, (2 * x + 3 * y) % 5;
    Coordinates(y, z);
    assert y + 3 * z == x + 5 * (x + 2 * y - 3 * q);
    IndexWraps(x, y, x + 2 * y - 3 * q);
  }

  lemma IndexWraps(x: nat, y: nat, k: int)
    requires x < 5 && y < 5
    ensures Index(x + 5 * k, y) == 5 * y + x
  {
  }

  /** Every lane but the first is visited. */
  lemma Reached(i: nat)
    requires 1 <= i < StateSize
    ensures TimeOf(i) >= 1 && Visited(TimeOf(i)) == i
  {
  }

  lemma Arrives(i: nat)
    requires 1 <= i < StateSize
    ensures TimeOf(i) >= 1 && Source(i) == Visited(TimeOf(i) - 1) && Offset(Source(i)) == Turn(TimeOf(i))
  {
    hide Visited, Offset, Turn, Source, TimeOf;
    Reached(i);
    SourceOfVisited(TimeOf(i));
    EveryTurn(TimeOf(i));
  }

  /** What lane i holds after t links. */
  function After(a: State, i: nat, t: nat): Lane
    requires i < StateSize
  {
    if 1 <= TimeOf(i) <= t then RotateLeft(a[Visited(TimeOf(i) - 1)], Turn(TimeOf(i))) else a[i]
  }

  /** After t links: the lanes visited hold the turned lane before them, the others are untouched. */
  ghost predicate Linked(a: State, b: seq<Lane>, last: Lane, t: nat) {
    && t <= 24 && |b| == StateSize
    && last == a[Visited(t)]
    && forall i {:trigger b[i]} :: 0 <= i < StateSize ==> b[i] == After(a, i, t)
  }

  /** One link of the chain: the lane carried so far is turned into its place and the lane found there is carried on. */
  method Move(h: array<Lane>, at: nat, last: Lane, numBits: nat, ghost a: State, ghost t: nat) returns (one: Lane)
    requires h.Length == StateSize && t < 24 && Linked(a, h[..], last, t)
    requires at == Visited(t + 1) && numBits == Turn(t + 1)
    modifies h
    ensures Linked(a, h[..], one, t + 1)
  {
    hide RotateLeft, Visited, TimeOf, Turn;
    AtTime(t + 1);
    one := h[at];
    h[at] := RotateLeft(last, numBits);
  }

  lemma ChainEnds(a: State, b: State, last: Lane)
    requires Linked(a, b, last, 24)
    ensures b == Pi(Rho(a))
  {
    hide RotateLeft, Pi, Rho, TimeOf, Visited, Source, Offset, Turn;
    forall i | 0 <= i < StateSize ensures b[i] == Pi(Rho(a))[i] {
      RhoPiAt(a, i);
      assert b[i] == After(a, i, 24);
      if i > 0 { Arrives(i); } else { StaysAtOrigin(); }
    }
  }

  lemma RhoPiAt(a: State, i: nat)
    requires i < StateSize
    ensures Pi(Rho(a))[i] == RhoLane(a, Source(i))
  {
    hide RhoLane, Source;
  }

  lemma StaysAtOrigin()
    ensures TimeOf(0) == 0 && Source(0) == 0
  {
    hide TimeOf, Source;
    OriginUnvisited();
    OriginUnmoved();
  }

  lemma OriginUnvisited()
    ensures TimeOf(0) == 0
  {
  }

  lemma OriginUnmoved()
    ensures Source(0) == 0
  {
  }

  lemma ChainStarts(a: State)
    ensures Linked(a, a, a[1], 0)
  {
  }

  method RhoPiInPlace(h: array<Lane>)
    requires h.Length == StateSize
    modifies h
    ensures h[..] == Pi(Rho(old(h[..])))
  {
    hide RotateLeft, Pi, Rho, Linked, Visited, Turn, Offset;
    ghost var a := h[..];
    var last := h[1];
    ChainStarts(a);
    EveryTurned();
    VisitedLast();
    last := Move(h, 10, last,  1, a, 0);
    last := Move(h,  7, last,  3, a, 1);
    last := Move(h, 11, last,  6, a, 2);
    last := Move(h, 17, last, 10, a, 3);
    last := Move(h, 18, last, 15, a, 4);
    last := Move(h,  3, last, 21, a, 5);
    last := Move(h,  5, last, 28, a, 6);
    last := Move(h, 16, last, 36, a, 7);
    last := Move(h,  8, last, 45, a, 8);
    last := Move(h, 21, last, 55, a, 9);
    last := Move(h, 24, last,  2, a, 10);
    last := Move(h,  4, last, 14, a, 11);
    last := Move(h, 15, last, 27, a, 12);
    last := Move(h, 23, last, 41, a, 13);
    last := Move(h, 19, last, 56, a, 14);
    last := Move(h, 13, last,  8, a, 15);
    last := Move(h, 12, last, 25, a, 16);
    last := Move(h,  2, last, 43, a, 17);
    last := Move(h, 20, last, 62, a, 18);
    last := Move(h, 14, last, 18, a, 19);
    last := Move(h, 22, last, 39, a, 20);
    last := Move(h,  9, last, 61, a, 21);
    last := Move(h,  6, last, 20, a, 22);
    last := Move(h,  1, last, 44, a, 23);
    ChainEnds(a, h[..], last);
  }

  method ChiInPlace(h: array<Lane>)
    requires h.Length == StateSize
    modifies h
    ensures h[..] == Chi(old(h[..]))
  {
    hide Mixed, Chi, RowMixed;
    ghost var a := h[..];
    var j := 0;
    ghost var y := 0;
    while j < StateSize
      invariant 0 <= j <= StateSize && j == 5 * y && y <= 5
      invariant forall i :: 0 <= i < j ==> h[i] == Chi(a)[i]
      invariant forall i :: j <= i < StateSize ==> h[i] == a[i]
    {
      ghost var before := h[..];
      ChiRow(h, j);
      RowIsChi(a, before, h[..], y);
      j, y := j + 5, y + 1;
    }
  }

  /** Five lanes from index j, each mixed with the two behind it in the row. */
  ghost predicate RowMixed(a: seq<Lane>, b: seq<Lane>, j: nat)
    requires j + 5 <= |a| && j + 5 <= |b|
  {
    && b[j] == Mixed(a[j], a[j + 1], a[j + 2])
    && b[j + 1] == Mixed(a[j + 1], a[j + 2], a[j + 3])
    && b[j + 2] == Mixed(a[j + 2], a[j + 3], a[j + 4])
    && b[j + 3] == Mixed(a[j + 3], a[j + 4], a[j])
    && b[j + 4] == Mixed(a[j + 4], a[j], a[j + 1])
  }

  lemma RowIsChi(a: State, before: State, after: State, y: nat)
    requires y < 5 && RowMixed(before, after, 5 * y)
    requires forall i :: 5 * y <= i < StateSize ==> before[i] == a[i]
    ensures forall i :: 5 * y <= i < 5 * y + 5 ==> after[i] == Chi(a)[i]
  {
    hide Mixed, Chi;
    ChiAt(a, y);
  }

  lemma ChiAt(a: State, y: nat)
    requires y < 5
    ensures RowMixed(a, Chi(a), 5 * y)
  {
    hide Mixed, Chi, Beside;
    ChiLane(a, y, 0);
    ChiLane(a, y, 1);
    ChiLane(a, y, 2);
    ChiLane(a, y, 3);
    ChiLane(a, y, 4);
  }

  lemma ChiLane(a: State, y: nat, x: nat)
    requires y < 5 && x < 5
    ensures Chi(a)[5 * y + x] == Mixed(a[5 * y + x], a[Beside(5 * y + x, 1)], a[Beside(5 * y + x, 2)])
    ensures Beside(5 * y + x, 1) == 5 * y + if x < 4 then x + 1 else 0
    ensures Beside(5 * y + x, 2) == 5 * y + if x < 3 then x + 2 else x - 3
  {
    hide Mixed, Index;
    Coordinates(x, y);
    IndexAt(x, y, 1);
    IndexAt(x, y, 2);
  }

  method ChiRow(h: array<Lane>, j: nat)
    requires h.Length == StateSize && j + 5 <= StateSize
    modifies h
    ensures forall i :: 0 <= i < StateSize && !(j <= i < j + 5) ==> h[i] == old(h[i])
    ensures RowMixed(old(h[..]), h[..], j)
  {
    hide Mixed;
    var one := h[j];
    var two := h[j + 1];
    h[j] := Mixed(h[j], two, h[j + 2]);
    h[j + 1] := Mixed(h[j + 1], h[j + 2], h[j + 3]);
    h[j + 2] := Mixed(h[j + 2], h[j + 3], h[j + 4]);
    h[j + 3] := Mixed(h[j + 3], h[j + 4], one);
    h[j + 4] := Mixed(h[j + 4], one, two);
  }

  lemma ColumnAt(a: State, x: nat)
    requires x < 5
    ensures Column(a, x) == Xor(Xor(Xor(Xor(a[x], a[x + 5]), a[x + 10]), a[x + 15]), a[x + 20])
  {
    hide Xor, Index;
    IndexAt(x, 0, 0);
    IndexAt(x, 1, 0);
    IndexAt(x, 2, 0);
    IndexAt(x, 3, 0);
    IndexAt(x, 4, 0);
  }

  /** A column is named by its number modulo 5. */
  lemma ColumnWraps(a: State, x: nat)
    requires x < 5
    ensures ThetaEffect(a, x) == Xor(Column(a, (x + 4) % 5), RotateLeft(Column(a, (x + 1) % 5), 1))
  {
    hide Xor, RotateLeft, Index;
    IndexModulo(x - 1, x + 4);
    IndexModulo(x - 1, (x + 4) % 5);
    IndexModulo(x + 1, (x + 1) % 5);
  }

  lemma IndexModulo(x: int, z: nat)
    requires x % 5 == z % 5
    ensures forall y {:trigger Index(x, y)} {:trigger Index(z, y)} :: Index(x, y) == Index(z, y)
  {
  }

  /** The column sums of the whole state, taken before any lane is changed. */
  method Coefficients(h: array<Lane>) returns (coefficients: array<Lane>)
    requires h.Length == StateSize
    ensures fresh(coefficients) && coefficients.Length == 5
    ensures forall k :: 0 <= k < 5 ==> coefficients[k] == Column(h[..], k)
  {
    hide Xor, Column;
    coefficients := new Lane[5];
    for i := 0 to 5
      invariant forall k :: 0 <= k < i ==> coefficients[k] == Column(h[..], k)
    {
      coefficients[i] := Xor(Xor(Xor(Xor(h[i], h[i + 5]), h[i + 10]), h[i + 15]), h[i + 20]);
      ColumnAt(h[..], i);
    }
  }

  predicate InColumn(k: nat, i: nat) {
    k == i || k == i + 5 || k == i + 10 || k == i + 15 || k == i + 20
  }

  lemma InColumnModulo(i: nat)
    requires i < 5
    ensures forall k :: 0 <= k < StateSize ==> (InColumn(k, i) <==> k % 5 == i)
  {
  }

  method MixLane(h: array<Lane>, k: nat, one: Lane)
    requires k < h.Length
    modifies h
    ensures forall j {:trigger h[j]} :: 0 <= j < h.Length ==> h[j] == if j == k then Xor(old(h[k]), one) else old(h[j])
  {
    h[k] := Xor(h[k], one);
  }

  /** One column mixed with the same lane. */
  method MixColumn(h: array<Lane>, i: nat, one: Lane)
    requires h.Length == StateSize && i < 5
    modifies h
    ensures forall k {:trigger h[k]} :: 0 <= k < StateSize ==> h[k] == if InColumn(k, i) then Xor(old(h[k]), one) else old(h[k])
  {
    hide Xor;
    MixLane(h, i, one);
    MixLane(h, i + 5, one);
    MixLane(h, i + 10, one);
    MixLane(h, i + 15, one);
    MixLane(h, i + 20, one);
  }

  lemma ThetaAt(a: State, k: nat)
    requires k < StateSize
    ensures Theta(a)[k] == Xor(a[k], ThetaEffect(a, k % 5))
  {
    hide Xor, ThetaEffect;
  }

  method ThetaInPlace(h: array<Lane>)
    requires h.Length == StateSize
    modifies h
    ensures h[..] == Theta(old(h[..]))
  {
    hide Xor, ThetaEffect, Theta, RotateLeft, Column, InColumn;
    ghost var a := h[..];
    var coefficients := Coefficients(h);
    for i := 0 to 5
      invariant forall k {:trigger h[k]} :: 0 <= k < StateSize ==> h[k] == if k % 5 < i then Xor(a[k], ThetaEffect(a, k % 5)) else a[k]
      invariant forall k :: 0 <= k < 5 ==> coefficients[k] == Column(a, k)
    {
      var one := Xor(coefficients[Mod5(i + 4)], RotateLeft(coefficients[Mod5(i + 1)], 1));
      ColumnWraps(a, i);
      InColumnModulo(i);
      MixColumn(h, i, one);
    }
    forall k | 0 <= k < StateSize ensures h[k] == Theta(a)[k] {
      ThetaAt(a, k);
    }
  }

  function Mod5(x: nat): (r: nat)
    requires x <= 9
    ensures r == x % 5
  {
    if x < 5 then x else x - 5
  }

  // ------------------------------------------------------------ the round constants

  /** The constant of each round. */
  function XorMask(round: nat): Lane
    requires round < Rounds
  {
    match round
    case 0 => 0x0000000000000001 case 1 => 0x0000000000008082 case 2 => 0x800000000000808a
    case 3 => 0x8000000080008000 case 4 => 0x000000000000808b case 5 => 0x0000000080000001
    case 6 => 0x8000000080008081 case 7 => 0x8000000000008009 case 8 => 0x000000000000008a
    case 9 => 0x0000000000000088 case 10 => 0x0000000080008009 case 11 => 0x000000008000000a
    case 12 => 0x000000008000808b case 13 => 0x800000000000008b case 14 => 0x8000000000008089
    case 15 => 0x8000000000008003 case 16 => 0x8000000000008002 case 17 => 0x8000000000000080
    case 18 => 0x000000000000800a case 19 => 0x800000008000000a case 20 => 0x8000000080008081
    case 21 => 0x8000000000008080 case 22 => 0x0000000080000001 case _ => 0x8000000080008008
  }

  /** One step of the feedback register that generates the constants; bit 0 is the bit it gives out. */
  function LfsrStep(r: bv8): bv8 {
    (r << 1) ^ (if r & 0x80 == 0 then 0 else 0x71)
  }

  function Lfsr(t: nat): bv8 {
    if t == 0 then 1 else LfsrStep(Lfsr(t - 1))
  }

  function Seven(r: bv8): bv8 {
    LfsrStep(LfsrStep(LfsrStep(LfsrStep(LfsrStep(LfsrStep(LfsrStep(r)))))))
  }

  /** Seven bits in a row, spread over the places 2^j - 1 of a lane. */
  function Spread(r: bv8): Lane {
    var r1 := LfsrStep(r);
    var r2 := LfsrStep(r1);
    var r3 := LfsrStep(r2);
    var r4 := LfsrStep(r3);
    var r5 := LfsrStep(r4);
    var r6 := LfsrStep(r5);
    ((r & 1) as Lane) | ((r1 & 1) as Lane << 1) | ((r2 & 1) as Lane << 3) | ((r3 & 1) as Lane << 7)
      | ((r4 & 1) as Lane << 15) | ((r5 & 1) as Lane << 31) | ((r6 & 1) as Lane << 63)
  }

  /** The register at the start of a round. */
  function RegisterAt(round: nat): bv8 {
    Lfsr(7 * round)
  }

  function RoundConstant(round: nat): Lane {
    Spread(RegisterAt(round))
  }

  lemma SevenOn(round: nat)
    ensures RegisterAt(round + 1) == Seven(RegisterAt(round))
  {
    hide LfsrStep;
    var t := 7 * round;
    assert Lfsr(t + 1) == LfsrStep(Lfsr(t));
    assert Lfsr(t + 2) == LfsrStep(Lfsr(t + 1));
    assert Lfsr(t + 3) == LfsrStep(Lfsr(t + 2));
    assert Lfsr(t + 4) == LfsrStep(Lfsr(t + 3));
    assert Lfsr(t + 5) == LfsrStep(Lfsr(t + 4));
    assert Lfsr(t + 6) == LfsrStep(Lfsr(t + 5));
    assert Lfsr(t + 7) == LfsrStep(Lfsr(t + 6));
  }

  /** In one round the register goes from r to next and gives the constant. */
  ghost predicate Generates(round: nat, r: bv8, next: bv8)
    requires round < Rounds
  {
    XorMask(round) == Spread(r) && Seven(r) == next
  }

  lemma GeneratesFrom0()
    ensures Generates(0, 1, 128) && Generates(1, 128, 216) && Generates(2, 216, 26) && Generates(3, 26, 223)
  {
  }

  lemma GeneratesFrom4()
    ensures Generates(4, 223, 9) && Generates(5, 9, 53) && Generates(6, 53, 79) && Generates(7, 79, 202)
  {
  }

  lemma GeneratesFrom8()
    ensures Generates(8, 202, 112) && Generates(9, 112, 65) && Generates(10, 65, 236) && Generates(11, 236, 213)
  {
  }

  lemma GeneratesFrom12()
    ensures Generates(12, 213, 205) && Generates(13, 205, 99) && Generates(14, 99, 171) && Generates(15, 171, 170)
  {
  }

  lemma GeneratesFrom16()
    ensures Generates(16, 170, 42) && Generates(17, 42, 242) && Generates(18, 242, 232) && Generates(19, 232, 55)
  {
  }

  lemma GeneratesFrom20()
    ensures Generates(20, 55, 62) && Generates(21, 62, 11) && Generates(22, 11, 68) && Generates(23, 68, 142)
  {
  }

  lemma RegisterStarts()
    ensures RegisterAt(0) == 1
  {
  }

  /** The constants of the code are those the feedback register generates. */
  lemma MaskIsRoundConstant(round: nat)
    requires round < Rounds
    ensures XorMask(round) == RoundConstant(round)
  {
    hide XorMask, Spread, Seven, Lfsr;
    GeneratesFrom0();
    GeneratesFrom4();
    GeneratesFrom8();
    GeneratesFrom12();
    GeneratesFrom16();
    GeneratesFrom20();
    RegisterStarts();
    forall i {:trigger RegisterAt(i)} | 0 <= i < 24 ensures RegisterAt(i + 1) == Seven(RegisterAt(i)) {
      SevenOn(i);
    }
    assert round == 0 || round == 1 || round == 2 || round == 3 || round == 4 || round == 5 || round == 6 || round == 7
      || round == 8 || round == 9 || round == 10 || round == 11 || round == 12 || round == 13 || round == 14 || round == 15
      || round == 16 || round == 17 || round == 18 || round == 19 || round == 20 || round == 21 || round == 22 || round == 23;
  }

  // ------------------------------------------------------------ the permutation

  function Round(a: State, round: nat): State {
    Iota(Chi(Pi(Rho(Theta(a)))), RoundConstant(round))
  }

  /** The state after the first n rounds. */
  function Permuted(a: State, n: nat): State {
    if n == 0 then a else Round(Permuted(a, n - 1), n - 1)
  }

  method RoundInPlace(h: array<Lane>, round: nat)
    requires h.Length == StateSize && round < Rounds
    modifies h
    ensures h[..] == Round(old(h[..]), round)
  {
    hide Theta, Rho, Pi, Chi, Xor, XorMask, RoundConstant;
    ThetaInPlace(h);
    RhoPiInPlace(h);
    ChiInPlace(h);
    MaskIsRoundConstant(round);
    h[0] := Xor(h[0], XorMask(round));
  }

  method Permute(h: array<Lane>)
    requires h.Length == StateSize
    modifies h
    ensures h[..] == Permuted(old(h[..]), Rounds)
  {
    hide Round;
    for round := 0 to Rounds
      invariant h[..] == Permuted(old(h[..]), round)
    {
      RoundInPlace(h, round);
    }
  }
}
