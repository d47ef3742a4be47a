/** How a channel numbers its requests: one counter, started and wrapped according to the side it is on. */
module Numbering {
  import opened Modulo

  datatype Mode = Initiative | Passive

  const TwoTo32: nat := 0x1_0000_0000
  const Max: nat := 0xFFFF_FFFF
  const Half: nat := 0x7FFF_FFFF

  function Start(mode: Mode): nat {
    if mode == Initiative then 0 else Half
  }

  /** How many draws there are before a number comes back. */
  function Period(mode: Mode): (p: nat)
    ensures p > 0
  {
    if mode == Initiative then Max else Half + 2
  }

  /** The number of the k-th draw, counted from the start. */
  function Drawn(mode: Mode, k: nat): nat {
    Start(mode) + k % Period(mode)
  }

  /** The counter of a channel. */
  class Counter {
    const mode: Mode
    var reqNo: nat
    /** How many numbers were drawn. */
    ghost var draws: nat

    ghost predicate Valid()
      reads this
    {
      reqNo == Drawn(mode, draws)
    }

    constructor (mode: Mode)
      ensures Valid() && draws == 0 && this.mode == mode
    {
      this.mode := mode;
      reqNo := if mode == Initiative then 0 else Max / 2;
      draws := 0;
    }

    method NewReq() returns (no: nat)
      requires Valid()
      modifies this
      ensures Valid() && draws == old(draws) + 1
      ensures no == Drawn(mode, draws) && no == reqNo < TwoTo32
    {
      hide Drawn;
      NextDrawn(mode, draws);
      reqNo := (reqNo + 1) % TwoTo32;
      if mode == Initiative {
        if reqNo >= Max {
          reqNo := 0;
        }
      } else {
        if reqNo <= Max / 2 {
          reqNo := Max / 2;
        }
      }
      draws := draws + 1;
      no := reqNo;
    }
  }

  lemma NextDrawn(mode: Mode, k: nat)
    ensures Drawn(mode, k + 1) == (
      if mode == Initiative then if Drawn(mode, k) + 1 == Max then 0 else Drawn(mode, k) + 1
      else if Drawn(mode, k) == Max then Half else Drawn(mode, k) + 1)
    ensures if mode == Initiative then Drawn(mode, k) < Max else Half <= Drawn(mode, k) <= Max
  {
    Wraps(mode, k);
  }

  lemma Wraps(mode: Mode, k: nat)
    ensures var p := Period(mode); (k + 1) % p == if k % p == p - 1 then 0 else k % p + 1
  {
  }

  /** The first numbers of the two sides, and where each side's come round. */
  lemma FirstDraws()
    ensures Drawn(Initiative, 1) == 1 && Drawn(Initiative, 0xFFFF_FFFE) == 0xFFFF_FFFE && Drawn(Initiative, 0xFFFF_FFFF) == 0
    ensures Drawn(Passive, 1) == 0x8000_0000 && Drawn(Passive, 0x8000_0000) == 0xFFFF_FFFF && Drawn(Passive, 0x8000_0001) == 0x7FFF_FFFF
  {
  }

  /** Two draws give the same number exactly when a whole number of periods lies between them. */
  lemma SameNumber(mode: Mode, j: nat, k: nat)
    requires j <= k
    ensures Drawn(mode, j) == Drawn(mode, k) <==> (k - j) % Period(mode) == 0
  {
    hide Period;
    SameRemainder(Period(mode), j, k);
  }

  /** Within one period no number is drawn twice: 2^32 - 1 draws on the one side, 2^31 + 1 on the other. */
  lemma NoRepeat(mode: Mode, j: nat, k: nat)
    requires j < k < j + Period(mode)
    ensures Drawn(mode, j) != Drawn(mode, k)
    ensures Drawn(mode, j + Period(mode)) == Drawn(mode, j)
    ensures Period(Initiative) == 0xFFFF_FFFF && Period(Passive) == 0x8000_0001
  {
    SameNumber(mode, j, k);
    SameNumber(mode, j, j + Period(mode));
  }

  /** The numbers of the two sides meet exactly from the point where the initiative side leaves its lower half. */
  lemma SidesMeet(k: nat)
    ensures (exists j: nat :: Drawn(Passive, j) == Drawn(Initiative, k)) <==> k % Max >= Half
  {
    var no := Drawn(Initiative, k);
    if no >= Half {
      assert Drawn(Passive, no - Half) == no;
    }
  }
}
