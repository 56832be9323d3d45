/** Machine words as numbers: the bit operators the stores use, by their effect on binary digits. */
module Bits {
  /** Bit `i` of `w`. */
  predicate Bit(w: nat, i: nat) {
    if i == 0 then w % 2 == 1 else Bit(w / 2, i - 1)
  }

  /** `w | 1 << i` */
  function SetBit(w: nat, i: nat): nat {
    if i == 0 then w - w % 2 + 1 else 2 * SetBit(w / 2, i - 1) + w % 2
  }

  /** `w & (1 << i - 1)` */
  function LowBits(w: nat, i: nat): nat {
    if i == 0 then 0 else 2 * LowBits(w / 2, i - 1) + w % 2
  }

  /** `w >> i` */
  function ShiftRight(w: nat, i: nat): nat {
    if i == 0 then w else ShiftRight(w / 2, i - 1)
  }

  function OnesCount(w: nat): nat {
    if w == 0 then 0 else OnesCount(w / 2) + w % 2
  }

  function TrailingZeros(w: nat): nat
    requires w != 0
  {
    if w % 2 == 1 then 0 else 1 + TrailingZeros(w / 2)
  }

  /** `w & (w - 1)` */
  function ClearLowest(w: nat): nat
    requires w != 0
  {
    if w % 2 == 1 then w - 1 else 2 * ClearLowest(w / 2)
  }

  function Pow2(n: nat): nat {
    if n == 0 then 1 else 2 * Pow2(n - 1)
  }

  /** Set bits below position `i`. */
  function CountBelow(w: nat, i: nat): nat {
    if i == 0 then 0 else CountBelow(w, i - 1) + if Bit(w, i - 1) then 1 else 0
  }

  lemma {:induction false} SetBitBits(w: nat, i: nat, j: nat)
    ensures Bit(SetBit(w, i), j) <==> Bit(w, j) || i == j
  {
    var s := SetBit(w, i);
    if i == 0 {
      assert s / 2 == w / 2;
    } else {
      assert s / 2 == SetBit(w / 2, i - 1) && s % 2 == w % 2;
      if j != 0 { SetBitBits(w / 2, i - 1, j - 1); }
    }
  }

  lemma {:induction false} SetBitBound(w: nat, i: nat, n: nat)
    requires i < n && w < Pow2(n)
    ensures SetBit(w, i) < Pow2(n)
  {
    var h, r, half := w / 2, w % 2, Pow2(n - 1);
    assert w == 2 * h + r && Pow2(n) == 2 * half && h < half;
    if i == 0 {
      assert SetBit(w, i) == 2 * h + 1;
    } else {
      SetBitBound(h, i - 1, n - 1);
      assert SetBit(w, i) == 2 * SetBit(h, i - 1) + r;
    }
  }

  lemma {:induction false} CountBelowShift(w: nat, i: nat)
    ensures CountBelow(w, i + 1) == w % 2 + CountBelow(w / 2, i)
  {
    if i == 0 {
    } else {
      CountBelowShift(w, i - 1);
    }
  }

  /** Counting the ones under a mask counts the set bits below it. */
  lemma {:induction false} OnesUnderMask(w: nat, i: nat)
    ensures OnesCount(LowBits(w, i)) == CountBelow(w, i)
  {
    if i == 0 {
    } else {
      var l := LowBits(w, i);
      assert l / 2 == LowBits(w / 2, i - 1) && l % 2 == w % 2;
      OnesUnderMask(w / 2, i - 1);
      CountBelowShift(w, i - 1);
    }
  }

  lemma {:induction false} OnesInWord(w: nat, n: nat)
    requires w < Pow2(n)
    ensures OnesCount(w) == CountBelow(w, n)
  {
    if n == 0 {
    } else {
      OnesInWord(w / 2, n - 1);
      CountBelowShift(w, n - 1);
    }
  }

  lemma {:induction false} ZeroHasNoBits(i: nat)
    ensures !Bit(0, i)
  {
    if i == 0 {
    } else {
      ZeroHasNoBits(i - 1);
    }
  }

  /** The lowest set bit, and the word without it. */
  lemma {:induction false} LowestBit(w: nat, j: nat)
    requires w != 0
    ensures Bit(w, TrailingZeros(w))
    ensures j < TrailingZeros(w) ==> !Bit(w, j)
    ensures Bit(ClearLowest(w), j) <==> Bit(w, j) && j != TrailingZeros(w)
    ensures ClearLowest(w) < w
  {
    if w % 2 == 1 {
      assert ClearLowest(w) / 2 == w / 2;
    } else {
      LowestBit(w / 2, if j == 0 then 0 else j - 1);
      assert ClearLowest(w) / 2 == ClearLowest(w / 2);
    }
  }

  lemma {:induction false} BitsBelowBound(w: nat, n: nat, i: nat)
    requires w < Pow2(n) && n <= i
    ensures !Bit(w, i)
  {
    if n == 0 { ZeroHasNoBits(i); } else { BitsBelowBound(w / 2, n - 1, i - 1); }
  }

  /** Shifting a word clear of its low bits leaves zero exactly when no higher bit is set. */
  lemma {:induction false} ShiftedClear(w: nat, i: nat)
    ensures ShiftRight(w, i) == 0 ==> forall j: nat | i <= j :: !Bit(w, j)
    ensures ShiftRight(w, i) != 0 ==> exists j: nat :: i <= j && Bit(w, j)
  {
    if i == 0 {
      if w == 0 {
        forall j: nat ensures !Bit(0, j) { ZeroHasNoBits(j); }
      } else {
        LowestBit(w, 0);
      }
    } else {
      ShiftedClear(w / 2, i - 1);
      if ShiftRight(w, i) == 0 {
        forall j: nat | i <= j ensures !Bit(w, j) { assert !Bit(w / 2, j - 1); }
      } else {
        var j: nat :| i - 1 <= j && Bit(w / 2, j);
        assert Bit(w, j + 1) == Bit(w / 2, j);
      }
    }
  }
}
