/** Machine words as naturals, seen bit by bit.
    Every operation comes with its per-bit meaning, which is all that callers use. */
module Bits {

  // Bit i of the word v; bit 0 is the least significant
  predicate Bit(v: nat, i: nat) {
    if i == 0 then v % 2 == 1 else Bit(v / 2, i - 1)
  }

  // v has no bits at or above position w
  predicate Fits(v: nat, w: nat) {
    if w == 0 then v == 0 else Fits(v / 2, w - 1)
  }

  function Shr(v: nat, k: nat): nat {
    if k == 0 then v else Shr(v / 2, k - 1)
  }

  function Shl(v: nat, k: nat): nat
    decreases k
  {
    if k == 0 then v else Shl(2 * v, k - 1)
  }

  // The low w bits of v, as a store into a w-bit variable keeps them
  function Trunc(v: nat, w: nat): nat {
    if w == 0 then 0 else v % 2 + 2 * Trunc(v / 2, w - 1)
  }

  function Ones(w: nat): nat {
    if w == 0 then 0 else 1 + 2 * Ones(w - 1)
  }

  function And(v: nat, u: nat): nat {
    if v == 0 || u == 0 then 0
    else (if v % 2 == 1 && u % 2 == 1 then 1 else 0) + 2 * And(v / 2, u / 2)
  }

  function Or(v: nat, u: nat): nat
    decreases v + u
  {
    if v == 0 then u else if u == 0 then v
    else (if v % 2 == 1 || u % 2 == 1 then 1 else 0) + 2 * Or(v / 2, u / 2)
  }

  // v with every bit set in u cleared: v & ~u
  function AndNot(v: nat, u: nat): nat {
    if v == 0 then 0
    else (if v % 2 == 1 && u % 2 == 0 then 1 else 0) + 2 * AndNot(v / 2, u / 2)
  }

  lemma {:induction false} ZeroBits(i: nat)
    ensures !Bit(0, i)
  {
    if i > 0 { ZeroBits(i - 1); }
  }

  // A nonzero word that fits has a bit set, so a scan for the lowest one ends
  lemma {:induction false} NonzeroHasBit(v: nat, w: nat) returns (i: nat)
    requires v != 0 && Fits(v, w)
    ensures i < w && Bit(v, i)
  {
    if v % 2 == 1 {
      i := 0;
    } else {
      i := NonzeroHasBit(v / 2, w - 1);
      i := i + 1;
    }
  }

  lemma {:induction false} ShrBit(v: nat, k: nat, i: nat)
    ensures Bit(Shr(v, k), i) == Bit(v, i + k)
  {
    if k > 0 { ShrBit(v / 2, k - 1, i); }
  }

  lemma {:induction false} ShlBit(v: nat, k: nat, i: nat)
    ensures Bit(Shl(v, k), i) == (i >= k && Bit(v, i - k))
    decreases k
  {
    if k > 0 {
      ShlBit(2 * v, k - 1, i);
      if i >= k { assert (2 * v) / 2 == v; }
    }
  }

  lemma {:induction false} TruncBit(v: nat, w: nat, i: nat)
    ensures Fits(Trunc(v, w), w)
    ensures Bit(Trunc(v, w), i) == (i < w && Bit(v, i))
  {
    if w == 0 {
      ZeroBits(i);
    } else {
      TruncBit(v / 2, w - 1, if i > 0 then i - 1 else 0);
      assert Trunc(v, w) / 2 == Trunc(v / 2, w - 1);
    }
  }

  lemma {:induction false} OnesBit(w: nat, i: nat)
    ensures Fits(Ones(w), w)
    ensures Bit(Ones(w), i) == (i < w)
  {
    if w == 0 {
      ZeroBits(i);
    } else {
      OnesBit(w - 1, if i > 0 then i - 1 else 0);
      assert Ones(w) / 2 == Ones(w - 1);
    }
  }

  lemma {:induction false} AndBit(v: nat, u: nat, i: nat)
    ensures Bit(And(v, u), i) == (Bit(v, i) && Bit(u, i))
  {
    if v == 0 || u == 0 {
      ZeroBits(i);
    } else if i > 0 {
      AndBit(v / 2, u / 2, i - 1);
      assert And(v, u) / 2 == And(v / 2, u / 2);
    }
  }

  lemma {:induction false} OrBit(v: nat, u: nat, i: nat)
    ensures Bit(Or(v, u), i) == (Bit(v, i) || Bit(u, i))
    decreases v + u
  {
    ZeroBits(i);
    if v != 0 && u != 0 && i > 0 {
      OrBit(v / 2, u / 2, i - 1);
      assert Or(v, u) / 2 == Or(v / 2, u / 2);
    }
  }

  lemma {:induction false} AndNotBit(v: nat, u: nat, i: nat)
    ensures Bit(AndNot(v, u), i) == (Bit(v, i) && !Bit(u, i))
  {
    if v == 0 {
      ZeroBits(i);
    } else if i > 0 {
      AndNotBit(v / 2, u / 2, i - 1);
      assert AndNot(v, u) / 2 == AndNot(v / 2, u / 2);
    }
  }

  // Fits is exactly the absence of high bits
  lemma {:induction false} FitsBits(v: nat, w: nat, i: nat)
    requires Fits(v, w) && i >= w
    ensures !Bit(v, i)
  {
    if w == 0 { ZeroBits(i); } else { FitsBits(v / 2, w - 1, i - 1); }
  }

  // Words of the same bits are the same word
  lemma {:induction false} SameBits(v: nat, u: nat, w: nat)
    requires Fits(v, w) && Fits(u, w) && forall i: nat :: i < w ==> Bit(v, i) == Bit(u, i)
    ensures v == u
  {
    if w > 0 {
      assert Bit(v, 0) == Bit(u, 0);
      forall i: nat | i < w - 1 ensures Bit(v / 2, i) == Bit(u / 2, i) {
        assert Bit(v, i + 1) == Bit(u, i + 1);
      }
      SameBits(v / 2, u / 2, w - 1);
    }
  }

  lemma {:induction false} FitsShr(v: nat, k: nat, w: nat)
    requires Fits(v, w)
    ensures Fits(Shr(v, k), w)
  {
    if k > 0 { FitsHalf(v, w); FitsShr(v / 2, k - 1, w); }
  }

  lemma {:induction false} FitsHalf(v: nat, w: nat)
    requires Fits(v, w)
    ensures Fits(v / 2, w)
  {
    if w > 0 { FitsHalf(v / 2, w - 1); }
  }

  lemma {:induction false} FitsZero(w: nat)
    ensures Fits(0, w)
  {
    if w > 0 { FitsZero(w - 1); }
  }

  lemma {:induction false} FitsAnd(v: nat, u: nat, w: nat)
    requires Fits(v, w)
    ensures Fits(And(v, u), w)
  {
    if w > 0 && v != 0 && u != 0 {
      FitsAnd(v / 2, u / 2, w - 1);
      assert And(v, u) / 2 == And(v / 2, u / 2);
    } else if w > 0 {
      FitsZero(w);
    }
  }

  lemma {:induction false} FitsAndNot(v: nat, u: nat, w: nat)
    requires Fits(v, w)
    ensures Fits(AndNot(v, u), w)
  {
    if w > 0 && v != 0 {
      FitsAndNot(v / 2, u / 2, w - 1);
      assert AndNot(v, u) / 2 == AndNot(v / 2, u / 2);
    }
  }

  lemma {:induction false} FitsOr(v: nat, u: nat, w: nat)
    requires Fits(v, w) && Fits(u, w)
    ensures Fits(Or(v, u), w)
    decreases w
  {
    if w > 0 && v != 0 && u != 0 {
      FitsOr(v / 2, u / 2, w - 1);
      assert Or(v, u) / 2 == Or(v / 2, u / 2);
    }
  }

  // 1 << x
  function OneBit(x: nat): nat { Shl(1, x) }

  lemma OneBitBit(x: nat, i: nat)
    ensures Bit(OneBit(x), i) == (i == x)
  {
    ShlBit(1, x, i);
    if i > x { ZeroBits(i - x - 1); assert Bit(1, i - x) == Bit(0, i - x - 1); }
  }

  lemma {:induction false} FitsShl(v: nat, k: nat, w: nat)
    requires Fits(v, w)
    ensures Fits(Shl(v, k), w + k)
    decreases k
  {
    if k > 0 {
      assert (2 * v) / 2 == v;
      FitsShl(2 * v, k - 1, w + 1);
    }
  }

  lemma {:induction false} FitsWiden(v: nat, w: nat, w': nat)
    requires Fits(v, w) && w <= w'
    ensures Fits(v, w')
  {
    if w == 0 { FitsZero(w'); } else { FitsWiden(v / 2, w - 1, w' - 1); }
  }

  lemma {:induction false} ShlDouble(v: nat, k: nat)
    ensures Shl(2 * v, k) == 2 * Shl(v, k)
    decreases k
  {
    if k > 0 { ShlDouble(2 * v, k - 1); }
  }

  // (1 << w) - 1
  lemma {:induction false} OnesIsShl(w: nat)
    ensures Shl(1, w) == Ones(w) + 1
  {
    if w > 0 {
      ShlDouble(1, w - 1);
      OnesIsShl(w - 1);
    }
  }

  // v |= 1 << x
  function SetBit(v: nat, x: nat): nat { Or(v, OneBit(x)) }

  lemma SetBitBits(v: nat, x: nat, w: nat)
    requires Fits(v, w) && x < w
    ensures Fits(SetBit(v, x), w)
    ensures forall i: nat :: Bit(SetBit(v, x), i) == (i == x || Bit(v, i))
  {
    FitsShl(1, x, 1);
    FitsWiden(OneBit(x), x + 1, w);
    FitsOr(v, OneBit(x), w);
    forall i: nat ensures Bit(SetBit(v, x), i) == (i == x || Bit(v, i)) {
      OneBitBit(x, i);
      OrBit(v, OneBit(x), i);
    }
  }
}
