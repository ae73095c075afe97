/** Bits of address words: netmasks and prefixes of one 32-bit word, in network order. */
module AddrBits {
  const ONES: bv32 := 0xffffffff
  const TOP: bv32 := 0x80000000

  function And(x: bv32, y: bv32): bv32 { x & y }

  function Or(x: bv32, y: bv32): bv32 { x | y }

  function Not(x: bv32): bv32 { !x }

  function Half(x: bv32): bv32 { x >> 1 }

  function Double(x: bv32): bv32 { x << 1 }

  /** The word with the first l bits set. */
  function Mask(l: nat): bv32 {
    if l == 0 then 0 else Or(Half(Mask(l - 1)), TOP)
  }

  /** The word with only bit i set, counted from the most significant. */
  function BitMask(i: nat): bv32 {
    if i == 0 then TOP else Half(BitMask(i - 1))
  }

  predicate Bit(x: bv32, i: nat) { And(x, BitMask(i)) != 0 }

  /** The mask as addr_netmask shifts it. */
  function Shifted(l: nat): bv32
    requires 1 <= l <= 32
  {
    ONES << (32 - l)
  }

  lemma OrHalf(m: bv32, b: bv32)
    ensures Or(Half(Or(m, b)), TOP) == Or(Or(Half(m), TOP), Half(b))
  {
  }

  lemma OrZero(b: bv32)
    ensures Or(0, b) == b && Or(b, b) == b && Half(0) == 0
  {
  }

  lemma {:induction false} MaskNext(l: nat)
    ensures Mask(l + 1) == Or(Mask(l), BitMask(l))
  {
    hide Or, Half;
    if l == 0 {
      OrZero(TOP);
    } else {
      MaskNext(l - 1);
      OrHalf(Mask(l - 1), BitMask(l - 1));
    }
  }

  lemma AndDistributes(x: bv32, m: bv32, b: bv32)
    ensures And(x, Or(m, b)) == Or(And(x, m), And(x, b))
  {
  }

  lemma AndAssociates(x: bv32, o: bv32, m: bv32)
    ensures And(And(x, o), m) == And(x, And(o, m))
  {
  }

  lemma Absorption(m: bv32, b: bv32)
    ensures And(Or(m, b), m) == m
  {
  }

  lemma OrCommutes(m: bv32, b: bv32)
    ensures Or(m, b) == Or(b, m)
  {
  }

  lemma AndAbsorbs(x: bv32, m: bv32, b: bv32)
    ensures And(And(x, Or(m, b)), m) == And(x, m) && And(And(x, Or(m, b)), b) == And(x, b)
  {
    hide And, Or;
    AndAssociates(x, Or(m, b), m);
    AndAssociates(x, Or(m, b), b);
    Absorption(m, b);
    Absorption(b, m);
    OrCommutes(m, b);
  }

  lemma AndOr(x: bv32, y: bv32, m: bv32, b: bv32)
    ensures And(x, Or(m, b)) == And(y, Or(m, b)) <==> And(x, m) == And(y, m) && And(x, b) == And(y, b)
  {
    hide And, Or;
    AndDistributes(x, m, b);
    AndDistributes(y, m, b);
    AndAbsorbs(x, m, b);
    AndAbsorbs(y, m, b);
  }

  lemma AndHalf(x: bv32, b: bv32)
    ensures And(x, Half(b)) == Half(And(Double(x), b))
  {
  }

  lemma AndTop(x: bv32)
    ensures And(x, TOP) == 0 || And(x, TOP) == TOP
  {
  }

  /** A word masked to one bit is zero or that bit. */
  lemma {:induction false} OneBit(x: bv32, i: nat)
    ensures And(x, BitMask(i)) == 0 || And(x, BitMask(i)) == BitMask(i)
    decreases i
  {
    hide And, Half, Double;
    if i == 0 {
      AndTop(x);
    } else {
      AndHalf(x, BitMask(i - 1));
      OneBit(Double(x), i - 1);
      OrZero(0);
    }
  }

  lemma AndZero(x: bv32, y: bv32)
    ensures And(x, 0) == And(y, 0)
  {
  }

  /** Two words agree under the mask exactly when their first l bits agree. */
  lemma {:induction false} MaskPrefix(x: bv32, y: bv32, l: nat)
    ensures And(x, Mask(l)) == And(y, Mask(l)) <==> forall i :: 0 <= i < l ==> Bit(x, i) == Bit(y, i)
    decreases l
  {
    hide And, Or, Half, Mask, BitMask;
    if l == 0 {
      AndZero(x, y);
      MaskZero();
    } else {
      MaskPrefix(x, y, l - 1);
      MaskNext(l - 1);
      AndOr(x, y, Mask(l - 1), BitMask(l - 1));
      OneBit(x, l - 1);
      OneBit(y, l - 1);
      assert Bit(x, l - 1) == Bit(y, l - 1) <==> And(x, BitMask(l - 1)) == And(y, BitMask(l - 1));
    }
  }

  lemma MaskZero()
    ensures Mask(0) == 0
  {
  }

  /** A net word with no host bits: masking the host's word gives it exactly when the masked words agree. */
  lemma NetWord(h: bv32, n: bv32, m: bv32)
    requires And(n, Not(m)) == 0
    ensures And(n, m) == n && (And(h, m) == n <==> And(h, m) == And(n, m))
  {
  }

  lemma HalfOfAnd(x: bv32, y: bv32)
    ensures And(Half(x), Half(y)) == Half(And(x, y))
  {
  }

  lemma TopApart(x: bv32)
    ensures And(TOP, Half(x)) == 0
  {
  }

  /** Different bits do not overlap. */
  lemma {:induction false} BitsApart(i: nat, j: nat)
    requires i < j
    ensures And(BitMask(i), BitMask(j)) == 0
    decreases i
  {
    hide And, Half;
    if i == 0 {
      TopApart(BitMask(j - 1));
    } else {
      BitsApart(i - 1, j - 1);
      HalfOfAnd(BitMask(i - 1), BitMask(j - 1));
      OrZero(0);
    }
  }

  lemma OrOfApart(m: bv32, b: bv32, c: bv32)
    requires And(m, c) == 0 && And(b, c) == 0
    ensures And(Or(m, b), c) == 0
  {
  }

  lemma ZeroApart(c: bv32)
    ensures And(0, c) == 0 && And(c, 0) == 0
  {
  }

  /** A mask has none of the bits behind its length. */
  lemma {:induction false} MaskStops(l: nat, i: nat)
    requires l <= i
    ensures And(Mask(l), BitMask(i)) == 0
    decreases l
  {
    hide And, Or, Half, BitMask, Mask;
    if l == 0 {
      MaskZero();
      ZeroApart(BitMask(i));
    } else {
      MaskNext(l - 1);
      MaskStops(l - 1, i);
      BitsApart(l - 1, i);
      OrOfApart(Mask(l - 1), BitMask(l - 1), BitMask(i));
    }
  }

  lemma Whole(x: bv32)
    ensures And(x, ONES) == x
  {
  }

  /** Words are equal exactly when all their bits are. */
  lemma SameBits(x: bv32, y: bv32)
    ensures x == y <==> forall i :: 0 <= i < 32 ==> Bit(x, i) == Bit(y, i)
  {
    hide And, Bit, Mask, Shifted;
    MaskPrefix(x, y, 32);
    ShiftedIsMask(32);
    FullShift();
    Whole(x);
    Whole(y);
  }

  lemma FullShift()
    ensures Shifted(32) == ONES
  {
  }

  lemma SplitByMask(x: bv32, m: bv32)
    ensures And(x, Not(m)) == 0 <==> And(x, m) == x
  {
  }

  lemma MaskedAgain(x: bv32, m: bv32)
    ensures And(And(x, m), m) == And(x, m)
  {
  }

  /** Bits of a masked word: those of the word in front, none behind. */
  lemma MaskedBit(x: bv32, l: nat, i: nat)
    ensures Bit(And(x, Mask(l)), i) == (i < l && Bit(x, i))
  {
    hide And, Mask, BitMask;
    if i < l {
      MaskedAgain(x, Mask(l));
      MaskPrefix(And(x, Mask(l)), x, l);
    } else {
      MaskStops(l, i);
      AndAssociates(x, Mask(l), BitMask(i));
      ZeroApart(x);
    }
  }

  /** Nothing is left under the inverted mask exactly when no bit behind its length is set. */
  lemma HostPart(x: bv32, l: nat)
    ensures And(x, Not(Mask(l))) == 0 <==> forall i :: l <= i < 32 ==> !Bit(x, i)
  {
    hide And, Not, Mask, Bit;
    SplitByMask(x, Mask(l));
    SameBits(And(x, Mask(l)), x);
    forall i | 0 <= i < 32
      ensures Bit(And(x, Mask(l)), i) == (i < l && Bit(x, i))
    {
      MaskedBit(x, l, i);
    }
  }

  function Byte(x: bv32, i: nat): bv32
    requires i < 4
  {
    if i == 0 then x >> 24 else if i == 1 then (x >> 16) & 0xff else if i == 2 then (x >> 8) & 0xff else x & 0xff
  }

  lemma BytesDetermine(x: bv32, y: bv32)
    ensures x == y <==> Byte(x, 0) == Byte(y, 0) && Byte(x, 1) == Byte(y, 1) && Byte(x, 2) == Byte(y, 2) && Byte(x, 3) == Byte(y, 3)
  {
  }

  /** Shifting gives the same masks. */
  lemma {:induction false} ShiftedIsMask(l: nat)
    requires 1 <= l <= 32
    ensures Shifted(l) == Mask(l)
    decreases l
  {
    hide Mask;
    if l == 1 {
      MaskStep(0);
      MaskZero();
    } else {
      ShiftedIsMask(l - 1);
      MaskStep(l - 1);
      ShiftedStep(l);
    }
  }

  lemma MaskStep(l: nat)
    ensures Mask(l + 1) == Or(Half(Mask(l)), TOP)
  {
  }

  lemma ShiftedStep(l: nat)
    requires 2 <= l <= 32
    ensures Shifted(l) == Or(Half(Shifted(l - 1)), TOP)
  {
    hide Shifted, Or, Half;
    if l <= 4 {
      ShiftedBy4(l);
    } else if l <= 8 {
      ShiftedBy8(l);
    } else if l <= 12 {
      ShiftedBy12(l);
    } else if l <= 16 {
      ShiftedBy16(l);
    } else if l <= 20 {
      ShiftedBy20(l);
    } else if l <= 24 {
      ShiftedBy24(l);
    } else {
      ShiftedBy32(l);
    }
  }

  lemma ShiftedBy4(l: nat)
    requires 2 <= l <= 4
    ensures Shifted(l) == Or(Half(Shifted(l - 1)), TOP)
  {
    if l == 2 {
      assert 32 - l == 30;
    } else if l == 3 {
      assert 32 - l == 29;
    } else if l == 4 {
      assert 32 - l == 28;
    }
  }

  lemma ShiftedBy8(l: nat)
    requires 5 <= l <= 8
    ensures Shifted(l) == Or(Half(Shifted(l - 1)), TOP)
  {
    if l == 5 {
      assert 32 - l == 27;
    } else if l == 6 {
      assert 32 - l == 26;
    } else if l == 7 {
      assert 32 - l == 25;
    } else if l == 8 {
      assert 32 - l == 24;
    }
  }

  lemma ShiftedBy12(l: nat)
    requires 9 <= l <= 12
    ensures Shifted(l) == Or(Half(Shifted(l - 1)), TOP)
  {
    if l == 9 {
      assert 32 - l == 23;
    } else if l == 10 {
      assert 32 - l == 22;
    } else if l == 11 {
      assert 32 - l == 21;
    } else if l == 12 {
      assert 32 - l == 20;
    }
  }

  lemma ShiftedBy16(l: nat)
    requires 13 <= l <= 16
    ensures Shifted(l) == Or(Half(Shifted(l - 1)), TOP)
  {
    if l == 13 {
      assert 32 - l == 19;
    } else if l == 14 {
      assert 32 - l == 18;
    } else if l == 15 {
      assert 32 - l == 17;
    } else if l == 16 {
      assert 32 - l == 16;
    }
  }

  lemma ShiftedBy20(l: nat)
    requires 17 <= l <= 20
    ensures Shifted(l) == Or(Half(Shifted(l - 1)), TOP)
  {
    if l == 17 {
      assert 32 - l == 15;
    } else if l == 18 {
      assert 32 - l == 14;
    } else if l == 19 {
      assert 32 - l == 13;
    } else if l == 20 {
      assert 32 - l == 12;
    }
  }

  lemma ShiftedBy24(l: nat)
    requires 21 <= l <= 24
    ensures Shifted(l) == Or(Half(Shifted(l - 1)), TOP)
  {
    if l == 21 {
      assert 32 - l == 11;
    } else if l == 22 {
      assert 32 - l == 10;
    } else if l == 23 {
      assert 32 - l == 9;
    } else if l == 24 {
      assert 32 - l == 8;
    }
  }

  lemma ShiftedBy32(l: nat)
    requires 25 <= l <= 32
    ensures Shifted(l) == Or(Half(Shifted(l - 1)), TOP)
  {
    if l == 25 {
      assert 32 - l == 7;
    } else if l == 26 {
      assert 32 - l == 6;
    } else if l == 27 {
      assert 32 - l == 5;
    } else if l == 28 {
      assert 32 - l == 4;
    } else if l == 29 {
      assert 32 - l == 3;
    } else if l == 30 {
      assert 32 - l == 2;
    } else if l == 31 {
      assert 32 - l == 1;
    } else if l == 32 {
      assert 32 - l == 0;
    }
  }
}
