/**
 * The checksum as polynomial arithmetic: the reflected CRC register holds the
 * remainder of schoolbook long division of the message, followed by 32 zero
 * bits, by the generator polynomial over GF(2).
 */
module Crc32Division {
  import opened Crc32Table
  import opened Crc32

  /** Bit `k` of a word; in the reflected register it is the coefficient of x^(31-k). */
  function Bit(x: bv32, k: nat): bool
    decreases k
  {
    if k == 0 then Odd(x) else Bit(Half(x), k - 1)
  }

  /** A word as a polynomial of degree below 32, highest coefficient first. */
  function Poly(x: bv32): (p: seq<bool>)
    ensures |p| == 32 && forall k :: 0 <= k < 32 ==> p[k] == Bit(x, k)
  {
    seq(32, k requires 0 <= k < 32 => Bit(x, k))
  }

  /** The generator polynomial of degree 32, highest coefficient first. */
  function Generator(): (p: seq<bool>)
    ensures |p| == 33
  {
    [true] + Poly(POLY)
  }

  /** Adds `t` to the leading coefficients of `s`. */
  function AddLeading(s: seq<bool>, t: seq<bool>): (r: seq<bool>)
    requires |t| <= |s|
    ensures |r| == |s|
    ensures forall k :: 0 <= k < |s| ==> r[k] == (if k < |t| then s[k] != t[k] else s[k])
  {
    seq(|s|, k requires 0 <= k < |s| => if k < |t| then s[k] != t[k] else s[k])
  }

  /** Schoolbook division by the generator: cancel the leading coefficient until fewer than 33 remain. */
  function Remainder(s: seq<bool>): seq<bool>
    decreases |s|
  {
    if |s| <= 32 then s
    else if s[0] then Remainder(AddLeading(s, Generator())[1..])
    else Remainder(s[1..])
  }

  function Zeros(n: nat): (z: seq<bool>)
    ensures |z| == n && forall k :: 0 <= k < n ==> !z[k]
  {
    seq(n, _ => false)
  }

  /** The bits of a byte in transmission order, least significant first. */
  function ByteBits(b: bv8): (s: seq<bool>)
    ensures |s| == 8 && forall k :: 0 <= k < 8 ==> s[k] == Bit(Extend(b), k)
  {
    seq(8, k requires 0 <= k < 8 => Bit(Extend(b), k))
  }

  function MessageBits(buf: seq<bv8>): seq<bool> {
    if buf == [] then [] else ByteBits(buf[0]) + MessageBits(buf[1..])
  }

  // ----- Bits of words

  lemma {:induction false} BitOfXor(r: bv32, s: bv32, k: nat)
    ensures Bit(Xor(r, s), k) == (Bit(r, k) != Bit(s, k))
    decreases k
  {
    hide Xor, Odd, Half;
    OddOfXor(r, s);
    HalfOfXor(r, s);
    if k > 0 {
      BitOfXor(Half(r), Half(s), k - 1);
    }
  }

  lemma ShiftFour(x: bv32)
    ensures x >> 1 >> 1 >> 1 >> 1 == x >> 4
  {
  }

  lemma ShiftOut(x: bv32)
    ensures x >> 4 >> 4 >> 4 >> 4 >> 4 >> 4 >> 4 >> 4 == 0
  {
  }

  lemma BitShiftFour(x: bv32, k: nat)
    ensures Bit(x, k + 4) == Bit(x >> 4, k)
  {
    ShiftFour(x);
    assert Bit(x, k + 4) == Bit(x >> 1, k + 3);
    assert Bit(x >> 1, k + 3) == Bit(x >> 1 >> 1, k + 2);
    assert Bit(x >> 1 >> 1, k + 2) == Bit(x >> 1 >> 1 >> 1, k + 1);
  }

  /** Nothing is left beyond bit 31. */
  lemma BitAbove(x: bv32)
    ensures !Bit(x, 32)
  {
    BitShiftFour(x, 28);
    BitShiftFour(x >> 4, 24);
    BitShiftFour(x >> 4 >> 4, 20);
    BitShiftFour(x >> 4 >> 4 >> 4, 16);
    BitShiftFour(x >> 4 >> 4 >> 4 >> 4, 12);
    BitShiftFour(x >> 4 >> 4 >> 4 >> 4 >> 4, 8);
    BitShiftFour(x >> 4 >> 4 >> 4 >> 4 >> 4 >> 4, 4);
    BitShiftFour(x >> 4 >> 4 >> 4 >> 4 >> 4 >> 4 >> 4, 0);
    ShiftOut(x);
  }

  /** A turn of the register moves every coefficient up and cancels x^32 with the generator. */
  lemma BitOfStep(x: bv32, k: nat)
    requires k < 32
    ensures Bit(BitStep(x), k) == (Bit(x, k + 1) != (Bit(x, 0) && Bit(POLY, k)))
    ensures k == 31 ==> !Bit(x, k + 1)
  {
    BitAbove(x);
    BitOfXor(x >> 1, POLY, k);
    LowBit(x);
  }

  // ----- Division

  /** One more coefficient of the dividend is one turn of the register. */
  lemma DivideStep(x: bv32, m: seq<bool>)
    requires |m| >= 32
    ensures Remainder(AddLeading([false] + m, Poly(x))) == Remainder(AddLeading(m, Poly(BitStep(x))))
  {
    hide BitStep, Bit;
    var s := AddLeading([false] + m, Poly(x));
    var next := (if s[0] then AddLeading(s, Generator()) else s)[1..];
    forall k | 0 <= k < |m|
      ensures next[k] == AddLeading(m, Poly(BitStep(x)))[k]
    {
      if k < 32 {
        BitOfStep(x, k);
      }
    }
    assert next == AddLeading(m, Poly(BitStep(x)));
  }

  lemma {:induction false} DivideSteps(x: bv32, n: nat, m: seq<bool>)
    requires |m| >= 32
    ensures Remainder(AddLeading(Zeros(n) + m, Poly(x))) == Remainder(AddLeading(m, Poly(Steps(x, n))))
    decreases n
  {
    hide BitStep, Bit;
    if n == 0 {
      assert Zeros(n) + m == m;
    } else {
      assert Zeros(n) + m == [false] + (Zeros(n - 1) + m);
      DivideStep(x, Zeros(n - 1) + m);
      DivideSteps(BitStep(x), n - 1, m);
    }
  }

  /** A byte of the message enters the low end of the register. */
  lemma DivideByte(crc: bv32, b: bv8, m: seq<bool>)
    requires |m| >= 32
    ensures Remainder(AddLeading(ByteBits(b) + m, Poly(crc))) ==
            Remainder(AddLeading(m, Poly(ByteSteps(Xor(crc, Extend(b))))))
  {
    hide BitStep, Xor, Extend, ByteSteps, Steps;
    var x := Xor(crc, Extend(b));
    forall k | 0 <= k < 32
      ensures Bit(x, k) == (Bit(crc, k) != (k < 8 && ByteBits(b)[k]))
    {
      BitOfXor(crc, Extend(b), k);
      if k >= 8 {
        ByteHasEightBits(b, k);
      }
    }
    assert AddLeading(ByteBits(b) + m, Poly(crc)) == AddLeading(Zeros(8) + m, Poly(x));
    DivideSteps(x, 8, m);
    EightSteps(x);
  }

  lemma ByteShiftOut(b: bv8)
    ensures (b as bv32) >> 4 >> 4 == 0
  {
  }

  lemma {:induction false} BitOfZero(k: nat)
    ensures !Bit(0, k)
  {
    if k > 0 {
      assert 0 as bv32 >> 1 == 0;
      BitOfZero(k - 1);
    }
  }

  lemma ByteHasEightBits(b: bv8, k: nat)
    requires k >= 8
    ensures !Bit(Extend(b), k)
  {
    var x := Extend(b);
    BitShiftFour(x, k - 4);
    BitShiftFour(x >> 4, k - 8);
    ByteShiftOut(b);
    BitOfZero(k - 8);
  }

  lemma {:induction false} DivideMessage(crc: bv32, buf: seq<bv8>)
    ensures Remainder(AddLeading(MessageBits(buf) + Zeros(32), Poly(crc))) == Poly(CrcFrom(crc, buf))
    decreases |buf|
  {
    hide BitStep, Bit, Xor, Extend, ByteSteps;
    if buf == [] {
      assert AddLeading(MessageBits(buf) + Zeros(32), Poly(crc)) == Poly(crc);
    } else {
      var m := MessageBits(buf[1..]) + Zeros(32);
      assert MessageBits(buf) + Zeros(32) == ByteBits(buf[0]) + m;
      DivideByte(crc, buf[0], m);
      DivideMessage(ByteSteps(Xor(crc, Extend(buf[0]))), buf[1..]);
    }
  }

  /** ssh_crc32 of a message is the remainder of message * x^32 divided by the generator. */
  lemma CrcIsRemainder(buf: seq<bv8>)
    ensures Poly(CrcFrom(0, buf)) == Remainder(MessageBits(buf) + Zeros(32))
  {
    DivideMessage(0, buf);
    forall k | 0 <= k < 32
      ensures !Bit(0, k)
    {
      BitOfZero(k);
    }
    assert AddLeading(MessageBits(buf) + Zeros(32), Poly(0)) == MessageBits(buf) + Zeros(32);
  }
}
