/**
 * The CRC-32 of crc32.c: the table-driven loop computes the bit-serial shift
 * register, which is linear over GF(2) and is polynomial long division.
 */
module Crc32 {
  import opened Crc32Table

  /** Exclusive or, named so that proofs can keep it folded. */
  function Xor(a: bv32, b: bv32): bv32 { a ^ b }

  function Low(a: bv32): bv32 { a & 0xff }

  function Shift8(a: bv32): bv32 { a >> 8 }

  function Extend(b: bv8): bv32 { b as bv32 }

  function LowByte(a: bv32): bv8 { (a & 0xff) as bv8 }

  /** The register after `buf`, started at `crc`: a byte enters at the low end and turns eight times. */
  function CrcFrom(crc: bv32, buf: seq<bv8>): bv32
    decreases |buf|
  {
    if buf == [] then crc else CrcFrom(ByteSteps(Xor(crc, Extend(buf[0]))), buf[1..])
  }

  // ----- Word identities

  lemma XorComm(r: bv32, s: bv32)
    ensures Xor(r, s) == Xor(s, r)
  {
  }

  lemma XorAssoc(r: bv32, s: bv32, t: bv32)
    ensures Xor(Xor(r, s), t) == Xor(r, Xor(s, t))
  {
  }

  lemma XorZero(r: bv32)
    ensures Xor(r, 0) == r && Xor(0, r) == r && Xor(r, r) == 0
  {
  }

  lemma LowBit(r: bv32)
    ensures r & 1 == 0 || r & 1 == 1
  {
  }

  lemma XorBit(r: bv32, s: bv32)
    ensures (r ^ s) & 1 == (r & 1) ^ (s & 1)
  {
  }

  lemma SplitWord(r: bv32)
    ensures r == (r & 0xff) ^ (r & 0xffffff00) && (r & 0xffffff00) & 0xff == 0 && (r & 0xffffff00) >> 8 == r >> 8
  {
  }

  lemma LowByteExtends(r: bv32)
    ensures ((r & 0xff) as bv8) as bv32 == r & 0xff
  {
  }

  lemma ByteBelow(r: bv32, b: bv8)
    ensures (r ^ (b as bv32)) >> 8 == r >> 8
  {
  }

  // ----- Linearity of the register

  function Odd(r: bv32): bool { r & 1 == 1 }

  function Half(r: bv32): bv32 { r >> 1 }

  lemma OddOfXor(r: bv32, s: bv32)
    ensures Odd(Xor(r, s)) == (Odd(r) != Odd(s))
  {
    LowBit(r);
    LowBit(s);
    XorBit(r, s);
  }

  lemma HalfOfXor(r: bv32, s: bv32)
    ensures Half(Xor(r, s)) == Xor(Half(r), Half(s))
  {
  }

  lemma StepCases(r: bv32)
    ensures BitStep(r) == if Odd(r) then Xor(Half(r), POLY) else Half(r)
  {
  }

  lemma XorTwice(x: bv32, y: bv32, p: bv32)
    ensures Xor(Xor(x, y), p) == Xor(Xor(x, p), y) == Xor(x, Xor(y, p)) && Xor(Xor(x, p), Xor(y, p)) == Xor(x, y)
  {
    hide Xor;
    XorAssoc(x, y, p);
    XorAssoc(x, p, y);
    XorComm(y, p);
    XorAssoc(x, p, Xor(p, y));
    XorAssoc(p, p, y);
    XorZero(p);
    XorZero(y);
  }

  lemma StepIsLinear(r: bv32, s: bv32)
    ensures BitStep(Xor(r, s)) == Xor(BitStep(r), BitStep(s))
  {
    hide BitStep, Xor, Odd, Half;
    StepCases(r);
    StepCases(s);
    StepCases(Xor(r, s));
    OddOfXor(r, s);
    HalfOfXor(r, s);
    XorTwice(Half(r), Half(s), POLY);
  }

  function Steps(r: bv32, n: nat): bv32
    decreases n
  {
    if n == 0 then r else Steps(BitStep(r), n - 1)
  }

  lemma {:induction false} StepsLinear(r: bv32, s: bv32, n: nat)
    ensures Steps(Xor(r, s), n) == Xor(Steps(r, n), Steps(s, n))
    decreases n
  {
    hide BitStep, Xor;
    if n > 0 {
      StepIsLinear(r, s);
      StepsLinear(BitStep(r), BitStep(s), n - 1);
    }
  }

  lemma EightSteps(r: bv32)
    ensures ByteSteps(r) == Steps(r, 8)
  {
    hide BitStep;
  }

  lemma BytesLinear(r: bv32, s: bv32)
    ensures ByteSteps(Xor(r, s)) == Xor(ByteSteps(r), ByteSteps(s))
  {
    hide Xor, ByteSteps, Steps;
    EightSteps(r);
    EightSteps(s);
    EightSteps(Xor(r, s));
    StepsLinear(r, s, 8);
  }

  /** Eight turns of a register with a zero low byte only shift it. */
  lemma HighBytesShift(r: bv32)
    requires r & 0xff == 0
    ensures ByteSteps(r) == r >> 8
  {
    assert r & 1 == 0 && (r >> 1) & 1 == 0 && (r >> 2) & 1 == 0 && (r >> 3) & 1 == 0;
    assert (r >> 4) & 1 == 0 && (r >> 5) & 1 == 0 && (r >> 6) & 1 == 0 && (r >> 7) & 1 == 0;
    assert r >> 1 >> 1 == r >> 2 && r >> 2 >> 1 == r >> 3 && r >> 3 >> 1 == r >> 4 && r >> 4 >> 1 == r >> 5;
    assert r >> 5 >> 1 == r >> 6 && r >> 6 >> 1 == r >> 7 && r >> 7 >> 1 == r >> 8;
  }

  /** The low byte turns, the others shift. */
  lemma SplitLowByte(r: bv32)
    ensures ByteSteps(r) == Xor(ByteSteps(Low(r)), Shift8(r))
  {
    hide ByteSteps;
    SplitWord(r);
    HighBytesShift(r & 0xffffff00);
    BytesLinear(r & 0xff, r & 0xffffff00);
  }

  /** One round of the loop in ssh_crc32. */
  lemma TableStep(crc: bv32, b: bv8)
    ensures Xor(Table(LowByte(Xor(crc, Extend(b)))), Shift8(crc)) == ByteSteps(Xor(crc, Extend(b)))
  {
    hide ByteSteps, Table;
    var x := Xor(crc, Extend(b));
    SplitLowByte(x);
    TableEntry(LowByte(x));
    LowByteExtends(x);
    ByteBelow(crc, b);
  }

  /** ssh_crc32 */
  method SshCrc32(buf: seq<bv8>) returns (crc: bv32)
    ensures crc == CrcFrom(0, buf)
  {
    hide Table, ByteSteps, Xor, Extend, Shift8, LowByte;
    crc := 0;
    assert buf[0..] == buf;
    for i := 0 to |buf|
      invariant CrcFrom(crc, buf[i..]) == CrcFrom(0, buf)
    {
      TableStep(crc, buf[i]);
      assert buf[i..][0] == buf[i] && buf[i..][1..] == buf[i + 1..];
      crc := Xor(Table(LowByte(Xor(crc, Extend(buf[i])))), Shift8(crc));
    }
    assert buf[|buf|..] == [];
  }

  function XorBytes(a: seq<bv8>, b: seq<bv8>): (c: seq<bv8>)
    requires |a| == |b|
    ensures |c| == |a|
  {
    if a == [] then [] else [a[0] ^ b[0]] + XorBytes(a[1..], b[1..])
  }

  lemma XorInterchange(r: bv32, s: bv32, x: bv8, y: bv8)
    ensures Xor(Xor(r, s), Extend(x ^ y)) == Xor(Xor(r, Extend(x)), Xor(s, Extend(y)))
  {
  }

  /** The checksum is GF(2)-linear in the start value and the message together. */
  lemma {:induction false} CrcIsLinear(r: bv32, s: bv32, a: seq<bv8>, b: seq<bv8>)
    requires |a| == |b|
    ensures CrcFrom(Xor(r, s), XorBytes(a, b)) == Xor(CrcFrom(r, a), CrcFrom(s, b))
    decreases |a|
  {
    hide ByteSteps, Xor, Extend;
    if a != [] {
      var (x, y) := (Xor(r, Extend(a[0])), Xor(s, Extend(b[0])));
      XorInterchange(r, s, a[0], b[0]);
      BytesLinear(x, y);
      CrcIsLinear(ByteSteps(x), ByteSteps(y), a[1..], b[1..]);
      assert XorBytes(a, b)[0] == a[0] ^ b[0] && XorBytes(a, b)[1..] == XorBytes(a[1..], b[1..]);
    }
  }
}
