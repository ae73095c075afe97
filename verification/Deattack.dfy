/**
 * The CRC compensation attack detector (deattack.c).
 */
module Deattack {
  import opened Crc32Table
  import opened Crc32

  const MAX_IDENTICAL: int := 32
  const SSH_MAXBLOCKS: int := 32 * 1024
  const SSH_BLOCKSIZE: int := 8
  const HASH_MINSIZE: int := 8 * 1024
  const HASH_ENTRYSIZE: int := 2
  const HASH_UNUSED: int := 0xffff
  const HASH_MINBLOCKS: int := 7 * SSH_BLOCKSIZE

  // ----- check_crc

  /** The bytes of a 32-bit integer in memory order, least significant first. */
  function LeBytes(x: bv32, n: nat): (s: seq<bv8>)
    ensures |s| == n
    decreases n
  {
    if n == 0 then [] else [LowByte(x)] + LeBytes(Shift8(x), n - 1)
  }

  function ZeroBytes(n: nat): (z: seq<bv8>)
    ensures |z| == n
  {
    if n == 0 then [] else [0] + ZeroBytes(n - 1)
  }

  /** Nothing is left after `n` bytes. */
  predicate FitsBytes(x: bv32, n: nat)
    decreases n
  {
    if n == 0 then x == 0 else FitsBytes(Shift8(x), n - 1)
  }

  lemma FitsFour(x: bv32)
    ensures FitsBytes(x, 4)
  {
    ShiftOut(x);
    assert FitsBytes(Shift8(Shift8(Shift8(Shift8(x)))), 0);
    assert FitsBytes(Shift8(Shift8(Shift8(x))), 1);
    assert FitsBytes(Shift8(Shift8(x)), 2);
  }

  lemma ShiftOut(x: bv32)
    ensures x >> 8 >> 8 >> 8 >> 8 == 0
  {
  }

  lemma {:induction false} XorWithZeros(a: seq<bv8>)
    ensures XorBytes(ZeroBytes(|a|), a) == a
  {
    if a != [] {
      var z := ZeroBytes(|a|);
      assert z[1..] == ZeroBytes(|a[1..]|);
      XorWithZeros(a[1..]);
      assert 0 ^ a[0] == a[0];
    }
  }

  lemma LowByteOfXor(x: bv32, y: bv32)
    ensures LowByte(Xor(x, y)) == LowByte(x) ^ LowByte(y)
  {
  }

  lemma ShiftOfXor(x: bv32, y: bv32)
    ensures Shift8(Xor(x, y)) == Xor(Shift8(x), Shift8(y))
  {
  }

  lemma LowByteEnters(x: bv32)
    ensures Xor(0, Extend(LowByte(x))) == Low(x)
  {
    LowByteExtends(x);
    XorZero(Low(x));
  }

  lemma {:induction false} LeBytesOfXor(x: bv32, y: bv32, n: nat)
    ensures LeBytes(Xor(x, y), n) == XorBytes(LeBytes(x, n), LeBytes(y, n))
    decreases n
  {
    hide Xor, LowByte, Shift8;
    if n > 0 {
      LowByteOfXor(x, y);
      ShiftOfXor(x, y);
      LeBytesOfXor(Shift8(x), Shift8(y), n - 1);
      assert LeBytes(x, n)[1..] == LeBytes(Shift8(x), n - 1) && LeBytes(y, n)[1..] == LeBytes(Shift8(y), n - 1);
    }
  }

  /** Starting the register at `a` is the same as sending the bytes of `a` first. */
  lemma {:induction false} StartIsPrefix(a: bv32, n: nat)
    requires FitsBytes(a, n)
    ensures CrcFrom(a, ZeroBytes(n)) == CrcFrom(0, LeBytes(a, n))
    decreases n
  {
    hide Xor, LowByte, Shift8, ByteSteps, Low, Extend;
    if n > 0 {
      var (z, rest) := (ZeroBytes(n - 1), LeBytes(Shift8(a), n - 1));
      var low := ByteSteps(Low(a));
      ZeroEnters(a);
      assert ZeroBytes(n)[1..] == z && LeBytes(a, n)[1..] == rest;
      SplitLowByte(a);
      CrcIsLinear(low, Shift8(a), z, z);
      XorWithZeros(z);
      LowByteEnters(a);
      CrcIsLinear(low, 0, z, rest);
      XorWithZeros(rest);
      XorZero(low);
      StartIsPrefix(Shift8(a), n - 1);
    }
  }

  lemma ZeroEnters(a: bv32)
    ensures Xor(a, Extend(0)) == a
  {
  }

  /** crc_update */
  function CrcUpdate(a: bv32, b: bv32): bv32 {
    CrcFrom(0, LeBytes(Xor(b, a), 4))
  }

  /** Folding the old checksum into the next word continues the checksum with the bytes of that word. */
  lemma CrcUpdateContinues(a: bv32, b: bv32)
    ensures CrcUpdate(a, b) == CrcFrom(a, LeBytes(b, 4))
  {
    hide Xor, CrcFrom, LeBytes, ZeroBytes, FitsBytes;
    var (x, y, z) := (LeBytes(a, 4), LeBytes(b, 4), ZeroBytes(4));
    LeBytesOfXor(b, a, 4);
    CrcIsLinear(0, 0, y, x);
    XorZero(0);
    FitsFour(a);
    StartIsPrefix(a, 4);
    CrcIsLinear(a, 0, z, y);
    XorWithZeros(y);
    XorZero(a);
    XorComm(CrcFrom(0, x), CrcFrom(0, y));
  }

  lemma {:induction false} CrcOfConcat(crc: bv32, s: seq<bv8>, t: seq<bv8>)
    ensures CrcFrom(crc, s + t) == CrcFrom(CrcFrom(crc, s), t)
    decreases |s|
  {
    hide Xor, ByteSteps, Extend;
    if s == [] {
      assert s + t == t;
    } else {
      assert (s + t)[1..] == s[1..] + t;
      CrcOfConcat(ByteSteps(Xor(crc, Extend(s[0]))), s[1..], t);
    }
  }

  /** A one in the low bit of every block equal to `s`, zeros elsewhere. */
  function Pattern(s: seq<bv8>, buf: seq<bv8>): seq<bv8> {
    if |buf| < SSH_BLOCKSIZE then []
    else LeBytes(if buf[..SSH_BLOCKSIZE] == s then 1 else 0, 4) + LeBytes(0, 4) + Pattern(s, buf[SSH_BLOCKSIZE..])
  }

  lemma BytesOfFlag(one: bool)
    ensures LeBytes(if one then 1 else 0, 4) == [if one then 1 else 0, 0, 0, 0]
  {
    var x: bv32 := if one then 1 else 0;
    assert LowByte(x) == (if one then 1 else 0) && Shift8(x) == 0 && LowByte(0) == 0 && Shift8(0) == 0;
    assert LeBytes(0, 0) == [] && LeBytes(0, 1) == [0] + [] && LeBytes(0, 2) == [0] + LeBytes(0, 1);
    assert LeBytes(0, 3) == [0] + LeBytes(0, 2) && LeBytes(x, 4) == [LowByte(x)] + LeBytes(0, 3);
  }

  /** What one block contributes. */
  function Mark(one: bool): (m: seq<bv8>)
    ensures |m| == 8
  {
    [if one then 1 else 0, 0, 0, 0, 0, 0, 0, 0]
  }

  lemma PatternSplit(s: seq<bv8>, buf: seq<bv8>)
    requires |buf| >= 8
    ensures Pattern(s, buf) == Mark(buf[..8] == s) + Pattern(s, buf[8..])
  {
    hide LeBytes;
    BytesOfFlag(buf[..8] == s);
    BytesOfFlag(false);
  }

  lemma SliceOfRest(buf: seq<bv8>, k: nat)
    requires 8 <= k && k + 8 <= |buf|
    ensures buf[8..][k - 8..k] == buf[k..k + 8]
  {
    var (a, b) := (buf[8..][k - 8..k], buf[k..k + 8]);
    forall i | 0 <= i < 8
      ensures a[i] == b[i]
    {
      assert a[i] == buf[8..][k - 8 + i] == buf[k + i];
    }
  }

  /** The pattern byte by byte: one at the start of every block equal to `s`, zero everywhere else. */
  lemma {:induction false} PatternAt(s: seq<bv8>, buf: seq<bv8>, k: nat)
    requires |buf| % 8 == 0 && k < |buf|
    ensures |Pattern(s, buf)| == |buf|
    ensures Pattern(s, buf)[k] == if k % 8 == 0 && buf[k..k + 8] == s then 1 else 0
    decreases |buf|
  {
    hide Pattern;
    var rest := buf[8..];
    PatternSplit(s, buf);
    PatternLength(s, rest);
    if k >= 8 {
      PatternAt(s, rest, k - 8);
      if k % 8 == 0 {
        SliceOfRest(buf, k);
      }
    }
  }

  lemma {:induction false} PatternLength(s: seq<bv8>, buf: seq<bv8>)
    requires |buf| % 8 == 0
    ensures |Pattern(s, buf)| == |buf|
    decreases |buf|
  {
    if buf != [] {
      hide Pattern;
      PatternSplit(s, buf);
      PatternLength(s, buf[8..]);
    }
  }

  /** The difference that `Pattern` describes is invisible to the checksum. */
  predicate Compensates(s: seq<bv8>, buf: seq<bv8>) {
    CrcFrom(0, Pattern(s, buf)) == 0
  }

  /** check_crc */
  method CheckCrc(s: seq<bv8>, buf: seq<bv8>) returns (hit: bool)
    requires |buf| % SSH_BLOCKSIZE == 0
    ensures hit == Compensates(s, buf)
  {
    hide CrcFrom, CrcUpdate, LeBytes;
    var crc: bv32 := 0;
    var c := 0;
    assert buf[0..] == buf;
    while c < |buf|
      invariant 0 <= c <= |buf| && c % SSH_BLOCKSIZE == 0
      invariant CrcFrom(crc, Pattern(s, buf[c..])) == CrcFrom(0, Pattern(s, buf))
    {
      ghost var rest := buf[c..];
      assert rest[..SSH_BLOCKSIZE] == buf[c..c + SSH_BLOCKSIZE] && rest[SSH_BLOCKSIZE..] == buf[c + SSH_BLOCKSIZE..];
      var w: bv32 := if s == buf[c..c + SSH_BLOCKSIZE] then 1 else 0;
      BlockContinues(crc, w, Pattern(s, rest[SSH_BLOCKSIZE..]));
      crc := CrcUpdate(crc, w);
      crc := CrcUpdate(crc, 0);
      c := c + SSH_BLOCKSIZE;
    }
    assert Pattern(s, buf[c..]) == [];
    CrcOfNothing(crc);
    hit := crc == 0;
  }

  lemma CrcOfNothing(crc: bv32)
    ensures CrcFrom(crc, []) == crc
  {
  }

  lemma BlockContinues(crc: bv32, w: bv32, rest: seq<bv8>)
    ensures CrcFrom(CrcUpdate(CrcUpdate(crc, w), 0), rest) == CrcFrom(crc, LeBytes(w, 4) + LeBytes(0, 4) + rest)
  {
    hide CrcFrom, CrcUpdate, LeBytes;
    CrcUpdateContinues(crc, w);
    CrcUpdateContinues(CrcUpdate(crc, w), 0);
    CrcOfConcat(crc, LeBytes(w, 4), LeBytes(0, 4));
    CrcOfConcat(crc, LeBytes(w, 4) + LeBytes(0, 4), rest);
  }

  /** What the detector looks for: adding the pattern to any message leaves its checksum unchanged. */
  lemma CompensationIsInvisible(s: seq<bv8>, buf: seq<bv8>, m: seq<bv8>)
    requires |m| == |Pattern(s, buf)|
    ensures Compensates(s, buf) <==> CrcFrom(0, XorBytes(m, Pattern(s, buf))) == CrcFrom(0, m)
  {
    hide CrcFrom, Xor;
    var p := Pattern(s, buf);
    CrcIsLinear(0, 0, m, p);
    XorZero(0);
    XorCancels(CrcFrom(0, m), CrcFrom(0, p));
  }

  lemma XorCancels(a: bv32, b: bv32)
    ensures Xor(a, b) == a <==> b == 0
  {
  }
}
