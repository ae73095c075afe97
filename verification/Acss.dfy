/**
 * The ACSS stream cipher (acss.c): two linear feedback shift registers whose
 * feedback bytes are added with carry to give the key stream.
 */
module Acss {
  import opened AcssTables
  import opened Bytes
  import opened Octets

  const ACSS_KEYSIZE: nat := 5
  const ACSS_AUTHENTICATE := 0
  const ACSS_SESSIONKEY := 1
  const ACSS_TITLEKEY := 2
  const ACSS_DATA := 3

  // ----- The registers

  function Step17(x: bv32): bv32 {
    var t := x ^ (x >> 14);
    ((x >> 8) ^ (t << 9) ^ (t << 12) ^ (t << 15)) & 0x1ffff
  }

  function Sum(a: bv32, b: bv32): bv32 { a ^ b }

  /** The taps of the longer register, for every position at once. */
  function Taps(y: bv32): bv32 { Sum(Sum(Sum(y, y >> 3), y >> 4), y >> 12) }

  function Step25(y: bv32): bv32 {
    ((y >> 8) ^ (Taps(y) << 17)) & 0x1ffffff
  }

  /** The registers one bit at a time: shift right, and feed the sum of the taps in at the top. */
  function Clock17(x: bv32): bv32 { (x >> 1) | (((x ^ (x >> 14)) & 1) << 16) }

  function Clock25(y: bv32): bv32 { (y >> 1) | (((y ^ (y >> 3) ^ (y >> 4) ^ (y >> 12)) & 1) << 24) }

  function Clocked17(x: bv32, n: nat): bv32
    decreases n
  {
    if n == 0 then x else Clocked17(Clock17(x), n - 1)
  }

  function Clocked25(y: bv32, n: nat): bv32
    decreases n
  {
    if n == 0 then y else Clocked25(Clock25(y), n - 1)
  }

  function Right(y: bv32): bv32 { y >> 2 }

  predicate SameLow(t: bv32, u: bv32) { t & 3 == u & 3 }

  lemma SumRight(a: bv32, b: bv32)
    ensures Right(Sum(a, b)) == Sum(Right(a), Right(b))
  {
  }

  lemma Right3(y: bv32)
    ensures Right(y >> 3) == Right(y) >> 3
  {
  }

  lemma Right4(y: bv32)
    ensures Right(y >> 4) == Right(y) >> 4
  {
  }

  lemma Right12(y: bv32)
    ensures Right(y >> 12) == Right(y) >> 12
  {
  }

  lemma TapsRight(y: bv32)
    ensures Taps(Right(y)) == Right(Taps(y))
  {
    hide Sum, Right;
    Right3(y);
    Right4(y);
    Right12(y);
    SumRight(y, y >> 3);
    SumRight(Sum(y, y >> 3), y >> 4);
    SumRight(Sum(Sum(y, y >> 3), y >> 4), y >> 12);
  }

  lemma SumLow(a: bv32, b: bv32, c: bv32, d: bv32)
    requires SameLow(a, c) && SameLow(b, d)
    ensures SameLow(Sum(a, b), Sum(c, d))
  {
  }

  /** The taps at the two lowest positions see fourteen bits. */
  predicate SameFourteen(z: bv32, w: bv32) { z & 0x3fff == w & 0x3fff }

  lemma LowOfFourteen(z: bv32, w: bv32)
    requires SameFourteen(z, w)
    ensures SameLow(z, w) && SameLow(z >> 3, w >> 3) && SameLow(z >> 4, w >> 4) && SameLow(z >> 12, w >> 12)
  {
  }

  lemma TapsLocal(z: bv32, w: bv32)
    requires SameFourteen(z, w)
    ensures SameLow(Taps(z), Taps(w))
  {
    hide Sum, SameLow, SameFourteen;
    LowOfFourteen(z, w);
    SumLow(z, z >> 3, w, w >> 3);
    SumLow(Sum(z, z >> 3), z >> 4, Sum(w, w >> 3), w >> 4);
    SumLow(Sum(Sum(z, z >> 3), z >> 4), z >> 12, Sum(Sum(w, w >> 3), w >> 4), w >> 12);
  }

  /** Several clocks at once: the register moves down and `t` is fed in at the top. */
  function Shift2(y: bv32, t: bv32): bv32 { ((y >> 2) ^ (t << 23)) & 0x1ffffff }

  function Shift4(y: bv32, t: bv32): bv32 { ((y >> 4) ^ (t << 21)) & 0x1ffffff }

  function Shift6(y: bv32, t: bv32): bv32 { ((y >> 6) ^ (t << 19)) & 0x1ffffff }

  function Shift8(y: bv32, t: bv32): bv32 { ((y >> 8) ^ (t << 17)) & 0x1ffffff }

  function Two25(y: bv32): bv32 { Shift2(y, Taps(y)) }

  lemma TwoClocks25(y: bv32)
    requires In25(y)
    ensures In25(Two25(y)) && Clock25(Clock25(y)) == Two25(y)
  {
  }

  lemma Again2(y: bv32, t: bv32, u: bv32)
    requires In25(y) && SameLow(u, Right(t))
    ensures Shift2(Shift2(y, t), u) == Shift4(y, t)
  {
  }

  lemma LowBits2(y: bv32, t: bv32)
    requires In25(y)
    ensures SameFourteen(Shift2(y, t), Right(y))
  {
  }

  lemma Again4(y: bv32, t: bv32, u: bv32)
    requires In25(y) && SameLow(u, Right(Right(t)))
    ensures Shift2(Shift4(y, t), u) == Shift6(y, t)
  {
  }

  lemma LowBits4(y: bv32, t: bv32)
    requires In25(y)
    ensures SameFourteen(Shift4(y, t), Right(Right(y)))
  {
  }

  lemma Again6(y: bv32, t: bv32, u: bv32)
    requires In25(y) && SameLow(u, Right(Right(Right(t))))
    ensures Shift2(Shift6(y, t), u) == Shift8(y, t)
  {
  }

  lemma LowBits6(y: bv32, t: bv32)
    requires In25(y)
    ensures SameFourteen(Shift6(y, t), Right(Right(Right(y))))
  {
  }

  lemma EightAtOnce(y: bv32)
    requires In25(y)
    ensures var t := Taps(y);
            Two25(y) == Shift2(y, t) && Two25(Shift2(y, t)) == Shift4(y, t) && Two25(Shift4(y, t)) == Shift6(y, t) && Two25(Shift6(y, t)) == Shift8(y, t)
  {
    hide Taps, Shift2, Shift4, Shift6, Shift8, In25, Right, SameLow, SameFourteen;
    var t := Taps(y);
    TapsRight(y);
    TapsRight(Right(y));
    TapsRight(Right(Right(y)));
    LowBits2(y, t);
    TapsLocal(Shift2(y, t), Right(y));
    Again2(y, t, Taps(Shift2(y, t)));
    LowBits4(y, t);
    TapsLocal(Shift4(y, t), Right(Right(y)));
    Again4(y, t, Taps(Shift4(y, t)));
    LowBits6(y, t);
    TapsLocal(Shift6(y, t), Right(Right(Right(y))));
    Again6(y, t, Taps(Shift6(y, t)));
  }

  lemma Within2(y: bv32)
    requires In25(y)
    ensures In25(Shift2(y, Taps(y)))
  {
  }

  lemma Within4(y: bv32)
    requires In25(y)
    ensures In25(Shift4(y, Taps(y)))
  {
  }

  lemma Within6(y: bv32)
    requires In25(y)
    ensures In25(Shift6(y, Taps(y)))
  {
  }

  lemma StepShifts(y: bv32)
    ensures Step25(y) == Shift8(y, Taps(y))
  {
    hide Taps;
  }

  lemma TwoMore25(y: bv32, n: nat)
    requires In25(y)
    ensures Clocked25(y, n + 2) == Clocked25(Two25(y), n)
  {
    hide Clock25, Two25, In25;
    TwoClocks25(y);
    assert Clocked25(y, n + 2) == Clocked25(Clock25(y), n + 1) == Clocked25(Clock25(Clock25(y)), n);
  }

  /** A step is eight clocks of the register. */
  lemma Step25IsEightClocks(y: bv32)
    requires In25(y)
    ensures Step25(y) == Clocked25(y, 8)
  {
    hide Clocked25, Two25, Shift2, Shift4, Shift6, Shift8, Step25, In25, Taps;
    var t := Taps(y);
    EightAtOnce(y);
    Within2(y);
    Within4(y);
    Within6(y);
    StepShifts(y);
    TwoMore25(y, 6);
    TwoMore25(Shift2(y, t), 4);
    TwoMore25(Shift4(y, t), 2);
    TwoMore25(Shift6(y, t), 0);
    NoClocks25(Step25(y));
  }

  lemma NoClocks25(y: bv32)
    ensures Clocked25(y, 0) == y
  {
  }

  lemma EightClocks17(x: bv32)
    requires In17(x)
    ensures Step17(x) == Clock17(Clock17(Clock17(Clock17(Clock17(Clock17(Clock17(Clock17(x))))))))
  {
  }

  lemma Step17IsEightClocks(x: bv32)
    requires In17(x)
    ensures Step17(x) == Clocked17(x, 8)
  {
    hide Clock17, Step17, In17;
    EightClocks17(x);
    var x2 := Clock17(Clock17(x));
    assert Clocked17(x, 8) == Clocked17(x2, 6);
    var x4 := Clock17(Clock17(x2));
    assert Clocked17(x2, 6) == Clocked17(x4, 4);
    var x6 := Clock17(Clock17(x4));
    assert Clocked17(x4, 4) == Clocked17(x6, 2) == Clocked17(Clock17(Clock17(x6)), 0);
  }

  /** Neither register outgrows its width, and neither ever runs into zero. */
  lemma Step17Live(x: bv32)
    requires In17(x)
    ensures In17(Step17(x))
  {
  }

  lemma Step25Live(y: bv32)
    requires In25(y)
    ensures In25(Step25(y))
  {
  }

  function Value(x: bv32): nat { x as int }

  function AsByte(n: nat): bv8
    requires n < 256
  {
    n as bv8
  }

  predicate Inverts17(mode: int) { mode == ACSS_AUTHENTICATE || mode == ACSS_DATA }

  predicate Inverts25(mode: int) { mode == ACSS_TITLEKEY }

  /** The addend a register contributes: its top byte, inverted in some modes. */
  function Addend(top: bv32, invert: bool): nat {
    Value(if invert then 0xff & !top else top)
  }

  predicate In17(x: bv32) { 0 < x <= 0x1ffff }

  predicate In25(y: bv32) { 0 < y <= 0x1ffffff }

  function Top17(x: bv32): bv32 { x >> 9 }

  function Top25(y: bv32): bv32 { y >> 17 }

  function Addend17(x: bv32, mode: int): nat { Addend(Top17(x), Inverts17(mode)) }

  function Addend25(y: bv32, mode: int): nat { Addend(Top25(y), Inverts25(mode)) }

  /** A register within its width contributes one byte. */
  lemma Addend17Bound(x: bv32, mode: int)
    requires In17(x)
    ensures Addend17(x, mode) < 256
  {
    hide Addend;
    TopBytes(x, 0);
    SmallAddend(Top17(x), Inverts17(mode));
  }

  lemma Addend25Bound(y: bv32, mode: int)
    requires In25(y)
    ensures Addend25(y, mode) < 256
  {
    hide Addend;
    TopBytes(0, y);
    SmallAddend(Top25(y), Inverts25(mode));
  }

  lemma TopBytes(x: bv32, y: bv32)
    ensures x <= 0x1ffff ==> Top17(x) <= 0xff
    ensures y <= 0x1ffffff ==> Top25(y) <= 0xff
  {
  }

  lemma SmallAddend(top: bv32, invert: bool)
    ensures top <= 0xff ==> Addend(top, invert) < 256
  {
    MaskedBelow(!top);
    SmallValue(0xff & !top);
    SmallValue(top);
  }

  lemma MaskedBelow(x: bv32)
    ensures 0xff & x <= 0xff
  {
  }

  lemma SmallValue(x: bv32)
    ensures x <= 0xff ==> Value(x) < 256
  {
  }

  // ----- Key stream

  /** The running state: both registers and the last sum with its carry. */
  datatype State = State(lfsr17: bv32, lfsr25: bv32, lfsrsum: nat)
  {
    predicate Live() {
      In17(lfsr17) && In25(lfsr25) && lfsrsum < 512
    }

    function Carry(): nat { lfsrsum / 256 }
  }

  function A(s: State, mode: int): nat { Addend17(s.lfsr17, mode) }

  function B(s: State, mode: int): nat { Addend25(s.lfsr25, mode) }

  /** One round: both registers step, and their bytes are added to the previous carry. */
  function Next(s: State, mode: int): State {
    var t := State(Step17(s.lfsr17), Step25(s.lfsr25), 0);
    t.(lfsrsum := A(t, mode) + B(t, mode) + s.lfsrsum / 256)
  }

  /** Live registers stay live, and the carry is always 0 or 1. */
  lemma NextLive(s: State, mode: int)
    requires s.Live()
    ensures var t := Next(s, mode); t.Live() && t.Carry() <= 1 && A(t, mode) < 256 && B(t, mode) < 256
  {
    hide Step17, Step25, Addend17, Addend25, In17, In25;
    Step17Live(s.lfsr17);
    Step25Live(s.lfsr25);
    Addend17Bound(Step17(s.lfsr17), mode);
    Addend25Bound(Step25(s.lfsr25), mode);
  }

  function Advance(s: State, mode: int, n: nat): State
    decreases n
  {
    if n == 0 then s else Advance(Next(s, mode), mode, n - 1)
  }

  lemma {:induction false} AdvanceLive(s: State, mode: int, n: nat)
    requires s.Live()
    ensures Advance(s, mode, n).Live()
    decreases n
  {
    hide Next, State.Live;
    if n > 0 {
      NextLive(s, mode);
      AdvanceLive(Next(s, mode), mode, n - 1);
    }
  }

  lemma {:induction false} Clocked17More(x: bv32, m: nat, n: nat)
    ensures Clocked17(x, m + n) == Clocked17(Clocked17(x, m), n)
    decreases m
  {
    hide Clock17;
    if m > 0 {
      Clocked17More(Clock17(x), m - 1, n);
    }
  }

  lemma {:induction false} Clocked25More(y: bv32, m: nat, n: nat)
    ensures Clocked25(y, m + n) == Clocked25(Clocked25(y, m), n)
    decreases m
  {
    hide Clock25;
    if m > 0 {
      Clocked25More(Clock25(y), m - 1, n);
    }
  }

  /** After n rounds each register has been clocked 8n times, whatever the mode. */
  lemma {:induction false} RegistersClocked(s: State, mode: int, n: nat)
    requires s.Live()
    ensures var t := Advance(s, mode, n);
            t.lfsr17 == Clocked17(s.lfsr17, 8 * n) && t.lfsr25 == Clocked25(s.lfsr25, 8 * n)
    decreases n
  {
    hide Step17, Step25, Clock17, Clock25, In17, In25, A, B;
    if n > 0 {
      NextLive(s, mode);
      RegistersClocked(Next(s, mode), mode, n - 1);
      Step17IsEightClocks(s.lfsr17);
      Step25IsEightClocks(s.lfsr25);
      Clocked17More(s.lfsr17, 8, 8 * (n - 1));
      Clocked25More(s.lfsr25, 8, 8 * (n - 1));
    }
  }

  /** The top byte of a register, as a number; the modes 0 and 3 complement that of the first, 2 that of the second. */
  lemma AddendsByMode(s: State, mode: int)
    requires s.Live()
    ensures var (x, y) := (Value(s.lfsr17 / 0x200), Value(s.lfsr25 / 0x20000));
            x < 256 && y < 256 &&
            A(s, mode) == (if mode == 0 || mode == 3 then 255 - x else x) &&
            B(s, mode) == (if mode == 2 then 255 - y else y)
  {
    hide Value;
    Top17Divides(s.lfsr17);
    Top25Divides(s.lfsr25);
    Complemented(Top17(s.lfsr17));
    Complemented(Top25(s.lfsr25));
  }

  lemma Top17Divides(x: bv32)
    ensures Top17(x) == x / 0x200 && (In17(x) ==> Top17(x) <= 0xff)
  {
  }

  lemma Top25Divides(y: bv32)
    ensures Top25(y) == y / 0x20000 && (In25(y) ==> Top25(y) <= 0xff)
  {
  }

  lemma Complemented(top: bv32)
    requires top <= 0xff
    ensures Value(top) < 256 && Value(0xff & !top) == 255 - Value(top)
  {
    SmallValue(top);
    SubtractFromFull(top);
    assert (0xff - top) as int == 255 - top as int;
  }

  lemma SubtractFromFull(top: bv32)
    requires top <= 0xff
    ensures 0xff & !top == 0xff - top
  {
  }

  /** The two addend streams and the key stream as numbers, least significant byte first. */
  function StreamA(s: State, mode: int, n: nat): nat
    decreases n
  {
    if n == 0 then 0 else var t := Next(s, mode); A(t, mode) + 256 * StreamA(t, mode, n - 1)
  }

  function StreamB(s: State, mode: int, n: nat): nat
    decreases n
  {
    if n == 0 then 0 else var t := Next(s, mode); B(t, mode) + 256 * StreamB(t, mode, n - 1)
  }

  function StreamK(s: State, mode: int, n: nat): nat
    decreases n
  {
    if n == 0 then 0 else var t := Next(s, mode); t.lfsrsum % 256 + 256 * StreamK(t, mode, n - 1)
  }

  lemma SumStep(s: State, mode: int)
    ensures var t := Next(s, mode); t.lfsrsum % 256 + 256 * t.Carry() == A(t, mode) + B(t, mode) + s.Carry()
  {
    hide Step17, Step25, Addend17, Addend25;
  }

  /** The key stream is the sum of the two streams, with the carry out of the last byte still pending. */
  lemma {:induction false} KeystreamIsSum(s: State, mode: int, n: nat)
    ensures StreamK(s, mode, n) + Pow256(n) * Advance(s, mode, n).Carry() ==
            s.Carry() + StreamA(s, mode, n) + StreamB(s, mode, n)
    decreases n
  {
    hide Next, A, B, State.Carry;
    if n == 0 {
    } else {
      var t := Next(s, mode);
      KeystreamIsSum(t, mode, n - 1);
      SumStep(s, mode);
      DigitSum(StreamK(t, mode, n - 1), Pow256(n - 1), Advance(t, mode, n - 1).Carry(), t.Carry(), s.Carry(),
               t.lfsrsum % 256, A(t, mode), B(t, mode), StreamA(t, mode, n - 1), StreamB(t, mode, n - 1));
    }
  }

  lemma DigitSum(k: int, w: int, top: int, carry: int, before: int, digit: int, a: int, b: int, high: int, bs: int)
    requires k + w * top == carry + high + bs && digit + 256 * carry == a + b + before
    ensures digit + 256 * k + 256 * w * top == before + (a + 256 * high) + (b + 256 * bs)
  {
    assert 256 * w * top == 256 * (w * top);
  }

  // ----- Encryption

  function KeyByte(s: State): bv8 { AsByte(s.lfsrsum % 256) }

  function CryptByte(s: State, encrypt: bool, b: bv8): bv8 {
    if encrypt then SboxEnc(Xor(b, KeyByte(s))) else Xor(SboxDec(b), KeyByte(s))
  }

  lemma CryptByteUndone(s: State, b: bv8)
    ensures CryptByte(s, false, CryptByte(s, true, b)) == b
  {
    hide KeyByte, SboxEnc, SboxDec, Xor;
    DecOfEnc(Xor(b, KeyByte(s)));
    XorCancels(b, KeyByte(s));
  }

  function Crypted(s: State, mode: int, encrypt: bool, data: seq<bv8>): (r: seq<bv8>)
    ensures |r| == |data|
    decreases |data|
  {
    if data == [] then [] else
      var t := Next(s, mode);
      [CryptByte(t, encrypt, data[0])] + Crypted(t, mode, encrypt, data[1..])
  }

  /** From equal states and modes decryption undoes encryption. */
  lemma {:induction false} DecryptEncrypt(s: State, mode: int, data: seq<bv8>)
    ensures Crypted(s, mode, false, Crypted(s, mode, true, data)) == data
    decreases |data|
  {
    hide Next, CryptByte;
    if data != [] {
      var t := Next(s, mode);
      var r := Crypted(s, mode, true, data);
      assert r[0] == CryptByte(t, true, data[0]) && r[1..] == Crypted(t, mode, true, data[1..]);
      CryptByteUndone(t, data[0]);
      DecryptEncrypt(t, mode, data[1..]);
    }
  }

  /** Two consecutive calls are one call on the concatenation. */
  lemma {:induction false} CryptInParts(s: State, mode: int, encrypt: bool, a: seq<bv8>, b: seq<bv8>)
    ensures Crypted(s, mode, encrypt, a + b) ==
            Crypted(s, mode, encrypt, a) + Crypted(Advance(s, mode, |a|), mode, encrypt, b)
    decreases |a|
  {
    hide Next, CryptByte;
    if a == [] {
      assert a + b == b;
    } else {
      assert (a + b)[1..] == a[1..] + b;
      CryptInParts(Next(s, mode), mode, encrypt, a[1..], b);
    }
  }

  lemma {:induction false} AdvanceLast(s: State, mode: int, n: nat)
    ensures Advance(s, mode, n + 1) == Next(Advance(s, mode, n), mode)
    decreases n
  {
    hide Next;
    if n > 0 {
      AdvanceLast(Next(s, mode), mode, n - 1);
    }
  }

  /** Each output byte depends on its input byte and its own round of the registers. */
  lemma {:induction false} CryptedAt(s: State, mode: int, encrypt: bool, data: seq<bv8>, k: nat)
    requires k < |data|
    ensures var key := KeyByte(Advance(s, mode, k + 1));
            Crypted(s, mode, encrypt, data)[k] == if encrypt then SboxEnc(data[k] ^ key) else SboxDec(data[k]) ^ key
    decreases k
  {
    hide Next, KeyByte, SboxEnc, SboxDec;
    if k > 0 {
      CryptedAt(Next(s, mode), mode, encrypt, data[1..], k - 1);
    }
  }

  // ----- The key structure

  predicate KeySized(data: seq<bv8>, subkey: Option<seq<bv8>>) {
    |data| == ACSS_KEYSIZE && (subkey.Some? ==> |subkey.value| == ACSS_KEYSIZE)
  }

  function SeedByte(data: seq<bv8>, subkey: Option<seq<bv8>>, i: nat): bv8
    requires KeySized(data, subkey) && i < ACSS_KEYSIZE
  {
    Reverse(if subkey.Some? then Xor(data[i], subkey.value[i]) else data[i])
  }

  function Seed17(s0: bv8, s1: bv8): bv32 {
    (s1 as bv32) | ((s0 as bv32) << 9) | (1 << 8)
  }

  function Seed25(s2: bv8, s3: bv8, s4: bv8): bv32 {
    (s4 as bv32) | ((s3 as bv32) << 8) | (((s2 as bv32) & 0x1f) << 16) | (((s2 as bv32) & 0xe0) << 17) | (1 << 21)
  }

  /** The state acss_seed computes from the key bytes, mixed with the subkey if there is one. */
  function Seeded(data: seq<bv8>, subkey: Option<seq<bv8>>): State
    requires KeySized(data, subkey)
  {
    State(Seed17(SeedByte(data, subkey, 0), SeedByte(data, subkey, 1)),
          Seed25(SeedByte(data, subkey, 2), SeedByte(data, subkey, 3), SeedByte(data, subkey, 4)), 0)
  }

  lemma Seed17Live(s0: bv8, s1: bv8)
    ensures In17(Seed17(s0, s1))
  {
  }

  lemma Seed25Live(s2: bv8, s3: bv8, s4: bv8)
    ensures In25(Seed25(s2, s3, s4))
  {
  }

  /** The injected one bits keep both registers from starting at zero. */
  lemma SeededLive(data: seq<bv8>, subkey: Option<seq<bv8>>)
    requires KeySized(data, subkey)
    ensures Seeded(data, subkey).Live()
  {
    hide SeedByte, Seed17, Seed25, In17, In25;
    Seed17Live(SeedByte(data, subkey, 0), SeedByte(data, subkey, 1));
    Seed25Live(SeedByte(data, subkey, 2), SeedByte(data, subkey, 3), SeedByte(data, subkey, 4));
  }

  function Wide(b: bv8): bv32 { b as bv32 }

  /** The first byte on top of the second in the shorter register, with a one in between. */
  predicate Holds17(x: bv32, b0: bv8, b1: bv8) {
    x >> 9 == Wide(b0) && x & 0xff == Wide(b1) && (x >> 8) & 1 == 1
  }

  /** The other three in the longer register, the first of them cut at bit 5 by a one. */
  predicate Holds25(y: bv32, b2: bv8, b3: bv8, b4: bv8) {
    (y >> 16) & 0x1f == Wide(b2) & 0x1f && y >> 22 == Wide(b2) >> 5 && (y >> 21) & 1 == 1 &&
    (y >> 8) & 0xff == Wide(b3) && y & 0xff == Wide(b4)
  }

  /** Where the key bytes, their bits reversed, sit in the registers, and the two injected ones. */
  lemma SeededAt(data: seq<bv8>, subkey: Option<seq<bv8>>)
    requires KeySized(data, subkey)
    ensures var (s, k) := (Seeded(data, subkey), Mixed(data, subkey));
            Holds17(s.lfsr17, Reverse(k[0]), Reverse(k[1])) &&
            Holds25(s.lfsr25, Reverse(k[2]), Reverse(k[3]), Reverse(k[4])) && s.lfsrsum == 0
  {
    hide Reverse, Seed17, Seed25, SeedByte, Mixed, Holds17, Holds25;
    SeedByteMixed(data, subkey);
    Seed17At(SeedByte(data, subkey, 0), SeedByte(data, subkey, 1));
    Seed25At(SeedByte(data, subkey, 2), SeedByte(data, subkey, 3), SeedByte(data, subkey, 4));
  }

  function Mixed(data: seq<bv8>, subkey: Option<seq<bv8>>): (r: seq<bv8>)
    requires KeySized(data, subkey)
    ensures |r| == ACSS_KEYSIZE
  {
    if subkey.None? then data else
      var x := subkey.value;
      [Xor(data[0], x[0]), Xor(data[1], x[1]), Xor(data[2], x[2]), Xor(data[3], x[3]), Xor(data[4], x[4])]
  }

  lemma SeedByteMixed(data: seq<bv8>, subkey: Option<seq<bv8>>)
    requires KeySized(data, subkey)
    ensures forall i :: 0 <= i < ACSS_KEYSIZE ==> SeedByte(data, subkey, i) == Reverse(Mixed(data, subkey)[i])
  {
    hide Reverse, Xor;
  }

  lemma Seed17At(s0: bv8, s1: bv8)
    ensures Holds17(Seed17(s0, s1), s0, s1)
  {
  }

  lemma Seed25Low(s2: bv8, s3: bv8, s4: bv8)
    ensures var y := Seed25(s2, s3, s4); y & 0xff == Wide(s4)
  {
  }

  lemma Seed25Second(s2: bv8, s3: bv8, s4: bv8)
    ensures var y := Seed25(s2, s3, s4); (y >> 8) & 0xff == Wide(s3)
  {
  }

  lemma Seed25Third(s2: bv8, s3: bv8, s4: bv8)
    ensures var y := Seed25(s2, s3, s4); (y >> 16) & 0x1f == Wide(s2) & 0x1f
  {
  }

  lemma Seed25One(s2: bv8, s3: bv8, s4: bv8)
    ensures var y := Seed25(s2, s3, s4); (y >> 21) & 1 == 1
  {
  }

  lemma Seed25Top(s2: bv8, s3: bv8, s4: bv8)
    ensures var y := Seed25(s2, s3, s4); y >> 22 == Wide(s2) >> 5
  {
  }

  lemma Seed25At(s2: bv8, s3: bv8, s4: bv8)
    ensures Holds25(Seed25(s2, s3, s4), s2, s3, s4)
  {
    hide Seed25, Wide;
    Seed25Low(s2, s3, s4);
    Seed25Second(s2, s3, s4);
    Seed25Third(s2, s3, s4);
    Seed25One(s2, s3, s4);
    Seed25Top(s2, s3, s4);
  }

  /** The key structure: ciphering happens in place when source and destination are the same array. */
  class Key {
    var encrypt: bool
    var mode: int
    var data: seq<bv8>
    var subkey: seq<bv8>
    var subkeyAvailable: bool
    var lfsr17: bv32
    var lfsr25: bv32
    var lfsrsum: nat

    ghost predicate Valid()
      reads this
    {
      |data| == |subkey| == ACSS_KEYSIZE && Registers().Live()
    }

    ghost function Registers(): State
      reads this
    {
      State(lfsr17, lfsr25, lfsrsum)
    }

    ghost function Mix(): Option<seq<bv8>>
      reads this
    {
      if subkeyAvailable then Some(subkey) else None
    }

    /** A structure not keyed yet: SetKey gives it its registers. */
    constructor ()
      ensures Valid()
      ensures encrypt && !subkeyAvailable
    {
      encrypt, mode, subkeyAvailable := true, ACSS_DATA, false;
      data, subkey := [0, 0, 0, 0, 0], [0, 0, 0, 0, 0];
      lfsr17, lfsr25, lfsrsum := 1, 1, 0;
    }

    method Seed()
      requires |data| == |subkey| == ACSS_KEYSIZE
      modifies this`lfsr17, this`lfsr25, this`lfsrsum
      ensures Valid() && Registers() == Seeded(data, Mix())
    {
      hide Seed17, Seed25, SeedByte;
      ghost var mix := Mix();
      var seed: seq<bv8> := [];
      for i := 0 to ACSS_KEYSIZE
        invariant |seed| == i
        invariant forall k :: 0 <= k < i ==> seed[k] == SeedByte(data, mix, k)
      {
        seed := seed + [Reversed(i)];
      }
      lfsr17 := Seed17(seed[0], seed[1]);
      lfsr25 := Seed25(seed[2], seed[3], seed[4]);
      lfsrsum := 0;
      SeededLive(data, mix);
    }

    function Reversed(i: nat): (r: bv8)
      requires |data| == |subkey| == ACSS_KEYSIZE && i < ACSS_KEYSIZE
      reads this
      ensures r == SeedByte(data, Mix(), i)
    {
      Reverse(if subkeyAvailable then Xor(data[i], subkey[i]) else data[i])
    }

    /** Install a key; enc of None keeps the direction. Any earlier subkey is dropped. */
    method SetKey(key: seq<bv8>, enc: Option<bool>, newMode: int)
      requires |key| == ACSS_KEYSIZE
      modifies this
      ensures Valid() && mode == newMode && !subkeyAvailable && data == key
      ensures encrypt == if enc.Some? then enc.value else old(encrypt)
      ensures Registers() == Seeded(key, None)
    {
      data, subkey := key, [0, 0, 0, 0, 0];
      if enc.Some? {
        encrypt := enc.value;
      }
      mode, subkeyAvailable := newMode, false;
      Seed();
    }

    method SetSubkey(sub: seq<bv8>)
      requires |data| == |sub| == ACSS_KEYSIZE
      modifies this
      ensures Valid() && mode == old(mode) && encrypt == old(encrypt) && data == old(data)
      ensures Registers() == Seeded(data, Some(sub))
    {
      subkey, subkeyAvailable := sub, true;
      Seed();
    }

    /** The body of the loop before the byte is written; false is the unknown mode. */
    method Round() returns (ok: bool)
      requires Valid()
      modifies this`lfsr17, this`lfsr25, this`lfsrsum
      ensures Valid() && ok == (0 <= mode <= 3)
      ensures ok ==> Registers() == Next(old(Registers()), mode)
      ensures !ok ==> Registers() == State(Step17(old(lfsr17)), Step25(old(lfsr25)), old(lfsrsum))
    {
      hide Step17, Step25, Addend, In17, In25, Top17, Top25;
      NextLive(Registers(), mode);
      lfsr17, lfsr25 := Step17(lfsr17), Step25(lfsr25);
      var previous := lfsrsum;
      if mode == ACSS_AUTHENTICATE || mode == ACSS_DATA {
        lfsrsum := Addend(Top17(lfsr17), true) + Addend(Top25(lfsr25), false);
      } else if mode == ACSS_SESSIONKEY {
        lfsrsum := Addend(Top17(lfsr17), false) + Addend(Top25(lfsr25), false);
      } else if mode == ACSS_TITLEKEY {
        lfsrsum := Addend(Top17(lfsr17), false) + Addend(Top25(lfsr25), true);
      } else {
        return false;
      }
      lfsrsum := lfsrsum + previous / 256;
      return true;
    }

    /** The byte of the round, into an array that may be the source itself. */
    method WriteByte(len: nat, src: array<bv8>, dest: array<bv8>, i: nat, ghost was: seq<bv8>)
      requires i < len == |was| && len <= src.Length && len <= dest.Length && src[i..len] == was[i..]
      modifies dest
      ensures dest[..i + 1] == old(dest[..i]) + [CryptByte(Registers(), encrypt, was[i])]
      ensures src[i + 1..len] == was[i + 1..] && dest[len..] == old(dest[len..])
    {
      hide CryptByte;
      ghost var s := src[..len];
      assert s[i..] == was[i..] && s[i] == s[i..][0] == was[i] && s[i + 1..] == s[i..][1..] == was[i + 1..];
      dest[i] := CryptByte(State(lfsr17, lfsr25, lfsrsum), encrypt, src[i]);
      assert src[i + 1..len] == s[i + 1..];
    }

    /**
     * The cipher over the first len bytes. An unknown mode is refused after one
     * step of the registers and writes nothing; no bytes at all is never refused.
     */
    method Acss(len: nat, src: array<bv8>, dest: array<bv8>) returns (ok: bool)
      requires Valid() && len <= src.Length && len <= dest.Length
      modifies this`lfsr17, this`lfsr25, this`lfsrsum, dest
      ensures Valid() && ok == (len == 0 || 0 <= mode <= 3)
      ensures ok ==> Registers() == Advance(old(Registers()), mode, len)
      ensures ok ==> dest[..len] == Crypted(old(Registers()), mode, encrypt, old(src[..len]))
      ensures dest[len..] == old(dest[len..]) && (!ok ==> dest[..] == old(dest[..]))
    {
      hide Advance, Crypted, CryptByte, Next, State.Live;
      ghost var (start, was) := (Registers(), src[..len]);
      AdvanceNone(start, mode, encrypt);
      var i := 0;
      while i < len
        invariant 0 <= i <= len && Valid() && (i > 0 ==> 0 <= mode <= 3)
        invariant Registers() == Advance(start, mode, i)
        invariant dest[..i] == Crypted(start, mode, encrypt, was[..i])
        invariant src[i..len] == was[i..]
        invariant dest[len..] == old(dest[len..]) && (i == 0 ==> dest[..] == old(dest[..]))
      {
        ok := Round();
        if !ok {
          return;
        }
        AdvanceLast(start, mode, i);
        CryptNext(start, mode, encrypt, was, i);
        WriteByte(len, src, dest, i, was);
        i := i + 1;
      }
      assert was[..len] == was;
      return true;
    }
  }

  lemma AdvanceNone(s: State, mode: int, encrypt: bool)
    ensures Advance(s, mode, 0) == s && Crypted(s, mode, encrypt, []) == []
  {
  }

  lemma CryptNext(s: State, mode: int, encrypt: bool, data: seq<bv8>, i: nat)
    requires i < |data|
    ensures Crypted(s, mode, encrypt, data[..i + 1]) ==
            Crypted(s, mode, encrypt, data[..i]) + [CryptByte(Advance(s, mode, i + 1), encrypt, data[i])]
  {
    hide Next, CryptByte;
    assert data[..i + 1] == data[..i] + [data[i]];
    CryptInParts(s, mode, encrypt, data[..i], [data[i]]);
    AdvanceLast(s, mode, i);
    var t := Advance(s, mode, i);
    assert Crypted(t, mode, encrypt, [data[i]]) == [CryptByte(Next(t, mode), encrypt, data[i])] + Crypted(Next(t, mode), mode, encrypt, []);
  }

  /** Two structures keyed alike: what one encrypts in place, the other decrypts in place. */
  method RoundTripInPlace(a: Key, b: Key, buf: array<bv8>)
    requires a != b && a.Valid() && b.Valid() && a.encrypt && !b.encrypt
    requires a.mode == b.mode && 0 <= a.mode <= 3 && a.Registers() == b.Registers()
    modifies a, b, buf
    ensures buf[..] == old(buf[..]) && a.Registers() == b.Registers()
  {
    hide Advance, Crypted, State.Live;
    ghost var (start, was) := (a.Registers(), buf[..]);
    var ok := a.Acss(buf.Length, buf, buf);
    ghost var sent := buf[..];
    assert sent == buf[..buf.Length] && was == was[..buf.Length];
    ok := b.Acss(buf.Length, buf, buf);
    assert sent == sent[..buf.Length] && buf[..] == buf[..buf.Length];
    DecryptEncrypt(start, a.mode, was);
  }
}
