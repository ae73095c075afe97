/**
 * AES in counter mode (cipher-ctr.c; section 4 of RFC 4344), for any block
 * function in place of AES.  The counter is a big-endian number of 16 bytes.
 */
module CtrMode {
  import opened Bytes
  import opened NumberTheory
  import opened Octets

  const BLOCK: nat := 16

  type Counter = c: seq<byte> | |c| == 16 witness [0, 0, 0, 0, 0, 0, 0, 0, 0, 0, 0, 0, 0, 0, 0, 0]
  type Keystream = k: seq<bv8> | |k| == 16 witness [0, 0, 0, 0, 0, 0, 0, 0, 0, 0, 0, 0, 0, 0, 0, 0]

  // ----- The counter

  /** Adds one in the last place and carries towards the front, dropping a carry out of the first. */
  function Increment(c: seq<byte>): (r: seq<byte>)
    ensures |r| == |c|
  {
    if c == [] then []
    else if c[|c| - 1] < 255 then c[..|c| - 1] + [c[|c| - 1] + 1]
    else Increment(c[..|c| - 1]) + [0]
  }

  /** The increment is addition of one modulo 256^len. */
  lemma {:induction false} IncrementAddsOne(c: seq<byte>)
    ensures ToNat(Increment(c)) == (ToNat(c) + 1) % Pow256(|c|)
  {
    if c != [] {
      var (front, last) := (c[..|c| - 1], c[|c| - 1]);
      var r := Increment(c);
      var m := Pow256(|front|);
      ToNatBound(front);
      if last < 255 {
        assert r[..|r| - 1] == front;
        ModUnique(ToNat(c) + 1, 256 * m, 0, ToNat(c) + 1);
      } else {
        assert r[..|r| - 1] == Increment(front);
        IncrementAddsOne(front);
        if ToNat(front) + 1 < m {
          ModUnique(ToNat(front) + 1, m, 0, ToNat(front) + 1);
          ModUnique(ToNat(c) + 1, 256 * m, 0, ToNat(c) + 1);
        } else {
          ModUnique(m, m, 1, 0);
          ModUnique(256 * m, 256 * m, 1, 0);
        }
      }
    }
  }

  function Advance(c: Counter, n: nat): Counter
    decreases n
  {
    if n == 0 then c else Advance(Increment(c), n - 1)
  }

  /** After n blocks the counter has grown by n modulo 2^128. */
  lemma {:induction false} AdvanceAdds(c: Counter, n: nat)
    ensures ToNat(Advance(c, n)) == (ToNat(c) + n) % Pow256(16)
    decreases n
  {
    hide Pow256, ToNat, Increment;
    if n == 0 {
      ToNatBound(c);
      ModUnique(ToNat(c), Pow256(16), 0, ToNat(c));
    } else {
      IncrementAddsOne(c);
      AdvanceAdds(Increment(c), n - 1);
      AddOneMore(ToNat(c), n, ToNat(Increment(c)), Pow256(16));
    }
  }

  lemma AddOneMore(x: int, n: int, y: int, m: int)
    requires m > 0 && y == (x + 1) % m
    ensures (y + (n - 1)) % m == (x + n) % m
  {
    AddMod(x + 1, n - 1, m);
  }

  /** ssh_ctr_inc, in place. */
  method CtrInc(ctr: array<byte>)
    modifies ctr
    ensures ctr[..] == Increment(old(ctr[..]))
  {
    ghost var c := ctr[..];
    var i := ctr.Length - 1;
    assert c[..ctr.Length] == c;
    while i >= 0
      invariant -1 <= i < ctr.Length
      invariant ctr[..i + 1] == c[..i + 1]
      invariant Increment(c[..i + 1]) + ctr[i + 1..] == Increment(c)
    {
      ghost var (head, tail) := (c[..i + 1], ctr[i + 1..]);
      assert head[..i] == c[..i] && head[i] == ctr[i];
      if ctr[i] < 255 {
        ctr[i] := ctr[i] + 1;
        assert ctr[..] == (c[..i] + [c[i] + 1]) + tail;
        return;
      }
      ctr[i] := 0;
      assert ctr[i..] == [0] + tail;
      assert Increment(head[..i]) + ([0] + tail) == Increment(head) + tail;
      i := i - 1;
    }
    assert Increment(c[..0]) == [] && [] + ctr[0..] == ctr[..];
  }

  lemma {:induction false} AdvanceLast(c: Counter, n: nat)
    ensures Advance(c, n + 1) == Increment(Advance(c, n))
    decreases n
  {
    hide Increment;
    if n > 0 {
      AdvanceLast(Increment(c), n - 1);
    }
  }

  lemma {:induction false} AdvanceSum(c: Counter, m: nat, n: nat)
    ensures Advance(c, m + n) == Advance(Advance(c, m), n)
    decreases m
  {
    hide Increment;
    if m > 0 {
      AdvanceSum(Increment(c), m - 1, n);
    }
  }

  // ----- The mode

  /** The key stream byte for position `p`, counting from counter `c`. */
  function StreamByte(e: Counter -> Keystream, c: Counter, p: nat): bv8 {
    e(Advance(c, p / 16))[p % 16]
  }

  function Crypted(e: Counter -> Keystream, c: Counter, data: seq<bv8>): (r: seq<bv8>)
    ensures |r| == |data|
    ensures forall p :: 0 <= p < |data| ==> r[p] == Xor(data[p], StreamByte(e, c, p))
  {
    seq(|data|, p requires 0 <= p < |data| => Xor(data[p], StreamByte(e, c, p)))
  }

  /** Blocks started by a message of `len` bytes. */
  function BlocksFor(len: nat): nat { (len + 15) / 16 }

  /** Running the mode twice from the same counter is the identity. */
  lemma CryptTwice(e: Counter -> Keystream, c: Counter, data: seq<bv8>)
    ensures Crypted(e, c, Crypted(e, c, data)) == data
  {
    hide StreamByte;
    forall p | 0 <= p < |data|
      ensures Crypted(e, c, Crypted(e, c, data))[p] == data[p]
    {
      XorCancels(data[p], StreamByte(e, c, p));
    }
  }

  /** Splitting a message at a block boundary changes neither the output nor the final counter. */
  lemma CryptInParts(e: Counter -> Keystream, c: Counter, a: seq<bv8>, b: seq<bv8>)
    requires |a| % 16 == 0
    ensures var c' := Advance(c, BlocksFor(|a|));
            Crypted(e, c, a + b) == Crypted(e, c, a) + Crypted(e, c', b) &&
            Advance(c, BlocksFor(|a + b|)) == Advance(c', BlocksFor(|b|))
  {
    hide Advance;
    var k := |a| / 16;
    AdvanceSum(c, k, BlocksFor(|b|));
    forall p | |a| <= p < |a + b|
      ensures StreamByte(e, c, p) == StreamByte(e, Advance(c, k), p - |a|)
    {
      AdvanceSum(c, k, (p - |a|) / 16);
    }
  }

  class Context {
    const e: Counter -> Keystream
    const counter: array<byte>

    constructor (e: Counter -> Keystream, iv: Counter)
      ensures fresh(counter) && counter[..] == iv && this.e == e
    {
      this.e := e;
      counter := new byte[16](i requires 0 <= i < 16 => iv[i]);
      new;
      assert counter[..] == iv;
    }

    /** ssh_aes_ctr, into a buffer that may be the source itself. */
    method Ctr(dest: array<bv8>, src: array<bv8>)
      requires counter.Length == 16 && dest.Length == src.Length
      requires counter as object != dest && counter as object != src
      modifies counter, dest
      ensures dest[..] == Crypted(e, old(counter[..]), old(src[..]))
      ensures counter[..] == Advance(old(counter[..]), BlocksFor(src.Length))
    {
      hide Advance, Increment, BlocksFor, StreamByte, Xor;
      ghost var (c, data) := (counter[..], src[..]);
      AdvanceZero(c);
      var n := 0;
      var buf := e(counter[..]);
      for p := 0 to src.Length
        invariant n == p % 16
        invariant counter[..] == Advance(c, BlocksFor(p))
        invariant n != 0 ==> buf == e(Advance(c, p / 16))
        invariant forall q :: 0 <= q < p ==> dest[q] == Xor(data[q], StreamByte(e, c, q))
        invariant forall q :: p <= q < src.Length ==> src[q] == data[q]
      {
        Progress(p);
        StreamByteAt(e, c, p);
        if n == 0 {
          buf := e(counter[..]);
          CtrInc(counter);
          AdvanceLast(c, p / 16);
        }
        dest[p] := Xor(src[p], buf[n]);
        n := (n + 1) % BLOCK;
      }
    }
  }

  lemma AdvanceZero(c: Counter)
    ensures Advance(c, 0) == c && BlocksFor(0) == 0
  {
  }

  /** A new block starts every sixteen bytes. */
  lemma Progress(p: nat)
    ensures BlocksFor(p) == p / 16 + if p % 16 == 0 then 0 else 1
    ensures BlocksFor(p + 1) == p / 16 + 1
    ensures (p + 1) % 16 == (p % 16 + 1) % 16 && ((p + 1) % 16 != 0 ==> (p + 1) / 16 == p / 16)
  {
  }

  lemma StreamByteAt(e: Counter -> Keystream, c: Counter, p: nat)
    ensures StreamByte(e, c, p) == e(Advance(c, p / 16))[p % 16]
  {
  }
}
