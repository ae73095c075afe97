/**
 * AES in cipher block chaining mode (cipher-aes.c; section 6.2 of NIST SP 800-38A),
 * for any block permutation in place of AES.
 */
module CbcMode {
  import opened Octets

  const BLOCK: nat := 16

  type Block = b: seq<bv8> | |b| == 16 witness [0, 0, 0, 0, 0, 0, 0, 0, 0, 0, 0, 0, 0, 0, 0, 0]

  /** The two directions of one key. */
  datatype Cipher = Cipher(encrypt: Block -> Block, decrypt: Block -> Block)
  {
    ghost predicate Inverse() {
      forall b: Block :: decrypt(encrypt(b)) == b
    }
  }

  function XorBlock(a: Block, b: Block): (c: Block)
    ensures forall i :: 0 <= i < 16 ==> c[i] == Xor(a[i], b[i])
  {
    seq(16, i requires 0 <= i < 16 => Xor(a[i], b[i]))
  }

  lemma XorBlockCancels(a: Block, b: Block)
    ensures XorBlock(XorBlock(a, b), b) == a
  {
    forall i | 0 <= i < 16
      ensures XorBlock(XorBlock(a, b), b)[i] == a[i]
    {
      XorCancels(a[i], b[i]);
    }
  }

  // ----- The mode, block by block

  predicate Whole(s: seq<bv8>) { |s| % BLOCK == 0 }

  function Encrypted(c: Cipher, iv: Block, plain: seq<bv8>): (r: seq<bv8>)
    requires Whole(plain)
    ensures |r| == |plain|
    decreases |plain|
  {
    if plain == [] then [] else
      var first: Block := c.encrypt(XorBlock(plain[..16], iv));
      first + Encrypted(c, first, plain[16..])
  }

  function Decrypted(c: Cipher, iv: Block, crypt: seq<bv8>): (r: seq<bv8>)
    requires Whole(crypt)
    ensures |r| == |crypt|
    decreases |crypt|
  {
    if crypt == [] then [] else XorBlock(c.decrypt(crypt[..16]), iv) + Decrypted(c, crypt[..16], crypt[16..])
  }

  /** The chaining value in front of the block at a position of a ciphertext. */
  function Chain(iv: Block, crypt: seq<bv8>, at: nat): Block
    requires at % 16 == 0 && at <= |crypt|
  {
    if at == 0 then iv else crypt[at - 16..at]
  }

  /** The chaining value behind a whole ciphertext. */
  function NextIv(iv: Block, crypt: seq<bv8>): Block
    requires Whole(crypt)
  {
    if crypt == [] then iv else crypt[|crypt| - 16..]
  }

  /** Decryption inverts encryption for every number of blocks. */
  lemma {:induction false} DecryptEncrypt(c: Cipher, iv: Block, plain: seq<bv8>)
    requires c.Inverse() && Whole(plain)
    ensures Decrypted(c, iv, Encrypted(c, iv, plain)) == plain
    decreases |plain|
  {
    hide XorBlock;
    if plain != [] {
      var x := XorBlock(plain[..16], iv);
      var first: Block := c.encrypt(x);
      var r := Encrypted(c, iv, plain);
      assert r[..16] == first && r[16..] == Encrypted(c, first, plain[16..]);
      assert c.decrypt(first) == x;
      XorBlockCancels(plain[..16], iv);
      DecryptEncrypt(c, first, plain[16..]);
    }
  }

  /** Encrypting in two calls, the second from the saved chaining value, is encrypting in one. */
  lemma {:induction false} EncryptInParts(c: Cipher, iv: Block, p: seq<bv8>, q: seq<bv8>)
    requires Whole(p) && Whole(q)
    ensures Encrypted(c, iv, p + q) == Encrypted(c, iv, p) + Encrypted(c, NextIv(iv, Encrypted(c, iv, p)), q)
    decreases |p|
  {
    hide XorBlock, NextIv;
    if p == [] {
      assert p + q == q;
      NextIvOfNothing(iv);
    } else {
      var first: Block := c.encrypt(XorBlock(p[..16], iv));
      assert (p + q)[..16] == p[..16] && (p + q)[16..] == p[16..] + q;
      EncryptInParts(c, first, p[16..], q);
      var r := Encrypted(c, first, p[16..]);
      NextIvBehind(iv, first, r);
      Regroup(first, r, Encrypted(c, NextIv(first, r), q));
    }
  }

  lemma NextIvOfNothing(iv: Block)
    ensures NextIv(iv, []) == iv
  {
  }

  /** The chaining value behind a first block and more is that behind the rest. */
  lemma NextIvBehind(iv: Block, first: Block, r: seq<bv8>)
    requires Whole(r)
    ensures Whole(first + r) && NextIv(iv, first + r) == NextIv(first, r)
  {
    if r == [] {
      assert first + r == first;
    } else {
      assert (first + r)[|first + r| - 16..] == r[|r| - 16..];
    }
  }

  lemma {:induction false} DecryptInParts(c: Cipher, iv: Block, p: seq<bv8>, q: seq<bv8>)
    requires Whole(p) && Whole(q)
    ensures Decrypted(c, iv, p + q) == Decrypted(c, iv, p) + Decrypted(c, NextIv(iv, p), q)
    decreases |p|
  {
    hide XorBlock, NextIv;
    if p == [] {
      assert p + q == q;
      NextIvOfNothing(iv);
    } else {
      assert (p + q)[..16] == p[..16] && (p + q)[16..] == p[16..] + q;
      DecryptInParts(c, p[..16], p[16..], q);
      assert p == p[..16] + p[16..];
      NextIvBehind(iv, p[..16], p[16..]);
      var first := XorBlock(c.decrypt(p[..16]), iv);
      Regroup(first, Decrypted(c, p[..16], p[16..]), Decrypted(c, NextIv(iv, p), q));
    }
  }

  // ----- ssh_rijndael_cbc

  /** The last whole block joins the others. */
  lemma EncryptOneMore(c: Cipher, iv: Block, plain: seq<bv8>, at: nat)
    requires Whole(plain) && at % 16 == 0 && at + 16 <= |plain|
    ensures var r := Encrypted(c, iv, plain[..at]);
            Encrypted(c, iv, plain[..at + 16]) == r + c.encrypt(XorBlock(plain[at..at + 16], NextIv(iv, r)))
  {
    hide XorBlock;
    var (p, q) := (plain[..at], plain[at..at + 16]);
    assert plain[..at + 16] == p + q;
    EncryptInParts(c, iv, p, q);
    var r := Encrypted(c, iv, p);
    assert q[..16] == q && q[16..] == [];
  }

  lemma PrefixSlice(s: seq<bv8>, t: seq<bv8>, n: nat, a: nat, b: nat)
    requires a <= b <= n <= |s| && n <= |t| && s[..n] == t[..n]
    ensures s[a..b] == t[a..b]
  {
    forall i | a <= i < b
      ensures s[i] == t[i]
    {
      assert s[i] == s[..n][i] && t[i] == t[..n][i];
    }
  }

  lemma SuffixSlice(s: seq<bv8>, t: seq<bv8>, n: nat, a: nat, b: nat)
    requires n <= a <= b <= |s| == |t| && s[n..] == t[n..]
    ensures s[a..b] == t[a..b]
  {
    forall i | a <= i < b
      ensures s[i] == t[i]
    {
      assert s[i] == s[n..][i - n] && t[i] == t[n..][i - n];
    }
  }

  lemma Regroup(a: seq<bv8>, b: seq<bv8>, c: seq<bv8>)
    ensures a + (b + c) == a + b + c
  {
  }

  /** dest[at..at+16] := data */
  method Store(dest: array<bv8>, at: nat, data: Block)
    requires at + 16 <= dest.Length
    modifies dest
    ensures dest[..at] == old(dest[..at]) && dest[at..at + 16] == data && dest[at + 16..] == old(dest[at + 16..])
  {
    forall j | 0 <= j < 16 {
      dest[at + j] := data[j];
    }
  }

  /** The byte loop buf[j] = plain[j] ^ cprev[j]. */
  method XorLoop(a: Block, b: Block) returns (c: Block)
    ensures c == XorBlock(a, b)
  {
    var buf := new bv8[16](_ => 0);
    for j := 0 to 16
      invariant forall i :: 0 <= i < j ==> buf[i] == Xor(a[i], b[i])
    {
      buf[j] := Xor(a[j], b[j]);
    }
    c := buf[..];
    assert c == XorBlock(a, b);
  }

  class Context {
    const cipher: Cipher
    const encrypt: bool
    var iv: Block

    constructor (cipher: Cipher, encrypt: bool, iv: Block)
      ensures this.cipher == cipher && this.encrypt == encrypt && this.iv == iv
    {
      this.cipher := cipher;
      this.encrypt := encrypt;
      this.iv := iv;
    }

    /** One round of the encrypting loop: the block at `at`, which the source still holds. */
    method EncryptBlock(dest: array<bv8>, src: array<bv8>, at: nat, cprev: Block, ghost plain: seq<bv8>) returns (next: Block)
      requires at + 16 <= dest.Length == src.Length == |plain| && src[at..] == plain[at..]
      modifies dest
      ensures next == cipher.encrypt(XorBlock(plain[at..at + 16], cprev))
      ensures dest[..at + 16] == old(dest[..at]) + next
      ensures src[at + 16..] == plain[at + 16..]
    {
      hide XorBlock;
      ghost var s := src[..];
      SuffixSlice(s, plain, at, at, at + 16);
      SuffixSlice(s, plain, at, at + 16, |s|);
      var data: Block := src[at..at + 16];
      assert data == s[at..at + 16];
      var buf := XorLoop(data, cprev);
      next := cipher.encrypt(buf);
      Store(dest, at, next);
      assert dest[..at + 16] == dest[..at] + dest[at..at + 16];
      assert src[at + 16..] == s[at + 16..|s|];
    }

    /** The encrypting branch: front to back, into a buffer that may be the source itself. */
    method EncryptBlocks(dest: array<bv8>, src: array<bv8>)
      requires dest.Length == src.Length && src.Length % 16 == 0
      modifies this`iv, dest
      ensures dest[..] == Encrypted(cipher, old(iv), old(src[..]))
      ensures iv == NextIv(old(iv), dest[..])
    {
      hide XorBlock, Encrypted;
      ghost var plain := src[..];
      var cprev := iv;
      EncryptNothing(cipher, iv, plain);
      assert dest[..0] == [];
      var at := 0;
      while at < src.Length
        invariant at % 16 == 0 && 0 <= at <= src.Length
        invariant dest[..at] == Encrypted(cipher, iv, plain[..at])
        invariant src[at..] == plain[at..]
        invariant cprev == NextIv(iv, dest[..at])
        invariant iv == old(iv)
      {
        EncryptOneMore(cipher, iv, plain, at);
        ghost var before := dest[..at];
        cprev := EncryptBlock(dest, src, at, cprev, plain);
        assert (before + cprev)[|before|..] == cprev;
        at := at + 16;
      }
      assert dest[..] == dest[..at] && plain[..at] == plain;
      iv := cprev;
    }

    /** One round of the decrypting loop: the block at `at`, whose predecessor the source still holds. */
    method DecryptBlock(dest: array<bv8>, src: array<bv8>, at: nat, ghost crypt: seq<bv8>)
      requires at % 16 == 0 && at + 16 <= dest.Length == src.Length == |crypt| && src[..at + 16] == crypt[..at + 16]
      modifies dest
      ensures dest[at..] == XorBlock(cipher.decrypt(crypt[at..at + 16]), Chain(iv, crypt, at)) + old(dest[at + 16..])
      ensures src[..at] == crypt[..at]
    {
      hide XorBlock;
      ghost var s := src[..];
      PrefixSlice(s, crypt, at + 16, at, at + 16);
      PrefixSlice(s, crypt, at + 16, 0, at);
      var now: Block := src[at..at + 16];
      var ivp: Block := iv;
      if at > 0 {
        PrefixSlice(s, crypt, at + 16, at - 16, at);
        ivp := src[at - 16..at];
      }
      assert now == s[at..at + 16] && ivp == Chain(iv, crypt, at);
      var plain := XorLoop(cipher.decrypt(now), ivp);
      Store(dest, at, plain);
      assert src[..at] == s[0..at];
      assert dest[at..] == dest[at..at + 16] + dest[at + 16..];
    }

    /** The decrypting branch: back to front, so that an overwritten block is no longer needed. */
    method DecryptBlocks(dest: array<bv8>, src: array<bv8>)
      requires dest.Length == src.Length > 0 && src.Length % 16 == 0
      modifies this`iv, dest
      ensures dest[..] == Decrypted(cipher, old(iv), old(src[..]))
      ensures iv == NextIv(old(iv), old(src[..]))
    {
      hide XorBlock, Decrypted, Chain;
      ghost var crypt := src[..];
      var at := src.Length;
      var saved: Block := src[at - 16..at];
      assert saved == crypt[at - 16..];
      DecryptNothing(cipher, Chain(iv, crypt, at), crypt);
      assert dest[at..] == [];
      while at > 0
        invariant at % 16 == 0 && 0 <= at <= src.Length
        invariant src[..at] == crypt[..at]
        invariant dest[at..] == Decrypted(cipher, Chain(iv, crypt, at), crypt[at..])
        invariant iv == old(iv)
      {
        at := at - 16;
        DecryptOneMore(cipher, iv, crypt, at);
        DecryptBlock(dest, src, at, crypt);
      }
      assert dest[..] == dest[0..] && crypt[0..] == crypt;
      ChainStart(iv, crypt);
      iv := saved;
    }

    /** ssh_rijndael_cbc: `ok` is false where the C code calls fatal. */
    method Cbc(dest: array<bv8>, src: array<bv8>) returns (ok: bool)
      requires dest.Length == src.Length
      modifies this`iv, dest
      ensures ok <==> src.Length % 16 == 0
      ensures ok ==> dest[..] == (if encrypt then Encrypted(cipher, old(iv), old(src[..]))
                                  else Decrypted(cipher, old(iv), old(src[..])))
      ensures ok ==> iv == NextIv(old(iv), if encrypt then dest[..] else old(src[..]))
    {
      if src.Length == 0 {
        assert src[..] == dest[..] == [];
        return true;
      }
      if src.Length % 16 != 0 {
        return false;
      }
      if encrypt {
        EncryptBlocks(dest, src);
      } else {
        DecryptBlocks(dest, src);
      }
      ok := true;
    }
  }

  lemma EncryptNothing(c: Cipher, iv: Block, plain: seq<bv8>)
    ensures Encrypted(c, iv, plain[..0]) == []
  {
  }

  lemma DecryptNothing(c: Cipher, iv: Block, crypt: seq<bv8>)
    ensures Decrypted(c, iv, crypt[|crypt|..]) == []
  {
  }

  lemma ChainStart(iv: Block, crypt: seq<bv8>)
    ensures Chain(iv, crypt, 0) == iv
  {
  }

  lemma DecryptOneMore(c: Cipher, iv: Block, crypt: seq<bv8>, at: nat)
    requires Whole(crypt) && at % 16 == 0 && at + 16 <= |crypt|
    ensures Decrypted(c, Chain(iv, crypt, at), crypt[at..]) ==
            XorBlock(c.decrypt(crypt[at..at + 16]), Chain(iv, crypt, at)) +
            Decrypted(c, Chain(iv, crypt, at + 16), crypt[at + 16..])
  {
    hide XorBlock;
    assert crypt[at..][..16] == crypt[at..at + 16] && crypt[at..][16..] == crypt[at + 16..];
  }

  /** Two ends with equal keys and chaining values stay in step: a buffer encrypted and decrypted in place is unchanged. */
  method RoundTripInPlace(sender: Context, receiver: Context, data: array<bv8>)
    requires sender != receiver && sender.cipher == receiver.cipher && sender.cipher.Inverse()
    requires sender.encrypt && !receiver.encrypt && sender.iv == receiver.iv && data.Length % 16 == 0
    modifies sender`iv, receiver`iv, data
    ensures data[..] == old(data[..]) && sender.iv == receiver.iv
  {
    hide Encrypted, Decrypted, NextIv;
    DecryptEncrypt(sender.cipher, sender.iv, data[..]);
    var sent := sender.Cbc(data, data);
    var received := receiver.Cbc(data, data);
  }
}
