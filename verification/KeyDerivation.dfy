/** Deriving keys from the shared secret (derive_key in kex.c; section 7.2 of RFC 4253). */
module KeyDerivation {
  import opened Bytes
  import opened Buffers
  import opened Wire

  datatype Digest = Digest(size: int, h: seq<byte> -> seq<byte>)

  /** The digest has the length EVP_MD_size reports. */
  ghost predicate Sized(md: Digest) {
    md.size > 0 ==> forall x :: |md.h(x)| == md.size
  }

  /** What goes into each key: the secret (unless the peer has the DERIVEKEY bug), the exchange hash and the session. */
  datatype Material = Material(secret: nat, hash: seq<byte>, session: seq<byte>, omitSecret: bool)
  {
    function Head(): seq<byte> {
      (if omitSecret then [] else MpintBytes(secret)) + hash
    }
  }

  /** K1 || ... || Kn for the key with the given letter. */
  function Blocks(md: Digest, m: Material, letter: byte, n: nat): seq<byte> {
    if n == 0 then []
    else if n == 1 then md.h(m.Head() + [letter] + m.session)
    else
      var before := Blocks(md, m, letter, n - 1);
      before + md.h(m.Head() + before)
  }

  /** The number of digests needed. */
  function Count(need: nat, size: int): (n: nat)
    requires size > 0
    ensures (n - 1) * size < need <= n * size
  {
    CeilingBounds(need, size);
    (need + (size - 1)) / size
  }

  lemma CeilingBounds(need: nat, size: int)
    requires size > 0
    ensures var n := (need + (size - 1)) / size; n >= 0 && (n - 1) * size < need <= n * size
  {
    var n := (need + (size - 1)) / size;
    assert (n - 1) * size == n * size - size;
  }

  /** derive_key; None is fatal(): no digest, or a key of no length, which xmalloc refuses. */
  function DeriveKey(md: Digest, m: Material, letter: byte, need: nat): Option<seq<byte>> {
    if md.size <= 0 || need == 0 then None else Some(Blocks(md, m, letter, Count(need, md.size)))
  }

  lemma {:induction false} BlocksLength(md: Digest, m: Material, letter: byte, n: nat)
    requires Sized(md) && md.size > 0
    ensures |Blocks(md, m, letter, n)| == n * md.size
  {
    hide Material.Head;
    if n > 0 {
      BlocksLength(md, m, letter, n - 1);
      assert n * md.size == (n - 1) * md.size + md.size;
    }
  }

  lemma {:induction false} BlocksPrefix(md: Digest, m: Material, letter: byte, n: nat, n': nat)
    requires n <= n'
    ensures Blocks(md, m, letter, n) <= Blocks(md, m, letter, n')
  {
    if n < n' {
      BlocksPrefix(md, m, letter, n, n' - 1);
    }
  }

  /**
   * Every digest is taken over the secret, the exchange hash, and then the letter
   * and the session for the first one, all the key material before it for the others.
   */
  lemma BlockAt(md: Digest, m: Material, letter: byte, n: nat, i: nat)
    requires Sized(md) && md.size > 0 && 0 <= i < n
    ensures i * md.size <= (i + 1) * md.size <= |Blocks(md, m, letter, n)|
    ensures var key := Blocks(md, m, letter, n);
            var tail := if i == 0 then [letter] + m.session else key[..i * md.size];
            key[i * md.size..(i + 1) * md.size] ==
            md.h(if m.omitSecret then m.hash + tail else MpintBytes(m.secret) + m.hash + tail)
  {
    hide Blocks, MpintBytes;
    assert [] + m.hash == m.hash;
    if i == 0 {
      FirstBlockAt(md, m, letter, n);
      assert m.Head() + ([letter] + m.session) == m.Head() + [letter] + m.session;
    } else {
      LaterBlockAt(md, m, letter, n, i);
    }
  }

  lemma FirstBlockAt(md: Digest, m: Material, letter: byte, n: nat)
    requires Sized(md) && md.size > 0 && n > 0
    ensures md.size <= |Blocks(md, m, letter, n)|
    ensures Blocks(md, m, letter, n)[..md.size] == md.h(m.Head() + [letter] + m.session)
  {
    hide Blocks;
    BlocksLength(md, m, letter, 1);
    BlocksPrefix(md, m, letter, 1, n);
    FirstBlock(md, m, letter);
  }

  lemma LaterBlockAt(md: Digest, m: Material, letter: byte, n: nat, i: nat)
    requires Sized(md) && md.size > 0 && 0 < i < n
    ensures i * md.size <= (i + 1) * md.size <= |Blocks(md, m, letter, n)|
    ensures var key := Blocks(md, m, letter, n);
            key[i * md.size..(i + 1) * md.size] == md.h(m.Head() + key[..i * md.size])
  {
    hide Blocks, Material.Head;
    BlocksLength(md, m, letter, n);
    BlocksLength(md, m, letter, i);
    BlocksLength(md, m, letter, i + 1);
    BlocksPrefix(md, m, letter, i + 1, n);
    MulLe(i + 1, n, md.size);
    BlocksStep(md, m, letter, i);
    var key, before := Blocks(md, m, letter, n), Blocks(md, m, letter, i);
    assert key[..(i + 1) * md.size] == before + md.h(m.Head() + before);
    assert key[..i * md.size] == before;
  }

  lemma MulLe(a: int, b: int, w: int)
    requires a <= b && w > 0
    ensures a * w <= b * w && (a - 1) * w <= a * w
  {
    assert (b - a) * w >= 0;
  }

  lemma BlocksStep(md: Digest, m: Material, letter: byte, i: nat)
    requires i > 0
    ensures var before := Blocks(md, m, letter, i);
            Blocks(md, m, letter, i + 1) == before + md.h(m.Head() + before)
  {
  }

  lemma CountMonotone(need: nat, need': nat, size: int)
    requires size > 0 && need <= need'
    ensures Count(need, size) <= Count(need', size)
  {
    var n, n' := Count(need, size), Count(need', size);
    if n' < n {
      MulLe(n', n - 1, size);
      assert false;
    }
  }

  /** A key is long enough, and a key for a smaller need is a prefix of one for a larger need. */
  lemma DeriveKeyPrefix(md: Digest, m: Material, letter: byte, need: nat, need': nat)
    requires Sized(md) && md.size > 0 && 0 < need <= need'
    ensures var k, k' := DeriveKey(md, m, letter, need), DeriveKey(md, m, letter, need');
            k.Some? && k'.Some? && need <= |k.value| < need + md.size && k.value <= k'.value
  {
    hide Blocks;
    CountMonotone(need, need', md.size);
    BlocksLength(md, m, letter, Count(need, md.size));
    BlocksPrefix(md, m, letter, Count(need, md.size), Count(need', md.size));
    var n := Count(need, md.size);
    assert (n - 1) * md.size == n * md.size - md.size;
  }

  /** EVP_DigestFinal into the array at an offset. */
  method Extend(digest: array<byte>, have: nat, next: seq<byte>)
    requires have + |next| <= digest.Length
    modifies digest
    ensures digest[..have + |next|] == old(digest[..have]) + next
  {
    Fill(digest, have, next);
  }

  /** The loop of derive_key, extending the digest array one hash at a time. */
  method Derive(md: Digest, m: Material, letter: byte, need: nat) returns (key: Option<array<byte>>)
    requires Sized(md)
    ensures key.None? <==> DeriveKey(md, m, letter, need).None?
    ensures key.Some? ==> fresh(key.value) && Some(key.value[..]) == DeriveKey(md, m, letter, need)
  {
    hide Blocks, Count, Material.Head;
    if md.size <= 0 || need == 0 {
      return None;
    }
    var size := md.size;
    var total := Count(need, size);
    Allocated(need, total, size);
    var digest := new byte[total * size];
    FirstBlock(md, m, letter);
    Extend(digest, 0, md.h(m.Head() + [letter] + m.session));
    var have := size;
    ghost var n := 1;
    while need > have
      invariant 1 <= n <= total && have == n * size <= digest.Length
      invariant digest[..have] == Blocks(md, m, letter, n)
    {
      Advance(need, total, n, size);
      BlocksStep(md, m, letter, n);
      Extend(digest, have, md.h(m.Head() + digest[..have]));
      have := have + size;
      n := n + 1;
    }
    Reached(need, total, n, size);
    assert digest[..have] == digest[..];
    key := Some(digest);
  }

  lemma Allocated(need: nat, total: nat, size: int)
    requires size > 0 && 0 < need <= total * size
    ensures total >= 1 && 1 * size <= total * size
  {
    MulLe(1, total, size);
  }

  lemma FirstBlock(md: Digest, m: Material, letter: byte)
    ensures Blocks(md, m, letter, 1) == md.h(m.Head() + [letter] + m.session)
  {
  }

  lemma Advance(need: nat, total: nat, n: nat, size: int)
    requires size > 0 && need <= total * size && n * size < need
    ensures n + 1 <= total && (n + 1) * size <= total * size && (n + 1) * size == n * size + size
  {
    if total <= n {
      MulLe(total, n, size);
      assert false;
    }
    MulLe(n + 1, total, size);
  }

  lemma Reached(need: nat, total: nat, n: nat, size: int)
    requires size > 0 && n <= total && (total - 1) * size < need <= n * size
    ensures n == total
  {
    if n < total {
      MulLe(n, total - 1, size);
      assert false;
    }
  }
}
