/**
 * detect_attack (deattack.c): an open-addressing index over the blocks of a
 * packet gives the verdict of comparing every pair of blocks.
 */
module Detector {
  import opened Deattack

  type u16 = x: int | 0 <= x < 0x1_0000

  datatype Verdict = Ok | Detected | DosDetected | BadLength

  /** Whole blocks, and no more than the detector accepts. */
  predicate GoodLength(buf: seq<bv8>) {
    |buf| <= SSH_MAXBLOCKS * SSH_BLOCKSIZE && |buf| % SSH_BLOCKSIZE == 0
  }

  function Blocks(buf: seq<bv8>): nat { |buf| / SSH_BLOCKSIZE }

  function Block(buf: seq<bv8>, i: nat): (b: seq<bv8>)
    requires i < Blocks(buf)
    ensures |b| == SSH_BLOCKSIZE
  {
    buf[SSH_BLOCKSIZE * i..SSH_BLOCKSIZE * i + SSH_BLOCKSIZE]
  }

  // ----- The verdict, by comparing all pairs

  predicate Repeats(buf: seq<bv8>, j: nat)
    requires j < Blocks(buf)
  {
    exists i :: 0 <= i < j && Block(buf, i) == Block(buf, j)
  }

  /** How many of the first `j` blocks repeat an earlier one. */
  function Repeated(buf: seq<bv8>, j: nat): (n: nat)
    requires j <= Blocks(buf)
    ensures n <= j
  {
    if j == 0 then 0 else Repeated(buf, j - 1) + if Repeats(buf, j - 1) then 1 else 0
  }

  /** Block `j` is among the first 32 repetitions and its positions compensate in the checksum. */
  predicate Suspicious(buf: seq<bv8>, j: nat)
    requires j < Blocks(buf)
  {
    Repeats(buf, j) && Repeated(buf, j) < MAX_IDENTICAL && Compensates(Block(buf, j), buf)
  }

  predicate AnySuspicious(buf: seq<bv8>) {
    exists j :: 0 <= j < Blocks(buf) && Suspicious(buf, j)
  }

  function Expected(buf: seq<bv8>): Verdict {
    if !GoodLength(buf) then BadLength
    else if AnySuspicious(buf) then Detected
    else if Repeated(buf, Blocks(buf)) > MAX_IDENTICAL then DosDetected
    else Ok
  }

  lemma {:induction false} RepeatedMonotone(buf: seq<bv8>, i: nat, j: nat)
    requires i <= j <= Blocks(buf)
    ensures Repeated(buf, i) <= Repeated(buf, j)
  {
    hide Repeats;
    if i < j {
      RepeatedMonotone(buf, i, j - 1);
    }
  }

  // ----- The verdict, by counting

  /** Block `j` is equal to an earlier one. */
  ghost predicate IsRepeat(buf: seq<bv8>, j: nat)
    requires 8 * j + 8 <= |buf|
  {
    exists i :: 0 <= i < j && buf[8 * i..8 * i + 8] == buf[8 * j..8 * j + 8]
  }

  ghost function RepeatsBelow(buf: seq<bv8>, n: nat): set<nat>
    requires 8 * n <= |buf|
  {
    set j: nat | j < n && IsRepeat(buf, j)
  }

  lemma RepeatsByBytes(buf: seq<bv8>, j: nat)
    requires 8 * j + 8 <= |buf|
    ensures Repeats(buf, j) <==> IsRepeat(buf, j)
  {
    if Repeats(buf, j) {
      var i :| 0 <= i < j && Block(buf, i) == Block(buf, j);
      assert buf[8 * i..8 * i + 8] == buf[8 * j..8 * j + 8];
    }
    if i :| 0 <= i < j && buf[8 * i..8 * i + 8] == buf[8 * j..8 * j + 8] {
      assert Block(buf, i) == Block(buf, j);
    }
  }

  lemma RepeatsGrow(buf: seq<bv8>, n: nat)
    requires n > 0 && 8 * n <= |buf|
    ensures RepeatsBelow(buf, n) == RepeatsBelow(buf, n - 1) + (if IsRepeat(buf, n - 1) then {n - 1} else {})
    ensures n - 1 !in RepeatsBelow(buf, n - 1)
  {
    hide IsRepeat;
  }

  lemma {:induction false} RepeatedIsCount(buf: seq<bv8>, n: nat)
    requires 8 * n <= |buf|
    ensures Repeated(buf, n) == |RepeatsBelow(buf, n)|
  {
    hide Repeats, IsRepeat, RepeatsBelow;
    if n == 0 {
      NoRepeats(buf);
    } else {
      RepeatedIsCount(buf, n - 1);
      RepeatsByBytes(buf, n - 1);
      RepeatsGrow(buf, n);
    }
  }

  lemma NoRepeats(buf: seq<bv8>)
    ensures RepeatsBelow(buf, 0) == {}
  {
  }

  /** Block `j` is one of the first 32 that repeat an earlier one, and its positions compensate. */
  ghost predicate Compensated(buf: seq<bv8>, j: nat)
    requires 8 * j + 8 <= |buf|
  {
    IsRepeat(buf, j) && |RepeatsBelow(buf, j)| < 32 && Compensates(buf[8 * j..8 * j + 8], buf)
  }

  ghost predicate FirstRepeatsCompensate(buf: seq<bv8>, n: nat)
    requires 8 * n <= |buf|
  {
    exists j :: 0 <= j < n && Compensated(buf, j)
  }

  lemma CompensatedIsSuspicious(buf: seq<bv8>, j: nat)
    requires j < Blocks(buf)
    ensures Suspicious(buf, j) <==> Compensated(buf, j)
  {
    hide Compensates, Repeats, Repeated, IsRepeat, RepeatsBelow;
    RepeatsByBytes(buf, j);
    RepeatedIsCount(buf, j);
  }

  lemma SuspiciousByCount(buf: seq<bv8>, n: nat)
    requires n == Blocks(buf)
    ensures AnySuspicious(buf) <==> FirstRepeatsCompensate(buf, n)
  {
    hide Suspicious, Compensated;
    forall j | 0 <= j < n
      ensures Suspicious(buf, j) <==> Compensated(buf, j)
    {
      CompensatedIsSuspicious(buf, j);
    }
  }

  /**
   * What the verdict means: bad for more than 256 KiB or a broken block; an attack
   * when one of the first 32 repeated blocks compensates; otherwise a denial of
   * service exactly when more than 32 blocks repeat an earlier one.
   */
  lemma VerdictByCount(buf: seq<bv8>)
    ensures Expected(buf) ==
            if |buf| > 0x40000 || |buf| % 8 != 0 then BadLength
            else if FirstRepeatsCompensate(buf, |buf| / 8) then Detected
            else if |RepeatsBelow(buf, |buf| / 8)| > 32 then DosDetected
            else Ok
  {
    hide AnySuspicious, Repeated, FirstRepeatsCompensate, RepeatsBelow;
    SuspiciousByCount(buf, Blocks(buf));
    RepeatedIsCount(buf, Blocks(buf));
  }

  // ----- Probing

  /** HASH(c) & (n - 1) with n a power of two. */
  function Home(b: seq<bv8>, n: nat): (i: nat)
    requires |b| == SSH_BLOCKSIZE && n > 0
    ensures i < n
  {
    (((b[0] as int * 256 + b[1] as int) * 256 + b[2] as int) * 256 + b[3] as int) % n
  }

  /** The slot `k` places after `home`, wrapping around. */
  function Slot(home: nat, k: nat, n: nat): (i: nat)
    requires home < n && k < n
    ensures i < n
  {
    if home + k < n then home + k else home + k - n
  }

  lemma SlotOnto(home: nat, i: nat, n: nat) returns (k: nat)
    requires home < n && i < n
    ensures k < n && Slot(home, k, n) == i
  {
    k := if i >= home then i - home else i + n - home;
  }

  /** Slot `k` of the probe sequence of block `b` holds an equal block, and no slot before it is free. */
  predicate FoundAt(h: seq<u16>, buf: seq<bv8>, b: seq<bv8>, k: nat)
    requires |b| == SSH_BLOCKSIZE
  {
    k < |h| &&
    (var home := Home(b, |h|);
     h[Slot(home, k, |h|)] < Blocks(buf) && Block(buf, h[Slot(home, k, |h|)]) == b &&
     forall k' :: 0 <= k' < k ==> h[Slot(home, k', |h|)] != HASH_UNUSED)
  }

  predicate Indexed(h: seq<u16>, buf: seq<bv8>, b: seq<bv8>)
    requires |b| == SSH_BLOCKSIZE
  {
    exists k :: 0 <= k < |h| && FoundAt(h, buf, b, k)
  }

  /** The index after `j` blocks: entries are distinct earlier blocks, and every earlier block can be found. */
  ghost predicate TableOk(h: seq<u16>, buf: seq<bv8>, j: nat)
    requires j <= Blocks(buf)
  {
    (forall i :: 0 <= i < |h| ==> h[i] == HASH_UNUSED || h[i] < j) &&
    (forall i, i' :: 0 <= i < i' < |h| && h[i] == h[i'] ==> h[i] == HASH_UNUSED) &&
    (forall t :: 0 <= t < j ==> Indexed(h, buf, Block(buf, t)))
  }

  /** Distinct numbers below `j` are at most `j`. */
  lemma {:induction false} Pigeonhole(s: seq<int>, j: nat)
    requires forall i :: 0 <= i < |s| ==> 0 <= s[i] < j
    requires forall i, i' :: 0 <= i < i' < |s| ==> s[i] != s[i']
    ensures |s| <= j
    decreases j
  {
    if s != [] {
      assert s[0] < j;
      if p :| 0 <= p < |s| && s[p] == j - 1 {
        Pigeonhole(s[..p] + s[p + 1..], j - 1);
      } else {
        Pigeonhole(s, j - 1);
      }
    }
  }

  /** With more slots than blocks some slot is free. */
  lemma FreeSlot(h: seq<u16>, buf: seq<bv8>, j: nat) returns (i: nat)
    requires j <= Blocks(buf) && TableOk(h, buf, j) && j < |h|
    ensures i < |h| && h[i] == HASH_UNUSED
  {
    if free :| 0 <= free < |h| && h[free] == HASH_UNUSED {
      i := free;
    } else {
      Pigeonhole(h, j);
      assert false;
    }
  }

  /** Every slot before `k` on the probe sequence is taken. */
  predicate PathTaken(h: seq<u16>, home: nat, k: nat)
    requires home < |h| && k <= |h|
  {
    forall k' :: 0 <= k' < k ==> h[Slot(home, k', |h|)] != HASH_UNUSED
  }

  /** The probe loop of detect_attack for block `j`: stops at an equal block or at a free slot. */
  method Probe(h: array<u16>, buf: seq<bv8>, j: nat) returns (i: nat, same: bool, ghost k: nat)
    requires GoodLength(buf) && j < Blocks(buf) && j < h.Length && TableOk(h[..], buf, j)
    ensures k < h.Length && i == Slot(Home(Block(buf, j), h.Length), k, h.Length)
    ensures PathTaken(h[..], Home(Block(buf, j), h.Length), k)
    ensures same == Repeats(buf, j)
    ensures if same then h[i] < j && Block(buf, h[i]) == Block(buf, j) else h[i] == HASH_UNUSED
  {
    hide Home, TableOk, Block;
    var c := Block(buf, j);
    var n := h.Length;
    ghost var home := Home(c, n);
    ghost var free := FreeSlot(h[..], buf, j);
    ghost var kfree := SlotOnto(home, free, n);
    i := Home(c, n);
    k := 0;
    while h[i] != HASH_UNUSED
      invariant k <= kfree < n && i == Slot(home, k, n)
      invariant PathTaken(h[..], home, k)
      invariant forall k' :: 0 <= k' < k ==> h[Slot(home, k', n)] < j && Block(buf, h[Slot(home, k', n)]) != c
      decreases kfree - k
    {
      EntriesBelow(h[..], buf, j, i);
      if c == Block(buf, h[i]) {
        return i, true, k;
      }
      i := if i + 1 == n then 0 else i + 1;
      k := k + 1;
    }
    same := false;
    forall t | 0 <= t < j
      ensures Block(buf, t) != c
    {
      NotSeen(h[..], buf, j, c, k, t);
    }
  }

  /** A probe that reached a free slot without an equal block has seen that there is none. */
  lemma NotSeen(h: seq<u16>, buf: seq<bv8>, j: nat, c: seq<bv8>, k: nat, t: nat)
    requires GoodLength(buf) && j <= Blocks(buf) && TableOk(h, buf, j) && t < j && |c| == SSH_BLOCKSIZE && k < |h|
    requires h[Slot(Home(c, |h|), k, |h|)] == HASH_UNUSED
    requires forall k' :: 0 <= k' < k ==> h[Slot(Home(c, |h|), k', |h|)] < j && Block(buf, h[Slot(Home(c, |h|), k', |h|)]) != c
    ensures Block(buf, t) != c
  {
    hide Home, TableOk, Block;
    Findable(h, buf, j, t);
    var kt :| 0 <= kt < |h| && FoundAt(h, buf, Block(buf, t), kt);
  }

  lemma EntriesBelow(h: seq<u16>, buf: seq<bv8>, j: nat, i: nat)
    requires j <= Blocks(buf) && TableOk(h, buf, j) && i < |h| && h[i] != HASH_UNUSED
    ensures h[i] < j
  {
  }

  lemma Findable(h: seq<u16>, buf: seq<bv8>, j: nat, t: nat)
    requires j <= Blocks(buf) && TableOk(h, buf, j) && t < j
    ensures Indexed(h, buf, Block(buf, t))
  {
  }

  /** Storing block `j` where its probe stopped keeps every block findable. */
  lemma StoreKeeps(h: seq<u16>, buf: seq<bv8>, j: nat, k: nat, i: nat)
    requires GoodLength(buf) && j < Blocks(buf) && TableOk(h, buf, j) && k < |h|
    requires i == Slot(Home(Block(buf, j), |h|), k, |h|) && PathTaken(h, Home(Block(buf, j), |h|), k)
    requires h[i] == HASH_UNUSED || (h[i] < j && Block(buf, h[i]) == Block(buf, j))
    ensures TableOk(h[i := j], buf, j + 1)
  {
    hide Home, Block;
    var h' := h[i := j];
    forall t | 0 <= t < j + 1
      ensures Indexed(h', buf, Block(buf, t))
    {
      if t == j {
        assert FoundAt(h', buf, Block(buf, t), k);
      } else {
        var kt :| 0 <= kt < |h| && FoundAt(h, buf, Block(buf, t), kt);
        assert FoundAt(h', buf, Block(buf, t), kt);
      }
    }
  }

  lemma EmptyTableOk(h: seq<u16>, buf: seq<bv8>)
    requires forall i :: 0 <= i < |h| ==> h[i] == HASH_UNUSED
    ensures TableOk(h, buf, 0)
  {
  }

  /** The verdict once repetition number 33 is reached at block `j`. */
  lemma DosAt(buf: seq<bv8>, j: nat)
    requires GoodLength(buf) && j < Blocks(buf) && Repeats(buf, j) && Repeated(buf, j) >= MAX_IDENTICAL
    requires forall t :: 0 <= t < j ==> !Suspicious(buf, t)
    ensures Expected(buf) == DosDetected
  {
    hide Compensates, Block, Repeats;
    RepeatedMonotone(buf, j + 1, Blocks(buf));
    forall t | j <= t < Blocks(buf)
      ensures !Suspicious(buf, t)
    {
      RepeatedMonotone(buf, j, t);
    }
  }

  /** The static state of detect_attack: the table h and its size n. */
  class HashTable {
    var h: array?<u16>
    var n: nat

    ghost predicate Valid()
      reads this
    {
      (n == 0x1000 || n == 0x4000 || n == 0x1_0000) && (h != null ==> h.Length == n)
    }

    constructor ()
      ensures Valid() && h == null
    {
      h := null;
      n := HASH_MINSIZE / HASH_ENTRYSIZE;
    }

    /** Sizes the table: one and a half slots a block, in steps of four. */
    method Reserve(blocks: nat)
      requires Valid() && blocks <= SSH_MAXBLOCKS
      modifies this
      ensures Valid() && h != null && n >= old(n) && n >= blocks * 3 / 2
      ensures h == old(h) || fresh(h)
    {
      var l := n;
      while l < blocks * 3 / 2
        invariant (l == 0x1000 || l == 0x4000 || l == 0x1_0000) && l >= n
        decreases 0x1_0000 - l
      {
        l := l * 4;
      }
      if h == null || l > n {
        h := new u16[l];
        n := l;
      }
    }

    /** The quadratic path for packets of at most seven blocks. */
    method ScanPairs(buf: seq<bv8>) returns (v: Verdict)
      requires GoodLength(buf) && |buf| <= HASH_MINBLOCKS
      ensures v == Expected(buf)
    {
      hide Compensates, Block;
      var c := 0;
      while c < Blocks(buf)
        invariant 0 <= c <= Blocks(buf)
        invariant forall t :: 0 <= t < c ==> !Suspicious(buf, t)
      {
        var d := 0;
        var hit := false;
        while d < c && !hit
          invariant 0 <= d <= c
          invariant forall i :: 0 <= i < d ==> Block(buf, i) != Block(buf, c)
          invariant hit ==> d < c && Block(buf, d) == Block(buf, c)
          decreases c - d, !hit
        {
          if Block(buf, c) == Block(buf, d) {
            hit := true;
          } else {
            d := d + 1;
          }
        }
        if hit {
          var bad := CheckCrc(Block(buf, c), buf);
          if bad {
            assert Suspicious(buf, c);
            return Detected;
          }
        }
        c := c + 1;
      }
      v := Ok;
    }

    /** The hashed path. */
    method ScanHashed(buf: seq<bv8>) returns (v: Verdict)
      requires Valid() && h != null && GoodLength(buf) && Blocks(buf) < n
      modifies h
      ensures v == Expected(buf)
    {
      hide Compensates, Block, TableOk, Home, Expected, AnySuspicious, Slot;
      forall i | 0 <= i < h.Length {
        h[i] := HASH_UNUSED;
      }
      EmptyTableOk(h[..], buf);
      var same := 0;
      var j: nat := 0;
      while j < Blocks(buf)
        invariant 0 <= j <= Blocks(buf) && TableOk(h[..], buf, j)
        invariant same == Repeated(buf, j) <= MAX_IDENTICAL
        invariant forall t :: 0 <= t < j ==> !Suspicious(buf, t)
      {
        var i, equal, k := Probe(h, buf, j);
        if equal {
          same := same + 1;
          if same > MAX_IDENTICAL {
            DosAt(buf, j);
            return DosDetected;
          }
          var bad := CheckCrc(Block(buf, j), buf);
          if bad {
            SuspiciousAt(buf, j);
            return Detected;
          }
        }
        StoreKeeps(h[..], buf, j, k, i);
        ghost var before: seq<u16> := h[..];
        h[i] := j;
        assert h[..] == before[i := j];
        j := j + 1;
      }
      NoneSuspicious(buf);
      v := Ok;
    }

    /** detect_attack: whatever packets came before, the verdict is that of comparing all pairs. */
    method DetectAttack(buf: seq<bv8>) returns (v: Verdict)
      requires Valid()
      modifies this, h
      ensures Valid() && v == Expected(buf)
    {
      if |buf| > SSH_MAXBLOCKS * SSH_BLOCKSIZE || |buf| % SSH_BLOCKSIZE != 0 {
        return BadLength;
      }
      Reserve(Blocks(buf));
      if |buf| <= HASH_MINBLOCKS {
        v := ScanPairs(buf);
      } else {
        v := ScanHashed(buf);
      }
    }
  }

  lemma SuspiciousAt(buf: seq<bv8>, j: nat)
    requires GoodLength(buf) && j < Blocks(buf) && Suspicious(buf, j)
    ensures Expected(buf) == Detected
  {
  }

  lemma NoneSuspicious(buf: seq<bv8>)
    requires GoodLength(buf) && Repeated(buf, Blocks(buf)) <= MAX_IDENTICAL
    requires forall t :: 0 <= t < Blocks(buf) ==> !Suspicious(buf, t)
    ensures Expected(buf) == Ok
  {
  }
}
