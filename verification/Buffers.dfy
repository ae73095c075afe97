/**
 * The growable FIFO byte buffer of buffer.c.
 *
 * `Buffer` keeps the fields of the C structure.  Every operation is proved
 * against the byte queue `Contents()`; the decision whether an append is fatal
 * is the pure function `Fits` of the three counters.
 */
module Buffers {
  import opened Bytes

  const BUFFER_MAX_CHUNK: int := 0x100000
  const BUFFER_MAX_LEN: int := 0xa00000
  const BUFFER_ALLOCSZ: int := 0x8000

  /** Contents plus appended bytes up to this size never make an append fatal. */
  const SAFE_CONTENTS: int := BUFFER_MAX_LEN - 2 * BUFFER_MAX_CHUNK - BUFFER_ALLOCSZ

  function Min(a: int, b: int): int { if a <= b then a else b }

  /** The C macro roundup(x, y) for y = BUFFER_ALLOCSZ. */
  function RoundUp(x: nat): (r: nat)
    ensures x <= r < x + BUFFER_ALLOCSZ && r % BUFFER_ALLOCSZ == 0
  {
    (x + (BUFFER_ALLOCSZ - 1)) / BUFFER_ALLOCSZ * BUFFER_ALLOCSZ
  }

  /** buffer_compact moves the data to the front exactly in this case. */
  predicate Compacts(offset: nat, alloc: nat) {
    offset > Min(alloc, BUFFER_MAX_CHUNK)
  }

  /** Room for `len` more bytes, after compaction if that happens, without or with one growth. */
  predicate FitsAt(end: nat, alloc: nat, len: nat) {
    end + len < alloc || RoundUp(alloc + len) <= BUFFER_MAX_LEN
  }

  /** The fate of an append of `len` bytes, as a function of the counters alone. */
  predicate Fits(offset: nat, end: nat, alloc: nat, len: nat)
    requires offset <= end
  {
    var (o, e) := if offset == end then (0, 0) else (offset, end);
    e + len < alloc ||
    (if Compacts(o, alloc) then FitsAt(e - o, alloc, len) else FitsAt(e, alloc, len))
  }

  /** roundup in 32-bit arithmetic. */
  function RoundUp32(x: u32): u32 {
    Add32(x, BUFFER_ALLOCSZ - 1) / BUFFER_ALLOCSZ * BUFFER_ALLOCSZ
  }

  /** What buffer_check_alloc answers, with the wrap-around of its 32-bit sums. */
  predicate Admits(offset: nat, end: nat, alloc: nat, len: u32)
    requires offset <= end
  {
    var (o, e) := if offset == end then (0, 0) else (offset, end);
    Add32(e, len) < alloc ||
    (Compacts(o, alloc) && Add32(e - o, len) < alloc) ||
    RoundUp32(Add32(alloc, len)) <= BUFFER_MAX_LEN
  }

  /** The append itself refuses more than one chunk before it looks at the counters. */
  predicate Appends(offset: nat, end: nat, alloc: nat, len: nat)
    requires offset <= end
  {
    len <= BUFFER_MAX_CHUNK && Fits(offset, end, alloc, len)
  }

  lemma AdmitsWithoutWrap(offset: nat, end: nat, alloc: nat, len: nat)
    requires offset <= end < alloc <= BUFFER_MAX_LEN && len <= BUFFER_MAX_CHUNK
    ensures Admits(offset, end, alloc, len) == Fits(offset, end, alloc, len)
  {
  }

  /** The check predicts the append exactly when it is asked about at most one chunk, or says no. */
  lemma AdmitsPredictsAppend(offset: nat, end: nat, alloc: nat, len: u32)
    requires offset <= end < alloc <= BUFFER_MAX_LEN
    ensures (Admits(offset, end, alloc, len) <==> Appends(offset, end, alloc, len)) <==>
            len <= BUFFER_MAX_CHUNK || !Admits(offset, end, alloc, len)
  {
    hide Admits, Fits;
    if len <= BUFFER_MAX_CHUNK {
      AdmitsWithoutWrap(offset, end, alloc, len);
    }
  }

  /** Too long for any buffer, and too short for a sum with it to wrap around. */
  predicate NeverAdmitted(len: u32) {
    BUFFER_MAX_LEN <= len < 0x1_0000_0000 - BUFFER_MAX_LEN - (BUFFER_ALLOCSZ - 1)
  }

  lemma NoneAdmits(offset: nat, end: nat, alloc: nat, len: u32)
    requires offset <= end < alloc <= BUFFER_MAX_LEN && NeverAdmitted(len)
    ensures !Admits(offset, end, alloc, len)
  {
  }

  lemma EmptyAdmits(len: u32)
    requires !NeverAdmitted(len)
    ensures Admits(0, 0, BUFFER_MAX_LEN, len)
  {
  }

  /** The lengths on which the check predicts the append whatever the state of the buffer. */
  lemma AdmitsPredictsAlways(len: u32)
    ensures (forall offset: nat, end: nat, alloc: nat :: offset <= end < alloc <= BUFFER_MAX_LEN ==>
               (Admits(offset, end, alloc, len) <==> Appends(offset, end, alloc, len))) <==>
            len <= BUFFER_MAX_CHUNK || NeverAdmitted(len)
  {
    hide Admits, Fits;
    if len <= BUFFER_MAX_CHUNK || NeverAdmitted(len) {
      forall offset: nat, end: nat, alloc: nat | offset <= end < alloc <= BUFFER_MAX_LEN
        ensures Admits(offset, end, alloc, len) <==> Appends(offset, end, alloc, len)
      {
        AdmitsPredictsAppend(offset, end, alloc, len);
        if len > BUFFER_MAX_CHUNK {
          NoneAdmits(offset, end, alloc, len);
        }
      }
    } else {
      EmptyAdmits(len);
      assert !Appends(0, 0, BUFFER_MAX_LEN, len);
    }
  }

  /** Beyond BUFFER_MAX_CHUNK the check may admit what the append refuses. */
  lemma AdmitsOversizedChunk()
    ensures Admits(0, 0, 4096, BUFFER_MAX_CHUNK + 1) && !Appends(0, 0, 4096, BUFFER_MAX_CHUNK + 1)
  {
  }

  /** A smaller append fits wherever a larger one does. */
  lemma FitsMonotone(offset: nat, end: nat, alloc: nat, len: nat, len': nat)
    requires offset <= end < alloc && len' <= len && Fits(offset, end, alloc, len)
    ensures Fits(offset, end, alloc, len')
  {
  }

  /**
   * However the counters have drifted apart, an append is safe as long as the
   * contents it leaves stay within SAFE_CONTENTS.
   */
  lemma SmallContentsFit(offset: nat, end: nat, alloc: nat, len: nat)
    requires offset <= end < alloc && len <= BUFFER_MAX_CHUNK
    requires end - offset + len <= SAFE_CONTENTS
    ensures Fits(offset, end, alloc, len)
  {
  }

  lemma FitsRewound(end: nat, alloc: nat, len: nat)
    ensures Fits(end, end, alloc, len) == Fits(0, 0, alloc, len)
  {
  }

  /** One compaction or one growth decides the fate that Fits predicts. */
  lemma FitsStep(offset: nat, end: nat, alloc: nat, len: nat)
    requires offset <= end < alloc && (offset == end ==> offset == 0)
    ensures end + len < alloc ==> Fits(offset, end, alloc, len)
    ensures end + len >= alloc && Compacts(offset, alloc) ==>
              Fits(offset, end, alloc, len) == Fits(0, end - offset, alloc, len)
    ensures end + len >= alloc && !Compacts(offset, alloc) ==>
              Fits(offset, end, alloc, len) == (RoundUp(alloc + len) <= BUFFER_MAX_LEN)
  {
  }

  /** A buffer that starts at 0 is not compacted. */
  lemma NothingBefore(alloc: nat)
    ensures !Compacts(0, alloc)
  {
  }

  /** The same for the check, whose sums may wrap around. */
  lemma AdmitsStep(offset: nat, end: nat, alloc: nat, len: u32)
    requires offset <= end && (offset == end ==> offset == 0)
    ensures Add32(end, len) < alloc ==> Admits(offset, end, alloc, len)
    ensures Add32(end, len) >= alloc && Compacts(offset, alloc) ==>
              Admits(offset, end, alloc, len) == Admits(0, end - offset, alloc, len)
    ensures Add32(end, len) >= alloc && !Compacts(offset, alloc) ==>
              Admits(offset, end, alloc, len) == (RoundUp32(Add32(alloc, len)) <= BUFFER_MAX_LEN)
  {
    hide Add32, RoundUp32;
  }

  lemma AdmitsRewound(end: nat, alloc: nat, len: u32)
    ensures Admits(end, end, alloc, len) == Admits(0, 0, alloc, len)
  {
  }

  /** Overwriting the tail of a slice. */
  lemma OverwriteTail(s: seq<byte>, o: nat, p: nat, data: seq<byte>)
    requires o <= p && p + |data| <= |s|
    ensures (s[..p] + data + s[p + |data|..])[o..p + |data|] == s[o..p] + data
  {
  }

  /** memcpy into an array. */
  method Fill(a: array<byte>, p: nat, data: seq<byte>)
    requires p + |data| <= a.Length
    modifies a
    ensures a[..] == old(a[..p]) + data + old(a[p + |data|..])
  {
    forall i | 0 <= i < |data| {
      a[p + i] := data[i];
    }
  }

  class Buffer {
    var buf: array<byte>
    var alloc: nat
    var offset: nat
    var end: nat

    ghost predicate Valid()
      reads this
    {
      offset <= end < alloc == buf.Length <= BUFFER_MAX_LEN
    }

    ghost function Contents(): seq<byte>
      requires Valid()
      reads this, buf
    {
      buf[..][offset..end]
    }

    /** buffer_init */
    constructor ()
      ensures Valid() && fresh(buf) && Contents() == [] && alloc == 4096
    {
      buf := new byte[4096];
      alloc := 4096;
      offset := 0;
      end := 0;
    }

    /** buffer_len */
    function Len(): (len: nat)
      requires Valid()
      reads this, buf
      ensures len == |Contents()|
    {
      end - offset
    }

    /** buffer_clear */
    method Clear()
      requires Valid()
      modifies this`offset, this`end
      ensures Valid() && Contents() == []
    {
      offset := 0;
      end := 0;
    }

    /** An empty buffer is used again from its first byte. */
    method Rewind()
      requires Valid()
      modifies this`offset, this`end
      ensures Valid() && Contents() == old(Contents())
      ensures if old(offset == end) then offset == 0 == end else offset == old(offset) && end == old(end)
    {
      if offset == end {
        offset := 0;
        end := 0;
      }
    }

    /** buffer_compact */
    method Compact() returns (moved: bool)
      requires Valid()
      modifies this`offset, this`end, buf
      ensures Valid() && Contents() == old(Contents())
      ensures moved == Compacts(old(offset), alloc)
      ensures moved ==> offset == 0 && end == old(end - offset)
      ensures !moved ==> offset == old(offset) && end == old(end)
    {
      moved := offset > Min(alloc, BUFFER_MAX_CHUNK);
      if moved {
        var n := end - offset;
        var base := offset;
        forall i | 0 <= i < n {
          buf[i] := buf[base + i];
        }
        end := end - offset;
        offset := 0;
      }
    }

    /** The xrealloc of buffer_append_space. */
    method Grow(newlen: nat)
      requires Valid() && alloc <= newlen <= BUFFER_MAX_LEN
      modifies this`buf, this`alloc
      ensures Valid() && fresh(buf) && alloc == newlen
      ensures Contents() == old(Contents())
    {
      var grown := new byte[newlen];
      var used := alloc;
      forall i | 0 <= i < used {
        grown[i] := buf[i];
      }
      buf := grown;
      alloc := newlen;
    }

    /** The restart loop of buffer_append_space: compaction and growth until `len` bytes fit. */
    method MakeRoom(len: nat) returns (ok: bool)
      requires Valid() && len <= BUFFER_MAX_CHUNK
      modifies this, buf
      ensures Valid() && (buf == old(buf) || fresh(buf))
      ensures ok == old(Fits(offset, end, alloc, len))
      ensures ok ==> end + len < alloc
      ensures Contents() == old(Contents())
    {
      hide Fits, RoundUp, Buffer.Contents;
      FitsRewound(end, alloc, len);
      Rewind();
      FitsStep(offset, end, alloc, len);
      while end + len >= alloc
        invariant Valid() && (buf == old(buf) || fresh(buf))
        invariant Contents() == old(Contents())
        invariant old(Fits(offset, end, alloc, len)) == Fits(offset, end, alloc, len)
        invariant offset == end ==> offset == 0
        invariant end + len < alloc ==> old(Fits(offset, end, alloc, len))
        decreases BUFFER_MAX_LEN - alloc, offset
      {
        FitsStep(offset, end, alloc, len);
        var moved := Compact();
        if !moved {
          var newlen := RoundUp(alloc + len);
          if newlen > BUFFER_MAX_LEN {
            return false;
          }
          Grow(newlen);
        }
        FitsStep(offset, end, alloc, len);
      }
      ok := true;
    }

    /**
     * buffer_append_space: reserves `len` bytes after the old contents; `ok` is
     * false where the C code calls fatal.
     */
    method AppendSpace(len: nat) returns (ok: bool)
      requires Valid()
      modifies this, buf
      ensures Valid() && (buf == old(buf) || fresh(buf))
      ensures ok <==> len <= BUFFER_MAX_CHUNK && old(Fits(offset, end, alloc, len))
      ensures |Contents()| == |old(Contents())| + if ok then len else 0
      ensures Contents()[..|old(Contents())|] == old(Contents())
    {
      hide Fits;
      if len > BUFFER_MAX_CHUNK {
        return false;
      }
      ok := MakeRoom(len);
      if ok {
        ghost var n := end - offset;
        end := end + len;
        assert Contents()[..n] == buf[..][offset..offset + n];
      }
    }

    /** buffer_append */
    method Append(data: seq<byte>) returns (ok: bool)
      requires Valid()
      modifies this, buf
      ensures Valid() && (buf == old(buf) || fresh(buf))
      ensures ok <==> |data| <= BUFFER_MAX_CHUNK && old(Fits(offset, end, alloc, |data|))
      ensures Contents() == old(Contents()) + if ok then data else []
      ensures |data| <= BUFFER_MAX_CHUNK && |old(Contents())| + |data| <= SAFE_CONTENTS ==> ok
    {
      hide Fits;
      if |data| <= BUFFER_MAX_CHUNK && end - offset + |data| <= SAFE_CONTENTS {
        SmallContentsFit(offset, end, alloc, |data|);
      }
      ghost var before := Contents();
      ok := AppendSpace(|data|);
      if ok {
        var p := end - |data|;
        ghost var s := buf[..];
        assert s[offset..p] == Contents()[..|before|];
        OverwriteTail(s, offset, p, data);
        Fill(buf, p, data);
      } else {
        assert Contents() == before;
      }
    }

    /** buffer_check_alloc */
    method CheckAlloc(len: u32) returns (fits: bool)
      requires Valid()
      modifies this`offset, this`end, buf
      ensures Valid() && Contents() == old(Contents())
      ensures fits == old(Admits(offset, end, alloc, len)) == Admits(offset, end, alloc, len)
    {
      hide Admits, Add32, RoundUp32, Compacts;
      AdmitsRewound(end, alloc, len);
      Rewind();
      AdmitsStep(offset, end, alloc, len);
      while Add32(end, len) >= alloc
        invariant Valid() && Contents() == old(Contents())
        invariant old(Admits(offset, end, alloc, len)) == Admits(offset, end, alloc, len)
        invariant offset == end ==> offset == 0
        invariant Add32(end, len) < alloc ==> Admits(offset, end, alloc, len)
        decreases offset
      {
        AdmitsStep(offset, end, alloc, len);
        NothingBefore(alloc);
        var moved := Compact();
        AdmitsStep(offset, end, alloc, len);
        if !moved {
          return RoundUp32(Add32(alloc, len)) <= BUFFER_MAX_LEN;
        }
      }
      fits := true;
    }

    /** buffer_get_ret */
    method Get(len: nat) returns (ok: bool, data: seq<byte>)
      requires Valid()
      modifies this`offset
      ensures Valid()
      ensures ok <==> len <= |old(Contents())|
      ensures ok ==> data == old(Contents())[..len] && Contents() == old(Contents())[len..]
      ensures !ok ==> data == [] && Contents() == old(Contents())
    {
      if len > end - offset {
        return false, [];
      }
      data := buf[offset..offset + len];
      assert data == Contents()[..len] && buf[..][offset + len..end] == Contents()[len..];
      offset := offset + len;
      ok := true;
    }

    /** buffer_consume_ret */
    method Consume(bytes: nat) returns (ok: bool)
      requires Valid()
      modifies this`offset
      ensures Valid()
      ensures ok <==> bytes <= |old(Contents())|
      ensures Contents() == if ok then old(Contents())[bytes..] else old(Contents())
    {
      if bytes > end - offset {
        return false;
      }
      offset := offset + bytes;
      ok := true;
    }

    /** buffer_consume_end_ret */
    method ConsumeEnd(bytes: nat) returns (ok: bool)
      requires Valid()
      modifies this`end
      ensures Valid()
      ensures ok <==> bytes <= |old(Contents())|
      ensures Contents() == if ok then old(Contents())[..|old(Contents())| - bytes] else old(Contents())
    {
      if bytes > end - offset {
        return false;
      }
      end := end - bytes;
      ok := true;
    }
  }

  /** One call on a buffer. */
  datatype Op =
    | OpAppend(data: seq<byte>)
    | OpGet(len: nat)
    | OpConsume(bytes: nat)
    | OpConsumeEnd(bytes: nat)
    | OpClear
    | OpCheckAlloc(want: u32)

  /** The unbounded byte queue: its new contents and the bytes handed out. */
  function QueueStep(q: seq<byte>, op: Op): (seq<byte>, seq<byte>) {
    match op
    case OpAppend(data) => (q + data, [])
    case OpGet(len) => if len <= |q| then (q[len..], q[..len]) else (q, [])
    case OpConsume(bytes) => (if bytes <= |q| then q[bytes..] else q, [])
    case OpConsumeEnd(bytes) => (if bytes <= |q| then q[..|q| - bytes] else q, [])
    case OpClear => ([], [])
    case OpCheckAlloc(_) => (q, [])
  }

  function QueueRun(q: seq<byte>, ops: seq<Op>): (seq<byte>, seq<byte>) {
    if ops == [] then (q, []) else
      var (q1, out1) := QueueRun(q, ops[..|ops| - 1]);
      var (q2, out2) := QueueStep(q1, ops[|ops| - 1]);
      (q2, out1 + out2)
  }

  /** Every append stays within the supported chunk and the safe contents. */
  predicate Modest(q: seq<byte>, ops: seq<Op>) {
    forall k :: 0 <= k < |ops| && ops[k].OpAppend? ==>
      |ops[k].data| <= BUFFER_MAX_CHUNK && |QueueRun(q, ops[..k]).0| + |ops[k].data| <= SAFE_CONTENTS
  }

  /** One operation on the buffer; `ok` is false only on a fatal append. */
  method Apply(b: Buffer, op: Op) returns (ok: bool, out: seq<byte>)
    requires b.Valid()
    modifies b, b.buf
    ensures b.Valid() && (b.buf == old(b.buf) || fresh(b.buf))
    ensures ok ==> (b.Contents(), out) == QueueStep(old(b.Contents()), op)
    ensures !ok ==> op.OpAppend? && (|op.data| > BUFFER_MAX_CHUNK || |old(b.Contents())| + |op.data| > SAFE_CONTENTS)
  {
    ok, out := true, [];
    match op
    case OpAppend(data) =>
      ok := b.Append(data);
    case OpGet(len) =>
      var _, data := b.Get(len);
      out := data;
    case OpConsume(bytes) =>
      var _ := b.Consume(bytes);
    case OpConsumeEnd(bytes) =>
      var _ := b.ConsumeEnd(bytes);
    case OpClear =>
      b.Clear();
    case OpCheckAlloc(want) =>
      var _ := b.CheckAlloc(want);
  }

  /**
   * Refinement over whole runs: until an append is fatal the buffer is the
   * queue, and a run whose queue stays modest never meets a fatal append.
   */
  method RunOps(b: Buffer, ops: seq<Op>) returns (ok: bool, out: seq<byte>)
    requires b.Valid()
    modifies b, b.buf
    ensures b.Valid()
    ensures ok ==> (b.Contents(), out) == QueueRun(old(b.Contents()), ops)
    ensures old(Modest(b.Contents(), ops)) ==> ok
  {
    ok, out := true, [];
    ghost var q := b.Contents();
    for k := 0 to |ops|
      invariant b.Valid() && (b.buf == old(b.buf) || fresh(b.buf))
      invariant (b.Contents(), out) == QueueRun(q, ops[..k])
    {
      assert ops[..k + 1][..k] == ops[..k];
      var bytes;
      ok, bytes := Apply(b, ops[k]);
      if !ok {
        return;
      }
      out := out + bytes;
    }
    assert ops[..|ops|] == ops;
    ok := true;
  }
}
