/** The KEXINIT message (kex.c; section 7.1 of RFC 4253): ten name lists between a cookie and two integers. */
module Kexinit {
  import opened Bytes
  import opened Buffers
  import opened Wire

  const KEX_COOKIE_LEN: nat := 16
  const PROPOSAL_MAX: nat := 10

  /** A list as a C string: the reader tolerates a NUL as its last byte. */
  function CString(s: seq<byte>): seq<byte> {
    if s != [] && s[|s| - 1] == 0 then s[..|s| - 1] else s
  }

  predicate Clean(s: seq<byte>) {
    |s| < 0x1_0000_0000 && forall i :: 0 <= i < |s| ==> s[i] != 0
  }

  function Zeros(n: nat): (s: seq<byte>)
    ensures |s| == n
  {
    if n == 0 then [] else Zeros(n - 1) + [0]
  }

  function ListBytes(lists: seq<seq<byte>>): seq<byte> {
    if lists == [] then [] else StringBytes(lists[0]) + ListBytes(lists[1..])
  }

  /** The message, with the cookie and the flag as kex_send_kexinit or the peer may have set them. */
  function Message(cookie: seq<byte>, lists: seq<seq<byte>>, follows: byte, reserved: nat): seq<byte> {
    cookie + ListBytes(lists) + [follows] + Digits(reserved, 4)
  }

  function ParseLists(q: seq<byte>, n: nat): (r: Parsed<seq<seq<byte>>>)
    ensures r.value.Some? ==> |r.value.value| == n
    decreases n
  {
    if n == 0 then Parsed(Some([]), q) else
      var Parsed(s, rest) := ParseCstring(q);
      if s.None? then Parsed(None, rest) else
        var Parsed(more, last) := ParseLists(rest, n - 1);
        Parsed(if more.None? then None else Some([CString(s.value)] + more.value), last)
  }

  datatype Offer = Offer(lists: seq<seq<byte>>, follows: nat)

  /** What kex_buf2prop returns; None stands for fatal(). */
  function Parse(q: seq<byte>): (r: Option<Offer>)
    ensures r.Some? ==> |r.value.lists| == PROPOSAL_MAX
  {
    if |q| > BUFFER_MAX_CHUNK || |q| < KEX_COOKIE_LEN then None else
      var Parsed(lists, rest) := ParseLists(q[KEX_COOKIE_LEN..], PROPOSAL_MAX);
      if lists.None? || |rest| < 5 then None else Some(Offer(lists.value, rest[0]))
  }

  predicate AllClean(lists: seq<seq<byte>>) {
    forall i :: 0 <= i < |lists| ==> Clean(lists[i])
  }

  predicate AllShort(lists: seq<seq<byte>>) {
    forall i :: 0 <= i < |lists| ==> |lists[i]| <= MAX_STRING
  }

  /** The same lists as a peer may write them, each with or without a NUL at its end. */
  predicate Written(lists: seq<seq<byte>>, wires: seq<seq<byte>>) {
    |lists| == |wires| &&
    forall i :: 0 <= i < |lists| ==> |wires[i]| < 0x1_0000_0000 && (wires[i] == lists[i] || wires[i] == lists[i] + [0])
  }

  /** Name lists are read back exactly when none is longer than the reader allows. */
  lemma {:induction false} ListsRoundTrip(lists: seq<seq<byte>>, wires: seq<seq<byte>>, rest: seq<byte>)
    requires AllClean(lists) && Written(lists, wires)
    ensures AllShort(wires) ==> ParseLists(ListBytes(wires) + rest, |wires|) == Parsed(Some(lists), rest)
    ensures !AllShort(wires) ==> ParseLists(ListBytes(wires) + rest, |wires|).value == None
  {
    hide ParseCstring, StringBytes, CString, AllShort, AllClean, Clean;
    ShortSplit(wires);
    ShortSplit(lists);
    if wires == [] {
      assert ListBytes(wires) + rest == rest;
    } else {
      var tail := ListBytes(wires[1..]) + rest;
      assert ListBytes(wires) + rest == StringBytes(wires[0]) + tail;
      ListRoundTrip(lists[0], wires[0], tail);
      ListsRoundTrip(lists[1..], wires[1..], rest);
      assert lists == [lists[0]] + lists[1..];
    }
  }

  lemma ShortSplit(lists: seq<seq<byte>>)
    ensures lists == [] ==> AllShort(lists)
    ensures lists != [] ==> (AllShort(lists) <==> |lists[0]| <= MAX_STRING && AllShort(lists[1..]))
    ensures lists != [] && AllClean(lists) ==> Clean(lists[0]) && AllClean(lists[1..])
  {
    hide Clean;
    if lists != [] && |lists[0]| <= MAX_STRING && AllShort(lists[1..]) {
      assert forall i :: 0 < i < |lists| ==> lists[i] == lists[1..][i - 1];
    }
  }

  lemma ListRoundTrip(s: seq<byte>, w: seq<byte>, rest: seq<byte>)
    requires Clean(s) && |w| < 0x1_0000_0000 && (w == s || w == s + [0])
    ensures |w| <= MAX_STRING ==> ParseCstring(StringBytes(w) + rest) == Parsed(Some(w), rest) && CString(w) == s
    ensures |w| > MAX_STRING ==> ParseCstring(StringBytes(w) + rest).value == None
  {
    hide ParseString, StringBytes;
    StringRoundTrip(w, rest);
  }

  /**
   * kex_buf2prop undoes kex_prop2buf, whatever cookie and flag were put in and
   * whether or not the lists carry a NUL, exactly when each list is within the
   * string limit and the whole message within one buffer chunk.
   */
  lemma RoundTrip(cookie: seq<byte>, lists: seq<seq<byte>>, wires: seq<seq<byte>>, follows: byte, reserved: nat)
    requires |cookie| == KEX_COOKIE_LEN && |lists| == PROPOSAL_MAX && AllClean(lists) && Written(lists, wires)
    ensures var m := Message(cookie, wires, follows, reserved);
            Parse(m) == if AllShort(wires) && |m| <= BUFFER_MAX_CHUNK then Some(Offer(lists, follows)) else None
  {
    hide ListBytes, ParseLists, AllShort;
    var m := Message(cookie, wires, follows, reserved);
    var rest := [follows] + Digits(reserved, 4);
    assert m[KEX_COOKIE_LEN..] == ListBytes(wires) + rest;
    ListsRoundTrip(lists, wires, rest);
  }

  // ----- The operations on buffers

  lemma {:induction false} ListBytesNext(lists: seq<seq<byte>>, i: nat)
    requires i < |lists|
    ensures ListBytes(lists[..i + 1]) == ListBytes(lists[..i]) + StringBytes(lists[i])
    decreases i
  {
    hide StringBytes;
    if i > 0 {
      assert lists[..i + 1][1..] == lists[1..][..i] && lists[..i][1..] == lists[1..][..i - 1];
      ListBytesNext(lists[1..], i - 1);
    }
  }

  lemma {:induction false} ListBytesBound(lists: seq<seq<byte>>, i: nat)
    requires i < |lists|
    ensures |ListBytes(lists[..i])| + |StringBytes(lists[i])| <= |ListBytes(lists)|
    decreases i
  {
    if i > 0 {
      assert lists[..i][1..] == lists[1..][..i - 1];
      ListBytesBound(lists[1..], i - 1);
    }
  }

  method PutLists(b: Buffer, lists: seq<seq<byte>>) returns (ok: bool)
    requires b.Valid()
    modifies b, b.buf
    ensures b.Valid() && (b.buf == old(b.buf) || fresh(b.buf))
    ensures ok ==> b.Contents() == old(b.Contents()) + ListBytes(lists)
    ensures |ListBytes(lists)| <= BUFFER_MAX_CHUNK && |old(b.Contents())| + |ListBytes(lists)| <= SAFE_CONTENTS ==> ok
  {
    hide ListBytes, StringBytes;
    ghost var was := b.Contents();
    assert ListBytes(lists[..0]) == [] by { EmptyList(); }
    ok := true;
    for i := 0 to |lists|
      invariant b.Valid() && (b.buf == old(b.buf) || fresh(b.buf)) && ok
      invariant b.Contents() == was + ListBytes(lists[..i])
    {
      ListBytesBound(lists, i);
      ok := PutString(b, lists[i]);
      if !ok {
        return;
      }
      ListBytesNext(lists, i);
    }
    assert lists[..|lists|] == lists;
  }

  lemma EmptyList()
    ensures ListBytes([]) == []
  {
  }

  method PutZeros(b: Buffer, n: nat) returns (ok: bool)
    requires b.Valid()
    modifies b, b.buf
    ensures b.Valid() && (b.buf == old(b.buf) || fresh(b.buf))
    ensures ok ==> b.Contents() == old(b.Contents()) + Zeros(n)
    ensures |old(b.Contents())| + n <= SAFE_CONTENTS ==> ok
  {
    hide Digits;
    ZeroDigit();
    ok := true;
    for i := 0 to n
      invariant b.Valid() && (b.buf == old(b.buf) || fresh(b.buf)) && ok
      invariant b.Contents() == old(b.Contents()) + Zeros(i)
    {
      ok := PutUint(b, 0, 1);
      if !ok {
        return;
      }
    }
  }

  /** kex_prop2buf */
  method Prop2Buf(b: Buffer, lists: seq<seq<byte>>) returns (ok: bool)
    requires b.Valid() && |lists| == PROPOSAL_MAX
    modifies b, b.buf
    ensures b.Valid()
    ensures ok ==> b.Contents() == Message(Zeros(KEX_COOKIE_LEN), lists, 0, 0)
    ensures |ListBytes(lists)| <= BUFFER_MAX_CHUNK ==> ok
  {
    hide ListBytes, Digits, Zeros;
    b.Clear();
    ok := PutZeros(b, KEX_COOKIE_LEN);
    if !ok {
      return;
    }
    ok := PutLists(b, lists);
    if !ok {
      return;
    }
    ghost var head := b.Contents();
    assert head == Zeros(KEX_COOKIE_LEN) + ListBytes(lists);
    ok := PutTrailer(b);
    assert ok ==> b.Contents() == Message(Zeros(KEX_COOKIE_LEN), lists, 0, 0);
  }

  method PutTrailer(b: Buffer) returns (ok: bool)
    requires b.Valid()
    modifies b, b.buf
    ensures b.Valid()
    ensures ok ==> b.Contents() == old(b.Contents()) + [0] + Digits(0, 4)
    ensures |old(b.Contents())| + 5 <= SAFE_CONTENTS ==> ok
  {
    ZeroDigit();
    assert |Digits(0, 4)| == 4;
    hide Digits;
    ok := PutUint(b, 0, 1);
    if ok {
      ok := PutUint(b, 0, 4);
    }
  }

  lemma ZeroDigit()
    ensures Digits(0, 1) == [0]
  {
  }

  method GetLists(b: Buffer, n: nat) returns (lists: Option<seq<seq<byte>>>)
    requires b.Valid()
    modifies b`offset
    ensures b.Valid()
    ensures Parsed(lists, b.Contents()) == ParseLists(old(b.Contents()), n)
  {
    hide ParseCstring, ParseLists;
    var got: seq<seq<byte>> := [];
    ParseNone(b.Contents());
    ghost var all := ParseLists(b.Contents(), n);
    PrefixedNothing(all, []);
    for i := 0 to n
      invariant b.Valid() && all == Prefixed(got, ParseLists(b.Contents(), n - i))
    {
      ParseNext(b.Contents(), n - i, got);
      var s := GetCstring(b);
      if s.None? {
        return None;
      }
      got := got + [CString(s.value)];
    }
    ParseNone(b.Contents());
    PrefixedNothing(Parsed(Some([]), b.Contents()), got);
    lists := Some(got);
  }

  /** Lists already read put in front of those still to come. */
  function Prefixed(got: seq<seq<byte>>, r: Parsed<seq<seq<byte>>>): Parsed<seq<seq<byte>>> {
    Parsed(if r.value.None? then None else Some(got + r.value.value), r.rest)
  }

  lemma PrefixedNothing(r: Parsed<seq<seq<byte>>>, got: seq<seq<byte>>)
    ensures Prefixed([], r) == r
    ensures r.value == Some([]) ==> Prefixed(got, r) == Parsed(Some(got), r.rest)
  {
    if r.value.Some? {
      assert [] + r.value.value == r.value.value;
    }
    assert got + [] == got;
  }

  lemma ParseNone(q: seq<byte>)
    ensures ParseLists(q, 0) == Parsed(Some([]), q)
  {
  }

  lemma ParseNext(q: seq<byte>, n: nat, got: seq<seq<byte>>)
    requires n > 0
    ensures var Parsed(s, rest) := ParseCstring(q);
            Prefixed(got, ParseLists(q, n)) ==
            if s.None? then Parsed(None, rest) else Prefixed(got + [CString(s.value)], ParseLists(rest, n - 1))
  {
    hide ParseCstring;
    var Parsed(s, rest) := ParseCstring(q);
    if s.Some? {
      var more := ParseLists(rest, n - 1).value;
      if more.Some? {
        assert got + ([CString(s.value)] + more.value) == got + [CString(s.value)] + more.value;
      }
    }
  }

  /** kex_buf2prop: reads a copy, so the message itself is left alone. */
  method Buf2Prop(raw: Buffer) returns (r: Option<Offer>)
    requires raw.Valid()
    ensures r == Parse(raw.Contents())
  {
    hide ParseLists;
    var b := new Buffer();
    ghost var q := raw.Contents();
    var data := raw.buf[raw.offset..raw.end];
    assert data == q;
    var ok := b.Append(data);
    if !ok {
      return None;
    }
    assert b.Contents() == q;
    ok := SkipCookie(b);
    if !ok {
      return None;
    }
    ghost var parsed := ParseLists(q[KEX_COOKIE_LEN..], PROPOSAL_MAX);
    var lists := GetLists(b, PROPOSAL_MAX);
    assert parsed == Parsed(lists, b.Contents());
    if lists.None? {
      return None;
    }
    var follows := GetTrailer(b);
    r := if follows.None? then None else Some(Offer(lists.value, follows.value));
  }

  method SkipCookie(b: Buffer) returns (ok: bool)
    requires b.Valid()
    modifies b`offset
    ensures b.Valid() && ok == (|old(b.Contents())| >= KEX_COOKIE_LEN)
    ensures ok ==> b.Contents() == old(b.Contents())[KEX_COOKIE_LEN..]
  {
    ghost var q := b.Contents();
    for i := 0 to KEX_COOKIE_LEN
      invariant b.Valid() && i <= |q| && b.Contents() == q[i..]
    {
      var c := GetUint(b, 1);
      if c.None? {
        return false;
      }
    }
    ok := true;
  }

  /** first_kex_packet_follows and the reserved word. */
  method GetTrailer(b: Buffer) returns (follows: Option<nat>)
    requires b.Valid()
    modifies b`offset
    ensures b.Valid()
    ensures follows == if |old(b.Contents())| < 5 then None else Some(old(b.Contents())[0] as nat)
  {
    ghost var q := b.Contents();
    follows := GetUint(b, 1);
    if follows.None? {
      return;
    }
    assert q[..1] == [q[0]] && ToNat([q[0]]) == q[0];
    var reserved := GetUint(b, 4);
    if reserved.None? {
      follows := None;
    }
  }
}
