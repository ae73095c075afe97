/**
 * The SSH wire format on buffers (bufaux.c, bufbn.c; section 5 of RFC 4251).
 *
 * The `...Bytes` functions say what a put appends, the `Parse...` functions what
 * a get returns and leaves behind; the methods are the buffer operations.
 */
module Wire {
  import opened Bytes
  import opened Buffers
  import opened NumberTheory

  const MAX_STRING: int := 256 * 1024
  const MAX_MPINT: int := 8 * 1024

  /** A value read, if any, and the bytes left in the buffer. */
  datatype Parsed<+T> = Parsed(value: Option<T>, rest: seq<byte>)

  // ----- Formats

  function StringBytes(s: seq<byte>): seq<byte>
  {
    Digits(|s|, 4) + s
  }

  /** The mpint contents: minimal digits, with a zero byte in front of a set sign bit. */
  function MpintBody(n: nat): (s: seq<byte>)
    ensures n == 0 <==> s == []
  {
    var m := Minimal(n);
    if n == 0 || m[0] < 0x80 then m else [0] + m
  }

  function MpintBytes(n: nat): seq<byte> { StringBytes(MpintBody(n)) }

  function ParseUint(q: seq<byte>, width: nat): Parsed<nat> {
    if width > |q| then Parsed(None, q) else Parsed(Some(ToNat(q[..width])), q[width..])
  }

  /** On failure the length field has still been consumed if it was there. */
  function ParseString(q: seq<byte>): Parsed<seq<byte>> {
    var Parsed(len, rest) := ParseUint(q, 4);
    if len.None? || len.value > MAX_STRING || len.value > |rest| then Parsed(None, rest)
    else Parsed(Some(rest[..len.value]), rest[len.value..])
  }

  /** A NUL is tolerated as the last byte only. */
  predicate CstringOk(s: seq<byte>) {
    forall i :: 0 <= i < |s| - 1 ==> s[i] != 0
  }

  function ParseCstring(q: seq<byte>): Parsed<seq<byte>> {
    var Parsed(s, rest) := ParseString(q);
    if s.Some? && !CstringOk(s.value) then Parsed(None, rest) else Parsed(s, rest)
  }

  function ParseMpint(q: seq<byte>): Parsed<nat> {
    var Parsed(s, rest) := ParseString(q);
    if s.None? || (|s.value| > 0 && s.value[0] >= 0x80) || |s.value| > MAX_MPINT then Parsed(None, rest)
    else Parsed(Some(ToNat(s.value)), rest)
  }

  // ----- Buffer operations

  /** Where the C code would call fatal the put returns false. */
  ghost predicate Room(before: seq<byte>, added: seq<byte>) {
    |added| <= BUFFER_MAX_CHUNK && |before| + |added| <= SAFE_CONTENTS
  }

  /** buffer_put_char, buffer_put_short, buffer_put_int and buffer_put_int64. */
  method PutUint(b: Buffer, v: nat, width: nat) returns (ok: bool)
    requires b.Valid()
    modifies b, b.buf
    ensures b.Valid() && (b.buf == old(b.buf) || fresh(b.buf))
    ensures ok ==> b.Contents() == old(b.Contents()) + Digits(v, width)
    ensures old(Room(b.Contents(), Digits(v, width))) ==> ok
  {
    ok := b.Append(Digits(v, width));
  }

  /** buffer_put_string */
  method PutString(b: Buffer, s: seq<byte>) returns (ok: bool)
    requires b.Valid()
    modifies b, b.buf
    ensures b.Valid() && (b.buf == old(b.buf) || fresh(b.buf))
    ensures ok ==> b.Contents() == old(b.Contents()) + StringBytes(s)
    ensures old(Room(b.Contents(), StringBytes(s))) ==> ok
  {
    ok := PutUint(b, |s|, 4);
    if ok {
      ok := b.Append(s);
    }
  }

  /** buffer_put_bignum2_ret */
  method PutMpint(b: Buffer, n: nat) returns (ok: bool)
    requires b.Valid()
    modifies b, b.buf
    ensures b.Valid() && (b.buf == old(b.buf) || fresh(b.buf))
    ensures ok ==> b.Contents() == old(b.Contents()) + MpintBytes(n)
    ensures old(Room(b.Contents(), MpintBytes(n))) ==> ok
  {
    if n == 0 {
      ok := PutUint(b, 0, 4);
      assert MpintBytes(0) == Digits(0, 4);
      return;
    }
    var buf := [0] + Minimal(n);
    var hasnohigh := if buf[1] >= 0x80 then 0 else 1;
    assert buf[hasnohigh..] == MpintBody(n);
    ok := PutString(b, buf[hasnohigh..]);
  }

  /** buffer_get_char_ret, buffer_get_short_ret, buffer_get_int_ret and buffer_get_int64_ret. */
  method GetUint(b: Buffer, width: nat) returns (v: Option<nat>)
    requires b.Valid()
    modifies b`offset
    ensures b.Valid()
    ensures Parsed(v, b.Contents()) == ParseUint(old(b.Contents()), width)
  {
    var ok, data := b.Get(width);
    v := if ok then Some(ToNat(data)) else None;
  }

  /** buffer_get_string_ret */
  method GetString(b: Buffer) returns (s: Option<seq<byte>>)
    requires b.Valid()
    modifies b`offset
    ensures b.Valid()
    ensures Parsed(s, b.Contents()) == ParseString(old(b.Contents()))
  {
    var len := GetUint(b, 4);
    if len.None? || len.value > MAX_STRING {
      return None;
    }
    var ok, value := b.Get(len.value);
    s := if ok then Some(value) else None;
  }

  /** buffer_get_cstring_ret */
  method GetCstring(b: Buffer) returns (s: Option<seq<byte>>)
    requires b.Valid()
    modifies b`offset
    ensures b.Valid()
    ensures Parsed(s, b.Contents()) == ParseCstring(old(b.Contents()))
  {
    s := GetString(b);
    if s.Some? {
      var i := 0;
      while i < |s.value| && s.value[i] != 0
        invariant 0 <= i <= |s.value|
        invariant forall j :: 0 <= j < i ==> s.value[j] != 0
      {
        i := i + 1;
      }
      if i < |s.value| - 1 {
        s := None;
      }
    }
  }

  /** buffer_get_bignum2_ret */
  method GetMpint(b: Buffer) returns (n: Option<nat>)
    requires b.Valid()
    modifies b`offset
    ensures b.Valid()
    ensures Parsed(n, b.Contents()) == ParseMpint(old(b.Contents()))
  {
    var s := GetString(b);
    if s.None? || (|s.value| > 0 && s.value[0] >= 0x80) || |s.value| > MAX_MPINT {
      return None;
    }
    n := Some(ToNat(s.value));
  }

  // ----- Round trips

  datatype Shape = UintShape(width: nat) | StringShape | CstringShape | MpintShape

  datatype Field = Uint(width: nat, v: nat) | String(s: seq<byte>) | Cstring(s: seq<byte>) | Mpint(n: nat)
  {
    function Shape(): Shape {
      match this
      case Uint(width, _) => UintShape(width)
      case String(_) => StringShape
      case Cstring(_) => CstringShape
      case Mpint(_) => MpintShape
    }

    /** What a C caller can pass: integers in range, lengths that are 32-bit, strings up to their NUL. */
    predicate Representable() {
      match this
      case Uint(width, v) => v < Pow256(width)
      case String(s) => |s| < 0x1_0000_0000
      case Cstring(s) => |s| < 0x1_0000_0000 && forall i :: 0 <= i < |s| ==> s[i] != 0
      case Mpint(n) => |MpintBody(n)| < 0x1_0000_0000
    }

    /** Within the size limits of the reading side. */
    predicate Accepted() {
      match this
      case Uint(_, _) => true
      case String(s) => |s| <= MAX_STRING
      case Cstring(s) => |s| <= MAX_STRING
      case Mpint(n) => |MpintBody(n)| <= MAX_MPINT
    }
  }

  function Encode(f: Field): seq<byte> {
    match f
    case Uint(width, v) => Digits(v, width)
    case String(s) => StringBytes(s)
    case Cstring(s) => StringBytes(s)
    case Mpint(n) => MpintBytes(n)
  }

  function Decode(shape: Shape, q: seq<byte>): Parsed<Field> {
    match shape
    case UintShape(width) =>
      var Parsed(v, rest) := ParseUint(q, width);
      Parsed(if v.None? then None else Some(Uint(width, v.value)), rest)
    case StringShape =>
      var Parsed(s, rest) := ParseString(q);
      Parsed(if s.None? then None else Some(String(s.value)), rest)
    case CstringShape =>
      var Parsed(s, rest) := ParseCstring(q);
      Parsed(if s.None? then None else Some(Cstring(s.value)), rest)
    case MpintShape =>
      var Parsed(n, rest) := ParseMpint(q);
      Parsed(if n.None? then None else Some(Mpint(n.value)), rest)
  }

  function Shapes(fs: seq<Field>): seq<Shape> {
    if fs == [] then [] else [fs[0].Shape()] + Shapes(fs[1..])
  }

  function EncodeAll(fs: seq<Field>): seq<byte> {
    if fs == [] then [] else Encode(fs[0]) + EncodeAll(fs[1..])
  }

  /** Reads the fields one after the other and stops at the first failure. */
  function DecodeAll(shapes: seq<Shape>, q: seq<byte>): Parsed<seq<Field>> {
    if shapes == [] then Parsed(Some([]), q) else
      var Parsed(f, rest) := Decode(shapes[0], q);
      if f.None? then Parsed(None, rest) else
        var Parsed(fs, rest') := DecodeAll(shapes[1..], rest);
        if fs.None? then Parsed(None, rest') else Parsed(Some([f.value] + fs.value), rest')
  }

  lemma UintRoundTrip(v: nat, width: nat, rest: seq<byte>)
    requires v < Pow256(width)
    ensures ParseUint(Digits(v, width) + rest, width) == Parsed(Some(v), rest)
  {
    var q := Digits(v, width) + rest;
    assert q[..width] == Digits(v, width) && q[width..] == rest;
    DigitsToNat(v, width);
    ModUnique(v, Pow256(width), 0, v);
  }

  /** A string comes back exactly when the reader's limit admits it. */
  lemma StringRoundTrip(s: seq<byte>, rest: seq<byte>)
    requires |s| < 0x1_0000_0000
    ensures |s| <= MAX_STRING ==> ParseString(StringBytes(s) + rest) == Parsed(Some(s), rest)
    ensures |s| > MAX_STRING ==> ParseString(StringBytes(s) + rest).value == None
  {
    var q := StringBytes(s) + rest;
    assert q == Digits(|s|, 4) + (s + rest);
    assert Pow256(4) == 0x1_0000_0000 by { assert Pow256(2) == 0x1_0000; }
    UintRoundTrip(|s|, 4, s + rest);
    assert (s + rest)[..|s|] == s && (s + rest)[|s|..] == rest;
  }

  /** The mpint contents denote the number and never have the sign bit set. */
  lemma MpintBodyValue(n: nat)
    ensures ToNat(MpintBody(n)) == n
    ensures n > 0 ==> MpintBody(n)[0] < 0x80
  {
    MinimalToNat(n);
    LeadingZero(Minimal(n));
  }

  /** No shorter string without a sign bit denotes the number. */
  lemma MpintBodyMinimal(n: nat, s: seq<byte>)
    requires ToNat(s) == n && (s != [] ==> s[0] < 0x80)
    ensures |MpintBody(n)| <= |s|
  {
    hide ToNat, Pow256, Minimal;
    EmptyIsZero();
    if n > 0 && |s| < |MpintBody(n)| {
      var m := Minimal(n);
      MinimalLead(n);
      ToNatLead(s);
      PowNext(|s| - 1);
      var w, lead: int := Pow256(|s| - 1), m[0];
      assert n < 128 * w by { MulMonotone(s[0] + 1, 128, w); }
      if lead < 0x80 {
        PowMonotone(|s|, |m| - 1);
        MulMonotone(1, lead, Pow256(|m| - 1));
      } else {
        PowMonotone(|s| - 1, |m| - 1);
        MulMonotone(128, lead, Pow256(|m| - 1));
      }
    }
  }

  lemma EmptyIsZero()
    ensures ToNat([]) == 0
  {
  }

  lemma PowNext(k: nat)
    ensures Pow256(k + 1) == 256 * Pow256(k)
  {
  }

  lemma MulMonotone(a: int, b: int, w: nat)
    requires a <= b
    ensures a * w <= b * w
  {
  }

  lemma {:induction false} PowMonotone(i: nat, j: nat)
    ensures i <= j ==> Pow256(i) <= Pow256(j)
  {
    if i < j {
      PowMonotone(i, j - 1);
    }
  }

  lemma CstringRoundTrip(s: seq<byte>, rest: seq<byte>)
    requires |s| < 0x1_0000_0000 && forall i :: 0 <= i < |s| ==> s[i] != 0
    ensures |s| <= MAX_STRING ==> ParseCstring(StringBytes(s) + rest) == Parsed(Some(s), rest)
    ensures |s| > MAX_STRING ==> ParseCstring(StringBytes(s) + rest).value == None
  {
    hide ParseString, StringBytes;
    StringRoundTrip(s, rest);
  }

  lemma MpintRoundTrip(n: nat, rest: seq<byte>)
    requires |MpintBody(n)| < 0x1_0000_0000
    ensures |MpintBody(n)| <= MAX_MPINT ==> ParseMpint(MpintBytes(n) + rest) == Parsed(Some(n), rest)
    ensures |MpintBody(n)| > MAX_MPINT ==> ParseMpint(MpintBytes(n) + rest).value == None
  {
    hide ParseString, StringBytes, MpintBody, ToNat;
    StringRoundTrip(MpintBody(n), rest);
    MpintBodyValue(n);
  }

  /** Whatever bytes a string has, as a C string it is refused exactly for its size or for a NUL before its last byte. */
  lemma CstringExact(s: seq<byte>, rest: seq<byte>)
    requires |s| < 0x1_0000_0000
    ensures ParseCstring(StringBytes(s) + rest).value ==
            if |s| <= MAX_STRING && (s == [] || 0 !in s[..|s| - 1]) then Some(s) else None
  {
    hide ParseString, StringBytes;
    StringRoundTrip(s, rest);
  }

  /** Whatever bytes an mpint has, it is refused exactly for its size or for a set sign bit. */
  lemma MpintExact(s: seq<byte>, rest: seq<byte>)
    requires |s| < 0x1_0000_0000
    ensures ParseMpint(StringBytes(s) + rest).value ==
            if |s| <= MAX_MPINT && (s == [] || s[0] < 128) then Some(ToNat(s)) else None
  {
    hide ParseString, StringBytes, ToNat;
    StringRoundTrip(s, rest);
  }

  /** A field is read back, and the following bytes left alone, exactly when it is within the limits. */
  lemma FieldRoundTrip(f: Field, rest: seq<byte>)
    requires f.Representable()
    ensures f.Accepted() ==> Decode(f.Shape(), Encode(f) + rest) == Parsed(Some(f), rest)
    ensures !f.Accepted() ==> Decode(f.Shape(), Encode(f) + rest).value == None
  {
    hide ParseUint, ParseString, ParseCstring, ParseMpint, StringBytes, MpintBytes, MpintBody, Digits;
    match f
    case Uint(width, v) => UintRoundTrip(v, width, rest);
    case String(s) => StringRoundTrip(s, rest);
    case Cstring(s) => CstringRoundTrip(s, rest);
    case Mpint(n) => MpintRoundTrip(n, rest);
  }

  predicate AllRepresentable(fs: seq<Field>) {
    fs == [] || (fs[0].Representable() && AllRepresentable(fs[1..]))
  }

  predicate AllAccepted(fs: seq<Field>) {
    fs == [] || (fs[0].Accepted() && AllAccepted(fs[1..]))
  }

  /** Any sequence of puts is undone by the same sequence of gets iff every field is within the limits. */
  lemma {:induction false} MessageRoundTrip(fs: seq<Field>, rest: seq<byte>)
    requires AllRepresentable(fs)
    ensures AllAccepted(fs) ==> DecodeAll(Shapes(fs), EncodeAll(fs) + rest) == Parsed(Some(fs), rest)
    ensures !AllAccepted(fs) ==> DecodeAll(Shapes(fs), EncodeAll(fs) + rest).value == None
  {
    hide Encode, Decode, Field.Accepted, Field.Representable;
    if fs == [] {
      assert EncodeAll(fs) + rest == rest;
    } else {
      var tail := EncodeAll(fs[1..]) + rest;
      assert EncodeAll(fs) + rest == Encode(fs[0]) + tail;
      var shapes := Shapes(fs);
      assert shapes[0] == fs[0].Shape() && shapes[1..] == Shapes(fs[1..]);
      FieldRoundTrip(fs[0], tail);
      MessageRoundTrip(fs[1..], rest);
      assert fs == [fs[0]] + fs[1..];
    }
  }

  lemma EncodeNext(f: Field, fs: seq<Field>)
    ensures EncodeAll([f] + fs) == Encode(f) + EncodeAll(fs)
  {
    assert ([f] + fs)[1..] == fs;
  }

  // ----- Injectivity

  lemma StringPrefix(s: seq<byte>, t: seq<byte>, a: seq<byte>, b: seq<byte>)
    requires |s| < 0x1_0000_0000 && |t| < 0x1_0000_0000 && StringBytes(s) + a == StringBytes(t) + b
    ensures s == t && a == b
  {
    hide Digits, ToNat;
    var q := StringBytes(s) + a;
    assert q == Digits(|s|, 4) + (s + a) && q == Digits(|t|, 4) + (t + b);
    assert Pow256(4) == 0x1_0000_0000 by { assert Pow256(2) == 0x1_0000; }
    UintRoundTrip(|s|, 4, s + a);
    UintRoundTrip(|t|, 4, t + b);
    assert (s + a)[..|s|] == s && (t + b)[..|s|] == t && (s + a)[|s|..] == a && (t + b)[|s|..] == b;
  }

  /** A field of known shape is determined by its bytes, whatever follows. */
  lemma FieldPrefix(f: Field, g: Field, a: seq<byte>, b: seq<byte>)
    requires f.Representable() && g.Representable() && f.Shape() == g.Shape() && Encode(f) + a == Encode(g) + b
    ensures f == g && a == b
  {
    hide Digits, ToNat, StringBytes, MpintBody, ParseUint;
    match f
    case Uint(width, v) =>
      UintRoundTrip(v, width, a);
      UintRoundTrip(g.v, width, b);
    case String(s) => StringPrefix(s, g.s, a, b);
    case Cstring(s) => StringPrefix(s, g.s, a, b);
    case Mpint(n) =>
      StringPrefix(MpintBody(n), MpintBody(g.n), a, b);
      MpintBodyValue(n);
      MpintBodyValue(g.n);
  }

  /** Two messages of the same shape with the same bytes are the same, beyond what the reader accepts. */
  lemma {:induction false} MessageInjective(fs: seq<Field>, gs: seq<Field>)
    requires AllRepresentable(fs) && AllRepresentable(gs) && Shapes(fs) == Shapes(gs)
    requires EncodeAll(fs) == EncodeAll(gs)
    ensures fs == gs
  {
    hide Encode, Field.Representable, Field.Shape;
    if fs != [] {
      assert Shapes(fs)[0] == fs[0].Shape() && Shapes(gs)[0] == gs[0].Shape();
      FieldPrefix(fs[0], gs[0], EncodeAll(fs[1..]), EncodeAll(gs[1..]));
      assert Shapes(fs)[1..] == Shapes(fs[1..]) && Shapes(gs)[1..] == Shapes(gs[1..]);
      MessageInjective(fs[1..], gs[1..]);
      assert fs == [fs[0]] + fs[1..] && gs == [gs[0]] + gs[1..];
    }
  }
}
