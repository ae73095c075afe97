/** The operations of addrmatch.c on address structures filled in place, and matching against a list of patterns. */
module AddrOps {
  import opened AddrBits
  import opened AddrMatch
  import opened Bytes
  import opened MatchList

  /** struct xaddr */
  class Struct {
    var af: Family
    const addr32: array<bv32>
    var scope: bv32

    ghost predicate Valid() { addr32.Length == 4 }

    ghost function Value(): Xaddr
      requires Valid()
      reads this, addr32
    {
      Addr(af, addr32[..], scope)
    }

    constructor ()
      ensures Valid() && fresh(addr32) && Value() == Addr(OtherFamily, [0, 0, 0, 0], 0)
    {
      af, scope := OtherFamily, 0;
      addr32 := new bv32[4](_ => 0);
      new;
      assert addr32[..] == [0, 0, 0, 0];
    }

    /** memset or memcpy over the whole structure. */
    method Assign(a: Xaddr)
      requires Valid()
      modifies this, addr32
      ensures Value() == a
    {
      af, scope := a.af, a.scope;
      for i := 0 to 4
        invariant af == a.af && scope == a.scope
        invariant addr32[..i] == a.words[..i]
      {
        addr32[i] := a.words[i];
      }
      assert addr32[..] == addr32[..4] && a.words == a.words[..4];
    }
  }

  /** addr_netmask for IPv6: whole words, then the word the mask ends in. */
  method FillMask(n: Struct, len: nat)
    requires n.Valid() && len <= 128 && n.addr32[..] == [0, 0, 0, 0]
    modifies n.addr32
    ensures n.addr32[..] == MaskWords(len)
  {
    hide Mask, Shifted;
    MaskEnds();
    var i, l := 0, len;
    while i < 4 && l >= 32
      invariant 0 <= i <= 4 && l == len - 32 * i
      invariant forall j :: 0 <= j < i ==> n.addr32[j] == Mask(Share(len, j))
      invariant forall j :: i <= j < 4 ==> n.addr32[j] == 0
    {
      n.addr32[i] := ONES;
      i, l := i + 1, l - 32;
    }
    if i < 4 && l != 0 {
      ShiftedIsMask(l);
      n.addr32[i] := Shifted(l);
    }
    assert forall j :: 0 <= j < 4 ==> n.addr32[j] == Mask(Share(len, j));
    assert n.addr32[..] == [n.addr32[0], n.addr32[1], n.addr32[2], n.addr32[3]];
  }

  lemma MaskEnds()
    ensures Mask(0) == 0 && Mask(32) == ONES
  {
    MaskZero();
    ShiftedIsMask(32);
    FullShift();
  }

  method FillNetmask(af: Family, l: nat, n: Struct) returns (ok: bool)
    requires n.Valid()
    modifies n, n.addr32
    ensures ok == Netmask(af, l).Some? && (ok ==> n.Value() == Netmask(af, l).value)
  {
    hide Mask, Shifted;
    if !MasklenValid(af, l) {
      return false;
    }
    n.Assign(Addr(af, [0, 0, 0, 0], 0));
    MaskEnds();
    if af == Inet {
      if l != 0 {
        ShiftedIsMask(l);
        n.addr32[0] := Shifted(l);
      }
      assert n.addr32[..] == [n.addr32[0], n.addr32[1], n.addr32[2], n.addr32[3]];
    } else {
      FillMask(n, l);
    }
    ok := true;
  }

  method FillAnd(dst: Struct, a: Xaddr, b: Xaddr) returns (ok: bool)
    requires dst.Valid()
    modifies dst, dst.addr32
    ensures ok == Masked(a, b).Some? && (ok ==> dst.Value() == Masked(a, b).value)
  {
    hide And;
    if a.af != b.af {
      return false;
    }
    dst.Assign(a);
    if a.af == Inet {
      dst.addr32[0] := And(dst.addr32[0], b.words[0]);
      return true;
    } else if a.af == Inet6 {
      for i := 0 to 4
        invariant dst.af == a.af && dst.scope == a.scope
        invariant forall j :: 0 <= j < 4 ==> dst.addr32[j] == if j < i then And(a.words[j], b.words[j]) else a.words[j]
      {
        dst.addr32[i] := And(dst.addr32[i], b.words[i]);
      }
      assert dst.addr32[..] == AndWords(a.words, b.words);
      return true;
    }
    ok := false;
  }

  method InvertInPlace(n: Struct) returns (ok: bool)
    requires n.Valid()
    modifies n.addr32
    ensures ok == Inverted(old(n.Value())).Some? && (ok ==> n.Value() == Inverted(old(n.Value())).value)
  {
    hide Not;
    if n.af == Inet {
      n.addr32[0] := Not(n.addr32[0]);
      return true;
    } else if n.af == Inet6 {
      for i := 0 to 4
        invariant forall j :: 0 <= j < 4 ==> n.addr32[j] == if j < i then Not(old(n.addr32[j])) else old(n.addr32[j])
      {
        n.addr32[i] := Not(n.addr32[i]);
      }
      assert n.addr32[..] == NotWords(old(n.addr32[..]));
      return true;
    }
    ok := false;
  }

  /** addr_cmp */
  method Compare(a: Xaddr, b: Xaddr) returns (r: int)
    ensures r == Cmp(a, b)
  {
    hide AddrByte, Sign;
    if a.af != b.af {
      return if a.af == Inet6 then 1 else -1;
    }
    if a.af == Inet {
      return Sign(a.words[0], b.words[0]);
    }
    if a.af == OtherFamily {
      return -1;
    }
    for i := 0 to 16
      invariant CmpBytes(a, b, 0) == CmpBytes(a, b, i)
    {
      if AddrByte(a, i) != AddrByte(b, i) {
        return Sign(AddrByte(a, i), AddrByte(b, i));
      }
    }
    r := Sign(a.scope, b.scope);
  }

  /** addr_is_all0s */
  method TestAllZeros(a: Xaddr) returns (yes: bool)
    ensures yes == IsAllZeros(a)
  {
    if a.af == Inet {
      return a.words[0] == 0;
    } else if a.af == Inet6 {
      for i := 0 to 4
        invariant forall j :: 0 <= j < i ==> a.words[j] == 0
      {
        if a.words[i] != 0 {
          return false;
        }
      }
      assert a.words == [0, 0, 0, 0];
      return true;
    }
    yes := false;
  }

  /** addr_host_is_all0s */
  method TestHost(a: Xaddr, l: nat) returns (yes: bool)
    ensures yes == HostIsAllZeros(a, l)
  {
    hide Netmask, Inverted, Masked, IsAllZeros;
    var mask := new Struct();
    var ok := FillNetmask(a.af, l, mask);
    if !ok {
      return false;
    }
    ok := InvertInPlace(mask);
    if !ok {
      return false;
    }
    var host := new Struct();
    ok := FillAnd(host, a, Addr(mask.af, mask.addr32[..], mask.scope));
    if !ok {
      return false;
    }
    yes := TestAllZeros(Addr(host.af, host.addr32[..], host.scope));
  }

  /** addr_netmatch */
  method MatchNet(host: Xaddr, net: Xaddr, l: nat) returns (r: int)
    ensures r == Netmatch(host, net, l)
  {
    hide Netmask, Masked, Cmp;
    if host.af != net.af {
      return -1;
    }
    var mask := new Struct();
    var ok := FillNetmask(host.af, l, mask);
    if !ok {
      return -1;
    }
    var masked := new Struct();
    ok := FillAnd(masked, host, Addr(mask.af, mask.addr32[..], mask.scope));
    if !ok {
      return -1;
    }
    r := Compare(Addr(masked.af, masked.addr32[..], masked.scope), net);
  }

  // ----- Lists of patterns

  const ZERO: byte := 48
  const BANG: byte := 33
  const SLASH: byte := 47

  /** What is not modelled here: numeric host parsing, strtoul over the whole text, and wildcard matching. */
  datatype Text = Text(pton: seq<byte> -> Option<Xaddr>, strtoul: seq<byte> -> Option<nat>,
                       wildcard: (seq<byte>, seq<byte>) -> bool)

  datatype Cidr = Unparsed | Inconsistent | Network(net: Xaddr, masklen: nat)

  function Slash(s: seq<byte>): (n: nat)
    ensures n <= |s| && (n < |s| ==> s[n] == SLASH)
  {
    if s == [] || s[0] == SLASH then 0 else Slash(s[1..]) + 1
  }

  /** A network as it is written: an address, and a mask length after a slash. */
  function ParseText(t: Text, buf: seq<byte>): Cidr {
    var n := Slash(buf);
    var given := if n < |buf| then t.strtoul(buf[n + 1..]) else None;
    if n < |buf| && (buf[n + 1..] == [] || given.None? || given.value > 128) then Unparsed else
      var net := t.pton(buf[..n]);
      if net.None? then Unparsed else
        var len := if given.Some? then given.value else Width(net.value.af);
        if HostIsAllZeros(net.value, len) then Network(net.value, len) else Inconsistent
  }

  /** addr_pton_cidr reads what it could copy into 64 bytes, the terminating NUL included. */
  function ParseCidr(t: Text, p: seq<byte>): Cidr {
    if |p| > 64 then Unparsed else ParseText(t, if |p| == 64 then p[..63] else p)
  }

  /** strsep over the whole list, empty entries included. */
  function Tokens(s: seq<byte>): seq<seq<byte>>
    decreases |s|
  {
    var n := Comma(s);
    [s[..n]] + if n < |s| then Tokens(s[n + 1..]) else []
  }

  datatype Verdict = Invalid | Denied | Allowed | Passed

  /** An entry matches when its network does, or, if it is no network, as a wildcard. */
  predicate Matches(t: Text, addr: seq<byte>, host: Xaddr, p: seq<byte>) {
    match ParseCidr(t, p)
    case Network(net, l) => Netmatch(host, net, l) == 0
    case Inconsistent => false
    case Unparsed => t.wildcard(addr, p)
  }

  /**
   * An entry that is a network matches exactly the hosts of its family, and for
   * IPv6 of its scope, whose first bits are the network's; one that is no network
   * is a pattern for the address as it is written.
   */
  lemma EntryMatches(t: Text, addr: seq<byte>, host: Xaddr, p: seq<byte>)
    ensures var c := ParseCidr(t, p);
            (c.Network? ==>
              MasklenValid(c.net.af, c.masklen) &&
              (Matches(t, addr, host, p) <==>
               host.af == c.net.af && (c.net.af == Inet6 ==> host.scope == c.net.scope) && SamePrefix(host, c.net, c.masklen))) &&
            (c.Inconsistent? ==> !Matches(t, addr, host, p)) &&
            (c.Unparsed? ==> (Matches(t, addr, host, p) <==> t.wildcard(addr, p)))
  {
    hide HostIsAllZeros, Netmatch, SamePrefix;
    var c := ParseCidr(t, p);
    if c.Network? {
      ParsedNetwork(t, if |p| == 64 then p[..63] else p);
      HostWords(c.net, c.masklen);
      NetmatchIsPrefix(host, c.net, c.masklen);
    }
  }

  lemma ParsedNetwork(t: Text, buf: seq<byte>)
    requires ParseText(t, buf).Network?
    ensures var c := ParseText(t, buf); HostIsAllZeros(c.net, c.masklen)
  {
  }

  // ----- Entries as they are written

  /** What an entry says: an address, and a mask length or none. */
  function EntryText(a: seq<byte>, d: Option<seq<byte>>): seq<byte> {
    if d.None? then a else a + [SLASH] + d.value
  }

  predicate FitsFamily(af: Family, l: nat) {
    (af == Inet && l <= 32) || (af == Inet6 && l <= 128)
  }

  /**
   * An entry of fewer than 64 bytes is no network if its parts do not parse or its
   * length exceeds 128, inconsistent if the length exceeds the family's width or a
   * host bit is set, and otherwise the network it says; without a length, the host.
   */
  lemma EntryRead(t: Text, a: seq<byte>, d: Option<seq<byte>>)
    requires SLASH !in a && |EntryText(a, d)| < 64
    ensures ParseCidr(t, EntryText(a, d)) ==
            (var net := t.pton(a);
             if net.None? then Unparsed
             else if d.None? then
               (if net.value.af == OtherFamily then Inconsistent else Network(net.value, if net.value.af == Inet then 32 else 128))
             else if d.value == [] || t.strtoul(d.value).None? || t.strtoul(d.value).value > 128 then Unparsed
             else
               var l := t.strtoul(d.value).value;
               if FitsFamily(net.value.af, l) && NoHostBits(net.value, l) then Network(net.value, l) else Inconsistent)
  {
    hide HostIsAllZeros, NoHostBits;
    var p := EntryText(a, d);
    if d.Some? {
      assert p[..|a|] == a && p[|a|] == SLASH && p[|a| + 1..] == d.value;
      SlashAt(p, |a|);
    } else {
      NoSlash(a);
      assert a[..|a|] == a;
    }
    if t.pton(a).Some? {
      var net := t.pton(a).value;
      HostBits(net, Width(net.af));
      FullWidth(net);
      if d.Some? && t.strtoul(d.value).Some? {
        HostBits(net, t.strtoul(d.value).value);
      }
    }
  }

  lemma {:induction false} NoSlash(s: seq<byte>)
    requires SLASH !in s
    ensures Slash(s) == |s|
  {
    if s != [] {
      NoSlash(s[1..]);
    }
  }

  lemma FullWidth(a: Xaddr)
    ensures NoHostBits(a, Width(a.af))
  {
  }

  // ----- Entries too long for the buffer

  /** A slash that is the last byte copied leaves nothing to read, and the entry is refused. */
  predicate CutAtSlash(p: seq<byte>) { |p| == 64 && Slash(p) == 62 }

  /**
   * Whatever the address and number parsers accept, an entry is read whole or
   * refused exactly when its length is not 64, or the cut falls behind its slash.
   */
  lemma WholeOrRefused(p: seq<byte>)
    ensures (forall t: Text :: ParseCidr(t, p) == Unparsed || ParseCidr(t, p) == ParseText(t, p)) <==>
            |p| != 64 || CutAtSlash(p)
    ensures |p| > 64 ==> forall t: Text :: ParseCidr(t, p) == Unparsed
  {
    hide HostIsAllZeros;
    if |p| == 64 {
      SlashOfPrefix(p, 63);
      if !CutAtSlash(p) {
        var t := PrefixReader(p);
        ReadsPrefix(p);
        assert ParseCidr(t, p) != Unparsed && ParseCidr(t, p) != ParseText(t, p);
      }
    }
  }

  const ANYWHERE: Xaddr := Addr(Inet, [0, 0, 0, 0], 0)

  /** Parsers that know the first 63 bytes of an entry and nothing else. */
  ghost function PrefixReader(p: seq<byte>): Text
    requires |p| == 64
  {
    var n := Slash(p[..63]);
    Text(s => if s == p[..63][..n] then Some(ANYWHERE) else None,
         s => if n < 63 && s == p[..63][n + 1..] then Some(0) else None,
         (a, b) => false)
  }

  lemma ReadsPrefix(p: seq<byte>)
    requires |p| == 64 && Slash(p[..63]) != 62
    ensures ParseText(PrefixReader(p), p[..63]).Network? && ParseText(PrefixReader(p), p) == Unparsed
  {
    hide HostIsAllZeros;
    var (q, n) := (p[..63], Slash(p[..63]));
    AnywhereHasNoHost(0);
    AnywhereHasNoHost(32);
    SlashOfPrefix(p, 63);
    if n < 63 {
      assert |p[n + 1..]| != |q[n + 1..]|;
    } else {
      assert |p[..Slash(p)]| == 64 ==> p[..Slash(p)] != q[..n];
    }
  }

  lemma AnywhereHasNoHost(l: nat)
    requires l <= 32
    ensures HostIsAllZeros(ANYWHERE, l)
  {
    hide Not, Mask, And;
    ZeroApart(Not(Mask(Share(l, 0))));
  }

  lemma {:induction false} SlashOfPrefix(s: seq<byte>, n: nat)
    requires n <= |s|
    ensures Slash(s[..n]) == if Slash(s) < n then Slash(s) else n
  {
    if n > 0 && s[0] != SLASH {
      assert s[..n][1..] == s[1..][..n - 1];
      SlashOfPrefix(s[1..], n - 1);
    }
  }

  lemma {:induction false} SlashAt(s: seq<byte>, n: nat)
    requires n < |s| && s[n] == SLASH && SLASH !in s[..n]
    ensures Slash(s) == n
  {
    if n > 0 {
      assert s[0] in s[..n] && s[1..][..n - 1] == s[..n][1..];
      SlashAt(s[1..], n - 1);
    }
  }

  function Zeros(n: nat): seq<byte> { seq(n, _ => ZERO) }

  /** 0.0.0.0/ with a mask length of 55 zeros and an 8: 64 bytes. */
  const LONG_ENTRY: seq<byte> := [ZERO, 46, ZERO, 46, ZERO, 46, ZERO, SLASH] + Zeros(55) + [56]

  /** Written as a network of eight bits, it is read as one of none and matches every IPv4 host. */
  lemma LongEntry(t: Text, addr: seq<byte>, host: Xaddr)
    requires t.pton([ZERO, 46, ZERO, 46, ZERO, 46, ZERO]) == Some(ANYWHERE)
    requires t.strtoul(Zeros(55)) == Some(0)
    ensures ParseCidr(t, LONG_ENTRY) == Network(ANYWHERE, 0)
    ensures t.strtoul(Zeros(55) + [56]) == Some(8) ==> ParseText(t, LONG_ENTRY) == Network(ANYWHERE, 8)
    ensures Matches(t, addr, host, LONG_ENTRY) <==> host.af == Inet
  {
    hide HostIsAllZeros, Matches;
    var p := LONG_ENTRY;
    SlashAt(p, 7);
    SlashAt(p[..63], 7);
    assert p[..7] == p[..63][..7] == [ZERO, 46, ZERO, 46, ZERO, 46, ZERO];
    assert p[8..] == Zeros(55) + [56] && p[..63][8..] == Zeros(55);
    AnywhereHasNoHost(0);
    AnywhereHasNoHost(8);
    EntryMatches(t, addr, host, p);
  }

  /** One entry against an address, or its form alone when there is none. */
  function Judge(t: Text, addr: Option<(seq<byte>, Xaddr)>, entry: seq<byte>): Verdict {
    var neg := entry != [] && entry[0] == BANG;
    var p := if neg then entry[1..] else entry;
    if p == [] || ParseCidr(t, p).Inconsistent? then Invalid
    else if addr.Some? && Matches(t, addr.value.0, addr.value.1, p) then (if neg then Denied else Allowed)
    else Passed
  }

  /** The left fold the loop computes. */
  function Fold(vs: seq<Verdict>, ret: int): int {
    if vs == [] then ret
    else match vs[0]
      case Invalid => -2
      case Denied => -1
      case Allowed => Fold(vs[1..], 1)
      case Passed => Fold(vs[1..], ret)
  }

  predicate Decides(v: Verdict) { v == Invalid || v == Denied }

  /** The index of the first deciding entry, or the length. */
  function FirstDeciding(vs: seq<Verdict>): (n: nat)
    ensures n <= |vs| && (n < |vs| ==> Decides(vs[n])) && forall j :: 0 <= j < n ==> !Decides(vs[j])
  {
    if vs == [] || Decides(vs[0]) then 0 else FirstDeciding(vs[1..]) + 1
  }

  /** The first invalid entry or negated match decides; without one, any plain match does. */
  lemma {:induction false} FoldSpec(vs: seq<Verdict>, ret: int)
    ensures var n := FirstDeciding(vs);
            Fold(vs, ret) == if n < |vs| then (if vs[n] == Invalid then -2 else -1) else if Allowed in vs then 1 else ret
  {
    if vs != [] && !Decides(vs[0]) {
      FoldSpec(vs[1..], if vs[0] == Allowed then 1 else ret);
      assert vs == [vs[0]] + vs[1..];
    }
  }

  function Judged(t: Text, addr: Option<(seq<byte>, Xaddr)>, entries: seq<seq<byte>>): seq<Verdict> {
    if entries == [] then [] else [Judge(t, addr, entries[0])] + Judged(t, addr, entries[1..])
  }

  /** addr_match_list: 1, 0, -1 and -2 as in its documentation; an address that does not parse matches nothing. */
  function ListResult(t: Text, addr: Option<seq<byte>>, list: seq<byte>): int {
    if addr.Some? && t.pton(addr.value).None? then 0 else
      var host := if addr.None? then None else Some((addr.value, t.pton(addr.value).value));
      Fold(Judged(t, host, Tokens(list)), 0)
  }

  /** Checking a list without an address never reports a match of either kind. */
  lemma {:induction false} CheckOnly(t: Text, entries: seq<seq<byte>>)
    ensures Fold(Judged(t, None, entries), 0) in {0, -2}
  {
    hide ParseCidr;
    if entries != [] {
      CheckOnly(t, entries[1..]);
      assert Judged(t, None, entries)[1..] == Judged(t, None, entries[1..]);
    }
  }

  method FindSlash(s: seq<byte>) returns (n: nat)
    ensures n == Slash(s)
  {
    n := 0;
    while n < |s| && s[n] != SLASH
      invariant n <= |s| && Slash(s) == n + Slash(s[n..])
    {
      assert s[n..][1..] == s[n + 1..];
      n := n + 1;
    }
  }

  method PtonCidr(t: Text, p: seq<byte>) returns (c: Cidr)
    ensures c == ParseCidr(t, p)
  {
    hide HostIsAllZeros;
    if |p| > 64 {
      return Unparsed;
    }
    var buf := if |p| == 64 then p[..63] else p;
    var n := FindSlash(buf);
    var len: Option<nat> := None;
    if n < |buf| {
      len := t.strtoul(buf[n + 1..]);
      if buf[n + 1..] == [] || len.None? || len.value > 128 {
        return Unparsed;
      }
    }
    var net := t.pton(buf[..n]);
    if net.None? {
      return Unparsed;
    }
    var l := if len.None? then Width(net.value.af) else len.value;
    var ok := TestHost(net.value, l);
    c := if ok then Network(net.value, l) else Inconsistent;
  }

  method JudgeEntry(t: Text, addr: Option<(seq<byte>, Xaddr)>, entry: seq<byte>) returns (v: Verdict)
    ensures v == Judge(t, addr, entry)
  {
    hide ParseCidr, Netmatch;
    var neg := entry != [] && entry[0] == BANG;
    var cp := if neg then entry[1..] else entry;
    if cp == [] {
      return Invalid;
    }
    var r := PtonCidr(t, cp);
    var found := false;
    if r.Inconsistent? {
      return Invalid;
    } else if r.Network? {
      if addr.Some? {
        var m := MatchNet(addr.value.1, r.net, r.masklen);
        found := m == 0;
      }
    } else {
      found := addr.Some? && t.wildcard(addr.value.0, cp);
    }
    v := if found then (if neg then Denied else Allowed) else Passed;
  }

  /** addr_match_list */
  method AddrMatchList(t: Text, addr: Option<seq<byte>>, list: seq<byte>) returns (ret: int)
    ensures ret == ListResult(t, addr, list)
  {
    hide Comma, Judge;
    var host := None;
    if addr.Some? {
      var x := t.pton(addr.value);
      if x.None? {
        return 0;
      }
      host := Some((addr.value, x.value));
    }
    ret := 0;
    var rest, more := list, true;
    while more
      invariant ListResult(t, addr, list) == Fold(Judged(t, host, if more then Tokens(rest) else []), ret)
      decreases if more then |rest| + 1 else 0
    {
      var n := FindComma(rest);
      var after := if n < |rest| then Tokens(rest[n + 1..]) else [];
      assert Tokens(rest) == [rest[..n]] + after && Tokens(rest)[1..] == after;
      assert Judged(t, host, Tokens(rest)) == [Judge(t, host, rest[..n])] + Judged(t, host, after);
      FoldNext(Judge(t, host, rest[..n]), Judged(t, host, after), ret);
      var v := JudgeEntry(t, host, rest[..n]);
      if v == Invalid {
        return -2;
      } else if v == Denied {
        return -1;
      } else if v == Allowed {
        ret := 1;
      }
      more := n < |rest|;
      if more {
        rest := rest[n + 1..];
      }
    }
  }

  lemma FoldNext(v: Verdict, vs: seq<Verdict>, ret: int)
    ensures Fold([v] + vs, ret) ==
            match v
            case Invalid => -2
            case Denied => -1
            case Allowed => Fold(vs, 1)
            case Passed => Fold(vs, ret)
  {
    assert ([v] + vs)[1..] == vs;
  }

  // ----- What a list says

  predicate Negated(entry: seq<byte>) { entry != [] && entry[0] == '!' as int % 256 }

  function Pattern(entry: seq<byte>): seq<byte> { if Negated(entry) then entry[1..] else entry }

  predicate Malformed(t: Text, entry: seq<byte>) {
    Pattern(entry) == [] || ParseCidr(t, Pattern(entry)) == Inconsistent
  }

  predicate Hits(t: Text, addr: seq<byte>, host: Xaddr, entry: seq<byte>) {
    !Malformed(t, entry) && Matches(t, addr, host, Pattern(entry))
  }

  /** An entry that ends the search: malformed, or negated and hit. */
  predicate Stops(t: Text, addr: seq<byte>, host: Xaddr, entry: seq<byte>) {
    Malformed(t, entry) || (Negated(entry) && Hits(t, addr, host, entry))
  }

  predicate FirstStop(t: Text, addr: seq<byte>, host: Xaddr, entries: seq<seq<byte>>, i: nat) {
    i < |entries| && Stops(t, addr, host, entries[i]) && forall j :: 0 <= j < i ==> !Stops(t, addr, host, entries[j])
  }

  /** strsep gives back what was joined with commas, empty entries included. */
  lemma {:induction false} TokensOfJoin(entries: seq<seq<byte>>)
    requires entries != [] && forall i :: 0 <= i < |entries| ==> COMMA !in entries[i]
    ensures Tokens(Join(entries)) == entries
  {
    hide Comma;
    if |entries| == 1 {
      assert entries[0] + [] == entries[0];
      CommaAfter(entries[0], []);
      assert entries[0][..|entries[0]|] == entries[0];
    } else {
      var tail := [COMMA] + Join(entries[1..]);
      assert Join(entries) == entries[0] + tail;
      CommaAfter(entries[0], tail);
      assert Join(entries)[..|entries[0]|] == entries[0] && Join(entries)[|entries[0]| + 1..] == Join(entries[1..]);
      TokensOfJoin(entries[1..]);
    }
  }

  lemma {:induction false} JudgedAt(t: Text, addr: Option<(seq<byte>, Xaddr)>, entries: seq<seq<byte>>)
    ensures var vs := Judged(t, addr, entries);
            |vs| == |entries| && forall i :: 0 <= i < |vs| ==> vs[i] == Judge(t, addr, entries[i])
  {
    hide Judge;
    if entries != [] {
      JudgedAt(t, addr, entries[1..]);
    }
  }

  lemma Judgement(t: Text, addr: seq<byte>, host: Xaddr, entry: seq<byte>)
    ensures var v := Judge(t, Some((addr, host)), entry);
            (v == Invalid <==> Malformed(t, entry)) && (v == Denied <==> Negated(entry) && Hits(t, addr, host, entry)) &&
            (v == Allowed <==> !Negated(entry) && Hits(t, addr, host, entry))
    ensures Judge(t, None, entry) == if Malformed(t, entry) then Invalid else Passed
  {
    hide ParseCidr, Matches;
  }

  /**
   * The result for an address: -2 or -1 by the first entry that is malformed or a
   * negated hit; without one, 1 if some entry is hit and 0 if none is.
   */
  lemma ListExact(t: Text, addr: seq<byte>, host: Xaddr, entries: seq<seq<byte>>)
    requires entries != [] && (forall i :: 0 <= i < |entries| ==> COMMA !in entries[i]) && t.pton(addr) == Some(host)
    ensures var r := ListResult(t, Some(addr), Join(entries));
            (forall i: nat :: FirstStop(t, addr, host, entries, i) ==> r == if Malformed(t, entries[i]) then -2 else -1) &&
            ((forall i :: 0 <= i < |entries| ==> !Stops(t, addr, host, entries[i])) ==>
              r == if exists i :: 0 <= i < |entries| && Hits(t, addr, host, entries[i]) then 1 else 0)
  {
    hide Tokens, Join, Judge, Fold, Malformed, Hits, Negated;
    TokensOfJoin(entries);
    var at := Some((addr, host));
    var vs := Judged(t, at, entries);
    JudgedAt(t, at, entries);
    FoldSpec(vs, 0);
    forall i | 0 <= i < |entries|
      ensures Decides(vs[i]) <==> Stops(t, addr, host, entries[i])
      ensures vs[i] == Invalid <==> Malformed(t, entries[i])
      ensures !Stops(t, addr, host, entries[i]) ==> (vs[i] == Allowed <==> Hits(t, addr, host, entries[i]))
    {
      Judgement(t, addr, host, entries[i]);
    }
    forall i: nat | FirstStop(t, addr, host, entries, i)
      ensures FirstDeciding(vs) == i
    {
      DecidingIs(vs, i);
    }
    hide Stops;
    if i :| 0 <= i < |entries| && Hits(t, addr, host, entries[i]) && !Stops(t, addr, host, entries[i]) {
      assert vs[i] == Allowed;
    }
  }

  lemma {:induction false} DecidingIs(vs: seq<Verdict>, i: nat)
    requires i < |vs| && Decides(vs[i]) && forall j :: 0 <= j < i ==> !Decides(vs[j])
    ensures FirstDeciding(vs) == i
  {
    if i > 0 {
      DecidingIs(vs[1..], i - 1);
    }
  }

  /** Without an address the list is only checked; an address that does not parse matches nothing. */
  lemma ListChecked(t: Text, entries: seq<seq<byte>>)
    requires entries != [] && forall i :: 0 <= i < |entries| ==> COMMA !in entries[i]
    ensures ListResult(t, None, Join(entries)) == if exists i :: 0 <= i < |entries| && Malformed(t, entries[i]) then -2 else 0
    ensures forall addr :: t.pton(addr).None? ==> ListResult(t, Some(addr), Join(entries)) == 0
  {
    hide Tokens, Join, Judge, Fold, Malformed;
    TokensOfJoin(entries);
    var vs := Judged(t, None, entries);
    JudgedAt(t, None, entries);
    FoldSpec(vs, 0);
    forall i | 0 <= i < |entries|
      ensures vs[i] == if Malformed(t, entries[i]) then Invalid else Passed
    {
      Judgement(t, [], ANYWHERE, entries[i]);
    }
    if i :| 0 <= i < |entries| && Malformed(t, entries[i]) {
      assert Decides(vs[i]);
    }
  }
}
