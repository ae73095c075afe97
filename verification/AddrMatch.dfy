/**
 * CIDR matching (addrmatch.c).  An address is four 32-bit words, each read in
 * network order; an IPv4 address is the first of them.
 */
module AddrMatch {
  import opened AddrBits
  import opened Bytes

  datatype Family = Inet | Inet6 | OtherFamily

  datatype Addr = Addr(af: Family, words: seq<bv32>, scope: bv32)

  type Xaddr = a: Addr | |a.words| == 4 witness Addr(Inet, [0, 0, 0, 0], 0)

  predicate MasklenValid(af: Family, l: nat) {
    match af
    case Inet => l <= 32
    case Inet6 => l <= 128
    case OtherFamily => false
  }

  /** The part of a mask of length l that falls into word k. */
  function Share(l: nat, k: nat): (n: nat)
    ensures n <= 32
  {
    if l <= 32 * k then 0 else if l >= 32 * k + 32 then 32 else l - 32 * k
  }

  /** The words of a mask; the code leaves all but the first of an IPv4 mask zero, as Share does. */
  function MaskWords(l: nat): (w: seq<bv32>)
    ensures |w| == 4
  {
    [Mask(Share(l, 0)), Mask(Share(l, 1)), Mask(Share(l, 2)), Mask(Share(l, 3))]
  }

  /** addr_netmask; None is -1. */
  function Netmask(af: Family, l: nat): Option<Xaddr> {
    if MasklenValid(af, l) then Some(Addr(af, MaskWords(l), 0)) else None
  }

  function AndWords(x: seq<bv32>, y: seq<bv32>): (w: seq<bv32>)
    requires |x| == |y| == 4
    ensures |w| == 4
  {
    [And(x[0], y[0]), And(x[1], y[1]), And(x[2], y[2]), And(x[3], y[3])]
  }

  /** addr_and: only the first word of an IPv4 address is masked. */
  function Masked(a: Xaddr, b: Xaddr): Option<Xaddr> {
    if a.af != b.af then None
    else match a.af
      case Inet => Some(a.(words := a.words[0 := And(a.words[0], b.words[0])]))
      case Inet6 => Some(a.(words := AndWords(a.words, b.words)))
      case OtherFamily => None
  }

  function NotWords(x: seq<bv32>): (w: seq<bv32>)
    requires |x| == 4
    ensures |w| == 4
  {
    [Not(x[0]), Not(x[1]), Not(x[2]), Not(x[3])]
  }

  /** addr_invert */
  function Inverted(a: Xaddr): Option<Xaddr> {
    match a.af
    case Inet => Some(a.(words := a.words[0 := Not(a.words[0])]))
    case Inet6 => Some(a.(words := NotWords(a.words)))
    case OtherFamily => None
  }

  /** addr_is_all0s returns 0. */
  predicate IsAllZeros(a: Xaddr) {
    match a.af
    case Inet => a.words[0] == 0
    case Inet6 => a.words == [0, 0, 0, 0]
    case OtherFamily => false
  }

  /** addr_host_is_all0s returns 0. */
  predicate HostIsAllZeros(a: Xaddr, l: nat) {
    var mask := Netmask(a.af, l);
    mask.Some? &&
    (var hostmask := Inverted(mask.value);
     hostmask.Some? &&
     (var host := Masked(a, hostmask.value); host.Some? && IsAllZeros(host.value)))
  }

  function AddrByte(a: Xaddr, i: nat): bv32
    requires i < 16
  {
    Byte(a.words[i / 4], i % 4)
  }

  predicate Above(x: bv32, y: bv32) { x > y }

  /** 0 for equal words, otherwise which is greater. */
  function Sign(x: bv32, y: bv32): (r: int)
    ensures r == 0 <==> x == y
  {
    if x == y then 0 else if Above(x, y) then 1 else -1
  }

  /** The first byte in which two addresses differ, if any. */
  function CmpBytes(a: Xaddr, b: Xaddr, i: nat): (r: int)
    requires i <= 16
    decreases 16 - i
  {
    if i == 16 then 0
    else if AddrByte(a, i) != AddrByte(b, i) then Sign(AddrByte(a, i), AddrByte(b, i))
    else CmpBytes(a, b, i + 1)
  }

  /** addr_cmp */
  function Cmp(a: Xaddr, b: Xaddr): int {
    if a.af != b.af then (if a.af == Inet6 then 1 else -1)
    else match a.af
      case Inet => Sign(a.words[0], b.words[0])
      case Inet6 =>
        var r := CmpBytes(a, b, 0);
        if r != 0 then r else Sign(a.scope, b.scope)
      case OtherFamily => -1
  }

  /** addr_netmatch */
  function Netmatch(host: Xaddr, net: Xaddr, l: nat): int {
    if host.af != net.af then -1 else
      var mask := Netmask(host.af, l);
      if mask.None? then -1 else
        var masked := Masked(host, mask.value);
        if masked.None? then -1 else Cmp(masked.value, net)
  }

  // ----- What a match means

  predicate AddrBit(a: Xaddr, i: nat)
    requires i < 128
  {
    Bit(a.words[i / 32], i % 32)
  }

  /** The first l bits are the same. */
  ghost predicate SamePrefix(a: Xaddr, b: Xaddr, l: nat)
    requires l <= 128
  {
    forall i :: 0 <= i < l ==> AddrBit(a, i) == AddrBit(b, i)
  }

  function Width(af: Family): nat {
    match af
    case Inet => 32
    case Inet6 => 128
    case OtherFamily => 0
  }

  /** No bit is set after the first l, within the width of the family. */
  ghost predicate NoHostBits(a: Xaddr, l: nat) {
    forall i :: l <= i < Width(a.af) ==> !AddrBit(a, i)
  }

  /** The same word by word, as the masks test it. */
  ghost predicate NoHostWords(a: Xaddr, l: nat) {
    forall k :: 0 <= k < 4 && (a.af == Inet ==> k == 0) ==> And(a.words[k], Not(Mask(Share(l, k)))) == 0
  }

  lemma {:induction false} CmpBytesZero(a: Xaddr, b: Xaddr, i: nat)
    requires i <= 16
    ensures CmpBytes(a, b, i) == 0 <==> forall j :: i <= j < 16 ==> AddrByte(a, j) == AddrByte(b, j)
    decreases 16 - i
  {
    hide AddrByte;
    if i < 16 {
      CmpBytesZero(a, b, i + 1);
    }
  }

  lemma SameWord(a: Xaddr, b: Xaddr, k: nat)
    requires k < 4
    ensures a.words[k] == b.words[k] <==> forall j :: 4 * k <= j < 4 * k + 4 ==> AddrByte(a, j) == AddrByte(b, j)
  {
    hide Byte;
    BytesDetermine(a.words[k], b.words[k]);
    assert AddrByte(a, 4 * k) == Byte(a.words[k], 0) && AddrByte(b, 4 * k) == Byte(b.words[k], 0);
    assert AddrByte(a, 4 * k + 1) == Byte(a.words[k], 1) && AddrByte(b, 4 * k + 1) == Byte(b.words[k], 1);
    assert AddrByte(a, 4 * k + 2) == Byte(a.words[k], 2) && AddrByte(b, 4 * k + 2) == Byte(b.words[k], 2);
    assert AddrByte(a, 4 * k + 3) == Byte(a.words[k], 3) && AddrByte(b, 4 * k + 3) == Byte(b.words[k], 3);
  }

  /** The byte-wise comparison is zero exactly on identical words. */
  lemma CmpSame(a: Xaddr, b: Xaddr)
    requires a.af == b.af == Inet6
    ensures Cmp(a, b) == 0 <==> a.words == b.words && a.scope == b.scope
  {
    hide AddrByte;
    CmpBytesZero(a, b, 0);
    SameWord(a, b, 0);
    SameWord(a, b, 1);
    SameWord(a, b, 2);
    SameWord(a, b, 3);
  }

  predicate SameBytes(a: Xaddr, b: Xaddr, n: nat)
    requires n <= 16
  {
    forall j :: 0 <= j < n ==> AddrByte(a, j) == AddrByte(b, j)
  }

  lemma {:induction false} CmpBytesSkip(a: Xaddr, b: Xaddr, i: nat)
    requires i <= 16 && SameBytes(a, b, i)
    ensures CmpBytes(a, b, 0) == CmpBytes(a, b, i)
    decreases i
  {
    hide AddrByte, Sign;
    if i > 0 {
      CmpBytesSkip(a, b, i - 1);
    }
  }

  /** 1, 0 or -1 for greater, equal or less. */
  predicate Orders(r: int, x: bv32, y: bv32) {
    r == if x == y then 0 else if Above(x, y) then 1 else -1
  }

  /** IPv4 addresses are ordered as numbers. */
  lemma CmpInet(a: Xaddr, b: Xaddr)
    requires a.af == b.af == Inet
    ensures Orders(Cmp(a, b), a.words[0], b.words[0])
  {
    hide Above;
  }

  /** IPv6 addresses are ordered by their first different byte, and with equal bytes by scope. */
  lemma CmpInet6(a: Xaddr, b: Xaddr, k: nat)
    requires a.af == b.af == Inet6 && k <= 16 && SameBytes(a, b, k) && (k < 16 ==> AddrByte(a, k) != AddrByte(b, k))
    ensures if k < 16 then Orders(Cmp(a, b), AddrByte(a, k), AddrByte(b, k)) else Orders(Cmp(a, b), a.scope, b.scope)
  {
    hide Above, AddrByte, SameBytes;
    CmpBytesSkip(a, b, k);
  }

  /** One word of the comparison: masking gives the net's word exactly when the net has no host bits and the prefixes agree. */
  lemma WordMatch(h: bv32, n: bv32, l: nat)
    ensures And(h, Mask(l)) == n <==>
            And(n, Not(Mask(l))) == 0 && forall i :: 0 <= i < l ==> Bit(h, i) == Bit(n, i)
  {
    hide And, Not, Mask, Bit;
    MaskPrefix(h, n, l);
    if And(n, Not(Mask(l))) == 0 {
      NetWord(h, n, Mask(l));
    } else if And(h, Mask(l)) == n {
      MaskedHasNoHost(h, Mask(l));
    }
  }

  lemma MaskedHasNoHost(h: bv32, m: bv32)
    ensures And(And(h, m), Not(m)) == 0
  {
  }

  ghost predicate SameShare(a: Xaddr, b: Xaddr, l: nat, k: nat)
    requires k < 4
  {
    forall i :: 0 <= i < Share(l, k) ==> Bit(a.words[k], i) == Bit(b.words[k], i)
  }

  /** A prefix is the same exactly when its share of every word is. */
  lemma PrefixByWords(a: Xaddr, b: Xaddr, l: nat)
    requires l <= 128
    ensures SamePrefix(a, b, l) <==> SameShare(a, b, l, 0) && SameShare(a, b, l, 1) && SameShare(a, b, l, 2) && SameShare(a, b, l, 3)
  {
    hide Bit;
    if SamePrefix(a, b, l) {
      forall k, i | 0 <= k < 4 && 0 <= i < Share(l, k)
        ensures Bit(a.words[k], i) == Bit(b.words[k], i)
      {
        assert AddrBit(a, 32 * k + i) == AddrBit(b, 32 * k + i);
      }
    }
    if SameShare(a, b, l, 0) && SameShare(a, b, l, 1) && SameShare(a, b, l, 2) && SameShare(a, b, l, 3) {
      forall i | 0 <= i < l
        ensures AddrBit(a, i) == AddrBit(b, i)
      {
        var k := i / 32;
        assert SameShare(a, b, l, k);
      }
    }
  }

  lemma HostWords(a: Xaddr, l: nat)
    ensures HostIsAllZeros(a, l) <==> MasklenValid(a.af, l) && NoHostWords(a, l)
  {
    hide And, Not, Mask, Share;
  }

  lemma WordHasNoHost(a: Xaddr, l: nat, k: nat)
    requires k < 4
    ensures And(a.words[k], Not(Mask(Share(l, k)))) == 0 <==>
            forall i :: l <= i && 32 * k <= i < 32 * k + 32 ==> !AddrBit(a, i)
  {
    hide And, Not, Mask, Bit;
    HostPart(a.words[k], Share(l, k));
    if forall i :: l <= i && 32 * k <= i < 32 * k + 32 ==> !AddrBit(a, i) {
      forall j | Share(l, k) <= j < 32
        ensures !Bit(a.words[k], j)
      {
        assert !AddrBit(a, 32 * k + j);
      }
    }
    if forall j :: Share(l, k) <= j < 32 ==> !Bit(a.words[k], j) {
      forall i | l <= i && 32 * k <= i < 32 * k + 32
        ensures !AddrBit(a, i)
      {
        assert i / 32 == k && i % 32 == i - 32 * k && !Bit(a.words[k], i - 32 * k);
      }
    }
  }

  /** addr_host_is_all0s accepts exactly a valid length with no bit set behind it. */
  lemma HostBits(a: Xaddr, l: nat)
    ensures HostIsAllZeros(a, l) <==> MasklenValid(a.af, l) && NoHostBits(a, l)
  {
    hide And, Not, Mask, Share, AddrBit, HostIsAllZeros;
    HostWords(a, l);
    WordHasNoHost(a, l, 0);
    WordHasNoHost(a, l, 1);
    WordHasNoHost(a, l, 2);
    WordHasNoHost(a, l, 3);
    if a.af == Inet6 && NoHostWords(a, l) {
      assert And(a.words[1], Not(Mask(Share(l, 1)))) == 0 && And(a.words[2], Not(Mask(Share(l, 2)))) == 0 &&
             And(a.words[3], Not(Mask(Share(l, 3)))) == 0;
    }
  }

  /**
   * For all addresses and mask lengths: the match succeeds exactly when the
   * families agree, the mask length is valid for them, the net has no host
   * bits, the scopes of IPv6 addresses agree, and the first l bits are equal.
   */
  lemma NetmatchIsPrefix(host: Xaddr, net: Xaddr, l: nat)
    ensures Netmatch(host, net, l) == 0 <==>
            host.af == net.af && HostIsAllZeros(net, l) && (net.af == Inet6 ==> host.scope == net.scope) &&
            SamePrefix(host, net, l)
  {
    hide And, Not, Mask, Share, Bit, SamePrefix, HostIsAllZeros, Cmp;
    HostWords(net, l);
    if host.af == net.af && MasklenValid(net.af, l) {
      PrefixByWords(host, net, l);
      WordMatches(host, net, l);
      match net.af
      case Inet => InetMatch(host, net, l);
      case Inet6 => Inet6Match(host, net, l);
    }
  }

  lemma WordMatches(host: Xaddr, net: Xaddr, l: nat)
    ensures forall k :: 0 <= k < 4 ==>
              (And(host.words[k], Mask(Share(l, k))) == net.words[k] <==>
               And(net.words[k], Not(Mask(Share(l, k)))) == 0 && SameShare(host, net, l, k))
  {
    hide And, Not, Mask, Share, Bit;
    forall k | 0 <= k < 4
      ensures And(host.words[k], Mask(Share(l, k))) == net.words[k] <==>
              And(net.words[k], Not(Mask(Share(l, k)))) == 0 && SameShare(host, net, l, k)
    {
      WordMatch(host.words[k], net.words[k], Share(l, k));
    }
  }

  lemma InetMatch(host: Xaddr, net: Xaddr, l: nat)
    requires host.af == net.af == Inet && l <= 32
    ensures Netmatch(host, net, l) == 0 <==> And(host.words[0], Mask(Share(l, 0))) == net.words[0]
    ensures SameShare(host, net, l, 1) && SameShare(host, net, l, 2) && SameShare(host, net, l, 3)
  {
    hide And, Mask, Bit;
  }

  lemma Inet6Match(host: Xaddr, net: Xaddr, l: nat)
    requires host.af == net.af == Inet6 && l <= 128
    ensures Netmatch(host, net, l) == 0 <==>
            host.scope == net.scope && forall k :: 0 <= k < 4 ==> And(host.words[k], Mask(Share(l, k))) == net.words[k]
  {
    hide And, Mask, Share, CmpBytes;
    CmpSame(Masked(host, Netmask(Inet6, l).value).value, net);
  }
}
