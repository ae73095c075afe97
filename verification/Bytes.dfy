/** Bytes, fixed-width unsigned integers and base-256 numbers (misc.c, OpenSSL's BN_bn2bin). */
module Bytes {
  import opened NumberTheory

  type byte = x: int | 0 <= x < 256

  type u32 = x: int | 0 <= x < 0x1_0000_0000

  datatype Option<+T> = None | Some(value: T)

  /** Unsigned 32-bit arithmetic of the C source: results are taken modulo 2^32. */
  function Add32(a: int, b: int): u32 { (a + b) % 0x1_0000_0000 }

  function Sub32(a: int, b: int): u32 { (a - b) % 0x1_0000_0000 }

  function Pow256(k: nat): (r: nat)
    ensures r > 0
  {
    if k == 0 then 1 else 256 * Pow256(k - 1)
  }

  /** The number whose base-256 digits, most significant first, are `s` (BN_bin2bn). */
  function ToNat(s: seq<byte>): nat {
    if s == [] then 0 else ToNat(s[..|s| - 1]) * 256 + s[|s| - 1]
  }

  /** The last `k` base-256 digits of `n`, most significant first (put_u16, put_u32, put_u64). */
  function Digits(n: nat, k: nat): (s: seq<byte>)
    ensures |s| == k
  {
    if k == 0 then [] else Digits(n / 256, k - 1) + [n % 256]
  }

  /** The base-256 digits of `n` without leading zeros (BN_bn2bin). */
  function Minimal(n: nat): (s: seq<byte>)
    ensures n == 0 <==> s == []
  {
    if n == 0 then [] else Minimal(n / 256) + [n % 256]
  }

  lemma {:induction false} DigitsToNat(n: nat, k: nat)
    ensures ToNat(Digits(n, k)) == n % Pow256(k)
  {
    if k == 0 {
    } else {
      var s := Digits(n, k);
      assert s[..k - 1] == Digits(n / 256, k - 1);
      DigitsToNat(n / 256, k - 1);
      ModPow(n, Pow256(k - 1));
    }
  }

  lemma ModPow(n: nat, m: nat)
    requires m > 0
    ensures n % (256 * m) == (n / 256 % m) * 256 + n % 256
  {
    var q, r := n / 256 / m, n / 256 % m;
    assert n == 256 * (q * m + r) + n % 256;
    assert n == q * (256 * m) + (r * 256 + n % 256);
    assert 0 <= r * 256 + n % 256 < 256 * m;
    ModUnique(n, 256 * m, q, r * 256 + n % 256);
  }

  lemma {:induction false} ToNatBound(s: seq<byte>)
    ensures ToNat(s) < Pow256(|s|)
  {
    if s != [] {
      ToNatBound(s[..|s| - 1]);
    }
  }

  lemma {:induction false} MinimalToNat(n: nat)
    ensures ToNat(Minimal(n)) == n
  {
    if n != 0 {
      var s := Minimal(n);
      assert s[..|s| - 1] == Minimal(n / 256);
      MinimalToNat(n / 256);
    }
  }

  /** The leading digit of a minimal representation bounds the number from both sides. */
  lemma {:induction false} MinimalLead(n: nat)
    requires n > 0
    ensures var s := Minimal(n); var lead := s[0];
            lead > 0 && lead * Pow256(|s| - 1) <= n < (lead + 1) * Pow256(|s| - 1)
  {
    if n >= 256 {
      var m := n / 256;
      MinimalLead(m);
      var s, t := Minimal(n), Minimal(m);
      assert s == t + [n % 256] && s[0] == t[0];
      Scale(t[0], Pow256(|t| - 1), m, n);
    } else {
      assert Minimal(n / 256) == [];
    }
  }

  lemma Scale(lead: int, w: int, m: int, n: int)
    requires lead * w <= m < (lead + 1) * w && 256 * m <= n < 256 * m + 256
    ensures lead * (256 * w) <= n < (lead + 1) * (256 * w)
  {
    assert lead * (256 * w) == 256 * (lead * w);
    assert (lead + 1) * (256 * w) == 256 * ((lead + 1) * w);
  }

  /** A leading zero byte does not change the number. */
  lemma {:induction false} LeadingZero(s: seq<byte>)
    ensures ToNat([0] + s) == ToNat(s)
  {
    var z := [0] + s;
    if s == [] {
      assert z[..0] == [];
    } else {
      assert z[..|z| - 1] == [0] + s[..|s| - 1];
      LeadingZero(s[..|s| - 1]);
    }
  }

  lemma {:induction false} ToNatLead(s: seq<byte>)
    requires s != []
    ensures ToNat(s) < (s[0] + 1) * Pow256(|s| - 1)
  {
    if |s| == 1 {
      assert s[..0] == [];
    } else {
      var t := s[..|s| - 1];
      ToNatLead(t);
      var lead: int, w := s[0], Pow256(|t| - 1);
      assert (lead + 1) * (256 * w) == 256 * ((lead + 1) * w);
    }
  }
}
