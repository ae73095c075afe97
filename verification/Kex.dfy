/** Algorithm negotiation and key set-up (kex.c; sections 7.1 and 7.2 of RFC 4253). */
module Kex {
  import opened Bytes
  import opened KeyDerivation
  import opened MatchList
  import Kexinit

  const KEX_ALGS := 0
  const HOST_KEY_ALGS := 1
  const ENC_CTOS := 2
  const ENC_STOC := 3
  const MAC_CTOS := 4
  const MAC_STOC := 5
  const COMP_CTOS := 6
  const COMP_STOC := 7

  const MODE_IN: nat := 0
  const MODE_OUT: nat := 1
  const MODE_MAX: nat := 2
  const NKEYS: nat := 6
  const FIRST_LETTER: byte := 65

  /** The algorithms both programs know: key and block length, MAC key length, host key type, ECDH digest. */
  datatype Algorithms = Algorithms(
    cipher: seq<byte> -> Option<(nat, nat)>, mac: seq<byte> -> Option<nat>, hostkey: seq<byte> -> Option<int>,
    sha1: Digest, sha256: Digest, ecdh: seq<byte> -> Digest)

  /** The bug flags of the peer that matter here. */
  datatype Bugs = Bugs(hmac: bool, deriveKey: bool, firstKex: bool)

  datatype Enc = Enc(name: seq<byte>, keyLen: nat, blockSize: nat)
  datatype Mac = Mac(name: seq<byte>, keyLen: nat)
  datatype Comp = CompNone | CompZlib | CompDelayed
  datatype Newkeys = Newkeys(enc: Enc, mac: Mac, comp: Comp)
  datatype Method = DhGroup1 | DhGroup14 | DhGexSha1 | DhGexSha256 | EcdhSha2

  /** What kex_choose_conf leaves in the Kex structure. */
  datatype Conf = Conf(newkeys: seq<Newkeys>, name: seq<byte>, kexType: Method, md: Digest, hostkey: int, weNeed: nat,
                       roaming: bool, skips: bool)

  // ----- The choices; None stands for fatal()

  function ChooseEnc(algs: Algorithms, client: seq<byte>, server: seq<byte>): Option<Enc> {
    var name := Match(client, server);
    if name.None? || algs.cipher(name.value).None? then None else
      var (keyLen, blockSize) := algs.cipher(name.value).value;
      Some(Enc(name.value, keyLen, blockSize))
  }

  function ChooseMac(algs: Algorithms, bugs: Bugs, client: seq<byte>, server: seq<byte>): Option<Mac> {
    var name := Match(client, server);
    if name.None? || algs.mac(name.value).None? then None
    else Some(Mac(name.value, if bugs.hmac then 16 else algs.mac(name.value).value))
  }

  function ChooseComp(client: seq<byte>, server: seq<byte>): Option<Comp> {
    var name := Match(client, server);
    if name.None? then None
    else if name.value == Ascii("zlib@openssh.com") then Some(CompDelayed)
    else if name.value == Ascii("zlib") then Some(CompZlib)
    else if name.value == Ascii("none") then Some(CompNone)
    else None
  }

  function ChooseKex(algs: Algorithms, client: seq<byte>, server: seq<byte>): Option<(seq<byte>, Method, Digest)> {
    var name := Match(client, server);
    if name.None? then None
    else if name.value == Ascii("diffie-hellman-group1-sha1") then Some((name.value, DhGroup1, algs.sha1))
    else if name.value == Ascii("diffie-hellman-group14-sha1") then Some((name.value, DhGroup14, algs.sha1))
    else if name.value == Ascii("diffie-hellman-group-exchange-sha1") then Some((name.value, DhGexSha1, algs.sha1))
    else if name.value == Ascii("diffie-hellman-group-exchange-sha256") then Some((name.value, DhGexSha256, algs.sha256))
    else if Ascii("ecdh-sha2-") <= name.value then Some((name.value, EcdhSha2, algs.ecdh(name.value)))
    else None
  }

  function ChooseHostkey(algs: Algorithms, client: seq<byte>, server: seq<byte>): Option<int> {
    var name := Match(client, server);
    if name.None? then None else algs.hostkey(name.value)
  }

  type Lists = p: seq<seq<byte>> | |p| == Kexinit.PROPOSAL_MAX witness seq(Kexinit.PROPOSAL_MAX, _ => [])

  /** One direction of the connection. */
  function ChooseMode(algs: Algorithms, bugs: Bugs, client: Lists, server: Lists, ctos: bool): Option<Newkeys> {
    var nenc := if ctos then ENC_CTOS else ENC_STOC;
    var nmac := if ctos then MAC_CTOS else MAC_STOC;
    var ncomp := if ctos then COMP_CTOS else COMP_STOC;
    var enc := ChooseEnc(algs, client[nenc], server[nenc]);
    var mac := ChooseMac(algs, bugs, client[nmac], server[nmac]);
    var comp := ChooseComp(client[ncomp], server[ncomp]);
    if enc.None? || mac.None? || comp.None? then None else Some(Newkeys(enc.value, mac.value, comp.value))
  }

  function Max(a: nat, b: nat): nat { if a < b then b else a }

  /** The longest key, block or MAC key of a direction. */
  function Needs(k: Newkeys): nat { Max(Max(k.enc.keyLen, k.enc.blockSize), k.mac.keyLen) }

  /** proposals_match: both ends would have guessed the same method and host key. */
  predicate Guessed(my: Lists, peer: Lists) {
    FirstOf(my[KEX_ALGS]) == FirstOf(peer[KEX_ALGS]) && FirstOf(my[HOST_KEY_ALGS]) == FirstOf(peer[HOST_KEY_ALGS])
  }

  function FirstOf(s: seq<byte>): seq<byte> { s[..Comma(s)] }

  /** ctos for a mode, as both loops of kex.c compute it. */
  predicate ToServer(server: bool, mode: nat) {
    (!server && mode == MODE_OUT) || (server && mode == MODE_IN)
  }

  /** kex_choose_conf */
  function Negotiate(algs: Algorithms, bugs: Bugs, server: bool, my: Lists, peer: Lists, follows: nat): (r: Option<Conf>)
    ensures r.Some? ==> |r.value.newkeys| == MODE_MAX
  {
    var (c, s) := if server then (peer, my) else (my, peer);
    var inward := ChooseMode(algs, bugs, c, s, ToServer(server, MODE_IN));
    var outward := ChooseMode(algs, bugs, c, s, ToServer(server, MODE_OUT));
    var kex := ChooseKex(algs, c[KEX_ALGS], s[KEX_ALGS]);
    var hostkey := ChooseHostkey(algs, c[HOST_KEY_ALGS], s[HOST_KEY_ALGS]);
    if inward.None? || outward.None? || kex.None? || hostkey.None? then None else
      Some(Conf([inward.value, outward.value], kex.value.0, kex.value.1, kex.value.2, hostkey.value,
                Max(Needs(inward.value), Needs(outward.value)),
                !server && Match(Ascii("resume@appgate.com"), peer[KEX_ALGS]).Some?,
                follows != 0 && !Guessed(my, peer) && !bugs.firstKex))
  }

  /** Everything both ends must hold alike, with one end's input the other's output. */
  predicate Mirrored(c: Conf, s: Conf) {
    |c.newkeys| == |s.newkeys| == MODE_MAX &&
    c.newkeys[MODE_OUT] == s.newkeys[MODE_IN] && c.newkeys[MODE_IN] == s.newkeys[MODE_OUT] &&
    c.name == s.name && c.kexType == s.kexType && c.hostkey == s.hostkey && c.weNeed == s.weNeed
  }

  /** Both MACs of a configuration would have had this key length anyway. */
  predicate MacKeysAre(algs: Algorithms, k: Conf, len: nat) {
    |k.newkeys| == MODE_MAX &&
    algs.mac(k.newkeys[MODE_IN].mac.name) == algs.mac(k.newkeys[MODE_OUT].mac.name) == Some(len)
  }

  /**
   * From the same two proposals either both ends stop or neither does, and
   * then they mirror each other exactly when they agree on truncating MAC
   * keys, or when the truncation changes no key.
   */
  lemma Mirror(algs: Algorithms, cbugs: Bugs, sbugs: Bugs, client: Lists, server: Lists, cfollows: nat, sfollows: nat)
    ensures var c := Negotiate(algs, cbugs, false, client, server, sfollows);
            var s := Negotiate(algs, sbugs, true, server, client, cfollows);
            (c.Some? <==> s.Some?) &&
            (c.Some? ==> (Mirrored(c.value, s.value) <==> cbugs.hmac == sbugs.hmac || MacKeysAre(algs, c.value, 16)))
  {
    hide Match, ChooseComp, ChooseKex, ChooseHostkey, Guessed, Max;
    var c := Negotiate(algs, cbugs, false, client, server, sfollows);
    var s := Negotiate(algs, sbugs, true, server, client, cfollows);
    DirectionMirror(algs, cbugs, sbugs, client, server, true);
    DirectionMirror(algs, cbugs, sbugs, client, server, false);
    if c.Some? {
      var up := ChooseMode(algs, cbugs, client, server, true).value;
      var down := ChooseMode(algs, cbugs, client, server, false).value;
      var up' := ChooseMode(algs, sbugs, client, server, true).value;
      var down' := ChooseMode(algs, sbugs, client, server, false).value;
      MaxCommutes(Needs(up), Needs(down));
      assert c.value.newkeys == [down, up] && s.value.newkeys == [up', down'];
    }
  }

  lemma MaxCommutes(a: nat, b: nat)
    ensures Max(a, b) == Max(b, a)
  {
  }

  lemma DirectionMirror(algs: Algorithms, b1: Bugs, b2: Bugs, client: Lists, server: Lists, ctos: bool)
    ensures var k1 := ChooseMode(algs, b1, client, server, ctos);
            var k2 := ChooseMode(algs, b2, client, server, ctos);
            (k1.Some? <==> k2.Some?) &&
            (k1.Some? ==> (k1.value == k2.value <==> b1.hmac == b2.hmac || algs.mac(k1.value.mac.name) == Some(16)))
  {
    hide Match, ChooseComp, ChooseEnc;
  }

  // ----- Keys

  /** A direction with its keys in place. */
  datatype Keyed = Keyed(algs: Newkeys, iv: seq<byte>, key: seq<byte>, macKey: seq<byte>)

  function Letter(i: nat): byte
    requires i < NKEYS
  {
    FIRST_LETTER + i
  }

  function KeyFor(conf: Conf, m: Material, i: nat): seq<byte>
    requires i < NKEYS
  {
    var k := DeriveKey(conf.md, m, Letter(i), conf.weNeed);
    if k.Some? then k.value else []
  }

  /** The keys of one direction: A, C and E towards the server, B, D and F towards the client. */
  function KeyedMode(conf: Conf, server: bool, m: Material, mode: nat): Keyed
    requires mode < |conf.newkeys|
  {
    var ctos := ToServer(server, mode);
    Keyed(conf.newkeys[mode], KeyFor(conf, m, if ctos then 0 else 1), KeyFor(conf, m, if ctos then 2 else 3),
          KeyFor(conf, m, if ctos then 4 else 5))
  }

  /** kex_derive_keys; None when a derivation is fatal. */
  function CurrentKeys(conf: Conf, server: bool, m: Material): (r: Option<seq<Keyed>>)
    requires |conf.newkeys| == MODE_MAX
    ensures r.Some? ==> |r.value| == MODE_MAX
  {
    if conf.md.size <= 0 || conf.weNeed == 0 then None
    else Some([KeyedMode(conf, server, m, MODE_IN), KeyedMode(conf, server, m, MODE_OUT)])
  }

  /** What either end sends under is what the other reads under: names, lengths, IV, key and MAC key. */
  predicate KeysMirrored(c: seq<Keyed>, s: seq<Keyed>)
    requires |c| == |s| == MODE_MAX
  {
    c[MODE_OUT] == s[MODE_IN] && c[MODE_IN] == s[MODE_OUT]
  }

  /**
   * From the same proposals, shared secret, exchange hash and session id, two ends
   * that derive keys alike end up with mirrored keys exactly when they agree on
   * truncating MAC keys, or when the truncation changes no key.
   */
  lemma KeysMirror(algs: Algorithms, cbugs: Bugs, sbugs: Bugs, client: Lists, server: Lists, cfollows: nat, sfollows: nat,
                   secret: nat, hash: seq<byte>, session: seq<byte>)
    ensures var c := Negotiate(algs, cbugs, false, client, server, sfollows);
            var s := Negotiate(algs, sbugs, true, server, client, cfollows);
            (c.Some? <==> s.Some?) &&
            (c.Some? && cbugs.deriveKey == sbugs.deriveKey ==>
              var agree := cbugs.hmac == sbugs.hmac || MacKeysAre(algs, c.value, 16);
              var ck := CurrentKeys(c.value, false, Material(secret, hash, session, cbugs.deriveKey));
              var sk := CurrentKeys(s.value, true, Material(secret, hash, session, sbugs.deriveKey));
              (agree ==> (ck.Some? <==> sk.Some?)) &&
              (ck.Some? && sk.Some? ==> (KeysMirrored(ck.value, sk.value) <==> agree)))
  {
    hide ChooseMode, ChooseKex, ChooseHostkey, Match, Guessed, DeriveKey;
    DirectionMirror(algs, cbugs, sbugs, client, server, true);
    DirectionMirror(algs, cbugs, sbugs, client, server, false);
    var c := Negotiate(algs, cbugs, false, client, server, sfollows);
    var s := Negotiate(algs, sbugs, true, server, client, cfollows);
    if c.Some? {
      MaxCommutes(Needs(c.value.newkeys[0]), Needs(c.value.newkeys[1]));
    }
  }

  /** A key for one of the letters, as the octet string it is the start of. */
  predicate IsKey(conf: Conf, m: Material, letter: char, key: seq<byte>) {
    DeriveKey(conf.md, m, letter as int % 256, conf.weNeed) == Some(key)
  }

  /** Towards the server IV, key and MAC key come from A, C and E; towards the client from B, D and F. */
  lemma KeysByLetter(conf: Conf, server: bool, m: Material)
    requires |conf.newkeys| == MODE_MAX
    ensures var k := CurrentKeys(conf, server, m);
            k.None? <==> conf.md.size <= 0 || conf.weNeed == 0
    ensures var k := CurrentKeys(conf, server, m);
            k.Some? ==>
              var (upstream, downstream) := if server then (k.value[MODE_IN], k.value[MODE_OUT]) else (k.value[MODE_OUT], k.value[MODE_IN]);
              IsKey(conf, m, 'A', upstream.iv) && IsKey(conf, m, 'C', upstream.key) && IsKey(conf, m, 'E', upstream.macKey) &&
              IsKey(conf, m, 'B', downstream.iv) && IsKey(conf, m, 'D', downstream.key) && IsKey(conf, m, 'F', downstream.macKey)
  {
  }

  predicate LongEnough(k: Keyed) {
    k.algs.enc.blockSize <= |k.iv| && k.algs.enc.keyLen <= |k.key| && k.algs.mac.keyLen <= |k.macKey|
  }

  /** we_need covers every use, in both directions. */
  lemma KeysLongEnough(algs: Algorithms, bugs: Bugs, server: bool, my: Lists, peer: Lists, follows: nat, m: Material)
    ensures var conf := Negotiate(algs, bugs, server, my, peer, follows);
            conf.Some? && Sized(conf.value.md) ==>
              var k := CurrentKeys(conf.value, server, m);
              k.Some? ==> LongEnough(k.value[MODE_IN]) && LongEnough(k.value[MODE_OUT])
  {
    hide ChooseMode, ChooseKex, ChooseHostkey, Match, Guessed, DeriveKey, Sized;
    var conf := Negotiate(algs, bugs, server, my, peer, follows);
    if conf.Some? && Sized(conf.value.md) && conf.value.md.size > 0 && conf.value.weNeed > 0 {
      forall i | 0 <= i < NKEYS
        ensures |KeyFor(conf.value, m, i)| >= conf.value.weNeed
      {
        DeriveKeyPrefix(conf.value.md, m, Letter(i), conf.value.weNeed, conf.value.weNeed);
      }
    }
  }
}
