/** The Kex structure updated in place by kex_choose_conf and kex_derive_keys, and a whole exchange between two ends. */
module KexExchange {
  import opened Bytes
  import opened Buffers
  import opened KeyDerivation
  import opened Kex
  import Kexinit
  import MatchList

  class KexState {
    const algs: Algorithms
    const bugs: Bugs
    const server: bool
    const my: Buffer
    const peer: Buffer
    var newkeys: seq<Option<Newkeys>>
    var current: seq<Option<Keyed>>
    var name: seq<byte>
    var kexType: Method
    var md: Digest
    var hostkey: int
    var weNeed: nat
    var roaming: bool

    ghost predicate Valid()
      reads this, my, peer
    {
      my.Valid() && peer.Valid() && |newkeys| == |current| == MODE_MAX
    }

    /** What the two messages and the tables determine; None is fatal(). */
    ghost function Outcome(): Option<Conf>
      requires Valid()
      reads this, my, my.buf, peer, peer.buf
    {
      var mine, theirs := Kexinit.Parse(my.Contents()), Kexinit.Parse(peer.Contents());
      if mine.None? || theirs.None? then None
      else Negotiate(algs, bugs, server, mine.value.lists, theirs.value.lists, theirs.value.follows)
    }

    ghost predicate Holds(c: Conf)
      reads this
    {
      |c.newkeys| == MODE_MAX && newkeys == [Some(c.newkeys[0]), Some(c.newkeys[1])] &&
      name == c.name && kexType == c.kexType && md == c.md && hostkey == c.hostkey && weNeed == c.weNeed
    }

    constructor (algs: Algorithms, bugs: Bugs, server: bool, my: Buffer, peer: Buffer)
      requires my.Valid() && peer.Valid()
      ensures Valid() && this.algs == algs && this.bugs == bugs && this.server == server && this.my == my && this.peer == peer
      ensures !roaming
    {
      this.algs, this.bugs, this.server, this.my, this.peer := algs, bugs, server, my, peer;
      newkeys, current := [None, None], [None, None];
      name, kexType, md, hostkey, weNeed, roaming := [], DhGroup1, algs.sha1, 0, 0, false;
    }

    method PickEnc(client: seq<byte>, offered: seq<byte>) returns (enc: Option<Enc>)
      ensures enc == ChooseEnc(algs, client, offered)
    {
      var n := MatchList.Choose(client, offered);
      if n.None? || algs.cipher(n.value).None? {
        return None;
      }
      enc := Some(Enc(n.value, algs.cipher(n.value).value.0, algs.cipher(n.value).value.1));
    }

    method PickMac(client: seq<byte>, offered: seq<byte>) returns (mac: Option<Mac>)
      ensures mac == ChooseMac(algs, bugs, client, offered)
    {
      var n := MatchList.Choose(client, offered);
      if n.None? || algs.mac(n.value).None? {
        return None;
      }
      var keyLen := algs.mac(n.value).value;
      if bugs.hmac {
        keyLen := 16;
      }
      mac := Some(Mac(n.value, keyLen));
    }

    method PickComp(client: seq<byte>, offered: seq<byte>) returns (comp: Option<Comp>)
      ensures comp == ChooseComp(client, offered)
    {
      hide MatchList.Ascii;
      var n := MatchList.Choose(client, offered);
      if n.None? {
        return None;
      }
      if n.value == MatchList.Ascii("zlib@openssh.com") {
        return Some(CompDelayed);
      } else if n.value == MatchList.Ascii("zlib") {
        return Some(CompZlib);
      } else if n.value == MatchList.Ascii("none") {
        return Some(CompNone);
      }
      return None;
    }

    /** Fill in one mode of newkeys. */
    method PickMode(mode: nat, c: Lists, s: Lists) returns (ok: bool)
      requires mode < MODE_MAX && |newkeys| == MODE_MAX
      modifies this`newkeys
      ensures ok == ChooseMode(algs, bugs, c, s, ToServer(server, mode)).Some?
      ensures ok ==> newkeys == old(newkeys)[mode := ChooseMode(algs, bugs, c, s, ToServer(server, mode))]
      ensures |newkeys| == MODE_MAX
    {
      hide ChooseEnc, ChooseMac, ChooseComp;
      var ctos := (!server && mode == MODE_OUT) || (server && mode == MODE_IN);
      var nenc := if ctos then ENC_CTOS else ENC_STOC;
      var nmac := if ctos then MAC_CTOS else MAC_STOC;
      var ncomp := if ctos then COMP_CTOS else COMP_STOC;
      var enc := PickEnc(c[nenc], s[nenc]);
      var mac := PickMac(c[nmac], s[nmac]);
      var comp := PickComp(c[ncomp], s[ncomp]);
      if enc.None? || mac.None? || comp.None? {
        return false;
      }
      newkeys := newkeys[mode := Some(Newkeys(enc.value, mac.value, comp.value))];
      ok := true;
    }

    /** The two loops of kex_choose_conf over the modes. */
    method PickModes(c: Lists, s: Lists) returns (ok: bool)
      requires |newkeys| == MODE_MAX
      modifies this`newkeys, this`weNeed
      ensures |newkeys| == MODE_MAX
      ensures var inward, outward := ChooseMode(algs, bugs, c, s, ToServer(server, MODE_IN)),
                                     ChooseMode(algs, bugs, c, s, ToServer(server, MODE_OUT));
              ok == (inward.Some? && outward.Some?) &&
              (ok ==> newkeys == [inward, outward] && weNeed == Max(Needs(inward.value), Needs(outward.value)))
    {
      hide ChooseMode, ToServer;
      ok := PickMode(MODE_IN, c, s);
      if !ok {
        return;
      }
      ok := PickMode(MODE_OUT, c, s);
      if !ok {
        return;
      }
      var need := 0;
      for mode := 0 to MODE_MAX
        invariant need == if mode == 0 then 0 else if mode == 1 then Needs(newkeys[0].value)
                          else Max(Needs(newkeys[0].value), Needs(newkeys[1].value))
      {
        var k := newkeys[mode].value;
        if need < k.enc.keyLen {
          need := k.enc.keyLen;
        }
        if need < k.enc.blockSize {
          need := k.enc.blockSize;
        }
        if need < k.mac.keyLen {
          need := k.mac.keyLen;
        }
      }
      weNeed := need;
    }

    method PickKex(client: seq<byte>, offered: seq<byte>) returns (ok: bool)
      modifies this`name, this`kexType, this`md
      ensures ok == ChooseKex(algs, client, offered).Some?
      ensures ok ==> (name, kexType, md) == ChooseKex(algs, client, offered).value
    {
      hide MatchList.Ascii;
      var n := MatchList.Choose(client, offered);
      if n.None? {
        return false;
      }
      name := n.value;
      if name == MatchList.Ascii("diffie-hellman-group1-sha1") {
        kexType, md := DhGroup1, algs.sha1;
      } else if name == MatchList.Ascii("diffie-hellman-group14-sha1") {
        kexType, md := DhGroup14, algs.sha1;
      } else if name == MatchList.Ascii("diffie-hellman-group-exchange-sha1") {
        kexType, md := DhGexSha1, algs.sha1;
      } else if name == MatchList.Ascii("diffie-hellman-group-exchange-sha256") {
        kexType, md := DhGexSha256, algs.sha256;
      } else if MatchList.Ascii("ecdh-sha2-") <= name {
        kexType, md := EcdhSha2, algs.ecdh(name);
      } else {
        return false;
      }
      ok := true;
    }

    method PickHostkey(client: seq<byte>, offered: seq<byte>) returns (ok: bool)
      modifies this`hostkey
      ensures ok == ChooseHostkey(algs, client, offered).Some?
      ensures ok ==> Some(hostkey) == ChooseHostkey(algs, client, offered)
    {
      var n := MatchList.Choose(client, offered);
      if n.None? || algs.hostkey(n.value).None? {
        return false;
      }
      hostkey := algs.hostkey(n.value).value;
      ok := true;
    }

    /** proposals_match: compare the two first names of either list. */
    method ProposalsMatch(mine: Lists, theirs: Lists) returns (same: bool)
      ensures same == Guessed(mine, theirs)
    {
      for i := KEX_ALGS to HOST_KEY_ALGS + 1
        invariant i > KEX_ALGS ==> FirstOf(mine[KEX_ALGS]) == FirstOf(theirs[KEX_ALGS])
        invariant i > HOST_KEY_ALGS ==> FirstOf(mine[HOST_KEY_ALGS]) == FirstOf(theirs[HOST_KEY_ALGS])
      {
        var p := MatchList.FindComma(mine[i]);
        var q := MatchList.FindComma(theirs[i]);
        if mine[i][..p] != theirs[i][..q] {
          return false;
        }
      }
      same := true;
    }

    /** kex_choose_conf once the two messages are parsed. */
    method Resolve(mine: Lists, theirs: Lists, follows: nat) returns (ok: bool, skips: bool)
      requires |newkeys| == MODE_MAX
      modifies this`newkeys, this`weNeed, this`name, this`kexType, this`md, this`hostkey, this`roaming
      ensures |newkeys| == MODE_MAX
      ensures var conf := Negotiate(algs, bugs, server, mine, theirs, follows);
              ok == conf.Some? &&
              (ok ==> Holds(conf.value) && skips == conf.value.skips && roaming == (old(roaming) || conf.value.roaming))
    {
      hide ChooseMode, ChooseKex, ChooseHostkey, Guessed, MatchList.Match, MatchList.Ascii, Max, Needs, ToServer;
      skips := false;
      var (c, s) := if server then (theirs, mine) else (mine, theirs);
      if !server {
        var resume := MatchList.Choose(MatchList.Ascii("resume@appgate.com"), theirs[KEX_ALGS]);
        if resume.Some? {
          roaming := true;
        }
      }
      ok := PickModes(c, s);
      if !ok {
        return;
      }
      ok := PickKex(c[KEX_ALGS], s[KEX_ALGS]);
      if !ok {
        return;
      }
      ok := PickHostkey(c[HOST_KEY_ALGS], s[HOST_KEY_ALGS]);
      if !ok {
        return;
      }
      if follows != 0 {
        var same := ProposalsMatch(mine, theirs);
        skips := !same && !bugs.firstKex;
      }
    }

    /** kex_choose_conf */
    method ChooseConf() returns (ok: bool, skips: bool)
      requires Valid()
      modifies this
      ensures Valid() && current == old(current)
      ensures ok == old(Outcome()).Some?
      ensures ok ==> Holds(old(Outcome()).value) && skips == old(Outcome()).value.skips &&
                     roaming == (old(roaming) || old(Outcome()).value.roaming)
    {
      hide Negotiate, Kexinit.Parse;
      var mine := Kexinit.Buf2Prop(my);
      var theirs := Kexinit.Buf2Prop(peer);
      if mine.None? || theirs.None? {
        return false, false;
      }
      ok, skips := Resolve(mine.value.lists, theirs.value.lists, theirs.value.follows);
    }

    /** The six derivations of kex_derive_keys. */
    method DeriveAll(m: Material) returns (keys: Option<seq<seq<byte>>>)
      requires Sized(md)
      ensures keys.None? <==> md.size <= 0 || weNeed == 0
      ensures keys.Some? ==>
                |keys.value| == NKEYS &&
                forall i :: 0 <= i < NKEYS ==> Some(keys.value[i]) == DeriveKey(md, m, Letter(i), weNeed)
    {
      hide Blocks, Count;
      var done: seq<seq<byte>> := [];
      for i := 0 to NKEYS
        invariant |done| == i && (i > 0 ==> md.size > 0 && weNeed > 0)
        invariant forall j :: 0 <= j < i ==> Some(done[j]) == DeriveKey(md, m, Letter(j), weNeed)
      {
        var k := Derive(md, m, Letter(i), weNeed);
        if k.None? {
          return None;
        }
        done := done + [k.value[..]];
      }
      keys := Some(done);
    }

    /** kex_derive_keys: the negotiated algorithms move into the current keys. */
    method DeriveKeys(m: Material, ghost conf: Conf) returns (ok: bool)
      requires Valid() && Holds(conf) && Sized(md)
      modifies this`newkeys, this`current
      ensures Valid() && ok == CurrentKeys(conf, server, m).Some?
      ensures ok ==> newkeys == [None, None] && current == [Some(CurrentKeys(conf, server, m).value[0]),
                                                            Some(CurrentKeys(conf, server, m).value[1])]
    {
      hide DeriveKey;
      var keys := DeriveAll(m);
      if keys.None? {
        return false;
      }
      var k := keys.value;
      for mode := 0 to MODE_MAX
        invariant |newkeys| == |current| == MODE_MAX
        invariant forall j :: 0 <= j < MODE_MAX ==>
                    newkeys[j] == (if j < mode then None else Some(conf.newkeys[j])) &&
                    (j < mode ==> current[j] == Some(KeyedMode(conf, server, m, j)))
      {
        var ctos := (!server && mode == MODE_OUT) || (server && mode == MODE_IN);
        var keyed := Keyed(newkeys[mode].value, k[if ctos then 0 else 1], k[if ctos then 2 else 3], k[if ctos then 4 else 5]);
        assert keyed == KeyedMode(conf, server, m, mode);
        current := current[mode := Some(keyed)];
        newkeys := newkeys[mode := None];
      }
      ok := true;
    }
  }

  /**
   * Two ends that have exchanged their KEXINIT messages and share a secret:
   * if the two agree on the length of the MAC keys, both stop or neither does,
   * and the keys mirror each other.
   */
  method Exchange(client: KexState, server: KexState, secret: nat, hash: seq<byte>, session: seq<byte>)
    returns (cok: bool, sok: bool)
    requires client != server && client.Valid() && server.Valid() && !client.server && server.server
    requires client.algs == server.algs && client.bugs.deriveKey == server.bugs.deriveKey
    requires Sized(client.algs.sha1) && Sized(client.algs.sha256) && forall n :: Sized(client.algs.ecdh(n))
    requires client.my.Contents() == server.peer.Contents() && client.peer.Contents() == server.my.Contents()
    modifies client, server
    ensures old(client.Outcome()).Some? <==> old(server.Outcome()).Some?
    ensures old(client.Outcome()).None? ==> !cok && !sok
    ensures var c := old(client.Outcome());
            c.Some? && (client.bugs.hmac == server.bugs.hmac || MacKeysAre(client.algs, c.value, 16)) ==>
              cok == sok &&
              (cok ==> |client.current| == |server.current| == MODE_MAX &&
                       client.current[MODE_OUT] == server.current[MODE_IN] &&
                       client.current[MODE_IN] == server.current[MODE_OUT] &&
                       client.weNeed == server.weNeed && client.kexType == server.kexType && client.hostkey == server.hostkey)
  {
    hide Negotiate, CurrentKeys, Kexinit.Parse, Sized;
    ghost var (c, s) := (client.Outcome(), server.Outcome());
    ghost var (cm, sm) := (Kexinit.Parse(client.my.Contents()), Kexinit.Parse(server.my.Contents()));
    var skips;
    cok, skips := client.ChooseConf();
    sok, skips := server.ChooseConf();
    var cb, sb := client.bugs, server.bugs;
    if cm.Some? && sm.Some? {
      var (cl, sl, cf, sf) := (cm.value.lists, sm.value.lists, cm.value.follows, sm.value.follows);
      Mirror(client.algs, cb, sb, cl, sl, cf, sf);
      KeysMirror(client.algs, cb, sb, cl, sl, cf, sf, secret, hash, session);
      NegotiatedDigest(client.algs, cb, false, cl, sl, sf);
      NegotiatedDigest(client.algs, sb, true, sl, cl, cf);
    }
    if cok {
      cok := client.DeriveKeys(Material(secret, hash, session, cb.deriveKey), c.value);
      sok := server.DeriveKeys(Material(secret, hash, session, sb.deriveKey), s.value);
    }
  }

  lemma NegotiatedDigest(algs: Algorithms, bugs: Bugs, server: bool, my: Lists, peer: Lists, follows: nat)
    requires Sized(algs.sha1) && Sized(algs.sha256) && forall n :: Sized(algs.ecdh(n))
    ensures var c := Negotiate(algs, bugs, server, my, peer, follows); c.Some? ==> Sized(c.value.md)
  {
    hide ChooseMode, ChooseHostkey, MatchList.Match, MatchList.Ascii, Guessed, Sized;
  }
}
