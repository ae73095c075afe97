/**
 * What two lists of names agree on (section 7.1 of RFC 4253): the choices of kex.c
 * on proposals written as lists, for either end.
 */
module KexNames {
  import opened Bytes
  import opened KeyDerivation
  import opened MatchList
  import opened Kex
  import Kexinit

  type Name = seq<byte>

  /** A proposal; `up` is from the client to the server. */
  datatype Names = Names(kex: seq<Name>, hostKey: seq<Name>, encUp: seq<Name>, encDown: seq<Name>,
                         macUp: seq<Name>, macDown: seq<Name>, compUp: seq<Name>, compDown: seq<Name>,
                         langUp: seq<Name>, langDown: seq<Name>)
  {
    function Lists(): Lists {
      [Join(kex), Join(hostKey), Join(encUp), Join(encDown), Join(macUp), Join(macDown), Join(compUp), Join(compDown),
       Join(langUp), Join(langDown)]
    }

    predicate Valid() {
      AreNames(kex) && AreNames(hostKey) && AreNames(encUp) && AreNames(encDown) && AreNames(macUp) && AreNames(macDown) &&
      AreNames(compUp) && AreNames(compDown)
    }
  }

  predicate AreNames(names: seq<Name>) { forall i :: 0 <= i < |names| ==> IsName(names[i]) }

  function FirstForty(names: seq<Name>): seq<Name> { if |names| <= 40 then names else names[..40] }

  /** The earliest of the client's names that is among the server's first forty. */
  predicate Agreed(client: seq<Name>, server: seq<Name>, name: Name) {
    exists i :: 0 <= i < |client| && client[i] == name && name in FirstForty(server) &&
                forall j :: 0 <= j < i ==> client[j] !in FirstForty(server)
  }

  lemma AgreedUnique(client: seq<Name>, server: seq<Name>, n: Name, n': Name)
    requires Agreed(client, server, n) && Agreed(client, server, n')
    ensures n == n'
  {
    var i :| 0 <= i < |client| && client[i] == n && n in FirstForty(server) &&
             forall j :: 0 <= j < i ==> client[j] !in FirstForty(server);
    var k :| 0 <= k < |client| && client[k] == n' && n' in FirstForty(server) &&
             forall j :: 0 <= j < k ==> client[j] !in FirstForty(server);
  }

  /** What match_list finds between two written lists. */
  lemma MatchAgrees(client: seq<Name>, server: seq<Name>)
    requires AreNames(client) && AreNames(server)
    ensures var m := Match(Join(client), Join(server));
            (m.Some? ==> Agreed(client, server, m.value)) && forall n :: Agreed(client, server, n) ==> m == Some(n)
  {
    hide Join, Items;
    ItemsOfJoin(client);
    ItemsOfJoin(server);
    FirstInSpec(client, FirstForty(server));
    var m := Match(Join(client), Join(server));
    if m.Some? {
      forall n | Agreed(client, server, n)
        ensures m == Some(n)
      {
        AgreedUnique(client, server, n, m.value);
      }
    }
  }

  // ----- The names of the algorithms

  function CompName(comp: Comp): string {
    match comp
    case CompNone => "none"
    case CompZlib => "zlib"
    case CompDelayed => "zlib@openssh.com"
  }

  ghost predicate IsMethod(algs: Algorithms, name: Name, kexType: Method, md: Digest) {
    (name == Ascii("diffie-hellman-group1-sha1") && kexType == DhGroup1 && md == algs.sha1) ||
    (name == Ascii("diffie-hellman-group14-sha1") && kexType == DhGroup14 && md == algs.sha1) ||
    (name == Ascii("diffie-hellman-group-exchange-sha1") && kexType == DhGexSha1 && md == algs.sha1) ||
    (name == Ascii("diffie-hellman-group-exchange-sha256") && kexType == DhGexSha256 && md == algs.sha256) ||
    (Ascii("ecdh-sha2-") <= name && kexType == EcdhSha2 && md == algs.ecdh(name))
  }

  // ----- Each choice

  lemma EncAgrees(algs: Algorithms, client: seq<Name>, server: seq<Name>)
    requires AreNames(client) && AreNames(server)
    ensures var enc := ChooseEnc(algs, Join(client), Join(server));
            (enc.Some? <==> exists n :: Agreed(client, server, n) && algs.cipher(n).Some?) &&
            (enc.Some? ==> Agreed(client, server, enc.value.name) &&
                           algs.cipher(enc.value.name) == Some((enc.value.keyLen, enc.value.blockSize)))
  {
    hide Match, Agreed, Join;
    MatchAgrees(client, server);
    var m := Match(Join(client), Join(server));
    if m.Some? && algs.cipher(m.value).Some? {
      var (keyLen, blockSize) := algs.cipher(m.value).value;
      assert ChooseEnc(algs, Join(client), Join(server)) == Some(Enc(m.value, keyLen, blockSize));
    }
  }

  lemma MacAgrees(algs: Algorithms, bugs: Bugs, client: seq<Name>, server: seq<Name>)
    requires AreNames(client) && AreNames(server)
    ensures var mac := ChooseMac(algs, bugs, Join(client), Join(server));
            (mac.Some? <==> exists n :: Agreed(client, server, n) && algs.mac(n).Some?) &&
            (mac.Some? ==> Agreed(client, server, mac.value.name) &&
                           if bugs.hmac then mac.value.keyLen == 16 else algs.mac(mac.value.name) == Some(mac.value.keyLen))
  {
    hide Match, Agreed, Join;
    MatchAgrees(client, server);
  }

  lemma CompAgrees(client: seq<Name>, server: seq<Name>)
    requires AreNames(client) && AreNames(server)
    ensures var comp := ChooseComp(Join(client), Join(server));
            comp.Some? ==> Agreed(client, server, Ascii(CompName(comp.value)))
    ensures ChooseComp(Join(client), Join(server)).Some? <==> exists c :: Agreed(client, server, Ascii(CompName(c)))
  {
    hide Match, Agreed, Join, Ascii;
    MatchAgrees(client, server);
    CompNames();
  }

  lemma CompNames()
    ensures Ascii(CompName(CompNone)) == Ascii("none") && Ascii(CompName(CompZlib)) == Ascii("zlib") &&
            Ascii(CompName(CompDelayed)) == Ascii("zlib@openssh.com")
  {
  }

  lemma KexAgrees(algs: Algorithms, client: seq<Name>, server: seq<Name>)
    requires AreNames(client) && AreNames(server)
    ensures var kex := ChooseKex(algs, Join(client), Join(server));
            kex.Some? ==> Agreed(client, server, kex.value.0) && IsMethod(algs, kex.value.0, kex.value.1, kex.value.2)
    ensures ChooseKex(algs, Join(client), Join(server)).Some? <==>
            exists n, kexType, md :: Agreed(client, server, n) && IsMethod(algs, n, kexType, md)
  {
    hide Match, Agreed, Join, Ascii;
    MatchAgrees(client, server);
    var kex := ChooseKex(algs, Join(client), Join(server));
    if kex.Some? {
      assert IsMethod(algs, kex.value.0, kex.value.1, kex.value.2);
    }
  }

  lemma HostkeyAgrees(algs: Algorithms, client: seq<Name>, server: seq<Name>)
    requires AreNames(client) && AreNames(server)
    ensures var key := ChooseHostkey(algs, Join(client), Join(server));
            (key.Some? <==> exists n :: Agreed(client, server, n) && algs.hostkey(n).Some?) &&
            (key.Some? ==> exists n :: Agreed(client, server, n) && algs.hostkey(n) == key)
  {
    hide Match, Agreed, Join;
    MatchAgrees(client, server);
  }

  /** The algorithms of one direction, on the names each end offered for it. */
  predicate DirectionAgreed(algs: Algorithms, bugs: Bugs, k: Newkeys, enc: seq<Name>, enc': seq<Name>,
                            mac: seq<Name>, mac': seq<Name>, comp: seq<Name>, comp': seq<Name>) {
    Agreed(enc, enc', k.enc.name) && algs.cipher(k.enc.name) == Some((k.enc.keyLen, k.enc.blockSize)) &&
    Agreed(mac, mac', k.mac.name) &&
    (if bugs.hmac then k.mac.keyLen == 16 else algs.mac(k.mac.name) == Some(k.mac.keyLen)) &&
    Agreed(comp, comp', Ascii(CompName(k.comp)))
  }

  ghost predicate DirectionPossible(algs: Algorithms, enc: seq<Name>, enc': seq<Name>,
                                    mac: seq<Name>, mac': seq<Name>, comp: seq<Name>, comp': seq<Name>) {
    (exists n :: Agreed(enc, enc', n) && algs.cipher(n).Some?) && (exists n :: Agreed(mac, mac', n) && algs.mac(n).Some?) &&
    (exists c :: Agreed(comp, comp', Ascii(CompName(c))))
  }

  /** A direction uses the lists of its own slots, the client's first. */
  lemma DirectionAgrees(algs: Algorithms, bugs: Bugs, client: Names, server: Names, ctos: bool)
    requires client.Valid() && server.Valid()
    ensures var k := ChooseMode(algs, bugs, client.Lists(), server.Lists(), ctos);
            if ctos then
              (k.Some? <==> DirectionPossible(algs, client.encUp, server.encUp, client.macUp, server.macUp, client.compUp, server.compUp)) &&
              (k.Some? ==> DirectionAgreed(algs, bugs, k.value, client.encUp, server.encUp, client.macUp, server.macUp, client.compUp, server.compUp))
            else
              (k.Some? <==> DirectionPossible(algs, client.encDown, server.encDown, client.macDown, server.macDown, client.compDown, server.compDown)) &&
              (k.Some? ==> DirectionAgreed(algs, bugs, k.value, client.encDown, server.encDown, client.macDown, server.macDown, client.compDown, server.compDown))
  {
    hide ChooseEnc, ChooseMac, ChooseComp, Agreed, AreNames, Ascii, Join;
    if ctos {
      EncAgrees(algs, client.encUp, server.encUp);
      MacAgrees(algs, bugs, client.macUp, server.macUp);
      CompAgrees(client.compUp, server.compUp);
    } else {
      EncAgrees(algs, client.encDown, server.encDown);
      MacAgrees(algs, bugs, client.macDown, server.macDown);
      CompAgrees(client.compDown, server.compDown);
    }
  }

  // ----- A whole negotiation

  /** Every pair of lists agrees on a name that is supported. */
  ghost predicate Possible(algs: Algorithms, client: Names, server: Names) {
    (exists n, kexType, md :: Agreed(client.kex, server.kex, n) && IsMethod(algs, n, kexType, md)) &&
    (exists n :: Agreed(client.hostKey, server.hostKey, n) && algs.hostkey(n).Some?) &&
    DirectionPossible(algs, client.encUp, server.encUp, client.macUp, server.macUp, client.compUp, server.compUp) &&
    DirectionPossible(algs, client.encDown, server.encDown, client.macDown, server.macDown, client.compDown, server.compDown)
  }

  /** All that the lists determine, seen from the end that sends under `up` or under `down`. */
  ghost predicate AllAgreed(algs: Algorithms, bugs: Bugs, client: Names, server: Names, conf: Conf, up: Newkeys, down: Newkeys) {
    Agreed(client.kex, server.kex, conf.name) && IsMethod(algs, conf.name, conf.kexType, conf.md) &&
    (exists n :: Agreed(client.hostKey, server.hostKey, n) && algs.hostkey(n) == Some(conf.hostkey)) &&
    DirectionAgreed(algs, bugs, up, client.encUp, server.encUp, client.macUp, server.macUp, client.compUp, server.compUp) &&
    DirectionAgreed(algs, bugs, down, client.encDown, server.encDown, client.macDown, server.macDown, client.compDown, server.compDown)
  }

  /** The largest of the lengths of both directions. */
  predicate IsNeed(k: Newkeys, k': Newkeys, need: nat) {
    var lengths := [k.enc.keyLen, k.enc.blockSize, k.mac.keyLen, k'.enc.keyLen, k'.enc.blockSize, k'.mac.keyLen];
    need in lengths && forall i :: 0 <= i < |lengths| ==> lengths[i] <= need
  }

  /**
   * Either end fails exactly when some pair of lists agrees on no supported name.
   * Otherwise every name it uses is the client's earliest among the server's
   * first forty, taken from the lists of its purpose and direction.
   */
  lemma ClientPrefers(algs: Algorithms, bugs: Bugs, server: bool, mine: Names, theirs: Names, follows: nat)
    requires mine.Valid() && theirs.Valid()
    ensures var conf := Negotiate(algs, bugs, server, mine.Lists(), theirs.Lists(), follows);
            if server then
              (conf.Some? <==> Possible(algs, theirs, mine)) &&
              (conf.Some? ==> AllAgreed(algs, bugs, theirs, mine, conf.value, conf.value.newkeys[MODE_IN], conf.value.newkeys[MODE_OUT]))
            else
              (conf.Some? <==> Possible(algs, mine, theirs)) &&
              (conf.Some? ==> AllAgreed(algs, bugs, mine, theirs, conf.value, conf.value.newkeys[MODE_OUT], conf.value.newkeys[MODE_IN]))
    ensures var conf := Negotiate(algs, bugs, server, mine.Lists(), theirs.Lists(), follows);
            conf.Some? ==> IsNeed(conf.value.newkeys[MODE_IN], conf.value.newkeys[MODE_OUT], conf.value.weNeed)
  {
    hide ChooseMode, ChooseKex, ChooseHostkey, Agreed, AreNames, Ascii, Join, DirectionPossible, DirectionAgreed, IsMethod, Guessed, Match;
    var (client, offered) := if server then (theirs, mine) else (mine, theirs);
    DirectionAgrees(algs, bugs, client, offered, true);
    DirectionAgrees(algs, bugs, client, offered, false);
    KexAgrees(algs, client.kex, offered.kex);
    HostkeyAgrees(algs, client.hostKey, offered.hostKey);
  }

  // ----- The guessed packet, and roaming

  function First(names: seq<Name>): Name { if names == [] then [] else names[0] }

  lemma FirstOfJoin(names: seq<Name>)
    requires AreNames(names)
    ensures FirstOf(Join(names)) == First(names)
  {
    hide Comma;
    if |names| == 1 {
      assert names[0] + [] == names[0];
      CommaAfter(names[0], []);
    } else if names != [] {
      var tail := [COMMA] + Join(names[1..]);
      assert Join(names) == names[0] + tail;
      CommaAfter(names[0], tail);
    }
  }

  /** A guessed packet is skipped exactly when one was announced and the first names differ, unless the peer guesses right anyway. */
  lemma SkipsWrongGuess(algs: Algorithms, bugs: Bugs, server: bool, mine: Names, theirs: Names, follows: nat)
    requires mine.Valid() && theirs.Valid()
    ensures var conf := Negotiate(algs, bugs, server, mine.Lists(), theirs.Lists(), follows);
            conf.Some? ==>
              (conf.value.skips <==>
               follows != 0 && !bugs.firstKex &&
               (First(mine.kex) != First(theirs.kex) || First(mine.hostKey) != First(theirs.hostKey)))
  {
    hide ChooseMode, ChooseKex, ChooseHostkey, Match, Ascii, Join, FirstOf, AreNames, First;
    FirstOfJoin(mine.kex);
    FirstOfJoin(theirs.kex);
    FirstOfJoin(mine.hostKey);
    FirstOfJoin(theirs.hostKey);
  }

  /** Only a client takes up roaming, and only if the server offers it. */
  lemma RoamingOffered(algs: Algorithms, bugs: Bugs, server: bool, mine: Names, theirs: Names, follows: nat)
    requires mine.Valid() && theirs.Valid()
    ensures var conf := Negotiate(algs, bugs, server, mine.Lists(), theirs.Lists(), follows);
            conf.Some? ==> (conf.value.roaming <==> !server && Ascii("resume@appgate.com") in FirstForty(theirs.kex))
  {
    hide ChooseMode, ChooseKex, ChooseHostkey, Match, Ascii, Join, Guessed, FirstForty;
    var resume := Ascii("resume@appgate.com");
    ResumeIsName();
    JoinOne(resume);
    MatchAgrees([resume], theirs.kex);
    if resume in FirstForty(theirs.kex) {
      assert [resume][0] == resume && Agreed([resume], theirs.kex, resume);
    }
  }

  lemma JoinOne(name: Name)
    ensures Join([name]) == name
  {
  }

  lemma ResumeIsName()
    ensures IsName(Ascii("resume@appgate.com"))
  {
  }
}
