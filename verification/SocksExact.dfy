/** Exactly which bytes open a channel, and that a killed channel could not have been saved by any further bytes. */
module SocksExact {
  import opened Bytes
  import opened Socks

  predicate NulFree(s: seq<byte>) { forall i :: 0 <= i < |s| ==> s[i] != 0 }

  // ----- SOCKS5 requests

  /** A CONNECT for an address of type 1 or 4, or a name, which is 3. */
  predicate Sized5(kind: byte, raw: seq<byte>) {
    (kind == 1 && |raw| == 4) || (kind == 3 && |raw| < 256) || (kind == 4 && |raw| == 16)
  }

  function Raw5(kind: byte, raw: seq<byte>, port: nat): seq<byte>
    requires Sized5(kind, raw) && port < 0x1_0000
  {
    [5, 1, 0, kind] + (if kind == 3 then [|raw|] else []) + raw + [port / 256, port % 256]
  }

  predicate Encodes5(p: seq<byte>, kind: byte, raw: seq<byte>, port: nat, rest: seq<byte>) {
    Sized5(kind, raw) && port < 0x1_0000 && p == Raw5(kind, raw, port) + rest
  }

  /** The destination: a name ends at its first NUL. */
  predicate Denotes(kind: byte, raw: seq<byte>, host: Host) {
    if kind == 1 then host == Ip4(raw)
    else if kind == 4 then host == Ip6(raw)
    else host.Name? && NulFree(host.name) && (raw == host.name || host.name + [0] <= raw)
  }

  lemma HostDenoted(kind: byte, raw: seq<byte>)
    requires Sized5(kind, raw)
    ensures Denotes(kind, raw, Host5(kind, raw))
  {
    if kind == 3 {
      var n := Nul(raw, 0);
      if n < |raw| {
        assert raw[..n + 1] == raw[..n] + [0];
      } else {
        assert raw[..n] == raw;
      }
    }
  }

  /** Where the parts of an encoded request are. */
  lemma Layout5(p: seq<byte>, kind: byte, raw: seq<byte>, port: nat, rest: seq<byte>)
    requires Encodes5(p, kind, raw, port, rest)
    ensures var at := if kind == 3 then 5 else 4;
            var end := at + |raw|;
            |p| >= end + 2 && p[0] == 5 && p[1] == 1 && p[2] == 0 && p[3] == kind && (kind == 3 ==> p[4] == |raw|) &&
            p[at..end] == raw && Port(p[end], p[end + 1]) == port && p[end + 2..] == rest
  {
    hide Port;
    Slots([5, 1, 0, kind] + if kind == 3 then [|raw|] else [], raw, port, rest);
  }

  /** An encoded request opens the channel to what it denotes. */
  lemma Encoded5Opens(s: State, kind: byte, raw: seq<byte>, port: nat, rest: seq<byte>)
    requires s.status == Reading && s.authDone && Encodes5(s.input, kind, raw, port, rest)
    ensures Poll(s) == State(Opening(Host5(kind, raw), port), rest, s.output + REPLY5, true)
  {
    hide Encodes5, Host5, Port, Decode4, Greet;
    Sized(s.input, kind, raw, port, rest);
    Layout5(s.input, kind, raw, port, rest);
  }

  lemma Sized(p: seq<byte>, kind: byte, raw: seq<byte>, port: nat, rest: seq<byte>)
    requires Encodes5(p, kind, raw, port, rest)
    ensures Sized5(kind, raw)
  {
  }

  lemma Cut(p: seq<byte>, a: nat, b: nat, c: nat)
    requires a <= b <= c <= |p|
    ensures p == p[..a] + p[a..b] + p[b..c] + p[c..]
  {
  }

  lemma PortSlot(p: seq<byte>, end: nat)
    requires end + 2 <= |p|
    ensures var port := Port(p[end], p[end + 1]); port < 0x1_0000 && [port / 256, port % 256] == p[end..end + 2]
  {
  }

  lemma HeadSlot(p: seq<byte>, at: nat, len: nat)
    requires |p| >= 5 && p[0] == 5 && p[1] == 1 && p[2] == 0 && FormOf(p) == Address(at, len)
    ensures at <= 5 && p[..at] == [5, 1, 0, p[3]] + if p[3] == 3 then [len] else []
  {
  }

  /** Bytes that fill a request of the right form are its encoding. */
  lemma Encoding5(p: seq<byte>, at: nat, end: nat)
    requires |p| >= 5 && p[0] == 5 && p[1] == 1 && p[2] == 0 && at <= end && FormOf(p) == Address(at, end - at) && end + 2 <= |p|
    ensures Encodes5(p, p[3], p[at..end], Port(p[end], p[end + 1]), p[end + 2..])
  {
    HeadSlot(p, at, end - at);
    PortSlot(p, end);
    Cut(p, at, end, end + 2);
    hide Port;
  }

  ghost predicate Complete5(p: seq<byte>) {
    exists kind, raw, port, rest :: Encodes5(p, kind, raw, port, rest)
  }

  /**
   * After the greeting: the channel opens exactly on a complete encoded request;
   * it dies exactly when five bytes or more are there that no further bytes make one.
   */
  lemma Request5Exact(s: State)
    requires s.status == Reading && s.authDone && |s.input| >= 3 && s.input[0] == 5
    ensures Poll(s).status.Opening? <==> Complete5(s.input)
    ensures Poll(s).status.Dead? <==> |s.input| >= 5 && forall more :: !Complete5(s.input + more)
  {
    var p := s.input;
    if Complete5(p) {
      var kind, raw, port, rest :| Encodes5(p, kind, raw, port, rest);
      Encoded5Opens(s, kind, raw, port, rest);
      assert p + [] == p;
    }
    if Poll(s).status.Opening? {
      var Address(at, len) := FormOf(p);
      Encoding5(p, at, at + len);
    }
    hide Encodes5, Host5, Port, Decode4, Greet;
    if Poll(s).status.Dead? {
      forall more
        ensures !Complete5(p + more)
      {
        assert p[1] == (p + more)[1] && p[2] == (p + more)[2] && p[3] == (p + more)[3];
        if Complete5(p + more) {
          Complete5Form(p + more);
        }
      }
    } else if |p| >= 5 {
      Completable5(p);
    }
  }

  lemma Complete5Form(p: seq<byte>)
    requires Complete5(p)
    ensures |p| >= 6 && p[0] == 5 && p[1] == 1 && p[2] == 0 && p[3] in {1, 3, 4}
  {
    hide Encodes5, Port;
    var kind, raw, port, rest :| Encodes5(p, kind, raw, port, rest);
    Sized(p, kind, raw, port, rest);
    Layout5(p, kind, raw, port, rest);
  }

  /** A request whose first bytes are right can be completed. */
  lemma Completable5(p: seq<byte>)
    requires |p| >= 5 && p[0] == 5 && p[1] == 1 && p[2] == 0 && FormOf(p).Address?
    ensures exists more :: Complete5(p + more)
  {
    hide Encodes5;
    var Address(at, len) := FormOf(p);
    var end := at + len;
    var more: seq<byte> := seq(end + 2, _ => 0);
    var q := p + more;
    assert forall i :: 0 <= i < 5 ==> q[i] == p[i];
    FormByBytes(p, q);
    assert end - at == len;
    Encoding5(q, at, end);
    assert Complete5(q);
  }

  lemma FormByBytes(p: seq<byte>, q: seq<byte>)
    requires |p| >= 5 && |q| >= 5 && p[3] == q[3] && p[4] == q[4]
    ensures FormOf(p) == FormOf(q)
  {
  }

  // ----- SOCKS5 greetings

  /** The greeting is answered exactly if it is complete and offers no authentication, and refused if it is complete and does not. */
  lemma GreetingExact(s: State)
    requires s.status == Reading && !s.authDone && |s.input| >= 3 && s.input[0] == 5
    ensures Poll(s).authDone <==> exists methods, rest :: |methods| < 256 && 0 in methods && s.input == Greeting(methods) + rest
    ensures Poll(s).status.Dead? <==> exists methods, rest :: |methods| < 256 && 0 !in methods && s.input == Greeting(methods) + rest
    ensures !Poll(s).status.Opening?
  {
    hide Decode4, Request5;
    var p := s.input;
    var n := p[1] as int + 2;
    if |p| >= n {
      assert p == Greeting(p[2..n]) + p[n..];
    }
    forall methods, rest | |methods| < 256 && p == Greeting(methods) + rest
      ensures |p| >= n && p[2..n] == methods
    {
      assert p[1] == |methods|;
      assert p[2..n] == methods;
    }
  }

  // ----- SOCKS4

  predicate Wild(addr: seq<byte>) { |addr| == 4 && addr[0] == 0 && addr[1] == 0 && addr[2] == 0 && addr[3] != 0 }

  /** Version, CONNECT, port, address, user name, and after an address 0.0.0.x a host name. */
  function Raw4(port: nat, addr: seq<byte>, user: seq<byte>, name: seq<byte>): seq<byte>
    requires port < 0x1_0000
  {
    [4, 1, port / 256, port % 256] + addr + user + [0] + if Wild(addr) then name + [0] else []
  }

  /** A complete request, whose last NUL is within the reach of the search. */
  predicate Encodes4(p: seq<byte>, port: nat, addr: seq<byte>, user: seq<byte>, name: seq<byte>, rest: seq<byte>) {
    port < 0x1_0000 && |addr| == 4 && NulFree(user) && NulFree(name) && (!Wild(addr) ==> name == []) &&
    p == Raw4(port, addr, user, name) + rest && |Raw4(port, addr, user, name)| <= 1026
  }

  ghost predicate Complete4(p: seq<byte>) {
    exists port, addr, user, name, rest :: Encodes4(p, port, addr, user, name, rest)
  }

  function Host4Of(addr: seq<byte>, name: seq<byte>): Host { if Wild(addr) then Name(name) else Ip4(addr) }

  lemma Layout4(p: seq<byte>, port: nat, addr: seq<byte>, user: seq<byte>, name: seq<byte>, rest: seq<byte>)
    requires Encodes4(p, port, addr, user, name, rest)
    ensures var u := 8 + |user|;
            |p| > u && p[0] == 4 && p[1] == 1 && Port(p[2], p[3]) == port && p[4..8] == addr && Is4A(p) == Wild(addr) &&
            p[u] == 0 && (forall j :: 8 <= j < u ==> p[j] != 0) && u <= 1025 &&
            if Wild(addr) then
              var h := u + 1 + |name|;
              |p| > h && p[h] == 0 && (forall j :: u < j < h ==> p[j] != 0) && h <= 1025 && p[u + 1..h] == name && p[h + 1..] == rest
            else p[u + 1..] == rest
  {
    var head := [4, 1, port / 256, port % 256] + addr;
    if Wild(addr) {
      assert p == head + user + [0] + (name + [0] + rest);
      Slots4(head, user, name + [0] + rest);
      SlotsName(head, user, name, rest);
    } else {
      assert p == head + user + [0] + rest;
      Slots4(head, user, rest);
    }
    assert p[4..8] == head[4..8] == addr;
  }

  lemma Encoded4Opens(s: State, port: nat, addr: seq<byte>, user: seq<byte>, name: seq<byte>, rest: seq<byte>)
    requires s.status == Reading && Encodes4(s.input, port, addr, user, name, rest)
    ensures Poll(s) == State(Opening(Host4Of(addr, name), port), rest, s.output + REPLY4, s.authDone)
  {
    hide Encodes4, Nul, ScanNuls, Port, HostTooLong, Wild, Request5, Greet;
    var (p, u) := (s.input, 8 + |user|);
    Layout4(p, port, addr, user, name, rest);
    ScanOne(p, 8, u);
    NulAfter(p, 8, u);
    if Wild(addr) {
      ScanOne(p, u + 1, u + 1 + |name|);
      HostFits(p, 2);
    } else {
      HostFits(p, 1);
    }
  }

  /** The scan ends at the first NUL, or at the second. */
  lemma {:induction false} ScanFound(p: seq<byte>, i: nat, need: nat)
    requires i <= |p| && i <= 1025 && 1 <= need <= 2 && ScanNuls(p, i, need).Found?
    ensures var (pos, n) := (ScanNuls(p, i, need).pos, Nul(p, i));
            pos <= 1025 && n < |p| && if need == 1 then pos == n else n < pos && pos == Nul(p, n + 1)
    decreases |p| - i
  {
    if p[i] == 0 && need == 2 {
      ScanFound(p, i + 1, 1);
    } else if p[i] != 0 {
      ScanFound(p, i + 1, need);
    }
  }

  lemma Head4At(p: seq<byte>)
    requires |p| >= 8 && p[0] == 4 && p[1] == 1
    ensures var port := Port(p[2], p[3]);
            port < 0x1_0000 && Wild(p[4..8]) == Is4A(p) && p[..8] == [4, 1, port / 256, port % 256] + p[4..8]
  {
  }

  lemma EncodingPlain(p: seq<byte>, n: nat)
    requires 8 <= n < |p| && n <= 1025 && p[0] == 4 && p[1] == 1 && !Is4A(p) && p[n] == 0 && forall j :: 8 <= j < n ==> p[j] != 0
    ensures Encodes4(p, Port(p[2], p[3]), p[4..8], p[8..n], [], p[n + 1..])
  {
    Head4At(p);
    hide Port, Wild, Is4A;
    var (head, user) := (p[..8], p[8..n]);
    assert p[..n + 1] == head + user + [0];
    assert Raw4(Port(p[2], p[3]), p[4..8], user, []) == p[..n + 1];
    assert p == p[..n + 1] + p[n + 1..];
  }

  lemma EncodingWild(p: seq<byte>, n: nat, h: nat)
    requires 8 <= n < h < |p| && h <= 1025 && p[0] == 4 && p[1] == 1 && Is4A(p)
    requires p[n] == 0 && (forall j :: 8 <= j < n ==> p[j] != 0) && p[h] == 0 && forall j :: n < j < h ==> p[j] != 0
    ensures Encodes4(p, Port(p[2], p[3]), p[4..8], p[8..n], p[n + 1..h], p[h + 1..])
  {
    Head4At(p);
    hide Port, Wild, Is4A;
    var (head, user, name) := (p[..8], p[8..n], p[n + 1..h]);
    assert p[..h + 1] == head + user + [0] + (name + [0]);
    assert Raw4(Port(p[2], p[3]), p[4..8], user, name) == p[..h + 1];
    assert p == p[..h + 1] + p[h + 1..];
  }

  lemma Encoding4(p: seq<byte>)
    requires |p| >= 8 && p[0] == 4 && p[1] == 1 && ScanNuls(p, 8, if Is4A(p) then 2 else 1).Found?
    ensures Complete4(p)
  {
    hide ScanNuls, Encodes4, Port, Is4A;
    var need := if Is4A(p) then 2 else 1;
    ScanFound(p, 8, need);
    var (pos, n) := (ScanNuls(p, 8, need).pos, Nul(p, 8));
    if Is4A(p) {
      EncodingWild(p, n, pos);
      assert Encodes4(p, Port(p[2], p[3]), p[4..8], p[8..n], p[n + 1..pos], p[pos + 1..]);
    } else {
      EncodingPlain(p, n);
      assert Encodes4(p, Port(p[2], p[3]), p[4..8], p[8..n], [], p[n + 1..]);
    }
  }

  /** A SOCKS4 request opens the channel exactly if it is complete and within reach; a killed one could not be completed. */
  lemma Request4Exact(s: State)
    requires s.status == Reading && |s.input| >= 3 && s.input[0] == 4
    ensures Poll(s).status.Opening? <==> Complete4(s.input)
    ensures Poll(s).status.Dead? ==> forall more :: !Complete4(s.input + more)
  {
    var p := s.input;
    hide Encodes4, ScanNuls, Host4, Port, HostTooLong, Request5, Greet;
    if Complete4(p) {
      var port, addr, user, name, rest :| Encodes4(p, port, addr, user, name, rest);
      Encoded4Opens(s, port, addr, user, name, rest);
    }
    if Poll(s).status.Opening? {
      Encoding4(p);
    }
    if Poll(s).status.Dead? {
      forall more
        ensures !Complete4(p + more)
      {
        if Complete4(p + more) {
          var port, addr, user, name, rest :| Encodes4(p + more, port, addr, user, name, rest);
          Decode4Stable(s, more);
          Encoded4Opens(Arrive(s, more), port, addr, user, name, rest);
          PollStable(s, more);
        }
      }
    }
  }

  /** Any other version kills the channel. */
  lemma OtherVersion(s: State)
    requires s.status == Reading && |s.input| >= 3 && s.input[0] != 4 && s.input[0] != 5
    ensures Poll(s).status.Dead?
  {
  }

  // ----- From the first byte

  /** A request in either version. */
  ghost predicate Requests(p: seq<byte>) { Complete4(p) || Complete5(p) }

  /**
   * However the bytes arrive, the channel settles on opening exactly if they are a
   * SOCKS4 request, or a SOCKS5 greeting that offers no authentication and then a request.
   */
  lemma OpensExactly(es: seq<Event>)
    ensures Settle(Run(INITIAL, es)).status.Opening? <==>
            var p := Arrivals(es);
            Complete4(p) || exists methods, rest :: |methods| < 256 && 0 in methods && p == Greeting(methods) + rest && Requests(rest)
  {
    hide Run, Settle, Complete4, Requests, Greeting;
    var p := Arrivals(es);
    RunSettles(INITIAL, es);
    ArriveFirst(p);
    SettledExactly(p);
  }

  lemma SettledExactly(p: seq<byte>)
    ensures Settle(State(Reading, p, [], false)).status.Opening? <==>
            Complete4(p) || exists methods, rest :: |methods| < 256 && 0 in methods && p == Greeting(methods) + rest && Requests(rest)
  {
    hide Decode4, Greet, Request5, Complete4, Complete5, Greeting, Requests;
    var s := State(Reading, p, [], false);
    if Complete4(p) {
      Complete4Starts(p);
    }
    if methods, rest :| |methods| < 256 && 0 in methods && p == Greeting(methods) + rest {
      GreetingStarts(methods, rest);
      AfterGreeting(methods, rest);
      GreetingUnique(p, methods, rest);
    } else if |p| >= 3 && p[0] == 4 {
      Unanswered(s);
      Request4Exact(s);
      Acted(s);
    } else if |p| >= 3 && p[0] == 5 {
      GreetingExact(s);
      Acted(s);
    }
  }

  lemma Unanswered(s: State)
    requires s.status == Reading && !s.authDone && |s.input| >= 3 && s.input[0] == 4
    ensures !Poll(s).authDone
  {
    hide ScanNuls, Host4, HostTooLong;
  }

  lemma Complete4Starts(p: seq<byte>)
    requires Complete4(p)
    ensures |p| > 8 && p[0] == 4
  {
    hide Encodes4, Port, Is4A, Wild;
    var port, addr, user, name, rest :| Encodes4(p, port, addr, user, name, rest);
    Layout4(p, port, addr, user, name, rest);
  }

  lemma GreetingStarts(methods: seq<byte>, rest: seq<byte>)
    requires |methods| < 256 && 0 in methods
    ensures var p := Greeting(methods) + rest; |p| >= 3 && p[0] == 5
  {
  }

  /** A turn that does not answer a greeting is the only one that counts. */
  lemma Acted(s: State)
    requires s.status == Reading && !s.authDone && !Poll(s).authDone
    ensures Settle(s).status.Opening? <==> Poll(s).status.Opening?
  {
    hide Decode4, Greet, Request5;
    if Poll(s).status == Reading {
      NeedMore(s);
    }
  }

  lemma RequestOpens(s: State)
    requires s.status == Reading && s.authDone
    ensures Poll(s).status.Opening? <==> Requests(s.input)
  {
    hide Complete4, Complete5, Decode4, Greet, Request5;
    var p := s.input;
    if Complete4(p) {
      Complete4Starts(p);
    }
    if Complete5(p) {
      Complete5Form(p);
    }
    if |p| >= 3 && p[0] == 4 {
      Request4Exact(s);
    } else if |p| >= 3 && p[0] == 5 {
      Request5Exact(s);
    }
  }

  lemma AfterGreeting(methods: seq<byte>, rest: seq<byte>)
    requires |methods| < 256 && 0 in methods
    ensures Settle(State(Reading, Greeting(methods) + rest, [], false)).status.Opening? <==> Requests(rest)
  {
    hide Complete4, Complete5, Greet, Request5, Decode4, Greeting;
    ReadGreeting(methods, rest);
    assert Poll(State(Reading, Greeting(methods) + rest, [], false)) == State(Reading, rest, METHOD5, true);
    RequestOpens(State(Reading, rest, METHOD5, true));
  }

  lemma GreetingUnique(p: seq<byte>, methods: seq<byte>, rest: seq<byte>)
    requires |methods| < 256 && p == Greeting(methods) + rest
    ensures forall methods', rest' :: |methods'| < 256 && p == Greeting(methods') + rest' ==> methods' == methods && rest' == rest
  {
    forall methods', rest' | |methods'| < 256 && p == Greeting(methods') + rest'
      ensures methods' == methods && rest' == rest
    {
      assert p[1] == |methods| == |methods'|;
      assert p[2..2 + |methods|] == methods && p[2..2 + |methods|] == methods' && p[2 + |methods|..] == rest && p[2 + |methods|..] == rest';
    }
  }
}
