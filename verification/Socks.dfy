/**
 * SOCKS requests on a dynamically forwarded channel (channels.c; sections 3
 * and 4 of RFC 1928 for SOCKS5), as a function of what has arrived so far.
 */
module Socks {
  import opened Bytes

  const NI_MAXHOST: nat := 1025

  const REPLY4: seq<byte> := [0, 90, 0, 0, 0, 0, 0, 0]
  const METHOD5: seq<byte> := [5, 0]
  const REPLY5: seq<byte> := [5, 0, 0, 1, 0, 0, 0, 0, 0, 0]

  /** The destination: a literal address, which the code prints, or a name. */
  datatype Host = Ip4(addr: seq<byte>) | Ip6(addr: seq<byte>) | Name(name: seq<byte>)

  datatype Status = Reading | Dead | Opening(host: Host, port: nat)

  datatype State = State(status: Status, input: seq<byte>, output: seq<byte>, authDone: bool)

  const INITIAL := State(Reading, [], [], false)

  /** A dead channel keeps nothing. */
  function Kill(s: State): State { s.(status := Dead, input := []) }

  function Port(hi: byte, lo: byte): nat { hi as int * 256 + lo as int }

  // ----- SOCKS4 and SOCKS4A

  datatype Scan = Found(pos: nat) | TooLong | Short

  /** The search for the terminating NULs; the length is only limited where the search has not ended. */
  function ScanNuls(p: seq<byte>, i: nat, need: nat): (r: Scan)
    ensures r.Found? ==> i <= r.pos < |p| && p[r.pos] == 0
    decreases |p| - i
  {
    if i >= |p| then Short
    else if p[i] == 0 && need <= 1 then Found(i)
    else if i > 1024 then TooLong
    else ScanNuls(p, i + 1, if p[i] == 0 then need - 1 else need)
  }

  /** The first NUL from i on, or the end. */
  function Nul(p: seq<byte>, i: nat): (n: nat)
    requires i <= |p|
    ensures i <= n <= |p| && (forall j :: i <= j < n ==> p[j] != 0) && (n < |p| ==> p[n] == 0)
    decreases |p| - i
  {
    if i == |p| || p[i] == 0 then i else Nul(p, i + 1)
  }

  /** 0.0.0.x asks for a host name after the user name. */
  predicate Is4A(p: seq<byte>)
    requires |p| >= 8
  {
    p[4] == 0 && p[5] == 0 && p[6] == 0 && p[7] != 0
  }

  function Host4(p: seq<byte>, pos: nat): Host
    requires 8 <= pos < |p|
  {
    if Is4A(p) && Nul(p, 8) < pos then Name(p[Nul(p, 8) + 1..pos]) else Ip4(p[4..8])
  }

  /** A SOCKS4A host name that no resolver would take; see HostFits. */
  predicate HostTooLong(p: seq<byte>, pos: nat)
    requires 8 <= pos < |p|
  {
    Is4A(p) && pos > Nul(p, 8) + NI_MAXHOST
  }

  function Decode4(s: State): State {
    var p := s.input;
    if |p| < 8 then s
    else match ScanNuls(p, 8, if Is4A(p) then 2 else 1)
      case Short => s
      case TooLong => Kill(s)
      case Found(pos) =>
        if HostTooLong(p, pos) || p[1] != 1 then Kill(s)
        else s.(status := Opening(Host4(p, pos), Port(p[2], p[3])), input := p[pos + 1..], output := s.output + REPLY4)
  }

  // ----- SOCKS5

  /** The greeting: version, count, methods; only "no authentication" will do. */
  function Greet(s: State): State {
    var p := s.input;
    if |p| < 2 || |p| < p[1] as int + 2 then s
    else if 0 in p[2..p[1] as int + 2] then
      s.(input := p[p[1] as int + 2..], output := s.output + METHOD5, authDone := true)
    else Kill(s)
  }

  datatype Form = Bad | Address(at: nat, len: nat)

  /** Where the address is and how long, by its type. */
  function FormOf(p: seq<byte>): Form
    requires |p| >= 5
  {
    if p[3] == 1 then Address(4, 4) else if p[3] == 3 then Address(5, p[4]) else if p[3] == 4 then Address(4, 16) else Bad
  }

  function Host5(kind: byte, addr: seq<byte>): Host {
    if kind == 1 then Ip4(addr) else if kind == 4 then Ip6(addr) else Name(addr[..Nul(addr, 0)])
  }

  function Request5(s: State): State {
    var p := s.input;
    if |p| < 5 then s
    else if p[1] != 1 || p[2] != 0 || FormOf(p).Bad? then Kill(s)
    else
      var Address(at, len) := FormOf(p);
      var end := at + len;
      if |p| < end + 2 then s
      else s.(status := Opening(Host5(p[3], p[at..end]), Port(p[end], p[end + 1])), input := p[end + 2..],
              output := s.output + REPLY5)
  }

  function Decode5(s: State): State {
    if s.authDone then Request5(s) else Greet(s)
  }

  /** channel_pre_dynamic */
  function Poll(s: State): State {
    if s.status != Reading || |s.input| < 3 then s
    else if s.input[0] == 4 then Decode4(s)
    else if s.input[0] == 5 then Decode5(s)
    else Kill(s)
  }

  // ----- Schedules

  function Arrive(s: State, chunk: seq<byte>): State {
    if s.status == Dead then s else s.(input := s.input + chunk)
  }

  datatype Event = Data(chunk: seq<byte>) | Turn

  function Step(s: State, e: Event): State {
    match e
    case Data(chunk) => Arrive(s, chunk)
    case Turn => Poll(s)
  }

  function Run(s: State, es: seq<Event>): State
    decreases |es|
  {
    if es == [] then s else Run(Step(s, es[0]), es[1..])
  }

  function Arrivals(es: seq<Event>): seq<byte>
    decreases |es|
  {
    if es == [] then [] else (if es[0].Data? then es[0].chunk else []) + Arrivals(es[1..])
  }

  /** Two more turns of the loop: one may answer the greeting, the other the request. */
  function Settle(s: State): State { Poll(Poll(s)) }

  lemma {:induction false} ScanStable(p: seq<byte>, f: seq<byte>, i: nat, need: nat)
    ensures ScanNuls(p, i, need) != Short ==> ScanNuls(p + f, i, need) == ScanNuls(p, i, need)
    decreases |p| - i
  {
    if i < |p| {
      ScanStable(p, f, i + 1, if p[i] == 0 && need > 0 then need - 1 else need);
    }
  }

  lemma {:induction false} NulStable(p: seq<byte>, f: seq<byte>, i: nat)
    requires i <= |p|
    ensures Nul(p, i) < |p| ==> Nul(p + f, i) == Nul(p, i)
    decreases |p| - i
  {
    if i < |p| {
      NulStable(p, f, i + 1);
    }
  }

  lemma HostStable(p: seq<byte>, f: seq<byte>, pos: nat)
    requires 8 <= pos < |p|
    ensures Host4(p + f, pos) == Host4(p, pos) && HostTooLong(p + f, pos) == HostTooLong(p, pos)
  {
    NulStable(p, f, 8);
    assert (p + f)[4..8] == p[4..8];
    var n := Nul(p, 8);
    if n < pos {
      assert (p + f)[n + 1..pos] == p[n + 1..pos];
    } else if n == |p| {
      NulBeyond(p, f, 8);
    }
  }

  lemma {:induction false} NulBeyond(p: seq<byte>, f: seq<byte>, i: nat)
    requires i <= |p| && Nul(p, i) == |p|
    ensures Nul(p + f, i) >= |p|
    decreases |p| - i
  {
    if i < |p| {
      NulBeyond(p, f, i + 1);
    }
  }

  lemma {:induction false} ScanBound(p: seq<byte>, i: nat, need: nat)
    requires i <= 1025
    ensures ScanNuls(p, i, need).Found? ==> ScanNuls(p, i, need).pos <= 1025
    decreases |p| - i
  {
    if i < |p| && i <= 1024 {
      ScanBound(p, i + 1, if p[i] == 0 && need > 0 then need - 1 else need);
    }
  }

  /** The limit on the search is the stricter one: the host name is never found too long. */
  lemma HostFits(p: seq<byte>, need: nat)
    requires |p| >= 8 && ScanNuls(p, 8, need).Found?
    ensures !HostTooLong(p, ScanNuls(p, 8, need).pos)
  {
    hide ScanNuls;
    ScanBound(p, 8, need);
  }

  lemma Decode4Stable(s: State, f: seq<byte>)
    requires s.status == Reading && Decode4(s) != s
    ensures Decode4(Arrive(s, f)) == Arrive(Decode4(s), f)
  {
    hide ScanNuls, Host4, HostTooLong;
    var p := s.input;
    var need := if Is4A(p) then 2 else 1;
    ScanStable(p, f, 8, need);
    var r := ScanNuls(p, 8, need);
    if r.Found? {
      HostStable(p, f, r.pos);
      assert (p + f)[r.pos + 1..] == p[r.pos + 1..] + f;
    }
  }

  lemma GreetStable(s: State, f: seq<byte>)
    requires s.status == Reading && Greet(s) != s
    ensures Greet(Arrive(s, f)) == Arrive(Greet(s), f)
  {
    var p := s.input;
    var n := p[1] as int + 2;
    SliceOfLonger(p, f, 2, n);
    RestOfLonger(p, f, n);
  }

  lemma SliceOfLonger(p: seq<byte>, f: seq<byte>, a: nat, b: nat)
    requires a <= b <= |p|
    ensures (p + f)[a..b] == p[a..b]
  {
  }

  lemma RestOfLonger(p: seq<byte>, f: seq<byte>, a: nat)
    requires a <= |p|
    ensures (p + f)[a..] == p[a..] + f
  {
  }

  lemma Request5Stable(s: State, f: seq<byte>)
    requires s.status == Reading && Request5(s) != s
    ensures Request5(Arrive(s, f)) == Arrive(Request5(s), f)
  {
    hide Host5;
    var p := s.input;
    if FormOf(p).Address? {
      var Address(at, len) := FormOf(p);
      var end := at + len;
      if |p| >= end + 2 {
        SliceOfLonger(p, f, at, end);
        RestOfLonger(p, f, end + 2);
      }
    }
  }

  /** A turn that acts would have acted in the same way had more bytes been there. */
  lemma PollStable(s: State, f: seq<byte>)
    requires Poll(s) != s
    ensures Poll(Arrive(s, f)) == Arrive(Poll(s), f)
  {
    hide Decode4, Greet, Request5;
    if s.input[0] == 4 {
      Decode4Stable(s, f);
    } else if s.input[0] == 5 {
      if s.authDone {
        Request5Stable(s, f);
      } else {
        GreetStable(s, f);
      }
    }
  }

  /** Turns still to act. */
  function Rank(s: State): nat {
    if s.status != Reading then 0 else if s.authDone then 1 else 2
  }

  lemma PollDescends(s: State)
    ensures Poll(s) == s || Rank(Poll(s)) < Rank(s)
  {
    hide ScanNuls, Host4, Host5, HostTooLong;
  }

  lemma SettleAfterPoll(s: State)
    ensures Settle(Poll(s)) == Settle(s)
  {
    hide Poll;
    PollDescends(s);
    PollDescends(Poll(s));
    PollDescends(Poll(Poll(s)));
  }

  lemma ArriveTwice(s: State, a: seq<byte>, b: seq<byte>)
    ensures Arrive(Arrive(s, a), b) == Arrive(s, a + b)
  {
    if s.status != Dead {
      assert s.input + a + b == s.input + (a + b);
    }
  }

  lemma {:induction false} RunSettles(s: State, es: seq<Event>)
    ensures Settle(Run(s, es)) == Settle(Arrive(s, Arrivals(es)))
    decreases |es|
  {
    hide Poll, Settle, Arrive;
    if es == [] {
      ArriveNothing(s);
    } else {
      var rest := Arrivals(es[1..]);
      RunSettles(Step(s, es[0]), es[1..]);
      match es[0]
      case Data(chunk) => ArriveTwice(s, chunk, rest);
      case Turn =>
        assert [] + rest == rest;
        if Poll(s) != s {
          PollStable(s, rest);
          SettleAfterPoll(Arrive(s, rest));
        }
    }
  }

  lemma ArriveNothing(s: State)
    ensures Arrive(s, []) == s
  {
    assert s.input + [] == s.input;
  }

  /**
   * However the bytes are cut into chunks and whenever the loop turns, the
   * channel settles in the same state: dead, or opening to the same host and
   * port with the same bytes left over and the same replies sent.
   */
  lemma ScheduleIndependent(es: seq<Event>, es': seq<Event>)
    requires Arrivals(es) == Arrivals(es')
    ensures Settle(Run(INITIAL, es)) == Settle(Run(INITIAL, es'))
  {
    hide Settle, Run;
    RunSettles(INITIAL, es);
    RunSettles(INITIAL, es');
  }

  /** A turn that leaves the channel reading takes either nothing or one whole greeting. */
  lemma NeedMore(s: State)
    requires s.status == Reading && Poll(s).status == Reading
    ensures Poll(s) == s ||
            (!s.authDone && |s.input| >= 3 && s.input[0] == 5 && |s.input| >= s.input[1] as int + 2 &&
             Poll(s) == State(Reading, s.input[s.input[1] as int + 2..], s.output + METHOD5, true))
  {
    hide ScanNuls, Host4, Host5, HostTooLong;
  }

  // ----- Requests as clients write them

  datatype Target = Target(host: Host, port: nat)
  {
    predicate Representable() {
      port < 0x10000 &&
      match host
      case Ip4(addr) => |addr| == 4
      case Ip6(addr) => |addr| == 16
      case Name(name) => forall i :: 0 <= i < |name| ==> name[i] != 0
    }

    /** SOCKS5 gives the length of a name in one byte. */
    predicate Short() { host.Name? ==> |host.name| < 256 }
  }

  function PortBytes(port: nat): seq<byte>
    requires port < 0x10000
  {
    [port / 256, port % 256]
  }

  /** SOCKS4 for an address, SOCKS4A for a name. */
  function Head4(t: Target): seq<byte>
    requires t.Representable() && !t.host.Ip6?
  {
    [4, 1, t.port / 256, t.port % 256] + if t.host.Ip4? then t.host.addr else [0, 0, 0, 1]
  }

  function Write4(t: Target, user: seq<byte>): seq<byte>
    requires t.Representable() && !t.host.Ip6?
  {
    Head4(t) + user + [0] + if t.host.Name? then t.host.name + [0] else []
  }

  function Tail4(t: Target, rest: seq<byte>): seq<byte> {
    if t.host.Name? then t.host.name + [0] + rest else rest
  }

  /** A request and what follows it, by its parts. */
  function Full4(t: Target, user: seq<byte>, rest: seq<byte>): seq<byte>
    requires t.Representable() && !t.host.Ip6?
  {
    Head4(t) + user + [0] + Tail4(t, rest)
  }

  lemma Parts4(t: Target, user: seq<byte>, rest: seq<byte>)
    requires t.Representable() && !t.host.Ip6?
    ensures Write4(t, user) + rest == Full4(t, user, rest)
    ensures |Write4(t, user)| == 9 + |user| + if t.host.Name? then |t.host.name| + 1 else 0
  {
    hide Head4;
    assert |Head4(t)| == 8 by { Head4Length(t); }
  }

  lemma Head4Length(t: Target)
    requires t.Representable() && !t.host.Ip6?
    ensures |Head4(t)| == 8 && Head4(t)[0] == 4 && Head4(t)[1] == 1 && Port(Head4(t)[2], Head4(t)[3]) == t.port
    ensures t.host.Ip4? ==> Head4(t)[4..8] == t.host.addr
  {
  }

  lemma ArriveFirst(p: seq<byte>)
    ensures Arrive(INITIAL, p) == State(Reading, p, [], false)
  {
    assert [] + p == p;
  }

  function Head5(t: Target): seq<byte>
    requires t.Representable() && t.Short()
  {
    match t.host
    case Ip4(_) => [5, 1, 0, 1]
    case Ip6(_) => [5, 1, 0, 4]
    case Name(name) => [5, 1, 0, 3, |name|]
  }

  function Bytes5(t: Target): seq<byte> { if t.host.Name? then t.host.name else t.host.addr }

  function Write5(t: Target): seq<byte>
    requires t.Representable() && t.Short()
  {
    Head5(t) + Bytes5(t) + PortBytes(t.port)
  }

  function Greeting(methods: seq<byte>): seq<byte>
    requires |methods| < 256
  {
    [5, |methods|] + methods
  }

  lemma Slots(head: seq<byte>, addr: seq<byte>, port: nat, rest: seq<byte>)
    requires port < 0x10000
    ensures var p := head + addr + PortBytes(port) + rest;
            var end := |head| + |addr|;
            |p| == end + 2 + |rest| && p[|head|..end] == addr && Port(p[end], p[end + 1]) == port && p[end + 2..] == rest &&
            p[..|head|] == head && forall i :: 0 <= i < |head| ==> p[i] == head[i]
  {
  }

  lemma {:induction false} NulAfter(p: seq<byte>, i: nat, n: nat)
    requires i <= n < |p| && p[n] == 0 && forall j :: i <= j < n ==> p[j] != 0
    ensures Nul(p, i) == n
    decreases n - i
  {
    if i < n {
      NulAfter(p, i + 1, n);
    }
  }

  lemma NoNul(name: seq<byte>)
    requires forall i :: 0 <= i < |name| ==> name[i] != 0
    ensures name[..Nul(name, 0)] == name
  {
  }

  /** A SOCKS5 request, once the greeting is over, is decoded exactly and the rest left alone. */
  lemma Read5(s: State, t: Target, rest: seq<byte>)
    requires s.status == Reading && s.authDone && t.Representable() && t.Short()
    ensures Poll(s.(input := Write5(t) + rest)) ==
            State(Opening(t.host, t.port), rest, s.output + REPLY5, true)
  {
    hide Nul, Port, PortBytes, Decode4, Greet;
    Slots(Head5(t), Bytes5(t), t.port, rest);
    var p := Head5(t) + Bytes5(t) + PortBytes(t.port) + rest;
    assert p[3] == Head5(t)[3] && p[4..5] == [p[4]];
    if t.host.Name? {
      assert p[4] == Head5(t)[4];
      NoNul(t.host.name);
    }
  }

  lemma ReadGreeting(methods: seq<byte>, tail: seq<byte>)
    requires |methods| < 256 && 0 in methods
    ensures var p := Greeting(methods) + tail;
            |p| >= 3 && p[0] == 5 && Greet(State(Reading, p, [], false)) == State(Reading, tail, METHOD5, true)
  {
    var p := Greeting(methods) + tail;
    var n := |methods| + 2;
    assert p[2..n] == methods && p[n..] == tail;
  }

  /** Any greeting that offers no authentication, then a request: the whole dialogue is understood. */
  lemma Dialogue5(methods: seq<byte>, t: Target, rest: seq<byte>)
    requires |methods| < 256 && 0 in methods && t.Representable() && t.Short()
    ensures Settle(Arrive(INITIAL, Greeting(methods) + (Write5(t) + rest))) ==
            State(Opening(t.host, t.port), rest, METHOD5 + REPLY5, true)
  {
    hide Request5, Write5, Greet, Greeting;
    var p := Greeting(methods) + (Write5(t) + rest);
    assert Arrive(INITIAL, p) == State(Reading, p, [], false);
    ReadGreeting(methods, Write5(t) + rest);
    assert Poll(State(Reading, p, [], false)) == State(Reading, Write5(t) + rest, METHOD5, true);
    Read5(State(Reading, [], METHOD5, true), t, rest);
  }

  lemma {:induction false} ScanOne(p: seq<byte>, i: nat, n: nat)
    requires i <= n < |p| && n <= 1025 && p[n] == 0 && forall j :: i <= j < n ==> p[j] != 0
    ensures ScanNuls(p, i, 1) == Found(n)
    ensures n <= 1024 ==> ScanNuls(p, i, 2) == ScanNuls(p, n + 1, 1)
    decreases n - i
  {
    if i < n {
      ScanOne(p, i + 1, n);
    }
  }

  lemma Slots4(head: seq<byte>, user: seq<byte>, tail: seq<byte>)
    requires forall i :: 0 <= i < |user| ==> user[i] != 0
    ensures var p := head + user + [0] + tail;
            var u := |head| + |user|;
            p[u] == 0 && (forall j :: |head| <= j < u ==> p[j] != 0) && p[u + 1..] == tail && p[..|head|] == head &&
            forall i :: 0 <= i < |head| ==> p[i] == head[i]
  {
    var p := head + user + [0] + tail;
    assert forall j :: |head| <= j < |head| + |user| ==> p[j] == user[j - |head|];
  }

  lemma SlotsName(head: seq<byte>, user: seq<byte>, name: seq<byte>, rest: seq<byte>)
    requires (forall i :: 0 <= i < |user| ==> user[i] != 0) && forall i :: 0 <= i < |name| ==> name[i] != 0
    ensures var p := head + user + [0] + (name + [0] + rest);
            var u := |head| + |user|;
            var h := u + 1 + |name|;
            p[h] == 0 && (forall j :: u < j < h ==> p[j] != 0) && p[u + 1..h] == name && p[h + 1..] == rest
  {
    var p := head + user + [0] + (name + [0] + rest);
    var u := |head| + |user|;
    assert p[u + 1..] == name + [0] + rest;
    Slots4([], name, rest);
    assert [] + name + [0] + rest == name + [0] + rest;
    assert forall j :: u < j <= u + 1 + |name| ==> p[j] == p[u + 1..][j - u - 1];
  }

  /** What the scan and the host come to for a request of one string. */
  lemma ReadOne(p: seq<byte>, u: nat)
    requires 8 <= u < |p| && u <= 1025 && p[u] == 0 && (forall j :: 8 <= j < u ==> p[j] != 0) && !Is4A(p)
    requires p[0] == 4 && p[1] == 1
    ensures Poll(State(Reading, p, [], false)) ==
            State(Opening(Ip4(p[4..8]), Port(p[2], p[3])), p[u + 1..], REPLY4, false)
  {
    hide Nul, ScanNuls, Port, HostTooLong;
    ScanOne(p, 8, u);
    HostFits(p, 1);
  }

  /** And of two. */
  lemma ReadTwo(p: seq<byte>, u: nat, h: nat)
    requires 8 <= u < h < |p| && h <= 1025 && p[u] == 0 && (forall j :: 8 <= j < u ==> p[j] != 0) && Is4A(p)
    requires p[h] == 0 && forall j :: u < j < h ==> p[j] != 0
    requires p[0] == 4 && p[1] == 1
    ensures Poll(State(Reading, p, [], false)) ==
            State(Opening(Name(p[u + 1..h]), Port(p[2], p[3])), p[h + 1..], REPLY4, false)
  {
    hide Nul, ScanNuls, Port, HostTooLong;
    ScanOne(p, 8, u);
    ScanOne(p, u + 1, h);
    NulAfter(p, 8, u);
    HostFits(p, 2);
  }

  /** A SOCKS4 or SOCKS4A request whose last NUL is within the first 1026 bytes is decoded exactly. */
  lemma Dialogue4(t: Target, user: seq<byte>, rest: seq<byte>)
    requires t.Representable() && !t.host.Ip6? && (forall i :: 0 <= i < |user| ==> user[i] != 0)
    requires t.host.Ip4? ==> !Is4A(Head4(t))
    requires |Write4(t, user)| <= 1026
    ensures Settle(Arrive(INITIAL, Write4(t, user) + rest)) == State(Opening(t.host, t.port), rest, REPLY4, false)
  {
    hide Poll, Write4, Head4, Full4;
    var p := Write4(t, user) + rest;
    Parts4(t, user, rest);
    ArriveFirst(p);
    Read4(t, user, rest);
    PollStops(Poll(State(Reading, p, [], false)));
  }

  lemma PollStops(s: State)
    ensures s.status != Reading ==> Poll(s) == s
  {
  }

  lemma SameHead(p: seq<byte>, head: seq<byte>)
    requires |head| == 8 <= |p| && forall i :: 0 <= i < 8 ==> p[i] == head[i]
    ensures Is4A(p) == Is4A(head) && p[4..8] == head[4..8]
  {
  }

  lemma NameHead(t: Target)
    requires t.Representable() && t.host.Name?
    ensures Is4A(Head4(t))
  {
  }

  /** Where everything lies in a request. */
  lemma Layout4(t: Target, user: seq<byte>, rest: seq<byte>)
    requires t.Representable() && !t.host.Ip6? && (forall i :: 0 <= i < |user| ==> user[i] != 0)
    ensures var p, u := Full4(t, user, rest), 8 + |user|;
            u < |p| && p[u] == 0 && (forall j :: 8 <= j < u ==> p[j] != 0) &&
            p[0] == 4 && p[1] == 1 && Port(p[2], p[3]) == t.port && Is4A(p) == Is4A(Head4(t)) &&
            (t.host.Ip4? ==> p[4..8] == t.host.addr && p[u + 1..] == rest)
  {
    hide Is4A, Head4, Port;
    Head4Length(t);
    Slots4(Head4(t), user, Tail4(t, rest));
    SameHead(Full4(t, user, rest), Head4(t));
  }

  lemma LayoutName(t: Target, user: seq<byte>, rest: seq<byte>)
    requires t.Representable() && t.host.Name? && (forall i :: 0 <= i < |user| ==> user[i] != 0)
    ensures var p, u, h := Full4(t, user, rest), 8 + |user|, 9 + |user| + |t.host.name|;
            h < |p| && p[h] == 0 && (forall j :: u < j < h ==> p[j] != 0) && p[u + 1..h] == t.host.name && p[h + 1..] == rest
  {
    hide Head4;
    Head4Length(t);
    SlotsName(Head4(t), user, t.host.name, rest);
  }

  lemma Read4(t: Target, user: seq<byte>, rest: seq<byte>)
    requires t.Representable() && !t.host.Ip6? && (forall i :: 0 <= i < |user| ==> user[i] != 0)
    requires t.host.Ip4? ==> !Is4A(Head4(t)) && |user| <= 1017
    requires t.host.Name? ==> |user| + |t.host.name| <= 1016
    ensures Poll(State(Reading, Full4(t, user, rest), [], false)) == State(Opening(t.host, t.port), rest, REPLY4, false)
  {
    hide Poll, Is4A, Head4, Port, Full4;
    var p, u := Full4(t, user, rest), 8 + |user|;
    Layout4(t, user, rest);
    if t.host.Ip4? {
      ReadOne(p, u);
    } else {
      LayoutName(t, user, rest);
      NameHead(t);
      ReadTwo(p, u, u + 1 + |t.host.name|);
    }
  }

  lemma {:induction false} ScanRunsOn(p: seq<byte>, i: nat, need: nat)
    requires need >= 1 && i <= 1025 < |p| && forall j :: i <= j <= 1025 ==> p[j] != 0
    ensures ScanNuls(p, i, need) == TooLong
    decreases 1025 - i
  {
    if i < 1025 {
      ScanRunsOn(p, i + 1, need);
    }
  }

  lemma {:induction false} ScanFirstLate(p: seq<byte>, i: nat)
    requires i <= 1025 < |p| && p[1025] == 0 && forall j :: i <= j < 1025 ==> p[j] != 0
    ensures ScanNuls(p, i, 2) == TooLong
    decreases 1025 - i
  {
    if i < 1025 {
      ScanFirstLate(p, i + 1);
    }
  }

  /** The scan gives up when the last NUL it needs is past the limit. */
  lemma ScanOverlong(p: seq<byte>, u: nat, h: nat, two: bool)
    requires 8 <= u < |p| && p[u] == 0 && forall j :: 8 <= j < u ==> p[j] != 0
    requires if two then u < h < |p| && h > 1025 && forall j :: u < j < h ==> p[j] != 0 else u > 1025
    ensures ScanNuls(p, 8, if two then 2 else 1) == TooLong
  {
    hide ScanNuls;
    if u > 1025 {
      ScanRunsOn(p, 8, if two then 2 else 1);
    } else if u == 1025 {
      ScanFirstLate(p, 8);
    } else {
      ScanOne(p, 8, u);
      ScanRunsOn(p, u + 1, 1);
    }
  }

  lemma ScanKills(p: seq<byte>)
    requires |p| >= 8 && p[0] == 4 && ScanNuls(p, 8, if Is4A(p) then 2 else 1) == TooLong
    ensures Settle(State(Reading, p, [], false)) == Kill(INITIAL)
  {
    hide ScanNuls, Is4A;
  }

  /** A longer request kills the channel, however far it would still have gone. */
  lemma Overlong4(t: Target, user: seq<byte>, rest: seq<byte>)
    requires t.Representable() && !t.host.Ip6? && (forall i :: 0 <= i < |user| ==> user[i] != 0)
    requires t.host.Ip4? ==> !Is4A(Head4(t))
    requires |Write4(t, user)| > 1026
    ensures Settle(Arrive(INITIAL, Write4(t, user) + rest)) == Kill(INITIAL)
  {
    hide Settle, Is4A, ScanNuls, Write4, Head4, Port, Full4;
    var p, u := Full4(t, user, rest), 8 + |user|;
    Parts4(t, user, rest);
    ArriveFirst(p);
    Layout4(t, user, rest);
    if t.host.Name? {
      NameHead(t);
      LayoutName(t, user, rest);
      ScanOverlong(p, u, u + 1 + |t.host.name|, true);
    } else {
      ScanOverlong(p, u, 0, false);
    }
    ScanKills(p);
  }
}
