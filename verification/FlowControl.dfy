/**
 * Two ends of one stream channel joined by two FIFO links (section 5.2 of RFC 4254).
 *
 * A run interleaves, in any order, the handlers of Channels at either end,
 * partial reads and writes of the local descriptors, and any phase change that
 * nchan.c can make.  The results are about every run.
 */
module FlowControl {
  import opened Bytes
  import opened Buffers
  import opened Channels

  /**
   * One end: its channel, the messages travelling towards it, the bytes its
   * descriptors have yet to deliver, and the bytes written out so far.
   * `injected` counts the SOCKS reply bytes put into `output` before the channel opened.
   */
  datatype Half = Half(
    e: Endpoint,
    inbox: seq<Message>,
    source: seq<byte>,
    esource: seq<byte>,
    sink: seq<byte>,
    esink: seq<byte>,
    injected: nat)

  datatype Action =
    | Send
    | Adjust
    | Deliver
    | ReadFd(n: nat)
    | WriteFd(n: nat)
    | ReadEfd(n: nat)
    | WriteEfd(n: nat)
    | Transition(phase: Phase)

  /** Closing is final: an output side, an extended descriptor or a sent flag never comes back. */
  predicate PhaseStep(p: Phase, q: Phase) {
    (q.ostate.OutputOpen? ==> p.ostate.OutputOpen?) && (q.efd ==> p.efd) &&
    (p.closing ==> q.closing) && (p.eofSent ==> q.eofSent)
  }

  /** chan_shutdown_write drops the buffered output when the output side closes. */
  function Enter(e: Endpoint, phase: Phase): Endpoint {
    e.(phase := phase, output := if phase.ostate.OutputClosed? then [] else e.output)
  }

  /** One step of `me`, with its effect on the link towards `peer`.  A disabled action changes nothing. */
  function Act(me: Half, peer: Half, act: Action): (Half, Half) {
    match act
    case Send =>
      var (e, sent) := Poll(me.e);
      (me.(e := e), peer.(inbox := peer.inbox + sent))
    case Adjust =>
      var (e, sent) := Replenish(me.e);
      (me.(e := e), peer.(inbox := peer.inbox + sent))
    case Deliver =>
      if me.inbox == [] then (me, peer)
      else (me.(e := Take(me.e, me.inbox[0]), inbox := me.inbox[1..]), peer)
    case ReadFd(n) =>
      if !Readable(me.e) then (me, peer) else
        var k := Min(Min(n, CHAN_RBUF), |me.source|);
        (me.(e := me.e.(input := me.e.input + me.source[..k]), source := me.source[k..]), peer)
    case WriteFd(n) =>
      if !Writable(me.e) then (me, peer) else
        var k := Min(n, |me.e.output|);
        (me.(e := Written(me.e, k), sink := me.sink + me.e.output[..k]), peer)
    case ReadEfd(n) =>
      if !ExtendedReadable(me.e) then (me, peer) else
        var k := Min(Min(n, CHAN_RBUF), |me.esource|);
        var extended := if me.e.usage.Ignore? then me.e.extended else me.e.extended + me.esource[..k];
        (me.(e := me.e.(extended := extended), esource := me.esource[k..]), peer)
    case WriteEfd(n) =>
      if !ExtendedWritable(me.e) then (me, peer) else
        var k := Min(n, |me.e.extended|);
        (me.(e := ExtendedWritten(me.e, k), esink := me.esink + me.e.extended[..k]), peer)
    case Transition(phase) =>
      if PhaseStep(me.e.phase, phase) then (me.(e := Enter(me.e, phase)), peer) else (me, peer)
  }

  // ----- Accounting

  /** Window bytes a message takes, and window bytes it grants. */
  function Charge(m: Message): nat { if m.WindowAdjust? then 0 else |m.data| }

  function Grant(m: Message): nat { if m.WindowAdjust? then m.adjust else 0 }

  function InFlight(ms: seq<Message>): nat {
    if ms == [] then 0 else Charge(ms[0]) + InFlight(ms[1..])
  }

  function Granted(ms: seq<Message>): nat {
    if ms == [] then 0 else Grant(ms[0]) + Granted(ms[1..])
  }

  lemma {:induction false} SumsOfConcat(ms: seq<Message>, ns: seq<Message>)
    ensures InFlight(ms + ns) == InFlight(ms) + InFlight(ns)
    ensures Granted(ms + ns) == Granted(ms) + Granted(ns)
  {
    if ms == [] {
      assert ms + ns == ns;
    } else {
      SumsOfConcat(ms[1..], ns);
      assert (ms + ns)[1..] == ms[1..] + ns;
    }
  }

  /** The receiver's share of the window: open, consumed but not handed back, or still buffered. */
  function Held(e: Endpoint): nat {
    e.localWindow + e.localConsumed + |e.output| + if e.usage.Write? then |e.extended| else 0
  }

  /** What the sender may use, has in flight, or is about to be granted. */
  function Credit(sender: Half, receiver: Half): nat {
    sender.e.remoteWindow + InFlight(receiver.inbox) + Granted(sender.inbox)
  }

  predicate Flow(sender: Half, receiver: Half) {
    Credit(sender, receiver) <= receiver.e.localWindow
  }

  predicate Budget(h: Half) {
    Held(h.e) <= h.e.localWindowMax + h.injected < 0x1_0000_0000
  }

  predicate PacketsWithin(ms: seq<Message>, maxpacket: nat) {
    forall m :: m in ms ==> Charge(m) <= maxpacket
  }

  predicate SafeTowards(sender: Half, receiver: Half) {
    Flow(sender, receiver) && Budget(receiver) && PacketsWithin(receiver.inbox, sender.e.remoteMaxpacket)
  }

  predicate Safe(a: Half, b: Half) {
    SafeTowards(a, b) && SafeTowards(b, a)
  }

  /** A poll turns remote window into data in flight, packet by packet. */
  lemma PollSums(e: Endpoint)
    ensures var (e', ms) := Poll(e);
            e'.remoteWindow + InFlight(ms) == e.remoteWindow && Granted(ms) == 0 &&
            PacketsWithin(ms, e.remoteMaxpacket) && Held(e') == Held(e) &&
            e'.remoteMaxpacket == e.remoteMaxpacket &&
            e'.localWindow == e.localWindow && e'.localWindowMax == e.localWindowMax
  {
    var (e1, m1) := PollInput(e);
    var (e2, m2) := PollExtended(e1);
    SumsOfConcat(m1, m2);
    PollInputSums(e);
    PollExtendedSums(e1);
  }

  lemma PollInputSums(e: Endpoint)
    ensures var (e', ms) := PollInput(e);
            e'.remoteWindow + InFlight(ms) == e.remoteWindow && Granted(ms) == 0
  {
  }

  lemma PollExtendedSums(e: Endpoint)
    ensures var (e', ms) := PollExtended(e);
            e'.remoteWindow + InFlight(ms) == e.remoteWindow && Granted(ms) == 0
  {
  }

  /**
   * Data that the window covers moves its charge from the window to the output
   * buffer or, once the output side is no longer open, to the bytes to be handed
   * back; extended data does where it is wanted.  So no window is lost.
   */
  lemma TakeExact(e: Endpoint, m: Message)
    requires m.ExtendedData? ==> e.usage.Write? && e.phase.efd
    requires Charge(m) <= e.localWindow && e.remoteWindow + Grant(m) < 0x1_0000_0000 && Held(e) < 0x1_0000_0000
    ensures var e' := Take(e, m);
            e'.remoteWindow == e.remoteWindow + Grant(m) && e'.localWindow == e.localWindow - Charge(m) &&
            Held(e') == Held(e)
  {
  }

  /** A received message that the window covers takes at most its charge and loses nothing else. */
  lemma TakeSums(e: Endpoint, m: Message)
    requires Charge(m) <= e.localWindow && e.remoteWindow + Grant(m) < 0x1_0000_0000 && Held(e) < 0x1_0000_0000
    ensures var e' := Take(e, m);
            e'.remoteWindow == e.remoteWindow + Grant(m) && e'.localWindow >= e.localWindow - Charge(m) &&
            Held(e') <= Held(e) && e'.remoteMaxpacket == e.remoteMaxpacket && e'.localWindowMax == e.localWindowMax
  {
  }

  lemma SendSafe(me: Half, peer: Half)
    requires Safe(me, peer)
    ensures var (me', peer') := Act(me, peer, Send); Safe(me', peer')
  {
    hide Poll, Held;
    PollSums(me.e);
    SumsOfConcat(peer.inbox, Poll(me.e).1);
  }

  lemma AdjustSafe(me: Half, peer: Half)
    requires Safe(me, peer)
    ensures var (me', peer') := Act(me, peer, Adjust); Safe(me', peer')
  {
    var (e, ms) := Replenish(me.e);
    SumsOfConcat(peer.inbox, ms);
    assert InFlight(ms) == 0 && Granted(ms) == e.localWindow - me.e.localWindow;
  }

  lemma DeliverSafe(me: Half, peer: Half)
    requires Safe(me, peer)
    ensures var (me', peer') := Act(me, peer, Deliver); Safe(me', peer')
  {
    hide Take, Held;
    if me.inbox != [] {
      TakeSums(me.e, me.inbox[0]);
    }
  }

  predicate Local(act: Action) {
    !act.Send? && !act.Adjust? && !act.Deliver?
  }

  lemma ReadFdSafe(me: Half, peer: Half, n: nat)
    requires Safe(me, peer)
    ensures var (me', peer') := Act(me, peer, ReadFd(n)); Safe(me', peer') && peer' == peer
  {
    hide InFlight, Granted, PacketsWithin;
  }

  lemma WriteFdSafe(me: Half, peer: Half, n: nat)
    requires Safe(me, peer)
    ensures var (me', peer') := Act(me, peer, WriteFd(n)); Safe(me', peer') && peer' == peer
  {
    hide InFlight, Granted, PacketsWithin;
  }

  lemma ReadEfdSafe(me: Half, peer: Half, n: nat)
    requires Safe(me, peer)
    ensures var (me', peer') := Act(me, peer, ReadEfd(n)); Safe(me', peer') && peer' == peer
  {
    hide InFlight, Granted, PacketsWithin;
  }

  lemma WriteEfdSafe(me: Half, peer: Half, n: nat)
    requires Safe(me, peer)
    ensures var (me', peer') := Act(me, peer, WriteEfd(n)); Safe(me', peer') && peer' == peer
  {
    hide InFlight, Granted, PacketsWithin;
  }

  lemma TransitionSafe(me: Half, peer: Half, phase: Phase)
    requires Safe(me, peer)
    ensures var (me', peer') := Act(me, peer, Transition(phase)); Safe(me', peer') && peer' == peer
  {
    hide InFlight, Granted, PacketsWithin;
  }

  lemma LocalSafe(me: Half, peer: Half, act: Action)
    requires Safe(me, peer) && Local(act)
    ensures var (me', peer') := Act(me, peer, act); Safe(me', peer') && peer' == peer
  {
    hide Safe, Act;
    match act
    case ReadFd(n) => ReadFdSafe(me, peer, n);
    case WriteFd(n) => WriteFdSafe(me, peer, n);
    case ReadEfd(n) => ReadEfdSafe(me, peer, n);
    case WriteEfd(n) => WriteEfdSafe(me, peer, n);
    case Transition(phase) => TransitionSafe(me, peer, phase);
  }

  /** The limits agreed when the channel was opened. */
  predicate SameLimits(h: Half, h': Half) {
    h'.e.localWindowMax == h.e.localWindowMax && h'.e.localMaxpacket == h.e.localMaxpacket &&
    h'.e.remoteMaxpacket == h.e.remoteMaxpacket && h'.e.usage == h.e.usage && h'.injected == h.injected
  }

  lemma ActLimits(me: Half, peer: Half, act: Action)
    ensures var (me', peer') := Act(me, peer, act); SameLimits(me, me') && SameLimits(peer, peer')
  {
  }

  /** Every step of either end keeps the accounts. */
  lemma ActSafe(me: Half, peer: Half, act: Action)
    requires Safe(me, peer)
    ensures var (me', peer') := Act(me, peer, act);
            Safe(me', peer') && SameLimits(me, me') && SameLimits(peer, peer')
  {
    hide Safe;
    ActLimits(me, peer, act);
    match act
    case Send => SendSafe(me, peer);
    case Adjust => AdjustSafe(me, peer);
    case Deliver => DeliverSafe(me, peer);
    case _ => LocalSafe(me, peer, act);
  }

  // ----- Runs

  datatype System = System(a: Half, b: Half)

  /** One action of the left or the right end. */
  datatype Event = Event(left: bool, act: Action)

  function Step(s: System, ev: Event): System {
    if ev.left then
      var (a, b) := Act(s.a, s.b, ev.act);
      System(a, b)
    else
      var (b, a) := Act(s.b, s.a, ev.act);
      System(a, b)
  }

  function Run(s: System, evs: seq<Event>): System
    decreases |evs|
  {
    if evs == [] then s else Run(Step(s, evs[0]), evs[1..])
  }

  /**
   * Each end has just been opened: it may send what the other end advertised,
   * at once or after the window adjusts on their way to it (a server session
   * is opened with no window and grants it when its descriptors are set up).
   * A dynamic forwarding already holds what followed its SOCKS request.
   */
  predicate JustOpened(h: Half, peer: Half) {
    (forall m :: m in h.inbox ==> m.WindowAdjust?) && h.sink == h.esink == [] &&
    h.e.remoteWindow + Granted(h.inbox) == peer.e.localWindow == peer.e.localWindowMax &&
    h.e.remoteMaxpacket == peer.e.localMaxpacket &&
    h.e.extended == [] &&
    h.e.localConsumed + |h.e.output| == h.injected &&
    h.e.localWindowMax + h.injected < 0x1_0000_0000 &&
    h.e.phase == Phase(InputOpen, OutputOpen, false, false, h.e.phase.efd)
  }

  predicate Initial(s: System) {
    JustOpened(s.a, s.b) && JustOpened(s.b, s.a)
  }

  /** A session: the client was opened with a window of 0, and the server's first adjust is on its way. */
  lemma SessionStart(window: u32, maxpack: u32, swindow: u32, smaxpack: u32, usage: Usage, susage: Usage, efd: bool, sefd: bool,
                     source: seq<byte>, ssource: seq<byte>, esource: seq<byte>)
    ensures var client := Half(Opened(window, maxpack, usage, efd, 0, smaxpack, [], 0), [WindowAdjust(swindow)],
                               source, [], [], [], 0);
            var server := Half(Opened(0, smaxpack, susage, sefd, window, maxpack, [], 0)
                               .(localWindow := swindow, localWindowMax := swindow), [], ssource, esource, [], [], 0);
            Initial(System(client, server)) && Initial(System(server, client))
  {
    assert Granted([WindowAdjust(swindow)]) == swindow + Granted([]);
  }

  /** A dynamic forwarding: replies sent or waiting, and bytes that came after the request. */
  lemma DynamicStart(window: u32, maxpack: u32, rwindow: u32, rmaxpack: u32, replies: seq<byte>, replied: u32,
                     early: seq<byte>, source: seq<byte>, psource: seq<byte>)
    requires window + |replies| + replied < 0x1_0000_0000
    ensures var near := Half(Opened(window, maxpack, Ignore, false, rwindow, rmaxpack, replies, replied).(input := early), [],
                             source, [], [], [], |replies| + replied);
            var far := Half(Opened(rwindow, rmaxpack, Ignore, false, window, maxpack, [], 0), [], psource, [], [], [], 0);
            Initial(System(near, far))
  {
  }

  lemma {:induction false} RunSafe(s: System, evs: seq<Event>)
    requires Safe(s.a, s.b)
    ensures var t := Run(s, evs); Safe(t.a, t.b) && SameLimits(s.a, t.a) && SameLimits(s.b, t.b)
    decreases |evs|
  {
    if evs != [] {
      if evs[0].left {
        ActSafe(s.a, s.b, evs[0].act);
      } else {
        ActSafe(s.b, s.a, evs[0].act);
      }
      RunSafe(Step(s, evs[0]), evs[1..]);
    }
  }

  /**
   * The "rcvd too much data" branches are dead and no window arithmetic wraps:
   * the next message is covered by the window, and every sum stays below 2^32.
   */
  predicate NoOverrun(me: Half) {
    (me.inbox != [] ==>
       Charge(me.inbox[0]) <= me.e.localWindow &&
       me.e.remoteWindow + Grant(me.inbox[0]) < 0x1_0000_0000 &&
       me.e.localConsumed + Charge(me.inbox[0]) < 0x1_0000_0000) &&
    me.e.localConsumed + |me.e.output| < 0x1_0000_0000 &&
    (me.e.usage.Write? ==> me.e.localConsumed + |me.e.extended| < 0x1_0000_0000) &&
    me.e.localWindow + me.e.localConsumed < 0x1_0000_0000
  }

  /** Every append the handlers may make next is within what the allocator always supports. */
  predicate AppendsFit(me: Half) {
    (me.inbox != [] && me.inbox[0].Data? ==>
       |me.inbox[0].data| <= BUFFER_MAX_CHUNK && |me.e.output| + |me.inbox[0].data| <= SAFE_CONTENTS) &&
    (me.inbox != [] && me.inbox[0].ExtendedData? && me.e.usage.Write? ==>
       |me.inbox[0].data| <= BUFFER_MAX_CHUNK && |me.e.extended| + |me.inbox[0].data| <= SAFE_CONTENTS) &&
    (Readable(me.e) ==> |me.e.input| + CHAN_RBUF <= SAFE_CONTENTS) &&
    (ExtendedReadable(me.e) ==> |me.e.extended| + CHAN_RBUF <= SAFE_CONTENTS)
  }

  /** Windows and packets that the buffers can hold. */
  predicate FitsBuffers(h: Half) {
    h.e.localWindowMax + h.injected <= SAFE_CONTENTS - CHAN_RBUF && h.e.localMaxpacket <= BUFFER_MAX_CHUNK
  }

  /** Flow-control safety, and with it the absence of fatal appends, in every reachable state. */
  lemma FlowControlSafety(s: System, evs: seq<Event>)
    requires Initial(s)
    ensures var t := Run(s, evs);
            Safe(t.a, t.b) && NoOverrun(t.a) && NoOverrun(t.b) &&
            (FitsBuffers(s.a) && FitsBuffers(s.b) ==> AppendsFit(t.a) && AppendsFit(t.b))
  {
    InitialSafe(s);
    RunSafe(s, evs);
  }

  /** The default 2 MB window with the SOCKS replies of a dynamic forwarding fits the buffers. */
  lemma DefaultWindowFits(h: Half)
    requires h.e.localWindowMax == CHAN_SES_WINDOW_DEFAULT && h.e.localMaxpacket == CHAN_SES_PACKET_DEFAULT
    requires h.injected <= 2 + 10
    ensures FitsBuffers(h)
  {
  }

  /** Window adjusts take no window. */
  lemma {:induction false} AdjustsCarryNothing(ms: seq<Message>)
    requires forall m :: m in ms ==> m.WindowAdjust?
    ensures InFlight(ms) == 0
  {
    if ms != [] {
      assert ms[0] in ms;
      AdjustsCarryNothing(ms[1..]);
    }
  }

  lemma InitialSafe(s: System)
    requires Initial(s)
    ensures Safe(s.a, s.b)
  {
    AdjustsCarryNothing(s.a.inbox);
    AdjustsCarryNothing(s.b.inbox);
  }

  // ----- What the sending side buffers

  /** A read starts below the peer's window and takes one read buffer. */
  function Readahead(peer: Half): nat { peer.e.localWindowMax + peer.injected + CHAN_RBUF - 1 }

  predicate InputWithin(h: Half, early: nat, limit: nat) {
    (|h.e.input| <= early || |h.e.input| <= limit) && (h.e.usage.Read? ==> |h.e.extended| <= limit)
  }

  lemma ActInput(me: Half, peer: Half, act: Action, early: nat)
    requires Safe(me, peer) && InputWithin(me, early, Readahead(peer))
    ensures var (me', peer') := Act(me, peer, act);
            InputWithin(me', early, Readahead(peer')) && peer'.e.input == peer.e.input &&
            peer'.e.extended == peer.e.extended
  {
    hide InFlight, Granted, PacketsWithin;
  }

  lemma {:induction false} RunInput(s: System, evs: seq<Event>, earlyA: nat, earlyB: nat)
    requires Safe(s.a, s.b) && InputWithin(s.a, earlyA, Readahead(s.b)) && InputWithin(s.b, earlyB, Readahead(s.a))
    ensures var t := Run(s, evs); InputWithin(t.a, earlyA, Readahead(t.b)) && InputWithin(t.b, earlyB, Readahead(t.a))
    decreases |evs|
  {
    hide Act, Safe;
    if evs != [] {
      var ev := evs[0];
      var t := Step(s, ev);
      SafeEitherWay(s.a, s.b);
      if ev.left {
        ActSafe(s.a, s.b, ev.act);
        ActInput(s.a, s.b, ev.act, earlyA);
      } else {
        ActSafe(s.b, s.a, ev.act);
        ActInput(s.b, s.a, ev.act, earlyB);
      }
      SafeEitherWay(t.a, t.b);
      RunInput(t, evs[1..], earlyA, earlyB);
    }
  }

  lemma SafeEitherWay(a: Half, b: Half)
    ensures Safe(a, b) == Safe(b, a)
  {
  }

  /** In every run an end buffers for sending less than the peer's window and one read, apart from early input. */
  lemma InputBounded(s: System, evs: seq<Event>)
    requires Initial(s)
    ensures var t := Run(s, evs);
            InputWithin(t.a, |s.a.e.input|, Readahead(s.b)) && InputWithin(t.b, |s.b.e.input|, Readahead(s.a))
  {
    InitialSafe(s);
    hide Safe, Run;
    RunInput(s, evs, |s.a.e.input|, |s.b.e.input|);
    RunSafe(s, evs);
  }
}
