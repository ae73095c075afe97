/**
 * Progress of a channel: two live ends never deadlock on their windows, and any
 * fair schedule delivers any finite payload.
 */
module FlowProgress {
  import opened Bytes
  import opened Buffers
  import opened Channels
  import opened FlowControl
  import opened FlowStreams

  /**
   * Not being closed, able to move the bytes it holds, and able to use its extended
   * descriptor if it has extended data.  Its output side may be closed already.
   */
  predicate Live(h: Half) {
    !h.e.phase.closing && !FullyClosed(h.e) && h.e.remoteMaxpacket > 0 &&
    (h.source != [] ==> h.e.phase.istate.InputOpen?) &&
    (h.e.input != [] ==> h.e.phase.istate.InputOpen? || h.e.phase.istate.InputWaitDrain?) &&
    (h.e.output != [] ==> h.e.phase.ostate.OutputOpen? || h.e.phase.ostate.OutputWaitDrain?) &&
    (h.e.phase.eofSent ==> h.esource == [] && (h.e.usage.Read? ==> h.e.extended == [])) &&
    (h.e.usage.Write? ==> h.esource == []) &&
    (h.e.phase.efd || (h.esource == [] && !h.e.usage.Write?)) &&
    (h.e.usage.Ignore? ==> h.e.extended == [])
  }

  /** Nothing the sender sends will be discarded, and every byte of window is accounted for. */
  predicate ExactTowards(sender: Half, receiver: Half) {
    Credit(sender, receiver) == receiver.e.localWindow &&
    Held(receiver.e) <= receiver.e.localWindowMax + receiver.injected < 0x1_0000_0000 &&
    (sender.e.usage.Read? ==> receiver.e.usage.Write?) &&
    (forall m :: m in receiver.inbox && m.ExtendedData? ==> receiver.e.usage.Write?)
  }

  predicate Exact(a: Half, b: Half) {
    Live(a) && Live(b) && ExactTowards(a, b) && ExactTowards(b, a)
  }

  /** Neither end's share of its window changes. */
  predicate SameHeld(a: Half, b: Half, a': Half, b': Half) {
    Held(a'.e) == Held(a.e) && Held(b'.e) == Held(b.e)
  }

  lemma SendExact(me: Half, peer: Half)
    requires Exact(me, peer)
    ensures var (me', peer') := Act(me, peer, Send); Exact(me', peer') && SameHeld(me, peer, me', peer')
  {
    PollSums(me.e);
    SumsOfConcat(peer.inbox, Poll(me.e).1);
    assert forall m :: m in Poll(me.e).1 && m.ExtendedData? ==> me.e.usage.Read?;
  }

  lemma AdjustExact(me: Half, peer: Half)
    requires Exact(me, peer)
    ensures var (me', peer') := Act(me, peer, Adjust); Exact(me', peer') && SameHeld(me, peer, me', peer')
  {
    var (e, ms) := Replenish(me.e);
    SumsOfConcat(peer.inbox, ms);
    assert InFlight(ms) == 0 && Granted(ms) == e.localWindow - me.e.localWindow;
  }

  lemma DeliverExact(me: Half, peer: Half)
    requires Exact(me, peer)
    ensures var (me', peer') := Act(me, peer, Deliver); Exact(me', peer') && SameHeld(me, peer, me', peer')
  {
    if me.inbox != [] {
      var m := me.inbox[0];
      assert m in me.inbox;
      assert forall m :: m in me.inbox[1..] ==> m in me.inbox;
      TakeExact(me.e, m);
      TakeLive(me, m);
      hide Take, Held, Live;
    }
  }

  /** Taking a message leaves an end able to move what it holds. */
  lemma TakeLive(h: Half, m: Message)
    requires Live(h) && (m.ExtendedData? ==> h.e.usage.Write?)
    ensures var e := Take(h.e, m);
            Live(h.(e := e, inbox := h.inbox[if h.inbox == [] then 0 else 1..])) &&
            e == h.e.(remoteWindow := e.remoteWindow, localWindow := e.localWindow, localConsumed := e.localConsumed,
                      output := e.output, extended := e.extended)
  {
  }

  lemma LocalExact(me: Half, peer: Half, act: Action)
    requires Exact(me, peer) && Local(act) && !act.Transition?
    ensures var (me', peer') := Act(me, peer, act); Exact(me', peer') && SameHeld(me, peer, me', peer')
  {
    hide Act, Exact;
    match act
    case ReadFd(n) => ReadFdExact(me, peer, n);
    case WriteFd(n) => WriteFdExact(me, peer, n);
    case ReadEfd(n) => ReadEfdExact(me, peer, n);
    case WriteEfd(n) => WriteEfdExact(me, peer, n);
  }

  lemma ReadFdExact(me: Half, peer: Half, n: nat)
    requires Exact(me, peer)
    ensures var (me', peer') := Act(me, peer, ReadFd(n)); Exact(me', peer') && SameHeld(me, peer, me', peer')
  {
    hide InFlight, Granted;
  }

  lemma WriteFdExact(me: Half, peer: Half, n: nat)
    requires Exact(me, peer)
    ensures var (me', peer') := Act(me, peer, WriteFd(n)); Exact(me', peer') && SameHeld(me, peer, me', peer')
  {
    hide InFlight, Granted;
  }

  lemma ReadEfdExact(me: Half, peer: Half, n: nat)
    requires Exact(me, peer)
    ensures var (me', peer') := Act(me, peer, ReadEfd(n)); Exact(me', peer') && SameHeld(me, peer, me', peer')
  {
    hide InFlight, Granted;
  }

  lemma WriteEfdExact(me: Half, peer: Half, n: nat)
    requires Exact(me, peer)
    ensures var (me', peer') := Act(me, peer, WriteEfd(n)); Exact(me', peer') && SameHeld(me, peer, me', peer')
  {
    hide InFlight, Granted;
  }

  /** While no phase changes, the accounts stay exact and no window is lost, whatever the state of the output sides. */
  lemma ActExact(me: Half, peer: Half, act: Action)
    requires Exact(me, peer) && !act.Transition?
    ensures var (me', peer') := Act(me, peer, act); Exact(me', peer') && SameHeld(me, peer, me', peer')
  {
    match act
    case Send => SendExact(me, peer);
    case Adjust => AdjustExact(me, peer);
    case Deliver => DeliverExact(me, peer);
    case _ => LocalExact(me, peer, act);
  }

  /** Bytes of the sender that have not yet been written out by the receiver. */
  function Pending(sender: Half, receiver: Half): nat {
    |sender.source| + |sender.e.input| + |sender.esource| + (if sender.e.usage.Read? then |sender.e.extended| else 0) +
    InFlight(receiver.inbox) + |receiver.e.output| + if receiver.e.usage.Write? then |receiver.e.extended| else 0
  }

  /** Nothing is left to deliver, or nothing is left of the receiver's window. */
  predicate SettledTowards(sender: Half, receiver: Half) {
    Pending(sender, receiver) == 0 || Held(receiver.e) == 0
  }

  predicate Settled(s: System) {
    SettledTowards(s.a, s.b) && SettledTowards(s.b, s.a)
  }

  /** Each move of a byte towards its destination, and of its window credit back, costs two units. */
  function Weight(sender: Half, receiver: Half): nat {
    12 * |sender.source| + 10 * |sender.e.input| +
    12 * |sender.esource| + (if sender.e.usage.Read? then 10 * |sender.e.extended| else 0) +
    8 * InFlight(receiver.inbox) +
    6 * |receiver.e.output| + (if receiver.e.usage.Write? then 6 * |receiver.e.extended| else 0) +
    4 * receiver.e.localConsumed + 2 * Granted(sender.inbox)
  }

  function Measure(a: Half, b: Half): nat {
    Weight(a, b) + Weight(b, a) + |a.inbox| + |b.inbox|
  }

  /** Strictly below, or nothing happened. */
  predicate Descends(a: Half, b: Half, a': Half, b': Half) {
    Measure(a', b') < Measure(a, b) || (a' == a && b' == b)
  }

  lemma SendDescends(me: Half, peer: Half)
    requires Exact(me, peer)
    ensures var (me', peer') := Act(me, peer, Send); Descends(me, peer, me', peer')
  {
    hide Poll, Held;
    var (e, ms) := Poll(me.e);
    SumsOfConcat(peer.inbox, ms);
    PollMoves(me.e);
    PollSums(me.e);
    if ms == [] {
      assert peer.inbox + ms == peer.inbox;
    }
  }

  /** A poll that sends anything sends at least one byte a message, all taken from its buffers. */
  lemma PollMoves(e: Endpoint)
    requires e.remoteMaxpacket > 0
    ensures var (e', ms) := Poll(e);
            |ms| <= InFlight(ms) && (ms == [] ==> e' == e) &&
            |e.input| + (if e.usage.Read? then |e.extended| else 0) ==
            |e'.input| + (if e.usage.Read? then |e'.extended| else 0) + InFlight(ms) &&
            e' == e.(remoteWindow := e'.remoteWindow, input := e'.input, extended := e'.extended) &&
            (!e.usage.Read? ==> e'.extended == e.extended)
  {
    var (e1, m1) := PollInput(e);
    var (e2, m2) := PollExtended(e1);
    SumsOfConcat(m1, m2);
    PollInputSums(e);
    PollExtendedSums(e1);
  }

  lemma AdjustDescends(me: Half, peer: Half)
    requires Exact(me, peer)
    ensures var (me', peer') := Act(me, peer, Adjust); Descends(me, peer, me', peer')
  {
    var (e, ms) := Replenish(me.e);
    SumsOfConcat(peer.inbox, ms);
    if ms == [] {
      assert peer.inbox + ms == peer.inbox;
    }
  }

  lemma DeliverDescends(me: Half, peer: Half)
    requires Exact(me, peer)
    ensures var (me', peer') := Act(me, peer, Deliver); Descends(me, peer, me', peer')
  {
    if me.inbox != [] {
      var m := me.inbox[0];
      assert m in me.inbox;
      TakeExact(me.e, m);
      TakeMoves(me.e, m);
      hide Take, Held;
    }
  }

  lemma TakeMoves(e: Endpoint, m: Message)
    requires m.ExtendedData? ==> e.usage.Write? && e.phase.efd
    requires Charge(m) <= e.localWindow && Held(e) < 0x1_0000_0000
    ensures var e' := Take(e, m);
            e'.input == e.input && e'.usage == e.usage && e'.localConsumed >= e.localConsumed &&
            (!e.usage.Write? ==> e'.extended == e.extended) &&
            |e'.output| + (if e.usage.Write? then |e'.extended| else 0) + e'.localConsumed ==
            |e.output| + (if e.usage.Write? then |e.extended| else 0) + e.localConsumed + Charge(m)
  {
  }

  lemma ReadFdDescends(me: Half, peer: Half, n: nat)
    ensures var (me', peer') := Act(me, peer, ReadFd(n)); Descends(me, peer, me', peer')
  {
    hide InFlight, Granted;
    if Readable(me.e) && Min(Min(n, CHAN_RBUF), |me.source|) == 0 {
      assert me.e.input + me.source[..0] == me.e.input && me.source[0..] == me.source;
    }
  }

  lemma WriteFdDescends(me: Half, peer: Half, n: nat)
    requires Held(me.e) < 0x1_0000_0000
    ensures var (me', peer') := Act(me, peer, WriteFd(n)); Descends(me, peer, me', peer')
  {
    var k := Min(n, |me.e.output|);
    if Writable(me.e) {
      assert Add32(me.e.localConsumed, k) == me.e.localConsumed + k;
      hide InFlight, Granted, Add32;
      if k == 0 {
        assert me.sink + me.e.output[..0] == me.sink && me.e.output[0..] == me.e.output;
      } else {
        var me' := Act(me, peer, WriteFd(n)).0;
        assert Weight(peer, me') == Weight(peer, me) - 2 * k && Weight(me', peer) == Weight(me, peer);
      }
    }
  }

  lemma ReadEfdDescends(me: Half, peer: Half, n: nat)
    ensures var (me', peer') := Act(me, peer, ReadEfd(n)); Descends(me, peer, me', peer')
  {
    hide InFlight, Granted;
    if ExtendedReadable(me.e) && Min(Min(n, CHAN_RBUF), |me.esource|) == 0 {
      assert me.e.extended + me.esource[..0] == me.e.extended && me.esource[0..] == me.esource;
    }
  }

  lemma WriteEfdDescends(me: Half, peer: Half, n: nat)
    requires Held(me.e) < 0x1_0000_0000
    ensures var (me', peer') := Act(me, peer, WriteEfd(n)); Descends(me, peer, me', peer')
  {
    var k := Min(n, |me.e.extended|);
    if ExtendedWritable(me.e) {
      assert Add32(me.e.localConsumed, k) == me.e.localConsumed + k;
      hide InFlight, Granted, Add32;
      if k == 0 {
        assert me.esink + me.e.extended[..0] == me.esink && me.e.extended[0..] == me.e.extended;
      } else {
        var me' := Act(me, peer, WriteEfd(n)).0;
        assert Weight(peer, me') == Weight(peer, me) - 2 * k && Weight(me', peer) == Weight(me, peer);
      }
    }
  }

  /** Every step but a phase change makes progress or changes nothing. */
  lemma ActDescends(me: Half, peer: Half, act: Action)
    requires Exact(me, peer) && !act.Transition?
    ensures var (me', peer') := Act(me, peer, act); Descends(me, peer, me', peer')
  {
    assert Held(me.e) < 0x1_0000_0000;
    hide Exact, Descends, Act, Held;
    match act
    case Send => SendDescends(me, peer);
    case Adjust => AdjustDescends(me, peer);
    case Deliver => DeliverDescends(me, peer);
    case ReadFd(n) => ReadFdDescends(me, peer, n);
    case WriteFd(n) => WriteFdDescends(me, peer, n);
    case ReadEfd(n) => ReadEfdDescends(me, peer, n);
    case WriteEfd(n) => WriteEfdDescends(me, peer, n);
  }

  /** What a scheduler may do, sizes aside. */
  datatype Kind = Sending | Adjusting | Delivering | Reading | Writing | ExtReading | ExtWriting | Closing

  function KindOf(act: Action): Kind {
    match act
    case Send => Sending
    case Adjust => Adjusting
    case Deliver => Delivering
    case ReadFd(_) => Reading
    case WriteFd(_) => Writing
    case ReadEfd(_) => ExtReading
    case WriteEfd(_) => ExtWriting
    case Transition(_) => Closing
  }

  /** The descriptor moves at least one byte if it moves any. */
  predicate Willing(act: Action) {
    match act
    case ReadFd(n) => n > 0
    case WriteFd(n) => n > 0
    case ReadEfd(n) => n > 0
    case WriteEfd(n) => n > 0
    case _ => true
  }

  /** No step of this kind that the descriptors allow leaves the two ends as they are. */
  ghost predicate Enabled(me: Half, peer: Half, kind: Kind) {
    forall act: Action :: KindOf(act) == kind && Willing(act) ==> Act(me, peer, act) != (me, peer)
  }

  /**
   * A sender out of window with nothing in flight and a drained receiver, its
   * output side open or not: the receiver's guard in channel_check_window holds
   * exactly if some of its window has not been lost and its size allows halving
   * or exceeds three packets, as every window of two bytes or more does.
   */
  lemma StuckWindowReopens(sender: Half, receiver: Half)
    requires Exact(sender, receiver) && sender.e.remoteWindow == 0
    requires sender.inbox == receiver.inbox == [] && receiver.e.output == []
    requires receiver.e.usage.Write? ==> receiver.e.extended == []
    ensures WindowLow(receiver.e) <==>
            Held(receiver.e) > 0 &&
            (receiver.e.localWindowMax >= 2 ||
             receiver.e.localWindowMax > 3 * receiver.e.localMaxpacket % 0x1_0000_0000)
  {
  }

  lemma DeliverEnabled(me: Half, peer: Half)
    requires me.inbox != []
    ensures Enabled(me, peer, Delivering)
  {
    hide Take;
    assert |me.inbox[1..]| < |me.inbox|;
  }

  lemma WriteEnabled(me: Half, peer: Half)
    ensures Writable(me.e) ==> Enabled(me, peer, Writing)
    ensures ExtendedWritable(me.e) ==> Enabled(me, peer, ExtWriting)
  {
    hide Add32;
    forall act: Action | KindOf(act) == Writing && Willing(act) && Writable(me.e)
      ensures Act(me, peer, act) != (me, peer)
    {
      assert |Act(me, peer, act).0.e.output| < |me.e.output|;
    }
    forall act: Action | KindOf(act) == ExtWriting && Willing(act) && ExtendedWritable(me.e)
      ensures Act(me, peer, act) != (me, peer)
    {
      assert |Act(me, peer, act).0.e.extended| < |me.e.extended|;
    }
  }

  lemma ReadEnabled(me: Half, peer: Half)
    ensures me.source != [] && Readable(me.e) ==> Enabled(me, peer, Reading)
    ensures me.esource != [] && ExtendedReadable(me.e) ==> Enabled(me, peer, ExtReading)
  {
    forall act: Action | KindOf(act) == Reading && Willing(act) && me.source != [] && Readable(me.e)
      ensures Act(me, peer, act) != (me, peer)
    {
      assert |Act(me, peer, act).0.source| < |me.source|;
    }
    forall act: Action | KindOf(act) == ExtReading && Willing(act) && me.esource != [] && ExtendedReadable(me.e)
      ensures Act(me, peer, act) != (me, peer)
    {
      assert |Act(me, peer, act).0.esource| < |me.esource|;
    }
  }

  lemma AdjustEnabled(me: Half, peer: Half)
    requires WindowLow(me.e)
    ensures Enabled(me, peer, Adjusting)
  {
    assert |Act(me, peer, Adjust).1.inbox| > |peer.inbox|;
  }

  lemma SendEnabled(me: Half, peer: Half)
    requires Live(me) && me.e.remoteWindow > 0
    requires me.e.input != [] || (me.e.usage.Read? && me.e.extended != [])
    ensures Enabled(me, peer, Sending)
  {
    var (e1, m1) := PollInput(me.e);
    var (e2, m2) := PollExtended(e1);
    assert |m1 + m2| > 0;
    assert |Act(me, peer, Send).1.inbox| > |peer.inbox|;
  }

  /** Undelivered bytes always leave some step enabled at one of the two ends. */
  lemma SomethingEnabled(me: Half, peer: Half) returns (mine: bool, kind: Kind)
    requires Exact(me, peer) && Pending(me, peer) > 0 && peer.e.localWindowMax >= 2 && Held(peer.e) > 0
    ensures kind != Closing
    ensures if mine then Enabled(me, peer, kind) else Enabled(peer, me, kind)
  {
    hide Enabled, WindowLow;
    WriteEnabled(peer, me);
    ReadEnabled(me, peer);
    if peer.inbox != [] {
      DeliverEnabled(peer, me);
      return false, Delivering;
    } else if peer.e.output != [] {
      return false, Writing;
    } else if peer.e.usage.Write? && peer.e.extended != [] {
      return false, ExtWriting;
    } else if me.inbox != [] {
      DeliverEnabled(me, peer);
      return true, Delivering;
    } else if me.e.remoteWindow == 0 {
      StuckWindowReopens(me, peer);
      AdjustEnabled(peer, me);
      return false, Adjusting;
    } else if me.e.input != [] || (me.e.usage.Read? && me.e.extended != []) {
      SendEnabled(me, peer);
      return true, Sending;
    } else if me.source != [] {
      return true, Reading;
    } else {
      return true, ExtReading;
    }
  }

  predicate Plain(evs: seq<Event>) {
    forall i :: 0 <= i < |evs| ==> !evs[i].act.Transition?
  }

  predicate Occurs(evs: seq<Event>, left: bool, kind: Kind) {
    exists i :: 0 <= i < |evs| && evs[i].left == left && KindOf(evs[i].act) == kind && Willing(evs[i].act)
  }

  /** A fair round: in any order and any number, but every kind of step occurs at both ends and no phase changes. */
  ghost predicate FairRound(evs: seq<Event>) {
    Plain(evs) &&
    (forall left: bool, kind: Kind :: kind != Closing ==> Occurs(evs, left, kind))
  }

  /** Live, exactly accounted, and with windows that can reopen. */
  predicate Working(s: System) {
    Exact(s.a, s.b) && s.a.e.localWindowMax >= 2 && s.b.e.localWindowMax >= 2
  }

  function Cost(s: System): nat { Measure(s.a, s.b) }

  lemma Symmetric(a: Half, b: Half)
    ensures Measure(a, b) == Measure(b, a) && Exact(a, b) == Exact(b, a)
  {
  }

  lemma StepWorks(s: System, ev: Event)
    requires Working(s) && !ev.act.Transition?
    ensures var t := Step(s, ev); Working(t) && (Cost(t) < Cost(s) || t == s)
  {
    hide Exact, Measure, Act;
    var (me, peer) := if ev.left then (s.a, s.b) else (s.b, s.a);
    var (me', peer') := Act(me, peer, ev.act);
    Symmetric(me, peer);
    Symmetric(me', peer');
    ActLimits(me, peer, ev.act);
    ActExact(me, peer, ev.act);
    ActDescends(me, peer, ev.act);
  }

  /** A run that does not lower the cost did nothing at all. */
  lemma {:induction false} RunWorks(s: System, evs: seq<Event>)
    requires Working(s) && Plain(evs)
    ensures var t := Run(s, evs);
            Working(t) &&
            (Cost(t) < Cost(s) || (t == s && forall i :: 0 <= i < |evs| ==> Step(s, evs[i]) == s))
    decreases |evs|
  {
    hide Working, Cost, Step;
    if evs != [] {
      StepWorks(s, evs[0]);
      RunWorks(Step(s, evs[0]), evs[1..]);
      assert evs == [evs[0]] + evs[1..];
    }
  }

  /** A fair round lowers the cost as long as a byte can be delivered. */
  lemma RoundWorks(s: System, round: seq<Event>)
    requires Working(s) && FairRound(round)
    ensures Working(Run(s, round)) && Cost(Run(s, round)) <= Cost(s)
    ensures !Settled(s) ==> Cost(Run(s, round)) < Cost(s)
  {
    hide Cost, Act, Held;
    RunWorks(s, round);
    if !Settled(s) {
      var left, kind;
      if !SettledTowards(s.a, s.b) {
        left, kind := SomethingEnabled(s.a, s.b);
      } else {
        var mine;
        Symmetric(s.a, s.b);
        mine, kind := SomethingEnabled(s.b, s.a);
        left := !mine;
      }
      assert Occurs(round, left, kind);
      var i :| 0 <= i < |round| && round[i].left == left && KindOf(round[i].act) == kind && Willing(round[i].act);
      assert Step(s, round[i]) != s;
    }
  }

  function Rounds(s: System, rounds: seq<seq<Event>>): System
    decreases |rounds|
  {
    if rounds == [] then s else Rounds(Run(s, rounds[0]), rounds[1..])
  }

  /** A direction with nothing left stays so. */
  predicate StaysDelivered(a: Half, b: Half, a': Half, b': Half) {
    (Pending(a, b) == 0 ==> Pending(a', b') == 0) && (Pending(b, a) == 0 ==> Pending(b', a') == 0)
  }

  lemma SendKeepsDelivered(me: Half, peer: Half)
    requires Exact(me, peer)
    ensures var (me', peer') := Act(me, peer, Send); StaysDelivered(me, peer, me', peer')
  {
    hide Poll, Held, Credit;
    PollMoves(me.e);
    SumsOfConcat(peer.inbox, Poll(me.e).1);
  }

  lemma AdjustKeepsDelivered(me: Half, peer: Half)
    ensures var (me', peer') := Act(me, peer, Adjust); StaysDelivered(me, peer, me', peer')
  {
    hide WindowLow;
    SumsOfConcat(peer.inbox, Replenish(me.e).1);
  }

  lemma DeliverKeepsDelivered(me: Half, peer: Half)
    requires Exact(me, peer)
    ensures var (me', peer') := Act(me, peer, Deliver); StaysDelivered(me, peer, me', peer')
  {
    if me.inbox != [] {
      assert me.inbox[0] in me.inbox;
      TakeMoves(me.e, me.inbox[0]);
      TakeLive(me, me.inbox[0]);
      hide Take, Held, Live;
    }
  }

  lemma FdKeepsDelivered(me: Half, peer: Half, n: nat)
    ensures var (me', peer') := Act(me, peer, ReadFd(n)); StaysDelivered(me, peer, me', peer')
    ensures var (me', peer') := Act(me, peer, WriteFd(n)); StaysDelivered(me, peer, me', peer')
  {
    hide InFlight;
  }

  lemma EfdKeepsDelivered(me: Half, peer: Half, n: nat)
    ensures var (me', peer') := Act(me, peer, ReadEfd(n)); StaysDelivered(me, peer, me', peer')
    ensures var (me', peer') := Act(me, peer, WriteEfd(n)); StaysDelivered(me, peer, me', peer')
  {
    hide InFlight;
  }

  lemma ActKeepsDelivered(me: Half, peer: Half, act: Action)
    requires Exact(me, peer) && !act.Transition?
    ensures var (me', peer') := Act(me, peer, act); StaysDelivered(me, peer, me', peer')
  {
    hide Act, Exact, StaysDelivered;
    match act
    case Send => SendKeepsDelivered(me, peer);
    case Adjust => AdjustKeepsDelivered(me, peer);
    case Deliver => DeliverKeepsDelivered(me, peer);
    case ReadFd(n) => FdKeepsDelivered(me, peer, n);
    case WriteFd(n) => FdKeepsDelivered(me, peer, n);
    case ReadEfd(n) => EfdKeepsDelivered(me, peer, n);
    case WriteEfd(n) => EfdKeepsDelivered(me, peer, n);
  }

  /** Run through, a plain run keeps what is delivered and what is held. */
  lemma {:induction false} RunKeepsDelivered(s: System, evs: seq<Event>)
    requires Working(s) && Plain(evs)
    ensures var t := Run(s, evs); SameHeld(s.a, s.b, t.a, t.b) && StaysDelivered(s.a, s.b, t.a, t.b)
    decreases |evs|
  {
    hide Exact, Pending, Act, Held;
    if evs != [] {
      var ev := evs[0];
      Symmetric(s.a, s.b);
      StepWorks(s, ev);
      if ev.left {
        ActKeepsDelivered(s.a, s.b, ev.act);
        ActExact(s.a, s.b, ev.act);
      } else {
        ActKeepsDelivered(s.b, s.a, ev.act);
        ActExact(s.b, s.a, ev.act);
      }
      RunKeepsDelivered(Step(s, ev), evs[1..]);
    }
  }

  /** As many fair rounds as the cost of the state deliver everything that can be. */
  lemma {:induction false} RoundsSettle(s: System, rounds: seq<seq<Event>>)
    requires Working(s) && (forall i :: 0 <= i < |rounds| ==> FairRound(rounds[i]))
    requires Settled(s) || Cost(s) <= |rounds|
    ensures var t := Rounds(s, rounds); Settled(t) && SameHeld(s.a, s.b, t.a, t.b)
    decreases |rounds|
  {
    hide Working, Pending, Held, Cost;
    if rounds == [] {
      if !Settled(s) {
        NoCostDelivered(s);
      }
    } else {
      RoundWorks(s, rounds[0]);
      RunKeepsDelivered(s, rounds[0]);
      RoundsSettle(Run(s, rounds[0]), rounds[1..]);
    }
  }

  lemma NoCostDelivered(s: System)
    requires Cost(s) == 0
    ensures Pending(s.a, s.b) == 0 && Pending(s.b, s.a) == 0
  {
  }

  lemma {:induction false} RoundsFaithful(s: System, rounds: seq<seq<Event>>, ext: bool, fromA: seq<byte>, fromB: seq<byte>)
    requires Working(s) && (forall i :: 0 <= i < |rounds| ==> FairRound(rounds[i]))
    requires Safe(s.a, s.b) && Faithful(s.a, s.b, ext, fromA) && Faithful(s.b, s.a, ext, fromB)
    ensures var t := Rounds(s, rounds);
            Working(t) && SameLimits(s.a, t.a) && SameLimits(s.b, t.b) &&
            Faithful(t.a, t.b, ext, fromA) && Faithful(t.b, t.a, ext, fromB)
    decreases |rounds|
  {
    hide Working, Safe, Faithful;
    if rounds != [] {
      RunSafe(s, rounds[0]);
      RunKeeps(s, rounds[0], ext, fromA, fromB);
      RoundWorks(s, rounds[0]);
      RoundsFaithful(Run(s, rounds[0]), rounds[1..], ext, fromA, fromB);
    }
  }

  /** The events of the rounds, one after the other. */
  function Flat(rounds: seq<seq<Event>>): seq<Event> {
    if rounds == [] then [] else rounds[0] + Flat(rounds[1..])
  }

  lemma {:induction false} RunConcat(s: System, evs: seq<Event>, more: seq<Event>)
    ensures Run(s, evs + more) == Run(Run(s, evs), more)
    decreases |evs|
  {
    hide Step;
    if evs == [] {
      assert evs + more == more;
    } else {
      assert (evs + more)[1..] == evs[1..] + more;
      RunConcat(Step(s, evs[0]), evs[1..], more);
    }
  }

  lemma {:induction false} RoundsAreRun(s: System, rounds: seq<seq<Event>>)
    ensures Rounds(s, rounds) == Run(s, Flat(rounds))
    decreases |rounds|
  {
    hide Step;
    if rounds != [] {
      RunConcat(s, rounds[0], Flat(rounds[1..]));
      RoundsAreRun(Run(s, rounds[0]), rounds[1..]);
    }
  }

  lemma NoFatalAppend(s: System, evs: seq<Event>)
    requires Initial(s)
    ensures FitsBuffers(s.a) && FitsBuffers(s.b) ==>
              forall n :: 0 <= n <= |evs| ==> var u := Run(s, evs[..n]); AppendsFit(u.a) && AppendsFit(u.b)
  {
    hide Initial, FitsBuffers, AppendsFit, Run;
    forall n | 0 <= n <= |evs|
      ensures FitsBuffers(s.a) && FitsBuffers(s.b) ==> var u := Run(s, evs[..n]); AppendsFit(u.a) && AppendsFit(u.b)
    {
      FlowControlSafety(s, evs[..n]);
    }
  }

  /** Once everything is delivered, a receiver that still accepts the stream has written the whole of it. */
  lemma DeliveredStream(sender: Half, receiver: Half, ext: bool, total: seq<byte>)
    requires Accepting(receiver, ext) && Paired(sender, receiver, ext)
    requires Faithful(sender, receiver, ext, total) && Pending(sender, receiver) == 0
    ensures Out(receiver, ext) == total
  {
    NothingCarried(receiver.inbox, ext);
  }

  lemma {:induction false} NothingCarried(ms: seq<Message>, ext: bool)
    ensures |Carried(ms, ext)| <= InFlight(ms)
  {
    if ms != [] {
      NothingCarried(ms[1..], ext);
    }
  }

  lemma InitialWorks(s: System)
    requires Initial(s) && Live(s.a) && Live(s.b)
    requires s.a.e.usage.Read? ==> s.b.e.usage.Write?
    requires s.b.e.usage.Read? ==> s.a.e.usage.Write?
    requires s.a.e.localWindowMax >= 2 && s.b.e.localWindowMax >= 2
    ensures Working(s) && Held(s.a.e) > 0 && Held(s.b.e) > 0
  {
    AdjustsCarryNothing(s.a.inbox);
    AdjustsCarryNothing(s.b.inbox);
  }

  // ----- Phases

  lemma ActPhase(me: Half, peer: Half, act: Action)
    requires !act.Transition?
    ensures var (me', peer') := Act(me, peer, act); me'.e.phase == me.e.phase && peer'.e.phase == peer.e.phase
  {
  }

  lemma {:induction false} RunPhase(s: System, evs: seq<Event>)
    requires Plain(evs)
    ensures var t := Run(s, evs); t.a.e.phase == s.a.e.phase && t.b.e.phase == s.b.e.phase
    decreases |evs|
  {
    hide Act;
    if evs != [] {
      ActPhase(s.a, s.b, evs[0].act);
      ActPhase(s.b, s.a, evs[0].act);
      RunPhase(Step(s, evs[0]), evs[1..]);
    }
  }

  lemma {:induction false} FlatPlain(rounds: seq<seq<Event>>)
    requires forall i :: 0 <= i < |rounds| ==> FairRound(rounds[i])
    ensures Plain(Flat(rounds))
  {
    if rounds != [] {
      FlatPlain(rounds[1..]);
    }
  }

  // ----- Delivery

  /** Fair rounds from a working state deliver everything, and to a receiver that accepts the stream unaltered. */
  lemma Drains(s: System, rounds: seq<seq<Event>>, ext: bool, fromA: seq<byte>, fromB: seq<byte>)
    requires Working(s) && Safe(s.a, s.b) && Faithful(s.a, s.b, ext, fromA) && Faithful(s.b, s.a, ext, fromB)
    requires (forall i :: 0 <= i < |rounds| ==> FairRound(rounds[i])) && |rounds| >= Cost(s)
    ensures var t := Rounds(s, rounds);
            Settled(t) && SameHeld(s.a, s.b, t.a, t.b) && Faithful(t.a, t.b, ext, fromA) && Faithful(t.b, t.a, ext, fromB) &&
            SameLimits(s.a, t.a) && SameLimits(s.b, t.b) &&
            (Paired(s.a, s.b, ext) && Accepting(s.b, ext) && Held(s.b.e) > 0 ==> Out(t.b, ext) == fromA) &&
            (Paired(s.b, s.a, ext) && Accepting(s.a, ext) && Held(s.a.e) > 0 ==> Out(t.a, ext) == fromB)
  {
    hide Faithful, Pending, Safe, Cost, Working, FairRound, Flat, Run, Rounds, Held;
    RoundsSettle(s, rounds);
    RoundsFaithful(s, rounds, ext, fromA, fromB);
    RoundsAreRun(s, rounds);
    FlatPlain(rounds);
    RunPhase(s, Flat(rounds));
    var t := Rounds(s, rounds);
    if Paired(s.a, s.b, ext) && Accepting(s.b, ext) && Held(s.b.e) > 0 {
      DeliveredStream(t.a, t.b, ext, fromA);
    }
    if Paired(s.b, s.a, ext) && Accepting(s.a, ext) && Held(s.a.e) > 0 {
      DeliveredStream(t.b, t.a, ext, fromB);
    }
  }

  lemma InitialAccepts(s: System, ext: bool)
    requires Initial(s) && Live(s.a) && Live(s.b)
    ensures Paired(s.a, s.b, ext) ==> Accepting(s.b, ext)
    ensures Paired(s.b, s.a, ext) ==> Accepting(s.a, ext)
  {
    hide Granted;
  }

  /**
   * Under any fair schedule two live ends with windows of at least two bytes
   * exchange any finite payload completely and in order, whatever the sizes of
   * reads and writes; the cost of the initial state bounds the number of rounds.
   * With windows that fit the buffers no append on the way is fatal.
   */
  lemma CompleteDelivery(s: System, rounds: seq<seq<Event>>, ext: bool)
    requires Initial(s) && Live(s.a) && Live(s.b)
    requires s.a.e.usage.Read? ==> s.b.e.usage.Write?
    requires s.b.e.usage.Read? ==> s.a.e.usage.Write?
    requires s.a.e.localWindowMax >= 2 && s.b.e.localWindowMax >= 2
    requires (forall i :: 0 <= i < |rounds| ==> FairRound(rounds[i])) && |rounds| >= Cost(s)
    ensures var t := Rounds(s, rounds);
            (Paired(s.a, s.b, ext) ==> Out(t.b, ext) == Payload(s.a, s.b, ext)) &&
            (Paired(s.b, s.a, ext) ==> Out(t.a, ext) == Payload(s.b, s.a, ext))
    ensures FitsBuffers(s.a) && FitsBuffers(s.b) ==>
              Rounds(s, rounds) == Run(s, Flat(rounds)) &&
              forall n :: 0 <= n <= |Flat(rounds)| ==>
                var u := Run(s, Flat(rounds)[..n]); AppendsFit(u.a) && AppendsFit(u.b)
  {
    InitialSafe(s);
    InitialFaithful(s, ext);
    InitialWorks(s);
    InitialAccepts(s, ext);
    RoundsAreRun(s, rounds);
    NoFatalAppend(s, Flat(rounds));
    hide *;
    Drains(s, rounds, ext, Payload(s.a, s.b, ext), Payload(s.b, s.a, ext));
  }

  // ----- Output sides that close

  /** The output side of an end goes its way (open, draining, closed) and nothing else of its phase changes. */
  predicate ClosesOutput(h: Half, act: Action) {
    act.Transition? ==> act.phase == h.e.phase.(ostate := act.phase.ostate) && !act.phase.ostate.OutputWaitIeof?
  }

  /** Closing keeps the accounts exact; the window loses the output that is dropped with it. */
  lemma CloseExact(me: Half, peer: Half, phase: Phase)
    requires Exact(me, peer) && ClosesOutput(me, Transition(phase)) && me.e.phase.istate.InputOpen?
    ensures var (me', peer') := Act(me, peer, Transition(phase));
            Exact(me', peer') && peer' == peer &&
            Held(me'.e) == Held(me.e) - (if PhaseStep(me.e.phase, phase) && phase.ostate.OutputClosed? then |me.e.output| else 0)
  {
    hide InFlight, Granted;
  }

  /** Only the output sides have changed since `s`. */
  predicate OnlyOutputs(s: System, t: System) {
    t.a.e.phase == s.a.e.phase.(ostate := t.a.e.phase.ostate) && t.b.e.phase == s.b.e.phase.(ostate := t.b.e.phase.ostate)
  }

  predicate OnlyCloses(s: System, evs: seq<Event>) {
    forall i :: 0 <= i < |evs| ==> ClosesOutput(if evs[i].left then s.a else s.b, evs[i].act)
  }

  lemma StepCloses(s: System, t: System, ev: Event)
    requires Exact(t.a, t.b) && OnlyOutputs(s, t) && ClosesOutput(if ev.left then s.a else s.b, ev.act)
    requires s.a.e.phase.istate.InputOpen? && s.b.e.phase.istate.InputOpen?
    ensures var u := Step(t, ev); Exact(u.a, u.b) && OnlyOutputs(s, u)
  {
    var (me, peer) := if ev.left then (t.a, t.b) else (t.b, t.a);
    Symmetric(me, peer);
    var (me', peer') := Act(me, peer, ev.act);
    Symmetric(me', peer');
    if ev.act.Transition? {
      CloseExact(me, peer, ev.act.phase);
      assert me'.e.phase == me.e.phase || me'.e.phase == ev.act.phase;
      hide Exact, Act;
    } else {
      hide Exact, Act;
      ActExact(me, peer, ev.act);
      ActPhase(me, peer, ev.act);
    }
  }

  lemma {:induction false} RunCloses(s: System, t: System, evs: seq<Event>)
    requires Exact(t.a, t.b) && OnlyOutputs(s, t) && OnlyCloses(s, evs)
    requires s.a.e.phase.istate.InputOpen? && s.b.e.phase.istate.InputOpen?
    ensures var u := Run(t, evs); Exact(u.a, u.b) && OnlyOutputs(s, u)
    decreases |evs|
  {
    hide Exact, Step, OnlyOutputs;
    if evs != [] {
      StepCloses(s, t, evs[0]);
      RunCloses(s, Step(t, evs[0]), evs[1..]);
    }
  }

  /**
   * Delivery to ends whose output sides close on the way.  Fair rounds take every
   * byte off a sender exactly unless the receiver dropped its whole window with its
   * output; a closed receiver writes out a prefix, one still open everything.
   */
  lemma DeliveryAfterClosing(s: System, evs: seq<Event>, rounds: seq<seq<Event>>, ext: bool)
    requires Initial(s) && Live(s.a) && Live(s.b)
    requires s.a.e.usage.Read? ==> s.b.e.usage.Write?
    requires s.b.e.usage.Read? ==> s.a.e.usage.Write?
    requires s.a.e.localWindowMax >= 2 && s.b.e.localWindowMax >= 2 && OnlyCloses(s, evs)
    requires (forall i :: 0 <= i < |rounds| ==> FairRound(rounds[i])) && |rounds| >= Cost(Run(s, evs))
    ensures var t := Run(s, evs);
            var u := Rounds(t, rounds);
            (Pending(u.a, u.b) == 0 <==> Pending(t.a, t.b) == 0 || Held(t.b.e) > 0) &&
            (Pending(u.b, u.a) == 0 <==> Pending(t.b, t.a) == 0 || Held(t.a.e) > 0) &&
            (Paired(s.a, s.b, ext) ==> PartlyDelivered(t.b, u.b, ext, Payload(s.a, s.b, ext))) &&
            (Paired(s.b, s.a, ext) ==> PartlyDelivered(t.a, u.a, ext, Payload(s.b, s.a, ext)))
  {
    hide Working, Initial, Safe, Faithful, Run, Rounds, Payload, Pending, Cost, FairRound, Live, Held, OnlyCloses, Flat;
    var t := Run(s, evs);
    var (fromA, fromB) := (Payload(s.a, s.b, ext), Payload(s.b, s.a, ext));
    InitialSafe(s);
    InitialFaithful(s, ext);
    RunSafe(s, evs);
    RunKeeps(s, evs, ext, fromA, fromB);
    ClosedWorks(s, evs);
    Drains(t, rounds, ext, fromA, fromB);
    var u := Rounds(t, rounds);
    FaithfulPrefix(u.a, u.b, ext, fromA);
    FaithfulPrefix(u.b, u.a, ext, fromB);
    RoundsAreRun(t, rounds);
    FlatPlain(rounds);
    RunKeepsDelivered(t, Flat(rounds));
    RunLost(t, Flat(rounds));
  }

  /** What a receiver has written once nothing moves any more: all if it was open with a window left, at worst a prefix. */
  predicate PartlyDelivered(before: Half, after: Half, ext: bool, payload: seq<byte>) {
    Out(after, ext) <= payload && (Accepting(before, ext) && Held(before.e) > 0 ==> Out(after, ext) == payload)
  }

  lemma ClosedWorks(s: System, evs: seq<Event>)
    requires Initial(s) && Live(s.a) && Live(s.b)
    requires s.a.e.usage.Read? ==> s.b.e.usage.Write?
    requires s.b.e.usage.Read? ==> s.a.e.usage.Write?
    requires s.a.e.localWindowMax >= 2 && s.b.e.localWindowMax >= 2 && OnlyCloses(s, evs)
    ensures Working(Run(s, evs)) && SameLimits(s.a, Run(s, evs).a) && SameLimits(s.b, Run(s, evs).b)
  {
    InitialWorks(s);
    InitialSafe(s);
    hide Exact, Safe, Run, OnlyCloses, Held;
    RunCloses(s, s, evs);
    RunSafe(s, evs);
  }

  lemma FaithfulPrefix(sender: Half, receiver: Half, ext: bool, total: seq<byte>)
    requires Faithful(sender, receiver, ext, total)
    ensures Paired(sender, receiver, ext) ==> Out(receiver, ext) <= total
  {
    hide Carried;
  }

  // ----- A window lost altogether

  /** The sender has no window, and nothing is on its way or waiting at the receiver. */
  predicate Starved(sender: Half, receiver: Half) {
    sender.e.remoteWindow == 0 && InFlight(receiver.inbox) == 0 && Granted(sender.inbox) == 0 && receiver.e.output == [] &&
    (receiver.e.usage.Write? ==> receiver.e.extended == [])
  }

  lemma LostIsStarved(sender: Half, receiver: Half)
    requires ExactTowards(sender, receiver) && Held(receiver.e) == 0
    ensures Starved(sender, receiver)
  {
  }

  lemma SendStarved(me: Half, peer: Half)
    requires Starved(me, peer)
    ensures var (me', peer') := Act(me, peer, Send); Pending(me', peer') == Pending(me, peer)
  {
    hide InFlight, Granted;
    var (m1, m2) := (PollInput(me.e).1, PollExtended(PollInput(me.e).0).1);
    assert m1 == [] && m2 == [] && m1 + m2 == [];
    assert peer.inbox + [] == peer.inbox;
  }

  lemma AdjustStarved(me: Half, peer: Half)
    ensures var (me', peer') := Act(me, peer, Adjust); Pending(me', peer') == Pending(me, peer)
  {
    hide WindowLow;
    SumsOfConcat(peer.inbox, Replenish(me.e).1);
  }

  lemma DeliverStarved(me: Half, peer: Half)
    ensures var (me', peer') := Act(me, peer, Deliver); Pending(me', peer') == Pending(me, peer)
  {
    hide InFlight;
  }

  lemma FdStarved(me: Half, peer: Half, n: nat)
    requires Starved(me, peer)
    ensures var (me', peer') := Act(me, peer, ReadFd(n)); Pending(me', peer') == Pending(me, peer)
    ensures var (me', peer') := Act(me, peer, WriteFd(n)); Pending(me', peer') == Pending(me, peer)
  {
    hide InFlight, Granted;
  }

  lemma EfdStarved(me: Half, peer: Half, n: nat)
    requires Starved(me, peer)
    ensures var (me', peer') := Act(me, peer, ReadEfd(n)); Pending(me', peer') == Pending(me, peer)
    ensures var (me', peer') := Act(me, peer, WriteEfd(n)); Pending(me', peer') == Pending(me, peer)
  {
    hide InFlight, Granted;
  }

  lemma SenderStarved(me: Half, peer: Half, act: Action)
    requires Starved(me, peer) && !act.Transition?
    ensures var (me', peer') := Act(me, peer, act); Pending(me', peer') == Pending(me, peer)
  {
    hide Act, Pending, Starved;
    match act
    case Send => SendStarved(me, peer);
    case Adjust => AdjustStarved(me, peer);
    case Deliver => DeliverStarved(me, peer);
    case ReadFd(n) => FdStarved(me, peer, n);
    case WriteFd(n) => FdStarved(me, peer, n);
    case ReadEfd(n) => EfdStarved(me, peer, n);
    case WriteEfd(n) => EfdStarved(me, peer, n);
  }

  lemma ReceiverStarved(me: Half, peer: Half, act: Action)
    requires Exact(me, peer) && Starved(peer, me) && !act.Transition?
    ensures var (me', peer') := Act(me, peer, act); Pending(peer', me') == Pending(peer, me)
  {
    match act
    case Send => ReceiverSends(me, peer);
    case Deliver => ReceiverTakes(me, peer);
    case _ =>
      hide InFlight, Granted, WindowLow;
  }

  lemma ReceiverSends(me: Half, peer: Half)
    requires Exact(me, peer)
    ensures var (me', peer') := Act(me, peer, Send); Pending(peer', me') == Pending(peer, me)
  {
    hide Poll, InFlight, Held, Credit;
    PollMoves(me.e);
  }

  lemma ReceiverTakes(me: Half, peer: Half)
    requires Exact(me, peer) && Starved(peer, me)
    ensures var (me', peer') := Act(me, peer, Deliver); Pending(peer', me') == Pending(peer, me)
  {
    if me.inbox != [] {
      assert me.inbox[0] in me.inbox;
      TakeMoves(me.e, me.inbox[0]);
      TakeExact(me.e, me.inbox[0]);
      hide Take, Live;
    }
  }

  /** With nothing of the receiver's window left, no byte of the sender's moves. */
  lemma ActLost(me: Half, peer: Half, act: Action)
    requires Exact(me, peer) && !act.Transition?
    ensures var (me', peer') := Act(me, peer, act);
            (Held(peer.e) == 0 ==> Pending(me', peer') == Pending(me, peer)) &&
            (Held(me.e) == 0 ==> Pending(peer', me') == Pending(peer, me))
  {
    hide Act, Pending, Held;
    if Held(peer.e) == 0 {
      LostIsStarved(me, peer);
      SenderStarved(me, peer, act);
    }
    if Held(me.e) == 0 {
      LostIsStarved(peer, me);
      ReceiverStarved(me, peer, act);
    }
  }

  lemma {:induction false} RunLost(s: System, evs: seq<Event>)
    requires Working(s) && Plain(evs)
    ensures var t := Run(s, evs);
            (Held(s.b.e) == 0 ==> Pending(t.a, t.b) == Pending(s.a, s.b)) &&
            (Held(s.a.e) == 0 ==> Pending(t.b, t.a) == Pending(s.b, s.a))
    decreases |evs|
  {
    hide Exact, Pending, Act, Held;
    if evs != [] {
      var ev := evs[0];
      Symmetric(s.a, s.b);
      StepWorks(s, ev);
      if ev.left {
        ActLost(s.a, s.b, ev.act);
        ActExact(s.a, s.b, ev.act);
      } else {
        ActLost(s.b, s.a, ev.act);
        ActExact(s.b, s.a, ev.act);
      }
      RunLost(Step(s, ev), evs[1..]);
    }
  }
}
