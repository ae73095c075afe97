/**
 * What arrives over a channel: in every run of FlowControl each end writes out,
 * unaltered and in order, what the other end's descriptors delivered.  `ext`
 * selects the extended-data stream instead of the data stream.
 */
module FlowStreams {
  import opened Bytes
  import opened Buffers
  import opened Channels
  import opened FlowControl

  function Carries(m: Message, ext: bool): seq<byte> {
    match m
    case Data(data) => if ext then [] else data
    case ExtendedData(data) => if ext then data else []
    case WindowAdjust(_) => []
  }

  function Carried(ms: seq<Message>, ext: bool): seq<byte> {
    if ms == [] then [] else Carries(ms[0], ext) + Carried(ms[1..], ext)
  }

  lemma {:induction false} CarriedConcat(ms: seq<Message>, ns: seq<Message>, ext: bool)
    ensures Carried(ms + ns, ext) == Carried(ms, ext) + Carried(ns, ext)
  {
    hide Carries;
    if ms == [] {
      assert ms + ns == ns;
    } else {
      CarriedConcat(ms[1..], ns, ext);
      assert (ms + ns)[1..] == ms[1..] + ns;
      Regroup(Carries(ms[0], ext), Carried(ms[1..], ext), Carried(ns, ext));
    }
  }

  lemma Regroup(a: seq<byte>, b: seq<byte>, c: seq<byte>)
    ensures a + (b + c) == a + b + c
  {
  }

  /** The bytes on their way out at the sender, and on their way out of the receiver. */
  function Unsent(h: Half, ext: bool): seq<byte> {
    if ext then h.e.extended + h.esource else h.e.input + h.source
  }

  function Arrived(h: Half, ext: bool): seq<byte> {
    if ext then h.esink + h.e.extended else h.sink + h.e.output
  }

  function Out(h: Half, ext: bool): seq<byte> {
    if ext then h.esink else h.sink
  }

  /** The whole stream, from what the receiver wrote first to what the sender's descriptor delivers last. */
  function Stream(sender: Half, receiver: Half, ext: bool): seq<byte> {
    Arrived(receiver, ext) + (Carried(receiver.inbox, ext) + Unsent(sender, ext))
  }

  /** The receiver still accepts the stream. */
  predicate Accepting(h: Half, ext: bool) {
    if ext then h.e.phase.efd else h.e.phase.ostate.OutputOpen?
  }

  /** Extended data flows from an end that reads its extended descriptor to one that writes it. */
  predicate Paired(sender: Half, receiver: Half, ext: bool) {
    ext ==> sender.e.usage.Read? && receiver.e.usage.Write?
  }

  /** Nothing is lost while the receiver accepts; afterwards what it writes is still a prefix. */
  predicate Faithful(sender: Half, receiver: Half, ext: bool, total: seq<byte>) {
    Paired(sender, receiver, ext) ==>
      if Accepting(receiver, ext) then Stream(sender, receiver, ext) == total
      else (if ext then receiver.esink else Arrived(receiver, ext)) <= total
  }

  /** The buffer that feeds the stream. */
  function Buffered(e: Endpoint, ext: bool): seq<byte> {
    if ext then e.extended else e.input
  }

  lemma CarriedOne(m: Message, ext: bool)
    ensures Carried([m], ext) == Carries(m, ext)
  {
    assert [m][1..] == [];
    assert Carries(m, ext) + [] == Carries(m, ext);
  }

  lemma PollInputCarries(e: Endpoint, ext: bool)
    ensures var (e', ms) := PollInput(e);
            Carried(ms, ext) + Buffered(e', ext) == Buffered(e, ext) &&
            e' == e.(input := e'.input, remoteWindow := e'.remoteWindow)
  {
    var (_, ms) := PollInput(e);
    if ms != [] {
      CarriedOne(ms[0], ext);
    }
  }

  lemma PollExtendedCarries(e: Endpoint, ext: bool)
    ensures var (e', ms) := PollExtended(e);
            Carried(ms, ext) + Buffered(e', ext) == Buffered(e, ext) &&
            e' == e.(extended := e'.extended, remoteWindow := e'.remoteWindow) &&
            (!e.usage.Read? ==> e'.extended == e.extended)
  {
    var (_, ms) := PollExtended(e);
    if ms != [] {
      CarriedOne(ms[0], ext);
    }
  }

  lemma PollCarries(e: Endpoint, ext: bool)
    ensures var (e', ms) := Poll(e);
            Carried(ms, ext) + Buffered(e', ext) == Buffered(e, ext) &&
            e'.output == e.output && e'.phase == e.phase && (!e.usage.Read? ==> e'.extended == e.extended)
  {
    hide PollInput, PollExtended;
    var (e1, m1) := PollInput(e);
    var (e2, m2) := PollExtended(e1);
    PollInputCarries(e, ext);
    PollExtendedCarries(e1, ext);
    CarriedConcat(m1, m2, ext);
    assert Carried(m1, ext) + Carried(m2, ext) + Buffered(e2, ext) == Carried(m1, ext) + (Carried(m2, ext) + Buffered(e2, ext));
  }

  lemma SendStream(me: Half, peer: Half, ext: bool)
    ensures var (me', peer') := Act(me, peer, Send); Stream(me', peer', ext) == Stream(me, peer, ext)
  {
    hide Poll, Carried;
    var (e, ms) := Poll(me.e);
    PollCarries(me.e, ext);
    CarriedConcat(peer.inbox, ms, ext);
    var (c, m) := (Carried(peer.inbox, ext), Carried(ms, ext));
    var tail := if ext then me.esource else me.source;
    assert c + m + (Buffered(e, ext) + tail) == c + (m + Buffered(e, ext) + tail);
  }

  lemma SendKeeps(me: Half, peer: Half, ext: bool, mine: seq<byte>, theirs: seq<byte>)
    requires Faithful(me, peer, ext, mine) && Faithful(peer, me, ext, theirs)
    ensures var (me', peer') := Act(me, peer, Send);
            Faithful(me', peer', ext, mine) && Faithful(peer', me', ext, theirs)
  {
    hide Poll, Carried;
    SendStream(me, peer, ext);
    PollCarries(me.e, ext);
    ActLimits(me, peer, Send);
  }

  lemma AdjustKeeps(me: Half, peer: Half, ext: bool, mine: seq<byte>, theirs: seq<byte>)
    requires Faithful(me, peer, ext, mine) && Faithful(peer, me, ext, theirs)
    ensures var (me', peer') := Act(me, peer, Adjust);
            Faithful(me', peer', ext, mine) && Faithful(peer', me', ext, theirs)
  {
    var (_, ms) := Replenish(me.e);
    CarriedConcat(peer.inbox, ms, ext);
    if ms != [] {
      CarriedOne(ms[0], ext);
    }
    assert Carried(peer.inbox, ext) + [] == Carried(peer.inbox, ext);
  }

  lemma DeliverStream(me: Half, peer: Half, ext: bool)
    requires Flow(peer, me) && me.inbox != [] && Accepting(me, ext) && (ext ==> me.e.usage.Write?)
    ensures var (me', peer') := Act(me, peer, Deliver); Stream(peer', me', ext) == Stream(peer, me, ext)
  {
    var m := me.inbox[0];
    TakeArrives(me, m, ext);
    hide Take, Arrived, Carries;
    var (rest, unsent) := (Carried(me.inbox[1..], ext), Unsent(peer, ext));
    assert Arrived(me, ext) + Carries(m, ext) + (rest + unsent) ==
           Arrived(me, ext) + (Carries(m, ext) + rest + unsent);
  }

  lemma DeliverKeeps(me: Half, peer: Half, ext: bool, mine: seq<byte>, theirs: seq<byte>)
    requires Safe(me, peer) && Faithful(me, peer, ext, mine) && Faithful(peer, me, ext, theirs)
    ensures var (me', peer') := Act(me, peer, Deliver);
            Faithful(me', peer', ext, mine) && Faithful(peer', me', ext, theirs)
  {
    if me.inbox != [] {
      assert Charge(me.inbox[0]) <= me.e.localWindow && Flow(peer, me);
      TakeArrives(me, me.inbox[0], ext);
      hide Take, Carried, Safe, Flow;
      if Accepting(me, ext) && (ext ==> me.e.usage.Write?) {
        DeliverStream(me, peer, ext);
      }
    }
  }

  /** A covered message adds what it carries to the receiver's buffer, and touches nothing of its own sending. */
  lemma TakeArrives(me: Half, m: Message, ext: bool)
    requires Charge(m) <= me.e.localWindow
    ensures var me' := me.(e := Take(me.e, m));
            (Accepting(me, ext) && (ext ==> me.e.usage.Write?) ==> Arrived(me', ext) == Arrived(me, ext) + Carries(m, ext)) &&
            (!Accepting(me, ext) && !ext ==> Arrived(me', ext) == Arrived(me, ext)) &&
            me'.e.phase == me.e.phase && me'.e.usage == me.e.usage &&
            (!ext || !me.e.usage.Write? ==> Unsent(me', ext) == Unsent(me, ext))
  {
    var (out, buffered) := if ext then (me.esink, me.e.extended) else (me.sink, me.e.output);
    assert out + (buffered + Carries(m, ext)) == out + buffered + Carries(m, ext);
    assert out + buffered + [] == out + buffered;
  }

  lemma ReadFdKeeps(me: Half, peer: Half, n: nat, ext: bool, mine: seq<byte>, theirs: seq<byte>)
    requires Faithful(me, peer, ext, mine) && Faithful(peer, me, ext, theirs)
    ensures var (me', peer') := Act(me, peer, ReadFd(n));
            Faithful(me', peer', ext, mine) && Faithful(peer', me', ext, theirs)
  {
    hide Carried;
    var k := Min(Min(n, CHAN_RBUF), |me.source|);
    assert me.e.input + me.source[..k] + me.source[k..] == me.e.input + me.source;
  }

  lemma WriteFdKeeps(me: Half, peer: Half, n: nat, ext: bool, mine: seq<byte>, theirs: seq<byte>)
    requires Faithful(me, peer, ext, mine) && Faithful(peer, me, ext, theirs)
    ensures var (me', peer') := Act(me, peer, WriteFd(n));
            Faithful(me', peer', ext, mine) && Faithful(peer', me', ext, theirs)
  {
    hide Carried;
    var k := Min(n, |me.e.output|);
    assert me.sink + me.e.output[..k] + me.e.output[k..] == me.sink + me.e.output;
  }

  lemma ReadEfdKeeps(me: Half, peer: Half, n: nat, ext: bool, mine: seq<byte>, theirs: seq<byte>)
    requires Faithful(me, peer, ext, mine) && Faithful(peer, me, ext, theirs)
    ensures var (me', peer') := Act(me, peer, ReadEfd(n));
            Faithful(me', peer', ext, mine) && Faithful(peer', me', ext, theirs)
  {
    hide Carried;
    var k := Min(Min(n, CHAN_RBUF), |me.esource|);
    assert me.e.extended + me.esource[..k] + me.esource[k..] == me.e.extended + me.esource;
  }

  lemma WriteEfdKeeps(me: Half, peer: Half, n: nat, ext: bool, mine: seq<byte>, theirs: seq<byte>)
    requires Faithful(me, peer, ext, mine) && Faithful(peer, me, ext, theirs)
    ensures var (me', peer') := Act(me, peer, WriteEfd(n));
            Faithful(me', peer', ext, mine) && Faithful(peer', me', ext, theirs)
  {
    hide Carried;
    var k := Min(n, |me.e.extended|);
    assert me.esink + me.e.extended[..k] + me.e.extended[k..] == me.esink + me.e.extended;
  }

  lemma TransitionKeeps(me: Half, peer: Half, phase: Phase, ext: bool, mine: seq<byte>, theirs: seq<byte>)
    requires Faithful(me, peer, ext, mine) && Faithful(peer, me, ext, theirs)
    ensures var (me', peer') := Act(me, peer, Transition(phase));
            Faithful(me', peer', ext, mine) && Faithful(peer', me', ext, theirs)
  {
    hide Carried;
    assert me.sink + [] <= me.sink + me.e.output && me.esink <= me.esink + me.e.extended;
    assert Arrived(me, ext) <= Stream(peer, me, ext);
  }

  lemma ActKeeps(me: Half, peer: Half, act: Action, ext: bool, mine: seq<byte>, theirs: seq<byte>)
    requires Safe(me, peer) && Faithful(me, peer, ext, mine) && Faithful(peer, me, ext, theirs)
    ensures var (me', peer') := Act(me, peer, act);
            Faithful(me', peer', ext, mine) && Faithful(peer', me', ext, theirs)
  {
    hide Act, Safe, Faithful;
    match act
    case Send => SendKeeps(me, peer, ext, mine, theirs);
    case Adjust => AdjustKeeps(me, peer, ext, mine, theirs);
    case Deliver => DeliverKeeps(me, peer, ext, mine, theirs);
    case ReadFd(n) => ReadFdKeeps(me, peer, n, ext, mine, theirs);
    case WriteFd(n) => WriteFdKeeps(me, peer, n, ext, mine, theirs);
    case ReadEfd(n) => ReadEfdKeeps(me, peer, n, ext, mine, theirs);
    case WriteEfd(n) => WriteEfdKeeps(me, peer, n, ext, mine, theirs);
    case Transition(phase) => TransitionKeeps(me, peer, phase, ext, mine, theirs);
  }

  lemma {:induction false} RunKeeps(s: System, evs: seq<Event>, ext: bool, fromA: seq<byte>, fromB: seq<byte>)
    requires Safe(s.a, s.b) && Faithful(s.a, s.b, ext, fromA) && Faithful(s.b, s.a, ext, fromB)
    ensures var t := Run(s, evs); Faithful(t.a, t.b, ext, fromA) && Faithful(t.b, t.a, ext, fromB)
    decreases |evs|
  {
    hide Act, Safe, Faithful;
    if evs != [] {
      if evs[0].left {
        ActSafe(s.a, s.b, evs[0].act);
        ActKeeps(s.a, s.b, evs[0].act, ext, fromA, fromB);
      } else {
        SafeSymmetric(s.a, s.b);
        ActSafe(s.b, s.a, evs[0].act);
        ActKeeps(s.b, s.a, evs[0].act, ext, fromB, fromA);
      }
      var t := Step(s, evs[0]);
      SafeSymmetric(t.a, t.b);
      RunKeeps(t, evs[1..], ext, fromA, fromB);
    }
  }

  lemma SafeSymmetric(a: Half, b: Half)
    ensures Safe(a, b) == Safe(b, a)
  {
  }

  /** What the two ends were given: replies in the output buffer, then the peer's early input and its descriptor. */
  function Payload(sender: Half, receiver: Half, ext: bool): seq<byte> {
    if ext then sender.esource else receiver.e.output + (sender.e.input + sender.source)
  }

  lemma InitialFaithful(s: System, ext: bool)
    requires Initial(s)
    ensures Faithful(s.a, s.b, ext, Payload(s.a, s.b, ext)) && Faithful(s.b, s.a, ext, Payload(s.b, s.a, ext))
  {
    OpenedStream(s.a, s.b, ext);
    OpenedStream(s.b, s.a, ext);
  }

  lemma OpenedStream(sender: Half, receiver: Half, ext: bool)
    requires JustOpened(sender, receiver) && JustOpened(receiver, sender)
    ensures Paired(sender, receiver, ext) ==> Stream(sender, receiver, ext) == Payload(sender, receiver, ext)
  {
    hide Carried;
    AdjustsCarryNone(receiver.inbox, ext);
  }

  lemma {:induction false} AdjustsCarryNone(ms: seq<Message>, ext: bool)
    requires forall m :: m in ms ==> m.WindowAdjust?
    ensures Carried(ms, ext) == []
  {
    if ms != [] {
      assert ms[0] in ms;
      AdjustsCarryNone(ms[1..], ext);
    }
  }

  /** In every run each end writes out a prefix of what the other end was given, after its own replies. */
  lemma InOrderDelivery(s: System, evs: seq<Event>, ext: bool)
    requires Initial(s)
    ensures var t := Run(s, evs);
            (Paired(s.a, s.b, ext) ==> Out(t.b, ext) <= Payload(s.a, s.b, ext)) &&
            (Paired(s.b, s.a, ext) ==> Out(t.a, ext) <= Payload(s.b, s.a, ext))
  {
    InitialSafe(s);
    InitialFaithful(s, ext);
    RunSafe(s, evs);
    RunKeeps(s, evs, ext, Payload(s.a, s.b, ext), Payload(s.b, s.a, ext));
  }
}
