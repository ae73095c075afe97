/**
 * One end of an SSH2 stream channel (channels.c; section 5.2 of RFC 4254).
 *
 * `Endpoint` is the value of a channel, and the functions on it say what each
 * handler does, with unsigned 32-bit arithmetic.  `Channel` is the structure the
 * C code updates in place, on real buffers.
 */
module Channels {
  import opened Bytes
  import opened Buffers

  const CHAN_RBUF: int := 16 * 1024
  const CHAN_SES_PACKET_DEFAULT: int := 32 * 1024
  const CHAN_SES_WINDOW_DEFAULT: int := 64 * CHAN_SES_PACKET_DEFAULT

  datatype Usage = Ignore | Read | Write
  datatype InputState = InputOpen | InputWaitDrain | InputWaitOclose | InputClosed
  datatype OutputState = OutputOpen | OutputWaitDrain | OutputWaitIeof | OutputClosed

  /** What nchan.c controls; `closing` is CHAN_CLOSE_SENT or CHAN_CLOSE_RCVD. */
  datatype Phase = Phase(istate: InputState, ostate: OutputState, closing: bool, eofSent: bool, efd: bool)

  const EXTENDED_DATA_STDERR: nat := 1

  datatype Message =
    | Data(data: seq<byte>)
    | ExtendedData(data: seq<byte>)
    | WindowAdjust(adjust: u32)

  datatype Endpoint = Endpoint(
    remoteWindow: u32,
    remoteMaxpacket: u32,
    localWindow: u32,
    localWindowMax: u32,
    localMaxpacket: u32,
    localConsumed: u32,
    input: seq<byte>,
    output: seq<byte>,
    extended: seq<byte>,
    usage: Usage,
    phase: Phase)

  // ----- Handlers on values

  /** How much of `pending` bytes one packet takes. */
  function PacketLength(pending: nat, e: Endpoint): nat {
    Min(Min(pending, e.remoteWindow), e.remoteMaxpacket)
  }

  /** The data part of channel_output_poll. */
  function PollInput(e: Endpoint): (Endpoint, seq<Message>) {
    var len := PacketLength(|e.input|, e);
    if !e.phase.closing && (e.phase.istate.InputOpen? || e.phase.istate.InputWaitDrain?) && len > 0
    then (e.(input := e.input[len..], remoteWindow := Sub32(e.remoteWindow, len)), [Data(e.input[..len])])
    else (e, [])
  }

  /** The extended-data part of channel_output_poll. */
  function PollExtended(e: Endpoint): (Endpoint, seq<Message>) {
    var len := PacketLength(|e.extended|, e);
    if !e.phase.closing && !e.phase.eofSent && e.remoteWindow > 0 && |e.extended| > 0 && e.usage.Read?
    then (e.(extended := e.extended[len..], remoteWindow := Sub32(e.remoteWindow, len)), [ExtendedData(e.extended[..len])])
    else (e, [])
  }

  function Poll(e: Endpoint): (Endpoint, seq<Message>) {
    var (e1, m1) := PollInput(e);
    var (e2, m2) := PollExtended(e1);
    (e2, m1 + m2)
  }

  /** channel_input_data: consumption is faked once the output side is no longer open. */
  function TakeData(e: Endpoint, data: seq<byte>): Endpoint {
    if !e.phase.ostate.OutputOpen? then
      e.(localWindow := Sub32(e.localWindow, |data|), localConsumed := Add32(e.localConsumed, |data|))
    else if |data| > e.localWindow then e
    else e.(localWindow := Sub32(e.localWindow, |data|), output := e.output + data)
  }

  /** channel_input_extended_data */
  function TakeExtended(e: Endpoint, data: seq<byte>): Endpoint {
    if !e.phase.efd || !e.usage.Write? || |data| > e.localWindow then e
    else e.(localWindow := Sub32(e.localWindow, |data|), extended := e.extended + data)
  }

  /** channel_input_window_adjust */
  function TakeAdjust(e: Endpoint, adjust: u32): Endpoint {
    e.(remoteWindow := Add32(e.remoteWindow, adjust))
  }

  function Take(e: Endpoint, m: Message): Endpoint {
    match m
    case Data(data) => TakeData(e, data)
    case ExtendedData(data) => TakeExtended(e, data)
    case WindowAdjust(adjust) => TakeAdjust(e, adjust)
  }

  /** channel_handle_wfd after write() took `n` bytes. */
  function Written(e: Endpoint, n: nat): Endpoint
    requires n <= |e.output|
  {
    e.(output := e.output[n..], localConsumed := Add32(e.localConsumed, n))
  }

  /** channel_handle_efd after write() took `n` bytes. */
  function ExtendedWritten(e: Endpoint, n: nat): Endpoint
    requires n <= |e.extended|
  {
    e.(extended := e.extended[n..], localConsumed := Add32(e.localConsumed, n))
  }

  /** The guard of channel_check_window, with its unsigned subtraction and product. */
  predicate WindowLow(e: Endpoint) {
    !e.phase.closing &&
    (Sub32(e.localWindowMax, e.localWindow) > 3 * e.localMaxpacket % 0x1_0000_0000 ||
     e.localWindow < e.localWindowMax / 2) &&
    e.localConsumed > 0
  }

  /** channel_check_window: hands the consumed bytes back to the peer. */
  function Replenish(e: Endpoint): (Endpoint, seq<Message>) {
    if WindowLow(e)
    then (e.(localWindow := Add32(e.localWindow, e.localConsumed), localConsumed := 0), [WindowAdjust(e.localConsumed)])
    else (e, [])
  }

  /** channel_pre_open selects the read descriptor, allocator aside. */
  predicate Readable(e: Endpoint) {
    e.phase.istate.InputOpen? && e.remoteWindow > 0 && |e.input| < e.remoteWindow
  }

  /** channel_pre_open selects the write descriptor. */
  predicate Writable(e: Endpoint) {
    (e.phase.ostate.OutputOpen? || e.phase.ostate.OutputWaitDrain?) && |e.output| > 0
  }

  predicate FullyClosed(e: Endpoint) {
    e.phase.istate.InputClosed? && e.phase.ostate.OutputClosed?
  }

  /** channel_pre_open selects the extended descriptor for writing, or for reading. */
  predicate ExtendedWritable(e: Endpoint) {
    e.phase.efd && !FullyClosed(e) && e.usage.Write? && |e.extended| > 0
  }

  predicate ExtendedReadable(e: Endpoint) {
    e.phase.efd && !FullyClosed(e) && !e.phase.eofSent && !e.usage.Write? && |e.extended| < e.remoteWindow
  }

  /**
   * A channel when its type becomes SSH_CHANNEL_OPEN.  A dynamic forwarding has
   * by then answered the SOCKS client: `injected` bytes of replies, of which some
   * wait in `output` and the others were counted as consumed when written.
   */
  function Opened(window: u32, maxpack: u32, usage: Usage, efd: bool, rwindow: u32, rmaxpack: u32,
                  replies: seq<byte>, replied: u32): Endpoint {
    Endpoint(rwindow, rmaxpack, window, window, maxpack, replied, [], replies, [], usage,
             Phase(InputOpen, OutputOpen, false, false, efd))
  }

  // ----- The channel structure

  class Channel {
    var remoteWindow: u32
    var remoteMaxpacket: u32
    var localWindow: u32
    var localWindowMax: u32
    var localMaxpacket: u32
    var localConsumed: u32
    const input: Buffer
    const output: Buffer
    const extended: Buffer
    const usage: Usage
    var phase: Phase

    ghost predicate Valid()
      reads this, input, output, extended
    {
      input.Valid() && output.Valid() && extended.Valid() &&
      input != output && input != extended && output != extended &&
      input.buf != output.buf && input.buf != extended.buf && output.buf != extended.buf
    }

    ghost function View(): Endpoint
      requires Valid()
      reads this, input, output, extended, input.buf, output.buf, extended.buf
    {
      Endpoint(remoteWindow, remoteMaxpacket, localWindow, localWindowMax, localMaxpacket, localConsumed,
               input.Contents(), output.Contents(), extended.Contents(), usage, phase)
    }

    /** channel_new, with the peer's limits as its open message or confirmation gives them. */
    constructor (window: u32, maxpack: u32, usage: Usage, efd: bool, rwindow: u32, rmaxpack: u32)
      ensures Valid() && fresh(input) && fresh(output) && fresh(extended)
      ensures fresh(input.buf) && fresh(output.buf) && fresh(extended.buf)
      ensures View() == Opened(window, maxpack, usage, efd, rwindow, rmaxpack, [], 0)
    {
      input := new Buffer();
      output := new Buffer();
      extended := new Buffer();
      this.usage := usage;
      phase := Phase(InputOpen, OutputOpen, false, false, efd);
      localWindow, localWindowMax, localMaxpacket, localConsumed := window, window, maxpack, 0;
      remoteWindow, remoteMaxpacket := rwindow, rmaxpack;
    }

    /** channel_set_fds: a session created without a window gets one and grants it to the client. */
    method SetFds(windowMax: u32) returns (sent: seq<Message>)
      requires Valid()
      modifies this`localWindow, this`localWindowMax
      ensures Valid() && View() == old(View()).(localWindow := windowMax, localWindowMax := windowMax)
      ensures sent == [WindowAdjust(windowMax)]
    {
      localWindow, localWindowMax := windowMax, windowMax;
      sent := [WindowAdjust(localWindow)];
    }

    /** Sends buffered channel input. */
    method PollInputBuffer() returns (sent: seq<Message>)
      requires Valid() && !phase.closing
      modifies this`remoteWindow, input`offset
      ensures Valid() && (View(), sent) == PollInput(old(View()))
    {
      hide Buffer.Contents;
      sent := [];
      var len := input.Len();
      if (phase.istate.InputOpen? || phase.istate.InputWaitDrain?) && len > 0 {
        if len > remoteWindow {
          len := remoteWindow;
        }
        if len > remoteMaxpacket {
          len := remoteMaxpacket;
        }
        if len > 0 {
          var _, data := input.Get(len);
          sent := [Data(data)];
          remoteWindow := remoteWindow - len;
        }
      }
    }

    /** Sends buffered extended data. */
    method PollExtendedBuffer() returns (sent: seq<Message>)
      requires Valid() && !phase.closing
      modifies this`remoteWindow, extended`offset
      ensures Valid() && (View(), sent) == PollExtended(old(View()))
    {
      hide Buffer.Contents;
      sent := [];
      var len := extended.Len();
      if !phase.eofSent && remoteWindow > 0 && len > 0 && usage.Read? {
        if len > remoteWindow {
          len := remoteWindow;
        }
        if len > remoteMaxpacket {
          len := remoteMaxpacket;
        }
        var _, data := extended.Get(len);
        sent := [ExtendedData(data)];
        remoteWindow := remoteWindow - len;
      }
    }

    /** channel_output_poll for this channel */
    method OutputPoll() returns (sent: seq<Message>)
      requires Valid()
      modifies this`remoteWindow, input`offset, extended`offset
      ensures Valid() && (View(), sent) == Poll(old(View()))
    {
      hide Buffer.Contents;
      if phase.closing {
        sent := [];
        assert sent + sent == sent;
        return;
      }
      var data := PollInputBuffer();
      var more := PollExtendedBuffer();
      sent := data + more;
    }

    /** channel_input_data; `ok` is false where the append would be fatal. */
    method InputData(data: seq<byte>) returns (ok: bool)
      requires Valid() && |data| < 0x1_0000_0000
      modifies this`localWindow, this`localConsumed, output, output.buf
      ensures Valid()
      ensures ok ==> View() == TakeData(old(View()), data)
      ensures |data| <= BUFFER_MAX_CHUNK && |old(View()).output| + |data| <= SAFE_CONTENTS ==> ok
    {
      hide Buffer.Contents, Fits;
      if !phase.ostate.OutputOpen? {
        localWindow := Sub32(localWindow, |data|);
        localConsumed := Add32(localConsumed, |data|);
        return true;
      }
      if |data| > localWindow {
        return true;
      }
      localWindow := localWindow - |data|;
      ok := output.Append(data);
    }

    /** channel_input_extended_data */
    method InputExtendedData(data: seq<byte>, code: u32, eofRcvd: bool, bugExtEof: bool) returns (ok: bool)
      requires Valid() && |data| < 0x1_0000_0000
      modifies this`localWindow, extended, extended.buf
      ensures Valid()
      ensures eofRcvd && !bugExtEof ==> !ok && View() == old(View())
      ensures ok ==> View() == if code == EXTENDED_DATA_STDERR then TakeExtended(old(View()), data) else old(View())
      ensures (!eofRcvd || bugExtEof) && |data| <= BUFFER_MAX_CHUNK && |old(View()).extended| + |data| <= SAFE_CONTENTS ==> ok
    {
      hide Buffer.Contents, Fits;
      if eofRcvd && !bugExtEof {
        return false;
      }
      if !phase.efd || !usage.Write? || code != EXTENDED_DATA_STDERR {
        return true;
      }
      if |data| > localWindow {
        return true;
      }
      localWindow := localWindow - |data|;
      ok := extended.Append(data);
    }

    /** channel_input_window_adjust */
    method InputWindowAdjust(adjust: u32)
      requires Valid()
      modifies this`remoteWindow
      ensures Valid() && View() == TakeAdjust(old(View()), adjust)
    {
      remoteWindow := Add32(remoteWindow, adjust);
    }

    /** channel_check_window */
    method CheckWindow() returns (sent: seq<Message>)
      requires Valid()
      modifies this`localWindow, this`localConsumed
      ensures Valid() && (View(), sent) == Replenish(old(View()))
    {
      sent := [];
      if !phase.closing &&
         (Sub32(localWindowMax, localWindow) > 3 * localMaxpacket % 0x1_0000_0000 ||
          localWindow < localWindowMax / 2) &&
         localConsumed > 0 {
        sent := [WindowAdjust(localConsumed)];
        localWindow := Add32(localWindow, localConsumed);
        localConsumed := 0;
      }
    }

    /** The read part of channel_pre_open, which consults the allocator. */
    method PreRead() returns (readable: bool)
      requires Valid()
      modifies input`offset, input`end, input.buf
      ensures Valid() && View() == old(View())
      ensures readable ==> Readable(View()) && Fits(input.offset, input.end, input.alloc, CHAN_RBUF)
      ensures Readable(View()) && |View().input| + CHAN_RBUF <= SAFE_CONTENTS ==> readable
    {
      readable := false;
      if phase.istate.InputOpen? && remoteWindow > 0 && input.Len() < remoteWindow {
        ghost var o, e := input.offset, input.end;
        readable := input.CheckAlloc(CHAN_RBUF);
        AdmitsPredictsAppend(input.offset, input.end, input.alloc, CHAN_RBUF);
        if input.Len() + CHAN_RBUF <= SAFE_CONTENTS {
          SmallContentsFit(input.offset, input.end, input.alloc, CHAN_RBUF);
        }
      }
    }

    /** channel_pre_open: the descriptors it selects, extended ones for writing or else for reading. */
    method PreOpen() returns (readable: bool, writable: bool, ereadable: bool, ewritable: bool)
      requires Valid()
      modifies input`offset, input`end, input.buf
      ensures Valid() && View() == old(View())
      ensures readable ==> Readable(View()) && Fits(input.offset, input.end, input.alloc, CHAN_RBUF)
      ensures Readable(View()) && |View().input| + CHAN_RBUF <= SAFE_CONTENTS ==> readable
      ensures writable == Writable(View()) && ereadable == ExtendedReadable(View()) && ewritable == ExtendedWritable(View())
    {
      hide Fits, Buffer.Contents;
      readable := PreRead();
      writable := (phase.ostate.OutputOpen? || phase.ostate.OutputWaitDrain?) && output.Len() > 0;
      ereadable, ewritable := false, false;
      if phase.efd && !(phase.istate.InputClosed? && phase.ostate.OutputClosed?) {
        if usage.Write? && extended.Len() > 0 {
          ewritable := true;
        } else if !phase.eofSent && (usage.Read? || usage.Ignore?) && extended.Len() < remoteWindow {
          ereadable := true;
        }
      }
    }

    /** channel_handle_rfd after read() delivered `data`: never fatal if channel_pre_open admitted the read. */
    method HandleRfd(data: seq<byte>)
      requires Valid() && |data| <= CHAN_RBUF && Fits(input.offset, input.end, input.alloc, CHAN_RBUF)
      modifies input, input.buf
      ensures Valid() && View() == old(View()).(input := old(View()).input + data)
    {
      FitsMonotone(input.offset, input.end, input.alloc, CHAN_RBUF, |data|);
      var ok := input.Append(data);
    }

    /** channel_handle_wfd after write() took `n` bytes. */
    method HandleWfd(n: nat)
      requires Valid() && n <= |View().output|
      modifies this`localConsumed, output`offset
      ensures Valid() && View() == Written(old(View()), n)
    {
      hide Buffer.Contents, Fits;
      var olen := output.Len();
      if olen > 0 {
        var ok := output.Consume(n);
        localConsumed := Add32(localConsumed, olen - (output.Len()));
      }
    }

    /** channel_handle_efd after write() took `n` bytes. */
    method HandleEfdWrite(n: nat)
      requires Valid() && n <= |View().extended|
      modifies this`localConsumed, extended`offset
      ensures Valid() && View() == ExtendedWritten(old(View()), n)
    {
      hide Buffer.Contents, Fits;
      var ok := extended.Consume(n);
      localConsumed := Add32(localConsumed, n);
    }

    /** channel_handle_efd after read() delivered `data`. */
    method HandleEfdRead(data: seq<byte>) returns (ok: bool)
      requires Valid() && |data| <= CHAN_RBUF
      modifies extended, extended.buf
      ensures Valid()
      ensures ok ==> View() == if usage.Ignore? then old(View()) else old(View()).(extended := old(View()).extended + data)
      ensures |old(View()).extended| + |data| <= SAFE_CONTENTS ==> ok
    {
      if usage.Ignore? {
        return true;
      }
      ok := extended.Append(data);
    }
  }
}
