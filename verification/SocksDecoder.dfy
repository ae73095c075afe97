/** The decoder working on the channel's buffers, proved against Socks.Poll. */
module SocksDecoder {
  import opened Bytes
  import opened Buffers
  import Socks

  datatype Kind = Dynamic | Opening | Dead

  class DynamicChannel {
    var kind: Kind
    const input: Buffer
    const output: Buffer
    var path: Socks.Host
    var hostPort: nat
    var authDone: bool

    ghost predicate Valid()
      reads this, input, output
    {
      input != output && input.Valid() && output.Valid() && input.buf != output.buf
    }

    ghost function View(): Socks.State
      requires Valid()
      reads this, input, input.buf, output, output.buf
    {
      var status := match kind
                    case Dynamic => Socks.Reading
                    case Opening => Socks.Opening(path, hostPort)
                    case Dead => Socks.Dead;
      Socks.State(status, if kind == Dead then [] else input.Contents(), output.Contents(), authDone)
    }

    /** Space for the longest reply; without it buffer_append would be fatal. */
    ghost predicate Room()
      requires Valid()
      reads this, input, output, output.buf
    {
      |output.Contents()| + 10 <= SAFE_CONTENTS
    }

    constructor ()
      ensures Valid() && fresh(input) && fresh(output) && fresh(input.buf) && fresh(output.buf)
      ensures View() == Socks.INITIAL && Room()
    {
      kind, path, hostPort, authDone := Dynamic, Socks.Name([]), 0, false;
      input := new Buffer();
      output := new Buffer();
    }

    method Reply(bytes: seq<byte>)
      requires Valid() && Room() && |bytes| <= 10
      modifies output, output.buf
      ensures Valid() && (output.buf == old(output.buf) || fresh(output.buf))
      ensures output.Contents() == old(output.Contents()) + bytes && input.Contents() == old(input.Contents())
    {
      var ok := output.Append(bytes);
    }

    /** The loop that looks for the terminating NULs. */
    method FindNuls(p: seq<byte>, need: nat) returns (r: Socks.Scan)
      requires need >= 1
      ensures r == Socks.ScanNuls(p, 8, need)
    {
      var found, i := 0, 8;
      while i < |p|
        invariant 8 <= i && found < need
        invariant Socks.ScanNuls(p, 8, need) == Socks.ScanNuls(p, i, need - found)
      {
        if p[i] == 0 {
          found := found + 1;
          if found == need {
            return Socks.Found(i);
          }
        }
        if i > 1024 {
          return Socks.TooLong;
        }
        i := i + 1;
      }
      r := Socks.Short;
    }

    method StrLen(p: seq<byte>) returns (n: nat)
      ensures n == Socks.Nul(p, 0)
    {
      n := 0;
      while n < |p| && p[n] != 0
        invariant n <= |p| && Socks.Nul(p, 0) == Socks.Nul(p, n)
      {
        n := n + 1;
      }
    }

    /** The fixed part and the user name with its NUL. */
    method TakeUser(p: seq<byte>) returns (request: seq<byte>, rest: seq<byte>)
      requires Valid() && p == input.Contents() && |p| >= 8 && 8 + Socks.Nul(p[8..], 0) < |p|
      modifies input`offset
      ensures Valid() && request == p[..8] && input.Contents() == rest == p[8 + Socks.Nul(p[8..], 0) + 1..]
    {
      hide Socks.Nul;
      var ok;
      ok, request := input.Get(8);
      var len := StrLen(p[8..]);
      DropTwice(p, 8, len + 1);
      ok := input.Consume(len + 1);
      rest := p[8 + len + 1..];
    }

    /** The host name of SOCKS4A with its NUL, unless it is too long. */
    method TakeHost(q: seq<byte>) returns (ok: bool)
      requires Valid() && q == input.Contents() && Socks.Nul(q, 0) < |q|
      modifies this`path, input`offset
      ensures Valid() && ok == (Socks.Nul(q, 0) + 1 <= Socks.NI_MAXHOST)
      ensures ok ==> path == Socks.Name(q[..Socks.Nul(q, 0)]) && input.Contents() == q[Socks.Nul(q, 0) + 1..]
    {
      hide Socks.Nul;
      var len := StrLen(q);
      ok := len + 1 <= Socks.NI_MAXHOST;
      if ok {
        path := Socks.Name(q[..len]);
        var consumed := input.Consume(len + 1);
      }
    }

    /** Consume a request whose end the scan has found. */
    method TakeStrings(p: seq<byte>, pos: nat, need: nat) returns (ok: bool, request: seq<byte>)
      requires Valid() && p == input.Contents() && |p| >= 8 && need == if Socks.Is4A(p) then 2 else 1
      requires Socks.ScanNuls(p, 8, need) == Socks.Found(pos)
      modifies this`path, input`offset
      ensures Valid() && request == p[..8] && 8 <= pos < |p| && ok == !Socks.HostTooLong(p, pos)
      ensures ok ==> input.Contents() == p[pos + 1..] && path == Socks.Host4(p, pos)
    {
      hide Socks.ScanNuls, Socks.Nul, Socks.Host4, Socks.Is4A, Socks.HostTooLong;
      if need == 1 {
        OneString(p, pos);
      } else {
        TwoStrings(p, pos);
      }
      var rest;
      request, rest := TakeUser(p);
      if need == 1 {
        SliceTwice(p);
        path := Socks.Ip4(request[4..8]);
        ok := true;
      } else {
        DropTwice(p, 8 + Socks.Nul(p[8..], 0) + 1, Socks.Nul(rest, 0) + 1);
        ok := TakeHost(rest);
      }
    }

    /** channel_decode_socks4; the buffer is touched only when a whole request is there. */
    method Decode4() returns (ret: int)
      requires Valid() && Room() && kind == Dynamic
      modifies this`path, this`hostPort, input`offset, output, output.buf
      ensures Valid() && (output.buf == old(output.buf) || fresh(output.buf))
      ensures ret < 0 ==> Socks.Decode4(old(View())) == Socks.Kill(old(View())) && output.Contents() == old(output.Contents())
      ensures ret == 0 ==> View() == old(View()) == Socks.Decode4(old(View()))
      ensures ret > 0 ==> Socks.Decode4(old(View())) ==
                          Socks.State(Socks.Opening(path, hostPort), input.Contents(), output.Contents(), authDone)
    {
      hide Socks.ScanNuls, Socks.Host4, Socks.HostTooLong, Socks.Is4A, Socks.Port;
      var p := input.buf[input.offset..input.end];
      assert p == input.Contents();
      if |p| < 8 {
        return 0;
      }
      var need := 1;
      if Socks.Is4A(p) {
        need := 2;
      }
      var r := FindNuls(p, need);
      if r.Short? {
        return 0;
      }
      if r.TooLong? {
        return -1;
      }
      var ok, request := TakeStrings(p, r.pos, need);
      if !ok {
        return -1;
      }
      hostPort := Socks.Port(request[2], request[3]);
      if request[1] != 1 {
        return -1;
      }
      Reply(Socks.REPLY4);
      ret := 1;
    }

    method OffersNoAuth(p: seq<byte>, nmethods: nat) returns (found: bool)
      requires nmethods + 2 <= |p|
      ensures found == (0 in p[2..nmethods + 2])
    {
      for i := 2 to nmethods + 2
        invariant 0 !in p[2..i]
      {
        if p[i] == 0 {
          assert p[2..nmethods + 2][i - 2] == 0;
          return true;
        }
      }
      found := false;
    }

    /** The first half of channel_decode_socks5. */
    method DecodeGreeting() returns (ret: int)
      requires Valid() && Room() && kind == Dynamic && !authDone
      modifies this`authDone, input`offset, output, output.buf
      ensures Valid() && (output.buf == old(output.buf) || fresh(output.buf)) && ret <= 0
      ensures ret < 0 ==> Socks.Greet(old(View())) == Socks.Kill(old(View())) &&
                          output.Contents() == old(output.Contents()) && !authDone
      ensures ret == 0 ==> View() == Socks.Greet(old(View()))
    {
      var p := input.buf[input.offset..input.end];
      assert p == input.Contents();
      if |p| < 2 {
        return 0;
      }
      var nmethods := p[1] as int;
      if |p| < nmethods + 2 {
        return 0;
      }
      var found := OffersNoAuth(p, nmethods);
      if !found {
        return -1;
      }
      var ok := input.Consume(nmethods + 2);
      Reply(Socks.METHOD5);
      authDone := true;
      ret := 0;
    }

    /** The second half, once the method has been agreed. */
    method DecodeRequest() returns (ret: int)
      requires Valid() && Room() && kind == Dynamic && authDone
      modifies this`path, this`hostPort, input`offset, output, output.buf
      ensures Valid() && (output.buf == old(output.buf) || fresh(output.buf))
      ensures ret < 0 ==> Socks.Request5(old(View())) == Socks.Kill(old(View())) && output.Contents() == old(output.Contents())
      ensures ret == 0 ==> View() == old(View()) == Socks.Request5(old(View()))
      ensures ret > 0 ==> Socks.Request5(old(View())) ==
                          Socks.State(Socks.Opening(path, hostPort), input.Contents(), output.Contents(), authDone)
    {
      hide Socks.Host5, Socks.Port;
      var p := input.buf[input.offset..input.end];
      assert p == input.Contents();
      if |p| < 5 {
        return 0;
      }
      if p[1] != 1 || p[2] != 0 {
        return -1;
      }
      var addrlen: nat;
      if p[3] == 1 {
        addrlen := 4;
      } else if p[3] == 3 {
        addrlen := p[4];
      } else if p[3] == 4 {
        addrlen := 16;
      } else {
        return -1;
      }
      var need := 4 + addrlen + 2;
      if p[3] == 3 {
        need := need + 1;
      }
      if |p| < need {
        return 0;
      }
      TakeAddress(p, if p[3] == 3 then 5 else 4, addrlen);
      Reply(Socks.REPLY5);
      ret := 1;
    }

    method TakePieces(p: seq<byte>, at: nat, len: nat) returns (addr: seq<byte>, port: seq<byte>)
      requires Valid() && p == input.Contents() && at + len + 2 <= |p|
      modifies input`offset
      ensures Valid() && input.Contents() == p[at + len + 2..]
      ensures addr == p[at..at + len] && port == [p[at + len], p[at + len + 1]]
    {
      Pieces(p, at, len);
      var ok := input.Consume(at);
      ok, addr := input.Get(len);
      ok, port := input.Get(2);
    }

    /** Consume the request and keep its address and port. */
    method TakeAddress(p: seq<byte>, at: nat, len: nat)
      requires Valid() && p == input.Contents() && |p| >= 4 && at + len + 2 <= |p|
      modifies this`path, this`hostPort, input`offset
      ensures Valid() && input.Contents() == p[at + len + 2..]
      ensures path == Socks.Host5(p[3], p[at..at + len]) && hostPort == Socks.Port(p[at + len], p[at + len + 1])
    {
      hide Socks.Nul, Socks.Port;
      var addr, port := TakePieces(p, at, len);
      if p[3] == 1 {
        path := Socks.Ip4(addr);
      } else if p[3] == 4 {
        path := Socks.Ip6(addr);
      } else {
        var n := StrLen(addr);
        path := Socks.Name(addr[..n]);
      }
      hostPort := Socks.Port(port[0], port[1]);
    }

    /** channel_pre_dynamic */
    method PreDynamic()
      requires Valid() && Room()
      modifies this, input`offset, output, output.buf
      ensures Valid() && View() == Socks.Poll(old(View()))
    {
      hide Socks.Decode4, Socks.Greet, Socks.Request5;
      if kind != Dynamic || input.Len() < 3 {
        return;
      }
      var ret := -1;
      var version := input.buf[input.offset];
      assert version == input.Contents()[0];
      if version == 4 {
        ret := Decode4();
      } else if version == 5 {
        if authDone {
          ret := DecodeRequest();
        } else {
          ret := DecodeGreeting();
        }
      }
      if ret < 0 {
        kind := Dead;
      } else if ret > 0 {
        kind := Opening;
      }
    }

    /** Bytes read from the client's socket. */
    method Read(chunk: seq<byte>) returns (ok: bool)
      requires Valid()
      modifies input, input.buf
      ensures Valid() && (ok ==> View() == Socks.Arrive(old(View()), chunk))
      ensures |chunk| <= BUFFER_MAX_CHUNK && |old(input.Contents())| + |chunk| <= SAFE_CONTENTS ==> ok
    {
      ok := input.Append(chunk);
    }
  }

  lemma Pieces(p: seq<byte>, at: nat, len: nat)
    requires at + len + 2 <= |p|
    ensures p[at..][..len] == p[at..at + len] && p[at..][len..][2..] == p[at + len + 2..]
    ensures p[at..][len..][..2] == [p[at + len], p[at + len + 1]]
  {
  }

  lemma {:induction false} NulFrom(p: seq<byte>, k: nat, i: nat)
    requires k <= i <= |p|
    ensures Socks.Nul(p[k..], i - k) == Socks.Nul(p, i) - k
    decreases |p| - i
  {
    if i < |p| {
      assert p[k..][i - k] == p[i];
      NulFrom(p, k, i + 1);
    }
  }

  lemma NulShift(p: seq<byte>, k: nat)
    requires k <= |p|
    ensures Socks.Nul(p[k..], 0) == Socks.Nul(p, k) - k
  {
    NulFrom(p, k, k);
  }

  /** Where the strings lie once the scan has found them. */
  lemma OneString(p: seq<byte>, pos: nat)
    requires |p| >= 8 && !Socks.Is4A(p) && Socks.ScanNuls(p, 8, 1) == Socks.Found(pos)
    ensures 8 <= pos < |p| && 8 + Socks.Nul(p[8..], 0) == pos
    ensures Socks.Host4(p, pos) == Socks.Ip4(p[4..8]) && !Socks.HostTooLong(p, pos)
  {
    hide Socks.ScanNuls, Socks.Nul, Socks.Is4A;
    NulShift(p, 8);
    ScanFinds(p, 8, pos);
  }

  lemma TwoStrings(p: seq<byte>, pos: nat)
    requires |p| >= 8 && Socks.Is4A(p) && Socks.ScanNuls(p, 8, 2) == Socks.Found(pos)
    ensures var u := 8 + Socks.Nul(p[8..], 0);
            8 <= u < pos < |p| && pos == u + 1 + Socks.Nul(p[u + 1..], 0) &&
            Socks.Host4(p, pos) == Socks.Name(p[u + 1..][..Socks.Nul(p[u + 1..], 0)]) &&
            Socks.HostTooLong(p, pos) == (Socks.Nul(p[u + 1..], 0) + 1 > Socks.NI_MAXHOST)
  {
    hide Socks.ScanNuls, Socks.Nul, Socks.Is4A;
    NulShift(p, 8);
    ScanTwo(p, 8, pos);
    var u := Socks.Nul(p, 8);
    NulShift(p, u + 1);
    TakeOfDrop(p, u + 1, pos);
  }

  lemma TakeOfDrop(p: seq<byte>, a: nat, b: nat)
    requires a <= b <= |p|
    ensures p[a..][..b - a] == p[a..b]
  {
  }

  lemma {:induction false} ScanFinds(p: seq<byte>, i: nat, pos: nat)
    requires i <= 1025 && Socks.ScanNuls(p, i, 1) == Socks.Found(pos)
    ensures pos <= 1025 && Socks.Nul(p, i) == pos
    decreases |p| - i
  {
    if i < |p| && p[i] != 0 {
      ScanFinds(p, i + 1, pos);
    }
  }

  lemma {:induction false} ScanTwo(p: seq<byte>, i: nat, pos: nat)
    requires i <= 1025 && Socks.ScanNuls(p, i, 2) == Socks.Found(pos)
    ensures i <= |p| && Socks.Nul(p, i) < pos <= 1025 && pos < |p| && Socks.Nul(p, Socks.Nul(p, i) + 1) == pos
    decreases |p| - i
  {
    if i < |p| {
      if p[i] == 0 {
        ScanFinds(p, i + 1, pos);
      } else {
        ScanTwo(p, i + 1, pos);
      }
    }
  }

  lemma DropTwice(p: seq<byte>, a: nat, b: nat)
    requires a + b <= |p|
    ensures p[a..][b..] == p[a + b..]
  {
  }

  lemma SliceTwice(p: seq<byte>)
    requires |p| >= 8
    ensures p[..8][4..8] == p[4..8]
  {
  }
}
