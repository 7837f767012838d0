/**
 Reading replies off a TCP connection (lib/modbus/modbus_tcp_client.c): recv may give any part of what was
 asked for; recv_response puts whole frames together again; the read call checks and decodes one.
 */
module TcpStream {
  import opened Words
  import opened Modbus
  import opened TcpAdu
  import Rtu = RtuClient

  /** What the n-th recv on a socket does: give up to so many bytes, time out, or fail. */
  datatype Answer = Gives(n: nat) | TimesOut | Breaks

  datatype Received = Bytes(b: seq<byte>) | Quiet | Lost

  class Socket {
    const world: nat -> Answer
    var unread: seq<byte>   // bytes on their way to the client
    var written: seq<byte>  // bytes the client has sent
    var calls: nat

    constructor (world: nat -> Answer, unread: seq<byte>)
      ensures this.world == world && this.unread == unread && written == [] && calls == 0
    {
      this.world, this.unread, this.written, this.calls := world, unread, [], 0;
    }

    method Recv(want: nat) returns (r: Received)
      requires want > 0
      modifies this`unread, this`calls
      ensures r.Bytes? ==> 0 < |r.b| <= want && old(unread) == r.b + unread
      ensures !r.Bytes? ==> unread == old(unread)
      ensures calls == old(calls) + 1
      ensures r.Bytes? <==> world(old(calls)).Gives? && old(unread) != []
      ensures r.Quiet? ==> TimedOut()
      ensures r.Lost? ==> Broke()
    {
      var a := world(calls);
      calls := calls + 1;
      match a {
        case TimesOut =>
          r := Quiet;
        case Breaks =>
          r := Lost;
        case Gives(n) =>
          var m := if n == 0 then 1 else if n < want then n else want;
          m := if m < |unread| then m else |unread|;
          if m == 0 {
            return Quiet;
          }
          r := Bytes(unread[..m]);
          unread := unread[m..];
      }
    }

    /** The last recv timed out: the peer was silent, or has nothing more to say. */
    predicate TimedOut()
      reads this
    {
      calls > 0 && (world(calls - 1).TimesOut? || (world(calls - 1).Gives? && unread == []))
    }

    /** The last recv failed. */
    predicate Broke()
      reads this
    {
      calls > 0 && world(calls - 1).Breaks?
    }

    method Send(bytes: seq<byte>, ok: bool)
      modifies this`written
      ensures written == if ok then old(written) + bytes else old(written)
    {
      if ok {
        written := written + bytes;
      }
    }

    /** One recv into a buffer. */
    method RecvInto(buf: array<byte>, at: nat, want: nat) returns (rc: int, got: nat)
      requires want > 0 && at + want <= buf.Length
      modifies this`unread, this`calls, buf
      ensures rc == 0 || rc == -1 || rc == -2
      ensures rc == 0 ==> 0 < got <= want && got <= |old(unread)|
      ensures rc == 0 ==> unread == old(unread)[got..] && buf[..] == Written(old(buf[..]), at, old(unread)[..got])
      ensures rc != 0 ==> unread == old(unread) && got == 0
      ensures rc == 0 <==> world(old(calls)).Gives? && old(unread) != []
      ensures rc == -2 ==> TimedOut()
      ensures rc == -1 ==> Broke()
    {
      var r := Recv(want);
      match r {
        case Quiet =>
          return -2, 0;
        case Lost =>
          return -1, 0;
        case Bytes(b) =>
          Place(buf, at, b);
          assert old(unread)[..|b|] == b;
          return 0, |b|;
      }
    }

    /** recv_exact: 0, or -2 on a timeout, or -1; on failure some bytes may be gone. */
    method RecvExact(buf: array<byte>, off: nat, len: nat) returns (rc: int)
      requires off + len <= buf.Length
      modifies this`unread, this`calls, buf
      ensures rc == 0 || rc == -1 || rc == -2
      ensures rc == 0 ==> len <= |old(unread)| && unread == old(unread)[len..]
      ensures rc == 0 ==> buf[..] == Written(old(buf[..]), off, old(unread)[..len])
      ensures rc != 0 ==> Suffix(unread, old(unread)) && |old(unread)| - |unread| < len
      ensures rc == -2 ==> TimedOut() && (world(calls - 1).Gives? ==> |old(unread)| < len)
      ensures rc == -1 ==> Broke()
      ensures (forall n :: world(n).Gives?) && len <= |old(unread)| ==> rc == 0
    {
      var n := 0;
      ghost var all, before := unread, buf[..];
      while n < len
        invariant n <= len && n <= |all| && unread == all[n..]
        invariant buf[..] == Written(before, off, all[..n])
      {
        var r, got := RecvInto(buf, off + n, len - n);
        if r != 0 {
          TailIsSuffix(all, n);
          return r;
        }
        WrittenFurther(before, off, all, n, got);
        n := n + got;
      }
      rc := 0;
    }
  }

  lemma WrittenFurther(buf: seq<byte>, off: nat, all: seq<byte>, n: nat, got: nat)
    requires n + got <= |all| && off + n + got <= |buf|
    ensures Written(Written(buf, off, all[..n]), off + n, all[n..][..got]) == Written(buf, off, all[..n + got])
    ensures all[n..][got..] == all[n + got..]
  {
    WrittenMore(buf, off, all[..n], all[n..][..got]);
    assert all[..n] + all[n..][..got] == all[..n + got];
  }

  lemma TailIsSuffix(all: seq<byte>, n: nat)
    requires n <= |all|
    ensures Suffix(all[n..], all)
  {
  }

  predicate Suffix(s: seq<byte>, t: seq<byte>) {
    |s| <= |t| && t[|t| - |s|..] == s
  }

  /** A buffer with some bytes written into it at a position. */
  function Written(buf: seq<byte>, at: nat, b: seq<byte>): (r: seq<byte>)
    requires at + |b| <= |buf|
    ensures |r| == |buf|
  {
    buf[..at] + b + buf[at + |b|..]
  }

  lemma WrittenMore(buf: seq<byte>, at: nat, a: seq<byte>, b: seq<byte>)
    requires at + |a| + |b| <= |buf|
    ensures Written(Written(buf, at, a), at + |a|, b) == Written(buf, at, a + b)
  {
  }

  /** The kernel's copy into the caller's buffer. */
  method Place(buf: array<byte>, at: nat, b: seq<byte>)
    requires at + |b| <= buf.Length
    modifies buf
    ensures buf[..] == Written(old(buf[..]), at, b)
  {
    var i := 0;
    while i < |b|
      invariant i <= |b|
      invariant forall j :: 0 <= j < buf.Length ==> buf[j] == if at <= j < at + i then b[j - at] else old(buf[j])
    {
      buf[at + i] := b[i];
      i := i + 1;
    }
  }

  // ---------------------------------------------------------------- frames in a stream

  /** The first frame of a stream, by its length field. */
  function NextAdu(s: seq<byte>): (r: Option<seq<byte>>)
    ensures r.Some? ==> |r.value| <= |s| && |r.value| <= MAX_ADU && s[..|r.value|] == r.value
  {
    if |s| < HEADER then None
    else
      var len := Join(s[4], s[5]);
      if len == 0 || len > MAX_ADU - HEADER || |s| < HEADER + len then None else Some(s[..HEADER + len])
  }

  predicate WellFormed(adu: seq<byte>) {
    |adu| >= HEADER && 0 < Join(adu[4], adu[5]) <= MAX_ADU - HEADER && |adu| == HEADER + Join(adu[4], adu[5])
  }

  /** What is left of a stream after k frames. */
  function AfterAdus(s: seq<byte>, k: nat): Option<seq<byte>>
    decreases k
  {
    if k == 0 then Some(s)
    else
      var a := NextAdu(s);
      if a.None? then None else AfterAdus(s[|a.value|..], k - 1)
  }

  /** The k-th frame read from a stream of frames is the k-th frame written to it. */
  lemma {:induction false} KthAdu(adus: seq<seq<byte>>, more: seq<byte>, k: nat)
    requires (forall i :: 0 <= i < |adus| ==> WellFormed(adus[i])) && k < |adus|
    ensures AfterAdus(Concat(adus) + more, k) == Some(Concat(adus[k..]) + more)
    ensures NextAdu(Concat(adus[k..]) + more) == Some(adus[k])
    decreases k
  {
    FirstAdu(adus, more);
    if k > 0 {
      KthAdu(adus[1..], more, k - 1);
      assert adus[1..][k - 1..] == adus[k..];
    } else {
      assert adus[0..] == adus;
    }
  }

  lemma AduFirst(a: seq<byte>, rest: seq<byte>)
    requires WellFormed(a)
    ensures NextAdu(a + rest) == Some(a) && (a + rest)[|a|..] == rest
  {
    assert (a + rest)[4] == a[4] && (a + rest)[5] == a[5];
  }

  lemma FirstAdu(adus: seq<seq<byte>>, more: seq<byte>)
    requires adus != [] && WellFormed(adus[0])
    ensures NextAdu(Concat(adus) + more) == Some(adus[0])
    ensures (Concat(adus) + more)[|adus[0]|..] == Concat(adus[1..]) + more
  {
    Regroup(adus[0], Concat(adus[1..]), more);
    AduFirst(adus[0], Concat(adus[1..]) + more);
  }

  lemma Regroup(a: seq<byte>, b: seq<byte>, c: seq<byte>)
    ensures (a + b) + c == a + (b + c)
  {
  }

  /** A header whose length field is 0 or more than 254: what follows is not read. */
  predicate Malformed(s: seq<byte>) {
    |s| >= 6 && (Join(s[4], s[5]) == 0 || Join(s[4], s[5]) > 254)
  }

  /** A header whose length field is 1 to 254, and as many bytes behind it. */
  predicate WholeFrame(s: seq<byte>) {
    |s| >= 6 && 1 <= Join(s[4], s[5]) <= 254 && |s| >= 6 + Join(s[4], s[5])
  }

  /** recv_response: header, then as many bytes as it announces. */
  method RecvResponse(sock: Socket, buf: array<byte>) returns (rc: int, total: nat)
    requires buf.Length == MAX_ADU
    modifies sock`unread, sock`calls, buf
    ensures rc == 0 || rc == -1 || rc == -2
    ensures rc == 0 ==> NextAdu(old(sock.unread)).Some? && buf[..] == Over(NextAdu(old(sock.unread)).value, old(buf[..]))
    ensures rc == 0 ==> total == |NextAdu(old(sock.unread)).value| && sock.unread == old(sock.unread)[total..]
    ensures rc == -2 ==> sock.TimedOut() && (sock.world(sock.calls - 1).Gives? ==> NextAdu(old(sock.unread)).None?)
    ensures rc == -1 ==> sock.Broke() || Malformed(old(sock.unread))
    ensures rc == 0 ==> total == 6 + Join(old(sock.unread)[4], old(sock.unread)[5]) && 7 <= total <= 260
    ensures (forall n :: sock.world(n).Gives?) ==> (rc == 0 <==> WholeFrame(old(sock.unread)))
  {
    total := 0;
    rc := sock.RecvExact(buf, 0, HEADER);
    if rc != 0 {
      return;
    }
    HeaderArrived(old(buf[..]), old(sock.unread));
    var len := Join(buf[4], buf[5]);
    if len == 0 || len > MAX_ADU - HEADER {
      return -1, 0;
    }
    rc := sock.RecvExact(buf, HEADER, len);
    if rc == 0 {
      total := HEADER + len;
      AduArrived(old(buf[..]), old(sock.unread), len);
    }
  }

  lemma HeaderArrived(buf: seq<byte>, s: seq<byte>)
    requires |buf| == MAX_ADU && |s| >= HEADER
    ensures var b := Written(buf, 0, s[..HEADER]); b[4] == s[4] && b[5] == s[5]
  {
  }

  lemma AduArrived(buf: seq<byte>, s: seq<byte>, len: nat)
    requires |buf| == MAX_ADU && HEADER + len <= MAX_ADU && HEADER + len <= |s|
    ensures Written(Written(buf, 0, s[..HEADER]), HEADER, s[HEADER..][..len]) == Over(s[..HEADER + len], buf)
    ensures s[HEADER..][len..] == s[HEADER + len..]
  {
    WrittenMore(buf, 0, s[..HEADER], s[HEADER..][..len]);
    assert s[..HEADER] + s[HEADER..][..len] == s[..HEADER + len];
  }

  /** A buffer after some bytes have come into it. */
  function Over(bytes: seq<byte>, buf: seq<byte>): (r: seq<byte>)
    requires |bytes| <= |buf|
    ensures |r| == |buf| && r[..|bytes|] == bytes
  {
    bytes + buf[|bytes|..]
  }

  class Client {
    const sock: Socket
    const unit: byte
    var connected: bool
    var tid: u16

    constructor (sock: Socket, unit: byte)
      ensures this.sock == sock && this.unit == unit && connected && tid == 0
    {
      this.sock, this.unit, this.connected, this.tid := sock, unit, true, 0;
    }

    /** The decoding loop. */
    method Decode(resp: array<byte>, qty: u16, out: array<u16>)
      requires resp.Length == MAX_ADU && qty <= MAX_READ && qty <= out.Length
      modifies out
      ensures out[..qty] == Rtu.RegistersIn(resp[..], 9, qty) && out[qty..] == old(out[qty..])
    {
      var i := 0;
      while i < qty
        invariant i <= qty
        invariant forall j :: 0 <= j < i ==> out[j] == RegisterAt(resp[..], 9, j)
        invariant out[qty..] == old(out[qty..])
      {
        out[i] := Join(resp[9 + i * 2], resp[9 + i * 2 + 1]);
        i := i + 1;
      }
    }

    /** No recv of this call timed out or failed. */
    ghost predicate AllGive()
      reads this
    {
      forall n :: sock.world(n).Gives?
    }

    /** Which failures of the socket a negative result stands for; any other result is the judgement of a frame. */
    twostate predicate Explained(rc: int, sendOk: bool)
      reads this, sock
    {
      && (rc == -4 ==> sendOk && sock.TimedOut() && (sock.world(sock.calls - 1).Gives? ==> NextAdu(old(sock.unread)).None?))
      && (rc == -3 ==> !sendOk || sock.Broke() || Malformed(old(sock.unread)))
      && (rc >= 0 || rc == -3 || rc == -4 || rc == -5 || rc == -6)
    }

    /**
     mb_tcp_client_read_holding_registers. stack is what the receive buffer happens to hold. Argument errors and
     a missing connection leave everything alone; a timeout and a transport error each have their cause in the
     socket; otherwise the next frame of the stream decides, and it decides whenever the socket lets it come in.
     A server's reply to this request is accepted and gives its registers.
     */
    method ReadHoldingRegisters(addr: u16, qty: u16, out: array<u16>, stack: seq<byte>, sendOk: bool) returns (rc: int)
      requires |stack| == MAX_ADU && qty <= out.Length
      modifies this`tid, sock, out
      ensures rc == -1 <==> qty == 0 || qty > 125
      ensures rc == -2 <==> 1 <= qty <= 125 && !connected
      ensures rc == -1 || rc == -2 ==> tid == old(tid) && sock.unread == old(sock.unread) && sock.written == old(sock.written)
      ensures 1 <= qty <= 125 && connected ==>
        && tid == NextTid(old(tid))
        && sock.written == (if sendOk then old(sock.written) + Frame(tid, Rtu.Read(unit, addr, qty)) else old(sock.written))
        && Explained(rc, sendOk) && (!sendOk ==> rc == -3)
        && (rc != -3 && rc != -4 ==> Answers(rc, old(sock.unread), sock.unread, stack, tid, qty))
        && (rc == 0 ==> Fills(out[..qty], old(out[..qty]), old(sock.unread), stack, tid, qty))
        && (sendOk && AllGive() && NextAdu(old(sock.unread)).Some? ==>
              Answers(rc, old(sock.unread), sock.unread, stack, tid, qty))
        && (sendOk && AllGive() ==>
              forall regs, rest :: IsReply(old(sock.unread), tid, regs, rest) && |regs| == qty ==>
                rc == 0 && out[..qty] == regs && sock.unread == rest)
      ensures rc != 0 ==> out[..] == old(out[..])
    {
      if qty == 0 || qty > MAX_READ {
        return ERR_ARG;
      }
      if !connected {
        return ERR_NOT_CONNECTED;
      }
      tid := NextTid(tid);
      var req := new byte[12](_ => 0);
      BuildFc03(tid, unit, addr, qty, req);
      sock.Send(req[..12], sendOk);
      if !sendOk {
        return ERR_TRANSPORT;
      }
      rc := ReadReplyOf(qty, out, stack);
    }

    /** The second half of the call: receive, judge, decode. */
    method ReadReplyOf(qty: u16, out: array<u16>, stack: seq<byte>) returns (rc: int)
      requires |stack| == MAX_ADU && 1 <= qty <= 125 && qty <= out.Length
      modifies sock`unread, sock`calls, out
      ensures Explained(rc, true)
      ensures rc != -3 && rc != -4 ==> Answers(rc, old(sock.unread), sock.unread, stack, tid, qty)
      ensures rc == 0 ==> Fills(out[..qty], old(out[..qty]), old(sock.unread), stack, tid, qty)
      ensures AllGive() && NextAdu(old(sock.unread)).Some? ==> Answers(rc, old(sock.unread), sock.unread, stack, tid, qty)
      ensures AllGive() ==> forall regs, rest :: IsReply(old(sock.unread), tid, regs, rest) && |regs| == qty ==>
        rc == 0 && out[..qty] == regs && sock.unread == rest
      ensures rc != 0 ==> out[..] == old(out[..])
    {
      var resp := new byte[MAX_ADU](i requires 0 <= i < MAX_ADU => stack[i]);
      assert resp[..] == stack;
      ghost var before := sock.unread;
      forall regs, rest | IsReply(before, tid, regs, rest) && |regs| == qty
        ensures ReplyDecides(before, tid, regs, rest, stack)
      {
        ReplyIsAnswer(before, tid, regs, rest, stack);
      }
      var total;
      rc, total := RecvResponse(sock, resp);
      if rc != 0 {
        return if rc == -2 then ERR_TIMEOUT else ERR_TRANSPORT;
      }
      var v := Judged(resp[..], total, tid, qty);
      if v.Values? {
        Decode(resp, qty, out);
      }
      rc := Code(v);
    }

    /**
     mb_tcp_client_write_single_register and mb_tcp_client_write_multiple_registers: q is the write, with this
     client's unit id.
     */
    method Write(q: Rtu.Request, stack: seq<byte>, sendOk: bool) returns (rc: int)
      requires |stack| == MAX_ADU && !q.Read? && q.unit == unit
      modifies this`tid, sock
      ensures rc == -1 <==> q.WriteMultiple? && (|q.regs| == 0 || |q.regs| > 123)
      ensures rc == -2 <==> Rtu.Sendable(q) && !connected
      ensures rc == -1 || rc == -2 ==> tid == old(tid) && sock.unread == old(sock.unread) && sock.written == old(sock.written)
      ensures Rtu.Sendable(q) && connected ==>
        && tid == NextTid(old(tid))
        && sock.written == (if sendOk then old(sock.written) + Frame(tid, q) else old(sock.written))
        && Explained(rc, sendOk) && (!sendOk ==> rc == -3)
        && (rc != -3 && rc != -4 ==> Confirms(rc, old(sock.unread), sock.unread, stack, tid, Meant(q).fc))
        && (sendOk && AllGive() && NextAdu(old(sock.unread)).Some? ==>
              Confirms(rc, old(sock.unread), sock.unread, stack, tid, Meant(q).fc))
    {
      if q.WriteMultiple? && (|q.regs| == 0 || |q.regs| > MAX_WRITE) {
        return ERR_ARG;
      }
      if !connected {
        return ERR_NOT_CONNECTED;
      }
      tid := NextTid(tid);
      var req := new byte[MAX_ADU](_ => 0);
      var len := 12;
      if q.WriteSingle? {
        BuildFc06(tid, q.unit, q.addr, q.value, req);
      } else {
        len := BuildFc16(tid, q.unit, q.addr, q.regs, req);
      }
      sock.Send(req[..len], sendOk);
      if !sendOk {
        return ERR_TRANSPORT;
      }
      rc := WriteReplyOf(Meant(q).fc, stack);
    }

    /** The second half of both write calls. */
    method WriteReplyOf(fc: byte, stack: seq<byte>) returns (rc: int)
      requires |stack| == MAX_ADU && (fc == WRITE_SINGLE || fc == WRITE_MULTIPLE)
      modifies sock`unread, sock`calls
      ensures Explained(rc, true)
      ensures rc != -3 && rc != -4 ==> Confirms(rc, old(sock.unread), sock.unread, stack, tid, fc)
      ensures AllGive() && NextAdu(old(sock.unread)).Some? ==> Confirms(rc, old(sock.unread), sock.unread, stack, tid, fc)
    {
      var resp := new byte[MAX_ADU](i requires 0 <= i < MAX_ADU => stack[i]);
      assert resp[..] == stack;
      var total;
      rc, total := RecvResponse(sock, resp);
      if rc != 0 {
        return if rc == -2 then ERR_TIMEOUT else ERR_TRANSPORT;
      }
      rc := ValidateWrite(fc, resp[..], total, tid);
    }
  }

  /** The stream begins with a server's reply of these registers to the request with this id. */
  ghost predicate IsReply(s: seq<byte>, tid: u16, regs: seq<u16>, rest: seq<byte>) {
    1 <= |regs| <= 125 && exists u: byte :: s == ReadReply(tid, READ_HOLDING, u, regs) + rest
  }

  /** What the client makes of such a stream. */
  ghost predicate ReplyDecides(s: seq<byte>, tid: u16, regs: seq<u16>, rest: seq<byte>, stack: seq<byte>)
    requires 1 <= |regs| <= 125 && |stack| == MAX_ADU
  {
    var a := NextAdu(s);
    && a.Some? && s[|a.value|..] == rest
    && Judged(Over(a.value, stack), |a.value|, tid, |regs|) == Values
    && Rtu.RegistersIn(Over(a.value, stack), 9, |regs|) == regs
  }

  lemma ReplyIsAnswer(s: seq<byte>, tid: u16, regs: seq<u16>, rest: seq<byte>, stack: seq<byte>)
    requires IsReply(s, tid, regs, rest) && |stack| == MAX_ADU
    ensures ReplyDecides(s, tid, regs, rest, stack)
  {
    var u: byte :| s == ReadReply(tid, READ_HOLDING, u, regs) + rest;
    var reply := ReadReply(tid, READ_HOLDING, u, regs);
    ReplyWellFormed(tid, u, regs);
    AduFirst(reply, rest);
    ReadReplyDecodes(Over(reply, stack), tid, u, regs, |regs|, tid);
  }

  lemma ReplyWellFormed(tid: u16, u: byte, regs: seq<u16>)
    requires |regs| <= 125
    ensures |ReadReply(tid, READ_HOLDING, u, regs)| == 9 + 2 * |regs| && WellFormed(ReadReply(tid, READ_HOLDING, u, regs))
  {
    var f, n := ReadReply(tid, READ_HOLDING, u, regs), 3 + 2 * |regs|;
    assert f[4] == High(n) && f[5] == Low(n);
  }

  /** The twelve bytes with which a server confirms a write. */
  function WriteReply(tid: u16, fc: byte, unit: byte, addr: u16, word: u16): seq<byte> {
    [High(tid), Low(tid), 0, 0, 0, 6, unit, fc, High(addr), Low(addr), High(word), Low(word)]
  }

  lemma SixMoreBytes(f: seq<byte>)
    requires |f| == 12 && f[4] == 0 && f[5] == 6
    ensures WellFormed(f)
  {
  }

  lemma FullConfirmation(f: seq<byte>, stack: seq<byte>, tid: u16, fc: byte)
    requires |stack| == MAX_ADU && |f| == 12 && Join(f[0], f[1]) == tid && f[7] == fc < EXCEPTION_FLAG
    ensures WriteCode(Over(f, stack), 12, tid, fc) == 0
  {
  }

  lemma Confirmed(rc: int, s: seq<byte>, f: seq<byte>, after: seq<byte>, stack: seq<byte>, tid: u16, fc: byte)
    requires |stack| == MAX_ADU && |f| == 12 && NextAdu(s) == Some(f) && Confirms(rc, s, after, stack, tid, fc)
    requires WriteCode(Over(f, stack), 12, tid, fc) == 0
    ensures rc == 0 && after == s[12..]
  {
  }

  /** A server's confirmation of this very write is success, and is taken off the stream. */
  lemma ConfirmationIsSuccess(rc: int, after: seq<byte>, stack: seq<byte>, tid: u16, fc: byte, unit: byte, addr: u16,
                              word: u16, rest: seq<byte>)
    requires |stack| == MAX_ADU && (fc == WRITE_SINGLE || fc == WRITE_MULTIPLE)
    requires Confirms(rc, WriteReply(tid, fc, unit, addr, word) + rest, after, stack, tid, fc)
    ensures rc == 0 && after == rest
  {
    var f := WriteReply(tid, fc, unit, addr, word);
    SixMoreBytes(f);
    AduFirst(f, rest);
    FullConfirmation(f, stack, tid, fc);
    Confirmed(rc, f + rest, f, after, stack, tid, fc);
  }

  /** The result code is what the first frame of the stream says about a write with this function code. */
  predicate Confirms(rc: int, before: seq<byte>, after: seq<byte>, stack: seq<byte>, tid: u16, fc: byte)
    requires |stack| == MAX_ADU
  {
    var a := NextAdu(before);
    && a.Some? && after == before[|a.value|..]
    && rc == WriteCode(Over(a.value, stack), |a.value|, tid, fc)
  }

  /** An exception reply numbered 0, nine bytes long, is a frame like any other, and the read reports success. */
  lemma ExceptionZeroSucceeds(tid: u16, unit: byte, qty: u16, stack: seq<byte>) returns (frame: seq<byte>)
    requires |stack| == MAX_ADU && 1 <= qty <= MAX_READ
    ensures |frame| == 9 && NextAdu(frame) == Some(frame) && frame[6..] == [unit, EXCEPTION_FLAG + READ_HOLDING, 0]
    ensures Judged(Over(frame, stack), 9, tid, qty) == Exception(0)
    ensures Code(Judged(Over(frame, stack), 9, tid, qty)) == OK
  {
    frame := [High(tid), Low(tid), 0, 0, 0, 3, unit, EXCEPTION_FLAG + READ_HOLDING, 0];
    AduFirst(frame, []);
    assert frame + [] == frame;
    var buf := Over(frame, stack);
    assert buf[0] == High(tid) && buf[1] == Low(tid) && buf[7] == EXCEPTION_FLAG + READ_HOLDING && buf[8] == 0;
    SuccessExactly(buf, 9, tid, qty);
  }

  /**
   So does a frame of seven bytes that is no reply to anything, if the bytes behind it in the buffer happen to
   look like one.
   */
  lemma SevenBytesSucceed(tid: u16, unit: byte, qty: u16, stack: seq<byte>) returns (frame: seq<byte>)
    requires |stack| == MAX_ADU && 1 <= qty <= MAX_READ && stack[7] >= EXCEPTION_FLAG && stack[8] == 0
    ensures |frame| == 7 && NextAdu(frame) == Some(frame)
    ensures Code(Judged(Over(frame, stack), 7, tid, qty)) == OK
  {
    frame := [High(tid), Low(tid), 0, 0, 0, 1, unit];
    AduFirst(frame, []);
    assert frame + [] == frame;
    var buf := Over(frame, stack);
    assert buf[0] == High(tid) && buf[1] == Low(tid) && buf[7] == stack[7] && buf[8] == stack[8];
    SuccessExactly(buf, 7, tid, qty);
  }

  /** The result code is the judgement of the first frame of the stream, which is then gone from it. */
  predicate Answers(rc: int, before: seq<byte>, after: seq<byte>, stack: seq<byte>, tid: u16, qty: u16)
    requires |stack| == MAX_ADU
  {
    var a := NextAdu(before);
    a.Some? && after == before[|a.value|..] && rc == Code(Judged(Over(a.value, stack), |a.value|, tid, qty))
  }

  predicate Fills(out: seq<u16>, was: seq<u16>, before: seq<byte>, stack: seq<byte>, tid: u16, qty: u16)
    requires |stack| == MAX_ADU && qty <= MAX_READ
  {
    var a := NextAdu(before);
    a.Some? && out == if Judged(Over(a.value, stack), |a.value|, tid, qty).Values?
                      then Rtu.RegistersIn(Over(a.value, stack), 9, qty) else was
  }
}
