/**
 Modbus TCP frames (lib/modbus/modbus_tcp.c, lib/modbus/modbus_tcp_client.c): the MBAP header of section
 3.1.3 of MODBUS Messaging on TCP/IP Implementation Guide V1.0b around the same request bodies as on the
 serial line. The library has two sets of builders; both are proved to write the same frame.
 */
module TcpAdu {
  import opened Words
  import opened Modbus
  import Rtu = RtuClient

  const OK := 0
  const ERR_ARG := -1
  const ERR_NOT_CONNECTED := -2
  const ERR_TRANSPORT := -3
  const ERR_TIMEOUT := -4
  const ERR_FRAME := -5
  const ERR_TID := -6

  const HEADER := 6
  const MAX_ADU := 260

  function Mbap(tid: u16, len: u16): seq<byte> {
    [High(tid), Low(tid), 0, 0, High(len), Low(len)]
  }

  /** A request on TCP: header and body, no CRC. */
  function Frame(tid: u16, q: Rtu.Request): (f: seq<byte>)
    requires Rtu.Sendable(q)
    ensures |f| <= MAX_ADU
  {
    Mbap(tid, |Rtu.Body(q)|) + Rtu.Body(q)
  }

  /** The header byte by byte: id, protocol 0, number of bytes that follow. */
  lemma FrameBytes(tid: u16, q: Rtu.Request)
    requires Rtu.Sendable(q)
    ensures var f, b := Frame(tid, q), Rtu.Body(q);
      && |f| == 6 + |b| && f[6..] == b
      && f[0] == tid / 256 && f[1] == tid % 256 && f[2] == 0 && f[3] == 0 && f[4] == |b| / 256 && f[5] == |b| % 256
  {
    HeaderBytes(tid, Rtu.Body(q), Frame(tid, q));
  }

  lemma HeaderBytes(tid: u16, b: seq<byte>, f: seq<byte>)
    requires |b| < 0x1_0000 && f == Mbap(tid, |b|) + b
    ensures |f| == 6 + |b| && f[6..] == b
    ensures f[0] == tid / 256 && f[1] == tid % 256 && f[2] == 0 && f[3] == 0 && f[4] == |b| / 256 && f[5] == |b| % 256
  {
  }

  // ---------------------------------------------------------------- builders

  method WriteMbap(buf: array<byte>, tid: u16, len: u16)
    requires buf.Length >= 6
    modifies buf
    ensures buf[..6] == Mbap(tid, len)
  {
    buf[0] := High(tid);
    buf[1] := Low(tid);
    buf[2] := 0;
    buf[3] := 0;
    buf[4] := High(len);
    buf[5] := Low(len);
  }

  /** The twelve bytes every request starts with. */
  method WriteHead(buf: array<byte>, tid: u16, len: u16, unit: byte, fc: byte, addr: u16, word: u16)
    requires buf.Length >= 12
    modifies buf
    ensures buf[..12] == Mbap(tid, len) + [unit, fc, High(addr), Low(addr), High(word), Low(word)]
  {
    WriteMbap(buf, tid, len);
    buf[6] := unit;
    buf[7] := fc;
    assert buf[..8] == Mbap(tid, len) + [unit, fc];
    var pos := Rtu.AppendWord(buf, 8, addr);
    pos := Rtu.AppendWord(buf, pos, word);
  }

  /** The byte count of an FC16 request is one byte. */
  function ByteCount(n: nat): byte {
    2 * n % 256
  }

  /** The byte count and the data loop of an FC16 request. */
  method WriteData(buf: array<byte>, regs: seq<u16>)
    requires buf.Length >= 13 + 2 * |regs|
    modifies buf
    ensures buf[..13 + 2 * |regs|] == old(buf[..12]) + [ByteCount(|regs|)] + BigEndian(regs)
  {
    buf[12] := ByteCount(|regs|);
    ghost var head := buf[..13];
    var pos, i := 13, 0;
    while i < |regs|
      invariant i <= |regs| && pos == 13 + 2 * i
      invariant buf[..pos] == head + BigEndian(regs[..i])
    {
      pos := Rtu.AppendWord(buf, pos, regs[i]);
      OneMoreRegister(head, regs, i);
      i := i + 1;
    }
    assert regs[..i] == regs;
  }

  lemma OneMoreRegister(head: seq<byte>, regs: seq<u16>, i: nat)
    requires i < |regs|
    ensures head + BigEndian(regs[..i]) + [High(regs[i]), Low(regs[i])] == head + BigEndian(regs[..i + 1])
  {
    assert regs[..i + 1][..i] == regs[..i];
  }

  /** build_fc03_request of the client. */
  method BuildFc03(tid: u16, unit: byte, addr: u16, qty: u16, buf: array<byte>)
    requires 1 <= qty <= MAX_READ && buf.Length >= 12
    modifies buf
    ensures buf[..12] == Frame(tid, Rtu.Read(unit, addr, qty))
  {
    WriteHead(buf, tid, 6, unit, READ_HOLDING, addr, qty);
  }

  /** build_fc06_request of the client. */
  method BuildFc06(tid: u16, unit: byte, addr: u16, value: u16, buf: array<byte>)
    requires buf.Length >= 12
    modifies buf
    ensures buf[..12] == Frame(tid, Rtu.WriteSingle(unit, addr, value))
  {
    WriteHead(buf, tid, 6, unit, WRITE_SINGLE, addr, value);
  }

  /** build_fc16_request of the client. */
  method BuildFc16(tid: u16, unit: byte, addr: u16, regs: seq<u16>, buf: array<byte>) returns (len: nat)
    requires 1 <= |regs| <= MAX_WRITE && buf.Length >= 13 + 2 * |regs|
    modifies buf
    ensures len == 13 + 2 * |regs| && buf[..len] == Frame(tid, Rtu.WriteMultiple(unit, addr, regs))
  {
    WriteCounted(tid, unit, addr, regs, buf);
    len := 6 + (7 + ByteCount(|regs|));
    CountedIsFrame(tid, unit, addr, regs);
  }

  /** Head, byte count and data of an FC16 request with any count: byte count and length field wrap around. */
  method WriteCounted(tid: u16, unit: byte, addr: u16, regs: seq<u16>, buf: array<byte>)
    requires |regs| < 0x1_0000 && buf.Length >= 13 + 2 * |regs|
    modifies buf
    ensures buf[..13 + 2 * |regs|] == Counted(tid, unit, addr, regs)
  {
    var n: u16 := |regs|;
    WriteHead(buf, tid, 7 + ByteCount(n), unit, WRITE_MULTIPLE, addr, n);
    WriteData(buf, regs);
    Regroup(Mbap(tid, 7 + ByteCount(n)), [unit, WRITE_MULTIPLE, High(addr), Low(addr), High(n), Low(n)], ByteCount(n), BigEndian(regs));
  }

  function Counted(tid: u16, unit: byte, addr: u16, regs: seq<u16>): seq<byte>
    requires |regs| < 0x1_0000
  {
    var n: u16 := |regs|;
    Mbap(tid, 7 + ByteCount(n)) +
    ([unit, WRITE_MULTIPLE, High(addr), Low(addr), High(n), Low(n), ByteCount(n)] + BigEndian(regs))
  }

  lemma CountedIsFrame(tid: u16, unit: byte, addr: u16, regs: seq<u16>)
    requires 1 <= |regs| <= MAX_WRITE
    ensures Counted(tid, unit, addr, regs) == Frame(tid, Rtu.WriteMultiple(unit, addr, regs))
  {
  }

  lemma Regroup(a: seq<byte>, b: seq<byte>, c: byte, d: seq<byte>)
    requires |b| == 6
    ensures (a + b) + [c] + d == a + ([b[0], b[1], b[2], b[3], b[4], b[5], c] + d)
  {
    assert b + [c] == [b[0], b[1], b[2], b[3], b[4], b[5], c];
  }


  /** Ids run 1, 2, ..., 65535, 1, ...; 0 is only ever the start. */
  function NextTid(tid: u16): u16 {
    if tid < 0xFFFF then tid + 1 else 1
  }

  /** The context of the library's own builders: each frame takes the next id. */
  class Builder {
    var tid: u16

    constructor ()
      ensures tid == 0
    {
      tid := 0;
    }

    /** mb_tcp_build_request_basis: any function code, but a frame that says READ and means one. */
    method BuildBasis(unit: byte, fc: int, addr: int, nb: u16, req: array<byte>) returns (rc: int)
      modifies this, req
      ensures rc == 0 <==> req.Length >= 12 && 0 <= fc <= 255 && 0 <= addr <= 65535
      ensures rc == 0 || (rc == -1 && tid == old(tid) && req[..] == old(req[..]))
      ensures rc == 0 ==> tid == NextTid(old(tid)) && req[..12] == Mbap(tid, 6) + [unit, fc, High(addr), Low(addr), High(nb), Low(nb)]
      ensures rc == 0 && fc == READ_HOLDING && 1 <= nb <= MAX_READ ==> req[..12] == Frame(tid, Rtu.Read(unit, addr, nb))
    {
      if req.Length < 12 || fc < 0 || fc > 255 || addr < 0 || addr > 65535 {
        return -1;
      }
      tid := NextTid(tid);
      WriteHead(req, tid, 6, unit, fc, addr, nb);
      rc := 0;
    }

    /** mb_tcp_build_fc06_request. */
    method BuildFc06(unit: byte, addr: u16, value: u16, req: array<byte>) returns (rc: int)
      modifies this, req
      ensures rc == 0 <==> req.Length >= 12
      ensures rc == 0 || (rc == -1 && tid == old(tid) && req[..] == old(req[..]))
      ensures rc == 0 ==> tid == NextTid(old(tid)) && req[..12] == Frame(tid, Rtu.WriteSingle(unit, addr, value))
    {
      if req.Length < 12 {
        return -1;
      }
      tid := NextTid(tid);
      WriteHead(req, tid, 6, unit, WRITE_SINGLE, addr, value);
      rc := 0;
    }

    /**
     mb_tcp_build_fc16_request. Up to the protocol's 123 registers it writes the bytes that the client's builder
     writes for the same id. There is no upper check on the count; see FitsExactly.
     */
    method BuildFc16(unit: byte, addr: u16, regs: seq<u16>, req: array<byte>) returns (rc: int)
      requires |regs| < 0x1_0000 && !Overruns(|regs|, req.Length)
      modifies this, req
      ensures rc == if |regs| == 0 || req.Length < 13 + ByteCount(|regs|) then -1 else 13 + ByteCount(|regs|)
      ensures rc == -1 ==> tid == old(tid) && req[..] == old(req[..])
      ensures rc != -1 ==> tid == NextTid(old(tid)) && 13 + 2 * |regs| <= req.Length
      ensures rc != -1 ==> req[..13 + 2 * |regs|] == Counted(tid, unit, addr, regs)
      ensures rc != -1 && |regs| <= MAX_WRITE ==> req[..rc] == Frame(tid, Rtu.WriteMultiple(unit, addr, regs))
    {
      if |regs| == 0 || req.Length < 13 + ByteCount(|regs|) {
        return -1;
      }
      assert 13 + 2 * |regs| <= req.Length;
      tid := NextTid(tid);
      WriteCounted(tid, unit, addr, regs, req);
      rc := 13 + ByteCount(|regs|);
      if |regs| <= MAX_WRITE {
        assert rc == 13 + 2 * |regs|;
        CountedIsFrame(tid, unit, addr, regs);
      }
    }
  }

  /** The capacity passes the check but does not hold the data. */
  predicate Overruns(n: nat, cap: nat) {
    n > 0 && 13 + ByteCount(n) <= cap < 13 + 2 * n
  }

  /** The capacity check covers what is written, whatever the capacity, exactly for at most 127 registers. */
  lemma FitsExactly(n: nat)
    ensures (forall cap: nat :: !Overruns(n, cap)) <==> n <= 127
  {
    if n > 127 {
      assert Overruns(n, 13 + ByteCount(n));
    }
  }

  /** Two requests never share a frame: id and request can be read back. */
  lemma FrameDetermines(s: u16, q: Rtu.Request, t: u16, r: Rtu.Request)
    requires Rtu.Sendable(q) && Rtu.Sendable(r)
    ensures Frame(s, q) == Frame(t, r) <==> s == t && q == r
  {
    var f, g := Frame(s, q), Frame(t, r);
    if f == g {
      assert f[..2] == [High(s), Low(s)] && g[..2] == [High(t), Low(t)];
      assert f[0] == High(s) && g[0] == High(t) && f[1] == Low(s) && g[1] == Low(t);
      assert s == Join(High(s), Low(s)) && t == Join(High(t), Low(t));
      assert f[6..] == Rtu.Body(q) && g[6..] == Rtu.Body(r);
      Rtu.RequestRoundTrip(q);
      Rtu.RequestRoundTrip(r);
    }
  }

  // ---------------------------------------------------------------- the request parser

  datatype Parsed = Parsed(fc: byte, addr: u16, qty: u16)

  /** mb_tcp_parse_request; bytes after the frame are not looked at. */
  method ParseRequest(req: seq<byte>) returns (r: Option<Parsed>)
    ensures r == ParsedRequest(req)
    ensures r.Some? <==> |req| >= 6 && 6 <= Join(req[4], req[5]) <= 254 && |req| >= 6 + Join(req[4], req[5])
    ensures r.Some? ==>
      r.value.fc == req[7] && r.value.addr == Join(req[8], req[9]) && r.value.qty == if req[7] == 6 then 1 else Join(req[10], req[11])
  {
    if |req| < HEADER {
      return None;
    }
    var len := Join(req[4], req[5]);
    if len < 6 || len > MAX_ADU - HEADER || |req| < HEADER + len {
      return None;
    }
    var qty := 1;
    if req[7] != WRITE_SINGLE {
      qty := Join(req[10], req[11]);
    }
    return Some(Parsed(req[7], Join(req[8], req[9]), qty));
  }

  /** Whether the length field of a frame describes a request that is all there. */
  predicate Complete(req: seq<byte>) {
    && |req| >= HEADER
    && 6 <= Join(req[4], req[5]) <= MAX_ADU - HEADER
    && HEADER + Join(req[4], req[5]) <= |req|
  }

  function ParsedRequest(req: seq<byte>): Option<Parsed> {
    if Complete(req) then
      Some(Parsed(req[7], Join(req[8], req[9]), if req[7] == WRITE_SINGLE then 1 else Join(req[10], req[11])))
    else None
  }

  function Meant(q: Rtu.Request): Parsed {
    match q
    case Read(_, addr, qty) => Parsed(READ_HOLDING, addr, qty)
    case WriteSingle(_, addr, _) => Parsed(WRITE_SINGLE, addr, 1)
    case WriteMultiple(_, addr, regs) => Parsed(WRITE_MULTIPLE, addr, if |regs| < 0x1_0000 then |regs| else 0)
  }

  lemma BodyHead(q: Rtu.Request)
    requires Rtu.Sendable(q)
    ensures var b, m := Rtu.Body(q), Meant(q);
      && 6 <= |b| <= MAX_ADU - HEADER && b[1] == m.fc && Join(b[2], b[3]) == m.addr
      && (m.fc != WRITE_SINGLE ==> Join(b[4], b[5]) == m.qty) && (m.fc == WRITE_SINGLE ==> m.qty == 1)
  {
  }

  lemma WrappedParses(tid: u16, b: seq<byte>, more: seq<byte>, m: Parsed)
    requires 6 <= |b| <= MAX_ADU - HEADER && b[1] == m.fc && Join(b[2], b[3]) == m.addr
    requires m.qty == if m.fc == WRITE_SINGLE then 1 else Join(b[4], b[5])
    ensures ParsedRequest(Mbap(tid, |b|) + b + more) == Some(m)
  {
    var f := Mbap(tid, |b|) + b + more;
    assert f[4] == High(|b|) && f[5] == Low(|b|);
    assert f[7] == b[1] && f[8] == b[2] && f[9] == b[3] && f[10] == b[4] && f[11] == b[5];
  }

  /** Every frame the builders make parses back to what was meant, whatever follows it in the buffer. */
  lemma RequestParsesBack(tid: u16, q: Rtu.Request, more: seq<byte>)
    requires Rtu.Sendable(q)
    ensures ParsedRequest(Frame(tid, q) + more) == Some(Meant(q))
  {
    BodyHead(q);
    WrappedParses(tid, Rtu.Body(q), more, Meant(q));
  }

  /** A frame cut short anywhere is not parsed. */
  lemma CutFrameIsRefused(tid: u16, q: Rtu.Request, n: nat)
    requires Rtu.Sendable(q) && n < |Frame(tid, q)|
    ensures ParsedRequest(Frame(tid, q)[..n]) == None
  {
    var b, f := Rtu.Body(q), Frame(tid, q);
    if n >= HEADER {
      assert f[..n][4] == f[..6][4] == High(|b|) && f[..n][5] == f[..6][5] == Low(|b|);
    }
  }

  // ---------------------------------------------------------------- the read reply

  /** A server's reply to a read. */
  function ReadReply(tid: u16, fc: byte, unit: byte, regs: seq<u16>): seq<byte>
    requires |regs| <= MAX_READ
  {
    Mbap(tid, 3 + 2 * |regs|) + [unit, fc, 2 * |regs|] + BigEndian(regs)
  }

  /** The reply byte by byte, as section 6.3 lays out its body. */
  lemma ReplyBytes(tid: u16, fc: byte, unit: byte, regs: seq<u16>)
    requires |regs| <= MAX_READ
    ensures var f := ReadReply(tid, fc, unit, regs);
      && |f| == 9 + 2 * |regs|
      && f[0] == tid / 256 && f[1] == tid % 256 && f[2] == 0 && f[3] == 0 && f[4] == (3 + 2 * |regs|) / 256 && f[5] == (3 + 2 * |regs|) % 256
      && f[6] == unit && f[7] == fc && f[8] == 2 * |regs|
      && forall i :: 0 <= i < |regs| ==> f[9 + 2 * i] == regs[i] / 256 && f[9 + 2 * i + 1] == regs[i] % 256
  {
    var n: u16 := 3 + 2 * |regs|;
    var head := [High(tid), Low(tid), 0, 0, High(n), Low(n), unit, fc, 2 * |regs|];
    assert Mbap(tid, n) + [unit, fc, 2 * |regs|] == head;
    Rtu.DataBytes(head, regs, ReadReply(tid, fc, unit, regs));
  }

  /** mb_tcp_build_read_registers_response. */
  method BuildReadResponse(tid: u16, fc: byte, unit: byte, regs: seq<u16>, response: array<byte>) returns (rc: int)
    modifies response
    ensures rc == if |regs| > MAX_READ || response.Length < 9 + 2 * |regs| then -1 else 9 + 2 * |regs|
    ensures if rc == -1 then response[..] == old(response[..]) else response[..rc] == ReadReply(tid, fc, unit, regs)
  {
    if |regs| > MAX_READ || response.Length < 9 + 2 * |regs| {
      return -1;
    }
    WriteMbap(response, tid, 3 + 2 * |regs|);
    response[6] := unit;
    response[7] := fc;
    response[8] := 2 * |regs|;
    ghost var head := Mbap(tid, 3 + 2 * |regs|) + [unit, fc, 2 * |regs|];
    assert response[..9] == head;
    var i := 0;
    while i < |regs|
      invariant i <= |regs|
      invariant response[..9 + 2 * i] == head + BigEndian(regs[..i])
    {
      var _ := Rtu.AppendWord(response, 9 + 2 * i, regs[i]);
      OneMoreRegister(head, regs, i);
      i := i + 1;
    }
    assert regs[..i] == regs;
    rc := 9 + 2 * |regs|;
  }

  /** What the client makes of the receive buffer. */
  datatype Verdict = Values | Exception(code: byte) | Refused(rc: int)

  /** The checks on a read reply, in order, after `total` bytes have come into the buffer. */
  function Judged(buf: seq<byte>, total: nat, tid: u16, qty: u16): Verdict
    requires |buf| == MAX_ADU
  {
    if Join(buf[0], buf[1]) != tid then Refused(ERR_TID)
    else if buf[7] >= EXCEPTION_FLAG then Exception(buf[8])
    else if buf[7] != READ_HOLDING then Refused(ERR_FRAME)
    else if total < 9 then Refused(ERR_FRAME)
    else if buf[8] != (2 * qty) % 256 then Refused(ERR_FRAME)
    else Values
  }

  /** The number returned to the caller; exception code 0 cannot be told from success. */
  function Code(v: Verdict): int {
    match v
    case Values => OK
    case Exception(code) => code
    case Refused(rc) => rc
  }

  /** Round trip: the reply a server builds for n registers is accepted by the read of n registers that carries its id, and gives them back. */
  lemma ReadReplyDecodes(buf: seq<byte>, tid: u16, unit: byte, regs: seq<u16>, qty: u16, expected: u16)
    requires |buf| == MAX_ADU && 1 <= |regs| <= MAX_READ && 1 <= qty <= MAX_READ
    requires buf[..9 + 2 * |regs|] == ReadReply(tid, READ_HOLDING, unit, regs)
    ensures Judged(buf, 9 + 2 * |regs|, expected, qty) ==
      if expected != tid then Refused(ERR_TID) else if qty == |regs| then Values else Refused(ERR_FRAME)
    ensures Rtu.RegistersIn(buf, 9, |regs|) == regs
  {
    var f := ReadReply(tid, READ_HOLDING, unit, regs);
    assert buf[0] == f[0] == High(tid) && buf[1] == f[1] == Low(tid);
    assert buf[7] == f[7] && buf[8] == f[8] == 2 * |regs|;
    forall i | 0 <= i < |regs| ensures RegisterAt(buf, 9, i) == regs[i] {
      BigEndianAt(regs, i);
      assert buf[9 + 2 * i] == f[9 + 2 * i] == BigEndian(regs)[2 * i];
      assert buf[9 + 2 * i + 1] == f[9 + 2 * i + 1] == BigEndian(regs)[2 * i + 1];
    }
  }

  /** Whether another buffer with the same received bytes would give the caller the same registers. */
  ghost predicate SameValues(buf: seq<byte>, other: seq<byte>, total: nat, tid: u16, qty: u16)
    requires |buf| == |other| == MAX_ADU && qty <= MAX_READ && total <= MAX_ADU
  {
    other[..total] == buf[..total] ==>
      Judged(other, total, tid, qty) == Values && Rtu.RegistersIn(other, 9, qty) == Rtu.RegistersIn(buf, 9, qty)
  }

  /**
   The client checks the byte count but not that so many bytes came in. The values it returns depend on the
   received bytes alone exactly when the frame is as long as its byte count says.
   */
  lemma ValuesComeFromFrameExactly(buf: seq<byte>, total: nat, tid: u16, qty: u16)
    requires |buf| == MAX_ADU && 1 <= qty <= MAX_READ && total <= MAX_ADU && Judged(buf, total, tid, qty) == Values
    ensures (forall other: seq<byte> | |other| == MAX_ADU :: SameValues(buf, other, total, tid, qty)) <==> total >= 9 + 2 * qty
  {
    if total >= 9 + 2 * qty {
      forall other: seq<byte> | |other| == MAX_ADU ensures SameValues(buf, other, total, tid, qty) {
        if other[..total] == buf[..total] {
          SameFrameSameValues(buf, other, total, tid, qty);
        }
      }
    } else {
      var last := 9 + 2 * (qty - 1) + 1;
      var changed: byte := if buf[last] == 0 then 1 else 0;
      var other := buf[last := changed];
      assert other[..total] == buf[..total];
      assert RegisterAt(other, 9, qty - 1) != RegisterAt(buf, 9, qty - 1);
      assert Rtu.RegistersIn(other, 9, qty)[qty - 1] != Rtu.RegistersIn(buf, 9, qty)[qty - 1];
      assert !SameValues(buf, other, total, tid, qty);
    }
  }

  /** Such frames exist for every quantity: a bare header with the right byte count is accepted. */
  lemma ShortFrameIsAccepted(tid: u16, qty: u16, stack: seq<byte>) returns (frame: seq<byte>)
    requires 1 <= qty <= MAX_READ && |stack| == MAX_ADU
    ensures |frame| == 9 < 9 + 2 * qty && HEADER + Join(frame[4], frame[5]) == |frame|
    ensures Judged(frame + stack[9..], |frame|, tid, qty) == Values
  {
    var count: byte := 2 * qty;
    frame := [High(tid), Low(tid), 0, 0, 0, 3, 1, READ_HOLDING, count];
    var buf := frame + stack[9..];
    assert buf[0] == High(tid) && buf[1] == Low(tid) && buf[7] == READ_HOLDING && buf[8] == count;
    SuccessExactly(buf, 9, tid, qty);
  }

  /**
   What makes the read call report success, on the bytes of the receive buffer: the id of the request, and
   either an exception bit with a zero after it, or the read function with the right byte count in a frame of
   at least nine bytes.
   */
  lemma SuccessExactly(buf: seq<byte>, total: nat, tid: u16, qty: u16)
    requires |buf| == MAX_ADU && 1 <= qty <= MAX_READ
    ensures Code(Judged(buf, total, tid, qty)) == OK <==>
      && Join(buf[0], buf[1]) == tid
      && (|| (buf[7] >= EXCEPTION_FLAG && buf[8] == 0)
          || (buf[7] == READ_HOLDING && total >= 9 && buf[8] == 2 * qty))
    ensures Judged(buf, total, tid, qty) == Values <==>
      Join(buf[0], buf[1]) == tid && buf[7] == READ_HOLDING && total >= 9 && buf[8] == 2 * qty
  {
  }

  /** Every other result: the number of an exception, -6 for another request's id, -5 for any other frame. */
  lemma FailureExactly(buf: seq<byte>, total: nat, tid: u16, qty: u16)
    requires |buf| == MAX_ADU && 1 <= qty <= 125
    ensures var rc := Code(Judged(buf, total, tid, qty));
      && (rc == -6 <==> Join(buf[0], buf[1]) != tid)
      && (rc > 0 ==> rc == buf[8])
      && (rc > 0 <==> Join(buf[0], buf[1]) == tid && buf[7] >= 0x80 && buf[8] > 0)
      && (rc == -5 <==> Join(buf[0], buf[1]) == tid && buf[7] < 0x80 &&
                        (buf[7] != 3 || total < 9 || buf[8] != 2 * qty))
  {
  }

  /** Whether another buffer with the same received bytes would give the caller the same result code. */
  ghost predicate SameCode(buf: seq<byte>, other: seq<byte>, total: nat, tid: u16, qty: u16)
    requires |buf| == |other| == MAX_ADU && total <= MAX_ADU
  {
    other[..total] == buf[..total] ==> Code(Judged(other, total, tid, qty)) == Code(Judged(buf, total, tid, qty))
  }

  /**
   The client looks at the function code and the byte after it before it looks at the length. Its result is a
   matter of the received bytes alone exactly when there are nine, or the id is wrong, or the eighth is there
   and has no exception bit. A frame has at least seven.
   */
  lemma CodeComesFromFrameExactly(buf: seq<byte>, total: nat, tid: u16, qty: u16)
    requires |buf| == MAX_ADU && 7 <= total <= MAX_ADU && 1 <= qty <= MAX_READ
    ensures (forall other: seq<byte> | |other| == MAX_ADU :: SameCode(buf, other, total, tid, qty)) <==>
      total >= 9 || Join(buf[0], buf[1]) != tid || (total == 8 && buf[7] < EXCEPTION_FLAG)
  {
    if total >= 9 || Join(buf[0], buf[1]) != tid || (total == 8 && buf[7] < EXCEPTION_FLAG) {
      forall other: seq<byte> | |other| == MAX_ADU ensures SameCode(buf, other, total, tid, qty) {
        if other[..total] == buf[..total] {
          SameHead(buf, other, total);
        }
      }
    } else {
      var one := buf[7 := EXCEPTION_FLAG][8 := 1];
      var two := buf[7 := EXCEPTION_FLAG][8 := 2];
      if total == 8 {
        one, two := buf[8 := 1], buf[8 := 2];
      }
      assert one[..total] == buf[..total] && two[..total] == buf[..total];
      assert Code(Judged(one, total, tid, qty)) == 1 && Code(Judged(two, total, tid, qty)) == 2;
      assert !SameCode(buf, one, total, tid, qty) || !SameCode(buf, two, total, tid, qty);
    }
  }

  lemma SameHead(buf: seq<byte>, other: seq<byte>, total: nat)
    requires |buf| == |other| == MAX_ADU && 7 <= total <= MAX_ADU && other[..total] == buf[..total]
    ensures other[0] == buf[0] && other[1] == buf[1]
    ensures total >= 8 ==> other[7] == buf[7]
    ensures total >= 9 ==> other[8] == buf[8]
  {
    assert forall i :: 0 <= i < total ==> other[i] == other[..total][i] == buf[..total][i] == buf[i];
  }

  lemma SameFrameSameValues(buf: seq<byte>, other: seq<byte>, total: nat, tid: u16, qty: u16)
    requires |buf| == |other| == MAX_ADU && 1 <= qty <= MAX_READ && 9 + 2 * qty <= total <= MAX_ADU
    requires other[..total] == buf[..total]
    ensures Judged(other, total, tid, qty) == Judged(buf, total, tid, qty)
    ensures Rtu.RegistersIn(other, 9, qty) == Rtu.RegistersIn(buf, 9, qty)
  {
    assert forall i :: 0 <= i < total ==> other[i] == other[..total][i] == buf[..total][i] == buf[i];
  }

  /** What a write call returns, by the bytes of its reply; fc is the function code sent. */
  function WriteCode(resp: seq<byte>, total: nat, tid: u16, fc: byte): int
    requires |resp| == MAX_ADU
  {
    if total < 9 then -5
    else if Join(resp[0], resp[1]) != tid then -6
    else if resp[7] >= 0x80 then resp[8]
    else if total >= 12 && resp[7] == fc then 0
    else -5
  }

  /** validate_write_response. Success is a full frame with this id and function code, or an exception numbered 0. */
  method ValidateWrite(fc: byte, resp: seq<byte>, total: nat, tid: u16) returns (rc: int)
    requires |resp| == MAX_ADU && total <= MAX_ADU && (fc == WRITE_SINGLE || fc == WRITE_MULTIPLE)
    ensures rc == WriteCode(resp, total, tid, fc)
    ensures rc == 0 <==> total >= 9 && Join(resp[0], resp[1]) == tid &&
                         ((total >= 12 && resp[7] == fc) || (resp[7] >= 0x80 && resp[8] == 0))
    ensures rc > 0 <==> total >= 9 && Join(resp[0], resp[1]) == tid && resp[7] >= 0x80 && resp[8] > 0
    ensures rc > 0 ==> rc == resp[8]
    ensures rc == -6 <==> total >= 9 && Join(resp[0], resp[1]) != tid
    ensures rc < 0 && rc != -6 ==> rc == -5
  {
    if total < 9 {
      return ERR_FRAME;
    }
    if Join(resp[0], resp[1]) != tid {
      return ERR_TID;
    }
    if resp[7] >= EXCEPTION_FLAG {
      return resp[8];
    }
    if total < 12 || resp[7] != fc {
      return ERR_FRAME;
    }
    return OK;
  }
}
