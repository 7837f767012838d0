/**
 The RTU client above the CRC (lib/modbus/modbus_rtu_client.c): request frames, the judgement of a
 reply in do_transaction, and the decoding of register data. The serial line is a value: what the
 write and the timed read gave back. Frame layouts are sections 6.3, 6.6 and 6.12 of the MODBUS
 Application Protocol Specification V1.1b3.
 */
module RtuClient {
  import opened Words
  import opened Modbus
  import opened Crc16
  import opened CrcErrors

  const OK := 0
  const ERR_ARG := -1
  const ERR_NOT_OPEN := -2
  const ERR_TRANSPORT := -3
  const ERR_TIMEOUT := -4
  const ERR_FRAME := -5
  const ERR_CRC := -6

  /** What the serial line gave: a short write, silence, a read error, or exactly the bytes waited for. */
  datatype Line = WriteFailed | Silent | ReadFailed | Received(frame: seq<byte>)

  // ---------------------------------------------------------------- requests

  datatype Request =
    | Read(unit: byte, addr: u16, qty: u16)
    | WriteSingle(unit: byte, addr: u16, value: u16)
    | WriteMultiple(unit: byte, addr: u16, regs: seq<u16>)

  predicate Sendable(q: Request) {
    match q
    case Read(_, _, qty) => 1 <= qty <= MAX_READ
    case WriteSingle(_, _, _) => true
    case WriteMultiple(_, _, regs) => 1 <= |regs| <= MAX_WRITE
  }

  function Body(q: Request): seq<byte>
    requires Sendable(q)
  {
    match q
    case Read(unit, addr, qty) => [unit, READ_HOLDING, High(addr), Low(addr), High(qty), Low(qty)]
    case WriteSingle(unit, addr, value) => [unit, WRITE_SINGLE, High(addr), Low(addr), High(value), Low(value)]
    case WriteMultiple(unit, addr, regs) =>
      [unit, WRITE_MULTIPLE, High(addr), Low(addr), High(|regs|), Low(|regs|), 2 * |regs|] + BigEndian(regs)
  }

  /** The request bodies byte by byte, as sections 6.3, 6.6 and 6.12 lay them out. */
  lemma BodyBytes(q: Request)
    requires Sendable(q)
    ensures var b := Body(q);
      && b[0] == q.unit && b[2] == q.addr / 256 && b[3] == q.addr % 256
      && (q.Read? ==> |b| == 6 && b[1] == 3 && b[4] == q.qty / 256 && b[5] == q.qty % 256)
      && (q.WriteSingle? ==> |b| == 6 && b[1] == 6 && b[4] == q.value / 256 && b[5] == q.value % 256)
      && (q.WriteMultiple? ==>
            && |b| == 7 + 2 * |q.regs| && b[1] == 16 && b[4] == |q.regs| / 256 && b[5] == |q.regs| % 256 && b[6] == 2 * |q.regs|
            && forall i :: 0 <= i < |q.regs| ==> b[7 + 2 * i] == q.regs[i] / 256 && b[7 + 2 * i + 1] == q.regs[i] % 256)
  {
    if q.WriteMultiple? {
      var n := |q.regs|;
      DataBytes([q.unit, 16, High(q.addr), Low(q.addr), High(n), Low(n), 2 * n], q.regs, Body(q));
    }
  }

  lemma DataBytes(head: seq<byte>, regs: seq<u16>, b: seq<byte>)
    requires b == head + BigEndian(regs)
    ensures forall i :: 0 <= i < |regs| ==> b[|head| + 2 * i] == regs[i] / 256 && b[|head| + 2 * i + 1] == regs[i] % 256
  {
    forall i | 0 <= i < |regs| ensures b[|head| + 2 * i] == regs[i] / 256 && b[|head| + 2 * i + 1] == regs[i] % 256 {
      BigEndianAt(regs, i);
      ByteBehind(head, BigEndian(regs), 2 * i);
      ByteBehind(head, BigEndian(regs), 2 * i + 1);
    }
  }

  lemma ByteBehind(head: seq<byte>, data: seq<byte>, k: nat)
    requires k < |data|
    ensures (head + data)[|head| + k] == data[k]
  {
  }

  function RequestFrame(q: Request): seq<byte>
    requires Sendable(q)
  {
    WithCrc(Body(q))
  }

  function RegistersIn(frame: seq<byte>, offset: nat, n: nat): (regs: seq<u16>)
    requires offset + 2 * n <= |frame|
    ensures |regs| == n
    ensures forall i :: 0 <= i < n ==> regs[i] == RegisterAt(frame, offset, i)
  {
    seq(n, i requires 0 <= i < n => RegisterAt(frame, offset, i))
  }

  /** The frame as a device reads it, from the layouts in the specification and independent of the builders. */
  function Parse(frame: seq<byte>): Option<Request> {
    if |frame| < 8 || !Passes(frame) then None
    else if frame[1] == READ_HOLDING && |frame| == 8 then
      Some(Read(frame[0], Join(frame[2], frame[3]), Join(frame[4], frame[5])))
    else if frame[1] == WRITE_SINGLE && |frame| == 8 then
      Some(WriteSingle(frame[0], Join(frame[2], frame[3]), Join(frame[4], frame[5])))
    else if frame[1] == WRITE_MULTIPLE && |frame| >= 9 && frame[6] == 2 * Join(frame[4], frame[5])
            && |frame| - 9 == frame[6] then
      Some(WriteMultiple(frame[0], Join(frame[2], frame[3]), RegistersIn(frame, 7, Join(frame[4], frame[5]))))
    else None
  }

  /** append_uint16_be. */
  method AppendWord(buf: array<byte>, pos: nat, value: u16) returns (newPos: nat)
    requires pos + 2 <= buf.Length
    modifies buf
    ensures newPos == pos + 2
    ensures buf[..newPos] == old(buf[..pos]) + [High(value), Low(value)]
  {
    buf[pos] := High(value);
    buf[pos + 1] := Low(value);
    newPos := pos + 2;
  }

  /** The six bytes every request starts with. */
  method BuildHead(unit: byte, function_: byte, addr: u16, word: u16, req: array<byte>)
    requires req.Length == 256
    modifies req
    ensures req[..6] == [unit, function_, High(addr), Low(addr), High(word), Low(word)]
  {
    req[0] := unit;
    req[1] := function_;
    var len := AppendWord(req, 2, addr);
    assert req[..4] == [unit, function_, High(addr), Low(addr)];
    len := AppendWord(req, len, word);
  }

  /** The byte count and the data loop of an FC16 request. */
  method BuildData(regs: seq<u16>, req: array<byte>) returns (len: nat)
    requires 1 <= |regs| <= MAX_WRITE && req.Length == 256
    modifies req
    ensures len == 7 + 2 * |regs|
    ensures req[..len] == old(req[..6]) + [2 * |regs|] + BigEndian(regs)
  {
    ghost var head := req[..6] + [2 * |regs|];
    req[6] := 2 * |regs|;
    len := 7;
    assert req[..len] == head + BigEndian(regs[..0]);
    var i := 0;
    while i < |regs|
      invariant i <= |regs| && len == 7 + 2 * i
      invariant req[..len] == head + BigEndian(regs[..i])
    {
      len := AppendWord(req, len, regs[i]);
      assert regs[..i + 1][..i] == regs[..i];
      i := i + 1;
    }
    assert regs[..i] == regs;
  }

  /** The request half of the three public calls: fill the 256-byte ADU buffer and append the CRC. */
  method BuildRequest(q: Request, req: array<byte>) returns (len: nat)
    requires Sendable(q) && req.Length == 256
    modifies req
    ensures len <= 256 && req[..len] == RequestFrame(q)
  {
    len := 6;
    match q {
      case Read(unit, addr, qty) =>
        BuildHead(unit, READ_HOLDING, addr, qty, req);
      case WriteSingle(unit, addr, value) =>
        BuildHead(unit, WRITE_SINGLE, addr, value, req);
      case WriteMultiple(unit, addr, regs) =>
        BuildHead(unit, WRITE_MULTIPLE, addr, |regs|, req);
        len := BuildData(regs, req);
    }
    assert req[..len] == Body(q);
    len := AppendCrc(req, len);
  }

  lemma BodyPasses(body: seq<byte>)
    ensures Passes(WithCrc(body)) && |WithCrc(body)| == |body| + 2
    ensures forall i :: 0 <= i < |body| ==> WithCrc(body)[i] == body[i]
  {
    AppendedCrcPasses(body);
  }

  lemma HeadWord(v: u16)
    ensures Join(High(v), Low(v)) == v
  {
  }

  lemma WriteMultipleRoundTrip(q: Request)
    requires q.WriteMultiple? && Sendable(q)
    ensures Parse(RequestFrame(q)) == Some(q)
  {
    BodyPasses(Body(q));
    WriteMultipleParses(q, [Low(Crc(Body(q))), High(Crc(Body(q)))]);
  }

  lemma WriteMultipleParses(q: Request, crc: seq<byte>)
    requires q.WriteMultiple? && Sendable(q) && |crc| == 2 && Passes(Body(q) + crc)
    ensures Parse(Body(q) + crc) == Some(q)
  {
    var n := |q.regs|;
    var head := [q.unit, WRITE_MULTIPLE, High(q.addr), Low(q.addr), High(n), Low(n), 2 * n];
    HeadWord(q.addr);
    HeadWord(n);
    HeadedParses(head, q, crc);
  }

  lemma HeadedParses(head: seq<byte>, q: Request, crc: seq<byte>)
    requires q.WriteMultiple? && Sendable(q) && |crc| == 2 && Passes(head + BigEndian(q.regs) + crc)
    requires |head| == 7 && head[0] == q.unit && head[1] == WRITE_MULTIPLE
    requires Join(head[2], head[3]) == q.addr && Join(head[4], head[5]) == |q.regs| && head[6] == 2 * |q.regs|
    ensures Parse(head + BigEndian(q.regs) + crc) == Some(q)
  {
    var f := head + BigEndian(q.regs) + crc;
    RegistersBack(head, q.regs, crc);
    assert f[..7] == head;
    MultipleParses(f, head, q);
  }

  lemma MultipleParses(f: seq<byte>, head: seq<byte>, q: Request)
    requires q.WriteMultiple? && Sendable(q) && |f| == 9 + 2 * |q.regs| && Passes(f)
    requires |head| == 7 && f[..7] == head && head[0] == q.unit && head[1] == WRITE_MULTIPLE
    requires Join(head[2], head[3]) == q.addr && Join(head[4], head[5]) == |q.regs| && head[6] == 2 * |q.regs|
    requires RegistersIn(f, 7, |q.regs|) == q.regs
    ensures Parse(f) == Some(q)
  {
    assert forall i :: 0 <= i < 7 ==> f[i] == f[..7][i];
  }

  /** Registers written big-endian between other bytes are read back as they were. */
  lemma RegistersBack(head: seq<byte>, regs: seq<u16>, more: seq<byte>)
    ensures RegistersIn(head + BigEndian(regs) + more, |head|, |regs|) == regs
  {
    forall i | 0 <= i < |regs| ensures RegisterAt(head + BigEndian(regs) + more, |head|, i) == regs[i] {
      RegisterBack(head, regs, more, i);
    }
    RegistersAre(head + BigEndian(regs) + more, |head|, regs);
  }

  lemma RegistersAre(f: seq<byte>, offset: nat, regs: seq<u16>)
    requires offset + 2 * |regs| <= |f| && forall i :: 0 <= i < |regs| ==> RegisterAt(f, offset, i) == regs[i]
    ensures RegistersIn(f, offset, |regs|) == regs
  {
  }

  lemma RegisterBack(head: seq<byte>, regs: seq<u16>, more: seq<byte>, i: nat)
    requires i < |regs|
    ensures RegisterAt(head + BigEndian(regs) + more, |head|, i) == regs[i]
  {
    BigEndianAt(regs, i);
    InTheMiddle(head, BigEndian(regs), more, i);
  }

  lemma InTheMiddle(head: seq<byte>, data: seq<byte>, more: seq<byte>, i: nat)
    requires 2 * i + 1 < |data|
    ensures RegisterAt(head + data + more, |head|, i) == RegisterAt(data, 0, i)
  {
    var f := head + data + more;
    assert f[|head| + 2 * i] == data[2 * i] && f[|head| + 2 * i + 1] == data[2 * i + 1];
  }

  /** What a device reads is what the client meant. */
  lemma RequestRoundTrip(q: Request)
    requires Sendable(q)
    ensures Parse(RequestFrame(q)) == Some(q)
  {
    if q.WriteMultiple? {
      WriteMultipleRoundTrip(q);
    } else {
      var f := RequestFrame(q);
      BodyPasses(Body(q));
      HeadWord(q.addr);
      HeadWord(if q.Read? then q.qty else q.value);
      assert f[..6] == Body(q);
      assert f[0] == q.unit && Join(f[2], f[3]) == q.addr;
    }
  }

  // ---------------------------------------------------------------- replies

  /** The checks of do_transaction, in order; a positive result is an exception code from the device. */
  function Judge(unit: byte, line: Line): int {
    match line
    case WriteFailed => ERR_TRANSPORT
    case Silent => ERR_TIMEOUT
    case ReadFailed => ERR_TRANSPORT
    case Received(frame) =>
      if !Passes(frame) then ERR_CRC
      else if frame[0] != unit then ERR_FRAME
      else if frame[1] >= EXCEPTION_FLAG then (if |frame| >= 5 then frame[2] else ERR_FRAME)
      else OK
  }

  /**
   The result of a call that got as far as the line: -3 for a short write or a read error, -4 for silence, -6 for
   a frame whose CRC fails, the exception's number for an exception, and -5 for any other frame that is refused:
   from another unit, with an exception numbered 0, or with another function code.
   */
  predicate Explained(rc: int, unit: byte, function_: byte, line: Line)
    requires line.Received? ==> |line.frame| >= 5
  {
    match line
    case WriteFailed => rc == -3
    case Silent => rc == -4
    case ReadFailed => rc == -3
    case Received(f) =>
      if !Passes(f) then rc == -6
      else if f[0] != unit then rc == -5
      else if f[1] >= 0x80 then rc == if f[2] == 0 then -5 else f[2]
      else if f[1] != function_ then rc == -5
      else rc == 0 || rc == -5
  }

  /** A device's answer to a read, from section 6.3. */
  function ReadReply(unit: byte, regs: seq<u16>): seq<byte>
    requires |regs| <= MAX_READ
  {
    WithCrc([unit, READ_HOLDING, 2 * |regs|] + BigEndian(regs))
  }

  /** mb_rtu_client_read_holding_registers after the request has gone out: judge, check, convert in a loop. */
  method ReadHoldingRegisters(open: bool, unit: byte, qty: u16, line: Line, out: array<u16>) returns (rc: int)
    requires 1 <= qty <= MAX_READ && open && line.Received? ==> |line.frame| == 5 + 2 * qty
    requires qty <= out.Length
    modifies out
    ensures rc == OK <==> 1 <= qty <= MAX_READ && open && line == Received(ReadReply(unit, out[..qty]))
    ensures rc == -1 <==> qty == 0 || qty > 125
    ensures rc == -2 <==> 1 <= qty <= 125 && !open
    ensures 1 <= qty <= 125 && open ==> Explained(rc, unit, 3, line)
    ensures 1 <= qty <= 125 && open && line.Received? && line.frame[1] == 3 && line.frame[2] != 2 * qty ==> rc < 0
    ensures rc == OK || out[..] == old(out[..])
    ensures out[qty..] == old(out[qty..])
  {
    if qty == 0 || qty > MAX_READ {
      return ERR_ARG;
    }
    if !open {
      return ERR_NOT_OPEN;
    }
    rc := Judge(unit, line);
    if rc != OK {
      OnlyRepliesPassJudge(unit, line, out[..qty]);
      return;
    }
    var resp := line.frame;
    if resp[1] != READ_HOLDING || resp[2] != 2 * qty {
      OnlyRepliesPassJudge(unit, line, out[..qty]);
      return ERR_FRAME;
    }
    Decode(resp, qty, out);
    AcceptedFrameIsReply(unit, resp, out[..qty]);
  }

  /** The decoding loop. */
  method Decode(resp: seq<byte>, qty: u16, out: array<u16>)
    requires |resp| == 5 + 2 * qty && qty <= out.Length
    modifies out
    ensures forall i :: 0 <= i < qty ==> out[i] == RegisterAt(resp, 3, i)
    ensures out[qty..] == old(out[qty..])
  {
    var i := 0;
    while i < qty
      invariant i <= qty
      invariant forall j :: 0 <= j < i ==> out[j] == RegisterAt(resp, 3, j)
      invariant out[qty..] == old(out[qty..])
    {
      out[i] := Join(resp[3 + i * 2], resp[3 + i * 2 + 1]);
      i := i + 1;
    }
  }

  lemma OnlyRepliesPassJudge(unit: byte, line: Line, regs: seq<u16>)
    requires 1 <= |regs| <= MAX_READ
    ensures line == Received(ReadReply(unit, regs)) ==>
      Judge(unit, line) == OK && line.frame[1] == READ_HOLDING && line.frame[2] == 2 * |regs|
  {
    BodyPasses([unit, READ_HOLDING, 2 * |regs|] + BigEndian(regs));
  }

  /** Nothing but the specified reply is accepted: header, values and CRC fix every byte. */
  lemma AcceptedFrameIsReply(unit: byte, frame: seq<byte>, regs: seq<u16>)
    requires 1 <= |regs| <= MAX_READ && |frame| == 5 + 2 * |regs|
    requires Judge(unit, Received(frame)) == OK && frame[1] == READ_HOLDING && frame[2] == 2 * |regs|
    requires forall i :: 0 <= i < |regs| ==> regs[i] == RegisterAt(frame, 3, i)
    ensures frame == ReadReply(unit, regs)
  {
    var n := |frame| - 2;
    PassesOnlyWithItsCrc(frame);
    var data := frame[3..n];
    forall i | 0 <= i < |regs| ensures RegisterAt(data, 0, i) == regs[i] {
      assert data[2 * i] == frame[3 + 2 * i] && data[2 * i + 1] == frame[3 + 2 * i + 1];
    }
    BigEndianDetermined(regs, data);
    assert frame[..n] == [unit, READ_HOLDING, 2 * |regs|] + data;
  }

  /** Two different answers never share a frame. */
  lemma ReadReplyInjective(unit: byte, regs: seq<u16>, others: seq<u16>)
    requires |regs| <= MAX_READ && |others| <= MAX_READ
    ensures ReadReply(unit, regs) == ReadReply(unit, others) <==> regs == others
  {
    var f, g := ReadReply(unit, regs), ReadReply(unit, others);
    if f == g {
      assert f[2] == 2 * |regs| && g[2] == 2 * |others|;
      forall i | 0 <= i < |regs| ensures regs[i] == others[i] {
        BigEndianAt(regs, i);
        BigEndianAt(others, i);
        assert f[3 + 2 * i] == BigEndian(regs)[2 * i] && g[3 + 2 * i] == BigEndian(others)[2 * i];
        assert f[4 + 2 * i] == BigEndian(regs)[2 * i + 1] && g[4 + 2 * i] == BigEndian(others)[2 * i + 1];
      }
    }
  }

  /** A reply or request damaged by one burst of at most 16 bits, or by any odd number of bits, is refused. */
  lemma DamageIsRefused(unit: byte, body: seq<byte>, other: seq<byte>, k: nat)
    requires |other| == |body| + 2 && other != WithCrc(body)
    requires
      || Odd(Flipped(WithCrc(body), other))
      || BurstAt(Flipped(WithCrc(body), other), k, 16)
    ensures Judge(unit, Received(other)) == ERR_CRC
    ensures Parse(other) == None
  {
    AppendedCrcPasses(body);
    if Odd(Flipped(WithCrc(body), other)) {
      OddErrorsDetected(WithCrc(body), other);
    } else {
      BurstDetected(WithCrc(body), other, k);
    }
  }

  /**
   The two write calls share this end: the client compares the function code and no more, so a reply is
   accepted exactly when its CRC passes and its first two bytes match.
   */
  method FinishWrite(unit: byte, function_: byte, line: Line) returns (rc: int)
    requires function_ == WRITE_SINGLE || function_ == WRITE_MULTIPLE
    requires line.Received? ==> |line.frame| == 8
    ensures rc == 0 <==> line.Received? && Passes(line.frame) && line.frame[0] == unit && line.frame[1] == function_
    ensures Explained(rc, unit, function_, line)
  {
    rc := Judge(unit, line);
    if rc == OK && line.frame[1] != function_ {
      rc := ERR_FRAME;
    }
  }
}
