/**
 The shared serial port records of lib/modbus/modbus_rtu_client.c: contexts on one path share one open
 descriptor and count their references. The code runs on an array of records and is proved equal to the
 functions below; runs of unit threads that connect, probe, fail, reconnect and stop are studied on those.
 */
module SharedPort {
  import opened Words
  import opened BusSilence
  import Coord = BusCoordinator

  const MAX_PORTS := 8

  datatype Port = Port(fd: Option<nat>, refcnt: nat, baud: nat, last: Option<Last>)

  datatype Record = Record(path: string, inUse: bool, port: Port)

  const CLOSED := Port(None, 0, 0, None)

  /** The part of a client context that concerns the port. */
  datatype Ctx = Ctx(fd: Option<nat>, bus: Option<nat>, path: string, baud: nat, unit: byte)

  // ---------------------------------------------------------------- what the code computes

  predicate Names(r: Record, path: string) {
    r.inUse && r.path == path
  }

  function FindFrom(rs: seq<Record>, path: string, i: nat): (r: Option<nat>)
    requires i <= |rs|
    ensures r.Some? ==> i <= r.value < |rs| && Names(rs[r.value], path)
    ensures forall j :: i <= j < (if r.Some? then r.value else |rs|) ==> !Names(rs[j], path)
  {
    FirstFrom(rs, r => Names(r, path), i)
  }

  function FreeFrom(rs: seq<Record>, i: nat): (r: Option<nat>)
    requires i <= |rs|
    ensures r.Some? ==> i <= r.value < |rs| && !rs[r.value].inUse
    ensures forall j :: i <= j < (if r.Some? then r.value else |rs|) ==> rs[j].inUse
  {
    FirstFrom(rs, (r: Record) => !r.inUse, i)
  }

  /** The record of a path: an old one, else the first free one, else none. */
  function Place(rs: seq<Record>, path: string): (r: Option<nat>)
    ensures r.Some? ==> r.value < |rs|
  {
    var found := FindFrom(rs, path, 0);
    if found.Some? then found else FreeFrom(rs, 0)
  }

  predicate FirstNamed(rs: seq<Record>, path: string, i: nat) {
    i < |rs| && rs[i].inUse && rs[i].path == path && forall j :: 0 <= j < i ==> !(rs[j].inUse && rs[j].path == path)
  }

  predicate FirstFree(rs: seq<Record>, i: nat) {
    i < |rs| && !rs[i].inUse && forall j :: 0 <= j < i ==> rs[j].inUse
  }

  /**
   A path gets the first record that carries its name, else the first unused one, which then carries it (cut to
   255 characters, closed); it gets none only if all are in use under other names.
   */
  predicate Given(rs: seq<Record>, path: string, at: Option<nat>, rs': seq<Record>) {
    match at
    case None => rs' == rs && forall i :: 0 <= i < |rs| ==> rs[i].inUse && rs[i].path != path
    case Some(k) =>
      || (FirstNamed(rs, path, k) && rs' == rs)
      || (FirstFree(rs, k) && (forall i :: 0 <= i < |rs| ==> !(rs[i].inUse && rs[i].path == path)) &&
          rs' == rs[k := Record(if |path| <= 255 then path else path[..255], true, Port(None, 0, 0, None))])
  }

  lemma PlaceExactly(rs: seq<Record>, path: string)
    ensures Given(rs, path, Place(rs, path), Claimed(rs, path))
  {
  }

  function Claimed(rs: seq<Record>, path: string): (rs': seq<Record>)
    ensures |rs'| == |rs|
  {
    var i := Place(rs, path);
    if i.Some? && !rs[i.value].inUse then rs[i.value := Record(Coord.Stored(path), true, CLOSED)] else rs
  }

  /** Taking a reference: device is what opening and configuring the device gives if it is needed. */
  function Attached(p: Port, baud: nat, device: Option<nat>): Option<Port> {
    if p.fd.None? then
      (if device.None? then None else Some(Port(device, 1, baud, None)))
    else if p.baud != baud then None
    else Some(p.(refcnt := p.refcnt + 1))
  }

  function Detached(p: Port): Port {
    var left := if p.refcnt > 0 then p.refcnt - 1 else 0;
    if left == 0 && p.fd.Some? then Port(None, 0, p.baud, None) else p.(refcnt := left)
  }

  datatype Link = Link(records: seq<Record>, ctx: Ctx)

  /** The second half of a connect: a reference on the record found in the first, under that record's lock. */
  function Opened(rs: seq<Record>, i: Option<nat>, path: string, baud: nat, unit: byte, device: Option<nat>): (l: Link)
    requires i.Some? ==> i.value < |rs|
    ensures |l.records| == |rs|
  {
    var failed := Ctx(None, None, path, baud, unit);
    if i.None? then Link(rs, failed)
    else
      var p := Attached(rs[i.value].port, baud, device);
      if p.None? then Link(rs, failed)
      else Link(rs[i.value := rs[i.value].(port := p.value)], Ctx(p.value.fd, i, path, baud, unit))
  }

  /** mb_rtu_client_connect with nothing in between; whatever the context held before is overwritten. */
  function Connected(rs: seq<Record>, path: string, baud: nat, unit: byte, device: Option<nat>): (l: Link)
    ensures |l.records| == |rs|
  {
    Opened(Claimed(rs, path), Place(rs, path), path, baud, unit, device)
  }

  /**
   When a connect succeeds: the path has a record, or one is free; and the record's port is open at this baud
   rate, or the device can be opened.
   */
  ghost predicate Connectable(rs: seq<Record>, path: string, baud: nat, device: Option<nat>) {
    if exists i: nat :: FirstNamed(rs, path, i) then
      exists i: nat :: FirstNamed(rs, path, i) && if rs[i].port.fd.None? then device.Some? else rs[i].port.baud == baud
    else
      device.Some? && exists i: nat :: FirstFree(rs, i)
  }

  /** One more reference on record k: the first opens the device, a later one shares its descriptor. */
  predicate Joined(rs: seq<Record>, l: Link, k: nat, baud: nat, device: Option<nat>)
    requires k < |rs| == |l.records|
  {
    var before, after := rs[k].port, l.records[k].port;
    && l.ctx.fd == after.fd && after.baud == baud
    && (if rs[k].inUse && before.fd.Some? then after == before.(refcnt := before.refcnt + 1)
        else after == Port(device, 1, baud, None))
    && forall j :: 0 <= j < |rs| && j != k ==> l.records[j] == rs[j]
  }

  lemma ConnectedExactly(rs: seq<Record>, path: string, baud: nat, unit: byte, device: Option<nat>)
    ensures var l := Connected(rs, path, baud, unit, device);
      && (l.ctx.fd.Some? <==> Connectable(rs, path, baud, device))
      && (l.ctx.fd.Some? ==> l.ctx.bus.Some? && l.ctx.bus.value < |rs| && Joined(rs, l, l.ctx.bus.value, baud, device))
      && (l.ctx.fd.None? ==> Given(rs, path, Place(rs, path), l.records))
  {
    PlaceExactly(rs, path);
    var at := Place(rs, path);
    if at.Some? {
      if rs[at.value].inUse {
        assert FirstNamed(rs, path, at.value);
      } else {
        assert FirstFree(rs, at.value);
      }
    }
  }

  /**
   Two devices on two paths, and a third unit beside the first: two records with a descriptor each, the first
   counted twice; at another baud rate the third is refused.
   */
  lemma TwoPathsThreeUnits(rs: seq<Record>, p: string, q: string, baud: nat, other: nat, d: nat, e: nat, u: seq<byte>)
    requires |rs| == 8 && forall i :: 0 <= i < 8 ==> rs[i] == Record("", false, CLOSED)
    requires p != q && |p| <= 255 && |q| <= 255 && other != baud && |u| == 3
    ensures var one := Connected(rs, p, baud, u[0], Some(d));
      var two := Connected(one.records, q, baud, u[1], Some(e));
      var three := Connected(two.records, p, baud, u[2], None);
      && one.ctx.fd == Some(d) && one.ctx.bus == Some(0) && two.ctx.fd == Some(e) && two.ctx.bus == Some(1)
      && three.ctx.fd == Some(d) && three.ctx.bus == Some(0)
      && three.records[0].port.refcnt == 2 && three.records[1].port.refcnt == 1
      && Connected(two.records, p, other, u[2], Some(e)).ctx.fd == None
  {
    var one := Connected(rs, p, baud, u[0], Some(d));
    PlaceExactly(rs, p);
    var two := Connected(one.records, q, baud, u[1], Some(e));
    PlaceExactly(one.records, q);
    PlaceExactly(two.records, p);
  }

  /** mb_rtu_client_disconnect: the second of two in a row does nothing. */
  function Disconnected(rs: seq<Record>, c: Ctx): (l: Link)
    ensures |l.records| == |rs|
  {
    if c.fd.Some? && c.bus.Some? && c.bus.value < |rs| then
      Link(rs[c.bus.value := rs[c.bus.value].(port := Detached(rs[c.bus.value].port))], c.(fd := None))
    else Link(rs, c)
  }

  // ---------------------------------------------------------------- the code

  class Ports {
    const records: array<Record>

    ghost predicate Valid() {
      records.Length == MAX_PORTS
    }

    constructor ()
      ensures Valid() && fresh(records) && records.Length == 8
      ensures forall i :: 0 <= i < 8 ==> records[i] == Record("", false, CLOSED)
    {
      records := new Record[MAX_PORTS](i => Record("", false, CLOSED));
    }

    /** acquire_shared_bus. */
    method AcquireBus(path: string) returns (at: Option<nat>)
      requires Valid()
      modifies records
      ensures at == Place(old(records[..]), path)
      ensures records[..] == Claimed(old(records[..]), path)
      ensures Given(old(records[..]), path, at, records[..])
    {
      PlaceExactly(records[..], path);
      var i := 0;
      while i < MAX_PORTS
        invariant i <= MAX_PORTS
        invariant FindFrom(records[..], path, 0) == FindFrom(records[..], path, i)
        modifies {}
      {
        if records[i].inUse && records[i].path == path {
          return Some(i);
        }
        i := i + 1;
      }
      i := 0;
      while i < MAX_PORTS
        invariant i <= MAX_PORTS
        invariant records[..] == old(records[..])
        invariant FreeFrom(records[..], 0) == FreeFrom(records[..], i)
      {
        if !records[i].inUse {
          records[i] := Record(Coord.Stored(path), true, CLOSED);
          return Some(i);
        }
        i := i + 1;
      }
      return None;
    }

    /** shared_bus_attach_port. */
    method AttachPort(i: nat, baud: nat, device: Option<nat>) returns (fd: Option<nat>)
      requires Valid() && i < MAX_PORTS
      modifies records
      ensures var p := Attached(old(records[i].port), baud, device);
        && fd == (if p.Some? then p.value.fd else None)
        && records[..] == if p.Some? then old(records[..])[i := old(records[i]).(port := p.value)] else old(records[..])
    {
      var p := records[i].port;
      if p.fd.None? {
        if device.None? {
          return None;
        }
        p := Port(device, 0, baud, None);
      } else if p.baud != baud {
        return None;
      }
      p := p.(refcnt := p.refcnt + 1);
      records[i] := records[i].(port := p);
      return p.fd;
    }

    /** shared_bus_detach_port. */
    method DetachPort(i: nat)
      requires Valid() && i < MAX_PORTS
      modifies records
      ensures records[..] == old(records[..])[i := old(records[i]).(port := Detached(old(records[i].port)))]
    {
      var p := records[i].port;
      if p.refcnt > 0 {
        p := p.(refcnt := p.refcnt - 1);
      }
      if p.refcnt == 0 && p.fd.Some? {
        p := p.(fd := None, last := None);
      }
      records[i] := records[i].(port := p);
    }

    /** The bookkeeping before a transaction: how long to keep silent, given the time it is. */
    method Handoff(i: nat, unit: byte, now: Time) returns (usec: nat)
      requires Valid() && i < MAX_PORTS
      ensures usec == SilenceFor(records[i].port.last, unit, now)
      ensures Delay(records[i].port.last, unit, now, usec)
    {
      var last := records[i].port.last;
      if last.None? || last.value.unit == unit {
        return 0;
      }
      var elapsed := (now.sec - last.value.time.sec) * 1000 + Truncated(now.nsec - last.value.time.nsec, 1_000_000);
      if 0 <= elapsed < SILENCE_MS {
        return (SILENCE_MS - elapsed) * 1000;
      }
      return 0;
    }

    /** The bookkeeping after a transaction. */
    method Finished(i: nat, unit: byte, end: Time)
      requires Valid() && i < MAX_PORTS
      modifies records
      ensures records[..] == old(records[..])[i := Remember(old(records[i]), unit, end)]
    {
      records[i] := records[i].(port := records[i].port.(last := Some(Last(unit, end))));
    }
  }

  function Remember(r: Record, unit: byte, end: Time): Record {
    r.(port := r.port.(last := Some(Last(unit, end))))
  }

  class Client {
    const ports: Ports
    var ctx: Ctx

    constructor (ports: Ports)
      ensures this.ports == ports && ctx.fd.None? && ctx.bus.None?
    {
      this.ports := ports;
      ctx := Ctx(None, None, "", 0, 0);
    }

    /** mb_rtu_client_connect. */
    method Connect(path: string, baud: nat, unit: byte, device: Option<nat>) returns (ok: bool)
      requires ports.Valid()
      modifies this, ports.records
      ensures Link(ports.records[..], ctx) == Connected(old(ports.records[..]), path, baud, unit, device)
      ensures ok <==> ctx.fd.Some?
      ensures ok <==> Connectable(old(ports.records[..]), path, baud, device)
    {
      ConnectedExactly(ports.records[..], path, baud, unit, device);
      ctx := Ctx(None, None, path, baud, unit);
      var at := ports.AcquireBus(path);
      if at.None? {
        return false;
      }
      var fd := ports.AttachPort(at.value, baud, device);
      if fd.None? {
        return false;
      }
      ctx := ctx.(fd := fd, bus := at);
      ok := true;
    }

    /** mb_rtu_client_disconnect. */
    method Disconnect()
      requires ports.Valid() && (ctx.bus.Some? ==> ctx.bus.value < MAX_PORTS)
      modifies this, ports.records
      ensures Link(ports.records[..], ctx) == Disconnected(old(ports.records[..]), old(ctx))
    {
      if ctx.fd.Some? && ctx.bus.Some? {
        ports.DetachPort(ctx.bus.value);
        ctx := ctx.(fd := None);
      }
    }

    /** The bookkeeping of do_transaction on an attached context: keep silent first, remember the end. */
    method Transaction(now: Time, end: Time) returns (usec: nat)
      requires ports.Valid() && ctx.bus.Some? && ctx.bus.value < MAX_PORTS
      modifies ports.records
      ensures usec == SilenceFor(old(ports.records[ctx.bus.value]).port.last, ctx.unit, now)
      ensures Delay(old(ports.records[ctx.bus.value]).port.last, ctx.unit, now, usec)
      ensures ports.records[..] ==
        old(ports.records[..])[ctx.bus.value := Remember(old(ports.records[ctx.bus.value]), ctx.unit, end)]
    {
      usec := ports.Handoff(ctx.bus.value, ctx.unit, now);
      ports.Finished(ctx.bus.value, ctx.unit, end);
    }
  }
}
