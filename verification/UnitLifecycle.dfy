/**
 One unit thread (src/inverter_module.c, src/ups_module.c): connect, drain the write queue, scan, and on
 comm loss mark, disconnect and start over. The callbacks of the code are methods; what they do to the
 pool, the failure count and the connection state is a state machine whose runs are then studied,
 with the rest of the daemon writing to the same pool at any moment.
 */
module UnitLifecycle {
  import opened Words
  import opened RegisterMap
  import opened ProfileScan
  import opened ScanGuarantees
  import opened Modbus
  import Threads = BusThreads
  import opened UnitBus
  import Queue = CommandQueue

  const DISCONNECTED: u16 := 0
  const CONNECTED: u16 := 1

  /** A unit's rows and its two private slots: the init flag and the mirrored connection state. */
  datatype Profile = Profile(table: Table, chunk: u16, flag: u16, status: u16)

  predicate Usable(f: Profile) {
    && Ascending(f.table) && DistinctSlots(f.table) && InPool(f.table)
    && f.flag < POOL_SIZE && f.status < POOL_SIZE && f.flag != f.status
    && !Uses(f.table, f.flag) && !Uses(f.table, f.status)
  }

  /** Down: not connected. Up: polling. Lost: a scan has failed and the error callback is due. Stopped: thread over. */
  datatype Phase = Down | Up | Lost | Stopped

  /** heard is the history of tracked reads since the last time the count was reset. */
  datatype State = State(pool: seq<u16>, fails: nat, conn: u16, phase: Phase, heard: seq<bool>)

  datatype Event =
    | Connect(ok: bool)              // init callback
    | InitWrites(ok: bool)           // the inverter's init sequence
    | InitScan(w: World)             // the UPS's init sequence, with its untracked scan
    | Poll(w: World)                 // process callback's scan
    | Error                          // error callback
    | Stop                           // running was cleared
    | Others(pool: seq<u16>)         // anything else in the daemon writing to the pool

  function SetConnection(f: Profile, s: State, conn: u16): State {
    s.(conn := conn, pool := Put(s.pool, f.status, conn))
  }

  predicate SameOwn(f: Profile, p: seq<u16>, q: seq<u16>) {
    && |q| == |p|
    && forall a: u16 :: a < |p| && (Uses(f.table, a) || a == f.flag || a == f.status) ==> q[a] == p[a]
  }

  ghost predicate Enabled(f: Profile, s: State, e: Event) {
    match e
    case Connect(_) => s.phase == Down
    case InitWrites(_) => s.phase == Up
    case InitScan(_) => s.phase == Up
    case Poll(_) => s.phase == Up
    case Error => s.phase == Lost
    case Stop => s.phase == Down || s.phase == Up
    case Others(q) => SameOwn(f, s.pool, q)
  }

  function Next(f: Profile, s: State, e: Event): State {
    match e
    case Connect(ok) => if ok then SetConnection(f, s.(fails := 0, phase := Up, heard := []), CONNECTED) else s
    case InitWrites(ok) => s.(pool := FlagAfter(f, Put(s.pool, f.flag, 0), ok))
    case InitScan(w) =>
      var r := ScanProfile(f.table, f.chunk, Put(s.pool, f.flag, 0), s.fails, false, w);
      s.(pool := FlagAfter(f, r.pool, r.ok), fails := r.fails)
    case Poll(w) =>
      var r := ScanProfile(f.table, f.chunk, s.pool, s.fails, true, w);
      State(r.pool, r.fails, s.conn, if r.ok then Up else Lost, s.heard + r.heard)
    case Error => SetConnection(f, s.(fails := 0, phase := Down, heard := []), DISCONNECTED)
    case Stop => s.(phase := Stopped)
    case Others(q) => s.(pool := q)
  }

  function FlagAfter(f: Profile, p: seq<u16>, ok: bool): seq<u16> {
    if ok then Put(p, f.flag, 1) else p
  }

  // ---------------------------------------------------------------- the code

  /** The two modules share the engine and differ in how they connect and initialise. */
  datatype Kind = InverterUnit | UpsUnit

  /** A drain seen from the start of a run of its own. */
  function Drained(q: seq<Queue.Cmd>, d: Queue.Device, arrivals: seq<seq<Queue.Cmd>>, answers: nat -> bool,
                   mergeable: set<u16>): Queue.Run {
    Queue.DrainFrom(Fresh(q, d), arrivals, answers, 0, mergeable)
  }

  function Fresh(q: seq<Queue.Cmd>, d: Queue.Device): Queue.Run {
    Queue.Run(q, d, [], [], 0)
  }

  /** How many of these commands go out on the wire. */
  function Sends(cmds: seq<Queue.Cmd>): nat {
    if cmds == [] then 0 else Sends(cmds[..|cmds| - 1]) + if Queue.Writes(cmds[|cmds| - 1]) then 1 else 0
  }

  lemma SendsOneMore(cmds: seq<Queue.Cmd>, c: Queue.Cmd)
    ensures Sends(cmds + [c]) == Sends(cmds) + if Queue.Writes(c) then 1 else 0
  {
    assert (cmds + [c])[..|cmds|] == cmds;
  }

  /** What a drain does to the bus: nothing if nothing was pending, else one exchange per command under one acquire. */
  function DrainOps(rtu: bool, served: seq<Queue.Cmd>): seq<Threads.Op> {
    if served == [] then [] else BurstOps(rtu, Sends(served))
  }

  /** The pool, count and history after the init sequence of either kind, if it was requested. */
  function Initialised(f: Profile, s: State, kind: Kind, requested: bool, answers: nat -> bool, w: World): State {
    if !requested then s
    else if kind.InverterUnit? then Next(f, s, InitWrites(answers(0) && answers(1)))
    else Next(f, s, InitScan(w))
  }

  /** The bus operations of a scan of this profile from this pool and count. */
  function ScanTrace(f: Profile, rtu: bool, p: seq<u16>, fails: nat, track: bool, w: World): seq<Threads.Op> {
    if f.table == [] then []
    else ScanOps(rtu, Segments(f.table, f.chunk, 0), |ScanProfile(f.table, f.chunk, p, fails, track, w).heard|)
  }

  function InitTrace(f: Profile, s: State, kind: Kind, rtu: bool, requested: bool, answers: nat -> bool, w: World): seq<Threads.Op> {
    if !requested then []
    else if kind.InverterUnit? then BurstOps(rtu, if answers(0) then 2 else 1)
    else ScanTrace(f, rtu, Put(s.pool, f.flag, 0), s.fails, false, w)
  }

  /** unit_connect on RTU: probe the first register, then the inverter's setup writes, whatever becomes of them. */
  function ConnectTrace(kind: Kind, rtu: bool, opens: bool, rows: nat, answers: nat -> bool, setup: nat): seq<Threads.Op> {
    if !rtu || !opens || (kind.UpsUnit? && rows == 0) then []
    else if rows > 0 && !answers(0) then BurstOps(rtu, 1)
    else BurstOps(rtu, (if rows > 0 then 1 else 0) + if kind.InverterUnit? then setup else 0)
  }

  /** Everything the outside decides in one process callback. */
  datatype Outside = Outside(early: seq<Queue.Cmd>, initAnswers: nat -> bool, initDevice: Device,
                             rebootAnswers: nat -> bool, verify: nat -> u16,
                             arrivals: seq<seq<Queue.Cmd>>, writeAnswers: nat -> bool, device: Device)

  const RESTART := Queue.Cmd(0x03AE, [0x3030, 0x3031], Queue.Fc16)
  const SHUTDOWN := Queue.Cmd(0x03AB, [0x3031], Queue.Fc16)

  /** The two writes of the inverter's init sequence: no frequency, then stop with acceleration enabled. */
  function InitCommand(k: nat): Queue.Cmd {
    if k == 0 then Queue.Cmd(0x2001, [0], Queue.Fc06) else Queue.Cmd(0x2000, [0x1001], Queue.Fc06)
  }

  /** The device after the first k of them; one that is not answered writes nothing. */
  function InitWritten(d: Queue.Device, answers: nat -> bool, k: nat): Queue.Device {
    if k == 0 then d
    else
      var before := InitWritten(d, answers, k - 1);
      if answers(k - 1) then Queue.Write(before, InitCommand(k - 1)) else before
  }

  /** The second is only made when the first was answered. */
  function InitDevice(d: Queue.Device, answers: nat -> bool): Queue.Device {
    InitWritten(d, answers, if answers(0) then 2 else 1)
  }

  /** Register by register: frequency 0 if the first write is answered, 0x1001 in the operation command if both are. */
  lemma InitWritesAt(d: Queue.Device, answers: nat -> bool, a: nat)
    ensures var r := InitDevice(d, answers);
      if answers(0) && a == 0x2001 then a in r && r[a] == 0
      else if answers(0) && answers(1) && a == 0x2000 then a in r && r[a] == 0x1001
      else (a in r <==> a in d) && (a in d ==> r[a] == d[a])
  {
    Queue.WriteAt(d, InitCommand(0), a);
    assert InitWritten(d, answers, 1) == if answers(0) then Queue.Write(d, InitCommand(0)) else d;
    Queue.WriteAt(InitWritten(d, answers, 1), InitCommand(1), a);
  }

  /** The device when the drain begins. */
  function Prepared(d: Queue.Device, kind: Kind, init: bool, initAnswers: nat -> bool, reboot: bool,
                    rebootAnswers: nat -> bool, verify: nat -> u16): Queue.Device {
    var d' := if init && kind.InverterUnit? then InitDevice(d, initAnswers) else d;
    if reboot then RebootDevice(d', rebootAnswers, verify) else d'
  }

  /** Restart written and verified. */
  predicate Restarted(answers: nat -> bool, verify: nat -> u16) {
    answers(0) && answers(1) && Bits(verify(0), 16)[13]
  }

  function RebootDevice(d: Queue.Device, answers: nat -> bool, verify: nat -> u16): Queue.Device {
    var restarted := if answers(0) then Queue.Write(d, RESTART) else d;
    if Restarted(answers, verify) && answers(2) then Queue.Write(restarted, SHUTDOWN) else restarted
  }

  /**
   Register by register: the restart word pair at 0x03AE if that write is answered, the shutdown word at 0x03AB if
   the restart was answered and read back with bit 13 and the shutdown write is answered, and nothing else.
   */
  lemma RebootWrites(d: Queue.Device, answers: nat -> bool, verify: nat -> u16, a: nat)
    ensures var r := RebootDevice(d, answers, verify);
      if answers(0) && a == 0x03AE then a in r && r[a] == 0x3030
      else if answers(0) && a == 0x03AF then a in r && r[a] == 0x3031
      else if answers(0) && answers(1) && Bits(verify(0), 16)[13] && answers(2) && a == 0x03AB then a in r && r[a] == 0x3031
      else (a in r <==> a in d) && (a in d ==> r[a] == d[a])
  {
    Queue.WriteAt(d, RESTART, a);
    Queue.WriteAt(if answers(0) then Queue.Write(d, RESTART) else d, SHUTDOWN, a);
  }

  /** How many exchanges a reboot sequence makes. */
  function RebootSteps(answers: nat -> bool, verify: nat -> u16): nat {
    if !answers(0) then 1
    else if !Restarted(answers, verify) then 2
    else if !answers(2) then 3
    else 4
  }

  /** Exchanges of one register block, each under its own acquire. */
  function Exchanges(rtu: bool, n: nat): seq<Threads.Op> {
    if n == 0 then [] else Exchanges(rtu, n - 1) + ReadOps(rtu, 1)
  }

  /** A scan of a profile by a device, as it reaches the pool. */
  function On(f: Profile, rtu: bool, x: Device): World {
    Seen(x, rtu, f.table, f.chunk)
  }

  class Unit {
    const profile: Profile
    const kind: Kind
    const poller: Poller
    const queue: Queue.Ring
    var connection: u16
    var initRequested: bool
    var rebootRequested: bool

    ghost predicate Valid()
      reads this, queue, poller.bus
    {
      && Usable(profile) && poller.pool.Valid() && queue.Valid() && poller.bus.Valid()
      && poller.table == profile.table && poller.chunk == profile.chunk
    }

    /** The fields of the unit and the pool, in a given phase. */
    ghost function View(phase: Phase, heard: seq<bool>): State
      reads this, poller, poller.pool.cells
    {
      State(poller.pool.Contents(), poller.commFail, connection, phase, heard)
    }

    constructor (profile: Profile, kind: Kind, pool: Pool, queue: Queue.Ring, bus: Bus)
      requires Usable(profile) && pool.Valid() && queue.Valid() && bus.Valid()
      ensures Valid() && this.profile == profile && this.kind == kind && this.queue == queue
      ensures poller.pool == pool && poller.bus == bus && fresh(poller)
      ensures connection == DISCONNECTED && poller.commFail == 0 && !initRequested && !rebootRequested
    {
      this.profile, this.kind, this.queue := profile, kind, queue;
      this.connection, this.initRequested, this.rebootRequested := DISCONNECTED, false, false;
      this.poller := new Poller(profile.table, profile.chunk, pool, bus);
    }

    /** unit_set_connection. */
    method SetState(conn: u16)
      requires Valid()
      modifies this`connection, poller.pool.cells
      ensures Valid() && connection == conn
      ensures poller.pool.Contents() == old(poller.pool.Contents())[profile.status := conn]
    {
      connection := conn;
      var _ := poller.pool.Write(profile.status, conn);
    }

    /** unit_connect after the transport call: on RTU the probe and the setup writes, under one acquire. */
    method Connect(opens: bool, answers: nat -> bool, setup: nat) returns (ok: bool)
      requires Valid()
      modifies poller.bus
      ensures Valid() && poller.bus.depth == old(poller.bus.depth)
      ensures ok <==> opens && (!poller.bus.rtu || |profile.table| == 0 || answers(0))
      ensures poller.bus.trace == old(poller.bus.trace) +
                                  ConnectTrace(kind, poller.bus.rtu, opens, |profile.table|, answers, setup)
    {
      var bus := poller.bus;
      if !opens || !bus.rtu || (kind.UpsUnit? && |profile.table| == 0) {
        return opens;
      }
      ghost var before := bus.trace;
      bus.Take();
      var probes := if |profile.table| > 0 then 1 else 0;
      Send(probes);
      if probes > 0 && !answers(0) {
        bus.Give();
        Enclosed(before, Exchanged(probes));
        return false;
      }
      var writes := if kind.InverterUnit? then setup else 0;
      Send(writes);
      bus.Give();
      ExchangedConcat(probes, writes);
      Grouped(before + [Threads.Acquire], Exchanged(probes), Exchanged(writes));
      Enclosed(before, Exchanged(probes + writes));
      ok := true;
    }

    /** Some exchanges one after the other. */
    method Send(n: nat)
      requires poller.bus.Valid() && poller.bus.depth > 0
      modifies poller.bus
      ensures poller.bus.Valid() && poller.bus.depth == old(poller.bus.depth)
      ensures poller.bus.trace == old(poller.bus.trace) + Exchanged(n)
    {
      var k := 0;
      while k < n
        invariant k <= n && poller.bus.Valid() && poller.bus.depth == old(poller.bus.depth)
        invariant poller.bus.trace == old(poller.bus.trace) + Exchanged(k)
      {
        poller.bus.Exchange();
        k := k + 1;
      }
    }

    /** init callback: the results of the transport and the device are the world's. */
    method InitCallback(opens: bool, answers: nat -> bool, setup: nat) returns (ok: bool)
      requires Valid()
      modifies this`connection, poller`commFail, poller.pool.cells, poller.bus
      ensures Valid() && (ok <==> opens && (!poller.bus.rtu || |profile.table| == 0 || answers(0)))
      ensures ok ==> connection == 1 && poller.commFail == 0
      ensures ok ==> poller.pool.Contents() == old(poller.pool.Contents())[profile.status := 1]
      ensures !ok ==> connection == old(connection) && poller.commFail == old(poller.commFail)
      ensures !ok ==> poller.pool.Contents() == old(poller.pool.Contents())
      ensures forall heard :: View(if ok then Up else Down, if ok then [] else heard) ==
                              Next(profile, old(View(Down, heard)), Event.Connect(ok))
      ensures poller.bus.depth == old(poller.bus.depth)
      ensures poller.bus.trace == old(poller.bus.trace) +
                                  ConnectTrace(kind, poller.bus.rtu, opens, |profile.table|, answers, setup)
    {
      ok := Connect(opens, answers, setup);
      if !ok {
        return;
      }
      poller.commFail := 0;
      SetState(CONNECTED);
    }

    /** error callback. */
    method ErrorCallback()
      requires Valid()
      modifies this`connection, poller`commFail, poller.pool.cells
      ensures Valid()
      ensures forall heard :: View(Down, []) == Next(profile, old(View(Lost, heard)), Error)
      ensures connection == 0 && poller.commFail == 0
      ensures poller.pool.Contents() == old(poller.pool.Contents())[profile.status := 0]
    {
      poller.commFail := 0;
      SetState(DISCONNECTED);
    }

    /** run_init_sequence of the inverter: clear the flag, make two writes under one acquire, set the flag if both succeed. */
    method InitWriteSequence(d: Queue.Device, answers: nat -> bool) returns (d': Queue.Device)
      requires Valid()
      modifies poller.pool.cells, poller.bus
      ensures Valid() && poller.bus.depth == old(poller.bus.depth)
      ensures forall heard :: View(Up, heard) == Next(profile, old(View(Up, heard)), InitWrites(answers(0) && answers(1)))
      ensures poller.pool.Contents() ==
        old(poller.pool.Contents())[profile.flag := if answers(0) && answers(1) then 1 else 0]
      ensures poller.bus.trace == old(poller.bus.trace) + BurstOps(poller.bus.rtu, if answers(0) then 2 else 1)
      ensures d' == InitDevice(d, answers)
    {
      var _ := poller.pool.Write(profile.flag, 0);
      var bus := poller.bus;
      ghost var before := bus.trace;
      bus.Take();
      var k, ok := 0, true;
      d' := d;
      while k < 2 && ok
        invariant 0 <= k <= 2 && bus.Valid() && bus.depth == old(bus.depth) + 1
        invariant ok == ((k > 0 ==> answers(0)) && (k > 1 ==> answers(1)))
        invariant k == 2 ==> answers(0)
        invariant bus.trace == before + [Threads.Acquire] + Exchanged(if bus.rtu then k else 0)
        invariant d' == InitWritten(d, answers, k)
        modifies bus
        decreases 2 - k
      {
        d' := WriteLocked(d', InitCommand(k), answers(k));
        ok := answers(k);
        k := k + 1;
      }
      bus.Give();
      Enclosed(before, Exchanged(if bus.rtu then k else 0));
      if ok {
        var _ := poller.pool.Write(profile.flag, 1);
      }
    }

    /** run_init_sequence of the UPS: clear the flag, scan without counting, set the flag if all was read. */
    method InitSequence(x: Device)
      requires Valid()
      modifies poller`commFail, poller.pool.cells, poller.bus
      ensures Valid() && poller.bus.depth == old(poller.bus.depth)
      ensures forall heard :: View(Up, heard) == Next(profile, old(View(Up, heard)), InitScan(On(profile, poller.bus.rtu, x)))
      ensures poller.bus.trace == old(poller.bus.trace) +
        ScanTrace(profile, poller.bus.rtu, Put(old(poller.pool.Contents()), profile.flag, 0), old(poller.commFail), false,
                  On(profile, poller.bus.rtu, x))
    {
      var _ := poller.pool.Write(profile.flag, 0);
      var ok := poller.ReadProfile(false, x);
      if ok {
        var _ := poller.pool.Write(profile.flag, 1);
      }
    }

    /** write_registers_locked: a command that no function code carries is refused before anything is sent. */
    method WriteLocked(d: Queue.Device, cmd: Queue.Cmd, answered: bool) returns (d': Queue.Device)
      requires poller.bus.Valid() && poller.bus.depth > 0
      modifies poller.bus
      ensures d' == if answered then Queue.Write(d, cmd) else d
      ensures poller.bus.Valid() && poller.bus.depth == old(poller.bus.depth)
      ensures poller.bus.trace == old(poller.bus.trace) + if poller.bus.rtu && Queue.Writes(cmd) then [Threads.Transact] else []
    {
      d' := d;
      if Queue.Writes(cmd) {
        if poller.bus.rtu {
          poller.bus.Exchange();
        }
        if answered {
          d' := Queue.Write(d, cmd);
        }
      }
    }

    /** The same, with the trace counted since the drain began. */
    method WriteAndCount(d: Queue.Device, cmd: Queue.Cmd, answered: bool, ghost r: Queue.Run, ghost base: seq<Threads.Op>)
      returns (d': Queue.Device)
      requires poller.bus.Valid() && poller.bus.depth > 0 && SentBy(r, base)
      modifies poller.bus
      ensures d' == if answered then Queue.Write(d, cmd) else d
      ensures poller.bus.Valid() && poller.bus.depth == old(poller.bus.depth)
      ensures forall r': Queue.Run :: r'.served == r.served + [cmd] ==> SentBy(r', base)
    {
      SendsOneMore(r.served, cmd);
      Grouped(base, Exchanged(if poller.bus.rtu then Sends(r.served) else 0), [Threads.Transact]);
      d' := WriteLocked(d, cmd, answered);
    }

    /** What other threads push while the drain is busy with one command. */
    method Arrive(cmds: seq<Queue.Cmd>)
      requires queue.Valid()
      modifies queue, queue.entries
      ensures queue.Valid() && queue.Contents() == Queue.PushedAll(old(queue.Contents()), cmds, queue.mergeable)
    {
      var i := 0;
      while i < |cmds|
        invariant i <= |cmds| && queue.Valid()
        invariant Queue.PushedAll(queue.Contents(), cmds[i..], queue.mergeable) ==
                  Queue.PushedAll(old(queue.Contents()), cmds, queue.mergeable)
      {
        assert cmds[i..][1..] == cmds[i + 1..];
        var _ := queue.Push(cmds[i].addr, cmds[i].values, cmds[i].mode);
        i := i + 1;
      }
    }

    /** One turn of the drain: write a command, let requests come in, pop the next. */
    method DrainOne(cmd: Queue.Cmd, d: Queue.Device, arrivals: seq<seq<Queue.Cmd>>, answers: nat -> bool, k: nat,
                    ghost r: Queue.Run, ghost base: seq<Threads.Op>)
      returns (d': Queue.Device, next: Option<Queue.Cmd>, ghost r': Queue.Run)
      requires queue.Valid() && poller.bus.Valid() && poller.bus.depth > 0
      requires r.device == d && Awaits(r, Some(cmd)) && SentBy(r, base)
      modifies queue, queue.entries, poller.bus
      ensures queue.Valid() && r'.device == d' && Awaits(r', next) && r'.served != [] && SentBy(r', base)
      ensures Queue.IsTurn(r, r', arrivals, answers, k, queue.mergeable)
      ensures k >= |arrivals| ==> |r'.pending| < |r.pending|
      ensures poller.bus.Valid() && poller.bus.depth == old(poller.bus.depth)
    {
      assert r.pending[1..] == queue.Contents();
      d' := WriteAndCount(d, cmd, answers(k), r, base);
      Queue.TurnIs(r, arrivals, answers, k, queue.mergeable);
      r' := Queue.Turn(r, arrivals, answers, k, queue.mergeable);
      Arrive(Queue.Came(arrivals, k));
      next := queue.Pop();
    }

    /** What is pending, the command just popped included. */
    ghost predicate Awaits(r: Queue.Run, cmd: Option<Queue.Cmd>)
      requires queue.Valid()
      reads queue, queue.entries
    {
      if cmd.None? then r.pending == [] && queue.Contents() == [] else r.pending == [cmd.value] + queue.Contents()
    }

    /** The exchanges of the commands served so far are in the trace. */
    ghost predicate SentBy(r: Queue.Run, base: seq<Threads.Op>)
      reads poller.bus
    {
      poller.bus.trace == base + Exchanged(if poller.bus.rtu then Sends(r.served) else 0)
    }

    /** The loop of the drain, once a command is popped and the bus is held; turns are the runs it goes through. */
    method DrainLoop(first: Queue.Cmd, d: Queue.Device, arrivals: seq<seq<Queue.Cmd>>, answers: nat -> bool, ghost start: Queue.Run)
      returns (d': Queue.Device, ghost turns: seq<Queue.Run>)
      requires queue.Valid() && poller.bus.Valid() && poller.bus.depth > 0
      requires start.device == d && start.served == [] && Awaits(start, Some(first))
      modifies queue, queue.entries, poller.bus
      ensures Queue.Turns(turns, arrivals, answers, queue.mergeable) && turns[0] == start
      ensures var end := turns[|turns| - 1];
        && queue.Valid() && queue.Contents() == [] && end.pending == [] && d' == end.device && end.served != []
        && SentBy(end, old(poller.bus.trace))
      ensures poller.bus.Valid() && poller.bus.depth == old(poller.bus.depth)
    {
      ghost var base := poller.bus.trace;
      d', turns := d, [start];
      ghost var r := start;
      var cmd := Some(first);
      var k := 0;  // the world counts the writes of this drain
      while cmd.Some?
        invariant queue.Valid() && Awaits(r, cmd) && r.device == d' && (cmd.None? ==> r.served != [])
        invariant poller.bus.Valid() && poller.bus.depth == old(poller.bus.depth)
        invariant Queue.Turns(turns, arrivals, answers, queue.mergeable) && turns[0] == start && turns[|turns| - 1] == r
        invariant SentBy(r, base) && |turns| == k + 1
        decreases if k < |arrivals| then |arrivals| - k else 0, |r.pending|
      {
        d', cmd, r := DrainOne(cmd.value, d', arrivals, answers, k, r, base);
        Queue.MoreTurns(turns, r, arrivals, answers, queue.mergeable);
        turns := turns + [r];
        k := k + 1;
      }
    }

    /**
     The drain of process callback: everything pending, and everything that comes in meanwhile, each command
     written by itself and all under one acquire.
     */
    method Drain(d: Queue.Device, arrivals: seq<seq<Queue.Cmd>>, answers: nat -> bool)
      returns (d': Queue.Device, ghost served: seq<Queue.Cmd>)
      requires Valid()
      modifies queue, queue.entries, poller.bus
      ensures Valid() && queue.Contents() == [] && poller.bus.depth == old(poller.bus.depth)
      ensures var r := Drained(old(queue.Contents()), d, arrivals, answers, queue.mergeable);
        d' == r.device && served == r.served
      ensures poller.bus.trace == old(poller.bus.trace) + DrainOps(poller.bus.rtu, served)
    {
      ghost var start, before := Fresh(queue.Contents(), d), poller.bus.trace;
      var cmd := queue.Pop();
      if cmd.None? {
        return d, [];
      }
      assert Awaits(start, cmd);
      poller.bus.Take();
      ghost var turns;
      d', turns := DrainLoop(cmd.value, d, arrivals, answers, start);
      Queue.TurnsEnd(turns, arrivals, answers, 0, queue.mergeable);
      poller.bus.Give();
      served := turns[|turns| - 1].served;
      Enclosed(before, Exchanged(if poller.bus.rtu then Sends(served) else 0));
    }

    /** The init request, if there is one: taken and served. */
    method ServeInit(d: Queue.Device, answers: nat -> bool, x: Device) returns (d': Queue.Device)
      requires Valid()
      modifies this`initRequested, poller`commFail, poller.pool.cells, poller.bus
      ensures Valid() && !initRequested && poller.bus.depth == old(poller.bus.depth)
      ensures forall heard ::
        (View(Up, heard) == Initialised(profile, old(View(Up, heard)), kind, old(initRequested), answers, On(profile, poller.bus.rtu, x)))
      ensures poller.bus.trace == old(poller.bus.trace) +
        InitTrace(profile, old(View(Up, [])), kind, poller.bus.rtu, old(initRequested), answers, On(profile, poller.bus.rtu, x))
      ensures d' == if old(initRequested) && kind.InverterUnit? then InitDevice(d, answers) else d
    {
      d' := d;
      var requested := initRequested;
      initRequested := false;
      if requested {
        if kind.InverterUnit? {
          d' := InitWriteSequence(d, answers);
        } else {
          InitSequence(x);
        }
      }
    }

    /** write_registers_to_device or read_device_value of one register block: one exchange under its own acquire. */
    method ExchangeOnce()
      requires poller.bus.Valid()
      modifies poller.bus
      ensures poller.bus.Valid() && poller.bus.depth == old(poller.bus.depth)
      ensures poller.bus.trace == old(poller.bus.trace) + ReadOps(poller.bus.rtu, 1)
    {
      if poller.bus.rtu {
        poller.bus.Take();
        poller.bus.Exchange();
        poller.bus.Give();
      }
    }

    /** ups_restart_cmd and ups_shutdown_cmd: write, read back, and look at one bit. */
    method RebootCommand(d: Queue.Device, cmd: Queue.Cmd, bit: nat, wrote: bool, read: bool, v: u16)
      returns (ok: bool, d': Queue.Device)
      requires poller.bus.Valid() && bit < 16
      modifies poller.bus
      ensures ok <==> wrote && read && Bits(v, 16)[bit]
      ensures d' == if wrote then Queue.Write(d, cmd) else d
      ensures poller.bus.Valid() && poller.bus.depth == old(poller.bus.depth)
      ensures poller.bus.trace == old(poller.bus.trace) + Exchanges(poller.bus.rtu, if wrote then 2 else 1)
    {
      ghost var before, once := poller.bus.trace, ReadOps(poller.bus.rtu, 1);
      ExchangeOnce();
      assert Exchanges(poller.bus.rtu, 1) == [] + once == once;
      if !wrote {
        return false, d;
      }
      d' := Queue.Write(d, cmd);
      ExchangeOnce();
      Grouped(before, once, once);
      ok := read && Bits(v, 16)[bit];
    }

    /** run_reboot_sequence: the shutdown is only tried when the restart was verified. */
    method RebootSequence(d: Queue.Device, answers: nat -> bool, verify: nat -> u16) returns (ok: bool, d': Queue.Device)
      requires poller.bus.Valid()
      modifies poller.bus
      ensures ok <==> answers(0) && answers(1) && Bits(verify(0), 16)[13] && answers(2) && answers(3) && Bits(verify(1), 16)[15]
      ensures d' == RebootDevice(d, answers, verify)
      ensures poller.bus.Valid() && poller.bus.depth == old(poller.bus.depth)
      ensures poller.bus.trace == old(poller.bus.trace) + Exchanges(poller.bus.rtu, RebootSteps(answers, verify))
    {
      ghost var before, rtu := poller.bus.trace, poller.bus.rtu;
      ok, d' := RebootCommand(d, RESTART, 13, answers(0), answers(1), verify(0));
      if !ok {
        return;
      }
      ok, d' := RebootCommand(d', SHUTDOWN, 15, answers(2), answers(3), verify(1));
      ghost var n := if answers(2) then 2 else 1;
      ExchangesConcat(rtu, 2, n);
      Grouped(before, Exchanges(rtu, 2), Exchanges(rtu, n));
    }

    /** The reboot request of the UPS, if there is one: taken and served. */
    method ServeReboot(d: Queue.Device, answers: nat -> bool, verify: nat -> u16) returns (d': Queue.Device)
      requires poller.bus.Valid()
      modifies this`rebootRequested, poller.bus
      ensures !rebootRequested && poller.bus.Valid() && poller.bus.depth == old(poller.bus.depth)
      ensures d' == if old(rebootRequested) then RebootDevice(d, answers, verify) else d
      ensures poller.bus.trace == old(poller.bus.trace) +
        Exchanges(poller.bus.rtu, if old(rebootRequested) then RebootSteps(answers, verify) else 0)
    {
      d' := d;
      var requested := rebootRequested;
      rebootRequested := false;
      if requested {
        var ok;
        ok, d' := RebootSequence(d, answers, verify);
      }
    }

    /** Both requests in turn. */
    method ServeRequests(d: Queue.Device, x: Outside) returns (d': Queue.Device)
      requires Valid()
      modifies this`initRequested, this`rebootRequested, poller`commFail, poller.pool.cells, poller.bus
      ensures Valid() && !initRequested && !rebootRequested && poller.bus.depth == old(poller.bus.depth)
      ensures d' == Prepared(d, kind, old(initRequested), x.initAnswers, old(rebootRequested), x.rebootAnswers, x.verify)
      ensures forall heard ::
        (View(Up, heard) == Initialised(profile, old(View(Up, heard)), kind, old(initRequested), x.initAnswers, On(profile, poller.bus.rtu, x.initDevice)))
      ensures poller.bus.trace == old(poller.bus.trace) +
        InitTrace(profile, old(View(Up, [])), kind, poller.bus.rtu, old(initRequested), x.initAnswers, On(profile, poller.bus.rtu, x.initDevice)) +
        Exchanges(poller.bus.rtu, if old(rebootRequested) then RebootSteps(x.rebootAnswers, x.verify) else 0)
    {
      d' := ServeInit(d, x.initAnswers, x.initDevice);
      d' := ServeReboot(d', x.rebootAnswers, x.verify);
    }

    /**
     process callback: init sequence, reboot sequence, drain, tracked scan; early is what other threads push
     before the first pop. What it does to the bus is exactly the operations of the four, one after the other.
     */
    method ProcessCallback(d: Queue.Device, x: Outside) returns (ok: bool, d': Queue.Device, ghost served: seq<Queue.Cmd>)
      requires Valid() && (kind.InverterUnit? ==> !rebootRequested)
      modifies this`initRequested, this`rebootRequested, queue, queue.entries, poller`commFail, poller.pool.cells, poller.bus
      ensures Valid() && !initRequested && !rebootRequested && queue.Contents() == []
      ensures poller.bus.depth == old(poller.bus.depth)
      ensures
        var r := Drained(Queue.PushedAll(old(queue.Contents()), x.early, queue.mergeable),
                         Prepared(d, kind, old(initRequested), x.initAnswers, old(rebootRequested), x.rebootAnswers, x.verify),
                         x.arrivals, x.writeAnswers, queue.mergeable);
        d' == r.device && served == r.served
      ensures forall heard ::
        var s := Next(profile, Initialised(profile, old(View(Up, heard)), kind, old(initRequested), x.initAnswers, On(profile, poller.bus.rtu, x.initDevice)), Poll(On(profile, poller.bus.rtu, x.device)));
        View(s.phase, s.heard) == s && (ok <==> s.phase == Up)
      ensures
        var s := Initialised(profile, old(View(Up, [])), kind, old(initRequested), x.initAnswers, On(profile, poller.bus.rtu, x.initDevice));
        poller.bus.trace == old(poller.bus.trace) +
          InitTrace(profile, old(View(Up, [])), kind, poller.bus.rtu, old(initRequested), x.initAnswers, On(profile, poller.bus.rtu, x.initDevice)) +
          Exchanges(poller.bus.rtu, if old(rebootRequested) then RebootSteps(x.rebootAnswers, x.verify) else 0) +
          DrainOps(poller.bus.rtu, served) +
          ScanTrace(profile, poller.bus.rtu, s.pool, s.fails, true, On(profile, poller.bus.rtu, x.device))
    {
      Arrive(x.early);
      d' := ServeRequests(d, x);
      d', served := Drain(d', x.arrivals, x.writeAnswers);
      ok := poller.ReadProfile(true, x.device);
    }
  }

  lemma {:induction false} ExchangedConcat(a: nat, b: nat)
    ensures Exchanged(a) + Exchanged(b) == Exchanged(a + b)
  {
    if b > 0 {
      ExchangedConcat(a, b - 1);
      Grouped(Exchanged(a), Exchanged(b - 1), [Threads.Transact]);
    } else {
      assert Exchanged(a) + [] == Exchanged(a);
    }
  }

  lemma {:induction false} ExchangesConcat(rtu: bool, a: nat, b: nat)
    ensures Exchanges(rtu, a) + Exchanges(rtu, b) == Exchanges(rtu, a + b)
  {
    if b > 0 {
      ExchangesConcat(rtu, a, b - 1);
      Grouped(Exchanges(rtu, a), Exchanges(rtu, b - 1), ReadOps(rtu, 1));
    } else {
      assert Exchanges(rtu, a) + [] == Exchanges(rtu, a);
    }
  }

  lemma Grouped(x: seq<Threads.Op>, y: seq<Threads.Op>, z: seq<Threads.Op>)
    ensures (x + y) + z == x + (y + z)
  {
  }

  /** Whatever a unit does in one callback is nothing or a block. */
  predicate Whole(ops: seq<Threads.Op>) {
    ops == [] || Threads.Block(ops)
  }

  lemma BurstIsWhole(rtu: bool, n: nat)
    ensures Whole(BurstOps(rtu, n))
  {
    UnitCodeIsBlocks(rtu, [], n);
  }

  lemma ScanIsWhole(f: Profile, rtu: bool, p: seq<u16>, fails: nat, track: bool, w: World)
    ensures Whole(ScanTrace(f, rtu, p, fails, track, w))
  {
    UnitCodeIsBlocks(rtu, Segments(f.table, f.chunk, 0), |ScanProfile(f.table, f.chunk, p, fails, track, w).heard|);
  }

  lemma DrainIsWhole(rtu: bool, served: seq<Queue.Cmd>)
    ensures Whole(DrainOps(rtu, served))
  {
    BurstIsWhole(rtu, Sends(served));
  }

  lemma InitIsWhole(f: Profile, s: State, kind: Kind, rtu: bool, requested: bool, answers: nat -> bool, w: World)
    ensures Whole(InitTrace(f, s, kind, rtu, requested, answers, w))
  {
    BurstIsWhole(rtu, if answers(0) then 2 else 1);
    ScanIsWhole(f, rtu, Put(s.pool, f.flag, 0), s.fails, false, w);
  }

  lemma ConnectIsWhole(kind: Kind, rtu: bool, opens: bool, rows: nat, answers: nat -> bool, setup: nat)
    ensures Whole(ConnectTrace(kind, rtu, opens, rows, answers, setup))
  {
    BurstIsWhole(rtu, 1);
    BurstIsWhole(rtu, (if rows > 0 then 1 else 0) + if kind.InverterUnit? then setup else 0);
  }

  lemma {:induction false} ExchangesSent(n: nat)
    ensures Sent(Exchanges(true, n)) == n
  {
    if n > 0 {
      ExchangesSent(n - 1);
      SentConcat(Exchanges(true, n - 1), ReadOps(true, 1));
      OneReadSent();
    }
  }

  lemma OneReadSent()
    ensures Sent(ReadOps(true, 1)) == 1
  {
    EnclosedSent([Threads.Transact]);
    assert ReadOps(true, 1) == [Threads.Acquire] + [Threads.Transact] + [Threads.Release];
    assert Sent([Threads.Transact]) == Sent([]) + 1;
  }

  lemma {:induction false} AllSent(cmds: seq<Queue.Cmd>)
    requires forall i :: 0 <= i < |cmds| ==> cmds[i].mode == Queue.Fc06 ==> |cmds[i].values| == 1
    ensures Sends(cmds) == |cmds|
  {
    if cmds != [] {
      AllSent(cmds[..|cmds| - 1]);
    }
  }

  /**
   How often the callbacks use the wire on RTU: a connect for its probe and the inverter's setup writes, a reboot
   for up to two writes and two reads, a drain once for every command.
   */
  lemma CallbacksSend(kind: Kind, rows: nat, answers: nat -> bool, setup: nat, verify: nat -> u16, served: seq<Queue.Cmd>)
    requires forall i :: 0 <= i < |served| ==> served[i].mode == Queue.Fc06 ==> |served[i].values| == 1
    ensures Sent(ConnectTrace(kind, true, true, rows, answers, setup)) ==
      (if rows == 0 then 0 else 1) + if kind.InverterUnit? && (rows == 0 || answers(0)) then setup else 0
    ensures Sent(Exchanges(true, RebootSteps(answers, verify))) ==
      if !answers(0) then 1 else if !answers(1) || !Bits(verify(0), 16)[13] then 2 else if !answers(2) then 3 else 4
    ensures Sent(DrainOps(true, served)) == |served|
  {
    WireUse(true, [], 1);
    WireUse(true, [], (if rows > 0 then 1 else 0) + if kind.InverterUnit? then setup else 0);
    WireUse(true, [], Sends(served));
    ExchangesSent(RebootSteps(answers, verify));
    AllSent(served);
  }

  /** A reboot sequence is not one block, but one block per exchange. */
  function SingleBlocks(rtu: bool, n: nat): (blocks: seq<seq<Threads.Op>>)
    ensures rtu ==> forall i :: 0 <= i < |blocks| ==> Threads.Block(blocks[i])
    ensures Concat(blocks) == Exchanges(rtu, n)
  {
    if n == 0 || !rtu then
      NothingOnTcp(n);
      []
    else
      ExchangeIsBlock();
      ConcatOneMore(SingleBlocks(rtu, n - 1), ReadOps(rtu, 1));
      SingleBlocks(rtu, n - 1) + [ReadOps(rtu, 1)]
  }

  lemma {:induction false} NothingOnTcp(n: nat)
    ensures Exchanges(false, n) == []
  {
    if n > 0 {
      NothingOnTcp(n - 1);
    }
  }

  lemma ExchangeIsBlock()
    ensures Threads.Block(ReadOps(true, 1))
  {
    var b := ReadOps(true, 1);
    assert b[1..|b| - 1] == [Threads.Transact];
    assert Threads.Relative([Threads.Transact], 0) == Threads.Relative([], 0);
  }

  /**
   A drain at any point of a history, whatever writes failed before it: when its own writes are answered, the
   device ends up as writing what was pending and then replaying everything accepted since it began.
   */
  lemma DrainInHistory(d: Queue.Device, events: seq<Queue.Event>, arrivals: seq<seq<Queue.Cmd>>, answers: nat -> bool,
                       mergeable: set<u16>)
    requires Queue.Careful(events, mergeable)
    requires var r := Queue.After(d, events, mergeable);
      Queue.AllHarmless(Queue.DrainEvents(r.pending, arrivals, answers, 0, mergeable), mergeable)
    ensures var r := Queue.After(d, events, mergeable);
      var end := Queue.DrainFrom(r, arrivals, answers, 0, mergeable);
      && r.accepted <= end.accepted
      && Drained(r.pending, r.device, arrivals, answers, mergeable).device ==
         Queue.Replay(Queue.Replay(r.device, r.pending), end.accepted[|r.accepted|..])
  {
    var r := Queue.After(d, events, mergeable);
    Queue.DrainPreservesOutcome(d, events, arrivals, answers, mergeable);
    Queue.DrainIsRun(r, arrivals, answers, 0, mergeable);
    Queue.DrainIsRun(Fresh(r.pending, r.device), arrivals, answers, 0, mergeable);
    SameMachine(r, Fresh(r.pending, r.device), Queue.DrainEvents(r.pending, arrivals, answers, 0, mergeable), mergeable);
  }

  /** What is pending and on the device does not depend on the record of the past. */
  lemma {:induction false} SameMachine(r: Queue.Run, s: Queue.Run, events: seq<Queue.Event>, mergeable: set<u16>)
    requires r.pending == s.pending && r.device == s.device
    ensures Queue.RunOn(r, events, mergeable).pending == Queue.RunOn(s, events, mergeable).pending
    ensures Queue.RunOn(r, events, mergeable).device == Queue.RunOn(s, events, mergeable).device
    decreases events
  {
    if events != [] {
      SameMachine(Queue.Step(r, events[0], mergeable), Queue.Step(s, events[0], mergeable), events[1..], mergeable);
    }
  }

  // ---------------------------------------------------------------- runs

  function Start(p: seq<u16>, f: Profile): State {
    SetConnection(f, State(p, 0, DISCONNECTED, Down, []), DISCONNECTED)
  }

  ghost predicate IsRun(f: Profile, p: seq<u16>, states: seq<State>, events: seq<Event>) {
    && |states| == |events| + 1 && states[0] == Start(p, f)
    && forall k :: 0 <= k < |events| ==> Enabled(f, states[k], events[k]) && states[k + 1] == Next(f, states[k], events[k])
  }

  predicate AllLost(f: Profile, p: seq<u16>)
    requires |p| == POOL_SIZE && InPool(f.table)
  {
    forall i :: 0 <= i < |f.table| ==> p[f.table[i].pool] == LOST
  }

  predicate AllInitial(f: Profile, p0: seq<u16>, p: seq<u16>)
    requires |p| == |p0| == POOL_SIZE && InPool(f.table)
  {
    forall i :: 0 <= i < |f.table| ==> p[f.table[i].pool] == p0[f.table[i].pool]
  }

  /** What holds between the callbacks of a unit, for the pool contents p0 the daemon started from. */
  predicate Good(f: Profile, p0: seq<u16>, s: State)
    requires Usable(f) && |p0| == POOL_SIZE
  {
    && |s.pool| == POOL_SIZE
    && s.conn == s.pool[f.status]
    && s.fails == Trailing(0, s.heard)
    && (s.conn == DISCONNECTED || s.conn == CONNECTED)
    && (s.conn == DISCONNECTED ==> AllInitial(f, p0, s.pool) || AllLost(f, s.pool))
    && match s.phase
       case Down => s.conn == DISCONNECTED && s.fails == 0
       case Up => s.conn == CONNECTED && s.fails < THRESHOLD
       case Lost => s.conn == CONNECTED && s.fails == THRESHOLD && AllLost(f, s.pool)
       case Stopped => s.fails < THRESHOLD
  }

  lemma {:induction false} TrailingConcat(f: nat, a: seq<bool>, b: seq<bool>)
    ensures Trailing(f, a + b) == Trailing(Trailing(f, a), b)
    decreases a
  {
    if a == [] {
      assert a + b == b;
    } else {
      assert (a + b)[1..] == a[1..] + b;
      TrailingConcat(if a[0] then 0 else f + 1, a[1..], b);
    }
  }

  lemma ScanKeepsPrivateSlots(f: Profile, p: seq<u16>, fails: nat, track: bool, w: World)
    requires Usable(f) && |p| == POOL_SIZE
    ensures var r := ScanProfile(f.table, f.chunk, p, fails, track, w);
      r.pool[f.status] == p[f.status] && r.pool[f.flag] == p[f.flag]
  {
    SegmentsLaid(f.table, f.chunk, 0);
    ScanTouchesItsRows(f.table, Segments(f.table, f.chunk, 0), 0, 0, p, fails, track, w, f.status);
    ScanTouchesItsRows(f.table, Segments(f.table, f.chunk, 0), 0, 0, p, fails, track, w, f.flag);
  }

  lemma PollKeeps(f: Profile, p0: seq<u16>, s: State, w: World)
    requires Usable(f) && |p0| == POOL_SIZE && Good(f, p0, s) && s.phase == Up
    ensures Good(f, p0, Next(f, s, Poll(w)))
  {
    var lens := Segments(f.table, f.chunk, 0);
    SegmentsLaid(f.table, f.chunk, 0);
    ScanKeepsPrivateSlots(f, s.pool, s.fails, true, w);
    CountIsTrailingFailures(f.table, lens, 0, 0, s.pool, s.fails, w);
    FailsExactlyAtThreshold(f.table, lens, 0, 0, s.pool, s.fails, w);
    TrailingConcat(0, s.heard, ScanProfile(f.table, f.chunk, s.pool, s.fails, true, w).heard);
  }

  lemma InitScanKeeps(f: Profile, p0: seq<u16>, s: State, w: World)
    requires Usable(f) && |p0| == POOL_SIZE && Good(f, p0, s) && s.phase == Up
    ensures Good(f, p0, Next(f, s, InitScan(w)))
  {
    var p := Put(s.pool, f.flag, 0);
    SegmentsLaid(f.table, f.chunk, 0);
    ScanKeepsPrivateSlots(f, p, s.fails, false, w);
    UntrackedScan(f.table, Segments(f.table, f.chunk, 0), 0, 0, p, s.fails, w);
  }

  lemma RowSlotUsed(f: Profile, i: nat)
    requires i < |f.table|
    ensures Uses(f.table, f.table[i].pool)
  {
  }

  lemma StepKeeps(f: Profile, p0: seq<u16>, s: State, e: Event)
    requires Usable(f) && |p0| == POOL_SIZE && Good(f, p0, s) && Enabled(f, s, e)
    ensures Good(f, p0, Next(f, s, e))
  {
    forall i | 0 <= i < |f.table| ensures Uses(f.table, f.table[i].pool) {
      RowSlotUsed(f, i);
    }
    match e
    case Poll(w) => PollKeeps(f, p0, s, w);
    case InitScan(w) => InitScanKeeps(f, p0, s, w);
    case Connect(_) =>
    case InitWrites(_) =>
    case Error =>
    case Stop =>
    case Others(q) =>
  }

  /**
   In every run, against any device and any neighbours: the count is the tracked failures since the last
   success or reset and stays below 5 while the unit polls; a scan fails exactly on reaching 5, with the whole
   profile at 0xFFFF; the state always equals its mirror; and a unit that is down shows either what the daemon
   started with or 0xFFFF throughout.
   */
  lemma {:induction false} LifecycleInvariant(f: Profile, p0: seq<u16>, states: seq<State>, events: seq<Event>, k: nat)
    requires Usable(f) && |p0| == POOL_SIZE && IsRun(f, p0, states, events) && k < |states|
    ensures Good(f, p0, states[k])
  {
    if k == 0 {
      forall i | 0 <= i < |f.table| ensures Uses(f.table, f.table[i].pool) {
        RowSlotUsed(f, i);
      }
    } else {
      LifecycleInvariant(f, p0, states, events, k - 1);
      StepKeeps(f, p0, states[k - 1], events[k - 1]);
    }
  }

  /** A poll of a device that fills every read shows its registers, moves no other slot, and keeps the unit up. */
  lemma HealthyPoll(f: Profile, s: State, x: Device, rtu: bool, g: u16 -> u16)
    requires Usable(f) && f.chunk <= 125 && f.table != [] && |s.pool| == POOL_SIZE
    requires (forall n :: x.reply(n) == Filled) && (forall n, a :: x.register(n, a) == g(a))
    ensures var s' := Next(f, s, Poll(On(f, rtu, x)));
      && s'.phase == Up && s'.fails == 0 && s'.conn == s.conn && |s'.pool| == POOL_SIZE
      && (forall i :: 0 <= i < |f.table| ==> s'.pool[f.table[i].pool] == g(f.table[i].device))
      && (forall a :: 0 <= a < POOL_SIZE && !Uses(f.table, a) ==> s'.pool[a] == s.pool[a])
  {
    FilledScan(x, rtu, f.table, f.chunk, s.pool, s.fails, true, g);
  }

  /** After the UPS's init scan the flag says whether every read was made and succeeded; count and phase are as before. */
  lemma InitScanFlag(f: Profile, s: State, x: Device, rtu: bool)
    requires Usable(f) && |s.pool| == POOL_SIZE
    ensures var s', lens := Next(f, s, InitScan(On(f, rtu, x))), Segments(f.table, f.chunk, 0);
      && |s'.pool| == POOL_SIZE && s'.fails == s.fails && s'.phase == s.phase
      && s'.pool[f.flag] ==
         if forall i :: 0 <= i < |lens| ==> lens[i] <= 125 && (x.reply(i) == Filled || (x.reply(i) == Unfilled && !rtu)) then 1 else 0
  {
    var w, p, lens := On(f, rtu, x), Put(s.pool, f.flag, 0), Segments(f.table, f.chunk, 0);
    SegmentsLaid(f.table, f.chunk, 0);
    UntrackedScan(f.table, lens, 0, 0, p, s.fails, w);
    ScanKeepsPrivateSlots(f, p, s.fails, false, w);
    forall i | 0 <= i < |lens|
      ensures Answered(w, 0 + i, lens[i]) <==> lens[i] <= 125 && (x.reply(i) == Filled || (x.reply(i) == Unfilled && !rtu))
    {
    }
  }

  /** A poll of a device that answers nothing adds its reads to the count; at five the unit is lost. */
  lemma SilentPoll(f: Profile, s: State, x: Device, rtu: bool)
    requires Usable(f) && |s.pool| == POOL_SIZE && s.fails < 5 && (forall n :: x.reply(n) == Failed)
    ensures var s', n := Next(f, s, Poll(On(f, rtu, x))), |Segments(f.table, f.chunk, 0)|;
      && s'.conn == s.conn && |s'.pool| == POOL_SIZE
      && if s.fails + n < 5 then s'.phase == Up && s'.fails == s.fails + n && s'.pool == s.pool
         else s'.phase == Lost && s'.fails == 5 && forall i :: 0 <= i < |f.table| ==> s'.pool[f.table[i].pool] == 0xFFFF
  {
    var lens := Segments(f.table, f.chunk, 0);
    SegmentsLaid(f.table, f.chunk, 0);
    SilentScan(x, rtu, f.table, lens, 0, 0, lens, s.pool, s.fails);
  }

  ghost predicate SilentEvent(f: Profile, e: Event, x: Device, rtu: bool) {
    e.Poll? && e.w == On(f, rtu, x)
  }

  /** In no run is a unit still up after five polls in a row of a device that answers nothing. */
  lemma {:induction false} LostWithinFive(f: Profile, p0: seq<u16>, states: seq<State>, events: seq<Event>, k: nat, m: nat,
                                          x: Device, rtu: bool)
    requires Usable(f) && |p0| == POOL_SIZE && IsRun(f, p0, states, events) && f.table != []
    requires k + m <= |events| && (forall n :: x.reply(n) == Failed)
    requires forall n :: k <= n < k + m ==> SilentEvent(f, events[n], x, rtu)
    ensures m <= 5 && (m == 5 ==> states[k + m].phase == Lost)
    ensures states[k + m].phase == Up ==> m <= states[k + m].fails
    decreases m
  {
    if m > 0 {
      LostWithinFive(f, p0, states, events, k, m - 1, x, rtu);
      LifecycleInvariant(f, p0, states, events, k + m - 1);
      var s, e := states[k + m - 1], events[k + m - 1];
      assert SilentEvent(f, e, x, rtu) && Enabled(f, s, e) && states[k + m] == Next(f, s, e);
      SilentPoll(f, s, x, rtu);
      assert Segments(f.table, f.chunk, 0) != [];
    }
  }

  /** A reader that sees DISCONNECTED in the pool, at any moment, sees no value of an earlier connection. */
  lemma NoStaleValuesWhenDown(f: Profile, p0: seq<u16>, states: seq<State>, events: seq<Event>, k: nat)
    requires Usable(f) && |p0| == POOL_SIZE && IsRun(f, p0, states, events) && k < |states|
    ensures |states[k].pool| == POOL_SIZE
    ensures states[k].pool[f.status] == DISCONNECTED ==> AllInitial(f, p0, states[k].pool) || AllLost(f, states[k].pool)
  {
    LifecycleInvariant(f, p0, states, events, k);
  }

  /**
   Stopping does not touch the mirror. In every run the pool says DISCONNECTED after a stop exactly when the
   unit was down before it; a unit stopped while polling goes on saying CONNECTED for ever.
   */
  lemma StopSaysDisconnectedExactly(f: Profile, p0: seq<u16>, states: seq<State>, events: seq<Event>, k: nat, n: nat)
    requires Usable(f) && |p0| == POOL_SIZE && IsRun(f, p0, states, events)
    requires k < |events| && events[k] == Stop && k < n < |states|
    ensures |states[n].pool| == POOL_SIZE && states[n].phase == Stopped
    ensures states[n].pool[f.status] == (if states[k].phase == Down then DISCONNECTED else CONNECTED)
    decreases n
  {
    LifecycleInvariant(f, p0, states, events, k);
    LifecycleInvariant(f, p0, states, events, n);
    assert Enabled(f, states[n - 1], events[n - 1]) && states[n] == Next(f, states[n - 1], events[n - 1]);
    if n > k + 1 {
      StopSaysDisconnectedExactly(f, p0, states, events, k, n - 1);
    }
  }

  /** Connect and stop: a run after which the pool of an ended unit says CONNECTED. */
  lemma StoppedWhileConnected(f: Profile, p0: seq<u16>) returns (states: seq<State>, events: seq<Event>)
    requires Usable(f) && |p0| == POOL_SIZE
    ensures IsRun(f, p0, states, events) && events == [Connect(true), Stop] && |states| == 3
    ensures states[2].phase == Stopped && |states[2].pool| == POOL_SIZE && states[2].pool[f.status] == CONNECTED
  {
    var s0 := Start(p0, f);
    var s1 := Next(f, s0, Connect(true));
    states, events := [s0, s1, Next(f, s1, Stop)], [Connect(true), Stop];
  }
}
