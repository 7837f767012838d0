/**
 Runs of unit threads on shared serial ports: connecting, failing the probe, losing the device, reconnecting
 and stopping, in any interleaving. References are counted exactly, and different units keep their silence.
 */
module PortRuns {
  import opened Words
  import opened BusSilence
  import opened SharedPort
  import Coord = BusCoordinator

  datatype Config = Config(path: string, baud: nat, unit: byte)

  /** Off: not connected. Opening: record found, port due. Probing: connected, first read due. On: polling. Over: thread ended. */
  datatype Phase = Off | Opening | Probing | On | Over

  datatype System = System(records: seq<Record>, ctxs: seq<Ctx>, phases: seq<Phase>)

  datatype Event =
    | Claim(t: nat)
    | Attach(t: nat, device: Option<nat>)
    | ProbeFailed(t: nat)
    | ProbePassed(t: nat)
    | CommLost(t: nat)
    | Stop(t: nat)
    | Transact(t: nat, now: Time, start: Time, end: Time)

  predicate Holds(c: Ctx, i: nat) {
    c.fd.Some? && c.bus == Some(i)
  }

  /** How many contexts have a descriptor on port i. */
  function Count(ctxs: seq<Ctx>, i: nat): nat {
    if ctxs == [] then 0 else Count(ctxs[1..], i) + if Holds(ctxs[0], i) then 1 else 0
  }

  lemma {:induction false} CountUpdate(ctxs: seq<Ctx>, t: nat, c: Ctx, i: nat)
    requires t < |ctxs|
    ensures Count(ctxs[t := c], i) + (if Holds(ctxs[t], i) then 1 else 0) == Count(ctxs, i) + if Holds(c, i) then 1 else 0
  {
    if t > 0 {
      assert ctxs[t := c][1..] == ctxs[1..][t - 1 := c];
      CountUpdate(ctxs[1..], t - 1, c, i);
    } else {
      assert ctxs[t := c][1..] == ctxs[1..];
    }
  }

  lemma {:induction false} CountZero(ctxs: seq<Ctx>, i: nat)
    ensures Count(ctxs, i) == 0 <==> forall t :: 0 <= t < |ctxs| ==> !Holds(ctxs[t], i)
  {
    if ctxs != [] {
      CountZero(ctxs[1..], i);
      assert forall t :: 0 <= t < |ctxs[1..]| ==> ctxs[1..][t] == ctxs[t + 1];
      if Count(ctxs, i) == 0 {
        forall t | 0 <= t < |ctxs| ensures !Holds(ctxs[t], i) {
          if t > 0 {
            assert !Holds(ctxs[1..][t - 1], i);
          }
        }
      } else if !Holds(ctxs[0], i) {
        var t :| 0 <= t < |ctxs[1..]| && Holds(ctxs[1..][t], i);
        assert Holds(ctxs[t + 1], i);
      }
    }
  }

  // ---------------------------------------------------------------- accounting

  /** The port is open exactly while it is referenced, and the count is right. */
  predicate Booked(p: Port, n: nat) {
    p.refcnt == n && (p.fd.Some? <==> n > 0)
  }

  predicate Accounted(rs: seq<Record>, ctxs: seq<Ctx>) {
    && |rs| == MAX_PORTS
    && forall i :: 0 <= i < |rs| ==> Booked(rs[i].port, Count(ctxs, i)) && (!rs[i].inUse ==> Count(ctxs, i) == 0)
  }

  /** Each attached context knows its port: same path, same descriptor, same baud rate. */
  predicate Linked(rs: seq<Record>, c: Ctx) {
    c.fd.Some? ==>
      && c.bus.Some? && c.bus.value < |rs| && Names(rs[c.bus.value], c.path)
      && rs[c.bus.value].port.fd == c.fd && rs[c.bus.value].port.baud == c.baud
  }

  predicate AllLinked(rs: seq<Record>, ctxs: seq<Ctx>) {
    forall t :: 0 <= t < |ctxs| ==> Linked(rs, ctxs[t])
  }

  predicate DistinctPaths(rs: seq<Record>) {
    forall i, j :: 0 <= i < j < |rs| && rs[i].inUse && rs[j].inUse ==> rs[i].path != rs[j].path
  }

  /** No two open ports share a descriptor. */
  predicate DistinctDescriptors(rs: seq<Record>) {
    forall i, j :: 0 <= i < j < |rs| && rs[i].port.fd.Some? ==> rs[i].port.fd != rs[j].port.fd
  }

  predicate Sane(rs: seq<Record>, ctxs: seq<Ctx>) {
    Accounted(rs, ctxs) && AllLinked(rs, ctxs) && DistinctPaths(rs) && DistinctDescriptors(rs)
  }

  /** The operating system hands out descriptors that are not in use. */
  predicate FreshDevice(rs: seq<Record>, device: Option<nat>) {
    device.Some? ==> forall i :: 0 <= i < |rs| ==> rs[i].port.fd != device
  }

  lemma ClaimKeeps(rs: seq<Record>, ctxs: seq<Ctx>, path: string)
    requires Sane(rs, ctxs) && |path| <= Coord.PATH_ROOM
    ensures Sane(Claimed(rs, path), ctxs)
    ensures Place(rs, path).Some? ==> Names(Claimed(rs, path)[Place(rs, path).value], path)
    ensures forall device :: FreshDevice(rs, device) ==> FreshDevice(Claimed(rs, path), device)
  {
    var i := Place(rs, path);
    if i.Some? && !rs[i.value].inUse {
      var rs' := Claimed(rs, path);
      assert Count(ctxs, i.value) == 0;
      forall t | 0 <= t < |ctxs| ensures Linked(rs', ctxs[t]) {
        assert Linked(rs, ctxs[t]);
      }
    }
  }

  /** Changing one port and one context together. */
  lemma UpdateKeepsOthers(rs: seq<Record>, ctxs: seq<Ctx>, i: nat, p: Port, t: nat, c: Ctx)
    requires Sane(rs, ctxs) && i < |rs| && rs[i].inUse && t < |ctxs|
    requires forall j :: 0 <= j < |rs| && j != i ==> !Holds(ctxs[t], j) && !Holds(c, j)
    requires Booked(p, Count(ctxs[t := c], i))
    requires p.fd.Some? && rs[i].port.fd.Some? ==> p.fd == rs[i].port.fd && p.baud == rs[i].port.baud
    requires rs[i].port.fd.None? ==> FreshDevice(rs, p.fd)
    requires Linked(rs[i := rs[i].(port := p)], c)
    ensures Sane(rs[i := rs[i].(port := p)], ctxs[t := c])
  {
    var rs', ctxs' := rs[i := rs[i].(port := p)], ctxs[t := c];
    forall j | 0 <= j < |rs| ensures Booked(rs'[j].port, Count(ctxs', j)) && (!rs'[j].inUse ==> Count(ctxs', j) == 0) {
      CountUpdate(ctxs, t, c, j);
    }
    CountZero(ctxs', i);
    CountZero(ctxs, i);
    forall u | 0 <= u < |ctxs'| ensures Linked(rs', ctxs'[u]) {
      if u != t {
        assert Linked(rs, ctxs[u]);
        if Holds(ctxs[u], i) {
          assert Holds(ctxs'[u], i);
        }
      }
    }
  }

  /** Attaching a context that holds nothing keeps everything in order, whether it succeeds or not. */
  lemma AttachKeeps(rs: seq<Record>, ctxs: seq<Ctx>, t: nat, i: Option<nat>, path: string, baud: nat, unit: byte, device: Option<nat>)
    requires Sane(rs, ctxs) && t < |ctxs| && ctxs[t].fd.None? && FreshDevice(rs, device)
    requires i.Some? ==> i.value < |rs| && Names(rs[i.value], path)
    ensures var l := Opened(rs, i, path, baud, unit, device); Sane(l.records, ctxs[t := l.ctx])
  {
    var l := Opened(rs, i, path, baud, unit, device);
    if i.Some? && l.ctx.fd.Some? {
      CountUpdate(ctxs, t, l.ctx, i.value);
      UpdateKeepsOthers(rs, ctxs, i.value, Attached(rs[i.value].port, baud, device).value, t, l.ctx);
    } else {
      DetachedContext(rs, ctxs, t, l.ctx);
    }
  }

  lemma ConnectKeeps(rs: seq<Record>, ctxs: seq<Ctx>, t: nat, path: string, baud: nat, unit: byte, device: Option<nat>)
    requires Sane(rs, ctxs) && |path| <= Coord.PATH_ROOM && t < |ctxs| && ctxs[t].fd.None? && FreshDevice(rs, device)
    ensures var l := Connected(rs, path, baud, unit, device); Sane(l.records, ctxs[t := l.ctx])
  {
    ClaimKeeps(rs, ctxs, path);
    AttachKeeps(Claimed(rs, path), ctxs, t, Place(rs, path), path, baud, unit, device);
  }

  lemma DetachedContext(rs: seq<Record>, ctxs: seq<Ctx>, t: nat, c: Ctx)
    requires Sane(rs, ctxs) && t < |ctxs| && ctxs[t].fd.None? && c.fd.None?
    ensures Sane(rs, ctxs[t := c])
  {
    forall j | 0 <= j < |rs| ensures Count(ctxs[t := c], j) == Count(ctxs, j) {
      CountUpdate(ctxs, t, c, j);
    }
  }

  /** Disconnecting keeps everything in order, the repeated disconnect at thread exit included. */
  lemma DisconnectKeeps(rs: seq<Record>, ctxs: seq<Ctx>, t: nat)
    requires Sane(rs, ctxs) && t < |ctxs|
    ensures var l := Disconnected(rs, ctxs[t]); Sane(l.records, ctxs[t := l.ctx]) && l.ctx.fd.None?
  {
    var l := Disconnected(rs, ctxs[t]);
    assert Linked(rs, ctxs[t]);
    if ctxs[t].fd.Some? {
      var i := ctxs[t].bus.value;
      CountUpdate(ctxs, t, l.ctx, i);
      CountZero(ctxs, i);
      UpdateKeepsOthers(rs, ctxs, i, Detached(rs[i].port), t, l.ctx);
    } else {
      assert ctxs[t := l.ctx] == ctxs;
    }
  }

  /**
   Connecting overwrites the context. The accounting survives that exactly when the context held no
   descriptor: an attached context that is connected again loses its reference for ever.
   */
  lemma ConnectAccountsExactly(rs: seq<Record>, ctxs: seq<Ctx>, t: nat, path: string, baud: nat, unit: byte, device: Option<nat>)
    requires Sane(rs, ctxs) && |path| <= Coord.PATH_ROOM && t < |ctxs| && FreshDevice(rs, device)
    ensures var l := Connected(rs, path, baud, unit, device);
      Accounted(l.records, ctxs[t := l.ctx]) <==> ctxs[t].fd.None?
  {
    var l := Connected(rs, path, baud, unit, device);
    if ctxs[t].fd.None? {
      ConnectKeeps(rs, ctxs, t, path, baud, unit, device);
    } else {
      assert Linked(rs, ctxs[t]);
      var i := ctxs[t].bus.value;
      CountUpdate(ctxs, t, l.ctx, i);
      CountZero(ctxs, i);
      assert Booked(rs[i].port, Count(ctxs, i));
      assert !Booked(l.records[i].port, Count(ctxs[t := l.ctx], i));
    }
  }

  /** Connecting one context twice: the port counts two references, one context has it, and one disconnect leaves it open. */
  lemma ConnectedTwice(rs: seq<Record>, path: string, baud: nat, unit: byte, device: nat)
    requires |rs| == MAX_PORTS && forall i :: 0 <= i < |rs| ==> rs[i] == Record("", false, CLOSED)
    requires |path| <= Coord.PATH_ROOM
    ensures var once := Connected(rs, path, baud, unit, Some(device));
      var twice := Connected(once.records, path, baud, unit, None);
      var left := Disconnected(twice.records, twice.ctx);
      && once.ctx.fd == twice.ctx.fd == Some(device) && once.ctx.bus == twice.ctx.bus == Some(0)
      && twice.records[0].port.refcnt == 2 && Count([twice.ctx], 0) == 1
      && left.ctx.fd == None && left.records[0].port.fd == Some(device)
  {
    assert !Names(rs[0], path) && !rs[0].inUse;
    assert FindFrom(rs, path, 0) == None;
    var once := Connected(rs, path, baud, unit, Some(device));
    assert Names(once.records[0], path);
    assert FindFrom(once.records, path, 0) == Some(0);
    var twice := Connected(once.records, path, baud, unit, None);
    assert Count([twice.ctx][1..], 0) == 0;
  }

  // ---------------------------------------------------------------- runs

  predicate Timely(p: Port, unit: byte, e: Event)
    requires e.Transact?
  {
    && Proper(e.now) && Proper(e.start) && Proper(e.end)
    && (p.last.Some? ==> Proper(p.last.value.time) && Ns(p.last.value.time) <= Ns(e.now))
    && Ns(e.now) + 1000 * SilenceFor(p.last, unit, e.now) <= Ns(e.start) <= Ns(e.end)
  }

  predicate Shaped(conf: seq<Config>, s: System) {
    |conf| == |s.ctxs| == |s.phases|
  }

  /** Which events a unit thread can bring about, and what the device and the clock may do. */
  predicate Enabled(conf: seq<Config>, s: System, e: Event) {
    && Shaped(conf, s) && e.t < |conf|
    && match e
       case Claim(t) => s.phases[t] == Off
       case Attach(t, device) =>
         && s.phases[t] == Opening && FreshDevice(s.records, device)
         && (s.ctxs[t].bus.Some? ==> s.ctxs[t].bus.value < |s.records|)
       case ProbeFailed(t) => s.phases[t] == Probing
       case ProbePassed(t) => s.phases[t] == Probing
       case CommLost(t) => s.phases[t] == On
       case Stop(t) => s.phases[t] == Off || s.phases[t] == On
       case Transact(t, _, _, _) =>
         var c := s.ctxs[t];
         && (s.phases[t] == Probing || s.phases[t] == On)
         && c.fd.Some? && c.bus.Some? && c.bus.value < |s.records| && Timely(s.records[c.bus.value].port, conf[t].unit, e)
  }

  function Leave(s: System, t: nat, phase: Phase): System
    requires t < |s.ctxs| == |s.phases|
  {
    var l := Disconnected(s.records, s.ctxs[t]);
    System(l.records, s.ctxs[t := l.ctx], s.phases[t := phase])
  }

  function Next(conf: seq<Config>, s: System, e: Event): (s': System)
    requires Enabled(conf, s, e)
    ensures Shaped(conf, s') && |s'.records| == |s.records|
  {
    match e
    case Claim(t) =>
      var i := Place(s.records, conf[t].path);
      System(Claimed(s.records, conf[t].path), s.ctxs[t := Ctx(None, i, conf[t].path, conf[t].baud, conf[t].unit)],
             s.phases[t := if i.Some? then Opening else Off])
    case Attach(t, device) =>
      var l := Opened(s.records, s.ctxs[t].bus, conf[t].path, conf[t].baud, conf[t].unit, device);
      System(l.records, s.ctxs[t := l.ctx], s.phases[t := if l.ctx.fd.Some? then Probing else Off])
    case ProbeFailed(t) => Leave(s, t, Off)
    case ProbePassed(t) => s.(phases := s.phases[t := On])
    case CommLost(t) => Leave(s, t, Off)
    case Stop(t) => Leave(s, t, Over)
    case Transact(t, _, _, end) =>
      var i := s.ctxs[t].bus.value;
      s.(records := s.records[i := Remember(s.records[i], conf[t].unit, end)])
  }

  predicate PhaseOk(conf: seq<Config>, s: System, t: nat)
    requires Shaped(conf, s) && t < |conf|
  {
    && (s.ctxs[t].fd.Some? <==> s.phases[t] == Probing || s.phases[t] == On)
    && (s.ctxs[t].fd.Some? ==> s.ctxs[t].path == conf[t].path && s.ctxs[t].baud == conf[t].baud)
    && (s.phases[t] == Opening ==>
          s.ctxs[t].bus.Some? && s.ctxs[t].bus.value < |s.records| && Names(s.records[s.ctxs[t].bus.value], conf[t].path))
  }

  predicate Inv(conf: seq<Config>, s: System) {
    && Shaped(conf, s) && Sane(s.records, s.ctxs)
    && (forall t :: 0 <= t < |conf| ==> |conf[t].path| <= Coord.PATH_ROOM && PhaseOk(conf, s, t))
    && (forall i :: 0 <= i < |s.records| ==> (s.records[i].port.last.Some? ==> s.records[i].port.fd.Some?))
  }

  predicate Initial(conf: seq<Config>, s: System) {
    && Shaped(conf, s) && |s.records| == MAX_PORTS
    && (forall i :: 0 <= i < |s.records| ==> s.records[i] == Record("", false, CLOSED))
    && (forall t :: 0 <= t < |conf| ==> |conf[t].path| <= Coord.PATH_ROOM && s.ctxs[t].fd.None? && s.phases[t] == Off)
  }

  lemma InitialInv(conf: seq<Config>, s: System)
    requires Initial(conf, s)
    ensures Inv(conf, s)
  {
    forall i | 0 <= i < |s.records| ensures Count(s.ctxs, i) == 0 {
      CountZero(s.ctxs, i);
    }
  }

  lemma LeaveKeeps(conf: seq<Config>, s: System, t: nat, phase: Phase)
    requires Inv(conf, s) && t < |conf| && (phase == Off || phase == Over)
    ensures Inv(conf, Leave(s, t, phase))
  {
    DisconnectKeeps(s.records, s.ctxs, t);
    forall u | 0 <= u < |conf| ensures PhaseOk(conf, Leave(s, t, phase), u) {
      assert PhaseOk(conf, s, u);
    }
  }

  lemma TransactKeeps(conf: seq<Config>, s: System, e: Event)
    requires Inv(conf, s) && Enabled(conf, s, e) && e.Transact?
    ensures Inv(conf, Next(conf, s, e))
  {
    var s' := Next(conf, s, e);
    assert Linked(s.records, s.ctxs[e.t]);
    forall u | 0 <= u < |s.ctxs| ensures Linked(s'.records, s'.ctxs[u]) {
      assert Linked(s.records, s.ctxs[u]);
    }
    forall u | 0 <= u < |conf| ensures PhaseOk(conf, s', u) {
      assert PhaseOk(conf, s, u);
    }
    assert forall i :: 0 <= i < |s.records| ==> s'.records[i].port == s.records[i].port.(last := s'.records[i].port.last);
  }

  lemma ClaimStepKeeps(conf: seq<Config>, s: System, t: nat)
    requires Inv(conf, s) && Enabled(conf, s, Claim(t))
    ensures Inv(conf, Next(conf, s, Claim(t)))
  {
    var s' := Next(conf, s, Claim(t));
    assert PhaseOk(conf, s, t);
    ClaimKeeps(s.records, s.ctxs, conf[t].path);
    DetachedContext(s'.records, s.ctxs, t, s'.ctxs[t]);
    forall u | 0 <= u < |conf| ensures PhaseOk(conf, s', u) {
      assert PhaseOk(conf, s, u);
    }
  }

  lemma AttachStepKeeps(conf: seq<Config>, s: System, t: nat, device: Option<nat>)
    requires Inv(conf, s) && Enabled(conf, s, Attach(t, device))
    ensures Inv(conf, Next(conf, s, Attach(t, device)))
  {
    assert PhaseOk(conf, s, t);
    AttachKeeps(s.records, s.ctxs, t, s.ctxs[t].bus, conf[t].path, conf[t].baud, conf[t].unit, device);
    forall u | 0 <= u < |conf| ensures PhaseOk(conf, Next(conf, s, Attach(t, device)), u) {
      assert PhaseOk(conf, s, u);
    }
  }

  lemma StepKeeps(conf: seq<Config>, s: System, e: Event)
    requires Inv(conf, s) && Enabled(conf, s, e)
    ensures Inv(conf, Next(conf, s, e))
  {
    match e
    case Claim(t) => ClaimStepKeeps(conf, s, t);
    case Attach(t, device) => AttachStepKeeps(conf, s, t, device);
    case ProbeFailed(t) => LeaveKeeps(conf, s, t, Off);
    case ProbePassed(t) => {
      forall u | 0 <= u < |conf| ensures PhaseOk(conf, Next(conf, s, e), u) {
        assert PhaseOk(conf, s, u);
      }
    }
    case CommLost(t) => LeaveKeeps(conf, s, t, Off);
    case Stop(t) => LeaveKeeps(conf, s, t, Over);
    case Transact(_, _, _, _) => TransactKeeps(conf, s, e);
  }

  predicate IsRun(conf: seq<Config>, states: seq<System>, events: seq<Event>) {
    && |states| == |events| + 1 && Initial(conf, states[0])
    && forall k :: 0 <= k < |events| ==>
         Enabled(conf, states[k], events[k]) && states[k + 1] == Next(conf, states[k], events[k])
  }

  lemma {:induction false} RunInvariant(conf: seq<Config>, states: seq<System>, events: seq<Event>, k: nat)
    requires IsRun(conf, states, events) && k < |states|
    ensures Inv(conf, states[k])
  {
    if k == 0 {
      InitialInv(conf, states[0]);
    } else {
      RunInvariant(conf, states, events, k - 1);
      StepKeeps(conf, states[k - 1], events[k - 1]);
    }
  }

  /** At every moment of every run the references equal the attached contexts, and a port is open exactly while it has some. */
  lemma PortAccounting(conf: seq<Config>, states: seq<System>, events: seq<Event>, k: nat, i: nat)
    requires IsRun(conf, states, events) && k < |states| && i < MAX_PORTS
    ensures |states[k].records| == MAX_PORTS
    ensures states[k].records[i].port.refcnt == Count(states[k].ctxs, i)
    ensures states[k].records[i].port.fd.Some? <==> exists t :: 0 <= t < |states[k].ctxs| && Holds(states[k].ctxs[t], i)
  {
    RunInvariant(conf, states, events, k);
    CountZero(states[k].ctxs, i);
    assert Booked(states[k].records[i].port, Count(states[k].ctxs, i));
  }

  /** Two connected units use one descriptor exactly when they are configured on one path, and then at one baud rate. */
  lemma OneDescriptorPerPath(conf: seq<Config>, states: seq<System>, events: seq<Event>, k: nat, t: nat, u: nat)
    requires IsRun(conf, states, events) && k < |states| && Shaped(conf, states[k]) && t < |conf| && u < |conf|
    requires states[k].ctxs[t].fd.Some? && states[k].ctxs[u].fd.Some?
    ensures states[k].ctxs[t].fd == states[k].ctxs[u].fd <==> conf[t].path == conf[u].path
    ensures conf[t].path == conf[u].path ==> conf[t].baud == conf[u].baud
  {
    RunInvariant(conf, states, events, k);
    var s := states[k];
    assert Linked(s.records, s.ctxs[t]) && Linked(s.records, s.ctxs[u]);
    assert PhaseOk(conf, s, t) && PhaseOk(conf, s, u);
    var i, j := s.ctxs[t].bus.value, s.ctxs[u].bus.value;
    if i < j {
      assert s.records[i].port.fd != s.records[j].port.fd;
    } else if j < i {
      assert s.records[j].port.fd != s.records[i].port.fd;
    }
  }

  /** When every thread has ended, every port is closed. */
  lemma AllOverAllClosed(conf: seq<Config>, states: seq<System>, events: seq<Event>, k: nat, i: nat)
    requires IsRun(conf, states, events) && k < |states| && i < MAX_PORTS
    requires forall t :: 0 <= t < |states[k].phases| ==> states[k].phases[t] == Over
    ensures |states[k].records| == MAX_PORTS && states[k].records[i].port.fd == None
  {
    RunInvariant(conf, states, events, k);
    forall t | 0 <= t < |states[k].ctxs| ensures !Holds(states[k].ctxs[t], i) {
      assert PhaseOk(conf, states[k], t);
    }
    CountZero(states[k].ctxs, i);
  }

  // ---------------------------------------------------------------- silence

  predicate TalksOn(s: System, e: Event, i: nat) {
    e.Transact? && e.t < |s.ctxs| && s.ctxs[e.t].bus == Some(i)
  }

  predicate OpenAt(s: System, i: nat) {
    i < |s.records| && s.records[i].port.fd.Some?
  }

  /** A step that neither transacts on port i nor closes it. */
  predicate QuietStep(s: System, e: Event, s': System, i: nat) {
    !TalksOn(s, e, i) && OpenAt(s, i) && OpenAt(s', i)
  }

  /** Between a and k nobody transacts on port i and the port is never closed. */
  predicate Quiet(states: seq<System>, events: seq<Event>, a: nat, k: nat, i: nat) {
    && a <= k <= |events| && |states| == |events| + 1 && OpenAt(states[a], i)
    && forall n :: a <= n < k ==> QuietStep(states[n], events[n], states[n + 1], i)
  }

  lemma StepRemembers(conf: seq<Config>, s: System, e: Event, i: nat)
    requires Inv(conf, s) && Enabled(conf, s, e) && i < |s.records| && !TalksOn(s, e, i)
    requires s.records[i].port.fd.Some? && Next(conf, s, e).records[i].port.fd.Some?
    ensures Next(conf, s, e).records[i].port.last == s.records[i].port.last
  {
    assert Linked(s.records, s.ctxs[e.t]);
  }

  lemma QuietEnd(states: seq<System>, events: seq<Event>, a: nat, k: nat, i: nat)
    requires Quiet(states, events, a, k, i) && a < k
    ensures Quiet(states, events, a, k - 1, i) && QuietStep(states[k - 1], events[k - 1], states[k], i)
  {
  }

  lemma QuietLast(conf: seq<Config>, states: seq<System>, events: seq<Event>, k: nat, i: nat)
    requires IsRun(conf, states, events) && k < |events| && QuietStep(states[k], events[k], states[k + 1], i)
    ensures states[k + 1].records[i].port.last == states[k].records[i].port.last
  {
    RunInvariant(conf, states, events, k);
    assert Enabled(conf, states[k], events[k]) && states[k + 1] == Next(conf, states[k], events[k]);
    StepRemembers(conf, states[k], events[k], i);
  }

  lemma {:induction false} QuietRemembers(conf: seq<Config>, states: seq<System>, events: seq<Event>, a: nat, k: nat, i: nat)
    requires IsRun(conf, states, events) && Quiet(states, events, a, k, i)
    ensures OpenAt(states[k], i) && states[k].records[i].port.last == states[a].records[i].port.last
    decreases k
  {
    if a < k {
      QuietEnd(states, events, a, k, i);
      QuietRemembers(conf, states, events, a, k - 1, i);
      QuietLast(conf, states, events, k - 1, i);
    }
  }

  /** Only a unit that has transacted on a port is remembered there. */
  predicate TalkedBefore(conf: seq<Config>, states: seq<System>, events: seq<Event>, k: nat, i: nat, unit: byte)
    requires |states| == |events| + 1 && k <= |events|
  {
    exists n :: 0 <= n < k && TalksOn(states[n], events[n], i) && events[n].t < |conf| && conf[events[n].t].unit == unit
  }

  lemma {:induction false} RememberedTalked(conf: seq<Config>, states: seq<System>, events: seq<Event>, k: nat, i: nat)
    requires IsRun(conf, states, events) && k <= |events| && i < |states[k].records|
    ensures var last := states[k].records[i].port.last;
      last.Some? ==> TalkedBefore(conf, states, events, k, i, last.value.unit)
  {
    if k > 0 {
      var s, e := states[k - 1], events[k - 1];
      RunInvariant(conf, states, events, k - 1);
      assert Enabled(conf, s, e) && states[k] == Next(conf, s, e);
      RememberedTalked(conf, states, events, k - 1, i);
      LastIsOldOrNew(conf, s, e, i);
      var last := states[k].records[i].port.last;
      if last.Some? && last == s.records[i].port.last {
        TalkedStill(conf, states, events, k - 1, i, last.value.unit);
      }
    }
  }

  lemma TalkedStill(conf: seq<Config>, states: seq<System>, events: seq<Event>, k: nat, i: nat, unit: byte)
    requires |states| == |events| + 1 && k < |events| && TalkedBefore(conf, states, events, k, i, unit)
    ensures TalkedBefore(conf, states, events, k + 1, i, unit)
  {
  }

  lemma LastIsOldOrNew(conf: seq<Config>, s: System, e: Event, i: nat)
    requires Inv(conf, s) && Enabled(conf, s, e) && i < |s.records|
    ensures var last := Next(conf, s, e).records[i].port.last;
      || last.None? || last == s.records[i].port.last
      || (TalksOn(s, e, i) && last.value.unit == conf[e.t].unit)
  {
    assert Linked(s.records, s.ctxs[e.t]);
  }

  /** In every run, a unit that has its port to itself is never kept waiting. */
  lemma AloneNeverDelayed(conf: seq<Config>, states: seq<System>, events: seq<Event>, k: nat, i: nat)
    requires IsRun(conf, states, events) && k < |events| && TalksOn(states[k], events[k], i) && events[k].t < |conf|
    requires forall n :: 0 <= n < k && TalksOn(states[n], events[n], i) && events[n].t < |conf| ==>
      conf[events[n].t].unit == conf[events[k].t].unit
    ensures i < |states[k].records|
    ensures SilenceFor(states[k].records[i].port.last, conf[events[k].t].unit, events[k].now) == 0
  {
    assert Enabled(conf, states[k], events[k]);
    RememberedTalked(conf, states, events, k, i);
  }

  /** In every run, the delay before a transaction follows from the one before it on the port, while it stays open. */
  lemma DelayedByTheLast(conf: seq<Config>, states: seq<System>, events: seq<Event>, a: nat, k: nat, i: nat)
    requires IsRun(conf, states, events) && a < k < |events| && Quiet(states, events, a + 1, k, i)
    requires TalksOn(states[a], events[a], i) && TalksOn(states[k], events[k], i)
    requires events[a].t < |conf| && events[k].t < |conf|
    ensures i < |states[k].records|
    ensures Delay(Some(Last(conf[events[a].t].unit, events[a].end)), conf[events[k].t].unit, events[k].now,
                  SilenceFor(states[k].records[i].port.last, conf[events[k].t].unit, events[k].now))
  {
    QuietRemembers(conf, states, events, a + 1, k, i);
    assert Enabled(conf, states[a], events[a]) && Enabled(conf, states[k], events[k]);
    assert states[a + 1] == Next(conf, states[a], events[a]);
  }

  /**
   In every run, two consecutive transactions of different units on a port that stayed open are more than
   29 ms apart; and 30 ms apart unless a whole-millisecond fraction was lost to a borrow.
   */
  lemma UnitsKeepSilence(conf: seq<Config>, states: seq<System>, events: seq<Event>, a: nat, k: nat, i: nat)
    requires IsRun(conf, states, events) && a < k < |events| && Quiet(states, events, a + 1, k, i)
    requires TalksOn(states[a], events[a], i) && TalksOn(states[k], events[k], i)
    requires events[a].t < |conf| && events[k].t < |conf| && conf[events[a].t].unit != conf[events[k].t].unit
    ensures Ns(events[k].start) - Ns(events[a].end) > 29_000_000
    ensures events[k].now.nsec >= events[a].end.nsec || (events[k].now.nsec - events[a].end.nsec) % 1_000_000 == 0
      ==> Ns(events[k].start) - Ns(events[a].end) >= 30_000_000
  {
    QuietRemembers(conf, states, events, a + 1, k, i);
    RunInvariant(conf, states, events, a);
    assert Enabled(conf, states[a], events[a]) && Enabled(conf, states[k], events[k]);
    assert states[a + 1] == Next(conf, states[a], events[a]);
    assert states[k].records[i].port.last == Some(Last(conf[events[a].t].unit, events[a].end));
    GapAbove29(events[k].now, events[a].end);
    GapOf30Exactly(events[k].now, events[a].end);
  }
}
