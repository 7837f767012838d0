/**
 The operator write queue of one unit (src/inverter_module.c, src/ups_module.c): a ring of sixteen
 commands in which a single-register write to a mergeable address overwrites a pending one in place.
 The ring is proved equal to a sequence; runs of requests and served writes are then studied on it.
 */
module CommandQueue {
  import opened Words
  import opened Modbus

  const CAPACITY := 16

  datatype Mode = Fc06 | Fc16 | Auto

  /** One queued write; the count field of the code is the number of values. */
  datatype Cmd = Cmd(addr: u16, values: seq<u16>, mode: Mode)

  /** inverter_queue_merge_allowed: operation command and frequency command. */
  const INVERTER_MERGEABLE: set<u16> := {0x2000, 0x2001}

  /** ups_queue_merge_allowed is constantly false. */
  const UPS_MERGEABLE: set<u16> := {}

  predicate Pending(c: Cmd, addr: u16) {
    c.addr == addr && |c.values| == 1
  }

  /** The first pending single-register write to addr, from index i on. */
  function PendingFrom(q: seq<Cmd>, addr: u16, i: nat): (r: Option<nat>)
    requires i <= |q|
    ensures r.Some? ==> i <= r.value < |q| && Pending(q[r.value], addr)
    ensures forall j :: i <= j < (if r.Some? then r.value else |q|) ==> !Pending(q[j], addr)
    decreases |q| - i
  {
    if i == |q| then None
    else if Pending(q[i], addr) then Some(i)
    else PendingFrom(q, addr, i + 1)
  }

  datatype Outcome = Rejected | Appended | Merged(at: nat)

  /** What queue_push decides, from the sequence of pending commands. */
  function Decide(q: seq<Cmd>, c: Cmd, mergeable: set<u16>): (r: Outcome)
    ensures r.Merged? ==> r.at < |q| && Pending(q[r.at], c.addr) && |c.values| == 1 && c.addr in mergeable
    ensures r.Appended? ==> |q| < CAPACITY && 1 <= |c.values| <= MAX_WRITE
  {
    var p := PendingFrom(q, c.addr, 0);
    if |c.values| == 0 || |c.values| > MAX_WRITE then Rejected
    else if |c.values| == 1 && c.addr in mergeable && p.Some? then Merged(p.value)
    else if |q| >= CAPACITY then Rejected
    else Appended
  }

  function Pushed(q: seq<Cmd>, c: Cmd, mergeable: set<u16>): seq<Cmd> {
    match Decide(q, c, mergeable)
    case Rejected => q
    case Appended => q + [c]
    case Merged(i) => q[i := Cmd(q[i].addr, [c.values[0]], c.mode)]
  }

  /** A single value for an address that may be merged and has a single value waiting. */
  predicate Joins(q: seq<Cmd>, c: Cmd, mergeable: set<u16>) {
    |c.values| == 1 && c.addr in mergeable && exists i :: 0 <= i < |q| && q[i].addr == c.addr && |q[i].values| == 1
  }

  /** The oldest single value waiting for this address. */
  predicate Oldest(q: seq<Cmd>, i: nat, addr: u16) {
    i < |q| && q[i].addr == addr && |q[i].values| == 1 &&
    forall j :: 0 <= j < i ==> !(q[j].addr == addr && |q[j].values| == 1)
  }

  /** The queue after an accepted command: the oldest single value for its address replaced, or one more at the end. */
  predicate Taken(q: seq<Cmd>, q': seq<Cmd>, c: Cmd, mergeable: set<u16>) {
    if Joins(q, c, mergeable) then
      |q'| == |q| && forall i :: 0 <= i < |q| ==> q'[i] == if Oldest(q, i, c.addr) then c else q[i]
    else q' == q + [c]
  }

  /** Which commands are accepted: those of 1 to 123 values that find a place among sixteen or join one that waits. */
  predicate Acceptable(q: seq<Cmd>, c: Cmd, mergeable: set<u16>) {
    1 <= |c.values| <= 123 && (|q| < 16 || Joins(q, c, mergeable))
  }

  /** What is decided about a command is whether it is acceptable, and what is done with it follows. */
  lemma DecidedExactly(q: seq<Cmd>, c: Cmd, mergeable: set<u16>)
    ensures Decide(q, c, mergeable) != Rejected <==> Acceptable(q, c, mergeable)
    ensures Acceptable(q, c, mergeable) ==> Taken(q, Pushed(q, c, mergeable), c, mergeable)
    ensures !Acceptable(q, c, mergeable) ==> Pushed(q, c, mergeable) == q
  {
    var p := PendingFrom(q, c.addr, 0);
    if p.Some? {
      assert Oldest(q, p.value, c.addr);
      if |c.values| == 1 {
        assert [c.values[0]] == c.values;
      }
    }
  }

  // ---------------------------------------------------------------- the ring

  /** Index of the i-th pending command: (head + i) mod 16. */
  function At(head: nat, i: nat): (k: nat)
    requires head < CAPACITY && i <= CAPACITY
    ensures k < CAPACITY && k == (head + i) % CAPACITY
  {
    if head + i < CAPACITY then head + i else head + i - CAPACITY
  }

  /** The pending commands of a ring, oldest first. */
  function View(entries: seq<Cmd>, head: nat, count: nat): (q: seq<Cmd>)
    requires |entries| == CAPACITY && head < CAPACITY && count <= CAPACITY
    ensures |q| == count
    ensures forall i :: 0 <= i < count ==> q[i] == entries[At(head, i)]
  {
    seq(count, i requires 0 <= i < count => entries[At(head, i)])
  }

  /** Positions of the ring below capacity are distinct. */
  lemma AtDistinct(head: nat, i: nat, j: nat)
    requires head < CAPACITY && i < CAPACITY && j < CAPACITY && i != j
    ensures At(head, i) != At(head, j)
  {
  }

  lemma AtNext(head: nat, j: nat)
    requires head < CAPACITY && j < CAPACITY
    ensures At(At(head, 1), j) == At(head, j + 1)
  {
  }

  lemma ViewOverwritten(entries: seq<Cmd>, head: nat, count: nat, i: nat, c: Cmd)
    requires |entries| == CAPACITY && head < CAPACITY && i < count <= CAPACITY
    ensures View(entries[At(head, i) := c], head, count) == View(entries, head, count)[i := c]
  {
    forall j | 0 <= j < count && j != i ensures At(head, j) != At(head, i) {
      AtDistinct(head, i, j);
    }
  }

  lemma ViewAppended(entries: seq<Cmd>, head: nat, count: nat, c: Cmd)
    requires |entries| == CAPACITY && head < CAPACITY && count < CAPACITY
    ensures View(entries[At(head, count) := c], head, count + 1) == View(entries, head, count) + [c]
  {
    forall j | 0 <= j < count ensures At(head, j) != At(head, count) {
      AtDistinct(head, j, count);
    }
  }

  lemma ViewPopped(entries: seq<Cmd>, head: nat, count: nat)
    requires |entries| == CAPACITY && head < CAPACITY && 0 < count <= CAPACITY
    ensures View(entries, At(head, 1), count - 1) == View(entries, head, count)[1..]
  {
    forall j | 0 <= j < count - 1 ensures At(At(head, 1), j) == At(head, j + 1) {
      AtNext(head, j);
    }
  }

  class Ring {
    const mergeable: set<u16>
    const entries: array<Cmd>
    var head: nat
    var tail: nat
    var count: nat

    ghost predicate Valid()
      reads this
    {
      entries.Length == CAPACITY && head < CAPACITY && count <= CAPACITY && tail == At(head, count)
    }

    ghost function Contents(): (q: seq<Cmd>)
      reads this, entries
      requires Valid()
      ensures |q| == count
    {
      View(entries[..], head, count)
    }

    constructor (mergeable: set<u16>)
      ensures Valid() && Contents() == [] && this.mergeable == mergeable && fresh(entries)
    {
      this.mergeable := mergeable;
      entries := new Cmd[CAPACITY](i => Cmd(0, [], Auto));
      head, tail, count := 0, 0, 0;
    }

    /** The merge scan of queue_push; idx walks the ring as the code's does. */
    method FindPending(addr: u16) returns (found: Option<nat>, idx: nat)
      requires Valid()
      ensures found == PendingFrom(Contents(), addr, 0)
      ensures found.Some? ==> found.value < count && idx == At(head, found.value)
      ensures idx < CAPACITY
    {
      idx := head;
      var i := 0;
      while i < count
        invariant i <= count && idx == At(head, i)
        invariant PendingFrom(Contents(), addr, 0) == PendingFrom(Contents(), addr, i)
      {
        assert Contents()[i] == entries[idx];
        if entries[idx].addr == addr && |entries[idx].values| == 1 {
          return Some(i), idx;
        }
        idx := (idx + 1) % CAPACITY;
        i := i + 1;
      }
      return None, idx;
    }

    /** queue_push: overwrite a pending write to a mergeable address, otherwise write at the tail. */
    method Push(addr: u16, values: seq<u16>, mode: Mode) returns (ok: bool)
      requires Valid()
      modifies this, entries
      ensures Valid()
      ensures Contents() == Pushed(old(Contents()), Cmd(addr, values, mode), mergeable)
      ensures ok <==> Acceptable(old(Contents()), Cmd(addr, values, mode), mergeable)
      ensures if ok then Taken(old(Contents()), Contents(), Cmd(addr, values, mode), mergeable) else Contents() == old(Contents())
    {
      DecidedExactly(Contents(), Cmd(addr, values, mode), mergeable);
      if |values| == 0 || |values| > MAX_WRITE {
        return false;
      }
      ghost var before := entries[..];
      if |values| == 1 && addr in mergeable {
        var found, idx := FindPending(addr);
        if found.Some? {
          var c := Cmd(entries[idx].addr, [values[0]], mode);
          entries[idx] := c;
          assert entries[..] == before[idx := c];
          ViewOverwritten(before, head, count, found.value, c);
          return true;
        }
      }
      if count >= CAPACITY {
        return false;
      }
      var c := Cmd(addr, values, mode);
      entries[tail] := c;
      assert entries[..] == before[At(head, count) := c];
      ViewAppended(before, head, count, c);
      tail := (tail + 1) % CAPACITY;
      count := count + 1;
      ok := true;
    }

    /** queue_pop. */
    method Pop() returns (out: Option<Cmd>)
      requires Valid()
      modifies this
      ensures Valid()
      ensures old(Contents()) == [] ==> out == None && Contents() == []
      ensures old(Contents()) != [] ==> out == Some(old(Contents())[0]) && Contents() == old(Contents())[1..]
    {
      if count == 0 {
        return None;
      }
      ViewPopped(entries[..], head, count);
      out := Some(entries[head]);
      head := (head + 1) % CAPACITY;
      count := count - 1;
    }
  }

  // ---------------------------------------------------------------- the device

  type Device = map<nat, u16>

  /** write_registers_locked refuses FC06 for anything but one register. */
  predicate Writes(c: Cmd) {
    c.mode.Fc06? ==> |c.values| == 1
  }

  function Store(d: Device, addr: nat, values: seq<u16>): Device {
    if values == [] then d else Store(d, addr, values[..|values| - 1])[addr + |values| - 1 := values[|values| - 1]]
  }

  function Write(d: Device, c: Cmd): Device {
    if Writes(c) then Store(d, c.addr, c.values) else d
  }

  /** The device after a sequence of commands, oldest first. */
  function Replay(d: Device, cmds: seq<Cmd>): Device {
    if cmds == [] then d else Write(Replay(d, cmds[..|cmds| - 1]), cmds[|cmds| - 1])
  }

  predicate Covers(c: Cmd, a: nat) {
    Writes(c) && c.addr <= a < c.addr + |c.values|
  }

  /** The value the last command to touch register a leaves there. */
  function LastWriteTo(cmds: seq<Cmd>, a: nat): Option<u16> {
    if cmds == [] then None
    else
      var c := cmds[|cmds| - 1];
      if Covers(c, a) then Some(c.values[a - c.addr]) else LastWriteTo(cmds[..|cmds| - 1], a)
  }

  lemma {:induction false} StoreAt(d: Device, addr: nat, values: seq<u16>, a: nat)
    ensures addr <= a < addr + |values| ==> a in Store(d, addr, values) && Store(d, addr, values)[a] == values[a - addr]
    ensures !(addr <= a < addr + |values|) ==> (a in Store(d, addr, values) <==> a in d)
    ensures !(addr <= a < addr + |values|) && a in d ==> Store(d, addr, values)[a] == d[a]
  {
    if values != [] {
      StoreAt(d, addr, values[..|values| - 1], a);
    }
  }

  /** A command writes its values to consecutive registers and nothing else; FC06 with any other count writes nothing. */
  lemma WriteAt(d: Device, c: Cmd, a: nat)
    ensures var w := Write(d, c);
      if c.addr <= a < c.addr + |c.values| && (c.mode != Fc06 || |c.values| == 1) then
        a in w && w[a] == c.values[a - c.addr]
      else
        (a in w <==> a in d) && (a in d ==> w[a] == d[a])
  {
    StoreAt(d, c.addr, c.values, a);
    if c.addr <= a < c.addr + |c.values| && (c.mode != Fc06 || |c.values| == 1) {
      assert Writes(c);
    }
  }

  /** A register ends with its last write, or as it was. */
  lemma {:induction false} ReplayAt(d: Device, cmds: seq<Cmd>, a: nat)
    ensures var r, w := Replay(d, cmds), LastWriteTo(cmds, a);
      if w.Some? then a in r && r[a] == w.value else (a in r <==> a in d) && (a in d ==> r[a] == d[a])
  {
    if cmds != [] {
      var n := |cmds| - 1;
      ReplayAt(d, cmds[..n], a);
      StoreAt(Replay(d, cmds[..n]), cmds[n].addr, cmds[n].values, a);
    }
  }

  lemma {:induction false} ReplayConcat(d: Device, x: seq<Cmd>, y: seq<Cmd>)
    ensures Replay(d, x + y) == Replay(Replay(d, x), y)
  {
    if y == [] {
      assert x + y == x;
    } else {
      var n := |y| - 1;
      assert (x + y)[..|x + y| - 1] == x + y[..n];
      ReplayConcat(d, x, y[..n]);
    }
  }

  lemma {:induction false} LastWriteConcat(x: seq<Cmd>, y: seq<Cmd>, a: nat)
    ensures LastWriteTo(x + y, a) == if LastWriteTo(y, a).Some? then LastWriteTo(y, a) else LastWriteTo(x, a)
  {
    if y == [] {
      assert x + y == x;
    } else {
      var n := |y| - 1;
      assert (x + y)[..|x + y| - 1] == x + y[..n];
      LastWriteConcat(x, y[..n], a);
    }
  }

  lemma SameByRegisters(r: Device, s: Device)
    requires forall a: nat :: (a in r <==> a in s) && (a in r ==> r[a] == s[a])
    ensures r == s
  {
    assert r.Keys == s.Keys;
  }

  lemma MergeElsewhere(d: Device, q: seq<Cmd>, i: nat, c: Cmd, a: nat)
    requires i < |q| && Pending(q[i], c.addr) && |c.values| == 1 && a != c.addr
    ensures LastWriteTo(q[i := c], a) == LastWriteTo(q + [c], a)
  {
    assert q == q[..i] + ([q[i]] + q[i + 1..]);
    assert q[i := c] == q[..i] + ([c] + q[i + 1..]);
    LastWriteConcat(q[..i], [q[i]] + q[i + 1..], a);
    LastWriteConcat([q[i]], q[i + 1..], a);
    LastWriteConcat(q[..i], [c] + q[i + 1..], a);
    LastWriteConcat([c], q[i + 1..], a);
    LastWriteConcat(q, [c], a);
  }

  /**
   When overwriting in place equals queueing at the end, for every device: exactly when no later pending
   command leaves a different value in that register.
   */
  lemma MergeExactly(d: Device, q: seq<Cmd>, i: nat, c: Cmd)
    requires i < |q| && Pending(q[i], c.addr) && |c.values| == 1
    ensures Replay(d, q[i := c]) == Replay(d, q + [c]) <==>
      LastWriteTo(q[i + 1..], c.addr) == None || LastWriteTo(q[i + 1..], c.addr) == Some(c.values[0])
  {
    var merged, appended := Replay(d, q[i := c]), Replay(d, q + [c]);
    assert q[i := c] == q[..i] + ([c] + q[i + 1..]);
    LastWriteConcat(q[..i], [c] + q[i + 1..], c.addr);
    LastWriteConcat([c], q[i + 1..], c.addr);
    LastWriteConcat(q, [c], c.addr);
    assert LastWriteTo([c], c.addr) == Some(c.values[0]);
    ReplayAt(d, q[i := c], c.addr);
    ReplayAt(d, q + [c], c.addr);
    assert merged[c.addr] == if LastWriteTo(q[i + 1..], c.addr).Some? then LastWriteTo(q[i + 1..], c.addr).value else c.values[0];
    assert appended[c.addr] == c.values[0];
    if merged[c.addr] == c.values[0] {
      forall a: nat ensures (a in merged <==> a in appended) && (a in merged ==> merged[a] == appended[a]) {
        ReplayAt(d, q[i := c], a);
        ReplayAt(d, q + [c], a);
        if a != c.addr {
          MergeElsewhere(d, q, i, c, a);
        }
      }
      SameByRegisters(merged, appended);
    }
  }

  // ---------------------------------------------------------------- runs

  datatype Event = Request(c: Cmd) | Serve(ok: bool)

  /** A run so far: pending commands, the device, and what was accepted, served and merged. */
  datatype Run = Run(pending: seq<Cmd>, device: Device, accepted: seq<Cmd>, served: seq<Cmd>, merges: nat)

  function Start(d: Device): Run {
    Run([], d, [], [], 0)
  }

  /** Serve is one turn of the drain loop; a write that fails is dropped. */
  function Step(r: Run, e: Event, mergeable: set<u16>): Run {
    match e
    case Serve(ok) =>
      if r.pending == [] then r
      else r.(pending := r.pending[1..], served := r.served + [r.pending[0]],
              device := if ok then Write(r.device, r.pending[0]) else r.device)
    case Request(c) =>
      match Decide(r.pending, c, mergeable)
      case Rejected => r
      case Appended => r.(pending := Pushed(r.pending, c, mergeable), accepted := r.accepted + [c])
      case Merged(_) =>
        r.(pending := Pushed(r.pending, c, mergeable), accepted := r.accepted + [c], merges := r.merges + 1)
  }

  function After(d: Device, events: seq<Event>, mergeable: set<u16>): Run {
    if events == [] then Start(d)
    else Step(After(d, events[..|events| - 1], mergeable), events[|events| - 1], mergeable)
  }

  /** Multi-register writes keep away from the addresses that may be merged. */
  predicate Harmless(c: Cmd, mergeable: set<u16>) {
    |c.values| == 1 || forall a: u16 :: a in mergeable ==> !Covers(c, a)
  }

  predicate OnePending(q: seq<Cmd>, mergeable: set<u16>) {
    forall i, j :: 0 <= i < j < |q| && |q[i].values| == 1 && |q[j].values| == 1 && q[i].addr == q[j].addr ==>
      q[i].addr !in mergeable
  }

  /** At most one write per mergeable address waits, whatever is requested, and the ring is never over-full. */
  lemma {:induction false} AtMostOnePending(d: Device, events: seq<Event>, mergeable: set<u16>)
    ensures var r := After(d, events, mergeable);
      OnePending(r.pending, mergeable) && |r.pending| <= CAPACITY
  {
    if events != [] {
      AtMostOnePending(d, events[..|events| - 1], mergeable);
    }
  }

  /** A request is accepted exactly if it is acceptable; no well-formed one is refused while fewer than sixteen wait. */
  lemma RefusedExactly(d: Device, events: seq<Event>, c: Cmd, mergeable: set<u16>)
    ensures var r, s := After(d, events, mergeable), After(d, events + [Request(c)], mergeable);
      && (Acceptable(r.pending, c, mergeable) ==> s.accepted == r.accepted + [c] && Taken(r.pending, s.pending, c, mergeable))
      && (!Acceptable(r.pending, c, mergeable) ==> s == r)
      && (1 <= |c.values| <= 123 && |r.pending| < 16 ==> s.accepted == r.accepted + [c])
  {
    var r := After(d, events, mergeable);
    DecidedExactly(r.pending, c, mergeable);
    assert (events + [Request(c)])[..|events|] == events;
  }

  /** Every request is a single value for one of two addresses that may be merged, as those of a duty command are. */
  predicate SinglesFor(events: seq<Event>, a: u16, b: u16) {
    forall i :: 0 <= i < |events| && events[i].Request? ==> IsSingle(events[i].c, a, b)
  }

  predicate IsSingle(c: Cmd, a: u16, b: u16) {
    |c.values| == 1 && (c.addr == a || c.addr == b)
  }

  lemma {:induction false} SinglesWait(d: Device, events: seq<Event>, a: u16, b: u16, mergeable: set<u16>)
    requires SinglesFor(events, a, b)
    ensures forall i :: 0 <= i < |After(d, events, mergeable).pending| ==> IsSingle(After(d, events, mergeable).pending[i], a, b)
  {
    if events != [] {
      var n := |events| - 1;
      var r := After(d, events[..n], mergeable);
      SinglesWait(d, events[..n], a, b, mergeable);
      if events[n].Request? {
        assert IsSingle(events[n].c, a, b);
        DecidedExactly(r.pending, events[n].c, mergeable);
      }
    }
  }

  lemma AtMostTwo(q: seq<Cmd>, a: u16, b: u16, mergeable: set<u16>)
    requires OnePending(q, mergeable) && a in mergeable && b in mergeable
    requires forall i :: 0 <= i < |q| ==> IsSingle(q[i], a, b)
    ensures |q| <= 2
  {
    if |q| > 2 {
      NotThree(q, a, b, mergeable);
    }
  }

  lemma NotThree(q: seq<Cmd>, a: u16, b: u16, mergeable: set<u16>)
    requires OnePending(q, mergeable) && a in mergeable && b in mergeable && |q| > 2
    ensures !IsSingle(q[0], a, b) || !IsSingle(q[1], a, b) || !IsSingle(q[2], a, b)
  {
  }

  /**
   However many duty commands come in and however slowly they are served, at most two writes wait and none is
   refused: frequency (0x2001) and operation (0x2000) overwrite themselves.
   */
  lemma DutyNeverRefused(d: Device, events: seq<Event>, c: Cmd)
    requires SinglesFor(events, 0x2000, 0x2001) && IsSingle(c, 0x2000, 0x2001)
    ensures var r, s := After(d, events, INVERTER_MERGEABLE), After(d, events + [Request(c)], INVERTER_MERGEABLE);
      |r.pending| <= 2 && s.accepted == r.accepted + [c]
  {
    SinglesWait(d, events, 0x2000, 0x2001, INVERTER_MERGEABLE);
    AtMostOnePending(d, events, INVERTER_MERGEABLE);
    AtMostTwo(After(d, events, INVERTER_MERGEABLE).pending, 0x2000, 0x2001, INVERTER_MERGEABLE);
    RefusedExactly(d, events, c, INVERTER_MERGEABLE);
  }

  /** Any other address of the inverter, and every address of the UPS, gets its own place in the queue. */
  lemma OthersQueueUp(q: seq<Cmd>, c: Cmd)
    requires 1 <= |c.values| <= 123 && |q| < 16
    ensures |c.values| > 1 || (c.addr != 0x2000 && c.addr != 0x2001) ==> Pushed(q, c, INVERTER_MERGEABLE) == q + [c]
    ensures Pushed(q, c, UPS_MERGEABLE) == q + [c]
  {
    DecidedExactly(q, c, INVERTER_MERGEABLE);
    DecidedExactly(q, c, UPS_MERGEABLE);
  }

  /** Nothing is lost or invented: accepted = served + still pending + merged away. */
  lemma {:induction false} Accounted(d: Device, events: seq<Event>, mergeable: set<u16>)
    ensures var r := After(d, events, mergeable);
      |r.accepted| == |r.served| + |r.pending| + r.merges
  {
    if events != [] {
      Accounted(d, events[..|events| - 1], mergeable);
    }
  }

  /** A full ring still takes a write to a mergeable address that has one waiting. */
  lemma MergeIntoFullRing(q: seq<Cmd>, c: Cmd, mergeable: set<u16>, i: nat)
    requires |q| == CAPACITY && |c.values| == 1 && i < |q| && Pending(q[i], c.addr)
    ensures !Decide(q, c, mergeable).Rejected? <==> c.addr in mergeable
    ensures |Pushed(q, c, mergeable)| == CAPACITY
  {
    var p := PendingFrom(q, c.addr, 0);
  }

  lemma {:induction false} NothingLater(q: seq<Cmd>, a: nat)
    requires forall i :: 0 <= i < |q| ==> !Covers(q[i], a)
    ensures LastWriteTo(q, a) == None
  {
    if q != [] {
      NothingLater(q[..|q| - 1], a);
    }
  }

  /** A run that goes on. */
  function RunOn(r: Run, events: seq<Event>, mergeable: set<u16>): Run
    decreases events
  {
    if events == [] then r else RunOn(Step(r, events[0], mergeable), events[1..], mergeable)
  }

  lemma {:induction false} RunOnConcat(r: Run, x: seq<Event>, y: seq<Event>, mergeable: set<u16>)
    ensures RunOn(r, x + y, mergeable) == RunOn(RunOn(r, x, mergeable), y, mergeable)
    decreases x
  {
    if x == [] {
      assert x + y == y;
    } else {
      assert (x + y)[1..] == x[1..] + y;
      RunOnConcat(Step(r, x[0], mergeable), x[1..], y, mergeable);
    }
  }

  lemma {:induction false} AfterThenRunOn(d: Device, x: seq<Event>, y: seq<Event>, mergeable: set<u16>)
    ensures After(d, x + y, mergeable) == RunOn(After(d, x, mergeable), y, mergeable)
    decreases y
  {
    if y == [] {
      assert x + y == x;
    } else {
      assert x + y == (x + [y[0]]) + y[1..];
      assert (x + [y[0]])[..|x|] == x;
      AfterThenRunOn(d, x + [y[0]], y[1..], mergeable);
    }
  }

  /** Every write is answered, and block writes keep away from what may be merged. */
  predicate AllHarmless(events: seq<Event>, mergeable: set<u16>) {
    forall i :: 0 <= i < |events| ==> Safe(events[i], mergeable)
  }

  predicate Safe(e: Event, mergeable: set<u16>) {
    match e
    case Request(c) => Harmless(c, mergeable)
    case Serve(ok) => ok
  }

  predicate Quiet(q: seq<Cmd>, mergeable: set<u16>) {
    forall i :: 0 <= i < |q| ==> Harmless(q[i], mergeable)
  }

  /** Requests keep away from what may be merged; writes may fail. */
  predicate Careful(events: seq<Event>, mergeable: set<u16>) {
    forall i :: 0 <= i < |events| ==> (events[i].Request? ==> Harmless(events[i].c, mergeable))
  }

  /** A queue in which merging is safe. */
  predicate Orderly(q: seq<Cmd>, mergeable: set<u16>) {
    OnePending(q, mergeable) && Quiet(q, mergeable)
  }

  lemma {:induction false} PendingOrderly(d: Device, events: seq<Event>, mergeable: set<u16>)
    requires Careful(events, mergeable)
    ensures Orderly(After(d, events, mergeable).pending, mergeable)
  {
    AtMostOnePending(d, events, mergeable);
    if events != [] {
      var n := |events| - 1;
      PendingOrderly(d, events[..n], mergeable);
      assert events[n].Request? ==> Harmless(events[n].c, mergeable);
      OrderlyStep(After(d, events[..n], mergeable), events[n], mergeable);
    }
  }

  lemma OrderlyStep(r: Run, e: Event, mergeable: set<u16>)
    requires Orderly(r.pending, mergeable) && (e.Request? ==> Harmless(e.c, mergeable))
    ensures Orderly(Step(r, e, mergeable).pending, mergeable)
  {
  }

  /** What a run is heading for: the device with everything pending written. */
  function Heading(r: Run): Device {
    Replay(r.device, r.pending)
  }

  /** The later run is heading for what the earlier was, and then for everything accepted since. */
  predicate Continues(r: Run, s: Run) {
    r.accepted <= s.accepted && Heading(s) == Replay(Heading(r), s.accepted[|r.accepted|..])
  }

  lemma ContinuesOn(r: Run, s: Run, e: Run)
    requires Continues(r, s) && Continues(s, e)
    ensures Continues(r, e)
  {
    assert e.accepted[|r.accepted|..] == s.accepted[|r.accepted|..] + e.accepted[|s.accepted|..];
    ReplayConcat(Heading(r), s.accepted[|r.accepted|..], e.accepted[|s.accepted|..]);
  }

  /** A served write leaves the outcome as it was; an accepted request is added to it. */
  lemma OutcomeStep(r: Run, e: Event, mergeable: set<u16>)
    requires Orderly(r.pending, mergeable) && Safe(e, mergeable)
    ensures Continues(r, Step(r, e, mergeable))
  {
    match e
    case Serve(_) => ServeContinues(r, mergeable);
    case Request(c) => RequestContinues(r, c, mergeable);
  }

  lemma ServeContinues(r: Run, mergeable: set<u16>)
    ensures Continues(r, Step(r, Serve(true), mergeable))
  {
    if r.pending != [] {
      ReplayFirst(r.device, r.pending);
    }
    assert r.accepted[|r.accepted|..] == [];
  }

  lemma RequestContinues(r: Run, c: Cmd, mergeable: set<u16>)
    requires Orderly(r.pending, mergeable)
    ensures Continues(r, Step(r, Request(c), mergeable))
  {
    var s := Step(r, Request(c), mergeable);
    assert r.accepted[|r.accepted|..] == [];
    if s.accepted != r.accepted {
      ReplayOneMore(r.device, r.pending, c);
      if Decide(r.pending, c, mergeable).Merged? {
        MergeSafe(r, mergeable, c, Decide(r.pending, c, mergeable).at);
      }
      assert Heading(s) == Write(Heading(r), c);
      assert s.accepted[|r.accepted|..] == [] + [c];
      ReplayOneMore(Heading(r), [], c);
    }
  }

  /**
   Merging preserves the outcome from any moment on, whatever was lost before: at the end of any stretch of
   answered writes and harmless requests, draining what is pending would leave the device exactly as draining
   what was pending at its start and then replaying, in order, all requests accepted since.
   */
  lemma {:induction false} OutcomeFrom(r: Run, events: seq<Event>, mergeable: set<u16>)
    requires Orderly(r.pending, mergeable) && AllHarmless(events, mergeable)
    ensures Continues(r, RunOn(r, events, mergeable))
    decreases events
  {
    if events == [] {
      assert r.accepted[|r.accepted|..] == [];
    } else {
      var s := Step(r, events[0], mergeable);
      assert Safe(events[0], mergeable);
      OrderlyStep(r, events[0], mergeable);
      OutcomeStep(r, events[0], mergeable);
      OutcomeFrom(s, events[1..], mergeable);
      ContinuesOn(r, s, RunOn(s, events[1..], mergeable));
    }
  }

  /**
   So at every moment of every run in which all writes are answered, draining what is pending would leave the
   device exactly as replaying all accepted requests in order.
   */
  lemma MergePreservesOutcome(d: Device, events: seq<Event>, mergeable: set<u16>)
    requires AllHarmless(events, mergeable)
    ensures var r := After(d, events, mergeable);
      Replay(r.device, r.pending) == Replay(d, r.accepted)
  {
    AfterThenRunOn(d, [], events, mergeable);
    assert [] + events == events;
    OutcomeFrom(Start(d), events, mergeable);
    var r := After(d, events, mergeable);
    assert r.accepted[0..] == r.accepted;
  }

  lemma ReplayFirst(d: Device, cmds: seq<Cmd>)
    requires cmds != []
    ensures Replay(d, cmds) == Replay(Write(d, cmds[0]), cmds[1..])
  {
    assert cmds == [cmds[0]] + cmds[1..];
    ReplayConcat(d, [cmds[0]], cmds[1..]);
    assert Replay(d, [cmds[0]]) == Write(d, cmds[0]);
  }

  lemma ReplayOneMore(d: Device, cmds: seq<Cmd>, c: Cmd)
    ensures Replay(d, cmds + [c]) == Write(Replay(d, cmds), c)
  {
    assert (cmds + [c])[..|cmds|] == cmds;
  }

  lemma MergeSafe(r: Run, mergeable: set<u16>, c: Cmd, i: nat)
    requires Orderly(r.pending, mergeable) && Decide(r.pending, c, mergeable) == Merged(i)
    ensures Replay(r.device, Pushed(r.pending, c, mergeable)) == Replay(r.device, r.pending + [c])
  {
    var later := r.pending[i + 1..];
    forall j | 0 <= j < |later| ensures !Covers(later[j], c.addr) {
      assert later[j] == r.pending[i + 1 + j] && Harmless(later[j], mergeable);
    }
    NothingLater(later, c.addr);
    MergeExactly(r.device, r.pending, i, c);
    assert Cmd(r.pending[i].addr, [c.values[0]], c.mode) == c;
  }

  /** So when everything has been served, each register holds the last value accepted for it. */
  lemma DrainedDevice(d: Device, events: seq<Event>, mergeable: set<u16>, a: nat)
    requires AllHarmless(events, mergeable) && After(d, events, mergeable).pending == []
    ensures var r := After(d, events, mergeable);
      LastWriteTo(r.accepted, a).Some? ==> a in r.device && r.device[a] == LastWriteTo(r.accepted, a).value
  {
    var r := After(d, events, mergeable);
    MergePreservesOutcome(d, events, mergeable);
    ReplayAt(d, r.accepted, a);
  }

  /** Without merging the ring is a bounded first-in first-out queue: served and pending are what was accepted. */
  lemma {:induction false} PlainFifo(d: Device, events: seq<Event>)
    ensures var r := After(d, events, UPS_MERGEABLE);
      r.served + r.pending == r.accepted && r.merges == 0
  {
    if events != [] {
      var n := |events| - 1;
      var r := After(d, events[..n], UPS_MERGEABLE);
      PlainFifo(d, events[..n]);
      match events[n]
      case Serve(_) =>
        if r.pending != [] {
          assert r.served + r.pending == (r.served + [r.pending[0]]) + r.pending[1..];
        }
      case Request(c) =>
        assert r.served + (r.pending + [c]) == (r.served + r.pending) + [c];
    }
  }

  predicate Fixed(c: Cmd, mergeable: set<u16>) {
    |c.values| != 1 || c.addr !in mergeable
  }

  function FixedOnly(cmds: seq<Cmd>, mergeable: set<u16>): seq<Cmd> {
    if cmds == [] then []
    else
      var rest := FixedOnly(cmds[..|cmds| - 1], mergeable);
      if Fixed(cmds[|cmds| - 1], mergeable) then rest + [cmds[|cmds| - 1]] else rest
  }

  lemma {:induction false} FixedConcat(x: seq<Cmd>, y: seq<Cmd>, mergeable: set<u16>)
    ensures FixedOnly(x + y, mergeable) == FixedOnly(x, mergeable) + FixedOnly(y, mergeable)
  {
    if y == [] {
      assert x + y == x;
    } else {
      var n := |y| - 1;
      assert (x + y)[..|x + y| - 1] == x + y[..n];
      FixedConcat(x, y[..n], mergeable);
    }
  }

  lemma FixedUnderMerge(q: seq<Cmd>, c: Cmd, mergeable: set<u16>, i: nat)
    requires Decide(q, c, mergeable) == Merged(i)
    ensures FixedOnly(Pushed(q, c, mergeable), mergeable) == FixedOnly(q, mergeable)
  {
    var c' := Cmd(q[i].addr, [c.values[0]], c.mode);
    assert q == q[..i] + ([q[i]] + q[i + 1..]);
    assert q[i := c'] == q[..i] + ([c'] + q[i + 1..]);
    FixedConcat(q[..i], [q[i]] + q[i + 1..], mergeable);
    FixedConcat([q[i]], q[i + 1..], mergeable);
    FixedConcat(q[..i], [c'] + q[i + 1..], mergeable);
    FixedConcat([c'], q[i + 1..], mergeable);
  }

  /** With merging, the commands that cannot be merged still come out in the order they were accepted. */
  lemma {:induction false} UnmergeableKeepOrder(d: Device, events: seq<Event>, mergeable: set<u16>)
    ensures var r := After(d, events, mergeable);
      FixedOnly(r.served + r.pending, mergeable) == FixedOnly(r.accepted, mergeable)
  {
    if events != [] {
      var n := |events| - 1;
      var r := After(d, events[..n], mergeable);
      UnmergeableKeepOrder(d, events[..n], mergeable);
      match events[n]
      case Serve(_) =>
        if r.pending != [] {
          assert r.served + r.pending == (r.served + [r.pending[0]]) + r.pending[1..];
        }
      case Request(c) =>
        FixedRequest(r.served, r.pending, c, mergeable);
        FixedConcat(r.accepted, [c], mergeable);
    }
  }

  lemma FixedRequest(served: seq<Cmd>, pending: seq<Cmd>, c: Cmd, mergeable: set<u16>)
    ensures var fixed := FixedOnly(served + pending, mergeable);
      FixedOnly(served + Pushed(pending, c, mergeable), mergeable) ==
        if Decide(pending, c, mergeable).Rejected? then fixed else fixed + FixedOnly([c], mergeable)
  {
    match Decide(pending, c, mergeable)
    case Rejected =>
    case Appended =>
      assert served + (pending + [c]) == (served + pending) + [c];
      FixedConcat(served + pending, [c], mergeable);
    case Merged(i) =>
      FixedUnderMerge(pending, c, mergeable, i);
      FixedConcat(served, pending, mergeable);
      FixedConcat(served, Pushed(pending, c, mergeable), mergeable);
      assert FixedOnly([c], mergeable) == [];
  }

  /** Outside the guard it does fail: a block write queued between two single writes wins over the newer one. */
  lemma BlockWriteBreaksMerge(d: Device)
    ensures var first, block, last := Cmd(0x2000, [1], Auto), Cmd(0x1FFF, [5, 6], Fc16), Cmd(0x2000, [2], Auto);
      && !Harmless(block, INVERTER_MERGEABLE)
      && Decide([first, block], last, INVERTER_MERGEABLE) == Merged(0)
      && Replay(d, Pushed([first, block], last, INVERTER_MERGEABLE)) != Replay(d, [first, block, last])
  {
    var first, block, last := Cmd(0x2000, [1], Auto), Cmd(0x1FFF, [5, 6], Fc16), Cmd(0x2000, [2], Auto);
    assert Covers(block, 0x2000);
    MergeLoses(d, block, 0x2000, first, last, INVERTER_MERGEABLE);
  }

  lemma MergeLoses(d: Device, c: Cmd, a: u16, first: Cmd, last: Cmd, mergeable: set<u16>)
    requires a in mergeable && Covers(c, a) && |c.values| != 1
    requires first.addr == last.addr == a && |first.values| == |last.values| == 1
    requires !first.mode.Fc16? && !last.mode.Fc16? && last.values[0] != c.values[a - c.addr]
    ensures Decide([first, c], last, mergeable) == Merged(0)
    ensures Replay(d, Pushed([first, c], last, mergeable)) != Replay(d, [first, c, last])
  {
    var q := [first, c];
    assert Pending(q[0], a);
    assert q[1..] == [c] && q + [last] == [first, c, last];
    assert last == Cmd(a, [last.values[0]], last.mode);
    assert LastWriteTo([c], a) == Some(c.values[a - c.addr]);
    MergeExactly(d, q, 0, last);
    assert Pushed(q, last, mergeable) == q[0 := last];
  }

  /** A run of c and single writes after which draining leaves a different device than replaying what was accepted. */
  predicate Breaks(d: Device, events: seq<Event>, c: Cmd, mergeable: set<u16>) {
    && (forall i :: 0 <= i < |events| ==> events[i].Request? && (events[i].c == c || |events[i].c.values| == 1))
    && var r := After(d, events, mergeable);
       Replay(r.device, r.pending) != Replay(d, r.accepted)
  }

  /** The guard is exact: every other command that the queue accepts has such a run. */
  lemma HarmIsPossible(d: Device, c: Cmd, mergeable: set<u16>)
    requires !Harmless(c, mergeable) && |c.values| <= MAX_WRITE
    ensures exists events :: Breaks(d, events, c, mergeable)
  {
    var a: u16 :| a in mergeable && Covers(c, a);
    var y: u16 := if c.values[a - c.addr] == 0 then 1 else 0;
    Harm(d, c, a, Cmd(a, [0], Auto), Cmd(a, [y], Auto), mergeable);
  }

  lemma Harm(d: Device, c: Cmd, a: u16, first: Cmd, last: Cmd, mergeable: set<u16>)
    requires a in mergeable && Covers(c, a) && 1 < |c.values| <= MAX_WRITE
    requires first == Cmd(a, [0], Auto) && last.addr == a && |last.values| == 1 && last.mode == Auto
    requires last.values[0] != c.values[a - c.addr]
    ensures Breaks(d, [Request(first), Request(c), Request(last)], c, mergeable)
  {
    var r := Step(Step(Start(d), Request(first), mergeable), Request(c), mergeable);
    ThreeRequests(d, first, c, last, mergeable);
    ThenMerged(d, r, c, a, first, last, mergeable);
  }

  lemma ThreeRequests(d: Device, first: Cmd, c: Cmd, last: Cmd, mergeable: set<u16>)
    requires |first.values| == 1 && 1 < |c.values| <= MAX_WRITE
    ensures var r := Step(Step(Start(d), Request(first), mergeable), Request(c), mergeable);
      && r.pending == [first, c] && r.accepted == [first, c] && r.device == d
      && After(d, [Request(first), Request(c), Request(last)], mergeable) == Step(r, Request(last), mergeable)
  {
    TwoAppended(d, first, c, mergeable);
    AfterOneMore(d, [], Request(first), mergeable);
    AfterOneMore(d, [Request(first)], Request(c), mergeable);
    AfterOneMore(d, [Request(first), Request(c)], Request(last), mergeable);
    assert [] + [Request(first)] == [Request(first)];
    assert [Request(first)] + [Request(c)] == [Request(first), Request(c)];
    assert [Request(first), Request(c)] + [Request(last)] == [Request(first), Request(c), Request(last)];
  }

  lemma ThenMerged(d: Device, r: Run, c: Cmd, a: u16, first: Cmd, last: Cmd, mergeable: set<u16>)
    requires a in mergeable && Covers(c, a) && |c.values| != 1
    requires first == Cmd(a, [0], Auto) && last.addr == a && |last.values| == 1 && last.mode == Auto
    requires last.values[0] != c.values[a - c.addr]
    requires r.pending == [first, c] && r.accepted == [first, c] && r.device == d
    ensures var r' := Step(r, Request(last), mergeable);
      Replay(r'.device, r'.pending) != Replay(d, r'.accepted)
  {
    MergeLoses(d, c, a, first, last, mergeable);
    assert [first, c] + [last] == [first, c, last];
  }

  lemma AfterOneMore(d: Device, events: seq<Event>, e: Event, mergeable: set<u16>)
    ensures After(d, events + [e], mergeable) == Step(After(d, events, mergeable), e, mergeable)
  {
    assert (events + [e])[..|events|] == events;
  }

  lemma TwoAppended(d: Device, first: Cmd, c: Cmd, mergeable: set<u16>)
    requires |first.values| == 1 && 1 < |c.values| <= MAX_WRITE
    ensures var r := Step(Step(Start(d), Request(first), mergeable), Request(c), mergeable);
      r.pending == [first, c] && r.accepted == [first, c] && r.device == d
  {
    assert Decide([], first, mergeable) == Appended;
    assert Decide([first], c, mergeable) == Appended;
    assert [] + [first] == [first] && [first] + [c] == [first, c];
  }

  // ---------------------------------------------------------------- a drain, with requests coming in

  function Requests(cmds: seq<Cmd>): seq<Event> {
    if cmds == [] then [] else [Request(cmds[0])] + Requests(cmds[1..])
  }

  function PushedAll(q: seq<Cmd>, cmds: seq<Cmd>, mergeable: set<u16>): seq<Cmd>
    decreases cmds
  {
    if cmds == [] then q else PushedAll(Pushed(q, cmds[0], mergeable), cmds[1..], mergeable)
  }

  /** Requests change what is pending and nothing on the device. */
  lemma {:induction false} RequestsRun(r: Run, cmds: seq<Cmd>, mergeable: set<u16>)
    ensures var r' := RunOn(r, Requests(cmds), mergeable);
      r'.pending == PushedAll(r.pending, cmds, mergeable) && r'.device == r.device && r'.served == r.served
    decreases cmds
  {
    if cmds != [] {
      assert ([Request(cmds[0])] + Requests(cmds[1..]))[1..] == Requests(cmds[1..]);
      RequestsRun(Step(r, Request(cmds[0]), mergeable), cmds[1..], mergeable);
    }
  }

  /** What other threads push between the k-th pop of a drain and the next. */
  function Came(arrivals: seq<seq<Cmd>>, k: nat): seq<Cmd> {
    if k < |arrivals| then arrivals[k] else []
  }

  /** The events of a drain from its k-th pop on: serve one command, let requests come in, go on until none is left. */
  function DrainEvents(q: seq<Cmd>, arrivals: seq<seq<Cmd>>, answers: nat -> bool, k: nat, mergeable: set<u16>): seq<Event>
    decreases if k < |arrivals| then |arrivals| - k else 0, |q|
  {
    if q == [] then []
    else
      [Serve(answers(k))] + Requests(Came(arrivals, k)) +
      DrainEvents(PushedAll(q[1..], Came(arrivals, k), mergeable), arrivals, answers, k + 1, mergeable)
  }

  /** One turn: serve, and let requests come in. */
  function Turn(r: Run, arrivals: seq<seq<Cmd>>, answers: nat -> bool, k: nat, mergeable: set<u16>): Run {
    RunOn(Step(r, Serve(answers(k)), mergeable), Requests(Came(arrivals, k)), mergeable)
  }

  lemma TurnIs(r: Run, arrivals: seq<seq<Cmd>>, answers: nat -> bool, k: nat, mergeable: set<u16>)
    requires r.pending != []
    ensures var r' := Turn(r, arrivals, answers, k, mergeable);
      && r'.pending == PushedAll(r.pending[1..], Came(arrivals, k), mergeable)
      && r'.device == (if answers(k) then Write(r.device, r.pending[0]) else r.device)
      && r'.served == r.served + [r.pending[0]]
  {
    RequestsRun(Step(r, Serve(answers(k)), mergeable), Came(arrivals, k), mergeable);
  }

  /** A drain that has got to run r before its k-th pop: turn after turn until nothing is pending. */
  function DrainFrom(r: Run, arrivals: seq<seq<Cmd>>, answers: nat -> bool, k: nat, mergeable: set<u16>): (end: Run)
    ensures end.pending == []
    decreases if k < |arrivals| then |arrivals| - k else 0, |r.pending|
  {
    if r.pending == [] then r else DrainFrom(Turn(r, arrivals, answers, k, mergeable), arrivals, answers, k + 1, mergeable)
  }

  /** The runs a drain goes through, one turn at a time. */
  predicate Turns(rs: seq<Run>, arrivals: seq<seq<Cmd>>, answers: nat -> bool, mergeable: set<u16>) {
    rs != [] && forall i :: 0 < i < |rs| ==> IsTurn(rs[i - 1], rs[i], arrivals, answers, i - 1, mergeable)
  }

  predicate IsTurn(r: Run, r': Run, arrivals: seq<seq<Cmd>>, answers: nat -> bool, k: nat, mergeable: set<u16>) {
    r.pending != [] && r' == Turn(r, arrivals, answers, k, mergeable)
  }

  lemma MoreTurns(rs: seq<Run>, r': Run, arrivals: seq<seq<Cmd>>, answers: nat -> bool, mergeable: set<u16>)
    requires Turns(rs, arrivals, answers, mergeable) && IsTurn(rs[|rs| - 1], r', arrivals, answers, |rs| - 1, mergeable)
    ensures Turns(rs + [r'], arrivals, answers, mergeable) && (rs + [r'])[0] == rs[0] && (rs + [r'])[|rs|] == r'
  {
    var all := rs + [r'];
    forall i | 0 < i < |all| ensures IsTurn(all[i - 1], all[i], arrivals, answers, i - 1, mergeable) {
      if i < |rs| {
        assert IsTurn(rs[i - 1], rs[i], arrivals, answers, i - 1, mergeable);
      }
    }
  }

  lemma {:induction false} TurnsEnd(rs: seq<Run>, arrivals: seq<seq<Cmd>>, answers: nat -> bool, k: nat, mergeable: set<u16>)
    requires Turns(rs, arrivals, answers, mergeable) && rs[|rs| - 1].pending == [] && k < |rs|
    ensures DrainFrom(rs[k], arrivals, answers, k, mergeable) == rs[|rs| - 1]
    decreases |rs| - k
  {
    if k < |rs| - 1 {
      assert IsTurn(rs[k], rs[k + 1], arrivals, answers, k, mergeable);
      TurnsEnd(rs, arrivals, answers, k + 1, mergeable);
    }
  }

  /** It is the run of its events. */
  lemma {:induction false} DrainIsRun(r: Run, arrivals: seq<seq<Cmd>>, answers: nat -> bool, k: nat, mergeable: set<u16>)
    ensures DrainFrom(r, arrivals, answers, k, mergeable) ==
            RunOn(r, DrainEvents(r.pending, arrivals, answers, k, mergeable), mergeable)
    decreases if k < |arrivals| then |arrivals| - k else 0, |r.pending|
  {
    if r.pending != [] {
      var r' := Turn(r, arrivals, answers, k, mergeable);
      TurnIs(r, arrivals, answers, k, mergeable);
      DrainIsRun(r', arrivals, answers, k + 1, mergeable);
      FirstTurn(r, Requests(Came(arrivals, k)), DrainEvents(r'.pending, arrivals, answers, k + 1, mergeable),
                Serve(answers(k)), mergeable);
    }
  }

  lemma FirstTurn(r: Run, came: seq<Event>, rest: seq<Event>, serve: Event, mergeable: set<u16>)
    ensures RunOn(r, [serve] + came + rest, mergeable) == RunOn(RunOn(Step(r, serve, mergeable), came, mergeable), rest, mergeable)
  {
    assert ([serve] + came + rest)[1..] == came + rest;
    RunOnConcat(Step(r, serve, mergeable), came, rest, mergeable);
  }

  /**
   At any point of any history, whatever writes failed before: a drain whose writes are answered, with harmless
   requests coming in all the while, leaves the device as writing what was pending at its start and then
   replaying, in order, everything accepted since.
   */
  lemma DrainPreservesOutcome(d: Device, events: seq<Event>, arrivals: seq<seq<Cmd>>, answers: nat -> bool, mergeable: set<u16>)
    requires Careful(events, mergeable)
    requires AllHarmless(DrainEvents(After(d, events, mergeable).pending, arrivals, answers, 0, mergeable), mergeable)
    ensures var r := After(d, events, mergeable);
      var end := DrainFrom(r, arrivals, answers, 0, mergeable);
      r.accepted <= end.accepted && end.device == Replay(Replay(r.device, r.pending), end.accepted[|r.accepted|..])
  {
    var r := After(d, events, mergeable);
    PendingOrderly(d, events, mergeable);
    DrainIsRun(r, arrivals, answers, 0, mergeable);
    OutcomeFrom(r, DrainEvents(r.pending, arrivals, answers, 0, mergeable), mergeable);
  }
}
