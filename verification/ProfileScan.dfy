/**
 One scan of a unit's profile (read_profile_to_pool in src/inverter_module.c and src/ups_module.c): the
 loop that cuts the sorted table into runs of consecutive registers, reads each run, copies it into the
 pool, and counts failures. The device is adversarial: any read may fail, and registers may change
 between reads.
 */
module ProfileScan {
  import opened Words
  import opened Modbus
  import opened RegisterMap
  import opened BusThreads
  import opened UnitBus

  const THRESHOLD := 5
  const LOST: u16 := 0xFFFF

  /** One scan as it reaches the pool: whether its k-th read succeeds, and what the buffer then has for a register. */
  datatype World = World(answers: nat -> bool, value: (nat, u16) -> u16)

  /** A read of more than 125 registers is refused by the client before anything is sent. */
  predicate Answered(w: World, k: nat, len: nat) {
    len <= MAX_READ && w.answers(k)
  }

  function At(w: World, k: nat): u16 -> u16 {
    a => w.value(k, a)
  }

  // ---------------------------------------------------------------- the device and the read buffer

  /**
   What a read call comes back with: an error; success, with the registers in the buffer; or success without
   them, which is what the TCP client makes of an exception numbered 0.
   */
  datatype Reply = Failed | Filled | Unfilled

  datatype Device = Device(reply: nat -> Reply, register: (nat, u16) -> u16)

  /** The RTU client never reports success without registers. */
  predicate Succeeds(x: Device, rtu: bool, k: nat) {
    x.reply(k).Filled? || (x.reply(k).Unfilled? && !rtu)
  }

  /** Device addresses count on in sixteen bits. */
  function Onward(first: u16, i: nat): u16 {
    (first + i) % 0x1_0000
  }

  /** Registers from a first address on, as they are at read k. */
  function RegistersAt(x: Device, k: nat, first: u16, len: nat): (r: seq<u16>)
    ensures |r| == len
    ensures forall i :: 0 <= i < len ==> r[i] == RegisterOf(x, k, Onward(first, i))
  {
    seq(len, (i: nat) => RegisterOf(x, k, Onward(first, i)))
  }

  function RegisterOf(x: Device, k: nat, a: u16): u16 {
    x.register(k, a)
  }

  /** A buffer after the k-th read, which asks for len registers from first on. */
  function Refilled(buf: seq<u16>, x: Device, k: nat, first: u16, len: nat): (r: seq<u16>)
    ensures |r| == |buf|
  {
    if x.reply(k).Filled? && len <= MAX_READ && len <= |buf| then RegistersAt(x, k, first, len) + buf[len..] else buf
  }

  function StartOf(lens: seq<nat>, k: nat): nat
    requires k <= |lens|
  {
    if k == 0 then 0 else StartOf(lens, k - 1) + lens[k - 1]
  }

  /** The first register of the k-th segment. */
  function FirstOf(t: Table, lens: seq<nat>, k: nat): u16 {
    if k <= |lens| && StartOf(lens, k) < |t| then t[StartOf(lens, k)].device else 0
  }

  /** The buffer of a scan before its n-th read; it starts out with zeros. */
  function Buffer(x: Device, t: Table, lens: seq<nat>, n: nat): (r: seq<u16>)
    requires n <= |lens|
    ensures |r| == MAX_READ
  {
    if n == 0 then seq(MAX_READ, _ => 0)
    else Refilled(Buffer(x, t, lens, n - 1), x, n - 1, FirstOf(t, lens, n - 1), lens[n - 1])
  }

  /** What the buffer has for a register at the k-th read when that read fills nothing. */
  function Stale(x: Device, t: Table, lens: seq<nat>, k: nat, a: u16): u16 {
    var i := a - FirstOf(t, lens, k);
    if k <= |lens| && 0 <= i < MAX_READ then Buffer(x, t, lens, k)[i] else 0
  }

  /** A scan of these segments by a device, as it reaches the pool. */
  function SeenBy(x: Device, rtu: bool, t: Table, lens: seq<nat>): World {
    World((k: nat) => Succeeds(x, rtu, k), (k: nat, a: u16) => Shows(x, t, lens, k, a))
  }

  /** What the buffer has for a register after the k-th read, if that succeeds. */
  function Shows(x: Device, t: Table, lens: seq<nat>, k: nat, a: u16): u16 {
    if x.reply(k).Filled? then x.register(k, a) else Stale(x, t, lens, k, a)
  }

  function Seen(x: Device, rtu: bool, t: Table, chunk: nat): World {
    SeenBy(x, rtu, t, Segments(t, chunk, 0))
  }

  /** The k-th read of a scan, against the buffer as it is. */
  ghost predicate Presents(w: World, x: Device, rtu: bool, k: nat, first: u16, len: nat, buf: seq<u16>) {
    && (w.answers(k) <==> Succeeds(x, rtu, k))
    && forall i :: 0 <= i < len && i < |buf| && first + i < 0x1_0000 ==>
         w.value(k, Onward(first, i)) == if x.reply(k).Filled? then x.register(k, Onward(first, i)) else buf[i]
  }

  lemma SeenPresents(x: Device, rtu: bool, t: Table, lens: seq<nat>, k: nat, first: u16, buf: seq<u16>)
    requires k < |lens| && FirstOf(t, lens, k) == first && buf == Buffer(x, t, lens, k)
    ensures Presents(SeenBy(x, rtu, t, lens), x, rtu, k, first, lens[k], buf)
  {
    var w := SeenBy(x, rtu, t, lens);
    forall i | 0 <= i < lens[k] && i < |buf| && first + i < 0x1_0000
      ensures w.value(k, Onward(first, i)) == if x.reply(k).Filled? then x.register(k, Onward(first, i)) else buf[i]
    {
      assert Onward(first, i) == first + i;
      assert w.value(k, first + i) == Shows(x, t, lens, k, first + i);
    }
  }

  /** Where each segment starts and what the buffer holds before it is read, for a whole scan. */
  datatype Script = Script(starts: seq<nat>, bufs: seq<seq<u16>>)

  ghost predicate Scene(c: Script, w: World, x: Device, rtu: bool, t: Table, lens: seq<nat>, k: nat)
    requires k < |lens| && |c.starts| == |c.bufs| == |lens| + 1
  {
    && c.starts[k] < |t| && c.starts[k + 1] == c.starts[k] + lens[k]
    && Presents(w, x, rtu, k, t[c.starts[k]].device, lens[k], c.bufs[k])
    && c.bufs[k + 1] == Refilled(c.bufs[k], x, k, t[c.starts[k]].device, lens[k])
  }

  ghost predicate Scripted(c: Script, w: World, x: Device, rtu: bool, t: Table, lens: seq<nat>) {
    && |c.starts| == |c.bufs| == |lens| + 1 && c.starts[0] == 0 && c.bufs[0] == seq(MAX_READ, _ => 0)
    && forall k :: 0 <= k < |lens| ==> Scene(c, w, x, rtu, t, lens, k)
  }

  lemma {:induction false} StartsInside(t: Table, lens: seq<nat>, start: nat, all: seq<nat>, k: nat)
    requires Laid(t, start, lens) && k <= |all| && lens == all[k..] && start == StartOf(all, k)
    ensures forall n :: k <= n < |all| ==> StartOf(all, n) < |t|
    decreases lens
  {
    if lens != [] {
      assert all[k..][1..] == all[k + 1..];
      LaidInside(t, start, lens);
      StartsInside(t, lens[1..], start + lens[0], all, k + 1);
    }
  }

  lemma LaidInside(t: Table, start: nat, lens: seq<nat>)
    requires Laid(t, start, lens) && lens != []
    ensures start < |t|
  {
  }

  /** Every scan by a device has its script. */
  lemma ScriptOf(x: Device, rtu: bool, t: Table, lens: seq<nat>) returns (c: Script)
    requires Laid(t, 0, lens)
    ensures Scripted(c, SeenBy(x, rtu, t, lens), x, rtu, t, lens)
  {
    c := Script(seq(|lens| + 1, k requires 0 <= k <= |lens| => StartOf(lens, k)),
                seq(|lens| + 1, k requires 0 <= k <= |lens| => Buffer(x, t, lens, k)));
    assert lens[0..] == lens;
    StartsInside(t, lens, 0, lens, 0);
    forall k | 0 <= k < |lens| ensures Scene(c, SeenBy(x, rtu, t, lens), x, rtu, t, lens, k) {
      SeenPresents(x, rtu, t, lens, k, t[StartOf(lens, k)].device, Buffer(x, t, lens, k));
    }
  }

  /** The last read before the n-th that filled position i of the buffer. */
  function LastFilled(x: Device, lens: seq<nat>, n: nat, i: nat): (r: Option<nat>)
    requires n <= |lens|
    ensures r.Some? ==> r.value < n && x.reply(r.value).Filled? && i < lens[r.value] <= MAX_READ
  {
    if n == 0 then None
    else if x.reply(n - 1).Filled? && i < lens[n - 1] <= MAX_READ then Some(n - 1)
    else LastFilled(x, lens, n - 1, i)
  }

  /** So an unfilled read shows, position by position, the last read of this scan that filled it, or 0. */
  lemma {:induction false} BufferHolds(x: Device, t: Table, lens: seq<nat>, n: nat, i: nat)
    requires n <= |lens| && i < MAX_READ
    ensures Buffer(x, t, lens, n)[i] ==
      match LastFilled(x, lens, n, i)
      case None => 0
      case Some(k) => x.register(k, Onward(FirstOf(t, lens, k), i))
  {
    if n > 0 {
      BufferHolds(x, t, lens, n - 1, i);
      RefilledAt(Buffer(x, t, lens, n - 1), x, n - 1, FirstOf(t, lens, n - 1), lens[n - 1], i);
    }
  }

  lemma RefilledAt(buf: seq<u16>, x: Device, k: nat, first: u16, len: nat, i: nat)
    requires i < |buf| == MAX_READ
    ensures Refilled(buf, x, k, first, len)[i] ==
      if x.reply(k).Filled? && i < len <= MAX_READ then x.register(k, Onward(first, i)) else buf[i]
  {
  }

  // ---------------------------------------------------------------- cutting the table

  predicate Joins(t: Table, i: nat) {
    0 < i < |t| && t[i].device == t[i - 1].device + 1
  }

  /** How far the loop extends a segment that already has len rows. */
  function Cut(t: Table, chunk: nat, start: nat, len: nat): (r: nat)
    requires len > 0 && start + len <= |t|
    ensures len <= r && start + r <= |t|
    decreases |t| - (start + len)
  {
    if Joins(t, start + len) && len < chunk then Cut(t, chunk, start, len + 1) else len
  }

  function Segments(t: Table, chunk: nat, start: nat): seq<nat>
    requires start <= |t|
    decreases |t| - start
  {
    if start == |t| then []
    else
      var len := Cut(t, chunk, start, 1);
      [len] + Segments(t, chunk, start + len)
  }

  function Max(a: nat, b: nat): nat {
    if a < b then b else a
  }

  /** What a good segment is, without the loop: consecutive, short enough, and not extendable. */
  predicate GoodSegment(t: Table, chunk: nat, start: nat, len: nat) {
    && 1 <= len <= Max(1, chunk)
    && Consecutive(t, start, len)
    && (Joins(t, start + len) ==> len >= chunk)
  }

  /** Good segments laid end to end over the whole table. */
  predicate Covering(t: Table, chunk: nat, start: nat, lens: seq<nat>)
    decreases |lens|
  {
    if lens == [] then start == |t|
    else GoodSegment(t, chunk, start, lens[0]) && Covering(t, chunk, start + lens[0], lens[1..])
  }

  lemma {:induction false} CutIsGood(t: Table, chunk: nat, start: nat, len: nat)
    requires 1 <= len <= Max(1, chunk) && Consecutive(t, start, len)
    ensures GoodSegment(t, chunk, start, Cut(t, chunk, start, len))
    decreases |t| - (start + len)
  {
    if Joins(t, start + len) && len < chunk {
      assert Consecutive(t, start, len + 1);
      CutIsGood(t, chunk, start, len + 1);
    }
  }

  /** The loop covers every row exactly once, with good segments; nothing is asked of the table. */
  lemma {:induction false} SegmentsCover(t: Table, chunk: nat, start: nat)
    requires start <= |t|
    ensures Covering(t, chunk, start, Segments(t, chunk, start))
    decreases |t| - start
  {
    if start < |t| {
      var len := Cut(t, chunk, start, 1);
      CutIsGood(t, chunk, start, 1);
      SegmentsCover(t, chunk, start + len);
      CoveringMore(t, chunk, start, len, Segments(t, chunk, start + len));
    }
  }

  lemma CoveringMore(t: Table, chunk: nat, start: nat, len: nat, lens: seq<nat>)
    requires GoodSegment(t, chunk, start, len) && Covering(t, chunk, start + len, lens)
    ensures Covering(t, chunk, start, [len] + lens)
  {
    assert ([len] + lens)[1..] == lens;
  }

  /** There is only one such covering, so the greedy cut is determined by the table and the chunk size. */
  lemma {:induction false} CoveringUnique(t: Table, chunk: nat, start: nat, a: seq<nat>, b: seq<nat>)
    requires Covering(t, chunk, start, a) && Covering(t, chunk, start, b)
    ensures a == b
    decreases |a|
  {
    if a != [] && b != [] {
      if a[0] < b[0] {
        LongerJoins(t, start, b[0], a[0]);
      } else if b[0] < a[0] {
        LongerJoins(t, start, a[0], b[0]);
      }
      CoveringUnique(t, chunk, start + a[0], a[1..], b[1..]);
    }
  }

  lemma LongerJoins(t: Table, start: nat, len: nat, i: nat)
    requires Consecutive(t, start, len) && 0 < i < len
    ensures Joins(t, start + i)
  {
  }

  // ---------------------------------------------------------------- the scan

  /** Where a scan got to: pool, failure count, result, and the outcomes of the reads it made. */
  datatype Scan = Scan(pool: seq<u16>, fails: nat, ok: bool, heard: seq<bool>)

  function Heard(b: bool, s: Scan): Scan {
    s.(heard := [b] + s.heard)
  }

  /** The comm-loss marker: every slot of the profile becomes 0xFFFF. */
  function Marked(t: Table, p: seq<u16>): seq<u16> {
    Refreshed(t, p, _ => LOST)
  }

  /** What one segment does, and whether the scan goes on after it. */
  datatype Leg = Leg(pool: seq<u16>, fails: nat, go: bool)

  function Segment(t: Table, start: nat, len: nat, k: nat, p: seq<u16>, fails: nat, track: bool, w: World): (g: Leg)
    requires start + len <= |t|
    ensures |g.pool| == |p|
  {
    if Answered(w, k, len) then
      Leg(Refreshed(t[start..start + len], p, At(w, k)), if track then 0 else fails, true)
    else if !track then Leg(p, fails, false)
    else if fails + 1 >= THRESHOLD then Leg(Marked(t, p), fails + 1, false)
    else Leg(p, fails + 1, true)
  }

  /** Segment lengths laid end to end from row start to the end of the table. */
  predicate Laid(t: Table, start: nat, lens: seq<nat>)
    decreases lens
  {
    if lens == [] then start == |t|
    else lens[0] > 0 && start + lens[0] <= |t| && Laid(t, start + lens[0], lens[1..])
  }

  /** The scan of these segments, from row start and the k-th read on. */
  function ScanFrom(t: Table, lens: seq<nat>, start: nat, k: nat, p: seq<u16>, fails: nat, track: bool, w: World): (s: Scan)
    requires Laid(t, start, lens)
    ensures |s.pool| == |p|
    decreases lens
  {
    if lens == [] then Scan(p, fails, true, [])
    else
      var g := Segment(t, start, lens[0], k, p, fails, track, w);
      if g.go then
        Heard(Answered(w, k, lens[0]), ScanFrom(t, lens[1..], start + lens[0], k + 1, g.pool, g.fails, track, w))
      else Scan(g.pool, g.fails, false, [false])
  }

  lemma {:induction false} SegmentsLaid(t: Table, chunk: nat, start: nat)
    requires start <= |t|
    ensures Laid(t, start, Segments(t, chunk, start))
    decreases |t| - start
  {
    if start < |t| {
      SegmentsLaid(t, chunk, start + Cut(t, chunk, start, 1));
    }
  }

  /** read_profile_to_pool on a whole profile. */
  function ScanProfile(t: Table, chunk: nat, p: seq<u16>, fails: nat, track: bool, w: World): (s: Scan)
    ensures |s.pool| == |p|
  {
    SegmentsLaid(t, chunk, 0);
    ScanFrom(t, Segments(t, chunk, 0), 0, 0, p, fails, track, w)
  }

  /** Where the loop stands: len rows of the segment at start are gathered, and lens is what remains to read. */
  predicate Midway(t: Table, chunk: nat, start: nat, len: nat, lens: seq<nat>) {
    && Covering(t, chunk, start, lens) && Laid(t, start, lens)
    && (lens != [] ==> 0 < len <= lens[0])
  }

  lemma MidwayStart(t: Table, chunk: nat)
    ensures Midway(t, chunk, 0, 1, Segments(t, chunk, 0))
  {
    SegmentsCover(t, chunk, 0);
    SegmentsLaid(t, chunk, 0);
  }

  lemma ScanPlan(t: Table, chunk: nat, p: seq<u16>, fails: nat, track: bool, w: World) returns (lens: seq<nat>)
    ensures lens == Segments(t, chunk, 0) && Midway(t, chunk, 0, 1, lens) && (lens == [] <==> t == [])
    ensures ScanProfile(t, chunk, p, fails, track, w) == ScanFrom(t, lens, 0, 0, p, fails, track, w)
  {
    lens := Segments(t, chunk, 0);
    MidwayStart(t, chunk);
  }

  lemma MidwayExtends(t: Table, chunk: nat, start: nat, len: nat, lens: seq<nat>)
    requires Midway(t, chunk, start, len, lens) && lens != [] && Joins(t, start + len) && len < chunk
    ensures Midway(t, chunk, start, len + 1, lens)
  {
  }

  /** When the loop stops extending, it has gathered exactly the next segment of the covering. */
  lemma MidwayComplete(t: Table, chunk: nat, start: nat, len: nat, lens: seq<nat>)
    requires Midway(t, chunk, start, len, lens) && lens != [] && !(Joins(t, start + len) && len < chunk)
    ensures lens[0] == len && Consecutive(t, start, len)
    ensures Midway(t, chunk, start + len, 1, lens[1..])
  {
    if len < lens[0] {
      LongerJoins(t, start, lens[0], len);
    }
  }

  /** The scan of what is left decides the whole, and the reads still to come complete the trace. */
  predicate OnTrack(rtu: bool, whole: Scan, trace: seq<Op>, done: seq<Op>, lens: seq<nat>, rest: Scan) {
    && whole.pool == rest.pool && whole.fails == rest.fails && whole.ok == rest.ok
    && trace == done + ReadsOps(rtu, lens, |rest.heard|)
  }

  /** One segment of a scan. */
  lemma ScanLeg(t: Table, lens: seq<nat>, start: nat, k: nat, p: seq<u16>, fails: nat, track: bool, w: World, g: Leg,
                rtu: bool, whole: Scan, trace: seq<Op>, done: seq<Op>)
    requires Laid(t, start, lens) && lens != [] && g == Segment(t, start, lens[0], k, p, fails, track, w)
    requires OnTrack(rtu, whole, trace, done, lens, ScanFrom(t, lens, start, k, p, fails, track, w))
    ensures OnTrack(rtu, whole, trace, done + ReadOps(rtu, lens[0]), lens[1..],
                    if g.go then ScanFrom(t, lens[1..], start + lens[0], k + 1, g.pool, g.fails, track, w)
                    else Scan(g.pool, g.fails, false, []))
  {
    var s := ScanFrom(t, lens, start, k, p, fails, track, w);
    var rest := if g.go then ScanFrom(t, lens[1..], start + lens[0], k + 1, g.pool, g.fails, track, w)
                else Scan(g.pool, g.fails, false, []);
    assert |s.heard| == 1 + |rest.heard|;
    MoreReads(rtu, lens, |rest.heard|, done);
  }

  lemma MoreReads(rtu: bool, lens: seq<nat>, n: nat, done: seq<Op>)
    requires lens != []
    ensures done + ReadsOps(rtu, lens, n + 1) == (done + ReadOps(rtu, lens[0])) + ReadsOps(rtu, lens[1..], n)
  {
  }

  /** A scan that is over, because it broke off or because nothing is left to read. */
  lemma ScanOver(rtu: bool, whole: Scan, trace: seq<Op>, done: seq<Op>, lens: seq<nat>, rest: Scan)
    requires OnTrack(rtu, whole, trace, done, lens, rest) && rest.heard == []
    ensures whole.pool == rest.pool && whole.fails == rest.fails && whole.ok == rest.ok && trace == done
  {
    assert done + ReadsOps(rtu, lens, 0) == done;
  }

  lemma NothingLeft(t: Table, lens: seq<nat>, start: nat, k: nat, p: seq<u16>, fails: nat, track: bool, w: World)
    requires Laid(t, start, lens) && lens == []
    ensures ScanFrom(t, lens, start, k, p, fails, track, w) == Scan(p, fails, true, [])
  {
  }

  class Poller {
    const table: Table
    const chunk: u16
    const pool: Pool
    const bus: Bus
    var commFail: nat

    constructor (table: Table, chunk: u16, pool: Pool, bus: Bus)
      ensures this.table == table && this.chunk == chunk && this.pool == pool && this.bus == bus && commFail == 0
    {
      this.table, this.chunk, this.pool, this.bus, this.commFail := table, chunk, pool, bus, 0;
    }

    /** read_device_value: on RTU one FC03 exchange under its own acquire and release, on TCP none on the bus. */
    method ReadDevice(x: Device, k: nat, start: u16, count: nat, buf: array<u16>) returns (ok: bool)
      requires buf.Length == MAX_READ && start + count <= 0x1_0000 && bus.Valid()
      modifies buf, bus
      ensures ok <==> count <= 125 && (x.reply(k) == Filled || (x.reply(k) == Unfilled && !bus.rtu))
      ensures buf[..] == Refilled(old(buf[..]), x, k, start, count)
      ensures x.reply(k) == Filled && count <= 125 ==> forall i :: 0 <= i < count ==> buf[i] == x.register(k, start + i)
      ensures x.reply(k) != Filled ==> buf[..] == old(buf[..])
      ensures bus.Valid() && bus.depth == old(bus.depth) && bus.trace == old(bus.trace) + ReadOps(bus.rtu, count)
      ensures bus.rtu && count <= 125 ==> bus.trace == old(bus.trace) + [Acquire, Transact, Release]
      ensures !bus.rtu ==> bus.trace == old(bus.trace)
    {
      ghost var before := buf[..];
      if bus.rtu {
        bus.Take();
        ok := Ask(x, k, start, count, buf);
        bus.Give();
      } else {
        ok := Ask(x, k, start, count, buf);
      }
      forall i | 0 <= i < count <= 125 && x.reply(k) == Filled ensures buf[i] == x.register(k, start + i) {
        RefilledAt(before, x, k, start, count, i);
        assert Onward(start, i) == start + i;
      }
    }

    /** The client's read call. More than 125 registers are refused before anything is sent. */
    method Ask(x: Device, k: nat, start: u16, count: nat, buf: array<u16>) returns (ok: bool)
      requires buf.Length == MAX_READ && start + count <= 0x1_0000
      requires bus.Valid() && (bus.rtu ==> bus.depth > 0)
      modifies buf, bus
      ensures ok <==> count <= MAX_READ && Succeeds(x, bus.rtu, k)
      ensures buf[..] == Refilled(old(buf[..]), x, k, start, count)
      ensures bus.Valid() && bus.depth == old(bus.depth)
      ensures bus.trace == old(bus.trace) + if bus.rtu && count <= MAX_READ then [Transact] else []
    {
      if count > MAX_READ {
        return false;
      }
      if bus.rtu {
        bus.Exchange();
      }
      match x.reply(k) {
        case Failed =>
          ok := false;
        case Unfilled =>
          ok := !bus.rtu;
        case Filled =>
          Fill(x, k, start, count, buf);
          ok := true;
      }
    }

    /** The copy loop of the client. */
    method Fill(x: Device, k: nat, start: u16, count: nat, buf: array<u16>)
      requires count <= buf.Length && start + count <= 0x1_0000
      modifies buf
      ensures buf[..] == RegistersAt(x, k, start, count) + old(buf[count..])
    {
      var i := 0;
      while i < count
        invariant i <= count
        invariant forall j :: 0 <= j < buf.Length ==> buf[j] == if j < i then x.register(k, Onward(start, j)) else old(buf[j])
      {
        buf[i] := x.register(k, start + i);
        i := i + 1;
      }
    }

    /** The 0xFFFF loop. */
    method MarkLost()
      requires pool.Valid()
      modifies pool.cells
      ensures pool.Contents() == Marked(table, old(pool.Contents()))
    {
      var k := 0;
      while k < |table|
        invariant k <= |table|
        invariant pool.Contents() == Marked(table[..k], old(pool.Contents()))
      {
        var _ := pool.Write(table[k].pool, LOST);
        assert table[..k + 1][..k] == table[..k];
        k := k + 1;
      }
      assert table[..k] == table;
    }

    /** The copy of a segment's registers into the pool. */
    method StoreSegment(ghost w: World, ghost k: nat, start: nat, len: nat, buf: array<u16>)
      requires pool.Valid() && Ascending(table) && 0 < len <= buf.Length && Consecutive(table, start, len)
      requires buf != pool.cells && Carries(buf[..len], table, start, At(w, k))
      modifies pool.cells
      ensures pool.Contents() == Refreshed(table[start..start + len], old(pool.Contents()), At(w, k))
    {
      ghost var before, values := pool.Contents(), buf[..len];
      CopySegment(table, before, values, start, At(w, k));
      pool.ReadToPool(table, buf, table[start].device, len);
    }

    /** The body of the loop once a segment is complete; w is the scan as it reaches the pool. */
    method ReadSegment(track: bool, x: Device, ghost w: World, k: nat, start: nat, len: nat, buf: array<u16>) returns (go: bool)
      requires pool.Valid() && Ascending(table) && len > 0 && Consecutive(table, start, len)
      requires buf.Length == MAX_READ && buf != pool.cells && bus.Valid()
      requires Presents(w, x, bus.rtu, k, table[start].device, len, buf[..])
      modifies this`commFail, pool.cells, buf, bus
      ensures Leg(pool.Contents(), commFail, go) ==
        Segment(table, start, len, k, old(pool.Contents()), old(commFail), track, w)
      ensures buf[..] == Refilled(old(buf[..]), x, k, table[start].device, len)
      ensures bus.Valid() && bus.depth == old(bus.depth) && bus.trace == old(bus.trace) + ReadOps(bus.rtu, len)
    {
      assert table[start + len - 1].device == table[start].device + (len - 1);
      ghost var before := buf[..];
      var answered := ReadDevice(x, k, table[start].device, len, buf);
      if !answered {
        if !track {
          return false;
        }
        commFail := commFail + 1;
        if commFail >= THRESHOLD {
          MarkLost();
          return false;
        }
      } else {
        if track {
          commFail := 0;
        }
        PresentedCarries(w, x, bus.rtu, k, table, start, len, before);
        StoreSegment(w, k, start, len, buf);
      }
      go := true;
    }

    /** ReadSegment when the loop has gathered a whole segment, seen as the first leg of what is left to scan. */
    method ReadNext(track: bool, x: Device, k: nat, start: nat, len: nat, buf: array<u16>, ghost lens: seq<nat>,
                    ghost w: World, ghost c: Script, ghost plan: seq<nat>, ghost whole: Scan, ghost trace: seq<Op>)
      returns (go: bool, ghost rest: seq<nat>)
      requires pool.Valid() && Ascending(table) && buf.Length == MAX_READ && buf != pool.cells && bus.Valid()
      requires Midway(table, chunk, start, len, lens) && lens != [] && !(Joins(table, start + len) && len < chunk)
      requires Scripted(c, w, x, bus.rtu, table, plan) && Reached(c, plan, lens, start, k) && buf[..] == c.bufs[k]
      requires OnTrack(bus.rtu, whole, trace, bus.trace, lens,
                       ScanFrom(table, lens, start, k, pool.Contents(), commFail, track, w))
      modifies this`commFail, pool.cells, buf, bus
      ensures Reached(c, plan, rest, start + len, k + 1) && buf[..] == c.bufs[k + 1]
      ensures Midway(table, chunk, start + len, 1, rest) && start + len <= |table|
      ensures rest == [] <==> start + len == |table|
      ensures bus.Valid() && bus.depth == old(bus.depth)
      ensures OnTrack(bus.rtu, whole, trace, bus.trace, rest,
                      if go then ScanFrom(table, rest, start + len, k + 1, pool.Contents(), commFail, track, w)
                      else Scan(pool.Contents(), commFail, false, []))
    {
      rest := lens[1..];
      MidwayComplete(table, chunk, start, len, lens);
      NextPlace(c, w, x, bus.rtu, table, plan, lens, start, k);
      ghost var p, fails, done := pool.Contents(), commFail, bus.trace;
      go := ReadSegment(track, x, w, k, start, len, buf);
      ScanLeg(table, lens, start, k, p, fails, track, w, Leg(pool.Contents(), commFail, go), bus.rtu, whole, trace, done);
    }

    /** Pool, count and result are those of a scan. */
    ghost predicate Leaves(s: Scan, ok: bool)
      reads this`commFail, pool.cells
    {
      pool.Contents() == s.pool && commFail == s.fails && ok == s.ok
    }

    /** The loop of read_profile_to_pool; plan is the segments it is going to find, c what the buffer will hold. */
    method ReadSegments(track: bool, x: Device, ghost w: World, ghost c: Script, ghost plan: seq<nat>) returns (ok: bool)
      requires pool.Valid() && Ascending(table) && table != [] && bus.Valid() && Midway(table, chunk, 0, 1, plan)
      requires Scripted(c, w, x, bus.rtu, table, plan)
      modifies this`commFail, pool.cells, bus
      ensures var s := ScanFrom(table, plan, 0, 0, old(pool.Contents()), old(commFail), track, w);
        Leaves(s, ok) && bus.trace == old(bus.trace) + ReadsOps(bus.rtu, plan, |s.heard|)
      ensures bus.Valid() && bus.depth == old(bus.depth)
    {
      ghost var whole := ScanFrom(table, plan, 0, 0, pool.Contents(), commFail, track, w);
      ghost var trace := bus.trace + ReadsOps(bus.rtu, plan, |whole.heard|);
      ghost var lens := plan;
      var buf := new u16[MAX_READ](_ => 0);
      assert buf[..] == c.bufs[0];
      var segStart, segLen, i := 0, 1, 1;
      var k := 0;  // the device counts the reads of this scan
      ok := true;
      while i <= |table|
        invariant segStart + segLen == i <= |table| + 1 && segLen > 0
        invariant lens == [] <==> i == |table| + 1
        invariant Midway(table, chunk, segStart, segLen, lens)
        invariant fresh(buf) && bus.Valid() && bus.depth == old(bus.depth)
        invariant Reached(c, plan, lens, segStart, k) && buf[..] == c.bufs[k]
        invariant OnTrack(bus.rtu, whole, trace, bus.trace, lens,
                          ScanFrom(table, lens, segStart, k, pool.Contents(), commFail, track, w))
      {
        var contiguous := i < |table| && table[i].device == table[i - 1].device + 1;
        var chunkFull := segLen >= chunk;
        if contiguous && !chunkFull {
          MidwayExtends(table, chunk, segStart, segLen, lens);
          segLen, i := segLen + 1, i + 1;
          continue;
        }
        ok, lens := ReadNext(track, x, k, segStart, segLen, buf, lens, w, c, plan, whole, trace);
        if !ok {
          ScanOver(bus.rtu, whole, trace, bus.trace, lens, Scan(pool.Contents(), commFail, false, []));
          return false;
        }
        k := k + 1;
        segStart, segLen := i, 1;
        i := i + 1;
      }
      NothingLeft(table, lens, segStart, k, pool.Contents(), commFail, track, w);
      ScanOver(bus.rtu, whole, trace, bus.trace, lens, Scan(pool.Contents(), commFail, true, []));
    }

    /**
     read_profile_to_pool. On every exit the thread holds its path as deep as before, and it has made exactly
     the reads the scan made, each under its own acquire, all under one.
     */
    method ReadProfile(track: bool, x: Device) returns (ok: bool)
      requires pool.Valid() && Ascending(table) && bus.Valid()
      modifies this`commFail, pool.cells, bus
      ensures Leaves(ScanProfile(table, chunk, old(pool.Contents()), old(commFail), track, Seen(x, bus.rtu, table, chunk)), ok)
      ensures var s := ScanProfile(table, chunk, old(pool.Contents()), old(commFail), track, Seen(x, bus.rtu, table, chunk));
        bus.trace == old(bus.trace) + if table == [] then [] else ScanOps(bus.rtu, Segments(table, chunk, 0), |s.heard|)
      ensures bus.Valid() && bus.depth == old(bus.depth)
    {
      if |table| == 0 {
        return true;
      }
      ghost var w := Seen(x, bus.rtu, table, chunk);
      ghost var before, whole := bus.trace, ScanProfile(table, chunk, pool.Contents(), commFail, track, w);
      ghost var plan := ScanPlan(table, chunk, pool.Contents(), commFail, track, w);
      ghost var body := ReadsOps(bus.rtu, plan, |whole.heard|);
      bus.Take();
      ghost var c := ScriptOf(x, bus.rtu, table, plan);
      ok := ReadSegments(track, x, w, c, plan);
      bus.Give();
      Enclosed(before, body);
    }
  }

  /** lens are the segments from the k-th on, and start is where they begin. */
  predicate Reached(c: Script, plan: seq<nat>, lens: seq<nat>, start: nat, k: nat) {
    k <= |plan| && lens == plan[k..] && |c.starts| == |plan| + 1 && start == c.starts[k]
  }

  lemma NextPlace(c: Script, w: World, x: Device, rtu: bool, t: Table, plan: seq<nat>, lens: seq<nat>, start: nat, k: nat)
    requires Scripted(c, w, x, rtu, t, plan) && Reached(c, plan, lens, start, k) && lens != []
    ensures k < |plan| && plan[k] == lens[0] && Scene(c, w, x, rtu, t, plan, k)
    ensures Reached(c, plan, lens[1..], start + lens[0], k + 1)
  {
    assert Scene(c, w, x, rtu, t, plan, k);
  }

  /** After a successful read the buffer carries what the scan is to show. */
  lemma PresentedCarries(w: World, x: Device, rtu: bool, k: nat, t: Table, start: nat, len: nat, buf: seq<u16>)
    requires 0 < len <= MAX_READ && |buf| == MAX_READ && Consecutive(t, start, len)
    requires Succeeds(x, rtu, k) && Presents(w, x, rtu, k, t[start].device, len, buf)
    ensures Carries(Refilled(buf, x, k, t[start].device, len)[..len], t, start, At(w, k))
  {
    var first := t[start].device;
    assert t[start + len - 1].device == first + (len - 1);
    forall i | 0 <= i < len ensures Refilled(buf, x, k, first, len)[..len][i] == w.value(k, t[start + i].device) {
      assert t[start + i].device == first + i == Onward(first, i);
    }
  }

  /** These are the values of the registers of consecutive rows. */
  predicate Carries(values: seq<u16>, t: Table, start: nat, f: u16 -> u16) {
    start + |values| <= |t| && forall i :: 0 <= i < |values| ==> values[i] == f(t[start + i].device)
  }

  lemma CopySegment(t: Table, p: seq<u16>, values: seq<u16>, start: nat, f: u16 -> u16)
    requires Ascending(t) && values != [] && Consecutive(t, start, |values|)
    requires Carries(values, t, start, f)
    ensures Stored(t, p, values, t[start].device) == Refreshed(t[start..start + |values|], p, f)
  {
    var rows := t[start..start + |values|];
    SegmentLocated(t, start, |values|);
    forall i | 0 <= i < |values| ensures values[i] == ValuesOf(rows, f)[i] {
      ValuesOfSegment(rows, f, i);
      assert rows[i] == t[start + i];
    }
    assert values == ValuesOf(rows, f);
    StoredIsRefreshed(t, p, rows, t[start].device, f);
  }
}
