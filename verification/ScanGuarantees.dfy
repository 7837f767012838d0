/**
 What a scan guarantees, whatever the device does: a full scan is the naive refresh, a partial one leaves
 exactly the unanswered segments as they were, the failure count is the current run of failures, and a
 tracked scan fails exactly by declaring the device lost.
 */
module ScanGuarantees {
  import opened Words
  import opened Modbus
  import opened RegisterMap
  import opened ProfileScan

  // ---------------------------------------------------------------- refinement of the naive refresh

  /** Every read is answered and the registers stand still at f. */
  ghost predicate Still(w: World, f: u16 -> u16) {
    (forall n :: w.answers(n)) && (forall n, a :: w.value(n, a) == f(a))
  }

  predicate ShortEnough(lens: seq<nat>) {
    forall i :: 0 <= i < |lens| ==> lens[i] <= MAX_READ
  }

  /** With every read answered and registers standing still, cutting the table into chunks changes nothing. */
  lemma {:induction false} FullScanIsNaiveRefresh(t: Table, lens: seq<nat>, start: nat, k: nat, p: seq<u16>, fails: nat,
                                                  track: bool, w: World, f: u16 -> u16)
    requires Laid(t, start, lens) && ShortEnough(lens) && Still(w, f) && start <= |t|
    ensures var s := ScanFrom(t, lens, start, k, p, fails, track, w);
      && s.ok && s.pool == Refreshed(t[start..], p, f)
      && s.fails == if track && lens != [] then 0 else fails
    decreases lens
  {
    if lens == [] {
      assert t[start..] == [];
    } else {
      var next := start + lens[0];
      var rows := t[start..next];
      SameRefresh(rows, p, At(w, k), f);
      LaidWithin(t, next, lens[1..]);
      FullScanIsNaiveRefresh(t, lens[1..], next, k + 1, Refreshed(rows, p, f), if track then 0 else fails, track, w, f);
      assert t[start..] == rows + t[next..];
      RefreshedConcat(rows, t[next..], p, f);
    }
  }

  lemma LaidWithin(t: Table, start: nat, lens: seq<nat>)
    requires Laid(t, start, lens)
    ensures start <= |t|
  {
  }

  lemma {:induction false} SegmentsShortEnough(t: Table, chunk: nat, start: nat)
    requires start <= |t| && chunk <= MAX_READ
    ensures ShortEnough(Segments(t, chunk, start))
    decreases |t| - start
  {
    if start < |t| {
      CutIsGood(t, chunk, start, 1);
      SegmentsShortEnough(t, chunk, start + Cut(t, chunk, start, 1));
    }
  }

  lemma {:induction false} SameRefresh(rows: Table, p: seq<u16>, f: u16 -> u16, g: u16 -> u16)
    requires forall a :: f(a) == g(a)
    ensures Refreshed(rows, p, f) == Refreshed(rows, p, g)
  {
    if rows != [] {
      SameRefresh(rows[..|rows| - 1], p, f, g);
    }
  }

  /** So after a full scan each row's slot holds its register, and no other slot of the pool has moved. */
  lemma FullScanSlots(t: Table, chunk: nat, p: seq<u16>, fails: nat, track: bool, w: World, f: u16 -> u16)
    requires chunk <= MAX_READ && DistinctSlots(t) && InPool(t) && |p| == POOL_SIZE && Still(w, f)
    ensures ScanProfile(t, chunk, p, fails, track, w).ok
    ensures var after := ScanProfile(t, chunk, p, fails, track, w).pool;
      && after == Refreshed(t, p, f)
      && (forall i :: 0 <= i < |t| ==> after[t[i].pool] == f(t[i].device))
      && (forall a :: 0 <= a < |p| && !Uses(t, a) ==> after[a] == p[a])
  {
    SegmentsLaid(t, chunk, 0);
    SegmentsShortEnough(t, chunk, 0);
    FullScanIsNaiveRefresh(t, Segments(t, chunk, 0), 0, 0, p, fails, track, w, f);
    assert t[0..] == t;
    RefreshedSlots(t, p, f);
  }

  /** A profile cut into runs longer than one read allows is never fully scanned: the client refuses the read. */
  lemma {:induction false} OverlongSegmentFails(t: Table, lens: seq<nat>, start: nat, k: nat, p: seq<u16>, fails: nat, w: World)
    requires Laid(t, start, lens) && !ShortEnough(lens)
    ensures !ScanFrom(t, lens, start, k, p, fails, false, w).ok
    decreases lens
  {
    if lens[0] <= MAX_READ {
      var g := Segment(t, start, lens[0], k, p, fails, false, w);
      if g.go {
        var i :| 0 <= i < |lens| && lens[i] > MAX_READ;
        assert lens[1..][i - 1] > MAX_READ;
        OverlongSegmentFails(t, lens[1..], start + lens[0], k + 1, g.pool, g.fails, w);
      }
    }
  }

  // ---------------------------------------------------------------- what a partial scan leaves

  /** A scan, answered or not, writes only slots of the rows it still has to read, or marks the table. */
  lemma {:induction false} ScanTouchesItsRows(t: Table, lens: seq<nat>, start: nat, k: nat, p: seq<u16>, fails: nat,
                                              track: bool, w: World, slot: u16)
    requires Laid(t, start, lens) && start <= |t| && |p| == POOL_SIZE && slot < POOL_SIZE
    ensures var s := ScanFrom(t, lens, start, k, p, fails, track, w);
      && (!Uses(t, slot) ==> s.pool[slot] == p[slot])
      && (!Uses(t[start..], slot) && (s.ok || !track) ==> s.pool[slot] == p[slot])
    decreases lens
  {
    if lens != [] {
      var next := start + lens[0];
      LaidWithin(t, next, lens[1..]);
      SegmentTouches(t, start, lens[0], k, p, fails, track, w, slot);
      var g := Segment(t, start, lens[0], k, p, fails, track, w);
      if g.go {
        ScanTouchesItsRows(t, lens[1..], next, k + 1, g.pool, g.fails, track, w, slot);
        UsesPart(t[start..], lens[0], |t| - start, slot);
        assert t[start..][lens[0]..|t| - start] == t[next..];
      }
    }
  }

  lemma SegmentTouches(t: Table, start: nat, len: nat, k: nat, p: seq<u16>, fails: nat, track: bool, w: World, slot: u16)
    requires start + len <= |t| && |p| == POOL_SIZE && slot < POOL_SIZE
    ensures var g := Segment(t, start, len, k, p, fails, track, w);
      && (!Uses(t, slot) ==> g.pool[slot] == p[slot])
      && (!Uses(t[start..], slot) && (g.go || !track) ==> g.pool[slot] == p[slot])
  {
    RefreshedSlots(t[start..start + len], p, At(w, k));
    RefreshedSlots(t, p, _ => LOST);
    UsesPart(t, start, start + len, slot);
    UsesPart(t[start..], 0, len, slot);
    assert t[start..][0..len] == t[start..start + len];
  }

  lemma UsesPart(t: Table, lo: nat, hi: nat, slot: u16)
    requires lo <= hi <= |t|
    ensures Uses(t[lo..hi], slot) ==> Uses(t, slot)
  {
    if Uses(t[lo..hi], slot) {
      var i :| 0 <= i < hi - lo && t[lo..hi][i].pool == slot;
      assert t[lo + i].pool == slot;
    }
  }

  /** The read that covers a row, counted from the scan's current one, and how many registers it asks for. */
  function ReadOf(lens: seq<nat>, start: nat, j: nat): nat
    requires start <= j
    decreases lens
  {
    if lens == [] || j < start + lens[0] then 0 else 1 + ReadOf(lens[1..], start + lens[0], j)
  }

  /** The read that covers the row was made in this scan, and answered. */
  predicate RowAnswered(lens: seq<nat>, start: nat, k: nat, w: World, made: nat, j: nat)
    requires start <= j
  {
    var n := ReadOf(lens, start, j);
    n < made && n < |lens| && Answered(w, k + n, lens[n])
  }

  /**
   Row by row, after any scan. If it declared the device lost, every row holds 0xFFFF. Otherwise, also when an
   untracked scan broke off, a row whose segment was read and answered holds the register as it was at that
   read, and every other row keeps what it had.
   */
  lemma {:induction false} RowOutcome(t: Table, lens: seq<nat>, start: nat, k: nat, p: seq<u16>, fails: nat,
                                      track: bool, w: World, j: nat)
    requires Laid(t, start, lens) && start <= j < |t| && |p| == POOL_SIZE && DistinctSlots(t) && InPool(t)
    ensures var s := ScanFrom(t, lens, start, k, p, fails, track, w);
      s.pool[t[j].pool] ==
        if track && !s.ok then 0xFFFF
        else if RowAnswered(lens, start, k, w, |s.heard|, j) then w.value(k + ReadOf(lens, start, j), t[j].device)
        else p[t[j].pool]
    decreases lens
  {
    var next := start + lens[0];
    var g := Segment(t, start, lens[0], k, p, fails, track, w);
    if !g.go {
      RefreshedSlots(t, p, _ => LOST);
    } else {
      SegmentSlot(t, start, lens[0], k, p, fails, track, w, j);
      var rest := ScanFrom(t, lens[1..], next, k + 1, g.pool, g.fails, track, w);
      if j < next {
        RowDone(t, lens[1..], next, k + 1, g.pool, g.fails, track, w, j);
      } else {
        RowOutcome(t, lens[1..], next, k + 1, g.pool, g.fails, track, w, j);
        AnsweredLater(lens, start, k, w, |rest.heard|, j);
      }
    }
  }

  lemma AnsweredLater(lens: seq<nat>, start: nat, k: nat, w: World, made: nat, j: nat)
    requires lens != [] && j >= start + lens[0]
    ensures RowAnswered(lens, start, k, w, made + 1, j) == RowAnswered(lens[1..], start + lens[0], k + 1, w, made, j)
    ensures k + ReadOf(lens, start, j) == k + 1 + ReadOf(lens[1..], start + lens[0], j)
  {
  }

  /** A row already read is only touched again when the device is declared lost. */
  lemma {:induction false} RowDone(t: Table, lens: seq<nat>, start: nat, k: nat, p: seq<u16>, fails: nat,
                                   track: bool, w: World, j: nat)
    requires Laid(t, start, lens) && j < start <= |t| && |p| == POOL_SIZE && DistinctSlots(t) && InPool(t)
    ensures var s := ScanFrom(t, lens, start, k, p, fails, track, w);
      s.pool[t[j].pool] == if track && !s.ok then LOST else p[t[j].pool]
    decreases lens
  {
    if lens != [] {
      var next := start + lens[0];
      var g := Segment(t, start, lens[0], k, p, fails, track, w);
      LaidWithin(t, next, lens[1..]);
      if g.go {
        SegmentSlot(t, start, lens[0], k, p, fails, track, w, j);
        RowDone(t, lens[1..], next, k + 1, g.pool, g.fails, track, w, j);
      } else {
        RefreshedSlots(t, p, _ => LOST);
      }
    }
  }

  /** One segment moves the slots of its own rows, and those only if it was answered. */
  lemma SegmentSlot(t: Table, start: nat, len: nat, k: nat, p: seq<u16>, fails: nat, track: bool, w: World, j: nat)
    requires start + len <= |t| && j < |t| && |p| == POOL_SIZE && DistinctSlots(t) && InPool(t)
    requires Segment(t, start, len, k, p, fails, track, w).go
    ensures Segment(t, start, len, k, p, fails, track, w).pool[t[j].pool] ==
      if start <= j < start + len && Answered(w, k, len) then w.value(k, t[j].device) else p[t[j].pool]
  {
    var rows := t[start..start + len];
    RefreshedSlots(rows, p, At(w, k));
    if start <= j < start + len {
      assert rows[j - start] == t[j];
    } else {
      SlotNotIn(t, start, start + len, j);
    }
  }

  lemma SlotNotIn(t: Table, lo: nat, hi: nat, j: nat)
    requires lo <= hi <= |t| && j < |t| && !(lo <= j < hi) && DistinctSlots(t)
    ensures !Uses(t[lo..hi], t[j].pool)
  {
  }

  // ---------------------------------------------------------------- a reply that fills nothing

  /**
   A read call that reports success without filling the buffer, as the TCP client does on an exception
   numbered 0, makes the scan store what the buffer held before. The pool then shows the device's registers
   exactly if the buffer happened to hold them.
   */
  lemma UnfilledBufferExactly(t: Table, p: seq<u16>, buf: seq<u16>, start: nat, f: u16 -> u16)
    requires Ascending(t) && DistinctSlots(t) && InPool(t) && |p| == POOL_SIZE
    requires buf != [] && Consecutive(t, start, |buf|)
    ensures Stored(t, p, buf, t[start].device) == Refreshed(t[start..start + |buf|], p, f) <==> Carries(buf, t, start, f)
  {
    var g := FromBuffer(buf, t[start].device);
    assert Carries(buf, t, start, g);
    CopySegment(t, p, buf, start, g);
    if Carries(buf, t, start, f) {
      CopySegment(t, p, buf, start, f);
    } else {
      RefreshTells(t, p, buf, start, f, g);
    }
  }

  /** The registers as a buffer has them, from a first address on. */
  function FromBuffer(buf: seq<u16>, first: u16): u16 -> u16 {
    a => if 0 <= a - first < |buf| then buf[a - first] else 0
  }

  lemma RefreshTells(t: Table, p: seq<u16>, buf: seq<u16>, start: nat, f: u16 -> u16, g: u16 -> u16)
    requires DistinctSlots(t) && InPool(t) && |p| == POOL_SIZE && Carries(buf, t, start, g)
    requires start + |buf| <= |t| && !Carries(buf, t, start, f)
    ensures Refreshed(t[start..start + |buf|], p, g) != Refreshed(t[start..start + |buf|], p, f)
  {
    var rows := t[start..start + |buf|];
    var i :| 0 <= i < |buf| && buf[i] != f(t[start + i].device);
    assert rows[i] == t[start + i];
    assert DistinctSlots(rows) && InPool(rows);
    RowShows(rows, p, f, i);
    RowShows(rows, p, g, i);
  }

  lemma RowShows(rows: Table, p: seq<u16>, f: u16 -> u16, i: nat)
    requires |p| == POOL_SIZE && DistinctSlots(rows) && InPool(rows) && i < |rows|
    ensures Refreshed(rows, p, f)[rows[i].pool] == f(rows[i].device)
  {
    RefreshedSlots(rows, p, f);
  }

  /** What earlier reads of the scan left at a place of the buffer. */
  function LeftThere(x: Device, t: Table, lens: seq<nat>, n: nat, i: nat): u16
    requires n < |lens|
  {
    match LastFilled(x, lens, n, i)
    case None => 0
    case Some(k) => x.register(k, Onward(FirstOf(t, lens, k), i))
  }

  /** What a row shows after its read: the register, or whatever an earlier read of the scan left in its place. */
  function RowHolds(x: Device, t: Table, lens: seq<nat>, n: nat, i: nat, a: u16): u16
    requires n < |lens|
  {
    if x.reply(n).Filled? then x.register(n, a) else LeftThere(x, t, lens, n, i)
  }

  /**
   Row by row, after a scan by any device over any transport: 0xFFFF if it declared the device lost; what it had
   if its segment was not read, or the read failed; its register if the read filled the buffer; and otherwise
   what the last read of this scan that reached so far into the buffer left there, or 0 if there was none.
   */
  lemma RowOutcomeOnDevice(x: Device, rtu: bool, t: Table, chunk: nat, p: seq<u16>, fails: nat, track: bool, j: nat)
    requires Ascending(t) && DistinctSlots(t) && InPool(t) && |p| == POOL_SIZE && j < |t|
    ensures var lens, s := Segments(t, chunk, 0), ScanProfile(t, chunk, p, fails, track, Seen(x, rtu, t, chunk));
      var n := ReadOf(lens, 0, j);
      && n < |lens| && StartOf(lens, n) <= j < StartOf(lens, n) + lens[n]
      && s.pool[t[j].pool] ==
           if track && !s.ok then 0xFFFF
           else if n >= |s.heard| || lens[n] > 125 then p[t[j].pool]
           else
             match x.reply(n)
             case Failed => p[t[j].pool]
             case Filled => x.register(n, t[j].device)
             case Unfilled => if rtu then p[t[j].pool] else LeftThere(x, t, lens, n, j - StartOf(lens, n))
  {
    var lens := Segments(t, chunk, 0);
    SegmentsLaid(t, chunk, 0);
    SegmentsCover(t, chunk, 0);
    assert lens[0..] == lens;
    ReadOfWhere(t, chunk, lens, 0, lens, 0, j);
    RowOutcomeSeen(x, rtu, t, lens, ReadOf(lens, 0, j), p, fails, track, j);
  }

  lemma RowOutcomeSeen(x: Device, rtu: bool, t: Table, lens: seq<nat>, n: nat, p: seq<u16>, fails: nat, track: bool, j: nat)
    requires Laid(t, 0, lens) && DistinctSlots(t) && InPool(t) && |p| == POOL_SIZE && j < |t|
    requires n == ReadOf(lens, 0, j) < |lens| && StartOf(lens, n) <= j < StartOf(lens, n) + lens[n]
    requires t[j].device == FirstOf(t, lens, n) + (j - StartOf(lens, n))
    ensures var s := ScanFrom(t, lens, 0, 0, p, fails, track, SeenBy(x, rtu, t, lens));
      s.pool[t[j].pool] ==
        if track && !s.ok then LOST
        else if n < |s.heard| && lens[n] <= MAX_READ && Succeeds(x, rtu, n)
        then RowHolds(x, t, lens, n, j - StartOf(lens, n), t[j].device)
        else p[t[j].pool]
  {
    var w := SeenBy(x, rtu, t, lens);
    RowOutcome(t, lens, 0, 0, p, fails, track, w, j);
    if lens[n] <= MAX_READ {
      DeviceShows(x, rtu, t, lens, n, j - StartOf(lens, n), t[j].device);
    }
  }

  lemma DeviceShows(x: Device, rtu: bool, t: Table, lens: seq<nat>, n: nat, i: nat, a: u16)
    requires n < |lens| && i < MAX_READ && a == FirstOf(t, lens, n) + i
    ensures SeenBy(x, rtu, t, lens).value(n, a) == RowHolds(x, t, lens, n, i, a)
  {
    BufferHolds(x, t, lens, n, i);
    assert SeenBy(x, rtu, t, lens).value(n, a) == Shows(x, t, lens, n, a);
  }

  lemma {:induction false} HeardAre(t: Table, lens: seq<nat>, start: nat, k: nat, p: seq<u16>, fails: nat, track: bool, w: World,
                                    n: nat)
    requires Laid(t, start, lens) && n < |ScanFrom(t, lens, start, k, p, fails, track, w).heard|
    ensures n < |lens| && (ScanFrom(t, lens, start, k, p, fails, track, w).heard[n] <==> Answered(w, k + n, lens[n]))
    decreases lens
  {
    var g := Segment(t, start, lens[0], k, p, fails, track, w);
    if n > 0 {
      HeardAre(t, lens[1..], start + lens[0], k + 1, g.pool, g.fails, track, w, n - 1);
    }
  }

  /**
   Which reads of a scan by a device succeed: those of at most 125 registers that fill the buffer, and on TCP
   also those that report success without.
   */
  lemma HeardOnDevice(x: Device, rtu: bool, t: Table, chunk: nat, p: seq<u16>, fails: nat, track: bool, n: nat)
    requires n < |ScanProfile(t, chunk, p, fails, track, Seen(x, rtu, t, chunk)).heard|
    ensures n < |Segments(t, chunk, 0)|
    ensures ScanProfile(t, chunk, p, fails, track, Seen(x, rtu, t, chunk)).heard[n] <==>
      Segments(t, chunk, 0)[n] <= 125 && (x.reply(n) == Filled || (x.reply(n) == Unfilled && !rtu))
  {
    SegmentsLaid(t, chunk, 0);
    HeardAre(t, Segments(t, chunk, 0), 0, 0, p, fails, track, Seen(x, rtu, t, chunk), n);
  }

  /**
   A device that fills every read, with registers standing still at f: over RTU and over TCP, tracked or not, the
   scan succeeds and makes every read; each row's slot then holds its register, and no other slot has moved.
   */
  lemma FilledScan(x: Device, rtu: bool, t: Table, chunk: nat, p: seq<u16>, fails: nat, track: bool, f: u16 -> u16)
    requires (forall n :: x.reply(n) == Filled) && (forall n, a :: x.register(n, a) == f(a))
    requires chunk <= 125 && DistinctSlots(t) && InPool(t) && |p| == POOL_SIZE
    ensures var s := ScanProfile(t, chunk, p, fails, track, Seen(x, rtu, t, chunk));
      && s.ok && s.pool == Refreshed(t, p, f)
      && (forall i :: 0 <= i < |t| ==> s.pool[t[i].pool] == f(t[i].device))
      && (forall a :: 0 <= a < |p| && !Uses(t, a) ==> s.pool[a] == p[a])
      && s.fails == if track && t != [] then 0 else fails
  {
    var w := Seen(x, rtu, t, chunk);
    forall n, a ensures w.value(n, a) == f(a) {
      assert w.value(n, a) == Shows(x, t, Segments(t, chunk, 0), n, a);
    }
    FullScanSlots(t, chunk, p, fails, track, w, f);
    SegmentsLaid(t, chunk, 0);
    SegmentsShortEnough(t, chunk, 0);
    FullScanIsNaiveRefresh(t, Segments(t, chunk, 0), 0, 0, p, fails, track, w, f);
  }

  /**
   A device that answers nothing: the tracked scan goes on, storing nothing, until five reads in a row have
   failed, those of earlier scans included; then every row reads 0xFFFF.
   */
  lemma {:induction false} SilentScan(x: Device, rtu: bool, t: Table, lens: seq<nat>, start: nat, k: nat, all: seq<nat>,
                                      p: seq<u16>, fails: nat)
    requires (forall n :: x.reply(n) == Failed) && Laid(t, start, lens) && fails < 5
    requires |p| == POOL_SIZE && DistinctSlots(t) && InPool(t)
    ensures var s := ScanFrom(t, lens, start, k, p, fails, true, SeenBy(x, rtu, t, all));
      if fails + |lens| < 5 then s.ok && s.pool == p && s.fails == fails + |lens|
      else !s.ok && s.fails == 5 && |s.heard| == 5 - fails && forall i :: 0 <= i < |t| ==> s.pool[t[i].pool] == 0xFFFF
    decreases lens
  {
    if lens != [] {
      if fails < 4 {
        SilentScan(x, rtu, t, lens[1..], start + lens[0], k + 1, all, p, fails + 1);
      } else {
        RefreshedSlots(t, p, _ => LOST);
      }
    }
  }

  /** The read that covers a row, and where in it the row is. */
  lemma {:induction false} ReadOfWhere(t: Table, chunk: nat, lens: seq<nat>, start: nat, all: seq<nat>, k: nat, j: nat)
    requires Covering(t, chunk, start, lens) && start <= j < |t|
    requires k <= |all| && lens == all[k..] && start == StartOf(all, k)
    ensures var n := k + ReadOf(lens, start, j);
      && n < |all| && StartOf(all, n) <= j < StartOf(all, n) + all[n]
      && t[j].device == FirstOf(t, all, n) + (j - StartOf(all, n))
    decreases lens
  {
    assert lens != [];
    if j >= start + lens[0] {
      assert all[k..][1..] == all[k + 1..];
      ReadOfWhere(t, chunk, lens[1..], start + lens[0], all, k + 1, j);
    } else {
      assert Consecutive(t, start, lens[0]);
    }
  }

  // ---------------------------------------------------------------- the failure count

  /** The run of failures at the end of a history, starting from a run of f. */
  function Trailing(f: nat, heard: seq<bool>): nat
    decreases heard
  {
    if heard == [] then f else Trailing(if heard[0] then 0 else f + 1, heard[1..])
  }

  /** comm_fail_count is the number of tracked reads that failed since the last one that succeeded. */
  lemma {:induction false} CountIsTrailingFailures(t: Table, lens: seq<nat>, start: nat, k: nat, p: seq<u16>, fails: nat, w: World)
    requires Laid(t, start, lens)
    ensures var s := ScanFrom(t, lens, start, k, p, fails, true, w);
      s.fails == Trailing(fails, s.heard)
    decreases lens
  {
    if lens != [] {
      var g := Segment(t, start, lens[0], k, p, fails, true, w);
      if g.go {
        CountIsTrailingFailures(t, lens[1..], start + lens[0], k + 1, g.pool, g.fails, w);
      } else {
        assert Trailing(fails, [false]) == Trailing(fails + 1, []);
      }
    }
  }

  /**
   A tracked scan fails exactly when the count reaches 5, and then the whole profile reads 0xFFFF; while it
   succeeds the count stays below 5.
   */
  lemma {:induction false} FailsExactlyAtThreshold(t: Table, lens: seq<nat>, start: nat, k: nat, p: seq<u16>, fails: nat, w: World)
    requires Laid(t, start, lens) && fails < 5 && |p| == POOL_SIZE && DistinctSlots(t) && InPool(t)
    ensures var s := ScanFrom(t, lens, start, k, p, fails, true, w);
      && (s.ok <==> s.fails < 5)
      && (!s.ok ==> s.fails == 5 && forall i :: 0 <= i < |t| ==> s.pool[t[i].pool] == 0xFFFF)
    decreases lens
  {
    if lens != [] {
      var g := Segment(t, start, lens[0], k, p, fails, true, w);
      if g.go {
        FailsExactlyAtThreshold(t, lens[1..], start + lens[0], k + 1, g.pool, g.fails, w);
      } else {
        RefreshedSlots(t, p, _ => LOST);
      }
    }
  }

  /** An untracked scan never touches the count, and succeeds exactly when every segment is answered. */
  lemma {:induction false} UntrackedScan(t: Table, lens: seq<nat>, start: nat, k: nat, p: seq<u16>, fails: nat, w: World)
    requires Laid(t, start, lens)
    ensures var s := ScanFrom(t, lens, start, k, p, fails, false, w);
      && s.fails == fails
      && (s.ok <==> forall i :: 0 <= i < |lens| ==> Answered(w, k + i, lens[i]))
    decreases lens
  {
    if lens != [] {
      var g := Segment(t, start, lens[0], k, p, fails, false, w);
      if g.go {
        UntrackedScan(t, lens[1..], start + lens[0], k + 1, g.pool, g.fails, w);
        var s := ScanFrom(t, lens[1..], start + lens[0], k + 1, g.pool, g.fails, false, w);
        forall i | 0 <= i < |lens| && s.ok ensures Answered(w, k + i, lens[i]) {
          if i > 0 {
            assert Answered(w, k + 1 + (i - 1), lens[1..][i - 1]);
          }
        }
        if !s.ok {
          var i :| 0 <= i < |lens| - 1 && !Answered(w, k + 1 + i, lens[1..][i]);
          assert !Answered(w, k + (i + 1), lens[i + 1]);
        }
      } else {
        assert !Answered(w, k + 0, lens[0]);
      }
    }
  }
}
