/**
 Who writes where in the shared pool. The registry keeps tables apart; so whatever the units do, in any
 interleaving of their threads, no unit touches a slot of another and nobody touches the rest of the pool.
 */
module PoolOwnership {
  import opened Words
  import opened RegisterMap
  import opened ProfileScan
  import opened UnitLifecycle
  import opened ScanGuarantees

  // ---------------------------------------------------------------- the two profiles of the daemon

  /** Rows whose device and pool addresses both count up by one. */
  datatype Run = Run(device: nat, pool: nat, len: nat)

  predicate Fits(r: Run) {
    r.device + r.len <= 0x1_0000 && r.pool + r.len <= POOL_SIZE
  }

  predicate Covers(r: Run, slot: nat) {
    r.pool <= slot < r.pool + r.len
  }

  /** b comes after a in the table, and they share no pool slot. */
  predicate Before(a: Run, b: Run) {
    a.device + a.len <= b.device && (a.pool + a.len <= b.pool || b.pool + b.len <= a.pool)
  }

  predicate Tidy(runs: seq<Run>) {
    && (forall i :: 0 <= i < |runs| ==> Fits(runs[i]))
    && (forall i, j :: 0 <= i < j < |runs| ==> Before(runs[i], runs[j]))
  }

  function RowsOf(r: Run): Table
    requires Fits(r)
  {
    seq(r.len, i requires 0 <= i < r.len => Row(r.device + i, r.pool + i))
  }

  function Rows(runs: seq<Run>): Table
    requires Tidy(runs)
  {
    if runs == [] then [] else RowsOf(runs[0]) + Rows(runs[1..])
  }

  /** Every row of a table of runs comes from one of its runs. */
  lemma {:induction false} RowsCome(runs: seq<Run>, k: nat) returns (i: nat)
    requires Tidy(runs) && k < |Rows(runs)|
    ensures i < |runs| && Covers(runs[i], Rows(runs)[k].pool)
    ensures Rows(runs)[k].device - runs[i].device == Rows(runs)[k].pool - runs[i].pool
  {
    if k < runs[0].len {
      i := 0;
    } else {
      i := RowsCome(runs[1..], k - runs[0].len);
      i := i + 1;
    }
  }

  lemma {:induction false} TidyRows(runs: seq<Run>)
    requires Tidy(runs)
    ensures Ascending(Rows(runs)) && DistinctSlots(Rows(runs)) && InPool(Rows(runs))
  {
    if runs != [] {
      TidyRows(runs[1..]);
      var t, n := Rows(runs), runs[0].len;
      forall i, j | 0 <= i < j < |t| ensures t[i].device < t[j].device && t[i].pool != t[j].pool {
        if i >= n {
          assert t[i] == Rows(runs[1..])[i - n] && t[j] == Rows(runs[1..])[j - n];
        } else if j >= n {
          var r := RowsCome(runs[1..], j - n);
          assert Before(runs[0], runs[1..][r]);
        }
      }
    }
  }

  const INVERTER_RUNS: seq<Run> := [
    Run(0x0006, 0xA000, 1), Run(0x0014, 0xA100, 2), Run(0x010A, 0xA102, 4), Run(0x0118, 0xA10E, 4),
    Run(0x0900, 0xA106, 5), Run(0x0D00, 0xA112, 1), Run(0x2000, 0xA10B, 3), Run(0x2100, 0xA002, 6),
    Run(0x210C, 0xA008, 1), Run(0x220A, 0xA009, 1)
  ]

  const UPS_RUNS: seq<Run> := [
    Run(0x0000, 0xA200, 4), Run(0x00BC, 0xA204, 6), Run(0x00C3, 0xA20A, 1), Run(0x00CB, 0xA20B, 6),
    Run(0x00DE, 0xA211, 3), Run(0x02A2, 0xA214, 1), Run(0x0364, 0xA215, 1), Run(0x036A, 0xA216, 1),
    Run(0x03E1, 0xA217, 10), Run(0x0403, 0xA221, 10), Run(0x0412, 0xA22B, 5), Run(0x05B0, 0xA230, 1)
  ]

  lemma InverterFits()
    ensures forall i :: 0 <= i < |INVERTER_RUNS| ==> Fits(INVERTER_RUNS[i])
    ensures forall i :: 0 < i < |INVERTER_RUNS| ==>
      INVERTER_RUNS[i - 1].device + INVERTER_RUNS[i - 1].len <= INVERTER_RUNS[i].device
  {
  }

  lemma InverterSlots()
    ensures forall i, j :: 0 <= i < j < |INVERTER_RUNS| ==>
      INVERTER_RUNS[i].pool + INVERTER_RUNS[i].len <= INVERTER_RUNS[j].pool ||
      INVERTER_RUNS[j].pool + INVERTER_RUNS[j].len <= INVERTER_RUNS[i].pool
  {
  }

  lemma {:induction false} DevicesClimb(runs: seq<Run>, i: nat, j: nat)
    requires forall k :: 0 < k < |runs| ==> runs[k - 1].device + runs[k - 1].len <= runs[k].device
    requires i < j < |runs|
    ensures runs[i].device + runs[i].len <= runs[j].device
  {
    if i < j - 1 {
      DevicesClimb(runs, i, j - 1);
    }
  }

  lemma InverterTidy()
    ensures Tidy(INVERTER_RUNS)
  {
    InverterFits();
    InverterSlots();
    ClimbersAreTidy(INVERTER_RUNS);
  }

  lemma ClimbersAreTidy(runs: seq<Run>)
    requires forall i :: 0 <= i < |runs| ==> Fits(runs[i])
    requires forall i :: 0 < i < |runs| ==> runs[i - 1].device + runs[i - 1].len <= runs[i].device
    requires forall i, j :: 0 <= i < j < |runs| ==>
      runs[i].pool + runs[i].len <= runs[j].pool || runs[j].pool + runs[j].len <= runs[i].pool
    ensures Tidy(runs)
  {
    forall i, j | 0 <= i < j < |runs| ensures Before(runs[i], runs[j]) {
      DevicesClimb(runs, i, j);
    }
  }

  lemma UpsClimbs()
    ensures Climbing(UPS_RUNS)
  {
  }

  lemma UpsTidy()
    ensures Tidy(UPS_RUNS)
  {
    UpsClimbs();
    AllTidy(UPS_RUNS);
  }

  lemma AllTidy(runs: seq<Run>)
    requires Climbing(runs)
    ensures Tidy(runs)
  {
    forall i, j | 0 <= i < j < |runs| ensures Before(runs[i], runs[j]) {
      ClimbingIsTidy(runs, i, j);
    }
  }

  /** Each run lies behind its predecessor, in the device and in the pool. */
  predicate Climbing(runs: seq<Run>) {
    && (forall i :: 0 <= i < |runs| ==> Fits(runs[i]))
    && (forall i :: 0 < i < |runs| ==> Behind(runs[i - 1], runs[i]))
  }

  predicate Behind(a: Run, b: Run) {
    a.device + a.len <= b.device && a.pool + a.len <= b.pool
  }

  lemma {:induction false} ClimbingIsTidy(runs: seq<Run>, i: nat, j: nat)
    requires Climbing(runs) && i < j < |runs|
    ensures Behind(runs[i], runs[j])
  {
    assert Behind(runs[j - 1], runs[j]);
    if i < j - 1 {
      ClimbingIsTidy(runs, i, j - 1);
    }
  }

  function Inverter(): Profile {
    InverterTidy();
    Profile(Rows(INVERTER_RUNS), 20, 0xA0F0, 0xA0F1)
  }

  function Ups(): Profile {
    UpsTidy();
    Profile(Rows(UPS_RUNS), 50, 0xA2F0, 0xA2F1)
  }

  /** A slot that belongs to a unit: one of its rows, its flag or its status. */
  predicate Owns(f: Profile, slot: u16) {
    Uses(f.table, slot) || slot == f.flag || slot == f.status
  }

  /** No slot is owned twice. */
  ghost predicate Apart(f: Profile, g: Profile) {
    forall slot: u16 :: Owns(f, slot) ==> !Owns(g, slot)
  }

  /** Every run lies in one of two pool ranges. */
  predicate Within(runs: seq<Run>, lo: nat, hi: nat, lo': nat, hi': nat) {
    forall i :: 0 <= i < |runs| ==>
      (lo <= runs[i].pool && runs[i].pool + runs[i].len <= hi) || (lo' <= runs[i].pool && runs[i].pool + runs[i].len <= hi')
  }

  lemma RangesHold()
    ensures Within(INVERTER_RUNS, 0xA000, 0xA00A, 0xA100, 0xA113)
    ensures Within(UPS_RUNS, 0xA200, 0xA231, 0xA200, 0xA231)
  {
  }

  lemma SlotsWithin(runs: seq<Run>, lo: nat, hi: nat, lo': nat, hi': nat, slot: u16)
    requires Tidy(runs) && Within(runs, lo, hi, lo', hi') && Uses(Rows(runs), slot)
    ensures lo <= slot < hi || lo' <= slot < hi'
  {
    var k :| 0 <= k < |Rows(runs)| && Rows(runs)[k].pool == slot;
    var i := RowsCome(runs, k);
  }

  /** The inverter's and the UPS's profiles are fit for the scan, and the two own nothing in common. */
  lemma DaemonProfiles()
    ensures Usable(Inverter()) && Usable(Ups()) && Apart(Inverter(), Ups())
  {
    InverterTidy();
    UpsTidy();
    TidyRows(INVERTER_RUNS);
    TidyRows(UPS_RUNS);
    RangesHold();
    forall slot: u16 | Uses(Inverter().table, slot) ensures 0xA000 <= slot < 0xA00A || 0xA100 <= slot < 0xA113 {
      SlotsWithin(INVERTER_RUNS, 0xA000, 0xA00A, 0xA100, 0xA113, slot);
    }
    forall slot: u16 | Uses(Ups().table, slot) ensures 0xA200 <= slot < 0xA231 {
      SlotsWithin(UPS_RUNS, 0xA200, 0xA231, 0xA200, 0xA231, slot);
    }
  }

  lemma {:induction false} RowIn(runs: seq<Run>, r: nat, i: nat)
    requires Tidy(runs) && r < |runs| && i < runs[r].len
    ensures Row(runs[r].device + i, runs[r].pool + i) in Rows(runs)
    decreases r
  {
    if r == 0 {
      assert RowsOf(runs[0])[i] == Row(runs[0].device + i, runs[0].pool + i);
    } else {
      RowIn(runs[1..], r - 1, i);
    }
  }

  lemma InverterNamed(runs: seq<Run>)
    requires Tidy(runs) && |runs| == 10
    requires runs[2] == Run(0x010A, 0xA102, 4) && runs[6] == Run(0x2000, 0xA10B, 3) && runs[7] == Run(0x2100, 0xA002, 6)
    ensures Row(0x2000, 0xA10B) in Rows(runs) && Row(0x2001, 0xA10C) in Rows(runs) && Row(0x2002, 0xA10D) in Rows(runs)
    ensures Row(0x010A, 0xA102) in Rows(runs) && Row(0x010B, 0xA103) in Rows(runs) && Row(0x2103, 0xA005) in Rows(runs)
  {
    RowIn(runs, 6, 0);
    RowIn(runs, 6, 1);
    RowIn(runs, 6, 2);
    RowIn(runs, 2, 0);
    RowIn(runs, 2, 1);
    RowIn(runs, 7, 3);
  }

  lemma UpsNamed(runs: seq<Run>)
    requires Tidy(runs) && |runs| == 12 && runs[1] == Run(0x00BC, 0xA204, 6) && runs[3] == Run(0x00CB, 0xA20B, 6)
    ensures Row(0x00BF, 0xA207) in Rows(runs) && Row(0x00D0, 0xA210) in Rows(runs)
  {
    RowIn(runs, 1, 3);
    RowIn(runs, 3, 5);
  }

  /** Rows the inverter's bridge goes by: operation, frequency and fault control command, limits, output frequency. */
  lemma NamedInverterRows()
    ensures var t := Inverter().table;
      && Row(0x2000, 0xA10B) in t && Row(0x2001, 0xA10C) in t && Row(0x2002, 0xA10D) in t
      && Row(0x010A, 0xA102) in t && Row(0x010B, 0xA103) in t && Row(0x2103, 0xA005) in t
  {
    InverterTidy();
    InverterNamed(INVERTER_RUNS);
  }

  /** Battery capacity and mode of the UPS. */
  lemma NamedUpsRows()
    ensures Row(0x00BF, 0xA207) in Ups().table && Row(0x00D0, 0xA210) in Ups().table
  {
    UpsTidy();
    UpsNamed(UPS_RUNS);
  }

  // ---------------------------------------------------------------- the reads of their scans

  function Lens(runs: seq<Run>): seq<nat> {
    if runs == [] then [] else [runs[0].len] + Lens(runs[1..])
  }

  /** Runs short enough for one read, with a gap in the device addresses before each but the first. */
  predicate Spaced(runs: seq<Run>, chunk: nat) {
    && (forall i :: 0 <= i < |runs| ==> 1 <= runs[i].len <= chunk)
    && (forall i :: 0 < i < |runs| ==> runs[i - 1].device + runs[i - 1].len < runs[i].device)
  }

  lemma FirstRun(t: Table, chunk: nat, runs: seq<Run>, start: nat)
    requires Tidy(runs) && Spaced(runs, chunk) && runs != [] && start <= |t| && t[start..] == Rows(runs)
    ensures GoodSegment(t, chunk, start, runs[0].len) && t[start + runs[0].len..] == Rows(runs[1..])
  {
    var len := runs[0].len;
    forall j | start <= j < start + len ensures t[j].device == runs[0].device + (j - start) {
      assert t[j] == Rows(runs)[j - start] == RowsOf(runs[0])[j - start];
    }
    assert t[start + len..] == t[start..][len..] == Rows(runs[1..]);
    if |runs| > 1 {
      assert t[start + len] == Rows(runs[1..])[0] == RowsOf(runs[1..][0])[0];
    }
  }

  lemma OtherRuns(runs: seq<Run>, chunk: nat)
    requires Tidy(runs) && Spaced(runs, chunk) && runs != []
    ensures Tidy(runs[1..]) && Spaced(runs[1..], chunk)
  {
    var rest := runs[1..];
    forall i | 0 < i < |rest| ensures rest[i - 1].device + rest[i - 1].len < rest[i].device {
      assert rest[i - 1] == runs[i] && rest[i] == runs[i + 1];
    }
  }

  lemma {:induction false} RunsCover(t: Table, chunk: nat, runs: seq<Run>, start: nat)
    requires Tidy(runs) && Spaced(runs, chunk) && start <= |t| && t[start..] == Rows(runs)
    ensures Covering(t, chunk, start, Lens(runs))
    decreases runs
  {
    if runs != [] {
      FirstRun(t, chunk, runs, start);
      OtherRuns(runs, chunk);
      RunsCover(t, chunk, runs[1..], start + runs[0].len);
      CoversFirst(t, chunk, runs, start, Lens(runs[1..]));
    }
  }

  lemma CoversFirst(t: Table, chunk: nat, runs: seq<Run>, start: nat, rest: seq<nat>)
    requires runs != [] && GoodSegment(t, chunk, start, runs[0].len)
    requires rest == Lens(runs[1..]) && Covering(t, chunk, start + runs[0].len, rest)
    ensures Covering(t, chunk, start, Lens(runs))
  {
    CoveringMore(t, chunk, start, runs[0].len, rest);
  }

  lemma RunsAreSegments(runs: seq<Run>, chunk: nat)
    requires Tidy(runs) && Spaced(runs, chunk)
    ensures Segments(Rows(runs), chunk, 0) == Lens(runs)
  {
    assert Rows(runs)[0..] == Rows(runs);
    RunsCover(Rows(runs), chunk, runs, 0);
    SegmentsCover(Rows(runs), chunk, 0);
    CoveringUnique(Rows(runs), chunk, 0, Segments(Rows(runs), chunk, 0), Lens(runs));
  }

  lemma {:induction false} LensLength(runs: seq<Run>)
    ensures |Lens(runs)| == |runs|
  {
    if runs != [] {
      LensLength(runs[1..]);
    }
  }

  lemma InverterSpaced()
    ensures Spaced(INVERTER_RUNS, 20)
  {
  }

  lemma UpsSpaced()
    ensures Spaced(UPS_RUNS, 50)
  {
  }

  lemma ReadsPerRun(runs: seq<Run>, chunk: nat, n: nat)
    requires Tidy(runs) && Spaced(runs, chunk) && |runs| == n
    ensures |Segments(Rows(runs), chunk, 0)| == n
  {
    RunsAreSegments(runs, chunk);
    LensLength(runs);
  }

  /** A scan of the inverter is ten reads, one of the UPS twelve: as many as their tables have runs of addresses. */
  lemma DaemonReads()
    ensures |Segments(Inverter().table, Inverter().chunk, 0)| == 10
    ensures |Segments(Ups().table, Ups().chunk, 0)| == 12
  {
    InverterTidy();
    UpsTidy();
    InverterSpaced();
    UpsSpaced();
    ReadsPerRun(INVERTER_RUNS, 20, 10);
    ReadsPerRun(UPS_RUNS, 50, 12);
  }

  // ---------------------------------------------------------------- single writes

  /** One pool_write_register of one unit. */
  datatype PoolWrite = PoolWrite(unit: nat, slot: u16, value: u16)

  function Applied(p: seq<u16>, ws: seq<PoolWrite>): (r: seq<u16>)
    ensures |r| == |p|
    decreases ws
  {
    if ws == [] then p else Applied(Put(p, ws[0].slot, ws[0].value), ws[1..])
  }

  lemma {:induction false} AppliedConcat(p: seq<u16>, a: seq<PoolWrite>, b: seq<PoolWrite>)
    ensures Applied(p, a + b) == Applied(Applied(p, a), b)
    decreases a
  {
    if a == [] {
      assert a + b == b;
    } else {
      assert (a + b)[1..] == a[1..] + b;
      AppliedConcat(Put(p, a[0].slot, a[0].value), a[1..], b);
    }
  }

  /** The writes of one unit, all to slots of a profile. */
  predicate AtHome(ws: seq<PoolWrite>, f: Profile, unit: nat) {
    forall n :: 0 <= n < |ws| ==> ws[n].unit == unit && Owns(f, ws[n].slot)
  }

  /** The copy loop over some rows, and the 0xFFFF loop. */
  function RowWrites(rows: Table, value: u16 -> u16, unit: nat): seq<PoolWrite> {
    if rows == [] then []
    else
      var n := |rows| - 1;
      RowWrites(rows[..n], value, unit) + [PoolWrite(unit, rows[n].pool, value(rows[n].device))]
  }

  lemma {:induction false} RowWritesRefresh(p: seq<u16>, rows: Table, value: u16 -> u16, unit: nat)
    ensures Applied(p, RowWrites(rows, value, unit)) == Refreshed(rows, p, value)
  {
    if rows != [] {
      var n := |rows| - 1;
      var last := [PoolWrite(unit, rows[n].pool, value(rows[n].device))];
      RowWritesRefresh(p, rows[..n], value, unit);
      AppliedConcat(p, RowWrites(rows[..n], value, unit), last);
      AppliedOne(Refreshed(rows[..n], p, value), last[0]);
    }
  }

  lemma AppliedOne(p: seq<u16>, w: PoolWrite)
    ensures Applied(p, [w]) == Put(p, w.slot, w.value)
  {
    assert Applied(Put(p, w.slot, w.value), [w][1..]) == Put(p, w.slot, w.value);
  }

  lemma {:induction false} RowWritesAtHome(rows: Table, value: u16 -> u16, unit: nat, f: Profile)
    requires forall i :: 0 <= i < |rows| ==> Owns(f, rows[i].pool)
    ensures AtHome(RowWrites(rows, value, unit), f, unit)
  {
    if rows != [] {
      RowWritesAtHome(rows[..|rows| - 1], value, unit, f);
    }
  }

  /** The writes of one segment: its rows when it is answered, the whole profile when the device is lost. */
  function SegmentWrites(t: Table, start: nat, len: nat, k: nat, fails: nat, track: bool, w: World, unit: nat): seq<PoolWrite>
    requires start + len <= |t|
  {
    if Answered(w, k, len) then RowWrites(t[start..start + len], At(w, k), unit)
    else if track && fails + 1 >= THRESHOLD then RowWrites(t, _ => LOST, unit)
    else []
  }

  /** The writes of a scan. What it writes does not depend on the pool. */
  function ScanWrites(t: Table, lens: seq<nat>, start: nat, k: nat, fails: nat, track: bool, w: World, unit: nat): seq<PoolWrite>
    requires Laid(t, start, lens)
    decreases lens
  {
    if lens == [] then []
    else
      var g := Segment(t, start, lens[0], k, [], fails, track, w);
      SegmentWrites(t, start, lens[0], k, fails, track, w, unit) +
      if g.go then ScanWrites(t, lens[1..], start + lens[0], k + 1, g.fails, track, w, unit) else []
  }

  lemma SegmentWritesAre(p: seq<u16>, t: Table, start: nat, len: nat, k: nat, fails: nat, track: bool, w: World, unit: nat)
    requires start + len <= |t|
    ensures var g := Segment(t, start, len, k, p, fails, track, w);
      && Applied(p, SegmentWrites(t, start, len, k, fails, track, w, unit)) == g.pool
      && g.go == Segment(t, start, len, k, [], fails, track, w).go
      && g.fails == Segment(t, start, len, k, [], fails, track, w).fails
  {
    RowWritesRefresh(p, t[start..start + len], At(w, k), unit);
    RowWritesRefresh(p, t, _ => LOST, unit);
  }

  lemma {:induction false} ScanWritesAre(p: seq<u16>, t: Table, lens: seq<nat>, start: nat, k: nat, fails: nat, track: bool,
                                         w: World, unit: nat)
    requires Laid(t, start, lens)
    ensures Applied(p, ScanWrites(t, lens, start, k, fails, track, w, unit)) ==
            ScanFrom(t, lens, start, k, p, fails, track, w).pool
    decreases lens
  {
    if lens != [] {
      var g := Segment(t, start, lens[0], k, p, fails, track, w);
      SegmentWritesAre(p, t, start, lens[0], k, fails, track, w, unit);
      if g.go {
        ScanWritesAre(g.pool, t, lens[1..], start + lens[0], k + 1, g.fails, track, w, unit);
      }
      LegWrites(p, t, lens, start, k, fails, track, w, unit);
    }
  }

  lemma LegWrites(p: seq<u16>, t: Table, lens: seq<nat>, start: nat, k: nat, fails: nat, track: bool, w: World, unit: nat)
    requires Laid(t, start, lens) && lens != []
    ensures var g := Segment(t, start, lens[0], k, p, fails, track, w);
      Applied(p, ScanWrites(t, lens, start, k, fails, track, w, unit)) ==
        if g.go then Applied(g.pool, ScanWrites(t, lens[1..], start + lens[0], k + 1, g.fails, track, w, unit)) else g.pool
  {
    var g := Segment(t, start, lens[0], k, p, fails, track, w);
    var first := SegmentWrites(t, start, lens[0], k, fails, track, w, unit);
    SegmentWritesAre(p, t, start, lens[0], k, fails, track, w, unit);
    AppliedConcat(p, first, if g.go then ScanWrites(t, lens[1..], start + lens[0], k + 1, g.fails, track, w, unit) else []);
  }

  lemma SegmentAtHome(f: Profile, start: nat, len: nat, k: nat, fails: nat, track: bool, w: World, unit: nat)
    requires start + len <= |f.table|
    ensures AtHome(SegmentWrites(f.table, start, len, k, fails, track, w, unit), f, unit)
  {
    forall i | 0 <= i < |f.table| ensures Owns(f, f.table[i].pool) {
      RowSlotUsed(f, i);
    }
    RowWritesAtHome(f.table[start..start + len], At(w, k), unit, f);
    RowWritesAtHome(f.table, _ => LOST, unit, f);
  }

  lemma {:induction false} ScanAtHome(f: Profile, lens: seq<nat>, start: nat, k: nat, fails: nat, track: bool, w: World, unit: nat)
    requires Laid(f.table, start, lens)
    ensures AtHome(ScanWrites(f.table, lens, start, k, fails, track, w, unit), f, unit)
    decreases lens
  {
    if lens != [] {
      var g := Segment(f.table, start, lens[0], k, [], fails, track, w);
      SegmentAtHome(f, start, lens[0], k, fails, track, w, unit);
      if g.go {
        ScanAtHome(f, lens[1..], start + lens[0], k + 1, g.fails, track, w, unit);
      }
    }
  }

  /** None of the writes goes to this slot. */
  predicate Spares(ws: seq<PoolWrite>, slot: u16) {
    forall n :: 0 <= n < |ws| ==> ws[n].slot != slot
  }

  lemma {:induction false} RowWritesSpare(rows: Table, value: u16 -> u16, unit: nat, slot: u16)
    requires !Uses(rows, slot)
    ensures Spares(RowWrites(rows, value, unit), slot)
  {
    if rows != [] {
      assert forall i :: 0 <= i < |rows| - 1 ==> rows[..|rows| - 1][i] == rows[i];
      RowWritesSpare(rows[..|rows| - 1], value, unit, slot);
    }
  }

  lemma {:induction false} ScanSpares(t: Table, lens: seq<nat>, start: nat, k: nat, fails: nat, track: bool, w: World, unit: nat,
                                      slot: u16)
    requires Laid(t, start, lens) && !Uses(t, slot)
    ensures Spares(ScanWrites(t, lens, start, k, fails, track, w, unit), slot)
    decreases lens
  {
    if lens != [] {
      var g := Segment(t, start, lens[0], k, [], fails, track, w);
      UsesPart(t, start, start + lens[0], slot);
      RowWritesSpare(t[start..start + lens[0]], At(w, k), unit, slot);
      RowWritesSpare(t, _ => LOST, unit, slot);
      if g.go {
        ScanSpares(t, lens[1..], start + lens[0], k + 1, g.fails, track, w, unit, slot);
      }
    }
  }

  /** Every write to the pool that one step of a unit makes, in order. */
  function StepWrites(f: Profile, s: State, e: Event, unit: nat): seq<PoolWrite> {
    SegmentsLaid(f.table, f.chunk, 0);
    var lens := Segments(f.table, f.chunk, 0);
    match e
    case Connect(ok) => if ok then [PoolWrite(unit, f.status, CONNECTED)] else []
    case InitWrites(ok) => Flagged(f, [], ok, unit)
    case InitScan(w) =>
      Flagged(f, ScanWrites(f.table, lens, 0, 0, s.fails, false, w, unit),
              ScanProfile(f.table, f.chunk, Put(s.pool, f.flag, 0), s.fails, false, w).ok, unit)
    case Poll(w) => ScanWrites(f.table, lens, 0, 0, s.fails, true, w, unit)
    case Error => [PoolWrite(unit, f.status, DISCONNECTED)]
    case Stop => []
    case Others(_) => []
  }

  /** An init sequence: clear the flag, do the work, set the flag if it went well. */
  function Flagged(f: Profile, work: seq<PoolWrite>, ok: bool, unit: nat): seq<PoolWrite> {
    [PoolWrite(unit, f.flag, 0)] + work + if ok then [PoolWrite(unit, f.flag, 1)] else []
  }

  lemma FlaggedApplied(p: seq<u16>, f: Profile, work: seq<PoolWrite>, ok: bool, unit: nat)
    ensures Applied(p, Flagged(f, work, ok, unit)) == FlagAfter(f, Applied(Put(p, f.flag, 0), work), ok)
  {
    var clear, set_ := PoolWrite(unit, f.flag, 0), PoolWrite(unit, f.flag, 1);
    AppliedOne(p, clear);
    AppliedConcat(p, [clear], work);
    var q := Applied(Put(p, f.flag, 0), work);
    AppliedOne(q, set_);
    AppliedConcat(p, [clear] + work, if ok then [set_] else []);
  }

  /** A step of a unit is its single writes, one after the other. */
  lemma StepWritesAre(f: Profile, s: State, e: Event, unit: nat)
    requires !e.Others?
    ensures Applied(s.pool, StepWrites(f, s, e, unit)) == Next(f, s, e).pool
  {
    SegmentsLaid(f.table, f.chunk, 0);
    var lens := Segments(f.table, f.chunk, 0);
    match e
    case Connect(ok) => AppliedOne(s.pool, PoolWrite(unit, f.status, CONNECTED));
    case InitWrites(ok) => FlaggedApplied(s.pool, f, [], ok, unit);
    case InitScan(w) => {
      var ok := ScanProfile(f.table, f.chunk, Put(s.pool, f.flag, 0), s.fails, false, w).ok;
      FlaggedApplied(s.pool, f, ScanWrites(f.table, lens, 0, 0, s.fails, false, w, unit), ok, unit);
      ScanWritesAre(Put(s.pool, f.flag, 0), f.table, lens, 0, 0, s.fails, false, w, unit);
    }
    case Poll(w) => ScanWritesAre(s.pool, f.table, lens, 0, 0, s.fails, true, w, unit);
    case Error => AppliedOne(s.pool, PoolWrite(unit, f.status, DISCONNECTED));
    case Stop =>
  }

  /** And all of them go to slots of its own. */
  lemma StepAtHome(f: Profile, s: State, e: Event, unit: nat)
    ensures AtHome(StepWrites(f, s, e, unit), f, unit)
  {
    SegmentsLaid(f.table, f.chunk, 0);
    var lens := Segments(f.table, f.chunk, 0);
    match e
    case InitScan(w) => ScanAtHome(f, lens, 0, 0, s.fails, false, w, unit);
    case Poll(w) => ScanAtHome(f, lens, 0, 0, s.fails, true, w, unit);
    case Connect(_) =>
    case InitWrites(_) =>
    case Error =>
    case Stop =>
    case Others(_) =>
  }

  // ---------------------------------------------------------------- single writes, interleaved

  function Only(ws: seq<PoolWrite>, unit: nat): seq<PoolWrite> {
    if ws == [] then []
    else if ws[0].unit == unit then [ws[0]] + Only(ws[1..], unit)
    else Only(ws[1..], unit)
  }

  ghost predicate AllApart(profiles: seq<Profile>) {
    forall i, j :: 0 <= i < |profiles| && 0 <= j < |profiles| && i != j ==> Apart(profiles[i], profiles[j])
  }

  /** Some writes, each of one of the units, and each unit's at home. */
  predicate Interleaved(ws: seq<PoolWrite>, profiles: seq<Profile>) {
    && (forall n :: 0 <= n < |ws| ==> ws[n].unit < |profiles|)
    && (forall i :: 0 <= i < |profiles| ==> AtHome(Only(ws, i), profiles[i], i))
  }

  lemma InterleavedRest(ws: seq<PoolWrite>, profiles: seq<Profile>)
    requires Interleaved(ws, profiles) && ws != []
    ensures Interleaved(ws[1..], profiles) && Owns(profiles[ws[0].unit], ws[0].slot)
  {
    forall i | 0 <= i < |profiles| ensures AtHome(Only(ws[1..], i), profiles[i], i) {
      if ws[0].unit == i {
        assert Only(ws, i)[1..] == Only(ws[1..], i);
      }
    }
    assert Only(ws, ws[0].unit)[0] == ws[0];
  }

  /**
   However finely the writes of several units are interleaved, a unit's slots end up as if it had been
   alone: q agrees with p on the slots of the unit, and sees only its writes.
   */
  lemma {:induction false} InterleavedIsSeparate(p: seq<u16>, q: seq<u16>, ws: seq<PoolWrite>, profiles: seq<Profile>,
                                                 unit: nat, slot: u16)
    requires |p| == |q| == POOL_SIZE && AllApart(profiles) && Interleaved(ws, profiles)
    requires unit < |profiles| && Owns(profiles[unit], slot) && slot < POOL_SIZE
    requires p[slot] == q[slot]
    ensures Applied(p, ws)[slot] == Applied(q, Only(ws, unit))[slot]
    decreases ws
  {
    if ws != [] {
      var w := ws[0];
      var p' := Put(p, w.slot, w.value);
      InterleavedRest(ws, profiles);
      if w.unit == unit {
        assert ([w] + Only(ws[1..], unit))[1..] == Only(ws[1..], unit);
        InterleavedIsSeparate(p', Put(q, w.slot, w.value), ws[1..], profiles, unit, slot);
      } else {
        assert Apart(profiles[w.unit], profiles[unit]);
        InterleavedIsSeparate(p', q, ws[1..], profiles, unit, slot);
      }
    }
  }

  /**
   Units that share a pool and each do one thing - scan, mark, connect, initialise - with their single writes
   interleaved in any way at all, each leave in their own slots what they would have left alone.
   */
  lemma {:induction false} InterleavedSteps(p: seq<u16>, profiles: seq<Profile>, before: seq<State>, doing: seq<Event>, ws: seq<PoolWrite>,
                         unit: nat, slot: u16)
    requires |p| == POOL_SIZE && AllApart(profiles) && |before| == |doing| == |profiles|
    requires forall i :: 0 <= i < |profiles| ==> before[i].pool == p && !doing[i].Others?
    requires forall n :: 0 <= n < |ws| ==> ws[n].unit < |profiles|
    requires forall i :: 0 <= i < |profiles| ==> Only(ws, i) == StepWrites(profiles[i], before[i], doing[i], i)
    requires unit < |profiles| && Owns(profiles[unit], slot) && slot < POOL_SIZE
    ensures Applied(p, ws)[slot] == Next(profiles[unit], before[unit], doing[unit]).pool[slot]
  {
    forall i | 0 <= i < |profiles| ensures AtHome(Only(ws, i), profiles[i], i) {
      StepAtHome(profiles[i], before[i], doing[i], i);
    }
    InterleavedIsSeparate(p, p, ws, profiles, unit, slot);
    StepWritesAre(profiles[unit], before[unit], doing[unit], unit);
  }

  // ---------------------------------------------------------------- the whole daemon

  /**
   A started unit: which profile it runs, its own fields, the writes of its current step that it has still to
   make, and the pool as it was when the unit started.
   */
  datatype Member = Member(profile: Profile, fails: nat, conn: u16, phase: Phase, heard: seq<bool>,
                           due: seq<PoolWrite>, base: seq<u16>)

  datatype Daemon = Daemon(pool: seq<u16>, units: seq<Member>)

  /** Start a unit on a profile, let a unit begin its next step, or let it make its next single write. */
  datatype Happening = Launch(f: Profile) | Begin(u: nat, e: Event) | Write(u: nat)

  /** A unit with the pool as its own outstanding writes will leave it. */
  function ViewOf(d: Daemon, u: nat): State
    requires u < |d.units|
  {
    var m := d.units[u];
    State(Applied(d.pool, m.due), m.fails, m.conn, m.phase, m.heard)
  }

  function Tables(units: seq<Member>): (ts: seq<Table>)
    ensures |ts| == |units|
    ensures forall i :: 0 <= i < |units| ==> ts[i] == units[i].profile.table
  {
    seq(|units|, i requires 0 <= i < |units| => units[i].profile.table)
  }

  ghost predicate Possible(d: Daemon, h: Happening, catalog: set<Profile>) {
    match h
    case Launch(f) => f in catalog
    case Begin(u, e) =>
      u < |d.units| && d.units[u].due == [] && !e.Others? && Enabled(d.units[u].profile, ViewOf(d, u), e)
    case Write(u) => u < |d.units| && d.units[u].due != []
  }

  /** start_*_modules registers the profile and starts no unit when that is refused. */
  function Happen(d: Daemon, h: Happening): Daemon
    requires !h.Launch? ==> h.u < |d.units| && (h.Write? ==> d.units[h.u].due != [])
  {
    match h
    case Launch(f) =>
      if Collides(f.table, Tables(d.units)) || |d.units| >= MAX_PROFILES then d
      else
        var s := Start(d.pool, f);
        Daemon(s.pool, d.units + [Member(f, s.fails, s.conn, s.phase, s.heard, [], d.pool)])
    case Begin(u, e) =>
      var m, s := d.units[u], Next(d.units[u].profile, ViewOf(d, u), e);
      Daemon(d.pool, d.units[u := Member(m.profile, s.fails, s.conn, s.phase, s.heard,
                                         StepWrites(m.profile, ViewOf(d, u), e, u), m.base)])
    case Write(u) =>
      var m := d.units[u];
      Daemon(Put(d.pool, m.due[0].slot, m.due[0].value), d.units[u := m.(due := m.due[1..])])
  }

  /** Profiles one may start: fit for the scan, not empty, and private slots shared with no other profile. */
  ghost predicate Sound(catalog: set<Profile>) {
    && (forall f :: f in catalog ==> Usable(f) && f.table != [])
    && (forall f, g :: f in catalog && g in catalog && f != g ==> PrivateApart(f, g))
  }

  predicate PrivateApart(f: Profile, g: Profile) {
    !Owns(g, f.flag) && !Owns(g, f.status) && !Owns(f, g.flag) && !Owns(f, g.status)
  }

  ghost predicate Healthy(d: Daemon, catalog: set<Profile>) {
    && |d.pool| == POOL_SIZE
    && (forall u :: 0 <= u < |d.units| ==> Fine(d, u, catalog))
    && PairwiseDisjoint(Tables(d.units))
  }

  predicate Fine(d: Daemon, u: nat, catalog: set<Profile>)
    requires u < |d.units| && |d.pool| == POOL_SIZE
  {
    var m := d.units[u];
    && m.profile in catalog && Usable(m.profile) && |m.base| == POOL_SIZE
    && AtHome(m.due, m.profile, u) && Good(m.profile, m.base, ViewOf(d, u))
    && Shown(m.profile, m.base, d.pool, m.due)
  }

  /** No value of an earlier connection: everything as the unit found it, or 0xFFFF throughout. */
  predicate NothingStale(f: Profile, base: seq<u16>, p: seq<u16>)
    requires |p| == |base| == POOL_SIZE && InPool(f.table)
  {
    AllInitial(f, base, p) || AllLost(f, p)
  }

  /**
   What a reader may see of a unit in the middle of a step: DISCONNECTED only over rows that show nothing stale.
   Outstanding are no writes, or a new status, or else the status is CONNECTED and stays so.
   */
  predicate Shown(f: Profile, base: seq<u16>, p: seq<u16>, due: seq<PoolWrite>)
    requires Usable(f) && |p| == |base| == POOL_SIZE
  {
    && (p[f.status] == DISCONNECTED ==> NothingStale(f, base, p))
    && (|| due == []
        || (|due| == 1 && due[0].slot == f.status && (due[0].value == DISCONNECTED ==> NothingStale(f, base, p)))
        || (p[f.status] == CONNECTED && Spares(due, f.status)))
  }

  /** Registration of tables keeps whole units apart, private slots included. */
  lemma UnitsApart(d: Daemon, catalog: set<Profile>, u: nat, v: nat)
    requires Sound(catalog) && Healthy(d, catalog) && u < |d.units| && v < |d.units| && u != v
    ensures Apart(d.units[u].profile, d.units[v].profile)
  {
    var f, g := d.units[u].profile, d.units[v].profile;
    assert Fine(d, u, catalog) && Fine(d, v, catalog);
    var ts := Tables(d.units);
    forall slot: u16 | Uses(f.table, slot) ensures !Uses(g.table, slot) {
      assert Uses(ts[u], slot) && ts[v] == g.table;
    }
    assert Uses(f.table, f.table[0].pool);
    assert f != g;
    assert PrivateApart(f, g);
  }

  /** A single write elsewhere does not change what some writes leave in a slot. */
  lemma {:induction false} AppliedElsewhere(p: seq<u16>, q: seq<u16>, ws: seq<PoolWrite>, slot: u16)
    requires |p| == |q| && slot < |p| && p[slot] == q[slot]
    ensures Applied(p, ws)[slot] == Applied(q, ws)[slot]
    decreases ws
  {
    if ws != [] {
      AppliedElsewhere(Put(p, ws[0].slot, ws[0].value), Put(q, ws[0].slot, ws[0].value), ws[1..], slot);
    }
  }

  /** A unit stays good while the pool changes outside its slots. */
  lemma OthersKeep(d: Daemon, d': Daemon, u: nat, catalog: set<Profile>)
    requires |d.pool| == |d'.pool| == POOL_SIZE
    requires u < |d.units| && u < |d'.units| && d'.units[u] == d.units[u] && Fine(d, u, catalog)
    requires forall slot: u16 :: slot < POOL_SIZE && Owns(d.units[u].profile, slot) ==> d'.pool[slot] == d.pool[slot]
    ensures Fine(d', u, catalog)
  {
    var m := d.units[u];
    var p, q := Applied(d.pool, m.due), Applied(d'.pool, m.due);
    forall slot: u16 | slot < POOL_SIZE && Owns(m.profile, slot) ensures q[slot] == p[slot] {
      AppliedElsewhere(d'.pool, d.pool, m.due, slot);
    }
    assert forall slot: u16 :: Uses(m.profile.table, slot) || slot == m.profile.flag || slot == m.profile.status ==> Owns(m.profile, slot);
    StepKeeps(m.profile, m.base, ViewOf(d, u), Others(q));
    ShownElsewhere(m.profile, m.base, d.pool, d'.pool, m.due);
  }

  lemma ShownElsewhere(f: Profile, base: seq<u16>, p: seq<u16>, q: seq<u16>, due: seq<PoolWrite>)
    requires Usable(f) && |p| == |q| == |base| == POOL_SIZE && Shown(f, base, p, due)
    requires forall slot: u16 :: slot < POOL_SIZE && Owns(f, slot) ==> q[slot] == p[slot]
    ensures Shown(f, base, q, due)
  {
    assert Owns(f, f.status);
    forall i | 0 <= i < |f.table| ensures q[f.table[i].pool] == p[f.table[i].pool] {
      RowSlotUsed(f, i);
    }
  }

  /** Beginning a step: a connect or an error has only the status to write, everything else happens while connected. */
  lemma ShownAtBegin(f: Profile, base: seq<u16>, s: State, e: Event, unit: nat)
    requires Usable(f) && |base| == |s.pool| == POOL_SIZE && Good(f, base, s) && Enabled(f, s, e) && !e.Others?
    ensures Shown(f, base, s.pool, StepWrites(f, s, e, unit))
  {
    SegmentsLaid(f.table, f.chunk, 0);
    var lens := Segments(f.table, f.chunk, 0);
    match e
    case Poll(w) => ScanSpares(f.table, lens, 0, 0, s.fails, true, w, unit, f.status);
    case InitScan(w) => ScanSpares(f.table, lens, 0, 0, s.fails, false, w, unit, f.status);
    case InitWrites(_) =>
    case Connect(_) =>
    case Error =>
    case Stop =>
  }

  /** Making the next outstanding write. */
  lemma ShownAfterWrite(f: Profile, base: seq<u16>, p: seq<u16>, due: seq<PoolWrite>, unit: nat)
    requires Usable(f) && |p| == |base| == POOL_SIZE && due != [] && AtHome(due, f, unit) && Shown(f, base, p, due)
    ensures Shown(f, base, Put(p, due[0].slot, due[0].value), due[1..])
  {
    var q := Put(p, due[0].slot, due[0].value);
    if due[0].slot == f.status {
      forall i | 0 <= i < |f.table| ensures q[f.table[i].pool] == p[f.table[i].pool] {
        RowSlotUsed(f, i);
      }
    }
  }

  lemma LaunchKeeps(d: Daemon, f: Profile, catalog: set<Profile>)
    requires Sound(catalog) && Healthy(d, catalog) && f in catalog
    ensures Healthy(Happen(d, Launch(f)), catalog)
  {
    var ts := Tables(d.units);
    if !Collides(f.table, ts) && |d.units| < MAX_PROFILES {
      var d' := Happen(d, Launch(f));
      NewTableDisjoint(ts, f.table);
      assert Tables(d'.units) == ts + [f.table];
      forall u | 0 <= u < |d'.units| ensures Fine(d', u, catalog) {
        if u < |d.units| {
          assert Fine(d, u, catalog);
          SecondUseRefused(d.units[u].profile.table, ts);
          assert PrivateApart(f, d.units[u].profile);
          OthersKeep(d, d', u, catalog);
        } else {
          LaunchGood(f, d.pool);
        }
      }
    }
  }

  lemma LaunchGood(f: Profile, p: seq<u16>)
    requires Usable(f) && |p| == POOL_SIZE
    ensures Good(f, p, Start(p, f)) && Shown(f, p, Start(p, f).pool, [])
  {
    forall i | 0 <= i < |f.table| ensures Uses(f.table, f.table[i].pool) {
      RowSlotUsed(f, i);
    }
    LifecycleInvariant(f, p, [Start(p, f)], [], 0);
  }

  lemma BeginKeeps(d: Daemon, u: nat, e: Event, catalog: set<Profile>)
    requires Sound(catalog) && Healthy(d, catalog) && Possible(d, Begin(u, e), catalog)
    ensures Healthy(Happen(d, Begin(u, e)), catalog)
  {
    var d', f := Happen(d, Begin(u, e)), d.units[u].profile;
    assert Fine(d, u, catalog);
    StepKeeps(f, d.units[u].base, ViewOf(d, u), e);
    StepWritesAre(f, ViewOf(d, u), e, u);
    StepAtHome(f, ViewOf(d, u), e, u);
    ShownAtBegin(f, d.units[u].base, ViewOf(d, u), e, u);
    assert ViewOf(d', u) == Next(f, ViewOf(d, u), e);
    assert Tables(d'.units) == Tables(d.units);
    forall v | 0 <= v < |d'.units| ensures Fine(d', v, catalog) {
      if v != u {
        assert Fine(d, v, catalog);
      }
    }
  }

  lemma WriteKeeps(d: Daemon, u: nat, catalog: set<Profile>)
    requires Sound(catalog) && Healthy(d, catalog) && Possible(d, Write(u), catalog)
    ensures Healthy(Happen(d, Write(u)), catalog)
  {
    var d', m := Happen(d, Write(u)), d.units[u];
    assert Fine(d, u, catalog) && Owns(m.profile, m.due[0].slot);
    assert ViewOf(d', u) == ViewOf(d, u);
    ShownAfterWrite(m.profile, m.base, d.pool, m.due, u);
    assert Tables(d'.units) == Tables(d.units);
    forall v | 0 <= v < |d'.units| ensures Fine(d', v, catalog) {
      if v != u {
        assert Fine(d, v, catalog);
        UnitsApart(d, catalog, u, v);
        OthersKeep(d, d', v, catalog);
      }
    }
  }

  ghost predicate IsHistory(states: seq<Daemon>, happenings: seq<Happening>, catalog: set<Profile>) {
    && |states| == |happenings| + 1
    && |states[0].pool| == POOL_SIZE && states[0].units == []
    && forall k :: 0 <= k < |happenings| ==>
         Possible(states[k], happenings[k], catalog) && states[k + 1] == Happen(states[k], happenings[k])
  }

  /** In every history of single writes every unit is good, seen with its outstanding writes. */
  lemma {:induction false} HistoryInvariant(states: seq<Daemon>, happenings: seq<Happening>, catalog: set<Profile>, k: nat)
    requires Sound(catalog) && IsHistory(states, happenings, catalog) && k < |states|
    ensures Healthy(states[k], catalog)
  {
    if k == 0 {
      assert Tables(states[0].units) == [];
    } else {
      HistoryInvariant(states, happenings, catalog, k - 1);
      match happenings[k - 1]
      case Launch(f) => LaunchKeeps(states[k - 1], f, catalog);
      case Begin(u, e) => BeginKeeps(states[k - 1], u, e, catalog);
      case Write(u) => WriteKeeps(states[k - 1], u, catalog);
    }
  }

  /**
   So between its steps every unit shows in the pool exactly what its lifecycle promises, however the single
   writes of all the others fell in between.
   */
  lemma SettledUnitIsGood(states: seq<Daemon>, happenings: seq<Happening>, catalog: set<Profile>, k: nat, u: nat)
    requires Sound(catalog) && IsHistory(states, happenings, catalog) && k < |states|
    requires u < |states[k].units| && states[k].units[u].due == []
    ensures var m := states[k].units[u];
      && Usable(m.profile) && |m.base| == POOL_SIZE
      && Good(m.profile, m.base, State(states[k].pool, m.fails, m.conn, m.phase, m.heard))
  {
    HistoryInvariant(states, happenings, catalog, k);
    assert Fine(states[k], u, catalog);
  }

  /**
   At every moment of every history, in the middle of scans, markings and connects of any units: a reader of the
   pool that sees DISCONNECTED in a started unit's status sees no value of an earlier connection in its rows.
   */
  lemma ReaderSeesNothingStale(states: seq<Daemon>, happenings: seq<Happening>, catalog: set<Profile>, k: nat, u: nat)
    requires Sound(catalog) && IsHistory(states, happenings, catalog) && k < |states| && u < |states[k].units|
    ensures var p, m := states[k].pool, states[k].units[u];
      && |p| == |m.base| == POOL_SIZE && Usable(m.profile)
      && (p[m.profile.status] == DISCONNECTED ==> NothingStale(m.profile, m.base, p))
  {
    HistoryInvariant(states, happenings, catalog, k);
    assert Fine(states[k], u, catalog);
  }

  /** No single write of a unit, and no launch, ever changes another unit's slots, its flag and status included. */
  lemma NobodyTouchesAnother(states: seq<Daemon>, happenings: seq<Happening>, catalog: set<Profile>, k: nat, v: nat, slot: u16)
    requires Sound(catalog) && IsHistory(states, happenings, catalog) && k < |happenings|
    requires v < |states[k].units| && Owns(states[k].units[v].profile, slot) && slot < POOL_SIZE
    requires happenings[k].Launch? || happenings[k].u != v
    ensures |states[k].pool| == |states[k + 1].pool| == POOL_SIZE && states[k + 1].pool[slot] == states[k].pool[slot]
  {
    HistoryInvariant(states, happenings, catalog, k);
    HistoryInvariant(states, happenings, catalog, k + 1);
    var d := states[k];
    assert Fine(d, v, catalog);
    match happenings[k]
    case Begin(_, _) =>
    case Write(u) => {
      assert Fine(d, u, catalog) && Owns(d.units[u].profile, d.units[u].due[0].slot);
      UnitsApart(d, catalog, u, v);
    }
    case Launch(f) => {
      var ts := Tables(d.units);
      if !Collides(f.table, ts) && |d.units| < MAX_PROFILES {
        SecondUseRefused(d.units[v].profile.table, ts);
        assert PrivateApart(f, d.units[v].profile);
      }
    }
  }

  /** A slot that no profile owns keeps its value for ever. */
  lemma {:induction false} UnownedNeverChanges(states: seq<Daemon>, happenings: seq<Happening>, catalog: set<Profile>, k: nat, slot: u16)
    requires Sound(catalog) && IsHistory(states, happenings, catalog) && k < |states| && slot < POOL_SIZE
    requires forall f :: f in catalog ==> !Owns(f, slot)
    ensures |states[k].pool| == POOL_SIZE && states[k].pool[slot] == states[0].pool[slot]
  {
    if k > 0 {
      UnownedNeverChanges(states, happenings, catalog, k - 1, slot);
      HistoryInvariant(states, happenings, catalog, k - 1);
      var d := states[k - 1];
      match happenings[k - 1]
      case Begin(_, _) =>
      case Write(u) => {
        assert Fine(d, u, catalog) && Owns(d.units[u].profile, d.units[u].due[0].slot);
      }
      case Launch(f) =>
    }
  }

  /** The daemon's own two profiles make a sound catalog, so all of this holds of it. */
  lemma DaemonCatalogSound()
    ensures Sound({Inverter(), Ups()})
  {
    DaemonProfiles();
    InverterCount();
    UpsCount();
    TwoProfilesSound(Inverter(), Ups());
  }

  lemma TwoProfilesSound(f: Profile, g: Profile)
    requires Usable(f) && Usable(g) && Apart(f, g) && f.table != [] && g.table != []
    ensures Sound({f, g})
  {
    assert Owns(f, f.flag) && Owns(f, f.status) && Owns(g, g.flag) && Owns(g, g.status);
  }

  /** Two profiles with nothing in common are both started, each with its status at 0, and neither a second time. */
  lemma TwoStart(p: seq<u16>, f: Profile, g: Profile)
    requires |p| == POOL_SIZE && Usable(f) && Usable(g) && Apart(f, g) && f.table != [] && g.table != []
    ensures var two := Happen(Happen(Daemon(p, []), Launch(f)), Launch(g));
      && |two.units| == 2 && two.units[0].profile == f && two.units[1].profile == g
      && two.units[0].phase == two.units[1].phase == Down
      && two.pool == p[f.status := 0][g.status := 0]
      && Happen(two, Launch(f)) == two && Happen(two, Launch(g)) == two
  {
    var one := Happen(Daemon(p, []), Launch(f));
    assert Tables(one.units) == [f.table];
    forall i | 0 <= i < |g.table| ensures !Taken([f.table], g.table[i].pool) {
      assert Owns(g, g.table[i].pool);
    }
    assert !Collides(g.table, [f.table]);
    var two := Happen(one, Launch(g));
    assert Tables(two.units) == [f.table, g.table];
    SecondUseRefused(f.table, [f.table, g.table]);
    SecondUseRefused(g.table, [f.table, g.table]);
  }

  /** So the daemon's inverter and UPS units both start. */
  lemma BothUnitsStart(p: seq<u16>)
    requires |p| == 65535
    ensures var two := Happen(Happen(Daemon(p, []), Launch(Inverter())), Launch(Ups()));
      && |two.units| == 2 && two.units[0].profile == Inverter() && two.units[1].profile == Ups()
      && two.pool == p[0xA0F1 := 0][0xA2F1 := 0]
  {
    DaemonProfiles();
    InverterCount();
    UpsCount();
    TwoStart(p, Inverter(), Ups());
  }

  /** A second unit of the same kind is never started. */
  lemma OneUnitPerProfile(states: seq<Daemon>, happenings: seq<Happening>, catalog: set<Profile>, k: nat, u: nat, v: nat)
    requires Sound(catalog) && IsHistory(states, happenings, catalog) && k < |states|
    requires u < v < |states[k].units|
    ensures states[k].units[u].profile != states[k].units[v].profile
  {
    HistoryInvariant(states, happenings, catalog, k);
    assert Fine(states[k], u, catalog) && Fine(states[k], v, catalog);
    UnitsApart(states[k], catalog, u, v);
    assert Owns(states[k].units[u].profile, states[k].units[u].profile.flag);
  }

  function Total(runs: seq<Run>): nat {
    if runs == [] then 0 else runs[0].len + Total(runs[1..])
  }

  lemma {:induction false} RowsLength(runs: seq<Run>)
    requires Tidy(runs)
    ensures |Rows(runs)| == Total(runs)
  {
    if runs != [] {
      RowsLength(runs[1..]);
    }
  }

  lemma InverterCount()
    ensures |Inverter().table| == 28
  {
    InverterTidy();
    RowsLength(INVERTER_RUNS);
    assert Total(INVERTER_RUNS[5..]) == 12;
  }

  lemma UpsCount()
    ensures |Ups().table| == 49
  {
    UpsTidy();
    RowsLength(UPS_RUNS);
    assert Total(UPS_RUNS[6..]) == 28;
  }
}
