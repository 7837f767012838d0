/**
 The register map (lib/device_map/device_register_map.c): the shared pool, the binary search over a
 profile table, the copy of read registers into the pool, and the registry that keeps profiles apart.
 */
module RegisterMap {
  import opened Words

  const POOL_SIZE := 65535
  const MAX_PROFILES := 32

  datatype Row = Row(device: u16, pool: u16)

  type Table = seq<Row>

  /** Rows are sorted by device address. */
  predicate Ascending(t: Table) {
    forall i, j :: 0 <= i < j < |t| ==> t[i].device < t[j].device
  }

  predicate DistinctSlots(t: Table) {
    forall i, j :: 0 <= i < j < |t| ==> t[i].pool != t[j].pool
  }

  predicate InPool(t: Table) {
    forall i :: 0 <= i < |t| ==> t[i].pool < POOL_SIZE
  }

  predicate Uses(t: Table, slot: u16) {
    exists i :: 0 <= i < |t| && t[i].pool == slot
  }

  // ---------------------------------------------------------------- binary search

  /** The row of a device address, by linear search: what the binary search stands for. */
  function RowOf(t: Table, addr: u16): (r: Option<nat>)
    ensures r.Some? ==> r.value < |t| && t[r.value].device == addr
    ensures r.None? ==> forall i :: 0 <= i < |t| ==> t[i].device != addr
  {
    if t == [] then None
    else if t[|t| - 1].device == addr then Some(|t| - 1)
    else RowOf(t[..|t| - 1], addr)
  }

  /** device_find_slot. A hit is always right; a miss is right on a sorted table. */
  method FindSlot(t: Table, addr: u16) returns (r: Option<nat>)
    ensures r.Some? ==> r.value < |t| && t[r.value].device == addr
    ensures Ascending(t) ==> r == RowOf(t, addr)
  {
    var low, high := 0, |t|;
    while low < high
      invariant 0 <= low <= high <= |t|
      invariant Ascending(t) ==> forall i :: 0 <= i < |t| && t[i].device == addr ==> low <= i < high
    {
      var mid := low + (high - low) / 2;
      if t[mid].device == addr {
        return Some(mid);
      }
      if t[mid].device < addr {
        low := mid + 1;
      } else {
        high := mid;
      }
    }
    return None;
  }

  // ---------------------------------------------------------------- the pool

  /** pool_write_register; the one address outside the pool is ignored. */
  function Put(p: seq<u16>, slot: u16, v: u16): (p': seq<u16>)
    ensures |p'| == |p|
  {
    if slot < |p| then p[slot := v] else p
  }

  class Pool {
    const cells: array<u16>

    ghost predicate Valid() {
      cells.Length == POOL_SIZE
    }

    ghost function Contents(): seq<u16>
      reads cells
    {
      cells[..]
    }

    constructor ()
      ensures Valid() && fresh(cells)
      ensures forall a :: 0 <= a < POOL_SIZE ==> Contents()[a] == 0
    {
      cells := new u16[POOL_SIZE](i => 0);
    }

    /** pool_read_register. */
    method Read(slot: u16) returns (v: Option<u16>)
      requires Valid()
      ensures v == if slot < 65535 then Some(Contents()[slot]) else None
    {
      if slot >= cells.Length {
        return None;
      }
      return Some(cells[slot]);
    }

    /** pool_write_register. */
    method Write(slot: u16, v: u16) returns (ok: bool)
      requires Valid()
      modifies cells
      ensures Contents() == if slot < 65535 then old(Contents())[slot := v] else old(Contents())
      ensures ok <==> slot < 65535
    {
      if slot >= cells.Length {
        return false;
      }
      cells[slot] := v;
      return true;
    }

    /** device_map_read_to_pool. */
    method ReadToPool(t: Table, buf: array<u16>, start: u16, count: nat)
      requires Valid() && Ascending(t) && count <= buf.Length && buf != cells
      modifies cells
      ensures Contents() == Stored(t, old(Contents()), old(buf[..count]), start)
    {
      var i := 0;
      while i < count
        invariant i <= count
        invariant Contents() == Stored(t, old(Contents()), buf[..i], start)
      {
        var devAddr := (start + i) % 0x1_0000;
        var m := FindSlot(t, devAddr);
        if m.Some? {
          var _ := Write(t[m.value].pool, buf[i]);
        }
        assert buf[..i + 1][..i] == buf[..i];
        i := i + 1;
      }
    }
  }

  /** Storing values read from consecutive device addresses, one after the other. */
  function Stored(t: Table, p: seq<u16>, values: seq<u16>, start: u16): (p': seq<u16>)
    ensures |p'| == |p|
  {
    if values == [] then p
    else
      var n := |values| - 1;
      var before := Stored(t, p, values[..n], start);
      match RowOf(t, (start + n) % 0x1_0000)
      case None => before
      case Some(m) => Put(before, t[m].pool, values[n])
  }

  /** The naive refresh: every row's slot takes the value of its register, in table order. */
  function Refreshed(rows: Table, p: seq<u16>, f: u16 -> u16): (p': seq<u16>)
    ensures |p'| == |p|
  {
    if rows == [] then p
    else
      var n := |rows| - 1;
      Put(Refreshed(rows[..n], p, f), rows[n].pool, f(rows[n].device))
  }

  /** Rows k .. k + n are consecutive in device address. */
  predicate Consecutive(t: Table, k: nat, n: nat) {
    k + n <= |t| && forall j :: k <= j < k + n ==> t[j].device == t[k].device + (j - k)
  }

  lemma RowOfUnique(t: Table, j: nat)
    requires Ascending(t) && j < |t|
    ensures RowOf(t, t[j].device) == Some(j)
  {
    var r := RowOf(t, t[j].device).value;
    assert t[r].device == t[j].device;
  }

  /** The values of a run of rows, in table order. */
  function ValuesOf(rows: Table, f: u16 -> u16): (v: seq<u16>)
    ensures |v| == |rows|
  {
    if rows == [] then [] else ValuesOf(rows[..|rows| - 1], f) + [f(rows[|rows| - 1].device)]
  }

  predicate Locates(t: Table, rows: Table, start: u16) {
    forall i :: 0 <= i < |rows| ==>
      rows[i].device == start + i && RowOf(t, rows[i].device).Some? && t[RowOf(t, rows[i].device).value] == rows[i]
  }

  lemma {:induction false} StoredIsRefreshed(t: Table, p: seq<u16>, rows: Table, start: u16, f: u16 -> u16)
    requires Locates(t, rows, start)
    ensures Stored(t, p, ValuesOf(rows, f), start) == Refreshed(rows, p, f)
  {
    if rows != [] {
      var n := |rows| - 1;
      var row := rows[n];
      assert row.device == start + n && t[RowOf(t, row.device).value] == row;
      LocatesPrefix(t, rows, start);
      StoredIsRefreshed(t, p, rows[..n], start, f);
      StoredStep(t, p, ValuesOf(rows[..n], f), f(row.device), start, row);
    }
  }

  lemma LocatesPrefix(t: Table, rows: Table, start: u16)
    requires Locates(t, rows, start) && rows != []
    ensures Locates(t, rows[..|rows| - 1], start)
  {
  }

  lemma StoredStep(t: Table, p: seq<u16>, values: seq<u16>, v: u16, start: u16, row: Row)
    requires row.device == start + |values| && RowOf(t, row.device).Some? && t[RowOf(t, row.device).value] == row
    ensures Stored(t, p, values + [v], start) == Put(Stored(t, p, values, start), row.pool, v)
  {
    assert (values + [v])[..|values|] == values;
    assert (start + |values|) % 0x1_0000 == row.device;
  }

  lemma SegmentLocated(t: Table, k: nat, n: nat)
    requires Ascending(t) && Consecutive(t, k, n) && n > 0
    ensures Locates(t, t[k..k + n], t[k].device)
  {
    var rows := t[k..k + n];
    forall i | 0 <= i < n ensures RowOf(t, rows[i].device) == Some(k + i) && rows[i].device == t[k].device + i {
      RowOfUnique(t, k + i);
    }
  }

  lemma {:induction false} ValuesOfSegment(rows: Table, f: u16 -> u16, i: nat)
    requires i < |rows|
    ensures ValuesOf(rows, f)[i] == f(rows[i].device)
  {
    if i < |rows| - 1 {
      ValuesOfSegment(rows[..|rows| - 1], f, i);
    }
  }

  lemma {:induction false} RefreshedConcat(x: Table, y: Table, p: seq<u16>, f: u16 -> u16)
    ensures Refreshed(x + y, p, f) == Refreshed(y, Refreshed(x, p, f), f)
  {
    if y == [] {
      assert x + y == x;
    } else {
      var n := |y| - 1;
      assert (x + y)[..|x + y| - 1] == x + y[..n];
      RefreshedConcat(x, y[..n], p, f);
    }
  }

  /** What a refresh leaves: each row's slot holds its register, and nothing outside the table moved. */
  lemma {:induction false} RefreshedSlots(rows: Table, p: seq<u16>, f: u16 -> u16)
    requires |p| == POOL_SIZE
    ensures forall a :: 0 <= a < |p| && !Uses(rows, a) ==> Refreshed(rows, p, f)[a] == p[a]
    ensures DistinctSlots(rows) && InPool(rows) ==>
      forall i :: 0 <= i < |rows| ==> Refreshed(rows, p, f)[rows[i].pool] == f(rows[i].device)
  {
    if rows != [] {
      var n := |rows| - 1;
      RefreshedSlots(rows[..n], p, f);
      assert forall a: u16 :: Uses(rows[..n], a) ==> Uses(rows, a);
      assert Uses(rows, rows[n].pool);
    }
  }

  // ---------------------------------------------------------------- the registry

  predicate Taken(tables: seq<Table>, slot: u16) {
    exists p :: 0 <= p < |tables| && Uses(tables[p], slot)
  }

  predicate Collides(t: Table, tables: seq<Table>) {
    exists i :: 0 <= i < |t| && Taken(tables, t[i].pool)
  }

  /** No row of the table has the pool address of a row of another. */
  predicate Apart(t: Table, tables: seq<Table>) {
    forall i, p, j :: 0 <= i < |t| && 0 <= p < |tables| && 0 <= j < |tables[p]| ==> tables[p][j].pool != t[i].pool
  }

  lemma ApartExactly(t: Table, tables: seq<Table>)
    ensures Apart(t, tables) <==> !Collides(t, tables)
  {
    if !Apart(t, tables) {
      var i, p, j :| 0 <= i < |t| && 0 <= p < |tables| && 0 <= j < |tables[p]| && tables[p][j].pool == t[i].pool;
      assert Uses(tables[p], t[i].pool);
      assert Taken(tables, t[i].pool);
    }
  }

  /** No pool address belongs to two tables. */
  ghost predicate PairwiseDisjoint(tables: seq<Table>) {
    forall p, q, slot: u16 :: 0 <= p < q < |tables| && Uses(tables[p], slot) ==> !Uses(tables[q], slot)
  }

  lemma NewTableDisjoint(tables: seq<Table>, t: Table)
    requires PairwiseDisjoint(tables) && !Collides(t, tables)
    ensures PairwiseDisjoint(tables + [t])
  {
    var all := tables + [t];
    forall p, q, slot: u16 | 0 <= p < q < |all| && Uses(all[p], slot) ensures !Uses(all[q], slot) {
      if q == |tables| {
        assert Taken(tables, slot);
      }
    }
  }

  /** A non-empty profile is never accepted twice. */
  lemma SecondUseRefused(t: Table, tables: seq<Table>)
    requires t in tables && t != []
    ensures Collides(t, tables)
  {
    var p :| 0 <= p < |tables| && tables[p] == t;
    assert Uses(tables[p], t[0].pool);
    assert Taken(tables, t[0].pool);
  }

  /** The innermost loop: does any row of a registered table use this pool address? */
  method HasSlot(t: Table, slot: u16) returns (found: bool)
    ensures found <==> Uses(t, slot)
  {
    found := false;
    var j := 0;
    while j < |t|
      invariant j <= |t|
      invariant found <==> exists i :: 0 <= i < j && t[i].pool == slot
    {
      if t[j].pool == slot {
        found := true;
      }
      j := j + 1;
    }
  }

  class Registry {
    const slots: array<Table>
    var count: nat

    ghost predicate Valid()
      reads this
    {
      slots.Length == MAX_PROFILES && count <= MAX_PROFILES
    }

    ghost function Accepted(): seq<Table>
      reads this, slots
      requires Valid()
    {
      slots[..count]
    }

    constructor ()
      ensures Valid() && Accepted() == [] && fresh(slots)
    {
      slots := new Table[MAX_PROFILES](i => []);
      count := 0;
    }

    /** device_register_map_register_profile: every row against every row of every registered profile. */
    method Register(t: Table) returns (ok: bool)
      requires Valid()
      modifies this, slots
      ensures Valid()
      ensures ok <==> |old(Accepted())| < 32 && Apart(t, old(Accepted()))
      ensures Accepted() == if ok then old(Accepted()) + [t] else old(Accepted())
      ensures PairwiseDisjoint(old(Accepted())) ==> PairwiseDisjoint(Accepted())
    {
      ghost var tables := Accepted();
      ApartExactly(t, tables);
      var collision := false;
      var i := 0;
      while i < |t|
        invariant i <= |t|
        invariant collision <==> exists k :: 0 <= k < i && Taken(tables, t[k].pool)
        modifies {}
      {
        ghost var before := collision;
        var p := 0;
        while p < count
          invariant p <= count
          invariant collision <==> before || exists q :: 0 <= q < p && Uses(tables[q], t[i].pool)
          modifies {}
        {
          var found := HasSlot(slots[p], t[i].pool);
          collision := collision || found;
          p := p + 1;
        }
        assert collision <==> before || Taken(tables, t[i].pool);
        i := i + 1;
      }
      if collision || count >= MAX_PROFILES {
        return false;
      }
      ghost var disjoint := PairwiseDisjoint(tables);
      if disjoint {
        NewTableDisjoint(tables, t);
      }
      slots[count] := t;
      count := count + 1;
      return true;
    }
  }
}
