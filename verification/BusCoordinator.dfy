/**
 The per-path bus lock (src/bus_coord.c): a table of eight slots, each a re-entrant lock with a
 condition variable. The functions below say what one pass through a critical section does to the
 table; the class runs the code's loops on it and is proved equal to them.
 */
module BusCoordinator {
  import opened Words

  const MAX_BUSES := 8
  const PATH_ROOM := 255

  type ThreadId = nat

  datatype Slot = Slot(path: string, taken: bool, depth: nat, owner: ThreadId)

  const FREE := Slot("", false, 0, 0)

  /** strncpy into the 256-byte path field keeps at most 255 characters. */
  function Stored(path: string): string {
    if |path| <= PATH_ROOM then path else path[..PATH_ROOM]
  }

  predicate Names(slot: Slot, path: string) {
    slot.taken && slot.path == path
  }

  /** The first allocated slot with this path, from index i on. */
  function FindFrom(slots: seq<Slot>, path: string, i: nat): (r: Option<nat>)
    requires i <= |slots|
    ensures r.Some? ==> i <= r.value < |slots| && Names(slots[r.value], path)
    ensures forall j :: i <= j < (if r.Some? then r.value else |slots|) ==> !Names(slots[j], path)
  {
    FirstFrom(slots, s => Names(s, path), i)
  }

  function Find(slots: seq<Slot>, path: string): Option<nat> {
    FindFrom(slots, path, 0)
  }

  function FreeFrom(slots: seq<Slot>, i: nat): (r: Option<nat>)
    requires i <= |slots|
    ensures r.Some? ==> i <= r.value < |slots| && !slots[r.value].taken
    ensures forall j :: i <= j < (if r.Some? then r.value else |slots|) ==> slots[j].taken
  {
    FirstFrom(slots, (s: Slot) => !s.taken, i)
  }

  /** A free slot given to a path; the stale owner stays, as in the code. */
  function Stamped(slots: seq<Slot>, i: nat, path: string): seq<Slot>
    requires i < |slots|
  {
    slots[i := slots[i].(path := Stored(path), taken := true, depth := 0)]
  }

  datatype Reservation = Reservation(slots: seq<Slot>, slot: Option<nat>)

  /** Find the slot of a path, or take the first free one for it. */
  function Reserve(slots: seq<Slot>, path: string): (r: Reservation)
    ensures |r.slots| == |slots|
    ensures r.slot.Some? ==> r.slot.value < |slots| && r.slots[r.slot.value].taken
    ensures forall j :: 0 <= j < |slots| && r.slot != Some(j) ==> r.slots[j] == slots[j]
  {
    match Find(slots, path)
    case Some(i) => Reservation(slots, Some(i))
    case None =>
      match FreeFrom(slots, 0)
      case None => Reservation(slots, None)
      case Some(i) =>
        Reservation(Stamped(slots, i, path), Some(i))
  }

  /** The condition of the wait loop. */
  predicate Blocked(slot: Slot, self: ThreadId) {
    slot.depth > 0 && slot.owner != self
  }

  function Enter(slot: Slot, self: ThreadId): Slot {
    slot.(owner := if slot.depth == 0 then self else slot.owner, depth := slot.depth + 1)
  }

  datatype Verdict = Uncoordinated | MustWait(slot: nat) | Entered(slot: nat)

  datatype Attempt = Attempt(slots: seq<Slot>, verdict: Verdict)

  /** bus_coord_acquire up to its first wait. */
  function TryAcquire(slots: seq<Slot>, path: string, self: ThreadId): Attempt {
    if path == "" then Attempt(slots, Uncoordinated)
    else
      var r := Reserve(slots, path);
      if r.slot.None? then Attempt(slots, Uncoordinated)
      else
        var i := r.slot.value;
        if Blocked(r.slots[i], self) then Attempt(r.slots, MustWait(i))
        else Attempt(r.slots[i := Enter(r.slots[i], self)], Entered(i))
  }

  datatype Released = Released(slots: seq<Slot>, broadcast: Option<nat>)

  /** bus_coord_release; a release that nobody may make changes nothing. */
  function Release(slots: seq<Slot>, path: string, self: ThreadId): Released {
    if path == "" then Released(slots, None)
    else
      match Find(slots, path)
      case None => Released(slots, None)
      case Some(i) =>
        if slots[i].depth == 0 || slots[i].owner != self then Released(slots, None)
        else
          var left := slots[i].depth - 1;
          Released(slots[i := slots[i].(depth := left)], if left == 0 then Some(i) else None)
  }

  // ---------------------------------------------------------------- the code

  class Coordinator {
    const table: array<Slot>

    constructor ()
      ensures fresh(table) && table.Length == 8
      ensures forall i :: 0 <= i < 8 ==> table[i] == FREE
    {
      table := new Slot[MAX_BUSES](i => FREE);
    }

    /** find_slot_locked. */
    method FindSlot(path: string) returns (r: Option<nat>)
      ensures r == Find(table[..], path)
    {
      var i := 0;
      while i < table.Length
        invariant i <= table.Length
        invariant Find(table[..], path) == FindFrom(table[..], path, i)
      {
        if table[i].taken && table[i].path == path {
          return Some(i);
        }
        i := i + 1;
      }
      return None;
    }

    /** alloc_slot_locked. */
    method AllocSlot(path: string) returns (r: Option<nat>)
      modifies table
      ensures r == FreeFrom(old(table[..]), 0)
      ensures r.None? ==> table[..] == old(table[..])
      ensures r.Some? ==> table[..] == Stamped(old(table[..]), r.value, path)
    {
      var i := 0;
      while i < table.Length
        invariant i <= table.Length
        invariant table[..] == old(table[..])
        invariant FreeFrom(old(table[..]), 0) == FreeFrom(old(table[..]), i)
      {
        if !table[i].taken {
          table[i] := table[i].(path := Stored(path), taken := true, depth := 0);
          return Some(i);
        }
        i := i + 1;
      }
      return None;
    }

    /** The first pass of bus_coord_acquire under the global mutex. */
    method Acquire(path: string, self: ThreadId) returns (verdict: Verdict)
      modifies table
      ensures Attempt(table[..], verdict) == TryAcquire(old(table[..]), path, self)
    {
      if path == "" {
        return Uncoordinated;
      }
      var slot := FindSlot(path);
      if slot.None? {
        slot := AllocSlot(path);
        if slot.None? {
          return Uncoordinated;
        }
      }
      verdict := Recheck(slot.value, self);
    }

    /** The wait loop's test and what follows it: first pass, or after each wake-up. */
    method Recheck(i: nat, self: ThreadId) returns (verdict: Verdict)
      requires i < table.Length
      modifies table
      ensures if Blocked(old(table[i]), self) then verdict == MustWait(i) && table[..] == old(table[..])
              else verdict == Entered(i) && table[..] == old(table[..])[i := Enter(old(table[i]), self)]
    {
      if table[i].depth > 0 && table[i].owner != self {
        return MustWait(i);
      }
      if table[i].depth == 0 {
        table[i] := table[i].(owner := self);
      }
      table[i] := table[i].(depth := table[i].depth + 1);
      return Entered(i);
    }

    /** bus_coord_release; the result names the slot whose sleepers are woken. */
    method ReleaseBus(path: string, self: ThreadId) returns (broadcast: Option<nat>)
      modifies table
      ensures Released(table[..], broadcast) == Release(old(table[..]), path, self)
    {
      if path == "" {
        return None;
      }
      var slot := FindSlot(path);
      if slot.None? || table[slot.value].depth == 0 {
        return None;
      }
      var i := slot.value;
      if table[i].owner != self {
        return None;
      }
      table[i] := table[i].(depth := table[i].depth - 1);
      if table[i].depth == 0 {
        return Some(i);
      }
      return None;
    }
  }

  // ---------------------------------------------------------------- one table

  /** Every path has at most one slot, and a free slot is not held. */
  predicate WellFormed(slots: seq<Slot>) {
    && |slots| == MAX_BUSES
    && (forall i, j :: 0 <= i < j < |slots| && slots[i].taken && slots[j].taken ==> slots[i].path != slots[j].path)
    && (forall i :: 0 <= i < |slots| && !slots[i].taken ==> slots[i].depth == 0)
  }

  lemma FindUnique(slots: seq<Slot>, path: string, i: nat)
    requires WellFormed(slots) && i < |slots| && Names(slots[i], path)
    ensures Find(slots, path) == Some(i)
  {
    var r := Find(slots, path);
    assert r.Some? && Names(slots[r.value], path);
  }

  /** How deep a thread holds a path. */
  function Depth(slots: seq<Slot>, path: string, t: ThreadId): nat {
    match Find(slots, path)
    case None => 0
    case Some(i) => if slots[i].owner == t then slots[i].depth else 0
  }

  /** At most one thread holds a path at a time. */
  lemma OneHolder(slots: seq<Slot>, path: string, t: ThreadId, u: ThreadId)
    requires Depth(slots, path, t) > 0 && Depth(slots, path, u) > 0
    ensures t == u
  {
  }

  /**
   When acquire comes back without the lock: exactly for the empty path, and for a path that has no slot
   while all eight are taken.
   */
  lemma UncoordinatedExactly(slots: seq<Slot>, path: string, t: ThreadId)
    requires |slots| == 8
    ensures TryAcquire(slots, path, t).verdict.Uncoordinated? <==>
      path == "" || forall i :: 0 <= i < |slots| ==> slots[i].taken && slots[i].path != path
  {
    if path != "" && TryAcquire(slots, path, t).verdict.Uncoordinated? {
      forall i | 0 <= i < |slots| ensures slots[i].taken && slots[i].path != path {
        assert !Names(slots[i], path);
      }
    }
  }

  /** A path of 256 characters or more is stored cut, so the slot it takes is never found under its name. */
  lemma LongPathIsNeverFound(slots: seq<Slot>, path: string)
    requires |path| > 255 && Find(slots, path) == None
    ensures Find(Reserve(slots, path).slots, path) == None
  {
  }
}
