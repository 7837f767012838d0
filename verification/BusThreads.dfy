/**
 Unit threads sharing the bus coordinator. A thread is the sequence of bus operations its unit code
 performs; the system interleaves threads at the critical sections of src/bus_coord.c, lets sleepers
 wake spuriously, and wakes them all when a slot falls idle.
 */
module BusThreads {
  import opened Words
  import opened BusCoordinator

  /** What unit code does with the bus: take it, give it back, or send one RTU request and await the reply. */
  datatype Op = Acquire | Release | Transact

  datatype Status = Ready | Asleep(slot: nat) | Woken(slot: nat)

  datatype Thread = Thread(path: string, script: seq<Op>, status: Status)

  datatype System = System(slots: seq<Slot>, threads: seq<Thread>)

  // ---------------------------------------------------------------- disciplined code

  /** The nesting depth after some operations; None when one of them lacks the lock it needs. */
  function After(ops: seq<Op>, d: nat): Option<nat> {
    if ops == [] then Some(d)
    else
      match ops[0]
      case Acquire => After(ops[1..], d + 1)
      case Release => if d > 0 then After(ops[1..], d - 1) else None
      case Transact => if d > 0 then After(ops[1..], d) else None
  }

  lemma {:induction false} AfterConcat(a: seq<Op>, b: seq<Op>, d: nat)
    ensures After(a + b, d) == match After(a, d) case None => None case Some(e) => After(b, e)
    decreases a
  {
    if a == [] {
      assert a + b == b;
    } else {
      assert (a + b)[1..] == a[1..] + b;
      match a[0]
      case Acquire => AfterConcat(a[1..], b, d + 1);
      case Release => if d > 0 { AfterConcat(a[1..], b, d - 1); }
      case Transact => AfterConcat(a[1..], b, d);
    }
  }

  /** Transactions only under the lock, releases only of what is held, and everything given back at the end. */
  predicate Disciplined(ops: seq<Op>, d: nat) {
    After(ops, d) == Some(0)
  }

  // ---------------------------------------------------------------- steps

  datatype Event = Go(t: ThreadId) | Spurious(t: ThreadId)

  predicate Enabled(s: System, e: Event) {
    e.t < |s.threads| &&
    match e
    case Go(t) =>
      (match s.threads[t].status
       case Ready => s.threads[t].script != []
       case Woken(i) => i < |s.slots| && s.threads[t].script != []
       case Asleep(_) => false)
    case Spurious(t) => s.threads[t].status.Asleep?
  }

  function Advance(th: Thread): Thread
    requires th.script != []
  {
    th.(script := th.script[1..], status := Ready)
  }

  /** The test of the wait loop by thread t at slot i: go to sleep, or enter and leave acquire. */
  function Recheck(s: System, t: ThreadId, i: nat): System
    requires t < |s.threads| && i < |s.slots| && s.threads[t].script != []
  {
    if Blocked(s.slots[i], t) then s.(threads := s.threads[t := s.threads[t].(status := Asleep(i))])
    else System(s.slots[i := Enter(s.slots[i], t)], s.threads[t := Advance(s.threads[t])])
  }

  function WakeOne(th: Thread, i: Option<nat>): Thread {
    if i.Some? && th.status == Asleep(i.value) then th.(status := Woken(i.value)) else th
  }

  function Broadcast(threads: seq<Thread>, i: Option<nat>): (woken: seq<Thread>)
    ensures |woken| == |threads|
    ensures forall t :: 0 <= t < |threads| ==> woken[t] == WakeOne(threads[t], i)
  {
    seq(|threads|, t requires 0 <= t < |threads| => WakeOne(threads[t], i))
  }

  function Next(s: System, e: Event): System
    requires Enabled(s, e)
  {
    var th := s.threads[e.t];
    if e.Spurious? then s.(threads := s.threads[e.t := th.(status := Woken(th.status.slot))])
    else if th.status.Woken? then Recheck(s, e.t, th.status.slot)
    else
      match th.script[0]
      case Transact => s.(threads := s.threads[e.t := Advance(th)])
      case Release =>
        var r := BusCoordinator.Release(s.slots, th.path, e.t);
        System(r.slots, Broadcast(s.threads[e.t := Advance(th)], r.broadcast))
      case Acquire =>
        var r := if th.path == "" then Reservation(s.slots, None) else Reserve(s.slots, th.path);
        if r.slot.None? then System(r.slots, s.threads[e.t := Advance(th)])
        else Recheck(System(r.slots, s.threads), e.t, r.slot.value)
  }

  /** The first pass of an acquiring thread is exactly what bus_coord_acquire computes. */
  lemma AcquireIsTryAcquire(s: System, t: ThreadId)
    requires Enabled(s, Go(t)) && s.threads[t].status.Ready? && s.threads[t].script[0] == Acquire
    ensures var a := TryAcquire(s.slots, s.threads[t].path, t);
      && Next(s, Go(t)).slots == a.slots
      && (Next(s, Go(t)).threads[t].status.Asleep? <==> a.verdict.MustWait?)
  {
  }

  // ---------------------------------------------------------------- invariant

  function Paths(threads: seq<Thread>): set<string> {
    set t | 0 <= t < |threads| && threads[t].path != "" :: threads[t].path
  }

  /** At most eight serial paths, each short enough to be stored whole. */
  predicate Configured(threads: seq<Thread>) {
    && |Paths(threads)| <= MAX_BUSES
    && forall t :: 0 <= t < |threads| ==> |threads[t].path| <= PATH_ROOM
  }

  function Held(s: System, t: ThreadId): nat
    requires t < |s.threads|
  {
    Depth(s.slots, s.threads[t].path, t)
  }

  predicate WaitsAt(s: System, t: ThreadId, i: nat)
    requires t < |s.threads|
  {
    && i < |s.slots| && Names(s.slots[i], s.threads[t].path)
    && s.threads[t].script != [] && s.threads[t].script[0] == Acquire
    && Held(s, t) == 0
  }

  predicate ThreadOk(s: System, t: ThreadId)
    requires t < |s.threads|
  {
    var th := s.threads[t];
    if th.path == "" then th.status.Ready?
    else
      && Disciplined(th.script, Held(s, t))
      && match th.status
         case Ready => true
         case Woken(i) => WaitsAt(s, t, i)
         case Asleep(i) => WaitsAt(s, t, i) && s.slots[i].depth > 0
  }

  predicate SlotOk(s: System, i: nat)
    requires i < |s.slots|
  {
    var slot := s.slots[i];
    && (slot.taken ==> slot.path in Paths(s.threads))
    && (slot.depth > 0 ==> slot.owner < |s.threads| && s.threads[slot.owner].path == slot.path)
  }

  predicate Inv(s: System) {
    && Configured(s.threads)
    && WellFormed(s.slots)
    && (forall i :: 0 <= i < |s.slots| ==> SlotOk(s, i))
    && (forall t :: 0 <= t < |s.threads| ==> ThreadOk(s, t))
  }

  predicate Initial(s: System) {
    && Configured(s.threads)
    && |s.slots| == MAX_BUSES && (forall i :: 0 <= i < MAX_BUSES ==> s.slots[i] == FREE)
    && (forall t :: 0 <= t < |s.threads| ==>
          s.threads[t].status.Ready? && (s.threads[t].path != "" ==> Disciplined(s.threads[t].script, 0)))
  }

  lemma InitialInv(s: System)
    requires Initial(s)
    ensures Inv(s)
  {
    forall t | 0 <= t < |s.threads| ensures ThreadOk(s, t) {
      assert Find(s.slots, s.threads[t].path) == None;
    }
  }

  lemma PathsKept(threads: seq<Thread>, after: seq<Thread>)
    requires |after| == |threads|
    requires forall t :: 0 <= t < |threads| ==> after[t].path == threads[t].path
    ensures Paths(after) == Paths(threads)
    ensures Configured(threads) ==> Configured(after)
  {
  }

  // ---------------------------------------------------------------- there is always a slot

  function SlotPaths(slots: seq<Slot>, n: nat): set<string>
    requires n <= |slots|
  {
    set i | 0 <= i < n :: slots[i].path
  }

  lemma {:induction false} DistinctSlotPaths(slots: seq<Slot>, n: nat)
    requires WellFormed(slots) && n <= |slots|
    requires forall i :: 0 <= i < n ==> slots[i].taken
    ensures |SlotPaths(slots, n)| == n
  {
    if n > 0 {
      DistinctSlotPaths(slots, n - 1);
      var p := slots[n - 1].path;
      assert SlotPaths(slots, n) == SlotPaths(slots, n - 1) + {p};
      assert p !in SlotPaths(slots, n - 1);
    }
  }

  lemma SmallerSet(a: set<string>, b: set<string>, p: string)
    requires a <= b && p in b && p !in a
    ensures |a| < |b|
  {
    assert a <= b - {p};
    SubsetSize(a, b - {p});
  }

  lemma {:induction false} SubsetSize(a: set<string>, b: set<string>)
    requires a <= b
    ensures |a| <= |b|
  {
    if a != {} {
      var x :| x in a;
      SubsetSize(a - {x}, b - {x});
    }
  }

  /** Eight slots serve eight paths: a configured thread is never left uncoordinated. */
  lemma AlwaysASlot(s: System, t: ThreadId)
    requires Inv(s) && t < |s.threads| && s.threads[t].path != ""
    ensures Reserve(s.slots, s.threads[t].path).slot.Some?
  {
    var p := s.threads[t].path;
    if Reserve(s.slots, p).slot.None? {
      var taken := SlotPaths(s.slots, MAX_BUSES);
      forall i | 0 <= i < MAX_BUSES ensures s.slots[i].path in Paths(s.threads) && s.slots[i].path != p {
        assert SlotOk(s, i) && !Names(s.slots[i], p);
      }
      DistinctSlotPaths(s.slots, MAX_BUSES);
      assert p in Paths(s.threads);
      SmallerSet(taken, Paths(s.threads), p);
    }
  }

  // ---------------------------------------------------------------- every step keeps the invariant

  lemma ReserveKeeps(s: System, t: ThreadId)
    requires Inv(s) && t < |s.threads| && s.threads[t].path != ""
    ensures var r := Reserve(s.slots, s.threads[t].path);
      && r.slot.Some? && Names(r.slots[r.slot.value], s.threads[t].path)
      && Inv(System(r.slots, s.threads))
      && forall u :: 0 <= u < |s.threads| ==> Held(System(r.slots, s.threads), u) == Held(s, u)
  {
    AlwaysASlot(s, t);
    var p := s.threads[t].path;
    var r := Reserve(s.slots, p);
    var i, s' := r.slot.value, System(r.slots, s.threads);
    if Find(s.slots, p).None? {
      assert p in Paths(s.threads);
      forall u | 0 <= u < |s.threads| ensures Held(s', u) == Held(s, u) && ThreadOk(s', u) {
        assert ThreadOk(s, u);
        StampKeepsDepth(s.slots, i, p, s.threads[u].path, u);
      }
      forall j | 0 <= j < |s'.slots| ensures SlotOk(s', j) {
        assert SlotOk(s, j);
      }
    }
  }

  lemma StampKeepsDepth(slots: seq<Slot>, i: nat, p: string, q: string, u: ThreadId)
    requires WellFormed(slots) && i < |slots| && !slots[i].taken && |p| <= PATH_ROOM
    requires Find(slots, p).None?
    ensures WellFormed(Stamped(slots, i, p))
    ensures Depth(Stamped(slots, i, p), q, u) == Depth(slots, q, u)
  {
    var slots' := Stamped(slots, i, p);
    if q == p {
      FindUnique(slots', q, i);
    } else if Find(slots, q).Some? {
      FindUnique(slots', q, Find(slots, q).value);
    }
  }

  /** Changing depth and owner of a slot moves only the holders of its own path. */
  lemma UpdateDepth(slots: seq<Slot>, i: nat, slot: Slot, q: string, u: ThreadId)
    requires WellFormed(slots) && i < |slots| && slots[i].taken
    requires slot.taken && slot.path == slots[i].path
    ensures WellFormed(slots[i := slot])
    ensures Depth(slots[i := slot], q, u) ==
      if q == slot.path then (if slot.owner == u then slot.depth else 0) else Depth(slots, q, u)
  {
    var slots' := slots[i := slot];
    if q == slot.path {
      FindUnique(slots', q, i);
    } else if Find(slots, q).Some? {
      FindUnique(slots', q, Find(slots, q).value);
    }
  }

  lemma HeldAt(s: System, t: ThreadId, i: nat)
    requires WellFormed(s.slots) && t < |s.threads| && i < |s.slots| && Names(s.slots[i], s.threads[t].path)
    ensures Held(s, t) == if s.slots[i].owner == t then s.slots[i].depth else 0
  {
    FindUnique(s.slots, s.threads[t].path, i);
  }

  /** What a step does to one thread: nothing, or exactly its next operation. */
  predicate Moves(s: System, s': System, t: ThreadId)
    requires t < |s.threads| && |s'.threads| == |s.threads|
  {
    && s'.threads[t].path == s.threads[t].path
    && (s.threads[t].path != "" ==>
         || (s'.threads[t].script == s.threads[t].script && Held(s', t) == Held(s, t))
         || (&& s.threads[t].script != [] && s'.threads[t].script == s.threads[t].script[1..]
             && After([s.threads[t].script[0]], Held(s, t)) == Some(Held(s', t))))
  }

  predicate Kept(s: System, s': System) {
    && Inv(s')
    && |s'.threads| == |s.threads|
    && forall u :: 0 <= u < |s.threads| ==> Moves(s, s', u)
  }

  lemma RecheckKeeps(s: System, t: ThreadId, i: nat)
    requires Inv(s) && t < |s.threads| && i < |s.slots| && Names(s.slots[i], s.threads[t].path)
    requires s.threads[t].path != "" && s.threads[t].script != [] && s.threads[t].script[0] == Acquire
    requires s.threads[t].status == Ready || s.threads[t].status == Woken(i)
    ensures Kept(s, Recheck(s, t, i))
  {
    var s' := Recheck(s, t, i);
    PathsKept(s.threads, s'.threads);
    HeldAt(s, t, i);
    assert SlotOk(s, i);
    assert s'.slots == s.slots[i := Rechecked(s, t, i)];
    forall u | 0 <= u < |s.threads| ensures ThreadOk(s', u) && Moves(s, s', u) {
      RecheckThread(s, t, i, u);
    }
    UpdateDepth(s.slots, i, Rechecked(s, t, i), "", t);
    forall j | 0 <= j < |s'.slots| ensures SlotOk(s', j) {
      assert SlotOk(s, j);
    }
  }

  function Rechecked(s: System, t: ThreadId, i: nat): Slot
    requires i < |s.slots|
  {
    if Blocked(s.slots[i], t) then s.slots[i] else Enter(s.slots[i], t)
  }

  lemma RecheckThread(s: System, t: ThreadId, i: nat, u: ThreadId)
    requires Inv(s) && t < |s.threads| && i < |s.slots| && Names(s.slots[i], s.threads[t].path)
    requires s.threads[t].path != "" && s.threads[t].script != [] && s.threads[t].script[0] == Acquire
    requires s.threads[t].status == Ready || s.threads[t].status == Woken(i)
    requires u < |s.threads|
    ensures ThreadOk(Recheck(s, t, i), u) && Moves(s, Recheck(s, t, i), u)
  {
    assert ThreadOk(s, u);
    HeldAt(s, t, i);
    assert Recheck(s, t, i).slots == s.slots[i := Rechecked(s, t, i)];
    UpdateDepth(s.slots, i, Rechecked(s, t, i), s.threads[u].path, u);
    if s.threads[u].path == s.threads[t].path {
      HeldAt(s, u, i);
    }
  }

  lemma TransactKeeps(s: System, t: ThreadId)
    requires Inv(s) && Enabled(s, Go(t)) && s.threads[t].status.Ready? && s.threads[t].script[0] == Transact
    ensures Kept(s, Next(s, Go(t)))
  {
    var s' := Next(s, Go(t));
    PathsKept(s.threads, s'.threads);
    forall u | 0 <= u < |s.threads| ensures ThreadOk(s', u) && Moves(s, s', u) {
      assert ThreadOk(s, u);
    }
    forall j | 0 <= j < |s'.slots| ensures SlotOk(s', j) {
      assert SlotOk(s, j);
    }
  }

  lemma ReleaseKeeps(s: System, t: ThreadId)
    requires Inv(s) && Enabled(s, Go(t)) && s.threads[t].status.Ready? && s.threads[t].script[0] == Release
    ensures Kept(s, Next(s, Go(t)))
  {
    var p := s.threads[t].path;
    var s' := Next(s, Go(t));
    PathsKept(s.threads, s'.threads);
    assert ThreadOk(s, t);
    if p != "" {
      assert Held(s, t) > 0;
      var i := Find(s.slots, p).value;
      var left := s.slots[i].(depth := s.slots[i].depth - 1);
      assert s'.slots == s.slots[i := left];
      forall u | 0 <= u < |s.threads| ensures ThreadOk(s', u) && Moves(s, s', u) {
        ReleaseThread(s, t, u);
      }
      UpdateDepth(s.slots, i, left, "", t);
      forall j | 0 <= j < |s'.slots| ensures SlotOk(s', j) {
        assert SlotOk(s, j);
      }
    } else {
      forall u | 0 <= u < |s.threads| ensures ThreadOk(s', u) && Moves(s, s', u) {
        assert ThreadOk(s, u);
      }
      forall j | 0 <= j < |s'.slots| ensures SlotOk(s', j) {
        assert SlotOk(s, j);
      }
    }
  }

  lemma ReleaseThread(s: System, t: ThreadId, u: ThreadId)
    requires Inv(s) && Enabled(s, Go(t)) && s.threads[t].status.Ready? && s.threads[t].script[0] == Release
    requires s.threads[t].path != "" && u < |s.threads|
    ensures var s' := Next(s, Go(t));
      |s'.threads| == |s.threads| && ThreadOk(s', u) && Moves(s, s', u)
  {
    assert ThreadOk(s, t) && ThreadOk(s, u);
    var s', p := Next(s, Go(t)), s.threads[t].path;
    var i := Find(s.slots, p).value;
    var left := s.slots[i].(depth := s.slots[i].depth - 1);
    assert s'.slots == s.slots[i := left];
    UpdateDepth(s.slots, i, left, s.threads[u].path, u);
    if s.threads[u].path == p {
      HeldAt(s, u, i);
    } else if !s.threads[u].status.Ready? {
      assert s.threads[u].status.slot != i;
    }
  }

  lemma AcquireKeeps(s: System, t: ThreadId)
    requires Inv(s) && Enabled(s, Go(t)) && s.threads[t].status.Ready? && s.threads[t].script[0] == Acquire
    ensures Kept(s, Next(s, Go(t)))
  {
    var p := s.threads[t].path;
    var s' := Next(s, Go(t));
    if p != "" {
      ReserveKeeps(s, t);
      var r := Reserve(s.slots, p);
      var mid := System(r.slots, s.threads);
      RecheckKeeps(mid, t, r.slot.value);
      forall u | 0 <= u < |s.threads| ensures Moves(s, s', u) {
        assert Moves(mid, s', u);
      }
    } else {
      PathsKept(s.threads, s'.threads);
      forall u | 0 <= u < |s.threads| ensures ThreadOk(s', u) && Moves(s, s', u) {
        assert ThreadOk(s, u);
      }
      forall j | 0 <= j < |s'.slots| ensures SlotOk(s', j) {
        assert SlotOk(s, j);
      }
    }
  }

  lemma SpuriousKeeps(s: System, t: ThreadId)
    requires Inv(s) && Enabled(s, Spurious(t))
    ensures Kept(s, Next(s, Spurious(t)))
  {
    var s' := Next(s, Spurious(t));
    PathsKept(s.threads, s'.threads);
    forall u | 0 <= u < |s.threads| ensures ThreadOk(s', u) && Moves(s, s', u) {
      assert ThreadOk(s, u);
    }
    forall j | 0 <= j < |s'.slots| ensures SlotOk(s', j) {
      assert SlotOk(s, j);
    }
  }

  /** Every step of every interleaving keeps the invariant, and moves each thread by at most one operation. */
  lemma StepKeeps(s: System, e: Event)
    requires Inv(s) && Enabled(s, e)
    ensures Kept(s, Next(s, e))
  {
    assert ThreadOk(s, e.t);
    if e.Spurious? {
      SpuriousKeeps(s, e.t);
    } else if s.threads[e.t].status.Woken? {
      RecheckKeeps(s, e.t, s.threads[e.t].status.slot);
    } else {
      match s.threads[e.t].script[0]
      case Acquire => AcquireKeeps(s, e.t);
      case Release => ReleaseKeeps(s, e.t);
      case Transact => TransactKeeps(s, e.t);
    }
  }

  // ---------------------------------------------------------------- runs

  /** Any interleaving: states[0] is a start, and each event was enabled where it happened. */
  predicate IsRun(states: seq<System>, events: seq<Event>) {
    && |states| == |events| + 1 && Initial(states[0])
    && forall k :: 0 <= k < |events| ==> Enabled(states[k], events[k]) && states[k + 1] == Next(states[k], events[k])
  }

  lemma {:induction false} RunInvariant(states: seq<System>, events: seq<Event>, k: nat)
    requires IsRun(states, events) && k < |states|
    ensures Inv(states[k]) && |states[k].threads| == |states[0].threads|
  {
    if k == 0 {
      InitialInv(states[0]);
    } else {
      RunInvariant(states, events, k - 1);
      StepKeeps(states[k - 1], events[k - 1]);
    }
  }

  /** A thread has performed a prefix of its script, and holds what that prefix left it with. */
  predicate Advanced(s: System, s': System, t: ThreadId)
    requires t < |s.threads|
  {
    && |s'.threads| == |s.threads| && s'.threads[t].path == s.threads[t].path
    && var before, now := s.threads[t].script, s'.threads[t].script;
       && |now| <= |before| && before[|before| - |now|..] == now
       && After(before[..|before| - |now|], Held(s, t)) == Some(Held(s', t))
  }

  lemma AdvancedOnce(s: System, last: System, next: System, t: ThreadId)
    requires t < |s.threads| && s.threads[t].path != "" && Advanced(s, last, t)
    requires |next.threads| == |last.threads| && Moves(last, next, t)
    ensures Advanced(s, next, t)
  {
    if next.threads[t].script != last.threads[t].script {
      OneMoreOperation(s.threads[t].script, last.threads[t].script, Held(s, t));
    }
  }

  lemma StepMoves(states: seq<System>, events: seq<Event>, k: nat, t: ThreadId)
    requires IsRun(states, events) && k < |events| && t < |states[k].threads|
    ensures |states[k + 1].threads| == |states[k].threads| && Moves(states[k], states[k + 1], t)
  {
    RunInvariant(states, events, k);
    assert Enabled(states[k], events[k]);
    StepKeeps(states[k], events[k]);
  }

  lemma {:induction false} ScriptAdvances(states: seq<System>, events: seq<Event>, a: nat, k: nat, t: ThreadId)
    requires IsRun(states, events) && a <= k < |states|
    requires t < |states[a].threads| && states[a].threads[t].path != ""
    ensures Advanced(states[a], states[k], t)
    decreases k
  {
    if k > a {
      ScriptAdvances(states, events, a, k - 1, t);
      StepMoves(states, events, k - 1, t);
      AdvancedOnce(states[a], states[k - 1], states[k], t);
    } else {
      NotYetAdvanced(states[a], t);
    }
  }

  lemma NotYetAdvanced(s: System, t: ThreadId)
    requires t < |s.threads|
    ensures Advanced(s, s, t)
  {
    assert s.threads[t].script[..0] == [];
  }

  lemma OneMoreOperation(before: seq<Op>, last: seq<Op>, d: nat)
    requires 0 < |last| <= |before| && before[|before| - |last|..] == last
    requires After(before[..|before| - |last|], d).Some?
    ensures var n := |before| - |last|;
      && before[n + 1..] == last[1..]
      && After(before[..n + 1], d) == After([last[0]], After(before[..n], d).value)
  {
    var n := |before| - |last|;
    assert before[n] == last[0];
    assert before[..n + 1] == before[..n] + [last[0]];
    AfterConcat(before[..n], [last[0]], d);
  }

  predicate Transacts(s: System, e: Event, t: ThreadId) {
    e == Go(t) && Enabled(s, e) && s.threads[t].status.Ready? && s.threads[t].script[0] == Transact
  }

  /** A thread that transacts holds its path, so nobody else does. */
  lemma TransactsAlone(s: System, e: Event, t: ThreadId, u: ThreadId)
    requires Inv(s) && t < |s.threads| && s.threads[t].path != ""
    requires Transacts(s, e, u) && s.threads[u].path == s.threads[t].path
    requires Held(s, t) > 0
    ensures t == u
  {
    assert ThreadOk(s, u);
    OneHolder(s.slots, s.threads[t].path, t, u);
  }

  /** No lost wake-up: whoever sleeps on a slot has an owner there to wake it, and is not that owner. */
  lemma NoLostWakeUp(states: seq<System>, events: seq<Event>, k: nat, t: ThreadId)
    requires IsRun(states, events) && k < |states| && t < |states[k].threads|
    requires states[k].threads[t].status.Asleep?
    ensures var i := states[k].threads[t].status.slot;
      && i < |states[k].slots| && states[k].slots[i].depth > 0 && states[k].slots[i].owner != t
      && Names(states[k].slots[i], states[k].threads[t].path)
  {
    RunInvariant(states, events, k);
    assert ThreadOk(states[k], t);
    HeldAt(states[k], t, states[k].threads[t].status.slot);
  }

  // ---------------------------------------------------------------- blocks of unit code

  /** The nesting of operations relative to where they start; None when they dip below it. */
  function Relative(ops: seq<Op>, r: nat): Option<nat> {
    if ops == [] then Some(r)
    else
      match ops[0]
      case Acquire => Relative(ops[1..], r + 1)
      case Release => if r > 0 then Relative(ops[1..], r - 1) else None
      case Transact => Relative(ops[1..], r)
  }

  lemma {:induction false} RelativeConcat(a: seq<Op>, b: seq<Op>, r: nat)
    ensures Relative(a + b, r) == match Relative(a, r) case None => None case Some(e) => Relative(b, e)
    decreases a
  {
    if a == [] {
      assert a + b == b;
    } else {
      assert (a + b)[1..] == a[1..] + b;
      match a[0]
      case Acquire => RelativeConcat(a[1..], b, r + 1);
      case Release => if r > 0 { RelativeConcat(a[1..], b, r - 1); }
      case Transact => RelativeConcat(a[1..], b, r);
    }
  }

  lemma {:induction false} RelativeIsAfter(ops: seq<Op>, r: nat, d: nat)
    requires d > 0
    ensures Relative(ops, r).Some? ==> After(ops, d + r) == Some(d + Relative(ops, r).value)
    decreases ops
  {
    if ops != [] {
      match ops[0]
      case Acquire => RelativeIsAfter(ops[1..], r + 1, d);
      case Release => if r > 0 { RelativeIsAfter(ops[1..], r - 1, d); }
      case Transact => RelativeIsAfter(ops[1..], r, d);
    }
  }

  /** An outermost acquire, a body that never gives back more than it took, and the matching release. */
  predicate Block(b: seq<Op>) {
    && |b| >= 2 && b[0] == Acquire && b[|b| - 1] == Release
    && Relative(b[1..|b| - 1], 0) == Some(0)
  }

  lemma InsideBody(body: seq<Op>, d: nat, m: nat)
    requires Relative(body, 0).Some? && m <= |body| && d > 0
    ensures After(body[..m], d).Some? && After(body[..m], d).value >= d
  {
    assert body == body[..m] + body[m..];
    RelativeConcat(body[..m], body[m..], 0);
    RelativeIsAfter(body[..m], 0, d);
  }

  lemma InsideBlock(b: seq<Op>, d: nat, n: nat)
    requires Block(b) && 0 < n < |b|
    ensures After(b[..n], d).Some? && After(b[..n], d).value > d
  {
    var body := b[1..|b| - 1];
    InsideBody(body, d + 1, n - 1);
    assert b[..n] == [Acquire] + body[..n - 1];
    AfterConcat([Acquire], body[..n - 1], d);
    assert After([Acquire], d) == After([], d + 1);
  }

  lemma WholeBlock(b: seq<Op>, d: nat)
    requires Block(b)
    ensures After(b, d) == Some(d)
  {
    var body := b[1..|b| - 1];
    assert b == [Acquire] + (body + [Release]);
    RelativeIsAfter(body, 0, d + 1);
    AfterConcat(body, [Release], d + 1);
    assert After([Release], d + 1) == After([], d);
  }

  /**
   A block is uninterrupted: from the moment its thread is past the outermost acquire until it is past the
   matching release, every transaction on that path is its own. And it leaves the depth it found.
   */
  lemma BlockUninterrupted(states: seq<System>, events: seq<Event>, a: nat, k: nat, t: ThreadId, u: ThreadId,
                           block: seq<Op>, rest: seq<Op>)
    requires IsRun(states, events) && a <= k < |states|
    requires t < |states[a].threads| == |states[k].threads| && states[a].threads[t].path != ""
    requires Block(block) && states[a].threads[t].script == block + rest
    requires |rest| <= |states[k].threads[t].script|
    ensures (|rest| < |states[k].threads[t].script| < |block| + |rest| && k < |events| && Transacts(states[k], events[k], u)
             && states[k].threads[u].path == states[k].threads[t].path) ==> u == t
    ensures states[k].threads[t].script == rest ==> Held(states[k], t) == Held(states[a], t)
  {
    ScriptAdvances(states, events, a, k, t);
    RunInvariant(states, events, k);
    var n := |block| + |rest| - |states[k].threads[t].script|;
    assert (block + rest)[..n] == block[..n];
    if n == |block| {
      assert block[..n] == block;
      assert states[k].threads[t].script == rest;
      WholeBlock(block, Held(states[a], t));
    } else if n > 0 {
      InsideBlock(block, Held(states[a], t), n);
    }
    if 0 < n < |block| && k < |events| && Transacts(states[k], events[k], u)
       && states[k].threads[u].path == states[k].threads[t].path {
      TransactsAlone(states[k], events[k], t, u);
    }
  }

  /** Unit code is any sequence of such blocks, so every unit thread is disciplined. */
  lemma {:induction false} BlocksAreDisciplined(blocks: seq<seq<Op>>)
    requires forall i :: 0 <= i < |blocks| ==> Block(blocks[i])
    ensures Disciplined(Concat(blocks), 0)
  {
    if blocks != [] {
      var b := blocks[0];
      WholeBlock(b, 0);
      BlocksAreDisciplined(blocks[1..]);
      AfterConcat(b, Concat(blocks[1..]), 0);
    }
  }

  // ---------------------------------------------------------------- no deadlock

  function Remaining(threads: seq<Thread>): nat {
    if threads == [] then 0 else |threads[0].script| + Remaining(threads[1..])
  }

  lemma {:induction false} RemainingDrops(threads: seq<Thread>, after: seq<Thread>, t: ThreadId)
    requires |after| == |threads| && t < |threads|
    requires forall u :: 0 <= u < |threads| ==> |after[u].script| <= |threads[u].script|
    requires |after[t].script| < |threads[t].script|
    ensures Remaining(after) < Remaining(threads)
  {
    if t == 0 {
      RemainingNotMore(threads[1..], after[1..]);
    } else {
      RemainingDrops(threads[1..], after[1..], t - 1);
    }
  }

  lemma {:induction false} RemainingNotMore(threads: seq<Thread>, after: seq<Thread>)
    requires |after| == |threads|
    requires forall u :: 0 <= u < |threads| ==> |after[u].script| <= |threads[u].script|
    ensures Remaining(after) <= Remaining(threads)
  {
    if threads != [] {
      RemainingNotMore(threads[1..], after[1..]);
    }
  }

  predicate Done(s: System) {
    forall t :: 0 <= t < |s.threads| ==> s.threads[t].script == []
  }

  /** A thread that is awake and not blocked performs its next operation. */
  lemma UnblockedGoes(s: System, t: ThreadId)
    requires Inv(s) && t < |s.threads| && s.threads[t].script != [] && !s.threads[t].status.Asleep?
    requires forall i :: 0 <= i < |s.slots| && Names(s.slots[i], s.threads[t].path) ==> !Blocked(s.slots[i], t)
    ensures Enabled(s, Go(t)) && Next(s, Go(t)).threads[t].script == s.threads[t].script[1..]
  {
    var th := s.threads[t];
    assert ThreadOk(s, t);
    if th.status.Ready? && th.path != "" && th.script[0] == Acquire {
      ReserveKeeps(s, t);
      var r := Reserve(s.slots, th.path);
      assert Held(System(r.slots, s.threads), t) == Held(s, t);
      if Find(s.slots, th.path).Some? {
        assert r.slots == s.slots;
      }
    }
  }

  /**
   No deadlock: while anything is left to do, some thread can be run that performs an operation. A blocked
   thread points at the owner of its path; that owner holds nothing else to wait for, so it is never blocked.
   */
  lemma SomeoneGoes(s: System) returns (t: ThreadId)
    requires Inv(s) && !Done(s)
    ensures t < |s.threads| && s.threads[t].script != []
    ensures Enabled(s, Go(t)) && Next(s, Go(t)).threads[t].script == s.threads[t].script[1..]
  {
    t :| 0 <= t < |s.threads| && s.threads[t].script != [];
    assert ThreadOk(s, t);
    var th := s.threads[t];
    if i :| 0 <= i < |s.slots| && Names(s.slots[i], th.path) && Blocked(s.slots[i], t) {
      var owner := s.slots[i].owner;
      assert SlotOk(s, i) && ThreadOk(s, owner);
      HeldAt(s, owner, i);
      forall j | 0 <= j < |s.slots| && Names(s.slots[j], s.threads[owner].path) ensures !Blocked(s.slots[j], owner) {
        assert j == i;
      }
      UnblockedGoes(s, owner);
      t := owner;
    } else {
      if th.status.Asleep? {
        HeldAt(s, t, th.status.slot);
        assert Blocked(s.slots[th.status.slot], t);
        assert false;
      }
      UnblockedGoes(s, t);
    }
  }

  function Perform(s: System, schedule: seq<ThreadId>): Option<System>
    decreases schedule
  {
    if schedule == [] then Some(s)
    else if Enabled(s, Go(schedule[0])) then Perform(Next(s, Go(schedule[0])), schedule[1..])
    else None
  }

  /** From every reachable state the whole system can still run to completion. */
  lemma {:induction false} CanAlwaysFinish(s: System) returns (schedule: seq<ThreadId>)
    requires Inv(s)
    ensures Perform(s, schedule).Some? && Done(Perform(s, schedule).value)
    decreases Remaining(s.threads)
  {
    if Done(s) {
      schedule := [];
    } else {
      var t := SomeoneGoes(s);
      var s' := Next(s, Go(t));
      StepKeeps(s, Go(t));
      forall u | 0 <= u < |s.threads| ensures |s'.threads[u].script| <= |s.threads[u].script| {
        NoScriptGrows(s, Go(t), u);
      }
      RemainingDrops(s.threads, s'.threads, t);
      var rest := CanAlwaysFinish(s');
      schedule := [t] + rest;
    }
  }

  lemma NoScriptGrows(s: System, e: Event, u: ThreadId)
    requires Enabled(s, e) && u < |s.threads|
    ensures |Next(s, e).threads| == |s.threads|
    ensures |Next(s, e).threads[u].script| <= |s.threads[u].script|
  {
  }

  // ---------------------------------------------------------------- past eight paths

  /** Nothing has happened yet: an empty table, and ten threads that each take their path, transact and give it back. */
  predicate NinePaths(s: System) {
    && |s.slots| == MAX_BUSES && (forall i :: 0 <= i < MAX_BUSES ==> s.slots[i] == FREE)
    && |s.threads| == 10
    && (forall t :: 0 <= t < 10 ==> s.threads[t] == Thread(s.threads[t].path, [Acquire, Transact, Release], Ready))
    && (forall t :: 0 <= t < 10 ==> 0 < |s.threads[t].path| <= PATH_ROOM)
    && (forall t, u :: 0 <= t < u < 9 ==> s.threads[t].path != s.threads[u].path)
    && s.threads[9].path == s.threads[8].path
  }

  function Upto(n: nat): (schedule: seq<ThreadId>)
    ensures |schedule| == n && forall i :: 0 <= i < n ==> schedule[i] == i
  {
    seq(n, i requires 0 <= i < n => i)
  }

  /** After the first n threads have acquired: each has a slot of its own, the other slots are free. */
  predicate Filled(s: System, start: System, n: nat)
    requires NinePaths(start) && n <= MAX_BUSES
  {
    && |s.slots| == MAX_BUSES && |s.threads| == 10
    && (forall i :: 0 <= i < n ==> s.slots[i] == Slot(start.threads[i].path, true, 1, i))
    && (forall i :: n <= i < MAX_BUSES ==> s.slots[i] == FREE)
    && (forall t :: n <= t < 10 ==> s.threads[t] == start.threads[t])
  }

  lemma FillOne(s: System, start: System, n: nat)
    requires NinePaths(start) && n < MAX_BUSES && Filled(s, start, n)
    ensures Enabled(s, Go(n)) && Filled(Next(s, Go(n)), start, n + 1)
  {
    var p := s.threads[n].path;
    assert Find(s.slots, p) == None;
    assert s.slots[n] == FREE && !s.slots[n].taken;
    assert forall i :: 0 <= i < n ==> s.slots[i].taken;
    assert FreeFrom(s.slots, 0) == Some(n);
    assert s.threads[n].script == [Acquire, Transact, Release];
  }

  lemma {:induction false} Fill(s: System, start: System, n: nat, rest: seq<ThreadId>) returns (s': System)
    requires NinePaths(start) && n <= MAX_BUSES && Filled(s, start, n) && |rest| >= MAX_BUSES - n
    requires forall i :: 0 <= i < MAX_BUSES - n ==> rest[i] == n + i
    ensures Filled(s', start, MAX_BUSES) && Perform(s, rest) == Perform(s', rest[MAX_BUSES - n..])
    decreases MAX_BUSES - n
  {
    if n == MAX_BUSES {
      assert rest[0..] == rest;
      s' := s;
    } else {
      FillOne(s, start, n);
      s' := Fill(Next(s, Go(n)), start, n + 1, rest[1..]);
      assert rest[1..][MAX_BUSES - n - 1..] == rest[MAX_BUSES - n..];
    }
  }

  /** With all slots taken an acquire of another path returns at once and leaves no trace in the table. */
  lemma GoesUncoordinated(s: System, start: System, t: ThreadId)
    requires NinePaths(start) && |s.slots| == MAX_BUSES && |s.threads| == 10 && (t == 8 || t == 9)
    requires forall i :: 0 <= i < MAX_BUSES ==> s.slots[i] == Slot(start.threads[i].path, true, 1, i)
    requires s.threads[t] == start.threads[t]
    ensures Enabled(s, Go(t)) && Next(s, Go(t)) == s.(threads := s.threads[t := Advance(s.threads[t])])
    ensures Advance(s.threads[t]).script == [Transact, Release] && Advance(s.threads[t]).status == Ready
  {
    assert s.threads[t].script == [Acquire, Transact, Release];
    assert Find(s.slots, s.threads[t].path) == None;
    assert FreeFrom(s.slots, 0) == None;
  }

  /**
   The bound of eight paths is needed. From an empty table, once eight paths are in use, two threads on a ninth
   come to transact at the same time.
   */
  lemma NinthPathIsUnprotected(start: System)
    requires NinePaths(start)
    ensures var r := Perform(start, Upto(10));
      && r.Some? && |r.value.threads| == 10 && r.value.threads[8].path == r.value.threads[9].path
      && Transacts(r.value, Go(8), 8) && Transacts(r.value, Go(9), 9)
  {
    var full := Fill(start, start, 0, Upto(10));
    assert Upto(10)[8..] == [8, 9];
    GoesUncoordinated(full, start, 8);
    var next := Next(full, Go(8));
    GoesUncoordinated(next, start, 9);
    var last := Next(next, Go(9));
    assert [8, 9][1..] == [9] && [9][1..] == [];
    assert Perform(full, [8, 9]) == Perform(next, [9]);
    assert Perform(next, [9]) == Perform(last, []);
  }
}
