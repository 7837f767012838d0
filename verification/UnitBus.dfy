/**
 The bus as the code of one unit uses it: every acquire, release and RTU transaction at the place where the
 code makes it. What a thread has done so far is its trace; the interleavings of such traces are the subject
 of BusThreads. A unit on TCP has no path: it takes the empty one, and its exchanges are not on the bus.
 */
module UnitBus {
  import opened Words
  import opened Modbus
  import opened BusThreads

  class Bus {
    const rtu: bool
    var depth: nat
    ghost var trace: seq<Op>

    /** The code so far transacted only while it held the path and gave back only what it held. */
    ghost predicate Valid()
      reads this
    {
      After(trace, 0) == Some(depth)
    }

    constructor (rtu: bool)
      ensures Valid() && this.rtu == rtu && depth == 0 && trace == []
    {
      this.rtu, this.depth, this.trace := rtu, 0, [];
    }

    /** bus_coord_acquire, once it returns. */
    method Take()
      requires Valid()
      modifies this
      ensures Valid() && depth == old(depth) + 1 && trace == old(trace) + [Acquire]
    {
      AfterConcat(trace, [Acquire], 0);
      assert After([Acquire], depth) == After([], depth + 1);
      depth, trace := depth + 1, trace + [Acquire];
    }

    /** bus_coord_release. */
    method Give()
      requires Valid() && depth > 0
      modifies this
      ensures Valid() && depth == old(depth) - 1 && trace == old(trace) + [Release]
    {
      AfterConcat(trace, [Release], 0);
      assert After([Release], depth) == After([], depth - 1);
      depth, trace := depth - 1, trace + [Release];
    }

    /** do_transaction: one request on the wire, which only the holder of the path may send. */
    method Exchange()
      requires Valid() && depth > 0
      modifies this
      ensures Valid() && depth == old(depth) && trace == old(trace) + [Transact]
    {
      AfterConcat(trace, [Transact], 0);
      assert After([Transact], depth) == After([], depth);
      trace := trace + [Transact];
    }
  }

  // ---------------------------------------------------------------- what the unit code leaves in the trace

  /** read_device_value: its own acquire and release; a read of more than 125 registers is never sent. */
  function ReadOps(rtu: bool, len: nat): seq<Op> {
    if !rtu then []
    else if len <= MAX_READ then [Acquire, Transact, Release]
    else [Acquire, Release]
  }

  /** The first n reads of a scan. */
  function ReadsOps(rtu: bool, lens: seq<nat>, n: nat): seq<Op>
    decreases lens
  {
    if n == 0 || lens == [] then [] else ReadOps(rtu, lens[0]) + ReadsOps(rtu, lens[1..], n - 1)
  }

  /** read_profile_to_pool over these segments, when n of them were read. */
  function ScanOps(rtu: bool, lens: seq<nat>, n: nat): seq<Op> {
    [Acquire] + ReadsOps(rtu, lens, n) + [Release]
  }

  function Exchanged(n: nat): (ops: seq<Op>)
    ensures |ops| == n
  {
    if n == 0 then [] else Exchanged(n - 1) + [Transact]
  }

  /** Code that makes n exchanges under one acquire: a drain, the writes of an init sequence, a connect. */
  function BurstOps(rtu: bool, n: nat): seq<Op> {
    [Acquire] + Exchanged(if rtu then n else 0) + [Release]
  }

  /** How often the wire is used. */
  function Sent(ops: seq<Op>): nat {
    if ops == [] then 0 else Sent(ops[..|ops| - 1]) + if ops[|ops| - 1] == Transact then 1 else 0
  }

  lemma {:induction false} SentConcat(a: seq<Op>, b: seq<Op>)
    ensures Sent(a + b) == Sent(a) + Sent(b)
  {
    if b == [] {
      assert a + b == a;
    } else {
      var n := |b| - 1;
      assert (a + b)[..|a + b| - 1] == a + b[..n];
      SentConcat(a, b[..n]);
    }
  }

  /** The reads among the first n that ask for no more than 125 registers. */
  function Short(lens: seq<nat>, n: nat): nat
    decreases lens
  {
    if n == 0 || lens == [] then 0 else (if lens[0] <= 125 then 1 else 0) + Short(lens[1..], n - 1)
  }

  lemma {:induction false} ReadsSent(rtu: bool, lens: seq<nat>, n: nat)
    ensures Sent(ReadsOps(rtu, lens, n)) == if rtu then Short(lens, n) else 0
    decreases lens
  {
    if n > 0 && lens != [] {
      ReadsSent(rtu, lens[1..], n - 1);
      SentConcat(ReadOps(rtu, lens[0]), ReadsOps(rtu, lens[1..], n - 1));
      assert [Acquire, Transact, Release][..2] == [Acquire, Transact];
      assert [Acquire, Transact][..1] == [Acquire] && [Acquire, Release][..1] == [Acquire];
      assert Sent([Acquire]) == Sent([]);
    }
  }

  lemma {:induction false} ExchangedSent(n: nat)
    ensures Sent(Exchanged(n)) == n
  {
    if n > 0 {
      ExchangedSent(n - 1);
      assert Exchanged(n)[..n - 1] == Exchanged(n - 1);
    }
  }

  lemma EnclosedSent(body: seq<Op>)
    ensures Sent([Acquire] + body + [Release]) == Sent(body)
  {
    SentConcat([Acquire], body);
    SentConcat([Acquire] + body, [Release]);
    assert Sent([Acquire]) == Sent([]) && Sent([Release]) == Sent([]);
  }

  /** A scan uses the wire once for every read it makes of at most 125 registers, other code once an exchange; on TCP neither does. */
  lemma WireUse(rtu: bool, lens: seq<nat>, n: nat)
    ensures Sent(ScanOps(rtu, lens, n)) == if rtu then Short(lens, n) else 0
    ensures Sent(BurstOps(rtu, n)) == if rtu then n else 0
  {
    ReadsSent(rtu, lens, n);
    ExchangedSent(if rtu then n else 0);
    EnclosedSent(ReadsOps(rtu, lens, n));
    EnclosedSent(Exchanged(if rtu then n else 0));
  }

  /** Acquire, work, release, one after the other. */
  lemma Enclosed(before: seq<Op>, body: seq<Op>)
    ensures ((before + [Acquire]) + body) + [Release] == before + ([Acquire] + body + [Release])
  {
  }

  lemma {:induction false} ReadsRelative(rtu: bool, lens: seq<nat>, n: nat)
    ensures Relative(ReadsOps(rtu, lens, n), 0) == Some(0)
    decreases lens
  {
    if n > 0 && lens != [] {
      ReadsRelative(rtu, lens[1..], n - 1);
      ReadRelative(rtu, lens[0]);
      RelativeConcat(ReadOps(rtu, lens[0]), ReadsOps(rtu, lens[1..], n - 1), 0);
    }
  }

  lemma ReadRelative(rtu: bool, len: nat)
    ensures Relative(ReadOps(rtu, len), 0) == Some(0)
  {
    if rtu {
      assert Relative([Release], 1) == Relative([], 0);
      assert [Acquire, Release][1..] == [Release];
      assert [Transact, Release][1..] == [Release];
      assert [Acquire, Transact, Release][1..] == [Transact, Release];
    }
  }

  lemma {:induction false} ExchangedRelative(n: nat)
    ensures Relative(Exchanged(n), 0) == Some(0)
  {
    if n > 0 {
      ExchangedRelative(n - 1);
      RelativeConcat(Exchanged(n - 1), [Transact], 0);
      assert Relative([Transact], 0) == Relative([], 0);
    }
  }

  lemma BalancedIsBlock(body: seq<Op>)
    requires Relative(body, 0) == Some(0)
    ensures Block([Acquire] + body + [Release])
  {
    var b := [Acquire] + body + [Release];
    assert b[1..|b| - 1] == body;
  }

  /** A scan in a thread: from its first acquire to its last release nobody else transacts on the path. */
  lemma ScanUninterrupted(states: seq<System>, events: seq<Event>, a: nat, k: nat, t: nat, u: nat,
                          rtu: bool, lens: seq<nat>, n: nat, rest: seq<Op>)
    requires IsRun(states, events) && a <= k < |events| && Transacts(states[k], events[k], u)
    requires t < |states[a].threads| == |states[k].threads| && states[a].threads[t].path != ""
    requires states[a].threads[t].script == ScanOps(rtu, lens, n) + rest
    requires |rest| < |states[k].threads[t].script| < |ScanOps(rtu, lens, n)| + |rest|
    requires u < |states[k].threads| && states[k].threads[u].path == states[k].threads[t].path
    ensures u == t
  {
    UnitCodeIsBlocks(rtu, lens, n);
    BlockUninterrupted(states, events, a, k, t, u, ScanOps(rtu, lens, n), rest);
  }

  /** However many segments a scan gets through and however many writes a drain makes, each is a block. */
  lemma UnitCodeIsBlocks(rtu: bool, lens: seq<nat>, n: nat)
    ensures Block(ScanOps(rtu, lens, n)) && Block(BurstOps(rtu, n))
  {
    ReadsRelative(rtu, lens, n);
    ExchangedRelative(if rtu then n else 0);
    BalancedIsBlock(ReadsOps(rtu, lens, n));
    BalancedIsBlock(Exchanged(if rtu then n else 0));
  }
}
