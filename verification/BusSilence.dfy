/**
 The silence between transactions of different units on one port (enforce_bus_handoff_silence in
 lib/modbus/modbus_rtu_client.c), in the arithmetic of struct timespec: C's division truncates toward zero.
 */
module BusSilence {
  import opened Words

  const SILENCE_MS := 30
  const SECOND := 1_000_000_000
  const MS := 1_000_000

  /** A reading of the monotonic clock. */
  datatype Time = Time(sec: int, nsec: int)

  predicate Proper(t: Time) {
    0 <= t.nsec < SECOND
  }

  function Ns(t: Time): int {
    t.sec * SECOND + t.nsec
  }

  datatype Last = Last(unit: byte, time: Time)

  /** C's division. */
  function Truncated(a: int, b: int): int
    requires b > 0
  {
    if a >= 0 then a / b else -((-a) / b)
  }

  function ElapsedMs(now: Time, last: Time): int {
    (now.sec - last.sec) * 1000 + Truncated(now.nsec - last.nsec, MS)
  }

  function SilenceUs(now: Time, last: Time): nat {
    var e := ElapsedMs(now, last);
    if 0 <= e < SILENCE_MS then (SILENCE_MS - e) * 1000 else 0
  }

  /** How long a unit keeps silent before its transaction, in microseconds. */
  function SilenceFor(last: Option<Last>, unit: byte, now: Time): nat {
    if last.None? || last.value.unit == unit then 0 else SilenceUs(now, last.value.time)
  }

  /**
   None for the first transaction on a port, for the unit that transacted last, and when the clock shows a
   negative time or at least 30 ms since; otherwise what completes the elapsed milliseconds to 30.
   */
  predicate Delay(last: Option<Last>, unit: byte, now: Time, usec: nat) {
    if last.None? || last.value.unit == unit then usec == 0
    else
      var e := ElapsedMs(now, last.value.time);
      if e < 0 || e >= 30 then usec == 0 else 0 < usec <= 30_000 && 1000 * e + usec == 30_000
  }

  lemma SilenceExactly(last: Option<Last>, unit: byte, now: Time, usec: nat)
    ensures usec == SilenceFor(last, unit, now) <==> Delay(last, unit, now, usec)
  {
  }

  /** The earliest moment a transaction of another unit can start, in nanoseconds after the last one ended. */
  function EarliestGap(now: Time, last: Time): int {
    Ns(now) - Ns(last) + SilenceUs(now, last) * 1000
  }

  /** Borrowing in the nanosecond field turns truncation into rounding up: the elapsed time may look up to 1 ms longer. */
  lemma ElapsedBounds(now: Time, last: Time)
    requires Proper(now) && Proper(last) && Ns(last) <= Ns(now)
    ensures var e, gap := ElapsedMs(now, last), Ns(now) - Ns(last);
      && 0 <= e && (e - 1) * 1_000_000 < gap < (e + 1) * 1_000_000
      && (now.nsec >= last.nsec ==> e * 1_000_000 <= gap)
      && (now.nsec < last.nsec ==> gap <= e * 1_000_000)
      && (e * 1_000_000 == gap <==> (now.nsec - last.nsec) % 1_000_000 == 0)
  {
    var d := now.nsec - last.nsec;
    var q := Truncated(d, MS);
    if d >= 0 {
      assert d == q * MS + d % MS;
    } else {
      assert -d == (-q) * MS + (-d) % MS;
      assert d % MS == 0 <==> (-d) % MS == 0;
    }
  }

  /** With a monotonic clock the gap is always more than 29 ms. */
  lemma GapAbove29(now: Time, last: Time)
    requires Proper(now) && Proper(last) && Ns(last) <= Ns(now)
    ensures EarliestGap(now, last) > 29_000_000
  {
    ElapsedBounds(now, last);
  }

  /** The intended 30 ms is guaranteed exactly when nothing was borrowed, or no fraction was lost, or none was needed. */
  lemma GapOf30Exactly(now: Time, last: Time)
    requires Proper(now) && Proper(last) && Ns(last) <= Ns(now)
    ensures EarliestGap(now, last) >= 30_000_000 <==>
      now.nsec >= last.nsec || (now.nsec - last.nsec) % 1_000_000 == 0 || Ns(now) - Ns(last) >= 30_000_000
  {
    ElapsedBounds(now, last);
  }

  /** Across a second boundary one nanosecond counts as a whole millisecond, and the silence is 29 ms and 1 ns. */
  lemma BorrowShortensTheGap()
    ensures EarliestGap(Time(1, 0), Time(0, 999_999_999)) == 29_000_001
  {
  }
}
