/**
 Pump duty and inverter frequency (src/inverter_cmos_bridge.c): duty is in hundredths of a percent, 0 to
 10000; frequency lies between the two limits read from the pool. Both conversions round.
 */
module DutyConversion {
  import opened Words

  const FULL: u16 := 10000
  const WORD32 := 0x1_0000_0000

  /** The quotient part and the remainder part of a duty, each rounded down by itself. */
  function Share(range: nat, duty: nat): nat {
    range * (duty / 100) / 100 + range * (duty % 100) / 10000
  }

  /** The duty of a frequency this far above the lower limit, rounded to the nearest. */
  function Rounded(range: nat, delta: nat): nat
    requires range > 0
  {
    (delta * 10000 + range / 2) / range
  }

  /** duty_convert_frequency. */
  function ToFrequency(lower: u16, upper: u16, duty: u16): u16 {
    if upper <= lower then lower
    else if duty >= FULL then upper
    else
      ShareBounds(upper - lower, duty);
      lower + Share(upper - lower, duty)
  }

  /** frequency_convert_duty. */
  function ToDuty(lower: u16, upper: u16, frequency: u16): u16 {
    if upper <= lower || frequency <= lower then 0
    else if frequency >= upper then FULL
    else
      RoundedBounds(upper - lower, frequency - lower);
      Rounded(upper - lower, frequency - lower)
  }

  // ---------------------------------------------------------------- rounding

  lemma Quotient(a: int, b: int)
    requires b > 0
    ensures (a / b) * b <= a < (a / b) * b + b
  {
  }

  lemma Times(x: int, y: int, b: int)
    requires b > 0
    ensures x <= y ==> x * b <= y * b
  {
  }

  lemma QuotientAtLeast(a: int, b: int, k: int)
    requires b > 0 && k * b <= a
    ensures k <= a / b
  {
    Quotient(a, b);
    Times(a / b + 1, k, b);
  }

  lemma QuotientBelow(a: int, b: int, k: int)
    requires b > 0 && a < k * b
    ensures a / b < k
  {
    Quotient(a, b);
    Times(k, a / b, b);
  }

  lemma SplitProduct(range: nat, duty: nat)
    ensures range * duty == 100 * (range * (duty / 100)) + range * (duty % 100)
  {
    assert duty == 100 * (duty / 100) + duty % 100;
    assert range * duty == range * (100 * (duty / 100)) + range * (duty % 100);
    assert range * (100 * (duty / 100)) == 100 * (range * (duty / 100));
  }

  /** Two roundings: never above the exact share, and less than two below it. */
  lemma ShareBounds(range: nat, duty: nat)
    ensures 10000 * Share(range, duty) <= range * duty < 10000 * Share(range, duty) + 20000
    ensures duty <= 10000 ==> Share(range, duty) <= range
  {
    SplitProduct(range, duty);
    if duty <= 10000 {
      assert range * duty <= range * 10000;
    }
  }

  lemma RoundedBounds(range: nat, delta: nat)
    requires range > 0
    ensures var d := Rounded(range, delta); 2 * d * range <= 20000 * delta + range < 2 * d * range + 2 * range + 2
    ensures delta <= range ==> Rounded(range, delta) <= 10000
  {
    var d := Rounded(range, delta);
    Quotient(delta * 10000 + range / 2, range);
    assert 2 * d * range == 2 * (d * range);
    if delta <= range {
      assert 10001 * range == 10000 * range + range;
      QuotientBelow(delta * 10000 + range / 2, range, 10001);
    }
  }

  /** Nothing overflows on the way: products and sums fit 32 bits, and the results fit 16. */
  lemma NoOverflow(lower: u16, upper: u16, duty: u16, frequency: u16)
    requires lower < upper
    ensures duty < FULL ==>
      && (upper - lower) * (duty / 100) < WORD32 && (upper - lower) * (duty % 100) < WORD32
      && lower + Share(upper - lower, duty) <= 0xFFFF
    ensures lower < frequency < upper ==>
      && (frequency - lower) * 10000 + (upper - lower) / 2 < WORD32
      && Rounded(upper - lower, frequency - lower) <= 0xFFFF
  {
    var range := upper - lower;
    if duty < FULL {
      ShareBounds(range, duty);
      assert range * (duty / 100) <= 0x1_0000 * 100 by {
        Product(range, 0x1_0000, duty / 100, 100);
      }
      assert range * (duty % 100) <= 0x1_0000 * 100 by {
        Product(range, 0x1_0000, duty % 100, 100);
      }
    }
    if lower < frequency < upper {
      RoundedBounds(range, frequency - lower);
    }
  }

  lemma Product(a: nat, a': nat, b: nat, b': nat)
    requires a <= a' && b <= b'
    ensures a * b <= a' * b'
  {
    assert a * b <= a' * b;
    assert a' * b <= a' * b';
  }

  // ---------------------------------------------------------------- duty to frequency

  /** The frequency stays between the limits, and is at most the exact value and less than 2 below it. */
  lemma FrequencyIsClose(lower: u16, upper: u16, duty: u16)
    requires lower < upper && duty <= 10000
    ensures var f, range := ToFrequency(lower, upper, duty), upper - lower;
      && lower <= f <= upper
      && 10000 * (f - lower) <= range * duty < 10000 * (f - lower) + 20000
  {
    ShareBounds(upper - lower, duty);
  }

  lemma ShareStep(range: nat, duty: nat)
    ensures Share(range, duty) <= Share(range, duty + 1)
  {
    var q, r := duty / 100, duty % 100;
    if r < 99 {
      assert (duty + 1) / 100 == q && (duty + 1) % 100 == r + 1;
      assert range * (r + 1) == range * r + range;
    } else {
      assert (duty + 1) / 100 == q + 1 && (duty + 1) % 100 == 0;
      assert range * (q + 1) == range * q + range;
      assert range * 0 == 0;
    }
  }

  lemma {:induction false} ShareMonotone(range: nat, duty: nat, more: nat)
    requires duty <= more
    ensures Share(range, duty) <= Share(range, more)
    decreases more
  {
    if duty < more {
      ShareMonotone(range, duty, more - 1);
      ShareStep(range, more - 1);
    }
  }

  /** Both conversions are clamped: to the limits, to 0 and 10000, and to lower and 0 when the limits are no range. */
  lemma Clamps(lower: u16, upper: u16, duty: u16, frequency: u16)
    ensures upper <= lower ==> ToFrequency(lower, upper, duty) == lower && ToDuty(lower, upper, frequency) == 0
    ensures lower < upper && duty == 0 ==> ToFrequency(lower, upper, duty) == lower
    ensures lower < upper && duty >= 10000 ==> ToFrequency(lower, upper, duty) == upper
    ensures lower < upper && frequency <= lower ==> ToDuty(lower, upper, frequency) == 0
    ensures lower < upper && frequency >= upper ==> ToDuty(lower, upper, frequency) == 10000
  {
    if lower < upper && duty == 0 {
      FrequencyIsClose(lower, upper, 0);
    }
  }

  /** The two roundings do add up to more than one unit: with limits 0 and 199, duty 199 gives 2, though 3.96 is exact. */
  lemma TwoRoundings()
    ensures ToFrequency(0, 199, 199) == 2 && 199 * 199 > 3 * 10000
  {
  }

  /** The duty of a frequency between the limits is the nearest there is: at most half a step, and a unit of rounding, off. */
  lemma DutyIsNearest(lower: u16, upper: u16, frequency: u16)
    requires lower < upper && lower <= frequency <= upper
    ensures var d, range := ToDuty(lower, upper, frequency), upper - lower;
      2 * d * range - range <= 20000 * (frequency - lower) < 2 * d * range + range + 2
  {
    DutyIsRounded(lower, upper, frequency);
    RoundedBounds(upper - lower, frequency - lower);
  }

  /** More duty never means less frequency, across the clamps too. */
  lemma FrequencyMonotone(lower: u16, upper: u16, duty: u16, more: u16)
    requires duty <= more
    ensures ToFrequency(lower, upper, duty) <= ToFrequency(lower, upper, more)
  {
    if lower < upper {
      ShareMonotone(upper - lower, duty, more);
      ShareBounds(upper - lower, duty);
    }
  }

  // ---------------------------------------------------------------- there and back

  /** On the open interval and at both ends, a frequency's duty is the rounded one. */
  lemma DutyIsRounded(lower: u16, upper: u16, frequency: u16)
    requires lower < upper && lower <= frequency <= upper
    ensures ToDuty(lower, upper, frequency) == Rounded(upper - lower, frequency - lower)
  {
    var range := upper - lower;
    if frequency == lower {
      QuotientBelow(0 * 10000 + range / 2, range, 1);
    } else if frequency == upper {
      QuotientAtLeast(range * 10000 + range / 2, range, 10000);
      RoundedBounds(range, range);
    }
  }

  lemma FrequencyIsShare(lower: u16, upper: u16, duty: u16)
    requires lower < upper && duty <= FULL
    ensures ToFrequency(lower, upper, duty) == lower + Share(upper - lower, duty)
  {
    if duty == FULL {
      assert (upper - lower) * 100 / 100 == upper - lower;
      assert (upper - lower) * 0 == 0;
    }
  }

  /** Duty to frequency and back never rises, and loses less than 20000 and half the range, in units of the range. */
  lemma DutyThereAndBack(lower: u16, upper: u16, duty: u16)
    requires lower < upper && duty <= 10000
    ensures var back, range := ToDuty(lower, upper, ToFrequency(lower, upper, duty)), upper - lower;
      back <= duty && (duty - back) * range < 20000 + (range + 1) / 2
  {
    var f, range := ToFrequency(lower, upper, duty), upper - lower;
    FrequencyIsClose(lower, upper, duty);
    DutyIsRounded(lower, upper, f);
    var back := Rounded(range, f - lower);
    RoundedBounds(range, f - lower);
    BackNotAbove(range, f - lower, duty);
    Differences(range, duty, back);
    LossBound(range, f - lower, range * duty, range * back);
  }

  lemma Differences(range: nat, duty: nat, back: nat)
    ensures (duty - back) * range == range * duty - range * back
    ensures 2 * back * range == 2 * (range * back)
  {
  }

  lemma BackNotAbove(range: nat, delta: nat, duty: nat)
    requires range > 0 && 10000 * delta <= range * duty
    ensures Rounded(range, delta) <= duty
  {
    assert (duty + 1) * range == range * duty + range;
    QuotientBelow(delta * 10000 + range / 2, range, duty + 1);
  }

  /** The two roundings added up; exact is 10000 times the exact share, kept the same for what came back. */
  lemma LossBound(range: nat, delta: nat, exact: nat, kept: nat)
    requires exact < 10000 * delta + 20000 && 20000 * delta + range < 2 * kept + 2 * range + 2
    ensures exact - kept < 20000 + (range + 1) / 2
  {
  }

  /** What comes back from a frequency's duty, in terms of the distance above the lower limit. */
  function Back(range: nat, delta: nat): nat
    requires range > 0
  {
    Share(range, Rounded(range, delta))
  }

  lemma SmallRangeReturns(range: nat, delta: nat)
    requires 0 < range < 20000 && delta <= range
    ensures Back(range, delta) <= delta <= Back(range, delta) + 2
  {
    var d := Rounded(range, delta);
    RoundedBounds(range, delta);
    ShareBounds(range, d);
    assert 2 * d * range == 2 * (range * d);
    ReturnBound(range, delta, range * d, Share(range, d));
  }

  lemma ReturnBound(range: nat, delta: nat, exact: nat, share: nat)
    requires range < 20000 && 2 * exact <= 20000 * delta + range < 2 * exact + 2 * range + 2
    requires 10000 * share <= exact < 10000 * share + 20000
    ensures share <= delta <= share + 2
  {
  }

  /** A wide range rounds the last step up to full duty. */
  lemma WideRangeOvershoots(range: nat)
    requires range >= 20000
    ensures Rounded(range, range - 1) == 10000
  {
    assert 10000 * range <= (range - 1) * 10000 + range / 2;
    QuotientAtLeast((range - 1) * 10000 + range / 2, range, 10000);
    RoundedBounds(range, range - 1);
  }

  predicate Returns(lower: u16, upper: u16, f: u16) {
    f - 2 <= ToFrequency(lower, upper, ToDuty(lower, upper, f)) <= f
  }

  /** Frequency to duty and back stays within [f - 2, f] for every frequency exactly when the range is below 20000. */
  lemma FrequencyThereAndBackExactly(lower: u16, upper: u16)
    requires lower < upper
    ensures (forall f: u16 :: lower <= f <= upper ==> Returns(lower, upper, f)) <==> upper - lower < 20000
  {
    var range := upper - lower;
    if range < 20000 {
      forall f: u16 | lower <= f <= upper ensures Returns(lower, upper, f) {
        DutyIsRounded(lower, upper, f);
        RoundedBounds(range, f - lower);
        FrequencyIsShare(lower, upper, ToDuty(lower, upper, f));
        SmallRangeReturns(range, f - lower);
      }
    } else {
      DutyIsRounded(lower, upper, upper - 1);
      WideRangeOvershoots(range);
      assert ToFrequency(lower, upper, FULL) == upper;
      assert !Returns(lower, upper, upper - 1);
    }
  }
}
