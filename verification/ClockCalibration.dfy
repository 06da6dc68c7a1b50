/** The calibrated high-precision clock: a counter frequency estimated over one interval, and the
    conversion of counter values to nanoseconds, in 64-bit arithmetic. */
module ClockCalibration {
  import opened MachineInts
  import opened Wrappers

  const NANOS_PER_SECOND: nat := 1_000_000_000

  function SaturatingSub(a: U64, b: U64): U64 {
    if a >= b then a - b else 0
  }

  function SaturatingAdd(a: U64, b: U64): U64 {
    if a + b < U64_SIZE then a + b else U64_SIZE - 1
  }

  /** Counter ticks times a billion, divided in 128 bits. */
  function Quotient(ticks: U64, divisor: nat): nat
    requires divisor > 0
  {
    ticks * NANOS_PER_SECOND / divisor
  }

  function Clamped(x: nat): U64 {
    if x < U64_SIZE then x else U64_SIZE - 1
  }

  /** The nanoseconds that `ticks` stand for, cut to 64 bits. */
  function Elapsed(ticks: U64, freq: U64): U64
    requires freq > 0
  {
    Quotient(ticks, freq) % U64_SIZE
  }

  datatype Fault = ZeroInterval | NotCalibrated

  class Clock {
    var freqNs: U64
    var initCounter: U64
    var initTimeNs: U64

    constructor ()
      ensures freqNs == initCounter == initTimeNs == 0
    {
      freqNs, initCounter, initTimeNs := 0, 0, 0;
    }

    /** `calibrate`, given the readings before and after the sleep. */
    method Calibrate(startCounter: U64, startTime: U64, endCounter: U64, endTime: U64)
      returns (r: Result<bool, Fault>)
      modifies this
      ensures r == if endCounter <= startCounter then Ok(false)
                   else if endTime <= startTime then Err(ZeroInterval) else Ok(true)
      ensures r == Ok(true) ==>
                initCounter == startCounter && initTimeNs == startTime &&
                freqNs == Clamped(Quotient(endCounter - startCounter, endTime - startTime))
      ensures r == Ok(true) ==> IsTicksPerSecond(freqNs, endCounter - startCounter, endTime - startTime)
      ensures r != Ok(true) ==> unchanged(this)
    {
      var counterDiff := SaturatingSub(endCounter, startCounter);
      var timeDiff := SaturatingSub(endTime, startTime);
      if counterDiff > 0 {
        if timeDiff == 0 { return Err(ZeroInterval); }
        FrequencyIsTicksPerSecond(counterDiff, timeDiff);
        freqNs := Clamped(counterDiff * NANOS_PER_SECOND / timeDiff);
        initCounter := startCounter;
        initTimeNs := startTime;
        return Ok(true);
      }
      return Ok(false);
    }

    /** `counter_to_nanos`, given the counter reading. */
    method CounterToNanos(counter: U64) returns (r: Result<U64, Fault>)
      ensures r == if freqNs == 0 then Err(NotCalibrated)
                   else Ok(Reading(freqNs, initCounter, initTimeNs, counter))
      ensures forall nanos: nat ::
                freqNs > 0 && HasElapsed(nanos, initCounter, counter, freqNs) ==>
                  initTimeNs + nanos < 0x1_0000_0000_0000_0000 ==> r == Ok(initTimeNs + nanos)
    {
      var counterDiff := SaturatingSub(counter, initCounter);
      if freqNs == 0 { return Err(NotCalibrated); }
      ReadingIsInNanoseconds(freqNs, initCounter, initTimeNs, counter);
      return Ok(SaturatingAdd(initTimeNs, counterDiff * NANOS_PER_SECOND / freqNs % U64_SIZE));
    }
  }

  function Reading(freq: U64, initCounter: U64, initTime: U64, counter: U64): U64
    requires freq > 0
  {
    SaturatingAdd(initTime, Elapsed(SaturatingSub(counter, initCounter), freq))
  }

  // ---------------------------------------------------------------- division

  lemma Division(x: nat, y: nat)
    requires y > 0
    ensures (x / y) * y <= x < (x / y + 1) * y
  {
    assert x == (x / y) * y + x % y;
  }

  lemma AtLeast(x: nat, y: nat, q: nat)
    requires y > 0 && q * y <= x
    ensures q <= x / y
  {
    Division(x, y);
    var d := x / y;
    assert d < q ==> (d + 1) * y <= q * y;
  }

  lemma Below(x: nat, y: nat, q: nat)
    requires y > 0 && x < q * y
    ensures x / y < q
  {
    Division(x, y);
    var d := x / y;
    assert q <= d ==> q * y <= d * y;
  }

  // ---------------------------------------------------------------- units

  /** `freq` is the whole part of the ticks per second over an interval of `duration` nanoseconds,
      or the largest 64-bit number if there are more. */
  predicate IsTicksPerSecond(freq: nat, ticks: nat, duration: nat) {
    if ticks * 1_000_000_000 < 0x1_0000_0000_0000_0000 * duration
    then freq * duration <= ticks * 1_000_000_000 < (freq + 1) * duration
    else freq == 0xFFFF_FFFF_FFFF_FFFF
  }

  /** From counter value `first` to `counter`, `nanos` whole nanoseconds pass at `freq` ticks per
      second. */
  predicate HasElapsed(nanos: nat, first: nat, counter: nat, freq: nat) {
    first <= counter && nanos * freq <= (counter - first) * 1_000_000_000 < (nanos + 1) * freq
  }

  lemma OneQuotient(x: nat, y: nat, q: nat)
    requires y > 0 && q * y <= x < (q + 1) * y
    ensures x / y == q
  {
    AtLeast(x, y, q);
    Below(x, y, q + 1);
  }

  lemma FrequencyIsTicksPerSecond(ticks: U64, duration: U64)
    requires duration > 0
    ensures IsTicksPerSecond(Clamped(Quotient(ticks, duration)), ticks, duration)
  {
    Division(ticks * 1_000_000_000, duration);
    if ticks * 1_000_000_000 < 0x1_0000_0000_0000_0000 * duration {
      Below(ticks * 1_000_000_000, duration, 0x1_0000_0000_0000_0000);
    } else {
      AtLeast(ticks * 1_000_000_000, duration, 0x1_0000_0000_0000_0000);
    }
  }

  /** A reading is the origin plus the whole nanoseconds since, while that fits 64 bits. */
  lemma ReadingIsInNanoseconds(freq: U64, initCounter: U64, initTime: U64, counter: U64)
    requires freq > 0
    ensures forall nanos: nat ::
              HasElapsed(nanos, initCounter, counter, freq) && initTime + nanos < 0x1_0000_0000_0000_0000 ==>
              Reading(freq, initCounter, initTime, counter) == initTime + nanos
  {
    forall nanos: nat | HasElapsed(nanos, initCounter, counter, freq) && initTime + nanos < 0x1_0000_0000_0000_0000
      ensures Reading(freq, initCounter, initTime, counter) == initTime + nanos
    {
      OneQuotient((counter - initCounter) * 1_000_000_000, freq, nanos);
    }
  }

  lemma Scaled(a: nat, b: nat, c: nat)
    requires c > 0
    ensures a < b <==> a * c < b * c
  {
    assert a < b ==> (a + 1) * c <= b * c;
    assert b <= a ==> b * c <= a * c;
  }

  /** A counter that gained exactly `rate` ticks per second over the interval is calibrated to that
      rate. */
  lemma ExactRateIsFound(freq: nat, ticks: nat, duration: nat, rate: nat)
    requires duration > 0 && IsTicksPerSecond(freq, ticks, duration)
    requires ticks * 1_000_000_000 == rate * duration && rate < 0x1_0000_0000_0000_0000
    ensures freq == rate
  {
    Scaled(rate, 0x1_0000_0000_0000_0000, duration);
    Scaled(rate, freq, duration);
    Scaled(rate, freq + 1, duration);
  }

  /** A calibrated clock is left without a frequency exactly if the counter gained less than one
      tick per second. */
  lemma NoFrequencyIff(freq: nat, ticks: nat, duration: nat)
    requires duration > 0 && IsTicksPerSecond(freq, ticks, duration)
    ensures freq == 0 <==> ticks * 1_000_000_000 < duration
  {
    assert 0 * duration == 0 && 1 * duration == duration;
    if freq > 0 && freq * duration <= ticks * 1_000_000_000 { AtLeastOnce(freq, duration); }
  }

  lemma AtLeastOnce(a: nat, b: nat)
    requires a > 0
    ensures a * b >= b
  {
  }

  /** Calibrating with a counter of exactly `rate` ticks per second makes a clock that shows
      `seconds` seconds after the origin when the counter has gained that many times `rate`. */
  method CalibratedClockKeepsTime(startCounter: U64, startTime: U64, endCounter: U64, endTime: U64,
                                  rate: nat, seconds: nat, counter: U64)
    returns (r: Result<U64, Fault>)
    requires startCounter < endCounter && startTime < endTime
    requires (endCounter - startCounter) * 1_000_000_000 == rate * (endTime - startTime)
    requires rate < 0x1_0000_0000_0000_0000 && counter == startCounter + seconds * rate
    ensures startTime + seconds * 1_000_000_000 < 0x1_0000_0000_0000_0000 ==>
              r == Ok(startTime + seconds * 1_000_000_000)
  {
    var clock := new Clock();
    var calibrated := clock.Calibrate(startCounter, startTime, endCounter, endTime);
    ExactRateIsFound(clock.freqNs, endCounter - startCounter, endTime - startTime, rate);
    RateIsPositive(endCounter - startCounter, endTime - startTime, rate);
    SecondsHaveElapsed(startCounter, rate, seconds);
    r := clock.CounterToNanos(counter);
  }

  lemma RateIsPositive(ticks: nat, duration: nat, rate: nat)
    requires ticks > 0 && ticks * 1_000_000_000 == rate * duration
    ensures rate > 0
  {
  }

  lemma SecondsHaveElapsed(first: nat, rate: nat, seconds: nat)
    requires rate > 0
    ensures HasElapsed(seconds * 1_000_000_000, first, first + seconds * rate, rate)
  {
    assert seconds * rate * 1_000_000_000 == seconds * 1_000_000_000 * rate;
    assert (seconds * 1_000_000_000 + 1) * rate == seconds * 1_000_000_000 * rate + rate;
  }

  // ---------------------------------------------------------------- accuracy

  /** Converting the ticks of the calibration interval with the calibrated frequency never gives
      less than its duration, and more by at most the duration less one nanosecond, divided by the
      frequency. */
  lemma CalibrationError(ticks: U64, duration: U64)
    requires duration > 0 && Quotient(ticks, duration) > 0
    ensures duration <= Quotient(ticks, Quotient(ticks, duration))
                     <= duration + (duration - 1) / Quotient(ticks, duration)
  {
    var a, freq := ticks * NANOS_PER_SECOND, Quotient(ticks, duration);
    Division(a, duration);
    assert freq * duration == duration * freq;
    AtLeast(a, freq, duration);
    var excess := (duration - 1) / freq;
    Division(duration - 1, freq);
    assert a <= duration * freq + (duration - 1);
    assert (duration + excess + 1) * freq == duration * freq + (excess + 1) * freq;
    Below(a, freq, duration + excess + 1);
  }

  /** Reading the clock at the counter value that ended the calibration gives at least the time
      measured there, and at most `floor(interval / frequency)` more, as long as the frequency is
      not 0 and both quotients fit 64 bits. */
  lemma ReadingAtTheEndOfCalibration(startCounter: U64, startTime: U64, endCounter: U64, endTime: U64)
    requires startCounter < endCounter && startTime < endTime
    requires 0 < Quotient(endCounter - startCounter, endTime - startTime) < U64_SIZE
    requires var freq := Quotient(endCounter - startCounter, endTime - startTime);
             Quotient(endCounter - startCounter, freq) < U64_SIZE
    ensures var freq := Clamped(Quotient(endCounter - startCounter, endTime - startTime));
            endTime <= Reading(freq, startCounter, startTime, endCounter)
                    <= endTime + (endTime - startTime) / freq
  {
    var ticks, duration := endCounter - startCounter, endTime - startTime;
    var freq := Quotient(ticks, duration);
    CalibrationError(ticks, duration);
    Division(duration - 1, freq);
    AtLeast(duration, freq, (duration - 1) / freq);
  }

  // ---------------------------------------------------------------- monotonicity

  lemma QuotientGrows(a: U64, b: U64, freq: U64)
    requires a <= b && freq > 0
    ensures Quotient(a, freq) <= Quotient(b, freq)
  {
    Division(a * NANOS_PER_SECOND, freq);
    AtLeast(b * NANOS_PER_SECOND, freq, Quotient(a, freq));
  }

  lemma OneTickMore(a: U64, freq: U64)
    requires a + 1 < U64_SIZE && freq > 0
    ensures Quotient(a + 1, freq) <= Quotient(a, freq) + NANOS_PER_SECOND
  {
    var q := Quotient(a, freq);
    Division(a * NANOS_PER_SECOND, freq);
    assert (q + 1 + NANOS_PER_SECOND) * freq == (q + 1) * freq + NANOS_PER_SECOND * freq;
    assert NANOS_PER_SECOND <= NANOS_PER_SECOND * freq;
    Below((a + 1) * NANOS_PER_SECOND, freq, q + 1 + NANOS_PER_SECOND);
  }

  /** Readings only grow up to the counter value `last`. */
  ghost predicate NeverGoesBack(freq: U64, initCounter: U64, initTime: U64, last: U64)
    requires freq > 0
  {
    forall a: U64, b: U64 {:trigger Reading(freq, initCounter, initTime, a), Reading(freq, initCounter, initTime, b)} ::
      a <= b <= last ==> Reading(freq, initCounter, initTime, a) <= Reading(freq, initCounter, initTime, b)
  }

  lemma Cut(q: nat)
    requires q < 2 * U64_SIZE
    ensures q % U64_SIZE == if q < U64_SIZE then q else q - U64_SIZE
  {
  }

  lemma ElapsedGrows(freq: U64, a: U64, b: U64)
    requires freq > 0 && a <= b && Quotient(b, freq) < U64_SIZE
    ensures Elapsed(a, freq) <= Elapsed(b, freq)
  {
    QuotientGrows(a, b, freq);
    Cut(Quotient(a, freq));
    Cut(Quotient(b, freq));
  }

  /** Readings never go back while the quotient fits 64 bits. */
  lemma ReadingsAreMonotone(freq: U64, initCounter: U64, initTime: U64, earlier: U64, later: U64)
    requires freq > 0 && earlier <= later
    requires Quotient(SaturatingSub(later, initCounter), freq) < U64_SIZE
    ensures Reading(freq, initCounter, initTime, earlier) <= Reading(freq, initCounter, initTime, later)
  {
    ElapsedGrows(freq, SaturatingSub(earlier, initCounter), SaturatingSub(later, initCounter));
  }

  /** Where the quotient first overflows, the elapsed time drops to less than a second. */
  lemma OverflowDrops(freq: U64, b: U64)
    requires freq > 0 && b > 0 && Quotient(b - 1, freq) < U64_SIZE <= Quotient(b, freq)
    ensures Elapsed(b, freq) < NANOS_PER_SECOND
    ensures Elapsed(b - 1, freq) > Elapsed(b, freq)
  {
    OneTickMore(b - 1, freq);
    Cut(Quotient(b - 1, freq));
    Cut(Quotient(b, freq));
  }

  /** Once the quotient overflows, a reading has gone back: the counter wraps the elapsed time
      although the addition saturates. */
  lemma ReadingGoesBack(freq: U64, initCounter: U64, initTime: U64, last: U64)
    requires freq > 0 && initTime + NANOS_PER_SECOND < U64_SIZE
    requires Quotient(SaturatingSub(last, initCounter), freq) >= U64_SIZE
    ensures !NeverGoesBack(freq, initCounter, initTime, last)
  {
    var ticks := FirstOverflow(freq, SaturatingSub(last, initCounter));
    OverflowDrops(freq, ticks);
    var b: U64 := initCounter + ticks;
    assert Reading(freq, initCounter, initTime, b) < Reading(freq, initCounter, initTime, b - 1);
  }

  /** The clock is monotone up to a counter value exactly if the quotient there fits 64 bits,
      unless calibration began within a second of the end of 64-bit time. */
  lemma NeverGoesBackIff(freq: U64, initCounter: U64, initTime: U64, last: U64)
    requires freq > 0 && initTime + NANOS_PER_SECOND < U64_SIZE
    ensures NeverGoesBack(freq, initCounter, initTime, last) <==>
            Quotient(SaturatingSub(last, initCounter), freq) < U64_SIZE
  {
    if Quotient(SaturatingSub(last, initCounter), freq) < U64_SIZE {
      forall a: U64, b: U64 | a <= b <= last
        ensures Reading(freq, initCounter, initTime, a) <= Reading(freq, initCounter, initTime, b)
      {
        QuotientGrows(SaturatingSub(b, initCounter), SaturatingSub(last, initCounter), freq);
        ReadingsAreMonotone(freq, initCounter, initTime, a, b);
      }
    } else {
      ReadingGoesBack(freq, initCounter, initTime, last);
    }
  }

  /** A clock calibrated at the very end of 64-bit time never goes back: it stands still. */
  lemma LastNanosecondStandsStill(freq: U64, initCounter: U64, last: U64)
    requires freq > 0
    ensures NeverGoesBack(freq, initCounter, U64_SIZE - 1, last)
  {
  }

  lemma {:induction false} FirstOverflow(freq: U64, last: U64) returns (b: U64)
    requires freq > 0 && Quotient(last, freq) >= U64_SIZE
    ensures 0 < b <= last && Quotient(b - 1, freq) < U64_SIZE <= Quotient(b, freq)
  {
    assert Quotient(0, freq) == 0;
    b := last;
    if Quotient(b - 1, freq) >= U64_SIZE { b := FirstOverflow(freq, b - 1); }
  }
}
