/** The estimate of a job's rate and end time from its last progress reports. */
module Estimator {
  import opened OptionType

  const MAX_SAMPLES: nat := 100
  const MIN_SAMPLES: nat := 5
  const USEC_PER_SEC: real := 1000000.0
  const TWO_63: int := 0x8000_0000_0000_0000
  const TWO_64: int := 0x1_0000_0000_0000_0000

  datatype Sample = Sample(time: int, value: real)

  /** What a property of the job holds: `Undefined` where the C code divides by zero or converts a
      number that does not fit. */
  datatype Figure = Unset | Exactly(value: int) | Undefined

  /** The C conversion to an integer: towards zero. */
  function Truncate(x: real): int
  {
    if x >= 0.0 then x.Floor else -(-x).Floor
  }

  // ----- the window -----

  /** The last `n` entries, or all of them. */
  function Last<T>(s: seq<T>, n: nat): seq<T>
  {
    if |s| <= n then s else s[|s| - n..]
  }

  // ----- the estimate -----

  /** Speed between two samples; `None` stands for a division by zero. */
  function Speed(a: Sample, b: Sample): Option<real>
  {
    if a.time == b.time then None else Some((b.value - a.value) / (b.time - a.time) as real)
  }

  /** Sum of the speeds between successive samples. */
  function SumOfSpeeds(samples: seq<Sample>): Option<real>
  {
    if |samples| <= 1 then Some(0.0)
    else
      var n := |samples| - 1;
      match (SumOfSpeeds(samples[..n]), Speed(samples[n - 1], samples[n]))
      case (Some(sum), Some(speed)) => Some(sum + speed)
      case _ => None
  }

  function AverageSpeed(samples: seq<Sample>): Option<real>
    requires |samples| > 1
  {
    match SumOfSpeeds(samples) case None => None case Some(sum) => Some(sum / (|samples| - 1) as real)
  }

  /** A guint64 from a floating-point number. */
  function ToUnsigned(x: real): Figure
  {
    if 0 <= Truncate(x) < TWO_64 then Exactly(Truncate(x)) else Undefined
  }

  /** Bytes per second. */
  function RateAt(speed: Option<real>, bytes: nat): Figure
  {
    if bytes == 0 then Exactly(0) else if speed.None? then Undefined
    else ToUnsigned(bytes as real * speed.value * USEC_PER_SEC)
  }

  function EndAt(speed: Option<real>, now: Sample): Figure
  {
    if speed.None? || speed.value == 0.0 then Undefined else EndAfter(now.time, (1.0 - now.value) / speed.value)
  }

  /** A gint64 number of microseconds from `now`, stored as a guint64. */
  function EndAfter(now: int, remaining: real): Figure
  {
    var usec := Truncate(remaining);
    if -TWO_63 <= usec < TWO_63 && -TWO_63 <= now + usec < TWO_63 then Exactly((now + usec) % TWO_64) else Undefined
  }

  class BaseJob {
    /** NULL until auto-estimation is first switched on. */
    var samples: array?<Sample>
    var numSamples: nat
    var autoEstimate: bool
    var rate: Figure
    var expectedEndTime: Figure
    /** Every report seen while auto-estimation was on. */
    ghost var history: seq<Sample>

    constructor ()
      ensures Valid() && history == [] && !autoEstimate && samples == null && rate == Unset && expectedEndTime == Unset
    {
      samples, numSamples, autoEstimate, rate, expectedEndTime, history := null, 0, false, Unset, Unset, [];
    }

    ghost predicate Valid()
      reads this, samples
    {
      && (autoEstimate ==> samples != null)
      && (samples == null ==> history == [] && numSamples == 0)
      && (samples != null ==> samples.Length == MAX_SAMPLES && numSamples <= MAX_SAMPLES
                              && samples[..numSamples] == Last(history, MAX_SAMPLES))
    }

    /** udisks_base_job_set_auto_estimate; switching it off and on again keeps the samples. */
    method SetAutoEstimate(value: bool)
      requires Valid()
      modifies this`samples, this`autoEstimate
      ensures Valid() && autoEstimate == value
      ensures samples == old(samples) || (old(samples) == null && samples != null && fresh(samples))
    {
      if value == autoEstimate {
        return;
      }
      if value && samples == null {
        samples := new Sample[MAX_SAMPLES](_ => Sample(0, 0.0));
      }
      autoEstimate := value;
    }

    /** Moves the samples of a full buffer down by one. */
    method DropOldest()
      requires samples != null && samples.Length == MAX_SAMPLES && numSamples == MAX_SAMPLES
      modifies samples, this`numSamples
      ensures samples == old(samples) && numSamples == MAX_SAMPLES - 1
      ensures samples[..numSamples] == old(samples[..])[1..]
    {
      forall n | 0 <= n < MAX_SAMPLES - 1 {
        samples[n] := samples[n + 1];
      }
      numSamples := numSamples - 1;
    }

    /** Adds a sample behind the ones in the buffer. */
    method StoreSample(now: int, progress: real)
      requires samples != null && samples.Length == MAX_SAMPLES && numSamples < MAX_SAMPLES
      modifies samples, this`numSamples
      ensures samples == old(samples) && numSamples == old(numSamples) + 1
      ensures samples[..numSamples] == old(samples[..numSamples]) + [Sample(now, progress)]
    {
      samples[numSamples] := Sample(now, progress);
      numSamples := numSamples + 1;
    }

    /** Adds a sample, dropping the oldest of a full buffer. */
    method AddSample(now: int, progress: real)
      requires Valid() && autoEstimate
      modifies samples, this`numSamples, this`history
      ensures Valid() && samples == old(samples) && history == old(history) + [Sample(now, progress)]
    {
      LastSnoc(history, Sample(now, progress));
      if numSamples == MAX_SAMPLES {
        assert samples[..] == samples[..numSamples];
        DropOldest();
      }
      StoreSample(now, progress);
      history := history + [Sample(now, progress)];
    }

    /** The average of the speeds between the samples in the buffer. */
    method Average() returns (speed: Option<real>)
      requires Valid() && samples != null && numSamples > 1
      ensures speed == AverageSpeed(samples[..numSamples])
    {
      var sumOfSpeeds: Option<real> := Some(0.0);
      var numSpeeds := 0;
      var n := 1;
      while n < numSamples
        invariant 1 <= n <= numSamples && numSpeeds == n - 1
        invariant sumOfSpeeds == SumOfSpeeds(samples[..n])
      {
        var s := Speed(samples[n - 1], samples[n]);
        assert samples[..n + 1][..n] == samples[..n];
        sumOfSpeeds := if sumOfSpeeds.Some? && s.Some? then Some(sumOfSpeeds.value + s.value) else None;
        numSpeeds := numSpeeds + 1;
        n := n + 1;
      }
      speed := if sumOfSpeeds.Some? then Some(sumOfSpeeds.value / numSpeeds as real) else None;
    }

    /** on_notify_progress: the estimate is made from the last hundred samples, once there are five. */
    method OnNotifyProgress(now: int, progress: real, bytes: nat)
      requires Valid() && autoEstimate
      modifies this`numSamples, this`rate, this`expectedEndTime, this`history, samples
      ensures Valid() && history == old(history) + [Sample(now, progress)]
      ensures if |history| < 5 then rate == old(rate) && expectedEndTime == old(expectedEndTime)
              else var speed := AverageSpeed(if |history| <= 100 then history else history[|history| - 100..]);
                   rate == RateAt(speed, bytes) && expectedEndTime == EndAt(speed, Sample(now, progress))
    {
      AddSample(now, progress);
      if numSamples < MIN_SAMPLES {
        return;
      }
      var avgSpeed := Average();
      SetRate(avgSpeed, bytes);
      SetExpectedEndTime(avgSpeed, now, progress);
    }

    method SetRate(avgSpeed: Option<real>, bytes: nat)
      modifies this`rate
      ensures rate == RateAt(avgSpeed, bytes)
    {
      if bytes > 0 {
        rate := if avgSpeed.Some? then ToUnsigned(bytes as real * avgSpeed.value * USEC_PER_SEC) else Undefined;
      } else {
        rate := Exactly(0);
      }
    }

    method SetExpectedEndTime(avgSpeed: Option<real>, now: int, progress: real)
      modifies this`expectedEndTime
      ensures expectedEndTime == EndAt(avgSpeed, Sample(now, progress))
    {
      if avgSpeed.None? || avgSpeed.value == 0.0 {
        expectedEndTime := Undefined;
      } else {
        expectedEndTime := EndAfter(now, (1.0 - progress) / avgSpeed.value);
      }
    }
  }

  lemma {:induction false} LastSnoc<T>(s: seq<T>, x: T)
    ensures Last(s + [x], MAX_SAMPLES) ==
            (if |s| >= MAX_SAMPLES then Last(s, MAX_SAMPLES)[1..] else Last(s, MAX_SAMPLES)) + [x]
  {
  }

  // ----- what the estimate means -----

  ghost predicate DistinctTimes(samples: seq<Sample>)
  {
    forall i :: 0 < i < |samples| ==> samples[i - 1].time != samples[i].time
  }

  ghost predicate SpeedsWithin(samples: seq<Sample>, low: real, high: real)
  {
    forall i :: 0 < i < |samples| && samples[i - 1].time != samples[i].time ==>
      low <= Speed(samples[i - 1], samples[i]).value <= high
  }

  function Multiple(n: nat, x: real): real
  {
    if n == 0 then 0.0 else Multiple(n - 1, x) + x
  }

  lemma {:induction false} MultipleIsProduct(n: nat, x: real)
    ensures Multiple(n, x) == n as real * x
  {
    if n > 0 {
      MultipleIsProduct(n - 1, x);
    }
  }

  lemma {:induction false} SumIsWithin(samples: seq<Sample>, low: real, high: real)
    requires |samples| >= 1 && DistinctTimes(samples) && SpeedsWithin(samples, low, high)
    ensures SumOfSpeeds(samples).Some?
    ensures Multiple(|samples| - 1, low) <= SumOfSpeeds(samples).value <= Multiple(|samples| - 1, high)
  {
    if |samples| > 1 {
      SumIsWithin(samples[..|samples| - 1], low, high);
    }
  }

  lemma {:induction false} ProductIsMonotone(n: real, a: real, b: real)
    requires n > 0.0 && a < b
    ensures n * a < n * b
  {
  }

  lemma {:induction false} Quotient(sum: real, n: real, low: real, high: real)
    requires n > 0.0 && n * low <= sum <= n * high
    ensures low <= sum / n <= high
  {
    var q := sum / n;
    assert n * q == sum;
    if q < low {
      ProductIsMonotone(n, q, low);
    }
    if q > high {
      ProductIsMonotone(n, high, q);
    }
  }

  /** The average lies between any bounds on the speeds, so between the lowest and the highest. */
  lemma {:induction false} AverageIsWithin(samples: seq<Sample>, low: real, high: real)
    requires |samples| > 1 && DistinctTimes(samples) && SpeedsWithin(samples, low, high)
    ensures AverageSpeed(samples).Some? && low <= AverageSpeed(samples).value <= high
  {
    SumIsWithin(samples, low, high);
    MultipleIsProduct(|samples| - 1, low);
    MultipleIsProduct(|samples| - 1, high);
    Quotient(SumOfSpeeds(samples).value, (|samples| - 1) as real, low, high);
  }

  lemma {:induction false} Extremes(speeds: seq<real>) returns (i: nat, j: nat)
    requires speeds != []
    ensures i < |speeds| && j < |speeds| && forall k :: 0 <= k < |speeds| ==> speeds[i] <= speeds[k] <= speeds[j]
  {
    var n := |speeds| - 1;
    i, j := n, n;
    if n > 0 {
      var low, high := Extremes(speeds[..n]);
      i := if speeds[n] < speeds[low] then n else low;
      j := if speeds[n] > speeds[high] then n else high;
      assert forall k :: 0 <= k < n ==> speeds[..n][k] == speeds[k];
    }
  }

  function Speeds(samples: seq<Sample>): (speeds: seq<real>)
    requires |samples| > 1 && forall i :: 0 < i < |samples| ==> samples[i - 1].time != samples[i].time
    ensures |speeds| == |samples| - 1
    ensures forall k :: 0 < k < |samples| ==> Speed(samples[k - 1], samples[k]) == Some(speeds[k - 1])
  {
    seq(|samples| - 1, k requires 0 <= k < |samples| - 1 && samples[(k + 1) - 1].time != samples[k + 1].time =>
      Speed(samples[k], samples[k + 1]).value)
  }

  /** The average speed lies between the lowest and the highest speed of an interval. */
  lemma {:induction false} AverageIsBetweenExtremes(samples: seq<Sample>) returns (i: nat, j: nat)
    requires |samples| > 1 && DistinctTimes(samples)
    ensures i < |Speeds(samples)| && j < |Speeds(samples)| && AverageSpeed(samples).Some?
    ensures Speeds(samples)[i] <= AverageSpeed(samples).value <= Speeds(samples)[j]
    ensures forall k :: 0 <= k < |Speeds(samples)| ==> Speeds(samples)[i] <= Speeds(samples)[k] <= Speeds(samples)[j]
  {
    i, j := Extremes(Speeds(samples));
    BoundsAreBounds(samples, Speeds(samples)[i], Speeds(samples)[j]);
    AverageIsWithin(samples, Speeds(samples)[i], Speeds(samples)[j]);
  }

  lemma {:induction false} BoundsAreBounds(samples: seq<Sample>, low: real, high: real)
    requires |samples| > 1 && DistinctTimes(samples)
    requires forall k :: 0 <= k < |Speeds(samples)| ==> low <= Speeds(samples)[k] <= high
    ensures SpeedsWithin(samples, low, high)
  {
    forall i | 0 < i < |samples| ensures low <= Speed(samples[i - 1], samples[i]).value <= high {
      assert Speed(samples[i - 1], samples[i]) == Some(Speeds(samples)[i - 1]);
    }
  }

  /** The estimate exists exactly when no two successive samples carry the same time. */
  lemma {:induction false} AverageExists(samples: seq<Sample>)
    requires |samples| > 1
    ensures AverageSpeed(samples).Some? <==> DistinctTimes(samples)
  {
    SumExists(samples);
  }

  lemma {:induction false} SumExists(samples: seq<Sample>)
    ensures SumOfSpeeds(samples).Some? <==> DistinctTimes(samples)
  {
    if |samples| > 1 {
      var n := |samples| - 1;
      SumExists(samples[..n]);
      assert DistinctTimes(samples) <==> DistinctTimes(samples[..n]) && samples[n - 1].time != samples[n].time;
    }
  }

  /** Samples on a line through `start`. */
  ghost predicate OnLine(samples: seq<Sample>, start: Sample, slope: real)
  {
    forall i :: 0 <= i < |samples| ==> samples[i].value == start.value + slope * (samples[i].time - start.time) as real
  }

  lemma {:induction false} Distribute(x: real, a: real, b: real)
    ensures x * (a + b) == x * a + x * b
  {
  }

  lemma {:induction false} QuotientTimes(x: real, y: real)
    requires y != 0.0
    ensures y * (x / y) == x
  {
  }

  lemma {:induction false} CancelFactor(x: real, y: real)
    requires y != 0.0
    ensures (x * y) / y == x
  {
    var q := (x * y) / y;
    QuotientTimes(x * y, y);
    Distribute(y, q, -x);
    ZeroProduct(y, q - x);
  }

  lemma {:induction false} ZeroProduct(x: real, y: real)
    requires x != 0.0 && x * y == 0.0
    ensures y == 0.0
  {
    assert x > 0.0 && y > 0.0 ==> x * y > 0.0;
    assert x > 0.0 && y < 0.0 ==> x * y < 0.0;
    assert x < 0.0 && y > 0.0 ==> x * y < 0.0;
    assert x < 0.0 && y < 0.0 ==> x * y > 0.0;
  }

  lemma {:induction false} SpeedOnLine(a: Sample, b: Sample, start: Sample, slope: real)
    requires a.time != b.time
    requires a.value == start.value + slope * (a.time - start.time) as real
    requires b.value == start.value + slope * (b.time - start.time) as real
    ensures Speed(a, b) == Some(slope)
  {
    var dt := (b.time - a.time) as real;
    var since := (a.time - start.time) as real;
    Distribute(slope, since, dt);
    assert slope * (b.time - start.time) as real == slope * (since + dt);
    assert b.value - a.value == slope * dt;
    CancelFactor(slope, dt);
  }

  lemma {:induction false} AverageOnLine(samples: seq<Sample>, start: Sample, slope: real)
    requires |samples| > 1 && DistinctTimes(samples) && OnLine(samples, start, slope)
    ensures AverageSpeed(samples) == Some(slope)
  {
    forall i | 0 < i < |samples| ensures Speed(samples[i - 1], samples[i]) == Some(slope) {
      SpeedOnLine(samples[i - 1], samples[i], start, slope);
    }
    AverageIsWithin(samples, slope, slope);
  }

  /** When a line through `now` reaches one. */
  function TrueEnd(now: Sample, slope: real): real
    requires slope != 0.0
  {
    now.time as real + (1.0 - now.value) / slope
  }

  lemma {:induction false} LineReachesOne(now: Sample, start: Sample, slope: real)
    requires slope != 0.0 && now.value == start.value + slope * (now.time - start.time) as real
    ensures start.value + slope * (TrueEnd(now, slope) - start.time as real) == 1.0
  {
    var remaining := (1.0 - now.value) / slope;
    Distribute(slope, (now.time - start.time) as real, remaining);
    QuotientTimes(1.0 - now.value, slope);
    assert TrueEnd(now, slope) - start.time as real == (now.time - start.time) as real + remaining;
  }

  lemma {:induction false} QuotientIsNotNegative(x: real, y: real)
    requires x >= 0.0 && y > 0.0
    ensures x / y >= 0.0
  {
    var q := x / y;
    QuotientTimes(x, y);
    if q < 0.0 {
      ProductIsMonotone(y, q, 0.0);
    }
  }

  /** Progress on a rising line: the estimated speed is the slope, and the end time is the moment
      the line reaches one, without its fraction. */
  lemma {:induction false} RisingLineIsExact(samples: seq<Sample>, start: Sample, slope: real)
    requires |samples| > 1 && DistinctTimes(samples) && OnLine(samples, start, slope) && slope > 0.0
    requires var now := samples[|samples| - 1];
             now.value <= 1.0 && 0 <= now.time && TrueEnd(now, slope) < TWO_63 as real
    ensures var end := TrueEnd(samples[|samples| - 1], slope);
            && EndAt(AverageSpeed(samples), samples[|samples| - 1]) == Exactly(end.Floor)
            && start.value + slope * (end - start.time as real) == 1.0
    ensures AverageSpeed(samples) == Some(slope)
  {
    var now := samples[|samples| - 1];
    AverageOnLine(samples, start, slope);
    LineReachesOne(now, start, slope);
    QuotientIsNotNegative(1.0 - now.value, slope);
    EndIsFloor(now.time, (1.0 - now.value) / slope);
  }

  lemma {:induction false} EndIsFloor(now: int, remaining: real)
    requires now >= 0 && remaining >= 0.0 && now as real + remaining < TWO_63 as real
    ensures EndAfter(now, remaining) == Exactly((now as real + remaining).Floor)
  {
    assert (now as real + remaining).Floor == now + remaining.Floor;
  }

  lemma {:induction false} PerSecond(bytes: real, seconds: real)
    requires seconds > 0.0
    ensures seconds * 1000000.0 > 0.0
    ensures bytes * (1.0 / (seconds * 1000000.0)) * 1000000.0 == bytes / seconds
  {
    var slope := 1.0 / (seconds * 1000000.0);
    QuotientTimes(1.0, seconds * 1000000.0);
    assert seconds * (slope * 1000000.0) == 1.0;
    Regroup(bytes, slope, 1000000.0, seconds);
    CancelFactor(bytes * slope * 1000000.0, seconds);
  }

  lemma {:induction false} Regroup(a: real, b: real, c: real, d: real)
    requires d * (b * c) == 1.0
    ensures (a * b * c) * d == a
  {
    assert (a * b * c) * d == a * (d * (b * c));
  }

  /** A job that makes even progress and would take this many seconds for all of its bytes is estimated
      at just so many bytes a second, without the fraction. */
  lemma {:induction false} EvenJobHasItsRate(samples: seq<Sample>, start: Sample, seconds: real, bytes: nat)
    requires |samples| > 1 && DistinctTimes(samples) && seconds > 0.0
    requires seconds * 1000000.0 > 0.0 && OnLine(samples, start, 1.0 / (seconds * 1000000.0))
    requires bytes > 0 && bytes as real / seconds < TWO_64 as real
    ensures RateAt(AverageSpeed(samples), bytes) == Exactly((bytes as real / seconds).Floor)
  {
    AverageOnLine(samples, start, 1.0 / (seconds * 1000000.0));
    PerSecond(bytes as real, seconds);
    QuotientIsNotNegative(bytes as real, seconds);
    RateIs(1.0 / (seconds * 1000000.0), bytes, bytes as real / seconds);
  }

  lemma {:induction false} RateIs(speed: real, bytes: nat, rate: real)
    requires bytes > 0 && bytes as real * speed * 1000000.0 == rate && 0.0 <= rate < TWO_64 as real
    ensures RateAt(Some(speed), bytes) == Exactly(rate.Floor)
  {
  }
}
