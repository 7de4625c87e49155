/** The arithmetic of the calibrated clock, over the reals with the final truncation kept.

    A calibration takes a sample (tsc, ns) of both clocks, keeps the converted time as the new base
    and bends the rate by the error it predicts for the next calibration.
  */
module ClockMath {
  import opened Bits
  import opened Seqlock

  datatype Params = Params(baseTsc: int, baseNs: int, rate: real)

  function Convert(p: Params, tsc: int): int
  {
    p.baseNs + Truncate((tsc - p.baseTsc) as real * p.rate)
  }

  /** One reading of both clocks, and the base error the calibration finds stored. */
  datatype Sample = Sample(tsc: int, ns: int, storedErr: int)

  function Elapsed(p: Params, s: Sample): int { s.ns - p.baseNs + s.storedErr }

  function NsErr(p: Params, s: Sample): int { Convert(p, s.tsc) - s.ns }

  /** The error expected at the next calibration. */
  function Predicted(p: Params, s: Sample, interval: int): int
    requires Elapsed(p, s) != 0
  {
    NsErr(p, s) + TruncDiv((NsErr(p, s) - s.storedErr) * interval, Elapsed(p, s))
  }

  function Calibrated(p: Params, s: Sample, interval: int): Params
    requires interval > 0 && Elapsed(p, s) != 0
  {
    Params(s.tsc, Convert(p, s.tsc),
           p.rate * (1.0 - Predicted(p, s, interval) as real / interval as real))
  }

  // ----- one calibration -----

  lemma TruncateMonotone(x: real, y: real)
    requires x <= y
    ensures Truncate(x) <= Truncate(y)
  {
  }

  lemma ScaleMonotone(a: real, b: real, k: real)
    requires a <= b && k > 0.0
    ensures a * k <= b * k
  {
  }

  lemma ConvertMonotone(p: Params, t1: int, t2: int)
    requires p.rate > 0.0 && t1 <= t2
    ensures Convert(p, t1) <= Convert(p, t2)
  {
    ScaleMonotone((t1 - p.baseTsc) as real, (t2 - p.baseTsc) as real, p.rate);
    TruncateMonotone((t1 - p.baseTsc) as real * p.rate, (t2 - p.baseTsc) as real * p.rate);
  }

  /** The new parameters read the same as the old ones at the sample they are based on. */
  lemma Continuous(p: Params, s: Sample, interval: int)
    requires interval > 0 && Elapsed(p, s) != 0
    ensures Convert(Calibrated(p, s, interval), s.tsc) == Convert(p, s.tsc)
  {
    assert 0 as real * Calibrated(p, s, interval).rate == 0.0;
  }

  /** The rate stays positive exactly while the predicted error is below the interval. */
  lemma RatePositiveIff(p: Params, s: Sample, interval: int)
    requires interval > 0 && Elapsed(p, s) != 0 && p.rate > 0.0
    ensures Calibrated(p, s, interval).rate > 0.0 <==> Predicted(p, s, interval) < interval
  {
    var e, i := Predicted(p, s, interval) as real, interval as real;
    ProductSign(p.rate, 1.0 - e / i);
    assert e / i < 1.0 <==> e < i by { QuotientBelowOne(e, i); }
  }

  lemma QuotientBelowOne(e: real, i: real)
    requires i > 0.0
    ensures e / i < 1.0 <==> e < i
  {
    assert (e / i) * i == e;
    assert e / i >= 1.0 ==> (e / i) * i >= i;
    assert e / i < 1.0 ==> (e / i) * i < i;
  }

  lemma ProductSign(a: real, b: real)
    requires a > 0.0
    ensures a * b > 0.0 <==> b > 0.0
  {
  }

  // ----- when the next one is due -----

  /** The counter value is the last at which the clock has gone no further from its base than the
      interval less 1000 nanoseconds; for an interval below 1000, the first, before the base. */
  predicate DueOnTime(p: Params, interval: int, due: int)
  {
    var way := (due - p.baseTsc) as real * p.rate;
    if interval >= 1000 then
      p.baseTsc <= due && way <= (interval - 1000) as real < way + p.rate
    else
      due <= p.baseTsc && way - p.rate < (interval - 1000) as real <= way
  }

  lemma {:induction false} DueIs(p: Params, interval: int)
    requires p.rate > 0.0
    ensures DueOnTime(p, interval, p.baseTsc + Truncate((interval - 1000) as real / p.rate))
  {
    hide Truncate;
    var k := Truncate((interval - 1000) as real / p.rate);
    TruncatedTimes((interval - 1000) as real, p.rate);
    assert (p.baseTsc + k - p.baseTsc) as real == k as real;
  }

  lemma {:induction false} TruncatedTimes(x: real, rate: real)
    requires rate > 0.0
    ensures var k := Truncate(x / rate);
            && (x >= 0.0 ==> k >= 0 && k as real * rate <= x < k as real * rate + rate)
            && (x < 0.0 ==> k <= 0 && k as real * rate - rate < x <= k as real * rate)
  {
    hide Truncate;
    QuotientTimes(x, rate);
    QuotientSign(x, rate);
    TruncateDrops(x / rate);
    Between(Truncate(x / rate) as real, x / rate, rate, x);
  }

  function Times(a: real, b: real): real { a * b }

  /** A product lies between those of the whole numbers around a factor. */
  lemma {:induction false} Between(k: real, q: real, rate: real, x: real)
    requires rate > 0.0 && q * rate == x
    ensures k <= q < k + 1.0 ==> k * rate <= x < k * rate + rate
    ensures k - 1.0 < q <= k ==> k * rate - rate < x <= k * rate
  {
    TimesBetween(k, q, rate);
  }

  lemma {:induction false} TimesBetween(k: real, q: real, rate: real)
    requires rate > 0.0
    ensures k <= q < k + 1.0 ==> Times(k, rate) <= Times(q, rate) < Times(k, rate) + rate
    ensures k - 1.0 < q <= k ==> Times(k, rate) - rate < Times(q, rate) <= Times(k, rate)
  {
    hide Times;
    TimesSteps(k, rate);
    TimesLess(k, q, rate);
    TimesLess(q, k, rate);
    TimesLess(q, k + 1.0, rate);
    TimesLess(k - 1.0, q, rate);
  }

  lemma QuotientTimes(x: real, y: real)
    requires y > 0.0
    ensures (x / y) * y == x
  {
  }

  lemma QuotientSign(x: real, y: real)
    requires y > 0.0
    ensures x >= 0.0 <==> x / y >= 0.0
  {
    QuotientTimes(x, y);
    ProductSign(y, x / y);
    ProductSign(y, -(x / y));
  }

  lemma TimesLess(a: real, b: real, k: real)
    requires k > 0.0
    ensures a <= b ==> Times(a, k) <= Times(b, k)
    ensures a < b ==> Times(a, k) < Times(b, k)
  {
    assert (b - a) * k == Times(b, k) - Times(a, k);
    ProductSign(k, b - a);
  }

  lemma TimesSteps(a: real, k: real)
    ensures Times(a + 1.0, k) == Times(a, k) + k && Times(a - 1.0, k) == Times(a, k) - k
  {
  }

  /** Read by the clock itself, that is within a tick and a nanosecond of the interval less 1000. */
  lemma {:induction false} DueReads(p: Params, interval: int, due: int)
    requires p.rate > 0.0 && interval >= 1000 && DueOnTime(p, interval, due)
    ensures p.baseNs as real + (interval - 1000) as real - p.rate - 1.0 < Convert(p, due) as real
    ensures Convert(p, due) <= p.baseNs + interval - 1000
  {
    ConvertOn(p, due);
  }

  // ----- any number of calibrations -----

  /** Each sample comes no earlier than the last base, and predicts an error below the interval. */
  predicate Regular(p: Params, samples: seq<Sample>, interval: int)
    requires interval > 0
    decreases |samples|
  {
    samples == [] ||
    (var s := samples[0];
     && p.baseTsc <= s.tsc
     && Elapsed(p, s) != 0
     && Predicted(p, s, interval) < interval
     && Regular(Calibrated(p, s, interval), samples[1..], interval))
  }

  /** The clock over a whole run: each tsc is converted by the latest calibration not after it. */
  function ClockAt(p: Params, samples: seq<Sample>, interval: int, tsc: int): int
    requires interval > 0 && Regular(p, samples, interval)
    decreases |samples|
  {
    if samples == [] || tsc < samples[0].tsc then Convert(p, tsc)
    else ClockAt(Calibrated(p, samples[0], interval), samples[1..], interval, tsc)
  }

  /** The parameters after all calibrations. */
  function Last(p: Params, samples: seq<Sample>, interval: int): Params
    requires interval > 0 && Regular(p, samples, interval)
    decreases |samples|
  {
    if samples == [] then p else Last(Calibrated(p, samples[0], interval), samples[1..], interval)
  }

  lemma {:induction false} RateStaysPositive(p: Params, samples: seq<Sample>, interval: int)
    requires interval > 0 && Regular(p, samples, interval) && p.rate > 0.0
    ensures Last(p, samples, interval).rate > 0.0
    decreases |samples|
  {
    if samples != [] {
      RatePositiveIff(p, samples[0], interval);
      hide Calibrated, Predicted;
      RateStaysPositive(Calibrated(p, samples[0], interval), samples[1..], interval);
    }
  }

  lemma {:induction false} ClockAtBase(p: Params, samples: seq<Sample>, interval: int)
    requires interval > 0 && Regular(p, samples, interval)
    ensures ClockAt(p, samples, interval, p.baseTsc) == p.baseNs
    decreases |samples|
  {
    assert 0 as real * p.rate == 0.0;
    assert Convert(p, p.baseTsc) == p.baseNs;
    if samples != [] && p.baseTsc == samples[0].tsc {
      ClockAtBase(Calibrated(p, samples[0], interval), samples[1..], interval);
    }
  }

  /** Converted time never goes back, whatever the number and spacing of calibrations. */
  lemma {:induction false} ClockMonotone(p: Params, samples: seq<Sample>, interval: int, t1: int, t2: int)
    requires interval > 0 && Regular(p, samples, interval) && p.rate > 0.0
    requires t1 <= t2
    ensures ClockAt(p, samples, interval, t1) <= ClockAt(p, samples, interval, t2)
    decreases |samples|
  {
    if samples == [] || t2 < samples[0].tsc {
      ConvertMonotone(p, t1, t2);
    } else {
      var s := samples[0];
      var p' := Calibrated(p, s, interval);
      RatePositiveIff(p, s, interval);
      assert p'.baseTsc == s.tsc && p'.baseNs == Convert(p, s.tsc);
      hide Calibrated, Predicted, Convert;
      if s.tsc <= t1 {
        ClockMonotone(p', samples[1..], interval, t1, t2);
      } else {
        ConvertMonotone(p, t1, s.tsc);
        ClockAtBase(p', samples[1..], interval);
        ClockMonotone(p', samples[1..], interval, s.tsc, t2);
      }
    }
  }

  // ----- how much error a calibration leaves -----

  /** A calibration against a system clock that is affine in the counter, untruncated: the counter
      advanced by `ticks` since the base, the system clock runs at `slope` per tick, our clock at
      `rate` and was off by `baseErr` at the base; `stored` is the base error the code looks up. */
  datatype Drift = Drift(slope: real, rate: real, ticks: real, baseErr: real, stored: real, interval: real)

  predicate Proper(d: Drift)
  {
    d.slope > 0.0 && d.rate > 0.0 && d.ticks > 0.0 && d.interval > 0.0 &&
    SystemElapsed(d) + (d.stored - d.baseErr) != 0.0
  }

  function SystemElapsed(d: Drift): real { d.slope * d.ticks }

  /** The error at the calibration, and the relative drift. */
  function ErrNow(d: Drift): real { d.baseErr + (d.rate - d.slope) * d.ticks }
  function RelDrift(d: Drift): real
    requires d.slope > 0.0
  {
    (d.rate - d.slope) / d.slope
  }

  /** What the code predicts: its elapsed time is system time since the stored base. */
  function PredictedReal(d: Drift): real
    requires Proper(d)
  {
    ErrNow(d) + (ErrNow(d) - d.stored) * d.interval / (SystemElapsed(d) + (d.stored - d.baseErr))
  }

  /** The prediction that extrapolates the true drift. */
  function TruePrediction(d: Drift): real
    requires Proper(d)
  {
    ErrNow(d) + RelDrift(d) * d.interval
  }

  /** The error one interval of system time later, at the bent rate. */
  function ErrAfter(d: Drift): real
    requires Proper(d)
  {
    ErrNow(d) + d.rate * (1.0 - PredictedReal(d) / d.interval) * (d.interval / d.slope) - d.interval
  }

  /** The residual is off from -drift * E by exactly the (amplified) error of the prediction. */
  lemma {:induction false} Residual(d: Drift)
    requires Proper(d)
    ensures ErrAfter(d) ==
            -RelDrift(d) * TruePrediction(d) + (1.0 + RelDrift(d)) * (TruePrediction(d) - PredictedReal(d))
  {
    hide PredictedReal, ErrNow, SystemElapsed;
    var s, e, i := RelDrift(d), PredictedReal(d), d.interval;
    RateIs(d.rate, d.slope);
    BentInterval(d.slope, 1.0 + s, e, i);
    Distribute(s, i, e);
    Regroup(s, ErrNow(d) + s * i, e);
  }

  lemma RateIs(rate: real, slope: real)
    requires slope > 0.0
    ensures (1.0 + (rate - slope) / slope) * slope == rate
  {
    assert ((rate - slope) / slope) * slope == rate - slope;
  }

  lemma Distribute(d: real, i: real, e: real)
    ensures (1.0 + d) * (i - e) - i == -d * e + (d * i - e)
  {
  }

  lemma Regroup(s: real, t: real, e: real)
    ensures -s * t + (1.0 + s) * (t - e) == t - e - s * e
    ensures -s * e == -(s * e)
  {
  }

  lemma BentInterval(slope: real, k: real, e: real, i: real)
    requires slope > 0.0 && i > 0.0
    ensures (k * slope) * (1.0 - e / i) * (i / slope) == k * (i - e)
  {
    assert slope * (i / slope) == i;
    assert (1.0 - e / i) * i == i - e by {
      assert (e / i) * i == e;
    }
    assert (k * slope) * (1.0 - e / i) * (i / slope) == k * ((1.0 - e / i) * (slope * (i / slope)));
  }

  /** The code's prediction is the true one exactly when the stored base error is the true one. */
  lemma PredictionExact(d: Drift)
    requires Proper(d)
    ensures PredictedReal(d) == TruePrediction(d) <==> d.stored == d.baseErr
  {
    var u, v, y, i := SystemElapsed(d), (d.rate - d.slope) * d.ticks, d.stored - d.baseErr, d.interval;
    assert u > 0.0 && u + v > 0.0 by {
      assert u + v == d.rate * d.ticks;
    }
    assert RelDrift(d) * u == v by {
      assert RelDrift(d) * d.slope == d.rate - d.slope;
      assert RelDrift(d) * u == (RelDrift(d) * d.slope) * d.ticks;
    }
    FractionsEqual(u, v, y, i, RelDrift(d));
  }

  lemma FractionsEqual(u: real, v: real, y: real, i: real, s: real)
    requires u > 0.0 && u + v > 0.0 && u + y != 0.0 && i > 0.0 && s * u == v
    ensures (v - y) * i / (u + y) == s * i <==> y == 0.0
  {
    var q := (v - y) * i / (u + y);
    assert q * (u + y) == (v - y) * i;
    assert (s * i) * (u + y) == (v + s * y) * i;
    if q == s * i {
      assert (v - y) * i == (v + s * y) * i;
      assert v - y == v + s * y;
      assert y * (1.0 + s) == 0.0;
      assert (1.0 + s) * u == u + v;
    }
  }

  /** A calibration with drift s and predicted error E leaves an error of exactly -s * E one
      interval later if and only if the base error it finds stored is the true one. */
  lemma ContractionIff(d: Drift)
    requires Proper(d)
    ensures ErrAfter(d) == -RelDrift(d) * TruePrediction(d) <==> d.stored == d.baseErr
  {
    Residual(d);
    PredictionExact(d);
    assert 1.0 + RelDrift(d) > 0.0 by {
      assert (1.0 + RelDrift(d)) * d.slope == d.rate;
    }
    hide ErrAfter, RelDrift, TruePrediction, PredictedReal;
    var k, gap := 1.0 + RelDrift(d), TruePrediction(d) - PredictedReal(d);
    assert k * gap == 0.0 <==> gap == 0.0;
  }

  // ----- the same for the integer code -----

  /** How far the calibrated clock of the code is off one interval of system time after the sample,
      when the system clock runs at `slope` per tick. */
  function CodeErrAfter(p: Params, s: Sample, interval: int, slope: real): real
    requires interval > 0 && Elapsed(p, s) != 0 && slope > 0.0
  {
    var q := Calibrated(p, s, interval);
    q.baseNs as real + q.rate * (interval as real / slope) - (s.ns + interval) as real
  }

  function DriftOf(p: Params, slope: real): real
    requires slope > 0.0
  {
    p.rate / slope - 1.0
  }

  /** What the code's prediction is off from extrapolating the true drift. */
  function Misprediction(p: Params, s: Sample, interval: int, slope: real): real
    requires interval > 0 && Elapsed(p, s) != 0 && slope > 0.0
  {
    NsErr(p, s) as real + DriftOf(p, slope) * interval as real - Predicted(p, s, interval) as real
  }

  /** For every sample, truncations included: the error left is -drift * prediction plus exactly what
      the prediction is off. */
  lemma {:induction false} CodeResidual(p: Params, s: Sample, interval: int, slope: real)
    requires interval > 0 && Elapsed(p, s) != 0 && slope > 0.0
    ensures CodeErrAfter(p, s, interval, slope) ==
            -DriftOf(p, slope) * Predicted(p, s, interval) as real + Misprediction(p, s, interval, slope)
  {
    hide Predicted, Truncate, Elapsed;
    var e, i, d := Predicted(p, s, interval) as real, interval as real, DriftOf(p, slope);
    var k := 1.0 + d;
    assert p.rate == k * slope by {
      assert (p.rate / slope) * slope == p.rate;
    }
    BentInterval(slope, k, e, i);
    var q := Calibrated(p, s, interval);
    assert q.rate * (i / slope) == k * (i - e);
    assert q.baseNs == NsErr(p, s) + s.ns;
    Distribute(d, i, e);
  }

  lemma TruncDivNear(a: int, b: int)
    requires b > 0
    ensures -1.0 < a as real / b as real - TruncDiv(a, b) as real < 1.0
  {
    var q, r := Abs(a) / b, Abs(a) % b;
    assert Abs(a) == q * b + r;
    QuotientSplit(Abs(a), b, q, r);
    if a < 0 {
      assert a as real / b as real == -(Abs(a) as real / b as real) by {
        NegatedQuotient(Abs(a) as real, b as real);
      }
    }
  }

  lemma NegatedQuotient(x: real, y: real)
    requires y != 0.0
    ensures (-x) / y == -(x / y)
  {
    assert (x / y) * y == x;
    assert ((-x) / y) * y == -x;
    assert ((-x) / y + x / y) * y == 0.0;
  }

  lemma QuotientSplit(a: nat, b: nat, q: nat, r: nat)
    requires b > 0 && a == q * b + r && r < b
    ensures 0.0 <= a as real / b as real - q as real < 1.0
  {
    var x, y := a as real, b as real;
    assert x == q as real * y + r as real;
    var gap := x / y - q as real;
    assert gap * y == r as real by {
      assert (x / y) * y == x;
    }
    assert gap < 0.0 ==> gap * y < 0.0;
    assert gap >= 1.0 ==> gap * y >= y;
  }

  /** The error grown since the base, as the code sees it: the drift over the elapsed time, less what
      the conversion truncated. */
  lemma {:induction false} ErrGrown(p: Params, s: Sample, slope: real) returns (f: real)
    requires slope > 0.0 && p.rate > 0.0 && p.baseTsc < s.tsc
    requires Elapsed(p, s) as real == slope * (s.tsc - p.baseTsc) as real
    ensures Elapsed(p, s) > 0 && 0.0 <= f < 1.0
    ensures (NsErr(p, s) - s.storedErr) as real == DriftOf(p, slope) * Elapsed(p, s) as real - f
  {
    var ticks := (s.tsc - p.baseTsc) as real;
    PositiveProduct(slope, ticks);
    PositiveProduct(ticks, p.rate);
    var whole := Truncate(ticks * p.rate);
    f := ticks * p.rate - whole as real;
    assert NsErr(p, s) - s.storedErr == whole - Elapsed(p, s);
    DriftTimes(p.rate, slope, ticks);
    hide NsErr, Elapsed, Truncate;
  }

  lemma {:induction false} MispredictionIs(p: Params, s: Sample, interval: int, slope: real)
    requires interval > 0 && Elapsed(p, s) != 0 && slope > 0.0
    ensures Misprediction(p, s, interval, slope) ==
            DriftOf(p, slope) * interval as real -
            TruncDiv((NsErr(p, s) - s.storedErr) * interval, Elapsed(p, s)) as real
  {
    hide NsErr, Elapsed, DriftOf, TruncDiv;
  }

  lemma {:induction false} MispredictionSmall(p: Params, s: Sample, interval: int, slope: real)
    requires interval > 0 && slope > 0.0 && p.rate > 0.0 && p.baseTsc < s.tsc
    requires Elapsed(p, s) as real == slope * (s.tsc - p.baseTsc) as real
    ensures Elapsed(p, s) > 0
    ensures -1.0 < Misprediction(p, s, interval, slope) < 1.0 + interval as real / Elapsed(p, s) as real
  {
    hide NsErr, Elapsed, DriftOf, TruncDiv, Misprediction;
    var f := ErrGrown(p, s, slope);
    MispredictionIs(p, s, interval, slope);
    var a, elapsed, d := NsErr(p, s) - s.storedErr, Elapsed(p, s), DriftOf(p, slope);
    ScaledQuotient(a, interval, elapsed, d, f);
    TruncDivNear(a * interval, elapsed);
    var q, t := (a * interval) as real / elapsed as real, TruncDiv(a * interval, elapsed) as real;
    var whole, share := d * interval as real, interval as real / elapsed as real;
    var part := f * share;
    assert Misprediction(p, s, interval, slope) == whole - t && q == whole - part;
  }

  /** With the stored base error the true one, so that the elapsed time the code computes is that of
      the system clock, the integer code leaves -drift * prediction up to less than one nanosecond
      and the share one nanosecond of truncation has in the interval. */
  lemma {:induction false} CodeContracts(p: Params, s: Sample, interval: int, slope: real)
    requires interval > 0 && slope > 0.0 && p.rate > 0.0 && p.baseTsc < s.tsc
    requires Elapsed(p, s) as real == slope * (s.tsc - p.baseTsc) as real
    ensures Elapsed(p, s) > 0
    ensures var off := CodeErrAfter(p, s, interval, slope) + DriftOf(p, slope) * Predicted(p, s, interval) as real;
            -1.0 < off < 1.0 + interval as real / Elapsed(p, s) as real
  {
    hide Elapsed, DriftOf, CodeErrAfter, Misprediction, Predicted;
    MispredictionSmall(p, s, interval, slope);
    CodeResidual(p, s, interval, slope);
    Regroup(DriftOf(p, slope), 0.0, Predicted(p, s, interval) as real);
  }

  lemma PositiveProduct(x: real, y: real)
    requires x > 0.0 && y > 0.0
    ensures x * y > 0.0
  {
  }

  lemma DriftTimes(rate: real, slope: real, ticks: real)
    requires slope > 0.0
    ensures (rate / slope - 1.0) * (slope * ticks) == ticks * rate - slope * ticks
  {
    assert (rate / slope) * slope == rate;
    assert (rate / slope) * (slope * ticks) == ((rate / slope) * slope) * ticks;
  }

  /** (d * elapsed - f) * interval / elapsed, as the integers of the code give it. */
  lemma ScaledQuotient(a: int, interval: int, elapsed: int, d: real, f: real)
    requires elapsed > 0 && interval > 0 && a as real == d * elapsed as real - f && 0.0 <= f < 1.0
    ensures var q := (a * interval) as real / elapsed as real;
            var i, share := interval as real, interval as real / elapsed as real;
            q == d * i - f * share && 0.0 <= f * share < share
  {
    var i, e := interval as real, elapsed as real;
    var share := i / e;
    assert share * e == i;
    assert share > 0.0 by {
      assert share <= 0.0 ==> share * e <= 0.0;
    }
    var q := (a * interval) as real / e;
    assert (a * interval) as real == a as real * i;
    assert q * e == a as real * i;
    assert (d * i - f * share) * e == d * i * e - f * (share * e);
    assert (q - (d * i - f * share)) * e == 0.0;
  }

  // ----- from the second calibration on -----

  /** The code finds no base error stored at either calibration. The first leaves its own error in the
      base, so the elapsed time of the second is that of the system clock, and with it the stored
      error the true one, if and only if the first found no error at all. */
  lemma {:induction false} SecondElapsedIff(p: Params, s1: Sample, s2: Sample, interval: int, slope: real)
    requires interval > 0 && Elapsed(p, s1) != 0
    requires s1.storedErr == 0 && s2.storedErr == 0
    requires (s2.ns - s1.ns) as real == slope * (s2.tsc - s1.tsc) as real
    ensures var q := Calibrated(p, s1, interval);
            && Elapsed(q, s2) == s2.ns - s1.ns - NsErr(p, s1)
            && (Elapsed(q, s2) as real == slope * (s2.tsc - q.baseTsc) as real <==> NsErr(p, s1) == 0)
  {
    hide Convert, Predicted;
  }

  /** A clock a tenth too fast, read every 1000 ticks against a system clock of one nanosecond a
      tick: at the second calibration the code leaves more than 97 nanoseconds beyond
      -drift * prediction, where the true stored error would have left less than 3. */
  lemma {:induction false} SecondCalibrationMisses()
    ensures var p := Params(0, 0, 1.1);
            var s1, s2 := Sample(1000, 1000, 0), Sample(2000, 2000, 0);
            var q := Calibrated(p, s1, 1000);
            && Elapsed(p, s1) == 1000 && NsErr(p, s1) == 100 && Elapsed(q, s2) == 900
            && CodeErrAfter(q, s2, 1000, 1.0) + DriftOf(q, 1.0) * Predicted(q, s2, 1000) as real < -97.0
            && 1.0 + 1000.0 / Elapsed(q, s2) as real < 3.0
  {
    hide Calibrated, Predicted, CodeErrAfter, Convert, Elapsed, NsErr;
    FirstOfTwo();
    SecondOfTwo();
  }

  lemma FirstOfTwo()
    ensures var p, s := Params(0, 0, 1.1), Sample(1000, 1000, 0);
            && Elapsed(p, s) == 1000 && NsErr(p, s) == 100
            && Calibrated(p, s, 1000) == Params(1000, 1100, 0.88)
  {
    var p, s := Params(0, 0, 1.1), Sample(1000, 1000, 0);
    assert Truncate(1100.0) == 1100;
    assert Convert(p, 1000) == 1100 && NsErr(p, s) == 100;
    assert TruncDiv(100_000, 1000) == 100;
    assert Predicted(p, s, 1000) == 200;
  }

  lemma {:induction false} SecondOfTwo()
    ensures var q, s := Params(1000, 1100, 0.88), Sample(2000, 2000, 0);
            && Elapsed(q, s) == 900
            && CodeErrAfter(q, s, 1000, 1.0) + DriftOf(q, 1.0) * Predicted(q, s, 1000) as real == -98.0
  {
    var q, s := Params(1000, 1100, 0.88), Sample(2000, 2000, 0);
    SecondPrediction();
    hide Convert, CodeErrAfter, Predicted, NsErr;
    CodeResidual(q, s, 1000, 1.0);
    Regroup(DriftOf(q, 1.0), 0.0, -42.0);
  }

  lemma SecondPrediction()
    ensures var q, s := Params(1000, 1100, 0.88), Sample(2000, 2000, 0);
            && Elapsed(q, s) == 900 && NsErr(q, s) == -20 && Predicted(q, s, 1000) == -42
  {
    assert Truncate(880.0) == 880;
    assert TruncDiv(-20_000, 900) == -22;
  }

  // ----- records converted after a calibration -----

  /** The whole nanoseconds a clock of this rate makes of the way between two counter values. */
  function Way(from: int, to: int, rate: real): int { ((to - from) as real * rate).Floor }

  /** A record stamped at `late` no later than the sample of a calibration, but converted after it,
      goes back behind one stamped at `early` and converted before it exactly when the new clock
      makes the way from `late` to the sample longer than the old clock made that from `early`. */
  lemma {:induction false} LateExactly(p: Params, s: Sample, interval: int, early: int, late: int)
    requires interval > 0 && Elapsed(p, s) != 0 && late <= s.tsc
    requires Calibrated(p, s, interval).rate > 0.0
    ensures var q := Calibrated(p, s, interval);
            Convert(q, late) < Convert(p, early) <==>
            Way(late, s.tsc, q.rate) > Convert(p, s.tsc) - Convert(p, early)
  {
    hide Way, Calibrated, Predicted, Elapsed, Convert;
    CalibratedBase(p, s, interval);
    ConvertBack(Calibrated(p, s, interval), late);
  }

  lemma CalibratedBase(p: Params, s: Sample, interval: int)
    requires interval > 0 && Elapsed(p, s) != 0
    ensures Calibrated(p, s, interval).baseTsc == s.tsc
    ensures Calibrated(p, s, interval).baseNs == Convert(p, s.tsc)
  {
  }

  /** Before its base a clock reads the base less the truncated way to it. */
  lemma ConvertBack(q: Params, t: int)
    requires q.rate > 0.0 && t <= q.baseTsc
    ensures Convert(q, t) == q.baseNs - Way(t, q.baseTsc, q.rate)
  {
    var a := (q.baseTsc - t) as real;
    ProductNonneg(a, q.rate);
    assert (t - q.baseTsc) as real == -a;
    NegatedProduct(a, q.rate);
    NegatedFloor(a * q.rate);
  }

  lemma ConvertOn(q: Params, t: int)
    requires q.rate > 0.0 && t >= q.baseTsc
    ensures Convert(q, t) == q.baseNs + Way(q.baseTsc, t, q.rate)
  {
    ProductNonneg((t - q.baseTsc) as real, q.rate);
  }

  lemma NegatedProduct(a: real, b: real)
    ensures (-a) * b == -(a * b)
  {
  }

  lemma NegatedFloor(x: real)
    requires x >= 0.0
    ensures Truncate(-x) == -(x.Floor)
  {
  }

  lemma ProductNonneg(x: real, y: real)
    requires x >= 0.0 && y > 0.0
    ensures x * y >= 0.0
  {
  }

  /** It never goes back for records stamped since the old base when the predicted error is not
      negative, for then the rate does not rise. */
  lemma {:induction false} LateSafe(p: Params, s: Sample, interval: int, early: int, late: int)
    requires interval > 0 && Elapsed(p, s) != 0 && p.rate > 0.0
    requires 0 <= Predicted(p, s, interval) < interval
    requires p.baseTsc <= early <= late <= s.tsc
    ensures Convert(p, early) <= Convert(Calibrated(p, s, interval), late)
  {
    hide Way, Calibrated, Predicted, Convert, Elapsed;
    RatePositiveIff(p, s, interval);
    RateNotRising(p, s, interval);
    LateExactly(p, s, interval, early, late);
    ConvertOn(p, early);
    ConvertOn(p, s.tsc);
    WayBack(p, Calibrated(p, s, interval).rate, early, late, s.tsc);
  }

  lemma RateNotRising(p: Params, s: Sample, interval: int)
    requires interval > 0 && Elapsed(p, s) != 0 && p.rate > 0.0 && Predicted(p, s, interval) >= 0
    ensures Calibrated(p, s, interval).rate <= p.rate
  {
    hide Predicted, Convert;
    RateFalls(p.rate, Predicted(p, s, interval) as real, interval as real);
  }

  lemma {:induction false} WayBack(p: Params, rate: real, early: int, late: int, at: int)
    requires p.baseTsc <= early <= late <= at && 0.0 < rate <= p.rate
    ensures Way(late, at, rate) <= Way(p.baseTsc, at, p.rate) - Way(p.baseTsc, early, p.rate)
  {
    var a, b := (early - p.baseTsc) as real, (at - early) as real;
    ProductsOrdered((at - late) as real, b, rate, p.rate);
    SumTimes(a, b, p.rate);
    assert (at - p.baseTsc) as real == a + b;
    FloorsAdd(a * p.rate, b * p.rate);
    FloorsOrdered((at - late) as real * rate, b * p.rate);
  }

  lemma SumTimes(a: real, b: real, k: real)
    ensures (a + b) * k == a * k + b * k
  {
  }

  lemma FloorsOrdered(x: real, y: real)
    requires x <= y
    ensures x.Floor <= y.Floor
  {
  }

  lemma RateFalls(rate: real, e: real, i: real)
    requires rate > 0.0 && e >= 0.0 && i > 0.0
    ensures rate * (1.0 - e / i) <= rate
  {
    assert (e / i) * i == e;
    assert e / i >= 0.0;
    assert rate * (1.0 - e / i) == rate - rate * (e / i);
  }

  lemma ProductsOrdered(a: real, b: real, k: real, l: real)
    requires 0.0 <= a <= b && 0.0 < k <= l
    ensures a * k <= b * l
  {
    assert a * k <= b * k && b * k <= b * l;
  }

  lemma FloorsAdd(x: real, y: real)
    ensures x.Floor + y.Floor <= (x + y).Floor
  {
  }

  /** When the rate rises it can: a clock a tenth too slow, calibrated at tick 1000, makes a record
      stamped at tick 500 and converted afterwards 90 nanoseconds earlier than one converted just
      before. */
  lemma {:induction false} LateGoesBack()
    ensures var p, s, q := Params(0, 0, 0.9), Sample(1000, 1000, 0), Params(1000, 900, 1.08);
            && Elapsed(p, s) == 1000 && Calibrated(p, s, 1000) == q
            && Convert(p, 500) == 450 && Convert(q, 500) == 360
  {
    hide Calibrated, Elapsed;
    LateFirst();
    assert Truncate(450.0) == 450;
    assert Truncate(-540.0) == -540;
  }

  lemma LateFirst()
    ensures var p, s := Params(0, 0, 0.9), Sample(1000, 1000, 0);
            && Elapsed(p, s) == 1000 && NsErr(p, s) == -100
            && Calibrated(p, s, 1000) == Params(1000, 900, 1.08)
  {
    var p, s := Params(0, 0, 0.9), Sample(1000, 1000, 0);
    assert Truncate(900.0) == 900;
    assert Convert(p, 1000) == 900 && NsErr(p, s) == -100;
    assert TruncDiv(-100_000, 1000) == -100;
    assert Predicted(p, s, 1000) == -200;
  }
}
