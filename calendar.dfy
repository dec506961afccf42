/** Date and time decoding of the annual sweep: the running hour index, the sub-hour clock time,
    its "on the hour +/- 30 minutes" bucket and the month of a weather-record date code. */
module Calendar {

  /** The last running hour index: 24:00 on day 365. */
  const LastHour: int := 8760

  /** Day of year (1 = 1 January) and clock hour of the running hour index `hour00`
      (0 = 00:00 on 1 January). Index 8760 is the extra record 24:00 on 31 December. */
  function NDayNHour(hour00: int): (r: (int, int))
    ensures hour00 != LastHour ==> (r.0 - 1) * 24 + r.1 == hour00 && 0 <= r.1 <= 23
    ensures hour00 == LastHour ==> r == (365, 24)
    ensures 0 <= hour00 <= LastHour ==> 1 <= r.0 <= 365 && (r.0 - 1) * 24 + r.1 == hour00
  {
    if hour00 == LastHour then (365, 24)
    else
      // Python's `//` floors; Dafny's `/` is Euclidean; the two agree for the positive divisor 24.
      var nDay := hour00 / 24 + 1;
      (nDay, hour00 - (nDay - 1) * 24)
  }

  /** Decoding inverts the encoding `(day - 1) * 24 + hour` on every ordinary hour of the year,
      and the extra record 8760 is read as hour 24 of day 365. */
  lemma {:induction false} NDayNHourInverse(nDay: int, nHour: int)
    requires 1 <= nDay <= 365 && 0 <= nHour <= 23
    ensures NDayNHour((nDay - 1) * 24 + nHour) == (nDay, nHour)
  {
    var h := (nDay - 1) * 24 + nHour;
    assert h / 24 == nDay - 1 by { DivideExactly(nDay - 1, 24, nHour); }
  }

  /** Division with a remainder below the divisor recovers the quotient. */
  lemma {:induction false} DivideExactly(q: int, d: int, rem: int)
    requires 0 < d && 0 <= rem < d
    ensures (q * d + rem) / d == q
  {
    var n := q * d + rem;
    var k := n / d;
    assert k * d + n % d == n;
    assert 0 <= n % d < d;
    assert (k - q) * d == rem - n % d;
    assert -d < (k - q) * d < d;
    ProductAtLeast(k - q, d);
    ProductAtLeast(q - k, d);
  }

  /** A positive multiple of `d` is at least `d`. */
  lemma ProductAtLeast(t: int, d: int)
    ensures t >= 1 && d > 0 ==> t * d >= d
  {
  }

  /** Clock time in hours of sub-hour step `mm` out of `ndt` steps in clock hour `nHour`. */
  function SubHourTime(nHour: int, ndt: int, mm: int): (tt: real)
    requires ndt != 0
    ensures 0 <= mm < ndt ==> nHour as real <= tt < nHour as real + 1.0
    ensures mm == 0 ==> tt == nHour as real
  {
    nHour as real + mm as real / ndt as real
  }

  /** Python's `int(x)`: truncation toward zero. */
  function Truncate(x: real): (n: int)
    ensures x >= 0.0 ==> n as real <= x < n as real + 1.0
    ensures x < 0.0 ==> n as real - 1.0 < x <= n as real
  {
    if x >= 0.0 then x.Floor else -((-x).Floor)
  }

  /** The hour-of-day bucket of clock time `tt`: the nearest whole hour, with half past
      rounded up. */
  function HourBucket(tt: real): (h: int)
    ensures tt >= -0.5 ==> h as real - 0.5 <= tt < h as real + 0.5
  {
    Truncate(tt + 0.5)
  }

  /** Sub-hour steps from the half-way step of the previous clock hour up to the step before
      the half-way step of the current clock hour belong to the current hour's bucket: step
      `mm` of hour `nHour` lands in bucket `nHour`, or `nHour + 1` from the half-way step on. */
  lemma {:induction false} HourBucketOfStep(nHour: int, ndt: int, mm: int)
    requires 0 <= nHour && 0 <= mm < ndt
    ensures HourBucket(SubHourTime(nHour, ndt, mm)) == nHour + (if 2 * mm >= ndt then 1 else 0)
  {
    var frac := mm as real / ndt as real;
    StepFraction(ndt, mm);
    var x := SubHourTime(nHour, ndt, mm) + 0.5;
    assert x == nHour as real + frac + 0.5;
    var up := if 2 * mm >= ndt then 1 else 0;
    assert (nHour + up) as real <= x < (nHour + up) as real + 1.0;
    FloorUnique(x, nHour + up);
  }

  /** The fraction `mm / ndt` of the hour lies in [0, 1) and reaches one half from the
      half-way step on. */
  lemma StepFraction(ndt: int, mm: int)
    requires 0 <= mm < ndt
    ensures 0.0 <= mm as real / ndt as real < 1.0
    ensures (mm as real / ndt as real >= 0.5) == (2 * mm >= ndt)
  {
    var f := mm as real / ndt as real;
    var n := ndt as real;
    assert f * n == mm as real;
    ScaleCompare(f, n, 0.0);
    ScaleCompare(f, n, 1.0);
    ScaleCompare(f, n, 0.5);
  }

  /** Multiplying both sides by a positive number keeps the order. */
  lemma ScaleCompare(f: real, n: real, c: real)
    requires n > 0.0
    ensures (f < c) == (f * n < c * n)
    ensures (f >= c) == (f * n >= c * n)
  {
    if f < c {
      assert (c - f) * n > 0.0;
    } else {
      assert (f - c) * n >= 0.0;
    }
  }

  /** The integer part of a non-negative real is the only integer at most a unit below it. */
  lemma FloorUnique(x: real, n: int)
    requires 0 <= n && n as real <= x < n as real + 1.0
    ensures Truncate(x) == n
  {
    var t := Truncate(x);
    assert t as real <= x < t as real + 1.0;
    assert (t - n) as real < 1.0 && (n - t) as real < 1.0;
  }

  /** Every sub-hour step of an ordinary hour index (0 .. 8759) falls in one of the buckets
      0 .. 24. */
  lemma HourBucketRange(hour00: int, ndt: int, mm: int)
    requires 0 <= hour00 < LastHour && 0 <= mm < ndt
    ensures 0 <= HourBucket(SubHourTime(NDayNHour(hour00).1, ndt, mm)) <= 24
  {
    HourBucketOfStep(NDayNHour(hour00).1, ndt, mm);
  }

  /** Month of a weather-record date code written MMDDHH (month, day, hour). */
  function Month(code: int): (m: int)
    ensures m * 10000 <= code < m * 10000 + 10000
  {
    // Python's `//` floors; Dafny's `/` is Euclidean; they agree for the positive divisor 10000.
    code / 10000
  }

  /** The month of the code built from month `mo`, day `dd` and hour `hh` is `mo`. */
  lemma {:induction false} MonthOfCode(mo: int, dd: int, hh: int)
    requires 0 <= dd <= 99 && 0 <= hh <= 99
    ensures Month(mo * 10000 + dd * 100 + hh) == mo
  {
    DivideExactly(mo, 10000, dd * 100 + hh);
  }
}
