/** The annual calculation of the shading correction factor of one window: the weather records
    are tagged with their periods, the window azimuth and the diffuse shading coefficients are
    fixed once, a first pass over the 8761 hourly records counts the sun-up steps of every full
    hour, a second pass over the hours 0 .. 8759 computes the numerator and denominator
    contribution of every sub-hour step, and the grid accumulates them. The solar position is
    a parameter: `sun(nDay, tt)` is the position of the sun on day `nDay` at clock time `tt`. */
module Sweep {
  import opened Results
  import opened Numerics
  import opened Calendar
  import opened Azimuth
  import opened Geometry
  import Shadow
  import ViewFactor
  import opened Apportion
  import opened Periods
  import opened Terms
  import Grid

  /** The sine and the cosine of the solar altitude, the altitude in degrees and the solar
      azimuth in degrees. */
  datatype SunPosition = SunPosition(sinh: real, cosh: real, hs: real, azs: real)

  /** sin h over the clock times of day `nDay`. */
  function SinhOn(sun: (int, real) -> SunPosition, nDay: int): real -> real
  {
    tt => sun(nDay, tt).sinh
  }

  /** The numbers of sub-hour steps the calculation accepts: 1, or a positive even number. */
  predicate ValidSteps(ndt: int)
  {
    ndt == 1 || (ndt > 0 && ndt % 2 == 0)
  }

  /** The sun-up count of the full hour of running index `hour` (0 .. 8760). */
  function HourCount(sun: (int, real) -> SunPosition, ndt: int, hour: int): (n: real)
    requires ValidSteps(ndt)
    ensures 0.0 <= n <= ndt as real
  {
    var (nDay, nHour) := NDayNHour(hour);
    if ndt == 1 then Indicator(SinhOn(sun, nDay)(nHour as real))
    else
      SunlitCountRange(ndt, nHour, SinhOn(sun, nDay));
      HalfWeighted(Samples(SinhOn(sun, nDay), nHour, ndt))
  }

  /** The first pass: the sun-up count of every full hour 0 .. 8760, or the error for a number
      of steps that is neither 1 nor a positive even number, raised at the first hour. */
  method CountSunlitSteps(ndt: int, sun: (int, real) -> SunPosition) returns (r: Result<array<real>>)
    ensures r.Ok? <==> ValidSteps(ndt)
    ensures r.Err? ==> r.error == InvalidSubdivisionCount(ndt)
    ensures r.Ok? ==> fresh(r.value) && r.value.Length == LastHour + 1
    ensures r.Ok? ==> forall hour :: 0 <= hour <= LastHour ==> r.value[hour] == HourCount(sun, ndt, hour)
  {
    var nh := new real[LastHour + 1](_ => 0.0);
    var hour := 0;
    while hour < LastHour + 1
      invariant 0 <= hour <= LastHour + 1
      invariant hour > 0 ==> ValidSteps(ndt)
      invariant forall k :: 0 <= k < hour ==> nh[k] == HourCount(sun, ndt, k)
    {
      var (nDay, nHour) := NDayNHour(hour);
      var c := SunlitCount(ndt, nHour, SinhOn(sun, nDay));
      if c.Err? {
        return Err(c.error);
      }
      nh[hour] := c.value;
      hour := hour + 1;
    }
    return Ok(nh);
  }

  /** The sun-up counts of all the full hours 0 .. 8760, each between 0 and the number of steps. */
  function Counts(sun: (int, real) -> SunPosition, ndt: int): (nh: seq<real>)
    requires ValidSteps(ndt)
    ensures |nh| == LastHour + 1
    ensures forall hour :: 0 <= hour <= LastHour ==> 0.0 <= nh[hour] <= ndt as real
  {
    seq(LastHour + 1, hour requires 0 <= hour <= LastHour => HourCount(sun, ndt, hour))
  }

  /** The sunlit area of the window for the relative azimuth `az` and the solar altitude `hs`,
      with the tangent of |az| and tan hs / cos az that the area formulas need taken where they
      are defined. */
  function SunlitAreaAt(t: Transcendentals, g: Geometry, az: real, hs: real): (a: real)
    requires Sound(t)
    ensures 0.0 <= a && (Area(g) >= 0.0 ==> a <= Area(g))
    ensures hs <= 0.0 || az <= -90.0 || az >= 90.0 ==> a == 0.0
  {
    var tanAz := t.tanDeg(Abs(az));
    var tanHc := if -90.0 < az < 90.0 then t.tanDeg(hs) / t.cosDeg(az) else 0.0;
    Shadow.SunlitArea(g, az, hs, tanAz, tanHc)
  }

  /** The sunlit area as a function of the relative azimuth and the solar altitude, the form
      in which the second pass receives it. */
  function SunlitAreaOf(t: Transcendentals, g: Geometry): (area: (real, real) -> real)
    requires Sound(t)
    ensures forall az, hs :: 0.0 <= area(az, hs) && (Area(g) >= 0.0 ==> area(az, hs) <= Area(g))
    ensures forall az, hs :: hs <= 0.0 || az <= -90.0 || az >= 90.0 ==> area(az, hs) == 0.0
  {
    (az, hs) => SunlitAreaAt(t, g, az, hs)
  }

  /** The direct and the diffuse irradiation of step `mm` of hour `hour`: each hourly total of
      this hour and the next one, apportioned with the same step, the same sin h at the step
      and the same pair of sun-up counts. */
  function StepIrradiation(sun: (int, real) -> SunPosition, recs: seq<WeatherRecord>, nh: seq<real>,
                           ndt: int, hour: int, mm: int): (real, real)
    requires ndt > 0 && 0 <= hour < LastHour && |recs| > LastHour && |nh| > LastHour && 0 <= mm < ndt
  {
    var (nDay, nHour) := NDayNHour(hour);
    var p := sun(nDay, SubHourTime(nHour, ndt, mm));
    (Sdhm(mm, ndt, p.sinh, recs[hour].direct, recs[hour + 1].direct, nh[hour], nh[hour + 1]),
     Sdhm(mm, ndt, p.sinh, recs[hour].diffuse, recs[hour + 1].diffuse, nh[hour], nh[hour + 1]))
  }

  /** The records with their direct and diffuse irradiation exchanged. */
  function Swapped(recs: seq<WeatherRecord>): (r: seq<WeatherRecord>)
    ensures |r| == |recs|
    ensures forall k :: 0 <= k < |recs| ==>
              r[k].direct == recs[k].diffuse && r[k].diffuse == recs[k].direct
  {
    seq(|recs|, k requires 0 <= k < |recs| => recs[k].(direct := recs[k].diffuse, diffuse := recs[k].direct))
  }

  /** The direct and the diffuse irradiation are apportioned alike and differ only in the
      record column they read: exchanging the two columns of every record exchanges the two
      step irradiations. */
  lemma StepIrradiationSymmetric(sun: (int, real) -> SunPosition, recs: seq<WeatherRecord>, nh: seq<real>,
                                 ndt: int, hour: int, mm: int)
    requires ndt > 0 && 0 <= hour < LastHour && |recs| > LastHour && |nh| > LastHour && 0 <= mm < ndt
    ensures StepIrradiation(sun, Swapped(recs), nh, ndt, hour, mm).0 == StepIrradiation(sun, recs, nh, ndt, hour, mm).1
    ensures StepIrradiation(sun, Swapped(recs), nh, ndt, hour, mm).1 == StepIrradiation(sun, recs, nh, ndt, hour, mm).0
  {
  }

  /** The numerator and denominator contribution of step `mm` of hour `hour`, from the solar
      position at the step, the step's irradiation, and the quantities fixed before the
      passes: the window azimuth `azwj`, the diffuse shading coefficients and the glazing's
      incidence angle characteristics. */
  function StepContribution(t: Transcendentals, sun: (int, real) -> SunPosition, recs: seq<WeatherRecord>,
                            nh: seq<real>, g: Geometry, area: (real, real) -> real, azwj: real, gammaYp: real, gammaYm: real,
                            etaIsr: real, ks: seq<real>, ndt: int, hour: int, mm: int): Contribution
    requires Sound(t) && ndt > 0 && 0 <= hour < LastHour && |recs| > LastHour && |nh| > LastHour && 0 <= mm < ndt
  {
    var (nDay, nHour) := NDayNHour(hour);
    var p := sun(nDay, SubHourTime(nHour, ndt, mm));
    var azwjdt := Azwjdt(azwj, p.azs);
    var (sd, ss) := StepIrradiation(sun, recs, nh, ndt, hour, mm);
    var cosT := CosTheta(p.cosh, t.cosDeg(azwjdt));
    Scf00(sd, ss, Eta(cosT, ks), etaIsr, cosT, p.sinh, Area(g), area(azwjdt, p.hs), gammaYp, gammaYm)
  }

  /** The second pass for hour `hour`: the contribution of each of its steps. */
  method FillHour(t: Transcendentals, sun: (int, real) -> SunPosition, recs: seq<WeatherRecord>,
                  nh: seq<real>, g: Geometry, area: (real, real) -> real, azwj: real, gammaYp: real, gammaYm: real,
                  etaIsr: real, ks: seq<real>, ndt: int, samples: array3<real>, hour: int)
    requires Sound(t) && ndt > 0 && 0 <= hour < LastHour && |recs| > LastHour && |nh| > LastHour
    requires samples.Length0 == 2 && samples.Length1 == LastHour + 1 && samples.Length2 == ndt
    modifies samples
    ensures forall h, k, m :: 0 <= h < 2 && 0 <= k <= LastHour && 0 <= m < ndt && k != hour ==>
              samples[h, k, m] == old(samples[h, k, m])
    ensures forall m :: 0 <= m < ndt ==>
              samples[0, hour, m] == StepContribution(t, sun, recs, nh, g, area, azwj, gammaYp, gammaYm, etaIsr, ks, ndt, hour, m).num &&
              samples[1, hour, m] == StepContribution(t, sun, recs, nh, g, area, azwj, gammaYp, gammaYm, etaIsr, ks, ndt, hour, m).den
  {
    var mm := 0;
    while mm < ndt
      invariant 0 <= mm <= ndt
      invariant forall h, k, m :: 0 <= h < 2 && 0 <= k <= LastHour && 0 <= m < ndt && k != hour ==>
                  samples[h, k, m] == old(samples[h, k, m])
      invariant forall m :: 0 <= m < mm ==>
                  samples[0, hour, m] == StepContribution(t, sun, recs, nh, g, area, azwj, gammaYp, gammaYm, etaIsr, ks, ndt, hour, m).num &&
                  samples[1, hour, m] == StepContribution(t, sun, recs, nh, g, area, azwj, gammaYp, gammaYm, etaIsr, ks, ndt, hour, m).den
    {
      var c := StepContribution(t, sun, recs, nh, g, area, azwj, gammaYp, gammaYm, etaIsr, ks, ndt, hour, mm);
      samples[0, hour, mm], samples[1, hour, mm] := c.num, c.den;
      mm := mm + 1;
    }
  }

  /** The second pass: the contribution of every step of the hours 0 .. 8759; the entries of
      hour 8760 keep their initial 0. */
  method FillSamples(t: Transcendentals, sun: (int, real) -> SunPosition, recs: seq<WeatherRecord>,
                     nh: seq<real>, g: Geometry, area: (real, real) -> real, azwj: real, gammaYp: real, gammaYm: real,
                     etaIsr: real, ks: seq<real>, ndt: int) returns (samples: array3<real>)
    requires Sound(t) && ndt > 0 && |recs| > LastHour && |nh| > LastHour
    ensures fresh(samples) && samples.Length0 == 2 && samples.Length1 == LastHour + 1 && samples.Length2 == ndt
    ensures forall hour, mm :: 0 <= hour < LastHour && 0 <= mm < ndt ==>
              samples[0, hour, mm] == StepContribution(t, sun, recs, nh, g, area, azwj, gammaYp, gammaYm, etaIsr, ks, ndt, hour, mm).num &&
              samples[1, hour, mm] == StepContribution(t, sun, recs, nh, g, area, azwj, gammaYp, gammaYm, etaIsr, ks, ndt, hour, mm).den
    ensures forall h, mm :: 0 <= h < 2 && 0 <= mm < ndt ==> samples[h, LastHour, mm] == 0.0
  {
    samples := new real[2, LastHour + 1, ndt]((_, _, _) => 0.0);
    var hour := 0;
    while hour < LastHour
      invariant 0 <= hour <= LastHour
      invariant forall k, mm :: 0 <= k < hour && 0 <= mm < ndt ==>
                  samples[0, k, mm] == StepContribution(t, sun, recs, nh, g, area, azwj, gammaYp, gammaYm, etaIsr, ks, ndt, k, mm).num &&
                  samples[1, k, mm] == StepContribution(t, sun, recs, nh, g, area, azwj, gammaYp, gammaYm, etaIsr, ks, ndt, k, mm).den
      invariant forall h, k, mm :: 0 <= h < 2 && hour <= k <= LastHour && 0 <= mm < ndt ==> samples[h, k, mm] == 0.0
    {
      FillHour(t, sun, recs, nh, g, area, azwj, gammaYp, gammaYm, etaIsr, ks, ndt, samples, hour);
      hour := hour + 1;
    }
  }

  /** The hourly irradiation of the records is nowhere negative. */
  ghost predicate NonNegativeIrradiation(recs: seq<WeatherRecord>)
  {
    forall k :: 0 <= k < |recs| ==> recs[k].direct >= 0.0 && recs[k].diffuse >= 0.0
  }

  /** The glazing's characteristic is not negative at any incidence cosine in [0, 1]. */
  ghost predicate NonNegativeEta(ks: seq<real>)
  {
    forall c :: 0.0 <= c <= 1.0 ==> Eta(c, ks) >= 0.0
  }

  /** A characteristic c - c^3 that is negative above c = 1 is admitted, since it is not
      negative on [0, 1]. */
  lemma CubicCharacteristicAdmitted()
    ensures NonNegativeEta([0.0, 1.0, 0.0, -1.0])
  {
    var ks := [0.0, 1.0, 0.0, -1.0];
    forall c | 0.0 <= c <= 1.0
      ensures Eta(c, ks) >= 0.0
    {
      assert Power(c, 3) == c * (c * c) by {
        assert Power(c, 1) == c;
      }
      assert EtaUpTo(c, ks, 3) == c by {
        assert EtaUpTo(c, ks, 1) == 0.0;
      }
      assert Eta(c, ks) == c * (1.0 - c * c);
      assert c * c <= 1.0 by {
        assert c * c <= c * 1.0;
      }
    }
  }

  /** The solar position and the cosine are those of real angles: cos h lies within [0, 1] for
      an altitude within [0, 90] degrees, and every cosine lies within [-1, 1]. */
  ghost predicate BoundedCosines(t: Transcendentals, sun: (int, real) -> SunPosition)
  {
    (forall n, tt :: 0.0 <= sun(n, tt).cosh <= 1.0) && (forall a :: -1.0 <= t.cosDeg(a) <= 1.0)
  }

  /** A step adds no less than 0 to the numerator and no more to it than to the denominator,
      when the irradiation and the characteristics are non-negative, the window area is
      positive, the sunlit area lies within it and the diffuse coefficients lie within [0, 1]. */
  lemma StepWithinDenominator(t: Transcendentals, sun: (int, real) -> SunPosition, recs: seq<WeatherRecord>,
                              nh: seq<real>, g: Geometry, area: (real, real) -> real, azwj: real,
                              gammaYp: real, gammaYm: real, etaIsr: real, ks: seq<real>, ndt: int, hour: int, mm: int)
    requires Sound(t) && ndt > 0 && 0 <= hour < LastHour && |recs| > LastHour && |nh| > LastHour && 0 <= mm < ndt
    requires NonNegativeIrradiation(recs) && NonNegativeEta(ks) && etaIsr >= 0.0 && BoundedCosines(t, sun)
    requires Area(g) > 0.0 && forall az, hs :: 0.0 <= area(az, hs) <= Area(g)
    requires 0.0 <= gammaYp <= 1.0 && 0.0 <= gammaYm <= 1.0
    ensures 0.0 <= StepContribution(t, sun, recs, nh, g, area, azwj, gammaYp, gammaYm, etaIsr, ks, ndt, hour, mm).num
    ensures StepContribution(t, sun, recs, nh, g, area, azwj, gammaYp, gammaYm, etaIsr, ks, ndt, hour, mm).num
         <= StepContribution(t, sun, recs, nh, g, area, azwj, gammaYp, gammaYm, etaIsr, ks, ndt, hour, mm).den
  {
    var (nDay, nHour) := NDayNHour(hour);
    var p := sun(nDay, SubHourTime(nHour, ndt, mm));
    var azwjdt := Azwjdt(azwj, p.azs);
    var (sd, ss) := StepIrradiation(sun, recs, nh, ndt, hour, mm);
    var cosT := CosTheta(p.cosh, t.cosDeg(azwjdt));
    CosThetaWithinUnit(p.cosh, t.cosDeg(azwjdt));
    SdhmNonNegative(mm, ndt, p.sinh, recs[hour].direct, recs[hour + 1].direct, nh[hour], nh[hour + 1]);
    SdhmNonNegative(mm, ndt, p.sinh, recs[hour].diffuse, recs[hour + 1].diffuse, nh[hour], nh[hour + 1]);
    assert Eta(cosT, ks) >= 0.0;
    Scf00Bounds(sd, ss, Eta(cosT, ks), etaIsr, cosT, p.sinh, Area(g), area(azwjdt, p.hs), gammaYp, gammaYm);
  }

  /** The results of a run: the numerator and denominator contribution of every step, and the
      table of numerators, denominators and factors by period or month and by hour. */
  datatype Tables = Tables(samples: array3<real>, scf: array3<real>)

  /** The whole calculation: tag the records with their periods, fix the window azimuth and
      the diffuse coefficients, count the sun-up steps of every full hour, compute every
      step's contribution and accumulate the table. A window orientation that is not accepted
      stops the run before anything else is computed, a number of steps that is neither 1 nor
      a positive even number at the first pass. */
  method ShadingCorrectionFactor(t: Transcendentals, sun: (int, real) -> SunPosition, a: array<WeatherRecord>,
                                 hStart: int, hEnd: int, cStart: int, cEnd: int, ndt: int,
                                 ks: seq<real>, etaIsr: real, azimuth: AzimuthSpec, g: Geometry)
    returns (r: Result<Tables>)
    requires Sound(t) && g.X2 * g.Y2 != 0.0 && a.Length > LastHour
    requires forall k :: 0 <= k < LastHour ==> -Grid.Rows <= Month(a[k].code) < Grid.Rows
    modifies a
    ensures a[..] == Tagged(old(a[..]), hStart, hEnd, cStart, cEnd)
    ensures r.Err? <==> Azwj(azimuth).Err? || !ValidSteps(ndt)
    ensures Azwj(azimuth).Err? ==> r == Err(InvalidAzimuth)
    ensures Azwj(azimuth).Ok? && !ValidSteps(ndt) ==> r == Err(InvalidSubdivisionCount(ndt))
    ensures r.Ok? ==>
              var samples, scf := r.value.samples, r.value.scf;
              fresh(samples) && fresh(scf) && samples != scf &&
              samples.Length0 == 2 && samples.Length1 == LastHour + 1 && samples.Length2 == ndt &&
              scf.Length0 == 3 && scf.Length1 == Grid.Rows && scf.Length2 == Grid.Cols
    ensures r.Ok? ==>
              forall hour, mm :: 0 <= hour < LastHour && 0 <= mm < ndt ==>
                r.value.samples[0, hour, mm] == StepContribution(t, sun, a[..], Counts(sun, ndt), g, SunlitAreaOf(t, g), Azwj(azimuth).value,
                                                     ViewFactor.GammaYp(t, g), ViewFactor.GammaYm(t, g), etaIsr, ks, ndt, hour, mm).num &&
                r.value.samples[1, hour, mm] == StepContribution(t, sun, a[..], Counts(sun, ndt), g, SunlitAreaOf(t, g), Azwj(azimuth).value,
                                                     ViewFactor.GammaYp(t, g), ViewFactor.GammaYm(t, g), etaIsr, ks, ndt, hour, mm).den
    ensures r.Ok? ==> Grid.Indexable(a[..]) && Grid.Covers(r.value.samples, ndt)
    ensures r.Ok? ==>
              forall h, i, j :: 0 <= h < 2 && 0 <= i < Grid.Rows && 0 <= j < Grid.Cols ==>
                r.value.scf[h, i, j] == Grid.Total(r.value.samples, a[..], ndt, h, i, j)
    ensures r.Ok? ==>
              forall i, j :: 0 <= i < Grid.Rows && 0 <= j < Grid.Cols ==>
                r.value.scf[2, i, j] == Grid.Ratio(r.value.scf[0, i, j], r.value.scf[1, i, j])
    ensures r.Ok? && NonNegativeIrradiation(old(a[..])) && NonNegativeEta(ks) && etaIsr >= 0.0 && Area(g) > 0.0
              && BoundedCosines(t, sun) ==>
              forall i, j :: 0 <= i < Grid.Rows && 0 <= j < Grid.Cols ==> 0.0 <= r.value.scf[2, i, j] <= 1.0
  {
    TagPeriods(a, hStart, hEnd, cStart, cEnd);
    var recs := a[..];
    var azwj := Azwj(azimuth);
    if azwj.Err? {
      return Err(azwj.error);
    }
    var gammaYp := ViewFactor.GammaYp(t, g);
    var gammaYm := ViewFactor.GammaYm(t, g);
    var counts := CountSunlitSteps(ndt, sun);
    if counts.Err? {
      return Err(counts.error);
    }
    var nh := counts.value[..];
    assert nh == Counts(sun, ndt);
    var area := SunlitAreaOf(t, g);
    var samples := FillSamples(t, sun, recs, nh, g, area, azwj.value, gammaYp, gammaYm, etaIsr, ks, ndt);
    TaggedTags(old(a[..]), hStart, hEnd, cStart, cEnd);
    assert Grid.Indexable(recs);
    var scf := Grid.Output(recs, ndt, samples);
    r := Ok(Tables(samples, scf));
    if NonNegativeIrradiation(old(a[..])) && NonNegativeEta(ks) && etaIsr >= 0.0 && Area(g) > 0.0 && BoundedCosines(t, sun) {
      FactorsWithinUnit(t, sun, recs, nh, g, area, azwj.value, gammaYp, gammaYm, etaIsr, ks, ndt, samples);
    }
  }

  /** For contributions computed from non-negative data, every factor of the table lies
      within [0, 1]. */
  lemma FactorsWithinUnit(t: Transcendentals, sun: (int, real) -> SunPosition, recs: seq<WeatherRecord>,
                          nh: seq<real>, g: Geometry, area: (real, real) -> real, azwj: real,
                          gammaYp: real, gammaYm: real, etaIsr: real, ks: seq<real>, ndt: int, samples: array3<real>)
    requires Sound(t) && ndt > 0 && |recs| > LastHour && |nh| > LastHour && Grid.Indexable(recs)
    requires NonNegativeIrradiation(recs) && NonNegativeEta(ks) && etaIsr >= 0.0 && BoundedCosines(t, sun)
    requires Area(g) > 0.0 && forall az, hs :: 0.0 <= area(az, hs) <= Area(g)
    requires 0.0 <= gammaYp <= 1.0 && 0.0 <= gammaYm <= 1.0
    requires samples.Length0 == 2 && samples.Length1 == LastHour + 1 && samples.Length2 == ndt
    requires forall hour, mm :: 0 <= hour < LastHour && 0 <= mm < ndt ==>
               samples[0, hour, mm] == StepContribution(t, sun, recs, nh, g, area, azwj, gammaYp, gammaYm, etaIsr, ks, ndt, hour, mm).num &&
               samples[1, hour, mm] == StepContribution(t, sun, recs, nh, g, area, azwj, gammaYp, gammaYm, etaIsr, ks, ndt, hour, mm).den
    ensures forall i, j :: 0.0 <= Grid.Ratio(Grid.Total(samples, recs, ndt, 0, i, j), Grid.Total(samples, recs, ndt, 1, i, j)) <= 1.0
  {
    forall hour, mm | 0 <= hour < LastHour && 0 <= mm < ndt
      ensures 0.0 <= samples[0, hour, mm] <= samples[1, hour, mm]
    {
      StepWithinDenominator(t, sun, recs, nh, g, area, azwj, gammaYp, gammaYm, etaIsr, ks, ndt, hour, mm);
    }
    assert Grid.StepsOrdered(samples, ndt);
    forall i, j
      ensures 0.0 <= Grid.Ratio(Grid.Total(samples, recs, ndt, 0, i, j), Grid.Total(samples, recs, ndt, 1, i, j)) <= 1.0
    {
      Grid.FactorWithinUnit(samples, recs, ndt, i, j);
    }
  }
}
