/** The contribution of one sub-hour step to the shading correction factor: the cosine of the
    incidence angle, the incidence angle characteristic of the glazing, and the numerator and
    denominator terms of the factor (direct, diffuse sky and ground-reflected irradiation),
    each multiplied by the window area. */
module Terms {

  /** The cosine of the incidence angle of the direct sun on the window, from the cosine of
      the solar altitude and the cosine of the azimuth relative to the window normal: the
      larger of their product and 0, so the sun behind the window plane gives 0. */
  function CosTheta(cosh: real, cosAz: real): (c: real)
    ensures c >= 0.0 && c >= cosh * cosAz
    ensures c == 0.0 || c == cosh * cosAz
  {
    if cosh * cosAz > 0.0 then cosh * cosAz else 0.0
  }

  /** For cosines of real angles the incidence cosine lies within [0, 1]. */
  lemma CosThetaWithinUnit(cosh: real, cosAz: real)
    requires 0.0 <= cosh <= 1.0 && -1.0 <= cosAz <= 1.0
    ensures 0.0 <= CosTheta(cosh, cosAz) <= 1.0
  {
    if cosAz >= 0.0 {
      assert cosh * cosAz <= cosh * 1.0;
    } else {
      assert cosh * cosAz <= 0.0;
    }
  }

  /** `c` to the power `n`; `Power(c, 0)` is 1 even for `c` = 0, as in Python. */
  function Power(c: real, n: nat): real
  {
    if n == 0 then 1.0 else c * Power(c, n - 1)
  }

  /** The sum of the first `n` terms `ks[i] * c^i` of the incidence angle polynomial. */
  function EtaUpTo(c: real, ks: seq<real>, n: nat): real
    requires n <= |ks|
  {
    if n == 0 then 0.0 else EtaUpTo(c, ks, n - 1) + ks[n - 1] * Power(c, n - 1)
  }

  /** The incidence angle characteristic for the cosine `c` of the incidence angle: the
      polynomial in `c` with the coefficients `ks`, the constant coefficient first. */
  function Eta(c: real, ks: seq<real>): real
  {
    EtaUpTo(c, ks, |ks|)
  }

  /** The same polynomial evaluated the Horner way, coefficient by coefficient from the
      constant one. */
  function Horner(c: real, ks: seq<real>): real
  {
    if ks == [] then 0.0 else ks[0] + c * Horner(c, ks[1..])
  }

  /** Taking off the constant coefficient leaves `c` times the polynomial of the others. */
  lemma {:induction false} EtaUpToShift(c: real, k: real, rest: seq<real>, n: nat)
    requires n <= |rest|
    ensures EtaUpTo(c, [k] + rest, n + 1) == k + c * EtaUpTo(c, rest, n)
  {
    var ks := [k] + rest;
    if n == 0 {
      assert ks[0] == k;
    } else {
      EtaUpToShift(c, k, rest, n - 1);
      assert ks[n] == rest[n - 1];
      var a := EtaUpTo(c, rest, n - 1);
      var b := rest[n - 1] * Power(c, n - 1);
      assert EtaUpTo(c, rest, n) == a + b;
      assert ks[n] * Power(c, n) == c * b by {
        assert Power(c, n) == c * Power(c, n - 1);
        MulRotate(rest[n - 1], c, Power(c, n - 1));
      }
      Distribute(c, a, b);
    }
  }

  lemma MulRotate(x: real, y: real, z: real)
    ensures x * (y * z) == y * (x * z)
  {
  }

  lemma Distribute(c: real, a: real, b: real)
    ensures c * (a + b) == c * a + c * b
  {
  }

  /** The sum of the terms `ks[i] * c^i` is the polynomial in Horner form. */
  lemma {:induction false} EtaIsHorner(c: real, ks: seq<real>)
    ensures Eta(c, ks) == Horner(c, ks)
  {
    if ks != [] {
      EtaIsHorner(c, ks[1..]);
      assert ks == [ks[0]] + ks[1..];
      EtaUpToShift(c, ks[0], ks[1..], |ks| - 1);
    }
  }

  /** At grazing incidence (cos = 0) only the constant coefficient is left, and an empty set
      of coefficients gives 0. */
  lemma EtaAtGrazing(ks: seq<real>)
    ensures Eta(0.0, ks) == if ks == [] then 0.0 else ks[0]
  {
    EtaIsHorner(0.0, ks);
  }

  /** The sum of the coefficients. */
  function Total(ks: seq<real>): real
  {
    if ks == [] then 0.0 else ks[0] + Total(ks[1..])
  }

  /** At normal incidence (cos = 1) the characteristic is the sum of the coefficients. */
  lemma EtaAtNormal(ks: seq<real>)
    ensures Eta(1.0, ks) == Total(ks)
  {
    EtaIsHorner(1.0, ks);
    HornerAtOne(ks);
  }

  lemma {:induction false} HornerAtOne(ks: seq<real>)
    ensures Horner(1.0, ks) == Total(ks)
  {
    if ks != [] {
      HornerAtOne(ks[1..]);
    }
  }

  // ---------------------------------------------------------------------------------------
  // The six terms, each already multiplied by the window area. `sd` and `ss` are the direct
  // normal and the horizontal diffuse irradiation of the step, `eta` the incidence angle
  // characteristic, `etaIsr` that of diffuse irradiation, `awj` the window area and `ax` its
  // sunlit part. 0.5 is the view factor of the sky (and of the ground) from a vertical plane
  // and 0.1 the ground reflectance.

  /** Direct irradiation on the whole window. */
  function DenDsr(sd: real, eta: real, cosT: real, awj: real): real
  {
    awj * sd * eta * cosT
  }

  /** Direct irradiation on the sunlit part of the window. */
  function NumDsr(sd: real, eta: real, cosT: real, ax: real): real
  {
    ax * sd * eta * cosT
  }

  /** Diffuse sky irradiation on the unshaded window. */
  function DenIsrYp(ss: real, etaIsr: real, awj: real): real
  {
    awj * etaIsr * 0.5 * ss
  }

  /** Diffuse sky irradiation with the devices in place. */
  function NumIsrYp(ss: real, etaIsr: real, awj: real, gammaYp: real): real
  {
    gammaYp * awj * etaIsr * 0.5 * ss
  }

  /** Irradiation reflected by the ground on the unshaded window. */
  function DenIsrYm(sd: real, ss: real, etaIsr: real, sinh: real, awj: real): real
  {
    awj * etaIsr * 0.1 * 0.5 * (ss + sd * sinh)
  }

  /** Irradiation reflected by the ground with the devices in place. */
  function NumIsrYm(sd: real, ss: real, etaIsr: real, sinh: real, awj: real, gammaYm: real): real
  {
    gammaYm * awj * etaIsr * 0.1 * 0.5 * (ss + sd * sinh)
  }

  /** The additions of one step to the numerator and the denominator of the factor. */
  datatype Contribution = Contribution(num: real, den: real)

  /** The contribution of one step: the three numerator terms and the three denominator terms. */
  function Scf00(sd: real, ss: real, eta: real, etaIsr: real, cosT: real, sinh: real,
                 awj: real, ax: real, gammaYp: real, gammaYm: real): Contribution
  {
    Contribution(
      NumDsr(sd, eta, cosT, ax) + NumIsrYp(ss, etaIsr, awj, gammaYp)
        + NumIsrYm(sd, ss, etaIsr, sinh, awj, gammaYm),
      DenDsr(sd, eta, cosT, awj) + DenIsrYp(ss, etaIsr, awj)
        + DenIsrYm(sd, ss, etaIsr, sinh, awj))
  }

  /** Each numerator term is its denominator term scaled by the shading coefficient of its
      irradiation: the sunlit share `ax / awj` of the window for the direct part, the
      coefficients `gammaYp` and `gammaYm` for the sky and the ground parts. */
  lemma TermsScale(sd: real, ss: real, eta: real, etaIsr: real, cosT: real, sinh: real,
                   awj: real, ax: real, gammaYp: real, gammaYm: real)
    ensures NumDsr(sd, eta, cosT, ax) * awj == ax * DenDsr(sd, eta, cosT, awj)
    ensures NumIsrYp(ss, etaIsr, awj, gammaYp) == gammaYp * DenIsrYp(ss, etaIsr, awj)
    ensures NumIsrYm(sd, ss, etaIsr, sinh, awj, gammaYm) == gammaYm * DenIsrYm(sd, ss, etaIsr, sinh, awj)
  {
    var p := sd * eta * cosT;
    assert NumDsr(sd, eta, cosT, ax) == ax * p;
    assert DenDsr(sd, eta, cosT, awj) == awj * p;
  }

  /** The numerator of a step is its denominator less what the devices take away: the
      direct irradiation on the shaded part of the window and the unshaded share of the sky
      and of the ground parts. */
  lemma Scf00Loss(sd: real, ss: real, eta: real, etaIsr: real, cosT: real, sinh: real,
                  awj: real, ax: real, gammaYp: real, gammaYm: real)
    ensures Scf00(sd, ss, eta, etaIsr, cosT, sinh, awj, ax, gammaYp, gammaYm).num
         == Scf00(sd, ss, eta, etaIsr, cosT, sinh, awj, ax, gammaYp, gammaYm).den
            - ((awj - ax) * (sd * eta * cosT)
               + (1.0 - gammaYp) * DenIsrYp(ss, etaIsr, awj)
               + (1.0 - gammaYm) * DenIsrYm(sd, ss, etaIsr, sinh, awj))
  {
    var p := sd * eta * cosT;
    assert NumDsr(sd, eta, cosT, ax) == ax * p;
    assert DenDsr(sd, eta, cosT, awj) == awj * p;
    TermsScale(sd, ss, eta, etaIsr, cosT, sinh, awj, ax, gammaYp, gammaYm);
  }

  /** Without shading (the whole window sunlit, both coefficients 1) the numerator of a step
      equals its denominator. */
  lemma Scf00Unshaded(sd: real, ss: real, eta: real, etaIsr: real, cosT: real, sinh: real, awj: real)
    ensures Scf00(sd, ss, eta, etaIsr, cosT, sinh, awj, awj, 1.0, 1.0).num
         == Scf00(sd, ss, eta, etaIsr, cosT, sinh, awj, awj, 1.0, 1.0).den
  {
    Scf00Loss(sd, ss, eta, etaIsr, cosT, sinh, awj, awj, 1.0, 1.0);
  }

  /** With non-negative irradiation and characteristics (the direct irradiation on the
      horizontal, `sd * sinh`, among them), a sunlit part within the window and coefficients
      within [0, 1], a step adds no less than 0 to the numerator and no more to it than to the
      denominator. */
  lemma Scf00Bounds(sd: real, ss: real, eta: real, etaIsr: real, cosT: real, sinh: real,
                    awj: real, ax: real, gammaYp: real, gammaYm: real)
    requires sd >= 0.0 && ss >= 0.0 && eta >= 0.0 && etaIsr >= 0.0 && cosT >= 0.0 && sd * sinh >= 0.0
    requires 0.0 <= ax <= awj && 0.0 <= gammaYp <= 1.0 && 0.0 <= gammaYm <= 1.0
    ensures 0.0 <= Scf00(sd, ss, eta, etaIsr, cosT, sinh, awj, ax, gammaYp, gammaYm).num
    ensures Scf00(sd, ss, eta, etaIsr, cosT, sinh, awj, ax, gammaYp, gammaYm).num
         <= Scf00(sd, ss, eta, etaIsr, cosT, sinh, awj, ax, gammaYp, gammaYm).den
  {
    var p := sd * eta * cosT;
    NonNegProduct(sd, eta);
    NonNegProduct(sd * eta, cosT);
    var dp := DenIsrYp(ss, etaIsr, awj);
    var dm := DenIsrYm(sd, ss, etaIsr, sinh, awj);
    NonNegProduct(awj, etaIsr);
    NonNegProduct(awj * etaIsr * 0.5, ss);
    NonNegProduct(awj * etaIsr * 0.1 * 0.5, ss + sd * sinh);
    assert dp >= 0.0 && dm >= 0.0;
    TermsScale(sd, ss, eta, etaIsr, cosT, sinh, awj, ax, gammaYp, gammaYm);
    assert NumDsr(sd, eta, cosT, ax) == ax * p;
    assert DenDsr(sd, eta, cosT, awj) == awj * p;
    NonNegProduct(ax, p);
    NonNegProduct(gammaYp, dp);
    NonNegProduct(gammaYm, dm);
    NonNegProduct(awj - ax, p);
    NonNegProduct(1.0 - gammaYp, dp);
    NonNegProduct(1.0 - gammaYm, dm);
    Scf00Loss(sd, ss, eta, etaIsr, cosT, sinh, awj, ax, gammaYp, gammaYm);
  }

  /** A product of two non-negative reals is non-negative. */
  lemma NonNegProduct(a: real, b: real)
    ensures a >= 0.0 && b >= 0.0 ==> a * b >= 0.0
  {
  }
}
