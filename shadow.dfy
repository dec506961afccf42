/** The sunlit part of the window: the area of the shadow an overhang or a side fin casts on a
    quarter-plane, the inclusion-exclusion sum over the four window corners, and the choice
    between the formulas for the sun on the x+ side and on the x- side. The transcendental
    factors tan|Az| and tan h / cos Az are passed in. */
module Shadow {
  import opened Geometry

  /** The area of the part of the quadrant of widths `xTh` and `yTh` that a device hides,
      for a shadow that reaches `xThZ` across and `yThZ` down: the shadow's tip lies inside
      both ends of the quadrant, or its slanted edge leaves through the side `yTh`, or through
      the side `xTh`. */
  function ShadowRegion(xTh: real, yTh: real, xThZ: real, yThZ: real): real
    requires xThZ != 0.0 && yThZ > 0.0
  {
    if xTh >= xThZ && yTh >= yThZ then (xTh - xThZ / 2.0) * yThZ
    else if yTh * xThZ >= xTh * yThZ then xTh * xTh * yThZ / xThZ / 2.0
    else (xTh - yTh / 2.0 * xThZ / yThZ) * yTh
  }

  function Min(a: real, b: real): real { if a <= b then a else b }

  /** The same area as an integral over depth: the horizontal strip at depth v (0 <= v <= yThZ)
      is shaded over the width xTh - v * xThZ / yThZ, and the strips are summed down to the
      depth where the quadrant ends, the shadow ends, or the shaded width reaches zero. */
  function StripIntegral(xTh: real, yTh: real, xThZ: real, yThZ: real): real
    requires xThZ > 0.0 && yThZ > 0.0
  {
    var m := Min(Min(yTh, yThZ), xTh * yThZ / xThZ);
    xTh * m - (xThZ / yThZ) * m * m / 2.0
  }

  /** The three-region formula is the strip integral, for every quadrant and every shadow
      that reaches a positive distance both ways. */
  lemma RegionIsStripIntegral(xTh: real, yTh: real, xThZ: real, yThZ: real)
    requires xThZ > 0.0 && yThZ > 0.0
    ensures ShadowRegion(xTh, yTh, xThZ, yThZ) == StripIntegral(xTh, yTh, xThZ, yThZ)
  {
    if xTh >= xThZ && yTh >= yThZ {
      TipInsideIsStrips(xTh, yTh, xThZ, yThZ);
    } else if yTh * xThZ >= xTh * yThZ {
      TriangleIsStrips(xTh, yTh, xThZ, yThZ);
    } else {
      TrapezoidIsStrips(xTh, yTh, xThZ, yThZ);
    }
  }

  /** The shadow's tip inside the quadrant: the strips stop at the shadow's depth. */
  lemma TipInsideIsStrips(xTh: real, yTh: real, xThZ: real, yThZ: real)
    requires xThZ > 0.0 && yThZ > 0.0 && xTh >= xThZ && yTh >= yThZ
    ensures ShadowRegion(xTh, yTh, xThZ, yThZ) == StripIntegral(xTh, yTh, xThZ, yThZ)
  {
    var t := xTh * yThZ / xThZ;
    assert t * xThZ == xTh * yThZ;
    assert yThZ * xThZ <= xTh * yThZ;
    assert yThZ <= t;
    assert Min(Min(yTh, yThZ), t) == yThZ;
    assert (xThZ / yThZ) * yThZ == xThZ;
  }

  /** The slanted edge leaving through the side `yTh`: the strips stop where the shaded width
      reaches zero, and add up to a triangle. */
  lemma TriangleIsStrips(xTh: real, yTh: real, xThZ: real, yThZ: real)
    requires xThZ > 0.0 && yThZ > 0.0 && !(xTh >= xThZ && yTh >= yThZ)
    requires yTh * xThZ >= xTh * yThZ
    ensures ShadowRegion(xTh, yTh, xThZ, yThZ) == StripIntegral(xTh, yTh, xThZ, yThZ)
  {
    var t := xTh * yThZ / xThZ;
    assert t * xThZ == xTh * yThZ;
    assert t <= yTh;
    if xTh < xThZ {
      ShallowTip(t, xTh, xThZ, yThZ);
    } else {
      assert yTh < yThZ;
    }
    assert Min(Min(yTh, yThZ), t) == t;
    var k := xThZ / yThZ;
    assert k * yThZ == xThZ;
    assert k * t == xTh;
  }

  /** The slanted edge leaving through the side `xTh`: the strips stop at the quadrant's end
      and add up to a trapezoid. */
  lemma TrapezoidIsStrips(xTh: real, yTh: real, xThZ: real, yThZ: real)
    requires xThZ > 0.0 && yThZ > 0.0 && !(xTh >= xThZ && yTh >= yThZ)
    requires !(yTh * xThZ >= xTh * yThZ)
    ensures ShadowRegion(xTh, yTh, xThZ, yThZ) == StripIntegral(xTh, yTh, xThZ, yThZ)
  {
    var t := xTh * yThZ / xThZ;
    assert t * xThZ == xTh * yThZ;
    assert yTh * xThZ < t * xThZ;
    CancelStrict(yTh, t, xThZ);
    assert yTh < yThZ;
    assert Min(Min(yTh, yThZ), t) == yTh;
    var k := xThZ / yThZ;
    assert k * yThZ == xThZ;
  }

  /** A shadow narrower than the quadrant reaches zero width above the shadow's depth. */
  lemma ShallowTip(t: real, xTh: real, xThZ: real, yThZ: real)
    requires xThZ > 0.0 && yThZ > 0.0 && xTh < xThZ && t * xThZ == xTh * yThZ
    ensures t <= yThZ
  {
    ProductOrder(xThZ, xTh, yThZ);
    assert t * xThZ <= yThZ * xThZ;
    CancelOrder(t, yThZ, xThZ);
  }

  /** The hidden area never exceeds the quadrant and is never negative. */
  lemma RegionBounds(xTh: real, yTh: real, xThZ: real, yThZ: real)
    requires xTh >= 0.0 && yTh >= 0.0 && xThZ > 0.0 && yThZ > 0.0
    ensures 0.0 <= ShadowRegion(xTh, yTh, xThZ, yThZ) <= xTh * yTh
  {
    if xTh >= xThZ && yTh >= yThZ {
      MulBounds(xTh - xThZ / 2.0, xTh, yThZ, yTh);
    } else if yTh * xThZ >= xTh * yThZ {
      TriangleBounds(xTh, yTh, xThZ, yThZ);
    } else {
      TrapezoidBounds(xTh, yTh, xThZ, yThZ);
    }
  }

  /** The triangle lies within the quadrant. */
  lemma TriangleBounds(xTh: real, yTh: real, xThZ: real, yThZ: real)
    requires xTh >= 0.0 && yTh >= 0.0 && xThZ > 0.0 && yThZ > 0.0 && !(xTh >= xThZ && yTh >= yThZ)
    requires yTh * xThZ >= xTh * yThZ
    ensures 0.0 <= ShadowRegion(xTh, yTh, xThZ, yThZ) <= xTh * yTh
  {
    var t := xTh * yThZ / xThZ;
    assert t * xThZ == xTh * yThZ;
    CancelOrder(t, yTh, xThZ);
    assert 0.0 * xThZ <= t * xThZ;
    CancelOrder(0.0, t, xThZ);
    assert ShadowRegion(xTh, yTh, xThZ, yThZ) == xTh * t / 2.0;
    MulBounds(xTh, xTh, t, yTh);
  }

  /** The trapezoid lies within the quadrant. */
  lemma TrapezoidBounds(xTh: real, yTh: real, xThZ: real, yThZ: real)
    requires xTh >= 0.0 && yTh >= 0.0 && xThZ > 0.0 && yThZ > 0.0 && !(xTh >= xThZ && yTh >= yThZ)
    requires !(yTh * xThZ >= xTh * yThZ)
    ensures 0.0 <= ShadowRegion(xTh, yTh, xThZ, yThZ) <= xTh * yTh
  {
    var s := yTh * xThZ / yThZ;
    SlopeWithin(xTh, yTh, xThZ, yThZ);
    HalfSlope(yTh, xThZ, yThZ);
    assert ShadowRegion(xTh, yTh, xThZ, yThZ) == (xTh - s / 2.0) * yTh;
    ShiftBounds(s, xTh, yTh);
  }

  /** Where the shadow edge leaves through the bottom, the width it cuts off there lies
      within the quadrant width. */
  lemma SlopeWithin(xTh: real, yTh: real, xThZ: real, yThZ: real)
    requires xTh >= 0.0 && yTh >= 0.0 && xThZ > 0.0 && yThZ > 0.0
    requires !(yTh * xThZ >= xTh * yThZ)
    ensures 0.0 <= yTh * xThZ / yThZ < xTh
  {
    var s := yTh * xThZ / yThZ;
    assert s * yThZ == yTh * xThZ;
    assert s * yThZ < xTh * yThZ;
    CancelStrict(s, xTh, yThZ);
    assert 0.0 * yThZ <= s * yThZ;
    CancelOrder(0.0, s, yThZ);
  }

  lemma HalfSlope(yTh: real, xThZ: real, yThZ: real)
    requires yThZ > 0.0
    ensures yTh / 2.0 * xThZ / yThZ == (yTh * xThZ / yThZ) / 2.0
  {
  }

  /** Cutting a triangle of base `s` below the width off a `xTh` by `yTh` rectangle leaves
      an area between nothing and the rectangle. */
  lemma ShiftBounds(s: real, xTh: real, yTh: real)
    requires 0.0 <= s < xTh && yTh >= 0.0
    ensures 0.0 <= (xTh - s / 2.0) * yTh <= xTh * yTh
  {
    MulBounds(xTh - s / 2.0, xTh, yTh, yTh);
  }

  /** Products of non-negative numbers grow with their factors. */
  lemma MulBounds(a: real, b: real, c: real, d: real)
    requires 0.0 <= a <= b && 0.0 <= c <= d
    ensures 0.0 <= a * c <= b * d
  {
    ProductOrder(b, a, c);
    ProductOrder(d, c, b);
    assert b * c == c * b;
  }

  /** Order of products with a common positive factor is the order of the other factors. */
  lemma CancelOrder(a: real, b: real, c: real)
    requires c > 0.0 && a * c <= b * c
    ensures a <= b
  {
    ProductOrder(a, b, c);
  }

  /** The strict form of `CancelOrder`. */
  lemma CancelStrict(a: real, b: real, c: real)
    requires c > 0.0 && a * c < b * c
    ensures a < b
  {
    ProductOrder(b, a, c);
  }

  /** A positive factor keeps strict and non-strict order. */
  lemma ProductOrder(a: real, b: real, c: real)
    ensures c > 0.0 && a > b ==> a * c > b * c
    ensures c > 0.0 && a >= b ==> a * c >= b * c
  {
  }

  /** The quadrant a device shades at one window corner and the reach of its shadow:
      the widths `xTh` and `yTh` from the corner to the device's far edges, and how far the
      shadow reaches across (`xThZ`) and down (`yThZ`). */
  datatype Reach = Reach(xTh: real, yTh: real, xThZ: real, yThZ: real)

  /** The shadow of one device on a quadrant: none when the shadow has no reach across or
      does not reach down (the device has no depth, or the sun is not in front of it). */
  function DeviceShadow(r: Reach): real
  {
    if r.xThZ == 0.0 || r.yThZ <= 0.0 then 0.0
    else ShadowRegion(r.xTh, r.yTh, r.xThZ, r.yThZ)
  }

  /** A device never hides more than the quadrant, and never a negative area. */
  lemma DeviceShadowBounds(r: Reach)
    requires r.xTh >= 0.0 && r.yTh >= 0.0 && r.xThZ >= 0.0
    ensures 0.0 <= DeviceShadow(r) <= r.xTh * r.yTh
  {
    if r.xThZ != 0.0 && r.yThZ > 0.0 {
      RegionBounds(r.xTh, r.yTh, r.xThZ, r.yThZ);
    } else {
      assert 0.0 <= r.xTh * r.yTh;
    }
  }

  // ---------------------------------------------------------------------------------------
  // The four devices. (xx, yy) is a window corner relative to the window centre; tanAz is
  // tan|Az| and tanHc is tan h / cos Az for the relative azimuth Az and the solar altitude h.

  /** The overhang with the sun on the x+ side. */
  function OverhangPlus(g: Geometry, xx: real, yy: real, tanAz: real, tanHc: real): Reach
  {
    Reach(g.X3yp + g.X2 / 2.0 - xx, g.Y1 + g.Y2 / 2.0 - yy, g.Zyp * tanAz, g.Zyp * tanHc)
  }

  /** The x+ side fin with the sun on the x+ side: the overhang's quadrant with the roles of
      the two axes exchanged. */
  function FinPlus(g: Geometry, xx: real, yy: real, tanAz: real, tanHc: real): Reach
  {
    Reach(g.Y1xp + g.Y2 / 2.0 - yy, g.X3 + g.X2 / 2.0 - xx, g.Zxp * tanHc, g.Zxp * tanAz)
  }

  /** The overhang with the sun on the x- side. */
  function OverhangMinus(g: Geometry, xx: real, yy: real, tanAz: real, tanHc: real): Reach
  {
    Reach(g.X1yp + g.X2 / 2.0 + xx, g.Y1 + g.Y2 / 2.0 - yy, g.Zyp * tanAz, g.Zyp * tanHc)
  }

  /** The x- side fin with the sun on the x- side. */
  function FinMinus(g: Geometry, xx: real, yy: real, tanAz: real, tanHc: real): Reach
  {
    Reach(g.Y1xm + g.Y2 / 2.0 - yy, g.X1 + g.X2 / 2.0 + xx, g.Zxm * tanHc, g.Zxm * tanAz)
  }

  /** Holds `a` within [0, cap]: negative sums become 0 and sums beyond the window area
      become the window area. */
  function Clamp(a: real, cap: real): (r: real)
    ensures r >= 0.0
    ensures cap >= 0.0 ==> r <= cap
    ensures 0.0 <= a <= cap ==> r == a
  {
    if a < cap then (if a > 0.0 then a else 0.0) else (if cap > 0.0 then cap else 0.0)
  }

  /** The unclamped inclusion-exclusion sum for the sun on the x+ side: the sunlit part of the
      rectangle reaching from the lower-left window corner to the devices, less the three
      rectangles beside and above the window, each with its own shadow removed. `shade` is the
      area a device hides for its quadrant and reach; the program's is `DeviceShadow`. */
  function SumPlus(g: Geometry, tanAz: real, tanHc: real, shade: Reach -> real): real
  {
    var x := g.X2 / 2.0;
    var y := g.Y2 / 2.0;
    ((g.X2 + g.X3) * (g.Y1 + g.Y2)
      - shade(OverhangPlus(g, -x, -y, tanAz, tanHc)) - shade(FinPlus(g, -x, -y, tanAz, tanHc)))
    - ((g.X2 + g.X3) * g.Y1
      - shade(OverhangPlus(g, -x, y, tanAz, tanHc)) - shade(FinPlus(g, -x, y, tanAz, tanHc)))
    - (g.X3 * (g.Y1 + g.Y2)
      - shade(OverhangPlus(g, x, -y, tanAz, tanHc)) - shade(FinPlus(g, x, -y, tanAz, tanHc)))
    + (g.X3 * g.Y1
      - shade(OverhangPlus(g, x, y, tanAz, tanHc)) - shade(FinPlus(g, x, y, tanAz, tanHc)))
  }

  /** The unclamped inclusion-exclusion sum for the sun on the x- side, the mirror image of
      `SumPlus`: the corners are taken from the lower-right window corner. */
  function SumMinus(g: Geometry, tanAz: real, tanHc: real, shade: Reach -> real): real
  {
    var x := g.X2 / 2.0;
    var y := g.Y2 / 2.0;
    ((g.X1 + g.X2) * (g.Y1 + g.Y2)
      - shade(OverhangMinus(g, x, -y, tanAz, tanHc)) - shade(FinMinus(g, x, -y, tanAz, tanHc)))
    - ((g.X1 + g.X2) * g.Y1
      - shade(OverhangMinus(g, x, y, tanAz, tanHc)) - shade(FinMinus(g, x, y, tanAz, tanHc)))
    - (g.X1 * (g.Y1 + g.Y2)
      - shade(OverhangMinus(g, -x, -y, tanAz, tanHc)) - shade(FinMinus(g, -x, -y, tanAz, tanHc)))
    + (g.X1 * g.Y1
      - shade(OverhangMinus(g, -x, y, tanAz, tanHc)) - shade(FinMinus(g, -x, y, tanAz, tanHc)))
  }

  /** The sunlit area with the sun on the x+ side (relative azimuth in (-90, 0), the sun above
      the horizon), held within [0, X2 * Y2]; zero otherwise. */
  function SunlitPlus(g: Geometry, az: real, hs: real, tanAz: real, tanHc: real): (a: real)
    ensures a >= 0.0
    ensures g.X2 * g.Y2 >= 0.0 ==> a <= g.X2 * g.Y2
    ensures !(hs > 0.0 && -90.0 < az < 0.0) ==> a == 0.0
  {
    if hs > 0.0 && -90.0 < az < 0.0 then
      Clamp(SumPlus(g, tanAz, tanHc, DeviceShadow), g.X2 * g.Y2)
    else 0.0
  }

  /** The sunlit area with the sun on the x- side (relative azimuth in [0, 90), the sun above
      the horizon), held within [0, X2 * Y2]; zero otherwise. */
  function SunlitMinus(g: Geometry, az: real, hs: real, tanAz: real, tanHc: real): (a: real)
    ensures a >= 0.0
    ensures g.X2 * g.Y2 >= 0.0 ==> a <= g.X2 * g.Y2
    ensures !(hs > 0.0 && 0.0 <= az < 90.0) ==> a == 0.0
  {
    if hs > 0.0 && 0.0 <= az < 90.0 then
      Clamp(SumMinus(g, tanAz, tanHc, DeviceShadow), g.X2 * g.Y2)
    else 0.0
  }

  /** The area of the window on which the direct sun falls, for the relative azimuth `az`
      and the solar altitude `hs` in degrees: the x+ formula for az in (-90, 0), the x-
      formula for az in [0, 90), and none when the sun is below the horizon or behind the
      window plane. */
  function SunlitArea(g: Geometry, az: real, hs: real, tanAz: real, tanHc: real): (a: real)
    ensures 0.0 <= a
    ensures g.X2 * g.Y2 >= 0.0 ==> a <= g.X2 * g.Y2
    ensures hs <= 0.0 || az <= -90.0 || az >= 90.0 ==> a == 0.0
    ensures hs > 0.0 && -90.0 < az < 0.0 ==> a == SunlitPlus(g, az, hs, tanAz, tanHc)
    ensures hs > 0.0 && 0.0 <= az < 90.0 ==> a == SunlitMinus(g, az, hs, tanAz, tanHc)
  {
    if hs > 0.0 && -90.0 < az < 0.0 then SunlitPlus(g, az, hs, tanAz, tanHc)
    else if hs > 0.0 && 0.0 <= az < 90.0 then SunlitMinus(g, az, hs, tanAz, tanHc)
    else 0.0
  }

  /** Without an overhang and without the x+ fin nothing is shaded: the inclusion-exclusion
      sum is exactly the window area, whatever the sun position. */
  lemma ZeroDepthPlus(g: Geometry, az: real, hs: real, tanAz: real, tanHc: real)
    requires g.Zyp == 0.0 && g.Zxp == 0.0
    ensures SumPlus(g, tanAz, tanHc, DeviceShadow) == g.X2 * g.Y2
    ensures hs > 0.0 && -90.0 < az < 0.0 && g.X2 * g.Y2 >= 0.0 ==>
              SunlitArea(g, az, hs, tanAz, tanHc) == g.X2 * g.Y2
  {
    var x := g.X2 / 2.0;
    var y := g.Y2 / 2.0;
    NoDepthPlus(g, -x, -y, tanAz, tanHc);
    NoDepthPlus(g, -x, y, tanAz, tanHc);
    NoDepthPlus(g, x, -y, tanAz, tanHc);
    NoDepthPlus(g, x, y, tanAz, tanHc);
    InclusionExclusion(g.X3, g.X2, g.Y1, g.Y2);
  }

  /** Devices without depth cast no shadow at any corner. */
  lemma NoDepthPlus(g: Geometry, xx: real, yy: real, tanAz: real, tanHc: real)
    requires g.Zyp == 0.0 && g.Zxp == 0.0
    ensures DeviceShadow(OverhangPlus(g, xx, yy, tanAz, tanHc)) == 0.0
    ensures DeviceShadow(FinPlus(g, xx, yy, tanAz, tanHc)) == 0.0
  {
  }

  lemma NoDepthMinus(g: Geometry, xx: real, yy: real, tanAz: real, tanHc: real)
    requires g.Zyp == 0.0 && g.Zxm == 0.0
    ensures DeviceShadow(OverhangMinus(g, xx, yy, tanAz, tanHc)) == 0.0
    ensures DeviceShadow(FinMinus(g, xx, yy, tanAz, tanHc)) == 0.0
  {
  }

  /** The four rectangles of the inclusion-exclusion sum leave the window. */
  lemma InclusionExclusion(a: real, b: real, c: real, d: real)
    ensures (a + b) * (c + d) - (a + b) * c - a * (c + d) + a * c == b * d
  {
  }

  /** The same with the sun on the x- side, without an overhang and the x- fin. */
  lemma ZeroDepthMinus(g: Geometry, az: real, hs: real, tanAz: real, tanHc: real)
    requires g.Zyp == 0.0 && g.Zxm == 0.0
    ensures SumMinus(g, tanAz, tanHc, DeviceShadow) == g.X2 * g.Y2
    ensures hs > 0.0 && 0.0 <= az < 90.0 && g.X2 * g.Y2 >= 0.0 ==>
              SunlitArea(g, az, hs, tanAz, tanHc) == g.X2 * g.Y2
  {
    var x := g.X2 / 2.0;
    var y := g.Y2 / 2.0;
    NoDepthMinus(g, x, -y, tanAz, tanHc);
    NoDepthMinus(g, x, y, tanAz, tanHc);
    NoDepthMinus(g, -x, -y, tanAz, tanHc);
    NoDepthMinus(g, -x, y, tanAz, tanHc);
    InclusionExclusion(g.X1, g.X2, g.Y1, g.Y2);
  }

  /** The window seen in a mirror across its vertical centre line: the x+ and x- devices and
      distances change places. */
  function Mirror(g: Geometry): (m: Geometry)
    ensures m.X2 == g.X2 && m.Y2 == g.Y2
  {
    g.(X1 := g.X3, X3 := g.X1, X1yp := g.X3yp, X3yp := g.X1yp, X1ym := g.X3ym, X3ym := g.X1ym,
       Y1xp := g.Y1xm, Y1xm := g.Y1xp, Y3xp := g.Y3xm, Y3xm := g.Y3xp, Zxp := g.Zxm, Zxm := g.Zxp)
  }

  /** The x- inclusion-exclusion sum is the x+ sum of the mirror image, whatever area each
      device hides for a given quadrant and reach: tan|Az| and cos Az do not change when the
      relative azimuth changes sign. */
  lemma SumMirror(g: Geometry, tanAz: real, tanHc: real, shade: Reach -> real)
    ensures SumMinus(g, tanAz, tanHc, shade) == SumPlus(Mirror(g), tanAz, tanHc, shade)
  {
    var m := Mirror(g);
    assert m.X2 == g.X2 && m.Y2 == g.Y2 && m.X3 == g.X1 && m.Y1 == g.Y1;
    var x := g.X2 / 2.0;
    var y := g.Y2 / 2.0;
    MirrorOverhang(g, x, -y, tanAz, tanHc);
    MirrorOverhang(g, x, y, tanAz, tanHc);
    MirrorOverhang(g, -x, -y, tanAz, tanHc);
    MirrorOverhang(g, -x, y, tanAz, tanHc);
    MirrorFin(g, x, -y, tanAz, tanHc);
    MirrorFin(g, x, y, tanAz, tanHc);
    MirrorFin(g, -x, -y, tanAz, tanHc);
    MirrorFin(g, -x, y, tanAz, tanHc);
  }

  /** At one corner, the overhang of a window casts the shadow with the sun on the x- side that
      the overhang of its mirror image casts at the mirrored corner with the sun on the x+ side. */
  lemma MirrorOverhang(g: Geometry, xx: real, yy: real, tanAz: real, tanHc: real)
    ensures OverhangMinus(g, xx, yy, tanAz, tanHc) == OverhangPlus(Mirror(g), -xx, yy, tanAz, tanHc)
  {
  }

  /** The same for the x- fin of a window and the x+ fin of its mirror image. */
  lemma MirrorFin(g: Geometry, xx: real, yy: real, tanAz: real, tanHc: real)
    ensures FinMinus(g, xx, yy, tanAz, tanHc) == FinPlus(Mirror(g), -xx, yy, tanAz, tanHc)
  {
  }


  /** A 1 m square window (X2 = Y2 = 1) under a 1 m deep overhang (Zyp = 1), nothing else. */
  const SquareUnderOverhang: Geometry :=
    Geometry(0.0, 1.0, 0.0, 0.0, 0.0, 0.0, 0.0, 0.0, 1.0, 0.0, 0.0, 0.0, 0.0, 0.0, 0.0, 0.0, 1.0, 0.0)

  /** A worked case: a 1 m square window under a 1 m deep overhang, nothing else, with the sun
      at 45 degrees to the window normal on the x+ side and tan h / cos Az = 1. The overhang
      shades the triangle above the diagonal, so half of the window is sunlit. */
  lemma OverhangHalfShaded()
    ensures SumPlus(SquareUnderOverhang, 1.0, 1.0, DeviceShadow) == 0.5
    ensures SunlitArea(SquareUnderOverhang, -45.0, 45.0, 1.0, 1.0) == 0.5
  {
    var g := SquareUnderOverhang;
    assert DeviceShadow(OverhangPlus(g, -0.5, -0.5, 1.0, 1.0)) == 0.5;
    assert DeviceShadow(OverhangPlus(g, -0.5, 0.5, 1.0, 1.0)) == 0.0;
    assert DeviceShadow(OverhangPlus(g, 0.5, -0.5, 1.0, 1.0)) == 0.0;
    assert DeviceShadow(OverhangPlus(g, 0.5, 0.5, 1.0, 1.0)) == 0.0;
  }
}
