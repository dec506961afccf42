/** The view factors of the window to the sky and to the ground with the devices in place, and
    the diffuse and reflected shading coefficients that are twice those factors. Each view
    factor is a signed sum of the rectangle integral f_A over the window, the devices and the
    parts of the wall beside the window, divided by pi times the window area. */
module ViewFactor {
  import opened Numerics
  import opened Geometry
  import Shadow

  /** The arc tangent term of f_A; zero on the axis. */
  function FaAtan(t: Transcendentals, x: real, y: real, z: real): real
    requires Sound(t)
  {
    if y * y + z * z > 0.0 then
      x * t.sqrt(y * y + z * z) / 2.0 * t.atan(x / t.sqrt(y * y + z * z))
    else 0.0
  }

  /** The logarithm term of f_A; zero at the origin. */
  function FaLog(t: Transcendentals, x: real, y: real, z: real): real
  {
    if x * x + y * y + z * z > 0.0 then
      (x * x - y * y - z * z) / 8.0 * t.log(x * x + y * y + z * z)
    else 0.0
  }

  /** The integral f_A over the rectangle [xa, xb] x [ya, yb] at distance za: each term taken at
      the four corners with alternating signs. */
  function Fa(t: Transcendentals, xa: real, xb: real, ya: real, yb: real, za: real): real
    requires Sound(t)
  {
    FaAtan(t, xb, yb, za) - FaAtan(t, xb, ya, za) - FaAtan(t, xa, yb, za) + FaAtan(t, xa, ya, za)
    + FaLog(t, xb, yb, za) - FaLog(t, xb, ya, za) - FaLog(t, xa, yb, za) + FaLog(t, xa, ya, za)
  }

  /** A rectangle of zero width or zero height contributes nothing, and exchanging the two
      ends of either side changes the sign, whatever the transcendental functions are. */
  lemma FaOrientation(t: Transcendentals, xa: real, xb: real, ya: real, yb: real, za: real)
    requires Sound(t)
    ensures Fa(t, xa, xa, ya, yb, za) == 0.0
    ensures Fa(t, xa, xb, ya, ya, za) == 0.0
    ensures Fa(t, xb, xa, ya, yb, za) == -Fa(t, xa, xb, ya, yb, za)
    ensures Fa(t, xa, xb, yb, ya, za) == -Fa(t, xa, xb, ya, yb, za)
  {
  }

  /** The signed sum of the view factor to the sky over the window, the overhang and the two
      fins above the window (the wall terms at distance 0 less the device terms at distance 0,
      plus the device terms at the device depths). */
  function SkySum(t: Transcendentals, g: Geometry): real
    requires Sound(t)
  {
    Fa(t, g.X3yp, g.X2 + g.X3yp, g.Y1, g.Y1 + g.Y2, g.Zyp) + Fa(t, g.Y1xp, g.Y1xp + g.Y2, g.X3, g.X2 + g.X3, g.Zxp)
    + Fa(t, g.X1yp, g.X1yp + g.X2, g.Y1, g.Y1 + g.Y2, g.Zyp) + Fa(t, g.Y1xm, g.Y1xm + g.Y2, g.X1, g.X1 + g.X2, g.Zxm)
    + Fa(t, g.X3, g.X2 + g.X3, g.Y1, g.Y1 + g.Y2, 0.0) + Fa(t, g.Y1, g.Y1 + g.Y2, g.X3, g.X2 + g.X3, 0.0)
    + Fa(t, g.X1, g.X1 + g.X2, g.Y1, g.Y1 + g.Y2, 0.0) + Fa(t, g.Y1, g.Y1 + g.Y2, g.X1, g.X1 + g.X2, 0.0)
    - Fa(t, g.X3yp, g.X2 + g.X3yp, g.Y1, g.Y1 + g.Y2, 0.0) - Fa(t, g.Y1xp, g.Y1xp + g.Y2, g.X3, g.X2 + g.X3, 0.0)
    - Fa(t, g.X1yp, g.X1yp + g.X2, g.Y1, g.Y1 + g.Y2, 0.0) - Fa(t, g.Y1xm, g.Y1xm + g.Y2, g.X1, g.X1 + g.X2, 0.0)
  }

  /** The same for the view factor to the ground, below the window. */
  function GroundSum(t: Transcendentals, g: Geometry): real
    requires Sound(t)
  {
    Fa(t, g.X3ym, g.X2 + g.X3ym, g.Y3, g.Y2 + g.Y3, g.Zym) + Fa(t, g.Y3xp, g.Y2 + g.Y3xp, g.X3, g.X2 + g.X3, g.Zxp)
    + Fa(t, g.X1ym, g.X1ym + g.X2, g.Y3, g.Y2 + g.Y3, g.Zym) + Fa(t, g.Y3xm, g.Y2 + g.Y3xm, g.X1, g.X1 + g.X2, g.Zxm)
    + Fa(t, g.X3, g.X2 + g.X3, g.Y3, g.Y2 + g.Y3, 0.0) + Fa(t, g.Y3, g.Y2 + g.Y3, g.X3, g.X2 + g.X3, 0.0)
    + Fa(t, g.X1, g.X1 + g.X2, g.Y3, g.Y2 + g.Y3, 0.0) + Fa(t, g.Y3, g.Y2 + g.Y3, g.X1, g.X1 + g.X2, 0.0)
    - Fa(t, g.X3ym, g.X2 + g.X3ym, g.Y3, g.Y2 + g.Y3, 0.0) - Fa(t, g.Y3xp, g.Y2 + g.Y3xp, g.X3, g.X2 + g.X3, 0.0)
    - Fa(t, g.X1ym, g.X1ym + g.X2, g.Y3, g.Y2 + g.Y3, 0.0) - Fa(t, g.Y3xm, g.Y2 + g.Y3xm, g.X1, g.X1 + g.X2, 0.0)
  }

  /** The view factor to the sky, held within [0, 0.5]. */
  function PhiYp(t: Transcendentals, g: Geometry): (phi: real)
    requires Sound(t) && g.X2 * g.Y2 != 0.0
    ensures 0.0 <= phi <= 0.5
  {
    Shadow.Clamp(1.0 / (t.pi * g.X2 * g.Y2) * SkySum(t, g), 0.5)
  }

  /** The view factor to the ground, held within [0, 0.5]. */
  function PhiYm(t: Transcendentals, g: Geometry): (phi: real)
    requires Sound(t) && g.X2 * g.Y2 != 0.0
    ensures 0.0 <= phi <= 0.5
  {
    Shadow.Clamp(1.0 / (t.pi * g.X2 * g.Y2) * GroundSum(t, g), 0.5)
  }

  /** The shading coefficient of the diffuse sky irradiation: twice the sky view factor, so
      within [0, 1]. */
  function GammaYp(t: Transcendentals, g: Geometry): (gamma: real)
    requires Sound(t) && g.X2 * g.Y2 != 0.0
    ensures 0.0 <= gamma <= 1.0
  {
    2.0 * PhiYp(t, g)
  }

  /** The shading coefficient of the irradiation reflected by the ground: twice the ground
      view factor, so within [0, 1]. */
  function GammaYm(t: Transcendentals, g: Geometry): (gamma: real)
    requires Sound(t) && g.X2 * g.Y2 != 0.0
    ensures 0.0 <= gamma <= 1.0
  {
    2.0 * PhiYm(t, g)
  }
}
