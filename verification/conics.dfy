/** The closed-form pieces of the orbit propagator in gravity.js, as pure
    functions of the orbital elements: the residuals of Kepler's and
    Barker's equations that `fsolve` is asked to zero, the position and
    velocity on each conic in the orbit's own frame (periapsis on +x),
    the rotation into the reference frame, and the periapsis epoch that
    `reset` back-solves. Units: the gravitational parameter is 1. */
module Conics {
  import opened Maths
  import opened RootFinding

  /** Position and velocity in the plane. */
  datatype Motion = Motion(x: real, y: real, vx: real, vy: real)

  /** The conic section the eccentricity selects. */
  datatype Regime = Ellipse | Parabola | Hyperbola

  function RegimeOf(e: real): (g: Regime)
    ensures g == Ellipse <==> e < 1.0
    ensures g == Hyperbola <==> e > 1.0
    ensures g == Parabola <==> e == 1.0
  {
    if e < 1.0 then Ellipse else if e > 1.0 then Hyperbola else Parabola
  }

  /** The rotation of position and velocity by the angle whose cosine
      and sine are `ct` and `st`. */
  function Rotate(ct: real, st: real, s: Motion): Motion
  {
    Motion(s.x * ct - s.y * st, s.y * ct + s.x * st,
           s.vx * ct - s.vy * st, s.vy * ct + s.vx * st)
  }

  function SpeedSquared(s: Motion): real
  {
    s.vx * s.vx + s.vy * s.vy
  }

  function RadiusSquared(s: Motion): real
  {
    s.x * s.x + s.y * s.y
  }

  lemma PlaneRotationNorm(ct: real, st: real, u: real, w: real)
    requires ct * ct + st * st == 1.0
    ensures (u * ct - w * st) * (u * ct - w * st) + (w * ct + u * st) * (w * ct + u * st)
         == u * u + w * w
  {
    calc {
      (u * ct - w * st) * (u * ct - w * st) + (w * ct + u * st) * (w * ct + u * st);
      u * u * (ct * ct + st * st) + w * w * (ct * ct + st * st);
      u * u + w * w;
    }
  }

  /** A rotation keeps the distance to the centre and the speed. */
  lemma RotationPreservesNorms(ct: real, st: real, s: Motion)
    requires ct * ct + st * st == 1.0
    ensures RadiusSquared(Rotate(ct, st, s)) == RadiusSquared(s)
    ensures SpeedSquared(Rotate(ct, st, s)) == SpeedSquared(s)
  {
    PlaneRotationNorm(ct, st, s.x, s.y);
    PlaneRotationNorm(ct, st, s.vx, s.vy);
  }

  lemma PlaneRotationInverse(ct: real, st: real, u: real, w: real)
    requires ct * ct + st * st == 1.0
    ensures (u * ct - w * st) * ct - (w * ct + u * st) * -st == u
    ensures (w * ct + u * st) * ct + (u * ct - w * st) * -st == w
  {
    calc {
      (u * ct - w * st) * ct - (w * ct + u * st) * -st;
      u * (ct * ct + st * st);
      u;
    }
    calc {
      (w * ct + u * st) * ct + (u * ct - w * st) * -st;
      w * (ct * ct + st * st);
      w;
    }
  }

  /** Rotating by -theta0 undoes rotating by theta0 (the frame change
      `reset` applies before back-solving the epoch). */
  lemma RotationInverse(ct: real, st: real, s: Motion)
    requires ct * ct + st * st == 1.0
    ensures Rotate(ct, -st, Rotate(ct, st, s)) == s
  {
    PlaneRotationInverse(ct, st, s.x, s.y);
    PlaneRotationInverse(ct, st, s.vx, s.vy);
  }

  /** a^(3/2), the factor between anomaly and time. */
  function TimeScale(m: Lib, a: real): (k: real)
    requires SquareRoot(m) && a > 0.0
    ensures k > 0.0
  {
    SqrtPositive(m, a);
    PositiveProduct(a, m.sqrt(a));
    a * m.sqrt(a)
  }

  /** Kepler's equation for the ellipse, as the residual that `fsolve`
      zeroes: a^(3/2) (E - e sin E) - (t - T). */
  function KeplerResidual(m: Lib, a: real, e: real, T: real, t: real, E: real): real
    requires SquareRoot(m) && a > 0.0
  {
    TimeScale(m, a) * (E - e * m.sin(E)) - (t - T)
  }

  /** The hyperbolic form a^(3/2) (e sinh E - E) - (t - T). */
  function HyperbolicResidual(m: Lib, a: real, e: real, T: real, t: real, E: real): real
    requires SquareRoot(m) && a > 0.0
  {
    TimeScale(m, a) * (e * Sinh(m, E) - E) - (t - T)
  }

  /** Barker's equation for the parabola: l^3/2 (D + D^3/3) - (t - T). */
  function BarkerResidual(l: real, T: real, t: real, D: real): real
  {
    l * l * l / 2.0 * (D + D * D * D / 3.0) - (t - T)
  }

  /** The derivative `solveParabola` passes along with Barker's residual. */
  function BarkerRate(l: real, D: real): real
  {
    l * l * l / 2.0 * (1.0 + D * D)
  }

  lemma CubeDifference(u: real, v: real)
    ensures v * v * v - u * u * u == (v - u) * (u * u + u * v + v * v)
  {
  }

  lemma QuadraticFormNonNegative(u: real, v: real)
    ensures u * u + u * v + v * v >= 0.0
  {
    assert u * u + u * v + v * v
        == (u + v / 2.0) * (u + v / 2.0) + 3.0 / 4.0 * (v * v);
    assert (u + v / 2.0) * (u + v / 2.0) >= 0.0 by {
      ProductSign(u + v / 2.0, u + v / 2.0);
    }
    assert v * v >= 0.0 by { ProductSign(v, v); }
  }

  /** The difference quotient of Barker's residual between u and v is
      l^3/2 (1 + (u^2 + u v + v^2) / 3). */
  lemma BarkerSlope(l: real, T: real, t: real, u: real, v: real)
    ensures BarkerResidual(l, T, t, v) - BarkerResidual(l, T, t, u)
         == (v - u) * (l * l * l / 2.0) * (1.0 + (u * u + u * v + v * v) / 3.0)
  {
    var c := l * l * l / 2.0;
    CubeDifference(u, v);
    calc {
      BarkerResidual(l, T, t, v) - BarkerResidual(l, T, t, u);
      c * (v + v * v * v / 3.0) - c * (u + u * u * u / 3.0);
      c * ((v - u) + (v * v * v - u * u * u) / 3.0);
      c * ((v - u) + (v - u) * (u * u + u * v + v * v) / 3.0);
      (v - u) * c * (1.0 + (u * u + u * v + v * v) / 3.0);
    }
  }

  /** At u == v the difference quotient is `BarkerRate`, the derivative
      `solveParabola` supplies, and it is positive for l > 0. */
  lemma BarkerRateIsSlope(l: real, u: real)
    ensures (l * l * l / 2.0) * (1.0 + (u * u + u * u + u * u) / 3.0) == BarkerRate(l, u)
    ensures l > 0.0 ==> BarkerRate(l, u) > 0.0
  {
    if l > 0.0 {
      CubeHalfPositive(l);
      assert u * u >= 0.0 by { ProductSign(u, u); }
      PositiveProduct(l * l * l / 2.0, 1.0 + u * u);
    }
  }

  /** Barker's residual rises steadily: between u <= v the residual rises by at
      least l^3/2 (v - u). */
  lemma BarkerStep(l: real, T: real, t: real, u: real, v: real)
    requires l > 0.0 && u <= v
    ensures BarkerResidual(l, T, t, v) - BarkerResidual(l, T, t, u) >= l * l * l / 2.0 * (v - u)
  {
    CubeHalfPositive(l);
    BarkerSlope(l, T, t, u, v);
    QuadraticFormNonNegative(u, v);
    SlopeBound(BarkerResidual(l, T, t, v) - BarkerResidual(l, T, t, u),
               v - u, l * l * l / 2.0, 1.0 + (u * u + u * v + v * v) / 3.0);
  }

  /** A rise h c q with h >= 0, c > 0 and q >= 1 is at least c h. */
  lemma SlopeBound(rise: real, h: real, c: real, q: real)
    requires h >= 0.0 && c > 0.0 && q >= 1.0 && rise == h * c * q
    ensures rise >= c * h
  {
    assert h * c >= 0.0 by { MulMonotone(h, 0.0, c); }
    MulMonotone(h * c, 1.0, q);
  }


  /** Kepler's residual rises steadily: between u <= v Kepler's residual rises by
      at least a^(3/2) (1 - e) (v - u). */
  lemma KeplerStep(m: Lib, a: real, e: real, T: real, t: real, u: real, v: real)
    requires SquareRoot(m) && SinLipschitz(m) && a > 0.0 && 0.0 <= e < 1.0 && u <= v
    ensures KeplerResidual(m, a, e, T, t, v) - KeplerResidual(m, a, e, T, t, u)
         >= TimeScale(m, a) * (1.0 - e) * (v - u)
  {
    var k := TimeScale(m, a);
    assert SinRise(m, u, v) <= v - u;
    MulMonotone(e, m.sin(v) - m.sin(u), v - u);
    var inner := (v - u) - e * (m.sin(v) - m.sin(u));
    assert inner >= (1.0 - e) * (v - u);
    MulMonotone(k, (1.0 - e) * (v - u), inner);
    assert KeplerResidual(m, a, e, T, t, v) - KeplerResidual(m, a, e, T, t, u) == k * inner;
  }


  /** The hyperbolic residual rises steadily: between u <= v the hyperbolic
      residual rises by at least a^(3/2) (e - 1) (v - u). */
  lemma HyperbolicStep(m: Lib, a: real, e: real, T: real, t: real, u: real, v: real)
    requires SquareRoot(m) && SinhGrowth(m) && a > 0.0 && e > 1.0 && u <= v
    ensures HyperbolicResidual(m, a, e, T, t, v) - HyperbolicResidual(m, a, e, T, t, u)
         >= TimeScale(m, a) * (e - 1.0) * (v - u)
  {
    var k := TimeScale(m, a);
    assert SinhRise(m, u, v) >= v - u;
    MulMonotone(e, v - u, Sinh(m, v) - Sinh(m, u));
    var inner := e * (Sinh(m, v) - Sinh(m, u)) - (v - u);
    assert inner >= (e - 1.0) * (v - u);
    MulMonotone(k, (e - 1.0) * (v - u), inner);
    assert HyperbolicResidual(m, a, e, T, t, v) - HyperbolicResidual(m, a, e, T, t, u) == k * inner;
  }



  lemma SquareBelowOne(e: real)
    requires 0.0 <= e < 1.0
    ensures 0.0 < 1.0 - e * e <= 1.0
  {
    MulMonotone(e, e, 1.0);
    assert e * e >= 0.0 by { MulMonotone(e, 0.0, e); }
  }

  lemma SquareAboveOne(e: real)
    requires e > 1.0
    ensures e * e - 1.0 > 0.0
  {
    MulMonotone(e, 1.0, e);
  }

  lemma EccentricityGap(e: real)
    requires e >= 0.0 && e != 1.0
    ensures (if e < 1.0 then 1.0 - e * e else e * e - 1.0) > 0.0
  {
    if e < 1.0 { SquareBelowOne(e); } else { SquareAboveOne(e); }
  }

  /** The semi-major axis a = l^2 / |1 - e^2| that `drawEllipse` and
      `drawHyperbola` recompute; positive for every non-parabolic orbit
      with l != 0. */
  function SemiMajor(l: real, e: real): (a: real)
    requires l != 0.0 && e >= 0.0 && e != 1.0
    ensures a > 0.0
    ensures e < 1.0 ==> a * (1.0 - e * e) == l * l
    ensures e > 1.0 ==> a * (e * e - 1.0) == l * l
  {
    AxisPositive(l, e);
    if e < 1.0 then l * l / (1.0 - e * e) else l * l / (e * e - 1.0)
  }

  lemma AxisPositive(l: real, e: real)
    requires l != 0.0 && e >= 0.0 && e != 1.0
    ensures e < 1.0 ==> 1.0 - e * e > 0.0
    ensures e > 1.0 ==> e * e - 1.0 > 0.0
    ensures e < 1.0 ==> l * l / (1.0 - e * e) > 0.0
    ensures e > 1.0 ==> l * l / (e * e - 1.0) > 0.0
  {
    if e < 1.0 {
      SquareBelowOne(e);
      SquareOverPositive(l, 1.0 - e * e);
    } else {
      SquareAboveOne(e);
      SquareOverPositive(l, e * e - 1.0);
    }
  }

  /** The semi-minor axis b = a sqrt|1 - e^2|. */
  function SemiMinor(m: Lib, l: real, e: real): (b: real)
    requires SquareRoot(m) && l != 0.0 && e >= 0.0 && e != 1.0
    ensures b > 0.0
    ensures e < 1.0 ==> b * b == SemiMajor(l, e) * SemiMajor(l, e) * (1.0 - e * e)
    ensures e > 1.0 ==> b * b == SemiMajor(l, e) * SemiMajor(l, e) * (e * e - 1.0)
  {
    var a := SemiMajor(l, e);
    var q := if e < 1.0 then 1.0 - e * e else e * e - 1.0;
    EccentricityGap(e);
    SqrtPositive(m, q);
    PositiveProduct(a, m.sqrt(q));
    assert IsRoot(m, q);
    assert a * m.sqrt(q) * (a * m.sqrt(q)) == a * a * (m.sqrt(q) * m.sqrt(q));
    a * m.sqrt(q)
  }

  /** The orbital elements and derived axes are consistent: l >= 0, e >= 0,
      and, off the parabola, l > 0 with a and b derived from (l, e). */
  ghost predicate Shape(m: Lib, l: real, e: real, a: real, b: real)
  {
    && Lawful(m)
    && l >= 0.0 && e >= 0.0
    && (e != 1.0 ==> l > 0.0 && a == SemiMajor(l, e) && b == SemiMinor(m, l, e))
  }

  lemma EllipseRateBounds(m: Lib, e: real, E: real)
    requires Pythagorean(m) && 0.0 <= e < 1.0
    ensures 0.0 < 1.0 - e * m.cos(E) < 2.0
  {
    SinCosBounded(m, E);
    MulMonotone(e, m.cos(E), 1.0);
    MulMonotone(e, -1.0, m.cos(E));
  }

  /** `solveEllipse` once E is known: x = a(cos E - e), y = b sin E and
      the velocity through dE/dt = 1 / (a^(3/2) (1 - e cos E)). */
  function EllipseMotion(m: Lib, a: real, b: real, e: real, E: real): Motion
    requires Pythagorean(m) && SquareRoot(m) && a > 0.0 && 0.0 <= e < 1.0
  {
    EllipseRateBounds(m, e, E);
    PositiveProduct(TimeScale(m, a), 1.0 - e * m.cos(E));
    var Edot := 1.0 / (TimeScale(m, a) * (1.0 - e * m.cos(E)));
    Motion(a * (m.cos(E) - e), b * m.sin(E), -a * m.sin(E) * Edot, b * m.cos(E) * Edot)
  }

  /** `solveHyperbola` once E is known: x = a(e - cosh E), y = b sinh E,
      dE/dt = 1 / (a^(3/2) (e cosh E - 1)). */
  function HyperbolaMotion(m: Lib, a: real, b: real, e: real, E: real): Motion
    requires SquareRoot(m) && a > 0.0
  {
    var Edot := m.div(1.0, TimeScale(m, a) * (e * Cosh(m, E) - 1.0));
    Motion(a * (e - Cosh(m, E)), b * Sinh(m, E), -a * Sinh(m, E) * Edot, b * Cosh(m, E) * Edot)
  }

  /** `solveParabola` once D is known: x = l^2/2 (1 - D^2), y = l^2 D,
      vy = 2 / (l (1 + D^2)), vx = vy D. */
  function ParabolaMotion(l: real, D: real): Motion
    requires l != 0.0
  {
    assert D * D >= 0.0 by { ProductSign(D, D); }
    ProductSign(l, 1.0 + D * D);
    var vy := 2.0 / (l * (1.0 + D * D));
    Motion(l * l / 2.0 * (1.0 - D * D), l * l * D, vy * D, vy)
  }

  /** The motion on the parabola with the velocity its position implies.
      Barker's equation makes D advance at dD/dt = 1 / BarkerRate(l, D), so
      x = l^2/2 (1 - D^2) moves at -l^2 D dD/dt = -vy D: the sign opposite
      to the one `solveParabola` writes. */
  function ParabolaMotionCorrected(l: real, D: real): Motion
    requires l != 0.0
  {
    assert D * D >= 0.0 by { ProductSign(D, D); }
    ProductSign(l, 1.0 + D * D);
    var vy := 2.0 / (l * (1.0 + D * D));
    Motion(l * l / 2.0 * (1.0 - D * D), l * l * D, -vy * D, vy)
  }

  /** The distance from the focus of the parabola point at D, l^2/2 (1 + D^2). */
  function FocalDistance(l: real, D: real): (h: real)
    ensures l != 0.0 ==> h > 0.0
  {
    var half := l * l / 2.0;
    assert D * D >= 0.0 by { ProductSign(D, D); }
    assert l != 0.0 ==> half > 0.0 && half * 1.0 <= half * (1.0 + D * D) by {
      if l != 0.0 {
        SquareOverPositive(l, 2.0);
        MulMonotone(half, 1.0, 1.0 + D * D);
      }
    }
    half * (1.0 + D * D)
  }

  /** The parabola point at D lies FocalDistance(l, D) from the focus. */
  lemma ParabolaRadius(l: real, D: real)
    ensures RadiusSquared(Motion(l * l / 2.0 * (1.0 - D * D), l * l * D, 0.0, 0.0))
         == Square(FocalDistance(l, D))
  {
    var h := l * l / 2.0;
    assert l * l * D == 2.0 * h * D;
    assert (h * (1.0 - D * D)) * (h * (1.0 - D * D)) + (2.0 * h * D) * (2.0 * h * D)
        == (h * h) * ((1.0 - D * D) * (1.0 - D * D) + 4.0 * (D * D));
    assert (1.0 - D * D) * (1.0 - D * D) + 4.0 * (D * D) == (1.0 + D * D) * (1.0 + D * D);
  }

  /** Both velocities have the speed of escape from the focal distance r:
      v^2 r = 2. */
  lemma ParabolaSpeed(l: real, D: real, vx: real, vy: real)
    requires l != 0.0 && vy == 2.0 / (l * (1.0 + D * D)) && (vx == vy * D || vx == -vy * D)
    ensures (vx * vx + vy * vy) * FocalDistance(l, D) == 2.0
  {
    var q := 1.0 + D * D;
    assert D * D >= 0.0 by { ProductSign(D, D); }
    ProductSign(l, q);
    assert vy * (l * q) == 2.0;
    assert vx * vx == vy * vy * (D * D);
    calc {
      (vx * vx + vy * vy) * FocalDistance(l, D);
      (vy * vy * q) * (l * l / 2.0 * q);
      (vy * (l * q)) * (vy * (l * q)) / 2.0;
    }
  }

  /** The corrected velocity is the time derivative of the position along
      Barker's equation: (dx/dD, dy/dD) = (-l^2 D, l^2), scaled by
      dD/dt = 1 / BarkerRate(l, D); its angular momentum x vy - y vx is l,
      the value the orbit was drawn with, and its speed is that of escape
      from its focal distance. */
  lemma ParabolaMotionCorrectedKeepsMomentum(l: real, D: real)
    requires l > 0.0
    ensures var s := ParabolaMotionCorrected(l, D);
      && BarkerRate(l, D) > 0.0
      && s.vx == -(l * l * D) / BarkerRate(l, D)
      && s.vy == l * l / BarkerRate(l, D)
      && s.x * s.vy - s.y * s.vx == l
      && SpeedSquared(s) * FocalDistance(l, D) == 2.0
      && RadiusSquared(s) == Square(FocalDistance(l, D))
  {
    var s := ParabolaMotionCorrected(l, D);
    BarkerRateIsSlope(l, D);
    ParabolaRateScale(l, D, s.vy);
    assert s.vx == -s.vy * D;
    ParabolaCross(l, D, s.vy, -1.0);
    ParabolaSpeed(l, D, s.vx, s.vy);
    ParabolaRadius(l, D);
    assert RadiusSquared(s) == RadiusSquared(Motion(s.x, s.y, 0.0, 0.0));
  }

  /** vy = 2 / (l (1 + D^2)) is l^2 / BarkerRate(l, D), and vy D is
      l^2 D / BarkerRate(l, D). */
  lemma ParabolaRateScale(l: real, D: real, vy: real)
    requires l > 0.0 && vy == 2.0 / (l * (1.0 + D * D))
    ensures BarkerRate(l, D) > 0.0
    ensures vy == l * l / BarkerRate(l, D)
    ensures vy * D == l * l * D / BarkerRate(l, D)
  {
    var q := 1.0 + D * D;
    var k := BarkerRate(l, D);
    BarkerRateIsSlope(l, D);
    assert D * D >= 0.0 by { ProductSign(D, D); }
    ProductSign(l, q);
    assert vy * (l * q) == 2.0;
    assert vy * k == l * l by {
      assert k == (l * q) * (l * l / 2.0);
      assert vy * k == (vy * (l * q)) * (l * l / 2.0);
    }
    assert (vy * D) * k == l * l * D;
  }

  /** For a velocity (sign vy D, vy) on the parabola at D, with sign = 1 as
      written and -1 corrected: (x vy - y vx)(1 + D^2) = l (1 - D^2 - 2 sign D^2). */
  lemma ParabolaCross(l: real, D: real, vy: real, sign: real)
    requires l != 0.0 && vy == 2.0 / (l * (1.0 + D * D))
    ensures var x, y := l * l / 2.0 * (1.0 - D * D), l * l * D;
      (x * vy - y * (sign * vy * D)) * (1.0 + D * D)
      == l * (1.0 - D * D - 2.0 * sign * (D * D))
  {
    var q := 1.0 + D * D;
    var x, y := l * l / 2.0 * (1.0 - D * D), l * l * D;
    assert vy * (l * q) == 2.0 by {
      assert D * D >= 0.0 by { ProductSign(D, D); }
      ProductSign(l, q);
    }
    assert x * vy - y * (sign * vy * D) == vy * (x - sign * y * D);
    assert x - sign * y * D == l * l / 2.0 * (1.0 - D * D - 2.0 * sign * (D * D));
    assert vy * (x - sign * y * D) * q == (vy * (l * q)) * (l / 2.0 * (1.0 - D * D - 2.0 * sign * (D * D)));
  }

  /** As written, `solveParabola` gives the velocity the mirror image of the
      derivative: vx is the corrected one negated. Its angular momentum
      x vy - y vx is l (1 - 3 D^2) / (1 + D^2), which is l only at D = 0,
      while its speed is still that of escape. */
  lemma ParabolaMomentumAsWritten(l: real, D: real)
    requires l != 0.0
    ensures var s := ParabolaMotion(l, D);
      && s.vx == -ParabolaMotionCorrected(l, D).vx
      && (s.x * s.vy - s.y * s.vx) * (1.0 + D * D) == l * (1.0 - 3.0 * D * D)
      && SpeedSquared(s) * FocalDistance(l, D) == 2.0
      && RadiusSquared(s) == Square(FocalDistance(l, D))
  {
    var s := ParabolaMotion(l, D);
    assert s.vx == 1.0 * s.vy * D;
    ParabolaCross(l, D, s.vy, 1.0);
    ParabolaSpeed(l, D, s.vx, s.vy);
    ParabolaRadius(l, D);
    assert RadiusSquared(s) == RadiusSquared(Motion(s.x, s.y, 0.0, 0.0));
  }

  /** The unrotated motion at anomaly E (or D) in the regime e selects. */
  function MotionAt(m: Lib, l: real, e: real, a: real, b: real, E: real): Motion
    requires Shape(m, l, e, a, b) && l > 0.0
  {
    match RegimeOf(e)
    case Ellipse => EllipseMotion(m, a, b, e, E)
    case Hyperbola => HyperbolaMotion(m, a, b, e, E)
    case Parabola => ParabolaMotion(l, E)
  }

  /** The residual the regime's solver zeroes, as a function of the
      anomaly (E for ellipse and hyperbola, D for the parabola). */
  function ResidualOf(m: Lib, l: real, e: real, a: real, T: real, t: real): real -> real
    requires SquareRoot(m) && (e != 1.0 ==> a > 0.0)
  {
    E => Residual(m, l, e, a, T, t, E)
  }

  function Residual(m: Lib, l: real, e: real, a: real, T: real, t: real, E: real): real
    requires SquareRoot(m) && (e != 1.0 ==> a > 0.0)
  {
    match RegimeOf(e)
    case Ellipse => KeplerResidual(m, a, e, T, t, E)
    case Hyperbola => HyperbolicResidual(m, a, e, T, t, E)
    case Parabola => BarkerResidual(l, T, t, E)
  }

  /** The rate at which the regime's residual grows: a^(3/2)(1 - e) on
      the ellipse, a^(3/2)(e - 1) on the hyperbola, l^3/2 on the parabola. */
  function GrowthRate(m: Lib, l: real, e: real, a: real, b: real): (K: real)
    requires Shape(m, l, e, a, b) && l > 0.0
    ensures K > 0.0
  {
    match RegimeOf(e)
    case Ellipse => EllipseRate(m, a, e)
    case Hyperbola => HyperbolaRate(m, a, e)
    case Parabola => CubeHalfPositive(l); l * l * l / 2.0
  }

  function EllipseRate(m: Lib, a: real, e: real): (K: real)
    requires SquareRoot(m) && a > 0.0 && e < 1.0
    ensures K > 0.0
  {
    PositiveProduct(TimeScale(m, a), 1.0 - e);
    TimeScale(m, a) * (1.0 - e)
  }

  function HyperbolaRate(m: Lib, a: real, e: real): (K: real)
    requires SquareRoot(m) && a > 0.0 && e > 1.0
    ensures K > 0.0
  {
    PositiveProduct(TimeScale(m, a), e - 1.0);
    TimeScale(m, a) * (e - 1.0)
  }

  /** Every regime's residual grows at a positive rate once l > 0, so the
      bracket search terminates and finds the single zero. */
  lemma ResidualGrows(m: Lib, l: real, e: real, a: real, b: real, T: real, t: real)
    requires Shape(m, l, e, a, b) && l > 0.0
    ensures GrowsLinearly(ResidualOf(m, l, e, a, T, t), GrowthRate(m, l, e, a, b))
  {
    ResidualGrowsAt(m, l, e, a, b, T, t, GrowthRate(m, l, e, a, b));
  }

  lemma ResidualGrowsAt(m: Lib, l: real, e: real, a: real, b: real, T: real, t: real, K: real)
    requires Shape(m, l, e, a, b) && l > 0.0 && K == GrowthRate(m, l, e, a, b)
    ensures GrowsLinearly(ResidualOf(m, l, e, a, T, t), K)
  {
    forall u, v | u <= v
      ensures Residual(m, l, e, a, T, t, v) - Residual(m, l, e, a, T, t, u) >= K * (v - u)
    {
      ResidualStep(m, l, e, a, b, T, t, u, v);
    }
  }

  lemma ResidualStep(m: Lib, l: real, e: real, a: real, b: real, T: real, t: real, u: real, v: real)
    requires Shape(m, l, e, a, b) && l > 0.0 && u <= v
    ensures Residual(m, l, e, a, T, t, v) - Residual(m, l, e, a, T, t, u)
         >= GrowthRate(m, l, e, a, b) * (v - u)
  {
    match RegimeOf(e)
    case Ellipse => KeplerStep(m, a, e, T, t, u, v);
    case Hyperbola => HyperbolicStep(m, a, e, T, t, u, v);
    case Parabola => BarkerStep(l, T, t, u, v);
  }

  /** The eccentric anomaly `drawEllipse` reads off the aligned position
      (x0, y0): E = atan2(y0 / b, x0 / a + e). */
  function EllipseAnomaly(m: Lib, a: real, b: real, e: real, x0: real, y0: real): real
    requires a > 0.0 && b > 0.0
  {
    m.atan2(y0 / b, x0 / a + e)
  }

  /** The periapsis epoch `drawEllipse` sets: T = t - a^(3/2)(E - e sin E),
      which makes Kepler's residual vanish at time t. */
  function EllipseEpoch(m: Lib, a: real, b: real, e: real, t: real, x0: real, y0: real): (T: real)
    requires SquareRoot(m) && a > 0.0 && b > 0.0
    ensures KeplerResidual(m, a, e, T, t, EllipseAnomaly(m, a, b, e, x0, y0)) == 0.0
  {
    var E := EllipseAnomaly(m, a, b, e, x0, y0);
    t - TimeScale(m, a) * (E - e * m.sin(E))
  }

  /** For the circle `reset` draws the ellipse at the aligned origin, and
      since atan2(0, 0) = 0 the epoch is the current time. */
  lemma CircularEpoch(m: Lib, a: real, b: real, t: real)
    requires Lawful(m) && a > 0.0 && b > 0.0
    ensures EllipseEpoch(m, a, b, 0.0, t, 0.0, 0.0) == t
  {
    assert EllipseAnomaly(m, a, b, 0.0, 0.0, 0.0) == m.atan2(0.0, 0.0);
  }

  /** The parabolic epoch `drawParabola` sets from D = tan(theta1/2):
      T = t - (l^3 D / 2)(1 + D^2/3), which makes Barker's residual
      vanish at time t. */
  function ParabolaEpoch(m: Lib, l: real, t: real, theta1: real): (T: real)
    ensures BarkerResidual(l, T, t, m.tan(theta1 / 2.0)) == 0.0
  {
    var D := m.tan(theta1 / 2.0);
    assert l * l * l / 2.0 * (D + D * D * D / 3.0) == (l * l * l * D / 2.0) * (1.0 + D * D / 3.0);
    t - (l * l * l * D / 2.0) * (1.0 + D * D / 3.0)
  }

  /** The anomaly `drawHyperbola` computes, as written: the local atanh
      (the negated inverse) of (y0 / b) / (e - x0 / a). */
  function HyperbolaAnomaly(m: Lib, a: real, b: real, e: real, x0: real, y0: real): real
    requires a > 0.0 && b > 0.0
  {
    Atanh(m, m.div(y0 / b, e - x0 / a))
  }

  /** The epoch `drawHyperbola` sets, as written, uses the elliptic form
      a^(3/2)(E - e sin E): it zeroes Kepler's residual at its anomaly,
      not the hyperbolic residual `solveHyperbola` later solves. */
  function HyperbolaEpoch(m: Lib, a: real, b: real, e: real, t: real, x0: real, y0: real): (T: real)
    requires SquareRoot(m) && a > 0.0 && b > 0.0
    ensures KeplerResidual(m, a, e, T, t, HyperbolaAnomaly(m, a, b, e, x0, y0)) == 0.0
  {
    var E := HyperbolaAnomaly(m, a, b, e, x0, y0);
    t - TimeScale(m, a) * (E - e * m.sin(E))
  }

  /** On the ellipse the distance to the focus is a (1 - e cos E). */
  lemma EllipseDistance(m: Lib, a: real, b: real, e: real, E: real)
    requires Pythagorean(m) && SquareRoot(m) && a > 0.0 && 0.0 <= e < 1.0
    requires b * b == a * a * (1.0 - e * e)
    ensures RadiusSquared(EllipseMotion(m, a, b, e, E)) == Square(a * (1.0 - e * m.cos(E)))
  {
    var c, s := m.cos(E), m.sin(E);
    UnitCircle(m, E);
    var p := EllipseMotion(m, a, b, e, E);
    assert p.x == a * (c - e) && p.y == b * s;
    calc {
      RadiusSquared(p);
      p.x * p.x + p.y * p.y;
      a * a * ((c - e) * (c - e)) + (b * b) * (s * s);
      a * a * ((c - e) * (c - e)) + a * a * (1.0 - e * e) * (s * s);
      a * a * ((c - e) * (c - e) + (1.0 - e * e) * (s * s));
      { assert s * s == 1.0 - c * c; }
      a * a * ((c - e) * (c - e) + (1.0 - e * e) * (1.0 - c * c));
      a * a * ((1.0 - e * c) * (1.0 - e * c));
      Square(a * (1.0 - e * c));
    }
  }

  lemma AbsFromSquare(u: real, w: real)
    requires w > 0.0 && Square(u) <= Square(w)
    ensures Abs(u) <= w
  {
    var v := Abs(u);
    assert v * v == u * u;
    if v > w {
      assert (v - w) * (v + w) == v * v - w * w;
      PositiveProduct(v - w, v + w);
    }
  }

  /** Wherever the body is on an ellipse, both of its coordinates lie
      within the major axis 2a, whatever the orientation: the bound the
      view's `width` and `height` rely on. */
  lemma EllipseWithinMajorAxis(m: Lib, a: real, b: real, e: real, E: real, ct: real, st: real)
    requires Pythagorean(m) && SquareRoot(m) && a > 0.0 && 0.0 <= e < 1.0
    requires b * b == a * a * (1.0 - e * e) && ct * ct + st * st == 1.0
    ensures Max(Abs(Rotate(ct, st, EllipseMotion(m, a, b, e, E)).x),
                Abs(Rotate(ct, st, EllipseMotion(m, a, b, e, E)).y)) <= 2.0 * a
  {
    var q := EllipseMotion(m, a, b, e, E);
    var p := Rotate(ct, st, q);
    var w := a * (1.0 - e * m.cos(E));
    EllipseRateBounds(m, e, E);
    EllipseDistance(m, a, b, e, E);
    RotationPreservesNorms(ct, st, q);
    PositiveProduct(a, 1.0 - e * m.cos(E));
    assert RadiusSquared(q) == Square(w);
    assert RadiusSquared(p) == RadiusSquared(q);
    assert RadiusSquared(p) == Square(p.x) + Square(p.y);
    ProductSign(p.x, p.x);
    ProductSign(p.y, p.y);
    AbsFromSquare(p.x, w);
    AbsFromSquare(p.y, w);
    MulMonotone(a, 1.0 - e * m.cos(E), 2.0);
    assert Abs(p.x) <= 2.0 * a && Abs(p.y) <= 2.0 * a;
  }
}
