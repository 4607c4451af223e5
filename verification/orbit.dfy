/** The per-orbit state object of gravity.js (`createOrbit`): the
    orbital elements derived from a position and velocity by `reset`, the
    propagation to a new time by `advance`, and the view extents. The
    drawing side (SVG attributes, the satellite's transform) is not part
    of this model; only the numbers it is drawn from are. */
module Orbits {
  import opened Maths
  import opened RootFinding
  import opened Conics

  /** The distance from the attracting body, sqrt(x^2 + y^2). */
  function Distance(m: Lib, s: Motion): (r: real)
    requires SquareRoot(m)
    ensures r >= 0.0 && r * r == RadiusSquared(s)
    ensures r == 0.0 ==> s.x == 0.0 && s.y == 0.0
    ensures s.x == 0.0 && s.y == 0.0 ==> r == m.sqrt(0.0)
  {
    RootOfSquares(m, s.x, s.y);
    m.sqrt(s.x * s.x + s.y * s.y)
  }

  lemma SumOfSquares(x: real, y: real)
    ensures x * x + y * y >= 0.0
  {
  }

  /** sqrt(x^2 + y^2) is a non-negative root of x^2 + y^2, positive away
      from the origin. */
  lemma RootOfSquares(m: Lib, x: real, y: real)
    requires SquareRoot(m)
    ensures m.sqrt(x * x + y * y) >= 0.0
    ensures m.sqrt(x * x + y * y) * m.sqrt(x * x + y * y) == x * x + y * y
    ensures x != 0.0 || y != 0.0 ==> m.sqrt(x * x + y * y) > 0.0
  {
    SumOfSquares(x, y);
    assert IsRoot(m, x * x + y * y);
    if x != 0.0 || y != 0.0 {
      assert x * x + y * y > 0.0;
    }
  }

  /** The angular momentum `reset` computes, r^2 times the angular rate
      |vy cos(theta) - vx sin(theta)| / r, from the distance r and the
      direction (ct, st) of the position. */
  function Momentum(r: real, ct: real, st: real, vx: real, vy: real): real
    requires r > 0.0
  {
    r * r * (Abs(vy * ct - vx * st) / r)
  }

  /** The angular momentum of a state: the magnitude of the cross product
      of position and velocity. */
  function AngularMomentum(m: Lib, s: Motion): (l: real)
    requires SquareRoot(m) && !(s.x == 0.0 && s.y == 0.0)
    ensures l == Abs(s.x * s.vy - s.y * s.vx)
  {
    var r := Distance(m, s);
    MomentumIdentity(r, s.x, s.y, s.vx, s.vy);
    Momentum(r, s.x / r, s.y / r, s.vx, s.vy)
  }

  lemma MomentumIdentity(r: real, x: real, y: real, vx: real, vy: real)
    requires r > 0.0
    ensures Momentum(r, x / r, y / r, vx, vy) == Abs(x * vy - y * vx)
  {
    var c := x * vy - y * vx;
    assert vy * (x / r) - vx * (y / r) == c / r;
    assert Abs(c / r) == Abs(c) / r;
    assert r * r * (Abs(c) / r / r) == Abs(c);
  }

  /** The eccentricity vector (ex, ey) in the radial frame, as `reset`
      forms it: ex = l r vt - 1 = l^2 / r - 1 and ey = l vr, with vt the
      angular rate and vr the radial speed. For a unit direction its
      squared length obeys the energy relation e^2 = 1 + l^2 (v^2 - 2/r). */
  function RadialVector(r: real, ct: real, st: real, vx: real, vy: real): (v: (real, real))
    requires r > 0.0 && ct * ct + st * st == 1.0
    ensures v.0 * v.0 + v.1 * v.1
            == 1.0 + Square(Momentum(r, ct, st, vx, vy)) * (vx * vx + vy * vy - 2.0 / r)
    ensures Momentum(r, ct, st, vx, vy) == 0.0 ==> v == (-1.0, 0.0)
  {
    var vr := vx * ct + vy * st;
    var vt := Abs(vy * ct - vx * st) / r;
    var l := Momentum(r, ct, st, vx, vy);
    EnergyIdentity(r, ct, st, vx, vy);
    (l * r * vt - 1.0, l * vr)
  }

  /** The eccentricity vector of a state away from the origin. */
  function EccentricityVector(m: Lib, s: Motion): (v: (real, real))
    requires SquareRoot(m) && !(s.x == 0.0 && s.y == 0.0)
    ensures v.0 * v.0 + v.1 * v.1
            == 1.0 + Square(AngularMomentum(m, s)) * (SpeedSquared(s) - 2.0 / Distance(m, s))
    ensures AngularMomentum(m, s) == 0.0 ==> v == (-1.0, 0.0)
  {
    var r := Distance(m, s);
    UnitDirection(r, s.x, s.y);
    assert AngularMomentum(m, s) == Momentum(r, s.x / r, s.y / r, s.vx, s.vy);
    RadialVector(r, s.x / r, s.y / r, s.vx, s.vy)
  }

  lemma UnitDirection(r: real, x: real, y: real)
    requires r > 0.0 && r * r == x * x + y * y
    ensures (x / r) * (x / r) + (y / r) * (y / r) == 1.0
  {
    var u, v := x / r, y / r;
    var d := u * u + v * v - 1.0;
    assert x == u * r && y == v * r;
    assert d * r * r == 0.0 by {
      assert d * r * r == (u * r) * (u * r) + (v * r) * (v * r) - r * r;
    }
    assert d * r == 0.0;
  }

  /** With (ct, st) a unit vector, the radial-frame quantities of `reset`
      satisfy ex^2 + ey^2 = 1 + l^2 (v^2 - 2/r). */
  lemma EnergyIdentity(r: real, ct: real, st: real, vx: real, vy: real)
    requires r > 0.0 && ct * ct + st * st == 1.0
    ensures var vr := vx * ct + vy * st;
            var vt := Abs(vy * ct - vx * st) / r;
            var l := Momentum(r, ct, st, vx, vy);
            (l * r * vt - 1.0) * (l * r * vt - 1.0) + (l * vr) * (l * vr)
            == 1.0 + Square(l) * (vx * vx + vy * vy - 2.0 / r)
  {
    var w := vy * ct - vx * st;
    EnergyInFrame(r, ct, st, vx, vy, w, vx * ct + vy * st, Abs(w) / r, Momentum(r, ct, st, vx, vy));
  }

  /** `EnergyIdentity` over named radial-frame quantities: the transverse
      speed w, the radial speed vr, the angular rate vt and the momentum l. */
  lemma EnergyInFrame(r: real, ct: real, st: real, vx: real, vy: real, w: real, vr: real, vt: real, l: real)
    requires r > 0.0 && ct * ct + st * st == 1.0
    requires w == vy * ct - vx * st && vr == vx * ct + vy * st
    requires vt == Abs(w) / r && l == r * r * vt
    ensures (l * r * vt - 1.0) * (l * r * vt - 1.0) + (l * vr) * (l * vr)
            == 1.0 + Square(l) * (vx * vx + vy * vy - 2.0 / r)
  {
    MomentumSquare(r, w, vt, l);
    RotationKeepsSpeed(ct, st, vx, vy, vr, w);
    EnergyPolynomial(r, l, l * r * vt, w * w, vr, vx * vx + vy * vy);
  }

  /** With l = r^2 |w| / r: l r (|w| / r) = r w^2 and l^2 = r^2 w^2. */
  lemma MomentumSquare(r: real, w: real, vt: real, l: real)
    requires r > 0.0 && vt == Abs(w) / r && l == r * r * vt
    ensures l * r * vt == r * (w * w)
    ensures Square(l) == r * r * (w * w)
  {
    var A := Abs(w);
    assert A * A == w * w;
    assert l == r * A;
    assert l * r * (A / r) == r * (A * A) by {
      assert l * r * (A / r) == r * A * r * (A / r);
      assert r * A * r * (A / r) == r * (A * A);
    }
  }

  /** Turning (vx, vy) onto a unit direction keeps its length:
      vr^2 + w^2 = vx^2 + vy^2. */
  lemma RotationKeepsSpeed(ct: real, st: real, vx: real, vy: real, vr: real, w: real)
    requires ct * ct + st * st == 1.0
    requires vr == vx * ct + vy * st && w == vy * ct - vx * st
    ensures vr * vr + w * w == vx * vx + vy * vy
  {
    assert vr * vr + w * w == (vx * vx + vy * vy) * (ct * ct + st * st);
  }

  /** The algebra behind the energy relation, with p = l^2 / r and
      q = w^2: (p - 1)^2 + (l vr)^2 = 1 + l^2 (vr^2 + q - 2/r). */
  lemma EnergyPolynomial(r: real, l: real, p: real, q: real, vr: real, V: real)
    requires r > 0.0 && p == r * q && Square(l) == r * r * q && vr * vr + q == V
    ensures (p - 1.0) * (p - 1.0) + (l * vr) * (l * vr) == 1.0 + Square(l) * (V - 2.0 / r)
  {
    assert p * p == Square(l) * q;
    assert (l * vr) * (l * vr) == Square(l) * (vr * vr);
    assert Square(l) * (2.0 / r) == 2.0 * p by {
      assert r * r * q * (2.0 / r) == 2.0 * (r * q);
    }
    calc {
      (p - 1.0) * (p - 1.0) + (l * vr) * (l * vr);
      p * p - 2.0 * p + 1.0 + Square(l) * (vr * vr);
      1.0 + Square(l) * (vr * vr + q) - 2.0 * p;
      1.0 + Square(l) * (V - 2.0 / r);
    }
  }

  /** The eccentricity `reset` derives: non-negative, tied to the energy
      by e^2 = 1 + l^2 (v^2 - 2/r), and exactly 1 for radial motion. */
  function Eccentricity(m: Lib, s: Motion): (e: real)
    requires SquareRoot(m) && !(s.x == 0.0 && s.y == 0.0)
    ensures e >= 0.0
    ensures AngularMomentum(m, s) == 0.0 ==> e == 1.0
  {
    var v := EccentricityVector(m, s);
    SqrtOne(m);
    Norm(m, v)
  }

  /** The energy relation e^2 = 1 + l^2 (v^2 - 2/r). */
  lemma EccentricityEnergy(m: Lib, s: Motion)
    requires SquareRoot(m) && !(s.x == 0.0 && s.y == 0.0)
    ensures Eccentricity(m, s) * Eccentricity(m, s)
            == 1.0 + Square(AngularMomentum(m, s)) * (SpeedSquared(s) - 2.0 / Distance(m, s))
  {
    var v := EccentricityVector(m, s);
    assert Eccentricity(m, s) == Norm(m, v);
  }

  /** The length of a plane vector, through the library's square root. */
  function Norm(m: Lib, v: (real, real)): (r: real)
    requires SquareRoot(m)
    ensures r >= 0.0 && r * r == v.0 * v.0 + v.1 * v.1
  {
    SumOfSquares(v.0, v.1);
    assert IsRoot(m, v.0 * v.0 + v.1 * v.1);
    m.sqrt(v.0 * v.0 + v.1 * v.1)
  }

  /** The true anomaly at reset, atan2(ey, ex): the angle from periapsis. */
  function TrueAnomaly(m: Lib, s: Motion): real
    requires SquareRoot(m) && !(s.x == 0.0 && s.y == 0.0)
  {
    var v := EccentricityVector(m, s);
    m.atan2(v.1, v.0)
  }

  /** The regime `advance` takes is decided by the energy: bound (ellipse)
      below escape speed, parabola at it, hyperbola above it. */
  lemma EnergyDecidesRegime(m: Lib, s: Motion)
    requires SquareRoot(m) && !(s.x == 0.0 && s.y == 0.0)
    requires AngularMomentum(m, s) != 0.0
    ensures RegimeOf(Eccentricity(m, s)) == Ellipse <==> SpeedSquared(s) < 2.0 / Distance(m, s)
    ensures RegimeOf(Eccentricity(m, s)) == Parabola <==> SpeedSquared(s) == 2.0 / Distance(m, s)
    ensures RegimeOf(Eccentricity(m, s)) == Hyperbola <==> SpeedSquared(s) > 2.0 / Distance(m, s)
  {
    EccentricityEnergy(m, s);
    RegimeByMomentum(Eccentricity(m, s), AngularMomentum(m, s), SpeedSquared(s) - 2.0 / Distance(m, s));
  }

  /** With e >= 0 and e^2 = 1 + l^2 d for l != 0, e compares with 1 as d
      compares with 0. (l^2 d is handled as l (l d), a product of two
      distinct factors whose sign `ProductSign` gives.) */
  lemma RegimeByMomentum(e: real, l: real, d: real)
    requires e >= 0.0 && l != 0.0 && e * e == 1.0 + Square(l) * d
    ensures RegimeOf(e) == Ellipse <==> d < 0.0
    ensures RegimeOf(e) == Parabola <==> d == 0.0
    ensures RegimeOf(e) == Hyperbola <==> d > 0.0
  {
    var k := l * d;
    assert Square(l) * d == l * k;
    ProductSign(l, d);
    ProductSign(l, k);
    RegimeByResidual(e, l * k, d);
  }

  /** With e >= 0 and e^2 = 1 + p for p of the sign of d, e compares with 1
      as d compares with 0. */
  lemma RegimeByResidual(e: real, p: real, d: real)
    requires e >= 0.0 && e * e == 1.0 + p
    requires p > 0.0 <==> d > 0.0
    requires p < 0.0 <==> d < 0.0
    ensures RegimeOf(e) == Ellipse <==> d < 0.0
    ensures RegimeOf(e) == Parabola <==> d == 0.0
    ensures RegimeOf(e) == Hyperbola <==> d > 0.0
  {
    if e < 1.0 {
      SquareBelow(e);
    } else if e > 1.0 {
      SquareGrows(e);
    }
  }

  /** A state at distance h > 0 from the focus, moving at the speed of
      escape (v^2 h = 2), is one `reset` classes as a parabola: e = 1. */
  lemma ParabolicState(m: Lib, s: Motion, h: real)
    requires SquareRoot(m) && h > 0.0
    requires RadiusSquared(s) == Square(h) && SpeedSquared(s) * h == 2.0
    ensures !(s.x == 0.0 && s.y == 0.0)
    ensures Distance(m, s) == h
    ensures Eccentricity(m, s) == 1.0
  {
    assert RadiusSquared(s) > 0.0 by { PositiveProduct(h, h); }
    var r := Distance(m, s);
    NonNegativeRoot(r, h);
    assert SpeedSquared(s) == 2.0 / r;
    EccentricityEnergy(m, s);
    var e := Eccentricity(m, s);
    assert e * e == 1.0 * 1.0;
    NonNegativeRoot(e, 1.0);
  }

  /** The non-negative square root is unique. */
  lemma NonNegativeRoot(r: real, h: real)
    requires r >= 0.0 && h > 0.0 && r * r == h * h
    ensures r == h
  {
    var u, w := r - h, r + h;
    assert u * w == r * r - h * h;
    ProductSign(u, w);
  }

  /** `reset` applied to the state the corrected parabola motion gives
      recovers the elements the orbit was drawn with: angular momentum l
      and eccentricity 1. */
  lemma ParabolaResetRecoversElements(m: Lib, l: real, D: real)
    requires SquareRoot(m) && l > 0.0
    ensures var s := ParabolaMotionCorrected(l, D);
      && !(s.x == 0.0 && s.y == 0.0)
      && AngularMomentum(m, s) == l
      && Eccentricity(m, s) == 1.0
  {
    var s := ParabolaMotionCorrected(l, D);
    ParabolaMotionCorrectedKeepsMomentum(l, D);
    ParabolicState(m, s, FocalDistance(l, D));
  }

  /** The counterexample: a parabola of l = 1 advanced to D = 1/2 by
      `solveParabola` as written, then passed back to `reset`, is again a
      parabola (e = 1) but with angular momentum 0.2 in place of 1. */
  lemma ParabolaResetLosesMomentum(m: Lib)
    requires SquareRoot(m)
    ensures var s := ParabolaMotion(1.0, 0.5);
      && !(s.x == 0.0 && s.y == 0.0)
      && AngularMomentum(m, s) == 0.2
      && Eccentricity(m, s) == 1.0
  {
    var s := ParabolaMotion(1.0, 0.5);
    assert s == Motion(0.375, 0.5, 0.8, 1.6);
    ParabolicState(m, s, 0.625);
  }

  /** The velocity after `thrust`: speed change dv along the direction of
      motion turned by (angle + extra) degrees. */
  function Boost(m: Lib, s: Motion, angle: real, speedChange: real, extraAngle: real): (q: Motion)
    ensures q.x == s.x && q.y == s.y
    ensures speedChange == 0.0 ==> q == s
  {
    var dir := m.atan2(s.vy, s.vx) + (angle + extraAngle) * Pi / 180.0;
    Motion(s.x, s.y, s.vx + speedChange * m.cos(dir), s.vy + speedChange * m.sin(dir))
  }

  /** A thrust leaves the position alone and changes the velocity by a
      vector of length |dv|. */
  lemma BoostMagnitude(m: Lib, s: Motion, angle: real, speedChange: real, extraAngle: real)
    requires Pythagorean(m)
    ensures var q := Boost(m, s, angle, speedChange, extraAngle);
            && q.x == s.x && q.y == s.y
            && Square(q.vx - s.vx) + Square(q.vy - s.vy) == speedChange * speedChange
  {
    var dir := m.atan2(s.vy, s.vx) + (angle + extraAngle) * Pi / 180.0;
    var c, sn := m.cos(dir), m.sin(dir);
    UnitCircle(m, dir);
    assert Square(speedChange * c) + Square(speedChange * sn)
        == speedChange * speedChange * (c * c + sn * sn);
  }

  /** E lies within max(tol, tol / K) of every zero of the regime's
      residual, K its growth rate and tol the default tolerance. */
  ghost predicate NearEveryZero(m: Lib, l: real, e: real, a: real, b: real, T: real, t: real, E: real)
    requires Shape(m, l, e, a, b) && l > 0.0
  {
    forall z :: ResidualOf(m, l, e, a, T, t)(z) == 0.0 ==>
      Abs(E - z) <= Max(DefaultTolerance, DefaultTolerance / GrowthRate(m, l, e, a, b))
  }

  /** `fsolve` applied to the regime's residual at the orbit's current
      time: the anomaly returned is an end of a final bracket, and lies
      within max(tol, tol / K) of every zero of the residual, where K is
      the residual's growth rate and tol the default tolerance 1e-10. */
  method SolveAnomaly(m: Lib, l: real, e: real, a: real, b: real, T: real, t: real)
    returns (E: real, ghost lo: real, ghost hi: real)
    requires Shape(m, l, e, a, b) && l > 0.0
    ensures Bracketed(ResidualOf(m, l, e, a, T, t), lo, hi,
                      ResidualOf(m, l, e, a, T, t)(lo), ResidualOf(m, l, e, a, T, t)(hi))
    ensures E == lo || E == hi
    ensures Abs(ResidualOf(m, l, e, a, T, t)(E)) <= DefaultTolerance || hi - lo <= DefaultTolerance
    ensures NearEveryZero(m, l, e, a, b, T, t, E)
  {
    var f := ResidualOf(m, l, e, a, T, t);
    ghost var K := GrowthRate(m, l, e, a, b);
    ResidualGrows(m, l, e, a, b, T, t);
    ghost var n := GrowthBrackets(f, K);
    var r;
    r, lo, hi := BinarySearch(f, 0.0, n);
    if r.NaN? {
      GrowthIncreasing(f, K, lo, hi);
      assert false;
    }
    E := r.x;
    forall z | f(z) == 0.0
      ensures Abs(E - z) <= Max(DefaultTolerance, DefaultTolerance / K)
    {
      EstimateNearZero(f, K, lo, hi, E, z, DefaultTolerance);
    }
  }

  /** The drawn satellite's radius, added to the view extents. */
  const SatRadius: real := 2.0

  /** The centre of a drawn ellipse: a e from the focus (the origin),
      on the side away from periapsis. */
  function EllipseCentre(m: Lib, a: real, e: real, theta0: real): (c: (real, real))
  {
    (-a * e * m.cos(theta0), -a * e * m.sin(theta0))
  }

  /** The centre lies at distance a e from the focus. */
  lemma CentreDistance(m: Lib, a: real, e: real, theta0: real)
    requires Pythagorean(m)
    ensures var c := EllipseCentre(m, a, e, theta0);
            c.0 * c.0 + c.1 * c.1 == (a * e) * (a * e)
  {
    var k, co, si := a * e, m.cos(theta0), m.sin(theta0);
    UnitCircle(m, theta0);
    assert (-k * co) * (-k * co) + (-k * si) * (-k * si) == (k * k) * (co * co + si * si);
  }

  class Orbit {
    const m: Lib

    // The elements: angular momentum, eccentricity, periapsis direction
    // and periapsis epoch.
    var l: real
    var e: real
    var theta0: real
    var T: real

    // The current time, position and velocity, and the steering angle.
    var t: real
    var x: real
    var y: real
    var vx: real
    var vy: real
    var angle: real

    // Derived axes and centre of the drawn ellipse.
    var a: real
    var b: real
    var cx: real
    var cy: real

    // The anomaly of the last solve (E on ellipse and hyperbola, D on
    // the parabola).
    ghost var anomaly: real

    /** Before the first successful reset all elements are 0; afterwards
        they are consistent (`Shape`). */
    ghost predicate Valid()
      reads this`l, this`e, this`a, this`b
    {
      Lawful(m) && ((l == 0.0 && e == 0.0) || Shape(m, l, e, a, b))
    }

    /** A state rotated by -theta0, into the orbit's aligned frame. */
    function Aligned(s: Motion): Motion
      reads this`theta0
    {
      Rotate(m.cos(theta0), -m.sin(theta0), s)
    }

    function Position(): Motion
      reads this
    {
      Motion(x, y, vx, vy)
    }

    /** The body is where the elements place it at the solved anomaly. */
    ghost predicate OnOrbit()
      reads this
    {
      Valid() && l > 0.0
      && Position() == Rotate(m.cos(theta0), m.sin(theta0), MotionAt(m, l, e, a, b, anomaly))
    }

    /** The solved anomaly is within max(tol, tol / K) of every zero of
        the regime's residual at the current time. */
    ghost predicate Accurate()
      reads this`l, this`e, this`a, this`b, this`T, this`t, this`anomaly
      requires Valid() && l > 0.0
    {
      NearEveryZero(m, l, e, a, b, T, t, anomaly)
    }

    constructor (m: Lib)
      requires Lawful(m)
      ensures Valid() && this.m == m
      ensures l == 0.0 && e == 0.0 && theta0 == 0.0 && T == 0.0 && t == 0.0 && angle == 0.0
    {
      this.m := m;
      l, e, theta0, T, t := 0.0, 0.0, 0.0, 0.0, 0.0;
      x, y, vx, vy, angle := 0.0, 0.0, 0.0, 0.0, 0.0;
      a, b, cx, cy := 0.0, 0.0, 0.0, 0.0;
      anomaly := 0.0;
    }

    /** `drawEllipse` without the SVG writes: recompute the axes, read
        the eccentric anomaly off the aligned position, back-solve the
        periapsis epoch and place the centre. */
    method DrawEllipse(x0: real, y0: real)
      requires Lawful(m) && l > 0.0 && 0.0 <= e < 1.0
      modifies this`a, this`b, this`T, this`cx, this`cy
      ensures Valid()
      ensures a == SemiMajor(l, e) && b == SemiMinor(m, l, e)
      ensures T == EllipseEpoch(m, a, b, e, t, x0, y0)
      ensures Centred()
    {
      var na := SemiMajor(l, e);
      var nb := SemiMinor(m, l, e);
      var centre := EllipseCentre(m, na, e, theta0);
      T := EllipseEpoch(m, na, nb, e, t, x0, y0);
      a, b, cx, cy := na, nb, centre.0, centre.1;
    }

    /** `drawParabola`: back-solve the epoch from D = tan(theta1 / 2). */
    method DrawParabola(theta1: real)
      modifies this`T
      ensures T == ParabolaEpoch(m, l, t, theta1)
    {
      T := ParabolaEpoch(m, l, t, theta1);
    }

    /** `drawHyperbola`, as written (see `HyperbolaEpoch`). */
    method DrawHyperbola(x0: real, y0: real)
      requires Lawful(m) && l > 0.0 && e > 1.0
      modifies this`a, this`b, this`T
      ensures Valid()
      ensures a == SemiMajor(l, e) && b == SemiMinor(m, l, e)
      ensures T == HyperbolaEpoch(m, a, b, e, t, x0, y0)
    {
      a := SemiMajor(l, e);
      b := SemiMinor(m, l, e);
      T := HyperbolaEpoch(m, a, b, e, t, x0, y0);
    }

    /** `reset`: derive the elements from a position and velocity. At the
        origin nothing changes; otherwise l and e follow from the state and
        the orbit is drawn for its regime (`Orient`). */
    method Reset(px: real, py: real, pvx: real, pvy: real)
      requires Valid()
      modifies this`l, this`e, this`theta0, this`a, this`b, this`T, this`cx, this`cy
      ensures Valid()
      ensures px == 0.0 && py == 0.0 ==>
                l == old(l) && e == old(e) && theta0 == old(theta0) && T == old(T)
                && a == old(a) && b == old(b) && cx == old(cx) && cy == old(cy)
      ensures !(px == 0.0 && py == 0.0) ==>
                l == AngularMomentum(m, Motion(px, py, pvx, pvy))
                && e == Eccentricity(m, Motion(px, py, pvx, pvy))
                && Oriented(Motion(px, py, pvx, pvy), old(a), old(b), old((cx, cy)))
    {
      var s := Motion(px, py, pvx, pvy);
      var r := Distance(m, s);
      if r == 0.0 {
        return;
      }
      l := AngularMomentum(m, s);
      e := Eccentricity(m, s);
      Orient(s);
    }

    /** What `reset` leaves behind for a state s away from the origin:
        theta0 is the periapsis direction (the polar angle for a circle),
        and the epoch is back-solved so that the regime's residual
        vanishes at the current time at the anomaly of s; a parabola keeps
        the previous axes a0 and b0, and a parabola or a hyperbola the
        previous centre c0 of the drawn ellipse. */
    ghost predicate Oriented(s: Motion, a0: real, b0: real, c0: (real, real))
      reads this`l, this`e, this`theta0, this`a, this`b, this`T, this`t, this`cx, this`cy
      requires SquareRoot(m) && !(s.x == 0.0 && s.y == 0.0)
    {
      && (e == 0.0 ==> CircleOriented(s))
      && (e == 1.0 ==> ParabolaOriented(s, a0, b0, c0))
      && (0.0 < e < 1.0 ==> EllipseOriented(s))
      && (e > 1.0 ==> HyperbolaOriented(s, c0))
    }

    /** A circle's periapsis is the current position, reached now. */
    ghost predicate CircleOriented(s: Motion)
      reads this`e, this`theta0, this`a, this`T, this`t, this`cx, this`cy
    {
      theta0 == m.atan2(s.y, s.x) && T == t && Centred()
    }

    /** A parabola's periapsis lies the true anomaly behind the position;
        its epoch comes from Barker's equation and the axes are kept. */
    ghost predicate ParabolaOriented(s: Motion, a0: real, b0: real, c0: (real, real))
      reads this`l, this`theta0, this`a, this`b, this`T, this`t, this`cx, this`cy
      requires SquareRoot(m) && !(s.x == 0.0 && s.y == 0.0)
    {
      && theta0 == m.atan2(s.y, s.x) - TrueAnomaly(m, s)
      && T == ParabolaEpoch(m, l, t, TrueAnomaly(m, s))
      && a == a0 && b == b0 && (cx, cy) == c0
    }

    /** An ellipse's periapsis lies the true anomaly behind the position;
        its epoch is read off the aligned position. */
    ghost predicate EllipseOriented(s: Motion)
      reads this`e, this`theta0, this`a, this`b, this`T, this`t, this`cx, this`cy
      requires SquareRoot(m) && !(s.x == 0.0 && s.y == 0.0)
    {
      && theta0 == m.atan2(s.y, s.x) - TrueAnomaly(m, s)
      && Centred()
      && (a > 0.0 && b > 0.0 ==> T == EllipseEpoch(m, a, b, e, t, Aligned(s).x, Aligned(s).y))
    }

    /** A hyperbola, as the ellipse, with the epoch `drawHyperbola` sets;
        the centre of the drawn ellipse is kept. */
    ghost predicate HyperbolaOriented(s: Motion, c0: (real, real))
      reads this`e, this`theta0, this`a, this`b, this`T, this`t, this`cx, this`cy
      requires SquareRoot(m) && !(s.x == 0.0 && s.y == 0.0)
    {
      && theta0 == m.atan2(s.y, s.x) - TrueAnomaly(m, s)
      && (a > 0.0 && b > 0.0 ==> T == HyperbolaEpoch(m, a, b, e, t, Aligned(s).x, Aligned(s).y))
      && (cx, cy) == c0
    }

    /** The drawn ellipse's centre sits at distance a e from the focus,
        opposite the periapsis. */
    ghost predicate Centred()
      reads this`a, this`e, this`theta0, this`cx, this`cy
    {
      (cx, cy) == EllipseCentre(m, a, e, theta0)
    }

    /** The second half of `reset`, once l and e are set: orient the orbit
        and draw it for its regime. */
    method Orient(s: Motion)
      requires Lawful(m) && !(s.x == 0.0 && s.y == 0.0)
      requires l == AngularMomentum(m, s) && e == Eccentricity(m, s)
      modifies this`theta0, this`a, this`b, this`T, this`cx, this`cy
      ensures Valid()
      ensures Oriented(s, old(a), old(b), old((cx, cy)))
    {
      if e == 0.0 {
        OrientCircle(s);
      } else if e == 1.0 {
        OrientParabola(s);
      } else if e < 1.0 {
        OrientEllipse(s);
      } else {
        OrientHyperbola(s);
      }
    }

    /** A circle: periapsis is taken at the current position, so the
        epoch is the current time. */
    method OrientCircle(s: Motion)
      requires Lawful(m) && !(s.x == 0.0 && s.y == 0.0)
      requires l > 0.0 && e == 0.0
      modifies this`theta0, this`a, this`b, this`T, this`cx, this`cy
      ensures Valid()
      ensures CircleOriented(s)
    {
      theta0 := m.atan2(s.y, s.x);
      DrawEllipse(0.0, 0.0);
      CircularEpoch(m, a, b, t);
    }

    method OrientParabola(s: Motion)
      requires Lawful(m) && !(s.x == 0.0 && s.y == 0.0)
      requires l >= 0.0 && e == 1.0
      modifies this`theta0, this`T
      ensures Valid()
      ensures ParabolaOriented(s, old(a), old(b), old((cx, cy)))
    {
      var theta1 := TrueAnomaly(m, s);
      theta0 := m.atan2(s.y, s.x) - theta1;
      DrawParabola(theta1);
    }

    /** An ellipse: the epoch is read off the position rotated into the
        aligned frame. */
    method OrientEllipse(s: Motion)
      requires Lawful(m) && !(s.x == 0.0 && s.y == 0.0)
      requires l > 0.0 && 0.0 < e < 1.0
      modifies this`theta0, this`a, this`b, this`T, this`cx, this`cy
      ensures Valid()
      ensures EllipseOriented(s)
    {
      var theta1 := TrueAnomaly(m, s);
      theta0 := m.atan2(s.y, s.x) - theta1;
      var p := Aligned(s);
      DrawEllipse(p.x, p.y);
      assert Aligned(s) == p;
    }

    /** A hyperbola, as `OrientEllipse` with `drawHyperbola`. */
    method OrientHyperbola(s: Motion)
      requires Lawful(m) && !(s.x == 0.0 && s.y == 0.0)
      requires l > 0.0 && e > 1.0
      modifies this`theta0, this`a, this`b, this`T
      ensures Valid()
      ensures HyperbolaOriented(s, old((cx, cy)))
    {
      var theta1 := TrueAnomaly(m, s);
      theta0 := m.atan2(s.y, s.x) - theta1;
      var p := Aligned(s);
      DrawHyperbola(p.x, p.y);
      assert Aligned(s) == p;
    }

    /** `solveEllipse`: solve Kepler's equation, then place the body on
        the ellipse in its own frame. */
    method SolveEllipse()
      requires Valid() && l > 0.0 && e < 1.0
      modifies this`x, this`y, this`vx, this`vy, this`anomaly
      ensures Position() == EllipseMotion(m, a, b, e, anomaly)
      ensures Accurate()
    {
      var E;
      ghost var lo, hi;
      E, lo, hi := SolveAnomaly(m, l, e, a, b, T, t);
      var p := EllipseMotion(m, a, b, e, E);
      x, y, vx, vy := p.x, p.y, p.vx, p.vy;
      anomaly := E;
    }

    /** `solveHyperbola`: solve the hyperbolic Kepler equation, then place
        the body on the hyperbola in its own frame. */
    method SolveHyperbola()
      requires Valid() && l > 0.0 && e > 1.0
      modifies this`x, this`y, this`vx, this`vy, this`anomaly
      ensures Position() == HyperbolaMotion(m, a, b, e, anomaly)
      ensures Accurate()
    {
      var E;
      ghost var lo, hi;
      E, lo, hi := SolveAnomaly(m, l, e, a, b, T, t);
      var p := HyperbolaMotion(m, a, b, e, E);
      x, y, vx, vy := p.x, p.y, p.vx, p.vy;
      anomaly := E;
    }

    /** `solveParabola`: solve Barker's equation for D, then place the
        body on the parabola in its own frame. */
    method SolveParabola()
      requires Valid() && l > 0.0 && e == 1.0
      modifies this`x, this`y, this`vx, this`vy, this`anomaly
      ensures Position() == ParabolaMotion(l, anomaly)
      ensures Accurate()
    {
      var D;
      ghost var lo, hi;
      D, lo, hi := SolveAnomaly(m, l, e, a, b, T, t);
      var p := ParabolaMotion(l, D);
      x, y, vx, vy := p.x, p.y, p.vx, p.vy;
      anomaly := D;
    }

    /** `rotateSolution`: rotate position and velocity by theta0, from the
        orbit's frame into the reference frame; lengths are preserved. */
    method RotateSolution()
      requires Pythagorean(m)
      modifies this`x, this`y, this`vx, this`vy
      ensures Position() == Rotate(m.cos(theta0), m.sin(theta0), old(Position()))
      ensures RadiusSquared(Position()) == RadiusSquared(old(Position()))
      ensures SpeedSquared(Position()) == SpeedSquared(old(Position()))
    {
      var ct := m.cos(theta0);
      var st := m.sin(theta0);
      UnitCircle(m, theta0);
      RotationPreservesNorms(ct, st, Position());
      var r := Rotate(ct, st, Position());
      x, y, vx, vy := r.x, r.y, r.vx, r.vy;
    }

    /** `advance`: move to the new time, solving the regime's equation
        (ellipse iff e < 1, hyperbola iff e > 1, parabola iff e = 1),
        then rotating into the reference frame. The elements do not
        change, and the anomaly is accurate for the new time. */
    method Advance(newTime: real)
      requires Valid() && l > 0.0
      modifies this`t, this`x, this`y, this`vx, this`vy, this`anomaly
      ensures t == newTime
      ensures OnOrbit() && Accurate()
    {
      t := newTime;
      if e < 1.0 {
        SolveEllipse();
      } else if e > 1.0 {
        SolveHyperbola();
      } else {
        SolveParabola();
      }
      RotateSolution();
    }

    /** `turn`: the steering angle accumulates. */
    method Turn(angleChange: real)
      modifies this`angle
      ensures angle == old(angle) + angleChange
    {
      angle := angle + angleChange;
    }

    /** `thrust`: change the velocity along the steered direction and
        reset the elements from the new state. */
    method Thrust(speedChange: real, extraAngle: real)
      requires Valid()
      modifies this`l, this`e, this`theta0, this`a, this`b, this`T, this`cx, this`cy
      ensures Valid()
      ensures !(x == 0.0 && y == 0.0) ==>
                var q := Boost(m, Position(), angle, speedChange, extraAngle);
                && l == AngularMomentum(m, q) && e == Eccentricity(m, q)
                && Oriented(q, old(a), old(b), old((cx, cy)))
      ensures x == 0.0 && y == 0.0 ==>
                l == old(l) && e == old(e) && theta0 == old(theta0) && T == old(T)
                && a == old(a) && b == old(b) && cx == old(cx) && cy == old(cy)
    {
      var q := Boost(m, Position(), angle, speedChange, extraAngle);
      Reset(q.x, q.y, q.vx, q.vy);
    }

    /** `radius`: the larger coordinate magnitude, the half-side of the
        smallest centred square holding the body. */
    function Radius(): (r: real)
      reads this
      ensures -r <= x <= r && -r <= y <= r
      ensures r == Abs(x) || r == Abs(y)
    {
      Max(Abs(x), Abs(y))
    }

    /** `width` and `height` (identical in the source): the major axis on
        an ellipse, the current radius otherwise, plus the satellite. */
    function Extent(): real
      reads this
    {
      (if e < 1.0 then 2.0 * a else Radius()) + SatRadius
    }

    /** The view extent always holds the body: on an ellipse the body is
        within the major axis in both coordinates. */
    lemma ExtentHoldsBody()
      requires OnOrbit()
      ensures Radius() + SatRadius <= Extent()
    {
      if e < 1.0 {
        var ct, st := m.cos(theta0), m.sin(theta0);
        UnitCircle(m, theta0);
        EllipseWithinMajorAxis(m, a, b, e, anomaly, ct, st);
      }
    }
  }
}
