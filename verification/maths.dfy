/** The numeric library the simulation calls into (JavaScript's `Math`
    and the local hyperbolic helpers), kept uninterpreted: each
    transcendental function is a value of the record `Lib`, and only the
    laws a proof needs are stated about it, as predicates that callers
    require. Floating point is not modelled; numbers are Dafny reals. */
module Maths {

  datatype Lib = Lib(
    sin: real -> real,
    cos: real -> real,
    tan: real -> real,
    sqrt: real -> real,
    atan2: (real, real) -> real,
    exp: real -> real,
    log: real -> real,
    // IEEE division; its value for a zero divisor (an infinity or NaN)
    // is left open
    div: (real, real) -> real)

  /** `Math.PI`, as its shortest decimal representation. */
  const Pi: real := 3.141592653589793

  function Abs(x: real): (r: real)
    ensures r >= 0.0 && (r == x || r == -x)
  {
    if x < 0.0 then -x else x
  }

  function Max(x: real, y: real): (r: real)
    ensures r >= x && r >= y && (r == x || r == y)
  {
    if x < y then y else x
  }

  function Square(x: real): real
  {
    x * x
  }

  /** 2^n as a real. */
  function Pow2(n: nat): (r: real)
    ensures r >= 1.0
  {
    if n == 0 then 1.0 else 2.0 * Pow2(n - 1)
  }

  /** The hyperbolic helpers of gravity.js, defined through `exp`. */
  function Cosh(m: Lib, x: real): real
  {
    (m.exp(x) + m.exp(-x)) / 2.0
  }

  function Sinh(m: Lib, x: real): real
  {
    (m.exp(x) - m.exp(-x)) / 2.0
  }

  /** The local `atanh`, as written: 0.5 log((1 - x)/(1 + x)), which is
      the negation of the inverse hyperbolic tangent. */
  function Atanh(m: Lib, x: real): real
  {
    0.5 * m.log(m.div(1.0 - x, 1.0 + x))
  }

  /** sin² + cos² = 1 (stated through `SinCosNorm`, so that the law is
      only brought in where a proof asks for it). */
  ghost predicate Pythagorean(m: Lib)
  {
    forall x :: SinCosNorm(m, x) == 1.0
  }

  ghost function SinCosNorm(m: Lib, x: real): real
  {
    m.sin(x) * m.sin(x) + m.cos(x) * m.cos(x)
  }

  /** `Math.sqrt` is the non-negative square root on non-negative inputs,
      positive on positive inputs (stated through `IsRoot`, so that the law
      is only brought in where a proof asks for it). */
  ghost predicate SquareRoot(m: Lib)
  {
    forall z :: z >= 0.0 ==> IsRoot(m, z)
  }

  ghost predicate IsRoot(m: Lib, z: real)
  {
    m.sqrt(z) >= 0.0 && m.sqrt(z) * m.sqrt(z) == z && (z > 0.0 ==> m.sqrt(z) > 0.0)
  }

  /** `Math.sqrt(0)` is 0. */
  ghost predicate RootOfZero(m: Lib)
  {
    m.sqrt(0.0) == 0.0
  }

  /** sin changes no faster than its argument (|sin'| = |cos| <= 1). */
  ghost predicate SinLipschitz(m: Lib)
  {
    forall u, v :: u <= v ==> SinRise(m, u, v) <= v - u && -SinRise(m, u, v) <= v - u
  }

  /** The change of sin from u to v. */
  ghost function SinRise(m: Lib, u: real, v: real): real
  {
    m.sin(v) - m.sin(u)
  }

  /** sinh changes at least as fast as its argument (sinh' = cosh >= 1). */
  ghost predicate SinhGrowth(m: Lib)
  {
    forall u, v :: u <= v ==> SinhRise(m, u, v) >= v - u
  }

  /** The change of sinh from u to v. */
  ghost function SinhRise(m: Lib, u: real, v: real): real
  {
    Sinh(m, v) - Sinh(m, u)
  }

  /** Division by a non-zero divisor is exact. */
  ghost predicate ExactDivision(m: Lib)
  {
    forall p, q :: q != 0.0 ==> m.div(p, q) == p / q
  }

  /** The laws the orbit model relies on, all true of the real functions. */
  ghost predicate Lawful(m: Lib)
  {
    && Pythagorean(m)
    && SinLipschitz(m)
    && SquareRoot(m)
    && RootOfZero(m)
    && SinhGrowth(m)
    && ExactDivision(m)
    && m.atan2(0.0, 0.0) == 0.0
    && m.sin(0.0) == 0.0
  }

  /** (cos x, sin x) is a unit vector. */
  lemma UnitCircle(m: Lib, x: real)
    requires Pythagorean(m)
    ensures m.cos(x) * m.cos(x) + m.sin(x) * m.sin(x) == 1.0
  {
    assert SinCosNorm(m, x) == 1.0;
  }

  lemma SinCosBounded(m: Lib, x: real)
    requires Pythagorean(m)
    ensures -1.0 <= m.sin(x) <= 1.0 && -1.0 <= m.cos(x) <= 1.0
  {
    var s, c := m.sin(x), m.cos(x);
    assert SinCosNorm(m, x) == 1.0;
    SquareAtMostOne(s, c * c);
    SquareAtMostOne(c, s * s);
  }

  lemma SquareAtMostOne(s: real, rest: real)
    requires s * s + rest == 1.0 && rest >= 0.0
    ensures -1.0 <= s <= 1.0
  {
  }

  lemma SquareGrows(s: real)
    requires s > 1.0
    ensures s * s > s
  {
  }

  lemma SquareBelow(s: real)
    requires 0.0 <= s < 1.0
    ensures s * s < 1.0
  {
    assert s * s <= s;
  }

  /** Multiplying by a non-negative factor keeps an order. */
  lemma MulMonotone(k: real, u: real, v: real)
    requires k >= 0.0 && u <= v
    ensures k * u <= k * v
  {
    assert k * v - k * u == k * (v - u);
    assert k * (v - u) >= 0.0 by {
      if k > 0.0 && v - u > 0.0 { PositiveProduct(k, v - u); }
    }
  }

  lemma PositiveProduct(a: real, b: real)
    requires a > 0.0 && b > 0.0
    ensures a * b > 0.0
  {
  }

  lemma CubeHalfPositive(l: real)
    requires l > 0.0
    ensures l * l * l / 2.0 > 0.0
  {
  }

  /** l^2 / q > 0 for l != 0 and q > 0 (stated through |l| (|l| / q):
      the solver does not reliably carry a bare `x * x > 0`). */
  lemma SquareOverPositive(l: real, q: real)
    requires l != 0.0 && q > 0.0
    ensures l * l / q > 0.0
  {
    var w := if l > 0.0 then l else -l;
    var u := w / q;
    assert u > 0.0;
    assert l * l / q == w * u;
  }

  lemma SqrtPositive(m: Lib, z: real)
    requires SquareRoot(m) && z > 0.0
    ensures m.sqrt(z) > 0.0
  {
    assert IsRoot(m, z);
  }

  lemma SqrtOne(m: Lib)
    requires SquareRoot(m)
    ensures m.sqrt(1.0) == 1.0
  {
    var s := m.sqrt(1.0);
    assert IsRoot(m, 1.0);
    assert s >= 0.0 && s * s == 1.0;
    if s < 1.0 {
      SquareBelow(s);
    } else if s > 1.0 {
      SquareGrows(s);
    }
  }

  /** Powers of two exceed every real: the Archimedean step that bounds
      the bracket expansion and the bisection. */
  lemma {:induction false} Pow2AtLeast(n: nat)
    ensures Pow2(n) >= n as real + 1.0
  {
    if n > 0 { Pow2AtLeast(n - 1); }
  }

  lemma Pow2Exceeds(bound: real) returns (n: nat)
    ensures n >= 1 && Pow2(n) > bound
  {
    n := if bound < 0.0 then 1 else bound.Floor as nat + 1;
    Pow2AtLeast(n);
  }
}
