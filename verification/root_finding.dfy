/** The scalar equation solvers of gravity.js: the bracketing search that
    the simulation uses as `fsolve`, and the unused damped Newton-Raphson
    iteration. Both work on an arbitrary total function over the reals. */
module RootFinding {
  import opened Maths
  import opened Options

  /** What the bracketing search returns: a number, or the NaN that
      JavaScript produces when the secant quotient is 0/0. */
  datatype Estimate = Root(x: real) | NaN

  /** The tolerance used when the caller passes none (or a falsy 0). */
  const DefaultTolerance: real := 0.0000000001

  function Tolerance(tol: real): (eps: real)
    requires tol >= 0.0
    ensures eps > 0.0 && (tol != 0.0 ==> eps == tol)
  {
    if tol == 0.0 then DefaultTolerance else tol
  }

  /** A bracket: an interval, with the function's values at its ends,
      across which the function changes sign (or vanishes). */
  ghost predicate Bracketed(f: real -> real, x0: real, x1: real, y0: real, y1: real)
  {
    x0 <= x1 && y0 == f(x0) && y1 == f(x1) && y0 * y1 <= 0.0
  }

  /** The symmetric bracket [-2^k, 2^k] shows a sign change. */
  ghost predicate SignChangeAt(f: real -> real, k: nat)
  {
    f(-Pow2(k)) * f(Pow2(k)) <= 0.0
  }

  lemma SecantWeight(y0: real, y1: real)
    requires y0 * y1 <= 0.0 && y1 != y0
    ensures 0.0 <= -y0 / (y1 - y0) <= 1.0
  {
    if y1 - y0 > 0.0 {
      assert y0 <= 0.0;
      assert y1 >= 0.0;
      FractionWithin(-y0, y1 - y0);
    } else {
      assert y0 >= 0.0;
      assert y1 <= 0.0;
      FractionWithin(y0, y0 - y1);
      assert -y0 / (y1 - y0) == y0 / (y0 - y1);
    }
  }

  lemma FractionWithin(p: real, d: real)
    requires d > 0.0 && 0.0 <= p <= d
    ensures 0.0 <= p / d <= 1.0
  {
  }

  lemma ScaleWithin(t: real, w: real)
    requires 0.0 <= t <= 1.0 && w >= 0.0
    ensures 0.0 <= t * w <= w
  {
    assert (1.0 - t) * w >= 0.0;
  }

  /** The secant ("weighted") point of a bracket lies inside it. */
  function SecantPoint(x0: real, x1: real, y0: real, y1: real): (xm: real)
    requires x0 <= x1 && y0 * y1 <= 0.0 && y1 != y0
    ensures x0 <= xm <= x1
  {
    SecantWeight(y0, y1);
    ScaleWithin(-y0 / (y1 - y0), x1 - x0);
    assert x0 - y0 / (y1 - y0) * (x1 - x0) == x0 + (-y0 / (y1 - y0)) * (x1 - x0);
    x0 - y0 / (y1 - y0) * (x1 - x0)
  }

  /** Replacing the end whose value shares the new point's sign keeps
      the sign change. */
  lemma SignReplace(y0: real, y1: real, ym: real)
    requires y0 * y1 <= 0.0 && ym * y0 > 0.0
    ensures ym * y1 <= 0.0
  {
    ProductSign(y0, y1);
    ProductSign(ym, y0);
    ProductSign(ym, y1);
  }

  /** The sign of a product, by cases on the signs of its factors. */
  lemma ProductSign(a: real, b: real)
    ensures a * b > 0.0 <==> (a > 0.0 && b > 0.0) || (a < 0.0 && b < 0.0)
    ensures a * b < 0.0 <==> (a > 0.0 && b < 0.0) || (a < 0.0 && b > 0.0)
  {
    if a > 0.0 {
      if b > 0.0 { assert a * b > 0.0; }
      else if b < 0.0 { assert a * b < 0.0; }
      else { assert a * b == 0.0; }
    } else if a < 0.0 {
      if b > 0.0 { assert a * b < 0.0; }
      else if b < 0.0 { assert a * b > 0.0; }
      else { assert a * b == 0.0; }
    } else {
      assert a * b == 0.0;
    }
  }

  /** The first loop of `binarySearch`: double the symmetric bracket,
      starting from [-2, 2], until the function changes sign across it.
      The search terminates only when such a bracket exists; `n` is a
      bracket exponent known to show a sign change. */
  method ExpandBracket(f: real -> real, ghost n: nat)
    returns (ghost k: nat, x0: real, x1: real, y0: real, y1: real)
    requires n >= 1 && SignChangeAt(f, n)
    ensures 1 <= k <= n && x1 == Pow2(k) && x0 == -x1
    ensures Bracketed(f, x0, x1, y0, y1)
    ensures forall j :: 1 <= j < k ==> !SignChangeAt(f, j)
  {
    x0, x1 := -1.0, 1.0;
    k := 0;
    x0, x1 := x0 * 2.0, x1 * 2.0;
    k := 1;
    y0, y1 := f(x0), f(x1);
    while y0 * y1 > 0.0
      invariant 1 <= k <= n && x1 == Pow2(k) && x0 == -x1
      invariant y0 == f(x0) && y1 == f(x1)
      invariant forall j :: 1 <= j < k ==> !SignChangeAt(f, j)
      decreases n - k
    {
      assert k < n;
      x0, x1 := x0 * 2.0, x1 * 2.0;
      k := k + 1;
      y0, y1 := f(x0), f(x1);
    }
  }

  /** One pass of the second loop: a bisection step, then a secant step,
      each replacing the end of the bracket that shares the new point's
      sign. `ok` is false when the secant quotient is 0/0 (both ends are
      zeros of f), where JavaScript continues with NaN. */
  method RefineStep(f: real -> real, x0: real, x1: real, y0: real, y1: real)
    returns (nx0: real, nx1: real, ny0: real, ny1: real, xm: real, ym: real, ok: bool)
    requires x0 < x1 && Bracketed(f, x0, x1, y0, y1)
    ensures x0 <= nx0 <= nx1 <= x1
    ensures nx1 - nx0 <= (x1 - x0) / 2.0
    ensures ok ==> Bracketed(f, nx0, nx1, ny0, ny1) && ym == f(xm) && (xm == nx0 || xm == nx1)
    ensures !ok ==> nx0 < nx1 && f(nx0) == 0.0 && f(nx1) == 0.0
  {
    nx0, nx1, ny0, ny1 := x0, x1, y0, y1;
    // First a plain bisection
    xm := (nx0 + nx1) / 2.0;
    ym := f(xm);
    if ym * ny0 > 0.0 {
      SignReplace(ny0, ny1, ym);
      nx0, ny0 := xm, ym;
    } else {
      nx1, ny1 := xm, ym;
    }
    if ny1 == ny0 {
      ProductSign(ny0, ny1);
      ok := false;
      return;
    }
    // Then a weighted one
    ok := true;
    xm := SecantPoint(nx0, nx1, ny0, ny1);
    ym := f(xm);
    if ym * ny0 > 0.0 {
      SignReplace(ny0, ny1, ym);
      nx0, ny0 := xm, ym;
    } else {
      nx1, ny1 := xm, ym;
    }
  }

  lemma BudgetFor(width: real, eps: real) returns (budget: nat)
    requires eps > 0.0 && width >= 0.0
    ensures budget >= 1 && width <= eps * Pow2(budget)
  {
    budget := Pow2Exceeds(width / eps);
    assert eps * (width / eps) == width;
    assert eps * Pow2(budget) >= eps * (width / eps);
  }

  /** Halving a width within eps 2^b leaves it within eps 2^(b-1). */
  lemma HalvingSpendsBudget(width: real, halved: real, eps: real, b: nat) returns (c: nat)
    requires b >= 1 && eps > 0.0 && width <= eps * Pow2(b) && halved <= width / 2.0
    ensures c == b - 1 && halved <= eps * Pow2(c)
  {
    c := b - 1;
    assert eps * Pow2(b) == 2.0 * (eps * Pow2(c));
  }

  /** `binarySearch` (the active `fsolve`): expand a symmetric bracket
      until f changes sign across it, then alternate bisection and
      secant steps until |f(xm)| or the bracket width is within the
      tolerance, and return the last point evaluated. The answer is an
      end of a final bracket [lo, hi] inside the first one that showed
      a sign change; NaN comes back only when f has two distinct zeros. */
  method BinarySearch(f: real -> real, tol: real, ghost n: nat)
    returns (r: Estimate, ghost lo: real, ghost hi: real)
    requires tol >= 0.0
    requires n >= 1 && SignChangeAt(f, n)
    ensures -Pow2(n) <= lo <= hi <= Pow2(n)
    ensures r.Root? ==> Bracketed(f, lo, hi, f(lo), f(hi))
    ensures r.Root? ==> -Pow2(n) <= r.x <= Pow2(n)
    ensures r.Root? ==> (r.x == lo || r.x == hi)
    ensures r.Root? ==> Abs(f(r.x)) <= Tolerance(tol) || hi - lo <= Tolerance(tol)
    ensures r.NaN? ==> lo < hi && f(lo) == 0.0 && f(hi) == 0.0
  {
    var eps := Tolerance(tol);
    ghost var k;
    var x0, x1, y0, y1;
    k, x0, x1, y0, y1 := ExpandBracket(f, n);
    assert Pow2(k) <= Pow2(n) by { Pow2Monotone(k, n); }
    ghost var budget := BudgetFor(x1 - x0, eps);
    var xm, ym, ok;
    ghost var width := x1 - x0;
    x0, x1, y0, y1, xm, ym, ok := RefineStep(f, x0, x1, y0, y1);
    budget := HalvingSpendsBudget(width, x1 - x0, eps, budget);
    while ok && Abs(ym) > eps && x1 - x0 > eps
      invariant -Pow2(n) <= x0 <= x1 <= Pow2(n)
      invariant x1 - x0 <= eps * Pow2(budget)
      invariant ok ==> Bracketed(f, x0, x1, y0, y1) && ym == f(xm) && (xm == x0 || xm == x1)
      invariant !ok ==> x0 < x1 && f(x0) == 0.0 && f(x1) == 0.0
      decreases budget
    {
      if budget == 0 {
        assert false;
      }
      width := x1 - x0;
      x0, x1, y0, y1, xm, ym, ok := RefineStep(f, x0, x1, y0, y1);
      budget := HalvingSpendsBudget(width, x1 - x0, eps, budget);
    }
    lo, hi := x0, x1;
    r := if ok then Root(xm) else NaN;
  }

  lemma {:induction false} Pow2Monotone(i: nat, j: nat)
    requires i <= j
    ensures Pow2(i) <= Pow2(j)
  {
    if i < j { Pow2Monotone(i, j - 1); }
  }

  /** f increases at least at rate K > 0 everywhere: the shape of every
      residual the orbit solves (Kepler's and Barker's equations). */
  ghost predicate GrowsLinearly(f: real -> real, K: real)
  {
    forall u, v :: u <= v ==> f(v) - f(u) >= K * (v - u)
  }

  /** A function growing at a positive rate changes sign across some
      symmetric bracket [-2^n, 2^n], so the bracket expansion ends. */
  lemma GrowthBrackets(f: real -> real, K: real) returns (n: nat)
    requires K > 0.0 && GrowsLinearly(f, K)
    ensures n >= 1 && SignChangeAt(f, n)
  {
    var c := f(0.0);
    n := Pow2Exceeds(Abs(c) / K);
    var p := Pow2(n);
    assert K * p > Abs(c) by {
      PositiveProduct(K, p - Abs(c) / K);
      assert K * (p - Abs(c) / K) == K * p - Abs(c);
    }
    assert f(p) - f(0.0) >= K * (p - 0.0);
    assert f(0.0) - f(-p) >= K * (0.0 - -p);
    assert f(p) > 0.0 && f(-p) < 0.0;
    ProductSign(f(-p), f(p));
  }

  /** A function growing at a positive rate is strictly increasing, so it
      has at most one zero. */
  lemma GrowthIncreasing(f: real -> real, K: real, u: real, v: real)
    requires K > 0.0 && GrowsLinearly(f, K) && u < v
    ensures f(u) < f(v)
  {
    var w := v - u;
    PositiveProduct(K, w);
    var rise := f(v) - f(u);
    assert rise >= K * w;
  }

  lemma GrowthMonotone(f: real -> real, K: real, u: real, v: real)
    requires K > 0.0 && GrowsLinearly(f, K) && u <= v
    ensures f(u) <= f(v)
  {
    assert f(v) - f(u) >= K * (v - u);
    MulMonotone(K, 0.0, v - u);
  }

  /** Every zero of a function growing at a positive rate lies inside
      each bracket of it. */
  lemma ZeroInBracket(f: real -> real, K: real, lo: real, hi: real, z: real)
    requires K > 0.0 && GrowsLinearly(f, K) && Bracketed(f, lo, hi, f(lo), f(hi))
    requires f(z) == 0.0
    ensures lo <= z <= hi
  {
    GrowthMonotone(f, K, lo, hi);
    ProductSign(f(lo), f(hi));
    if z < lo {
      GrowthIncreasing(f, K, z, lo);
    } else if z > hi {
      GrowthIncreasing(f, K, hi, z);
    }
  }

  lemma QuotientBound(K: real, d: real, c: real)
    requires K > 0.0 && K * d <= c
    ensures d <= c / K
  {
    assert K * (c / K - d) == c - K * d;
    ProductSign(K, c / K - d);
  }

  /** What the result of `BinarySearch` means for a function growing at
      rate K: it is within max(eps, eps / K) of every zero. */
  lemma EstimateNearZero(f: real -> real, K: real, lo: real, hi: real, x: real, z: real, eps: real)
    requires K > 0.0 && GrowsLinearly(f, K) && Bracketed(f, lo, hi, f(lo), f(hi))
    requires (x == lo || x == hi) && f(z) == 0.0 && eps > 0.0
    requires Abs(f(x)) <= eps || hi - lo <= eps
    ensures Abs(x - z) <= Max(eps, eps / K)
  {
    ZeroInBracket(f, K, lo, hi, z);
    var d := Abs(x - z);
    if hi - lo <= eps {
      assert d <= hi - lo;
    } else {
      assert K * d <= Abs(f(x)) by {
        if x >= z {
          assert f(x) - f(z) >= K * (x - z);
        } else {
          assert f(z) - f(x) >= K * (z - x);
        }
      }
      QuotientBound(K, d, eps);
    }
  }

  /** `newtonRaphson` (unused by the simulation): Newton steps blended
      0.2/0.8 with the previous point, until |f(x)| is below the
      tolerance. The source recursion is unbounded; `fuel` bounds it
      here, and a zero derivative (a division by zero there) ends it. */
  function NewtonRaphson(f: real -> real, fprime: real -> real, tol: real, x0: real, fuel: nat)
    : (r: Option<real>)
    requires tol >= 0.0
    ensures r.Some? ==> Abs(f(r.value)) < Tolerance(tol)
    decreases fuel
  {
    var y0 := f(x0);
    if Abs(y0) < Tolerance(tol) then Some(x0)
    else if fuel == 0 || fprime(x0) == 0.0 then None
    else
      var x1 := x0 - y0 / fprime(x0);
      NewtonRaphson(f, fprime, tol, 0.2 * x0 + 0.8 * x1, fuel - 1)
  }
}
