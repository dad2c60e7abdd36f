/** The least-squares line behind predictive rules, over the reals. */
module Regression {

  const Guard: real := 0.0000000001

  // ---- Sums

  /** The sum of a[i] * b[i] for the first `n` indices. */
  function Dot(a: seq<real>, b: seq<real>, n: nat): real
    requires n <= |a| && n <= |b|
  {
    if n == 0 then 0.0 else Dot(a, b, n - 1) + Mul(a[n - 1], b[n - 1])
  }

  function Sum(a: seq<real>, n: nat): real
    requires n <= |a|
  {
    if n == 0 then 0.0 else Sum(a, n - 1) + a[n - 1]
  }

  function Abs(x: real): real { if x < 0.0 then -x else x }

  function Mul(u: real, v: real): real { u * v }

  function Sq(v: real): real { Mul(v, v) }

  lemma MulPositive(u: real, v: real)
    requires u > 0.0 && v > 0.0
    ensures Mul(u, v) > 0.0
  {
  }

  lemma MulZero(v: real)
    ensures Mul(0.0, v) == Mul(v, 0.0) == 0.0
  {
  }

  lemma MulNegated(u: real, v: real)
    ensures Mul(-u, -v) == Mul(u, v)
  {
  }

  lemma SquareZeroIff(v: real)
    ensures Sq(v) >= 0.0
    ensures Sq(v) == 0.0 <==> v == 0.0
  {
    MulZero(v);
    MulNegated(v, v);
    if v > 0.0 {
      MulPositive(v, v);
    } else if v < 0.0 {
      MulPositive(-v, -v);
    }
  }

  function Det(n: real, sx: real, sxx: real): real { Mul(n, sxx) - Sq(sx) }

  /** What is left of `t` after `a` times `s` and `b` times `r`. */
  function Left(t: real, a: real, s: real, b: real, r: real): real { t - (Mul(a, s) + Mul(b, r)) }

  /** The height of the line with slope `a` and intercept `b`. */
  function At(a: real, b: real, x: real): real { Mul(a, x) + b }

  // ---- The line

  /** The determinant of the normal equations. */
  function Denom(xs: seq<real>): real { Det(|xs| as real, Sum(xs, |xs|), Dot(xs, xs, |xs|)) }

  /** The line y = a * x + b satisfies the normal equations. */
  predicate Normal(xs: seq<real>, ys: seq<real>, a: real, b: real)
    requires |xs| <= |ys|
  {
    var n := |xs|;
    && Left(Dot(xs, ys, n), a, Dot(xs, xs, n), b, Sum(xs, n)) == 0.0
    && Left(Sum(ys, n), a, Sum(xs, n), b, n as real) == 0.0
  }

  /** The squared error of the line y = a * x + b on the first `n` points. */
  function Error(xs: seq<real>, ys: seq<real>, a: real, b: real, n: nat): real
    requires n <= |xs| && n <= |ys|
  {
    if n == 0 then 0.0 else Error(xs, ys, a, b, n - 1) + Sq(ys[n - 1] - At(a, b, xs[n - 1]))
  }

  ghost predicate Best(xs: seq<real>, ys: seq<real>, a: real, b: real)
    requires |xs| <= |ys|
  {
    forall a': real, b': real :: Error(xs, ys, a, b, |xs|) <= Error(xs, ys, a', b', |xs|)
  }

  method LinearRegression(xs: seq<real>, ys: seq<real>) returns (slope: real, intercept: real)
    requires |xs| <= |ys|
    ensures Abs(Denom(xs)) >= 0.0000000001 ==> Normal(xs, ys, slope, intercept)
    ensures Abs(Denom(xs)) < 0.0000000001 ==> slope == 0.0 && intercept == 0.0
  {
    var n := |xs| as real;
    var sumX, sumY, sumXY, sumX2 := 0.0, 0.0, 0.0, 0.0;
    for i := 0 to |xs|
      invariant sumX == Sum(xs, i) && sumY == Sum(ys, i)
      invariant sumXY == Dot(xs, ys, i) && sumX2 == Dot(xs, xs, i)
    {
      sumX := sumX + xs[i];
      sumY := sumY + ys[i];
      sumXY := sumXY + Mul(xs[i], ys[i]);
      sumX2 := sumX2 + Mul(xs[i], xs[i]);
    }
    var denom := Det(n, sumX, sumX2);
    if Abs(denom) < Guard {
      slope, intercept := 0.0, 0.0;
    } else {
      slope := (n * sumXY - sumX * sumY) / denom;
      intercept := (sumY - slope * sumX) / n;
      Cramer(n, sumX, sumY, sumXY, sumX2, slope, intercept);
    }
  }

  /** Solving the two normal equations. */
  lemma Cramer(n: real, sx: real, sy: real, sxy: real, sxx: real, a: real, b: real)
    requires n != 0.0 && Det(n, sx, sxx) != 0.0
    requires a == (n * sxy - sx * sy) / Det(n, sx, sxx) && b == (sy - a * sx) / n
    ensures Left(sxy, a, sxx, b, sx) == 0.0 && Left(sy, a, sx, b, n) == 0.0
  {
    var d := n * sxx - sx * sx;
    assert a * d == n * sxy - sx * sy;
    assert b * n == sy - a * sx;
    var e := a * sxx + b * sx;
    assert e * n == sxy * n by {
      assert e * n == a * (sxx * n) + (b * n) * sx;
      assert (b * n) * sx == sy * sx - a * (sx * sx);
      assert a * (sxx * n) - a * (sx * sx) == a * d;
    }
    CancelFactor(e, sxy, n);
  }

  lemma CancelFactor(p: real, q: real, n: real)
    requires n != 0.0 && p * n == q * n
    ensures p == q
  {
    assert (p - q) * n == 0.0;
  }

  // ---- The denominator

  /** The sum of the squared distances to `c` for the first `n` indices. */
  function Spread(xs: seq<real>, c: real, n: nat): real
    requires n <= |xs|
  {
    if n == 0 then 0.0 else Spread(xs, c, n - 1) + Sq(xs[n - 1] - c)
  }

  function SpreadFormula(c: real, n: real, sx: real, sxx: real): real { sxx - 2.0 * Mul(c, sx) + Mul(n, Sq(c)) }

  lemma {:induction false} SpreadSums(xs: seq<real>, c: real, n: nat)
    requires n <= |xs|
    ensures Spread(xs, c, n) == SpreadFormula(c, n as real, Sum(xs, n), Dot(xs, xs, n))
    decreases n
  {
    if n > 0 {
      SpreadSums(xs, c, n - 1);
      SpreadStep(c, xs[n - 1], (n - 1) as real, Sum(xs, n - 1), Dot(xs, xs, n - 1), n as real, Sum(xs, n), Dot(xs, xs, n));
    }
  }

  lemma SpreadStep(c: real, x: real, n: real, sx: real, sxx: real, n': real, sx': real, sxx': real)
    requires n' == n + 1.0 && sx' == sx + x && sxx' == sxx + Mul(x, x)
    ensures SpreadFormula(c, n', sx', sxx') == SpreadFormula(c, n, sx, sxx) + Sq(x - c)
  {
    assert (x - c) * (x - c) == x * x - 2.0 * (c * x) + c * c;
  }

  lemma {:induction false} SpreadZeroIff(xs: seq<real>, c: real, n: nat)
    requires n <= |xs|
    ensures Spread(xs, c, n) >= 0.0
    ensures Spread(xs, c, n) == 0.0 <==> forall i :: 0 <= i < n ==> xs[i] == c
    decreases n
  {
    if n > 0 {
      SquareZeroIff(xs[n - 1] - c);
      SpreadZeroIff(xs, c, n - 1);
    }
  }

  function PrefixDenom(xs: seq<real>, n: nat): real
    requires n <= |xs|
  {
    Det(n as real, Sum(xs, n), Dot(xs, xs, n))
  }

  /** One more point adds its squared distances to the points before it. */
  lemma DenomStep(xs: seq<real>, n: nat)
    requires 0 < n <= |xs|
    ensures PrefixDenom(xs, n) == PrefixDenom(xs, n - 1) + Spread(xs, xs[n - 1], n - 1)
  {
    SpreadSums(xs, xs[n - 1], n - 1);
    DetStep(xs[n - 1], (n - 1) as real, Sum(xs, n - 1), Dot(xs, xs, n - 1), n as real, Sum(xs, n), Dot(xs, xs, n));
  }

  lemma DetStep(x: real, n: real, sx: real, sxx: real, n': real, sx': real, sxx': real)
    requires n' == n + 1.0 && sx' == sx + x && sxx' == sxx + Mul(x, x)
    ensures Det(n', sx', sxx') == Det(n, sx, sxx) + SpreadFormula(x, n, sx, sxx)
  {
    assert (n + 1.0) * (sxx + x * x) == n * sxx + sxx + n * (x * x) + x * x;
    assert (sx + x) * (sx + x) == sx * sx + 2.0 * (x * sx) + x * x;
  }

  lemma {:induction false} PrefixDenomZeroIff(xs: seq<real>, n: nat)
    requires n <= |xs|
    ensures PrefixDenom(xs, n) >= 0.0
    ensures PrefixDenom(xs, n) == 0.0 <==> forall i, j :: 0 <= i < j < n ==> xs[i] == xs[j]
    decreases n
  {
    if n > 0 {
      PrefixDenomZeroIff(xs, n - 1);
      DenomStep(xs, n);
      SpreadZeroIff(xs, xs[n - 1], n - 1);
    }
  }

  /** The denominator is never negative, and zero only when all xs are equal. */
  lemma DenomNonNegative(xs: seq<real>)
    ensures Denom(xs) >= 0.0
    ensures Denom(xs) == 0.0 <==> forall i, j :: 0 <= i < j < |xs| ==> xs[i] == xs[j]
  {
    PrefixDenomZeroIff(xs, |xs|);
  }

  // ---- The error

  /** The squared distance between two lines, differing by slope `p` and intercept `q`, at
      the first `n` points. */
  function Gap(xs: seq<real>, p: real, q: real, n: nat): real
    requires n <= |xs|
  {
    if n == 0 then 0.0 else Gap(xs, p, q, n - 1) + Sq(At(p, q, xs[n - 1]))
  }

  function Gain(p: real, u: real, q: real, v: real): real { 2.0 * (Mul(p, u) + Mul(q, v)) }

  /** Moving the line by (p, q) changes the error by the gap, less the gain from the
      residuals of the normal equations. */
  lemma {:induction false} ErrorMoves(xs: seq<real>, ys: seq<real>, a: real, b: real, p: real, q: real, n: nat, u: real, v: real)
    requires n <= |xs| && n <= |ys|
    requires u == Left(Dot(xs, ys, n), a, Dot(xs, xs, n), b, Sum(xs, n))
    requires v == Left(Sum(ys, n), a, Sum(xs, n), b, n as real)
    ensures Error(xs, ys, a + p, b + q, n) == Error(xs, ys, a, b, n) + Gap(xs, p, q, n) - Gain(p, u, q, v)
    decreases n
  {
    if n > 0 {
      var x, y := xs[n - 1], ys[n - 1];
      var r := y - At(a, b, x);
      var u', v' := u - Mul(x, r), v - r;
      ResidualStep(a, b, x, y, r, Dot(xs, ys, n - 1), Dot(xs, xs, n - 1), Sum(xs, n - 1), Sum(ys, n - 1), (n - 1) as real,
                   Dot(xs, ys, n), Dot(xs, xs, n), Sum(xs, n), Sum(ys, n), n as real, u, v);
      ErrorMoves(xs, ys, a, b, p, q, n - 1, u', v');
      MoveStep(x, y, a, b, p, q, u, v, r, u', v');
    }
  }

  lemma ResidualStep(a: real, b: real, x: real, y: real, r: real,
                     dxy: real, dxx: real, sx: real, sy: real, k: real,
                     dxy': real, dxx': real, sx': real, sy': real, k': real, u: real, v: real)
    requires dxy' == dxy + Mul(x, y) && dxx' == dxx + Mul(x, x) && sx' == sx + x && sy' == sy + y && k' == k + 1.0
    requires r == y - At(a, b, x)
    requires u == Left(dxy', a, dxx', b, sx') && v == Left(sy', a, sx', b, k')
    ensures u - Mul(x, r) == Left(dxy, a, dxx, b, sx) && v - r == Left(sy, a, sx, b, k)
  {
    assert x * r == x * y - (a * (x * x) + b * x);
    assert a * dxx' == a * dxx + a * (x * x) && b * sx' == b * sx + b * x;
    assert a * sx' == a * sx + a * x && b * k' == b * k + b;
  }

  lemma MoveStep(x: real, y: real, a: real, b: real, p: real, q: real, u: real, v: real, r: real, u': real, v': real)
    requires r == y - At(a, b, x) && u' == u - Mul(x, r) && v' == v - r
    ensures Sq(y - At(a + p, b + q, x)) - Gain(p, u', q, v') == Sq(y - At(a, b, x)) + Sq(At(p, q, x)) - Gain(p, u, q, v)
  {
    var g := p * x + q;
    assert y - ((a + p) * x + (b + q)) == r - g;
    assert (r - g) * (r - g) == r * r + g * g - 2.0 * (g * r);
    assert g * r == p * (x * r) + q * r;
    assert p * u' == p * u - p * (x * r) && q * v' == q * v - q * r;
  }

  lemma {:induction false} GapZero(xs: seq<real>, p: real, q: real, n: nat)
    requires n <= |xs|
    ensures Gap(xs, p, q, n) >= 0.0
    ensures Gap(xs, p, q, n) == 0.0 ==> forall i :: 0 <= i < n ==> At(p, q, xs[i]) == 0.0
    decreases n
  {
    if n > 0 {
      SquareZeroIff(At(p, q, xs[n - 1]));
      GapZero(xs, p, q, n - 1);
    }
  }

  /** A line meeting the normal equations has the least squared error; with two different xs
      it is the only one. */
  lemma NormalIsBest(xs: seq<real>, ys: seq<real>, a: real, b: real, a': real, b': real)
    requires |xs| <= |ys| && Normal(xs, ys, a, b)
    ensures Error(xs, ys, a, b, |xs|) <= Error(xs, ys, a', b', |xs|)
    ensures Denom(xs) > 0.0 && Error(xs, ys, a', b', |xs|) <= Error(xs, ys, a, b, |xs|) ==> a' == a && b' == b
  {
    var p, q := a' - a, b' - b;
    assert a + p == a' && b + q == b';
    ErrorMoves(xs, ys, a, b, p, q, |xs|, 0.0, 0.0);
    NoGain(p, q);
    GapZero(xs, p, q, |xs|);
    if Denom(xs) > 0.0 && Gap(xs, p, q, |xs|) == 0.0 {
      DenomNonNegative(xs);
      var i, j :| 0 <= i < j < |xs| && xs[i] != xs[j];
      TwoZeros(p, q, xs[i], xs[j]);
    }
  }

  lemma NoGain(p: real, q: real)
    ensures Gain(p, 0.0, q, 0.0) == 0.0
  {
  }

  lemma TwoZeros(p: real, q: real, x: real, x': real)
    requires At(p, q, x) == 0.0 && At(p, q, x') == 0.0 && x != x'
    ensures p == 0.0 && q == 0.0
  {
    assert p * (x - x') == 0.0;
    CancelFactor(p, 0.0, x - x');
  }

  lemma {:induction false} GapScales(xs: seq<real>, t: real, p: real, q: real, n: nat)
    requires n <= |xs|
    ensures Gap(xs, Mul(t, p), Mul(t, q), n) == Mul(Sq(t), Gap(xs, p, q, n))
    decreases n
  {
    if n > 0 {
      GapScales(xs, t, p, q, n - 1);
      ScaleStep(t, p, q, xs[n - 1], Gap(xs, p, q, n - 1), Gap(xs, p, q, n));
    } else {
      MulZero(Sq(t));
    }
  }

  lemma ScaleStep(t: real, p: real, q: real, x: real, gap: real, gap': real)
    requires gap' == gap + Sq(At(p, q, x))
    ensures Mul(Sq(t), gap') == Mul(Sq(t), gap) + Sq(At(Mul(t, p), Mul(t, q), x))
  {
    var g := p * x + q;
    assert t * p * x + t * q == t * g;
    assert (t * g) * (t * g) == (t * t) * (g * g);
  }

  /** If the zero line does not meet the normal equations, a small move along the residuals
      lowers its error. */
  lemma ZeroLineImproves(xs: seq<real>, ys: seq<real>)
    requires |xs| <= |ys| && !Normal(xs, ys, 0.0, 0.0)
    ensures !Best(xs, ys, 0.0, 0.0)
  {
    var n := |xs|;
    var u, v := Dot(xs, ys, n), Sum(ys, n);
    ZeroLeft(u, Dot(xs, xs, n), Sum(xs, n));
    ZeroLeft(v, Sum(xs, n), n as real);
    GapZero(xs, u, v, n);
    var t := StepSize(u, v, Gap(xs, u, v, n));
    ErrorMoves(xs, ys, 0.0, 0.0, Mul(t, u), Mul(t, v), n, u, v);
    GapScales(xs, t, u, v, n);
    assert Error(xs, ys, 0.0 + Mul(t, u), 0.0 + Mul(t, v), n) < Error(xs, ys, 0.0, 0.0, n);
  }

  lemma ZeroLeft(t: real, s: real, r: real)
    ensures Left(t, 0.0, s, 0.0, r) == t
  {
  }

  /** A step for which the gap it costs is below the gain. */
  lemma StepSize(u: real, v: real, gap: real) returns (t: real)
    requires gap >= 0.0 && (u != 0.0 || v != 0.0)
    ensures Mul(Sq(t), gap) < Gain(Mul(t, u), u, Mul(t, v), v)
  {
    var w := Sq(u) + Sq(v);
    SquareZeroIff(u);
    SquareZeroIff(v);
    t := if gap == 0.0 then 1.0 else w / gap;
    assert t > 0.0 && t * gap <= w;
    MulPositive(t, w);
    assert t * t * gap == t * (t * gap) <= t * w;
    assert t * u * u + t * v * v == t * w;
  }

  /** What LinearRegression returns is the best line exactly when the denominator reaches
      the guard, or the zero line it falls back to happens to be a best one. */
  lemma FitIsBestIff(xs: seq<real>, ys: seq<real>, a: real, b: real)
    requires |xs| <= |ys|
    requires Abs(Denom(xs)) >= Guard ==> Normal(xs, ys, a, b)
    requires Abs(Denom(xs)) < Guard ==> a == 0.0 && b == 0.0
    ensures Best(xs, ys, a, b) <==> Denom(xs) >= Guard || Dot(xs, ys, |xs|) == Sum(ys, |xs|) == 0.0
  {
    var n := |xs|;
    DenomNonNegative(xs);
    ZeroLeft(Dot(xs, ys, n), Dot(xs, xs, n), Sum(xs, n));
    ZeroLeft(Sum(ys, n), Sum(xs, n), n as real);
    if Normal(xs, ys, a, b) {
      forall a': real, b': real ensures Error(xs, ys, a, b, n) <= Error(xs, ys, a', b', n) {
        NormalIsBest(xs, ys, a, b, a', b');
      }
    } else {
      ZeroLineImproves(xs, ys);
    }
  }

  /** A single point off the zero line is missed. */
  lemma OnePointIsMissed()
    ensures Abs(Denom([0.0])) < Guard && !Best([0.0], [1.0], 0.0, 0.0)
  {
    var xs, ys := [0.0], [1.0];
    DenomNonNegative(xs);
    SumOfOne(1.0);
    FitIsBestIff(xs, ys, 0.0, 0.0);
  }

  lemma SumOfOne(y: real)
    ensures Sum([y], 1) == y
  {
    assert Sum([y], 0) == 0.0;
  }
}
