/** Least squares and moving averages in exact arithmetic. */
module Stats {
  import opened Wrappers

  datatype StatsError = LengthMismatch | TooFewPoints | AllXEqual | BadWindow

  datatype LinearTrend = LinearTrend(slope: real, intercept: real, rSquared: real)

  function Sum(v: seq<real>): real {
    if v == [] then 0.0 else Sum(v[..|v| - 1]) + v[|v| - 1]
  }

  /** A product and a quotient under names, so that the algebra below can treat each as one term. */
  function Times(a: real, b: real): real {
    a * b
  }

  function Quotient(a: real, b: real): real
    requires b != 0.0
  {
    a / b
  }

  /** Sum of the products of corresponding elements. */
  function Dot(a: seq<real>, b: seq<real>): real
    requires |a| == |b|
  {
    if a == [] then 0.0 else Dot(a[..|a| - 1], b[..|b| - 1]) + Times(a[|a| - 1], b[|b| - 1])
  }

  /** The deviations of a series from `m`. */
  function Centered(v: seq<real>, m: real): (r: seq<real>)
    ensures |r| == |v|
  {
    seq(|v|, i requires 0 <= i < |v| => v[i] - m)
  }

  function Spread(v: seq<real>, m: real): real {
    Dot(Centered(v, m), Centered(v, m))
  }

  /** The residuals of the points against the line `b * x + c`. */
  function Residuals(xs: seq<real>, ys: seq<real>, b: real, c: real): (r: seq<real>)
    requires |xs| == |ys|
    ensures |r| == |xs|
  {
    seq(|xs|, i requires 0 <= i < |xs| => ys[i] - (b * xs[i] + c))
  }

  /** Sum of squared residuals: what least squares is about. */
  function Error(xs: seq<real>, ys: seq<real>, b: real, c: real): real
    requires |xs| == |ys|
  {
    Dot(Residuals(xs, ys, b, c), Residuals(xs, ys, b, c))
  }

  function Mean(v: seq<real>): real
    requires v != []
  {
    Quotient(Sum(v), |v| as real)
  }

  /** Ordinary least squares. */
  function LinReg(xs: seq<real>, ys: seq<real>): Result<LinearTrend, StatsError> {
    if |xs| != |ys| then Failure(LengthMismatch)
    else if |xs| < 2 then Failure(TooFewPoints)
    else
      var mx, my := Mean(xs), Mean(ys);
      var denom := Spread(xs, mx);
      if denom == 0.0 then Failure(AllXEqual)
      else
        var slope := Quotient(Dot(Centered(xs, mx), Centered(ys, my)), denom);
        var intercept := my - slope * mx;
        var residual, total := Error(xs, ys, slope, intercept), Spread(ys, my);
        Success(LinearTrend(slope, intercept, if total != 0.0 then 1.0 - Quotient(residual, total) else 1.0))
  }

  // ---------------------------------------------------------------- inner products

  lemma {:induction false} DotCommutes(a: seq<real>, b: seq<real>)
    requires |a| == |b|
    ensures Dot(a, b) == Dot(b, a)
  {
    if a != [] {
      DotCommutes(a[..|a| - 1], b[..|b| - 1]);
    }
  }

  lemma {:induction false} DotNonNegative(a: seq<real>)
    ensures Dot(a, a) >= 0.0
    ensures Dot(a, a) == 0.0 <==> forall i | 0 <= i < |a| :: a[i] == 0.0
  {
    if a != [] {
      var front, last := a[..|a| - 1], a[|a| - 1];
      DotNonNegative(front);
      SquarePositive(last);
      assert forall i | 0 <= i < |front| :: front[i] == a[i];
    }
  }

  lemma SquarePositive(x: real)
    ensures Times(x, x) >= 0.0
    ensures Times(x, x) == 0.0 <==> x == 0.0
  {
    ProductSign(x, x);
  }

  lemma ProductSign(a: real, b: real)
    requires (a >= 0.0 && b >= 0.0) || (a <= 0.0 && b <= 0.0)
    ensures Times(a, b) >= 0.0
    ensures Times(a, b) == 0.0 <==> a == 0.0 || b == 0.0
  {
  }

  /** `c` is `a` plus `k` times `b`, element by element. */
  ghost predicate Combines(a: seq<real>, k: real, b: seq<real>, c: seq<real>) {
    |a| == |b| == |c| && forall i | 0 <= i < |c| :: c[i] == a[i] + Times(k, b[i])
  }

  lemma {:induction false} DotCombines(a: seq<real>, k: real, b: seq<real>, c: seq<real>, d: seq<real>)
    requires Combines(a, k, b, c) && |d| == |c|
    ensures Dot(c, d) == Dot(a, d) + Times(k, Dot(b, d))
  {
    if c != [] {
      var n := |c| - 1;
      DotCombines(a[..n], k, b[..n], c[..n], d[..n]);
      DistributeTerm(a[n], k, b[n], d[n], Dot(b[..n], d[..n]));
    }
  }

  lemma DistributeTerm(a: real, k: real, b: real, d: real, rest: real)
    ensures Times(a + Times(k, b), d) == Times(a, d) + Times(k, Times(b, d))
    ensures Times(k, rest + Times(b, d)) == Times(k, rest) + Times(k, Times(b, d))
  {
  }

  function Ones(n: nat): (r: seq<real>)
    ensures |r| == n
  {
    seq(n, i => 1.0)
  }

  lemma {:induction false} DotOnes(v: seq<real>)
    ensures Dot(v, Ones(|v|)) == Sum(v)
  {
    if v != [] {
      DotOnes(v[..|v| - 1]);
      assert Ones(|v|)[..|v| - 1] == Ones(|v| - 1);
    }
  }

  lemma {:induction false} SumOnes(n: nat)
    ensures Sum(Ones(n)) == n as real
  {
    if n > 0 {
      SumOnes(n - 1);
      assert Ones(n)[..n - 1] == Ones(n - 1);
    }
  }

  lemma CenteredCombines(v: seq<real>, m: real, k: real)
    requires k == -m
    ensures Combines(v, k, Ones(|v|), Centered(v, m))
  {
  }

  lemma DotOnesOnes(n: nat)
    ensures Dot(Ones(n), Ones(n)) == n as real
  {
    DotOnes(Ones(n));
    SumOnes(n);
  }

  lemma CenteredSum(v: seq<real>, m: real, k: real)
    requires k == -m
    ensures Dot(Centered(v, m), Ones(|v|)) == Sum(v) + Times(k, |v| as real)
  {
    CenteredCombines(v, m, k);
    DotCombines(v, k, Ones(|v|), Centered(v, m), Ones(|v|));
    DotOnes(v);
    DotOnesOnes(|v|);
  }

  lemma MeanTimesCount(sum: real, n: real, m: real, k: real)
    requires n > 0.0 && m == Quotient(sum, n) && k == -m
    ensures sum + Times(k, n) == 0.0
  {
  }

  /** Deviations from the mean cancel out. */
  lemma CenteredSumsToZero(v: seq<real>)
    requires v != []
    ensures Dot(Centered(v, Mean(v)), Ones(|v|)) == 0.0
  {
    var m := Mean(v);
    CenteredSum(v, m, -m);
    MeanTimesCount(Sum(v), |v| as real, m, -m);
  }

  // ---------------------------------------------------------------- least squares

  ghost predicate Fits(xs: seq<real>, ys: seq<real>, fit: LinearTrend) {
    LinReg(xs, ys) == Success(fit)
  }

  lemma OrthogonalToOnes(v: seq<real>, k: real, u: seq<real>, r: seq<real>, ones: seq<real>)
    requires Combines(v, k, u, r) && |ones| == |r|
    requires Dot(u, ones) == 0.0 && Dot(v, ones) == 0.0
    ensures Dot(r, ones) == 0.0
  {
    DotCombines(v, k, u, r, ones);
  }

  lemma OrthogonalToX(v: seq<real>, k: real, u: seq<real>, r: seq<real>)
    requires Combines(v, k, u, r) && Dot(u, v) + Times(k, Dot(u, u)) == 0.0
    ensures Dot(r, u) == 0.0
  {
    DotCombines(v, k, u, r, u);
    DotCommutes(u, v);
  }

  lemma FitIntercept(xs: seq<real>, ys: seq<real>, fit: LinearTrend)
    requires Fits(xs, ys, fit)
    ensures fit.intercept == Mean(ys) - fit.slope * Mean(xs)
  {
  }

  lemma FitResiduals(xs: seq<real>, ys: seq<real>, fit: LinearTrend)
    requires Fits(xs, ys, fit)
    ensures Combines(Centered(ys, Mean(ys)), -fit.slope, Centered(xs, Mean(xs)), Residuals(xs, ys, fit.slope, fit.intercept))
  {
    FitIntercept(xs, ys, fit);
    LineResiduals(xs, ys, Mean(xs), Mean(ys), fit.slope, fit.intercept);
  }

  lemma LineResiduals(xs: seq<real>, ys: seq<real>, mx: real, my: real, slope: real, intercept: real)
    requires |xs| == |ys| && intercept == my - slope * mx
    ensures Combines(Centered(ys, my), -slope, Centered(xs, mx), Residuals(xs, ys, slope, intercept))
  {
    forall i | 0 <= i < |xs|
      ensures ys[i] - (slope * xs[i] + intercept) == (ys[i] - my) + Times(-slope, xs[i] - mx)
    {
      FitResidual(xs[i], ys[i], mx, my, slope, intercept);
    }
  }

  lemma FitResidual(x: real, y: real, mx: real, my: real, slope: real, intercept: real)
    requires intercept == my - slope * mx
    ensures y - (slope * x + intercept) == (y - my) + Times(-slope, x - mx)
  {
  }

  lemma SlopeTimesSpread(xs: seq<real>, ys: seq<real>, fit: LinearTrend)
    requires Fits(xs, ys, fit)
    ensures Dot(Centered(xs, Mean(xs)), Centered(ys, Mean(ys))) + Times(-fit.slope, Spread(xs, Mean(xs))) == 0.0
  {
  }

  /** The fit's residuals are orthogonal to the constant and to x. */
  lemma NormalEquations(xs: seq<real>, ys: seq<real>, fit: LinearTrend)
    requires Fits(xs, ys, fit)
    ensures
      var r := Residuals(xs, ys, fit.slope, fit.intercept);
      Dot(r, Ones(|xs|)) == 0.0 && Dot(r, Centered(xs, Mean(xs))) == 0.0
  {
    FitResiduals(xs, ys, fit);
    CenteredSumsToZero(xs);
    CenteredSumsToZero(ys);
    SlopeTimesSpread(xs, ys, fit);
    var u, v, r := Centered(xs, Mean(xs)), Centered(ys, Mean(ys)), Residuals(xs, ys, fit.slope, fit.intercept);
    OrthogonalToOnes(v, -fit.slope, u, r, Ones(|xs|));
    OrthogonalToX(v, -fit.slope, u, r);
  }

  /** `g` is the line `e + f * u`. */
  ghost predicate IsLine(e: real, f: real, u: seq<real>, g: seq<real>) {
    |g| == |u| && forall i | 0 <= i < |g| :: g[i] == e + Times(f, u[i])
  }

  lemma DotLine(e: real, f: real, u: seq<real>, g: seq<real>, p: seq<real>)
    requires IsLine(e, f, u, g) && |p| == |g|
    ensures Dot(g, p) == Times(e, Dot(p, Ones(|p|))) + Times(f, Dot(p, u))
  {
    var ones := Ones(|p|);
    var base, zero := seq(|p|, i => e), seq(|p|, i => 0.0);
    assert Combines(base, f, u, g) && Combines(zero, e, ones, base);
    DotCombines(base, f, u, g, p);
    DotCombines(zero, e, ones, base, p);
    DotZero(zero, p);
    DotCommutes(p, ones);
    DotCommutes(p, u);
  }

  lemma DotLineOnes(e: real, f: real, u: seq<real>, g: seq<real>)
    requires IsLine(e, f, u, g) && Dot(u, Ones(|u|)) == 0.0
    ensures Dot(g, Ones(|u|)) == Times(e, |u| as real)
  {
    DotLine(e, f, u, g, Ones(|u|));
    DotOnesOnes(|u|);
    DotCommutes(u, Ones(|u|));
  }

  lemma DotLineX(e: real, f: real, u: seq<real>, g: seq<real>)
    requires IsLine(e, f, u, g) && Dot(u, Ones(|u|)) == 0.0
    ensures Dot(g, u) == Times(f, Dot(u, u))
  {
    DotLine(e, f, u, g, u);
  }

  /** The squares of a line through the mean of x. */
  lemma LineSquares(e: real, f: real, u: seq<real>, g: seq<real>)
    requires IsLine(e, f, u, g) && Dot(u, Ones(|u|)) == 0.0
    ensures Dot(g, g) == Times(e, Times(e, |u| as real)) + Times(f, Times(f, Dot(u, u)))
  {
    DotLine(e, f, u, g, g);
    DotLineOnes(e, f, u, g);
    DotLineX(e, f, u, g);
  }

  lemma {:induction false} DotZero(z: seq<real>, p: seq<real>)
    requires |z| == |p| && forall i | 0 <= i < |z| :: z[i] == 0.0
    ensures Dot(z, p) == 0.0
  {
    if z != [] {
      DotZero(z[..|z| - 1], p[..|p| - 1]);
    }
  }

  lemma Pythagoras(p: seq<real>, g: seq<real>, r: seq<real>)
    requires Combines(p, 1.0, g, r) && Dot(g, p) == 0.0
    ensures Dot(r, r) == Dot(p, p) + Dot(g, g)
  {
    DotCombines(p, 1.0, g, r, r);
    DotCombines(p, 1.0, g, r, p);
    DotCombines(p, 1.0, g, r, g);
    DotCommutes(p, r);
    DotCommutes(g, r);
    DotCommutes(p, g);
  }

  lemma Shift(x: real, y: real, mx: real, my: real, slope: real, intercept: real, b: real, c: real, e: real, f: real, g: real)
    requires intercept == my - slope * mx && e == my - c - b * mx && f == slope - b && g == e + Times(f, x - mx)
    ensures y - (b * x + c) == (y - (slope * x + intercept)) + Times(1.0, g)
  {
  }

  /** The residuals of any line are the fit's plus a line through the mean of x. */
  lemma ResidualsShift(xs: seq<real>, ys: seq<real>, fit: LinearTrend, b: real, c: real, e: real, f: real, g: seq<real>)
    requires Fits(xs, ys, fit) && e == Mean(ys) - c - b * Mean(xs) && f == fit.slope - b
    requires IsLine(e, f, Centered(xs, Mean(xs)), g)
    ensures Combines(Residuals(xs, ys, fit.slope, fit.intercept), 1.0, g, Residuals(xs, ys, b, c))
  {
    var p, r := Residuals(xs, ys, fit.slope, fit.intercept), Residuals(xs, ys, b, c);
    forall i | 0 <= i < |r| ensures r[i] == p[i] + Times(1.0, g[i]) {
      Shift(xs[i], ys[i], Mean(xs), Mean(ys), fit.slope, fit.intercept, b, c, e, f, g[i]);
    }
  }

  /** A line through the mean of x is orthogonal to the fit's residuals. */
  lemma LineOrthogonal(xs: seq<real>, ys: seq<real>, fit: LinearTrend, e: real, f: real, g: seq<real>)
    requires Fits(xs, ys, fit) && IsLine(e, f, Centered(xs, Mean(xs)), g)
    ensures Dot(g, Residuals(xs, ys, fit.slope, fit.intercept)) == 0.0
  {
    NormalEquations(xs, ys, fit);
    DotLine(e, f, Centered(xs, Mean(xs)), g, Residuals(xs, ys, fit.slope, fit.intercept));
  }

  /** The error of any line exceeds the fit's by two squares. */
  lemma ErrorAboutFit(xs: seq<real>, ys: seq<real>, fit: LinearTrend, b: real, c: real, e: real, f: real)
    requires Fits(xs, ys, fit) && e == Mean(ys) - c - b * Mean(xs) && f == fit.slope - b
    ensures Error(xs, ys, b, c) == Error(xs, ys, fit.slope, fit.intercept)
         + Times(e, Times(e, |xs| as real)) + Times(f, Times(f, Spread(xs, Mean(xs))))
  {
    var u := Centered(xs, Mean(xs));
    var g := seq(|xs|, i requires 0 <= i < |xs| => e + Times(f, u[i]));
    CenteredSumsToZero(xs);
    LineSquares(e, f, u, g);
    LineOrthogonal(xs, ys, fit, e, f, g);
    ResidualsShift(xs, ys, fit, b, c, e, f, g);
    Pythagoras(Residuals(xs, ys, fit.slope, fit.intercept), g, Residuals(xs, ys, b, c));
  }

  lemma WeightedSquare(e: real, w: real)
    requires w > 0.0
    ensures Times(e, Times(e, w)) >= 0.0
    ensures Times(e, Times(e, w)) == 0.0 <==> e == 0.0
  {
    var q := Times(e, w);
    SameSign(e, w);
    ProductSign(e, q);
  }

  lemma SameSign(e: real, w: real)
    requires w > 0.0
    ensures e > 0.0 ==> Times(e, w) > 0.0
    ensures e < 0.0 ==> Times(e, w) < 0.0
    ensures e == 0.0 ==> Times(e, w) == 0.0
  {
  }

  /** The fit minimises the squared error over all lines, is the only line that does, and has R-squared in [0, 1]. */
  lemma LeastSquares(xs: seq<real>, ys: seq<real>, fit: LinearTrend, b: real, c: real)
    requires Fits(xs, ys, fit)
    ensures Error(xs, ys, fit.slope, fit.intercept) <= Error(xs, ys, b, c)
    ensures Error(xs, ys, fit.slope, fit.intercept) == Error(xs, ys, b, c) <==> b == fit.slope && c == fit.intercept
    ensures 0.0 <= fit.rSquared <= 1.0
  {
    ErrorAboutFit(xs, ys, fit, b, c, Mean(ys) - c - b * Mean(xs), fit.slope - b);
    DotNonNegative(Centered(xs, Mean(xs)));
    WeightedSquare(Mean(ys) - c - b * Mean(xs), |xs| as real);
    WeightedSquare(fit.slope - b, Spread(xs, Mean(xs)));
    ExplainedShare(xs, ys, fit);
  }

  lemma ExplainedShare(xs: seq<real>, ys: seq<real>, fit: LinearTrend)
    requires Fits(xs, ys, fit)
    ensures 0.0 <= fit.rSquared <= 1.0
  {
    var my := Mean(ys);
    ErrorAboutFit(xs, ys, fit, 0.0, my, 0.0, fit.slope);
    DotNonNegative(Centered(xs, Mean(xs)));
    DotNonNegative(Centered(ys, my));
    DotNonNegative(Residuals(xs, ys, fit.slope, fit.intercept));
    WeightedSquare(fit.slope, Spread(xs, Mean(xs)));
    assert Residuals(xs, ys, 0.0, my) == Centered(ys, my);
    if Spread(ys, my) != 0.0 {
      Share(Error(xs, ys, fit.slope, fit.intercept), Spread(ys, my));
    }
  }

  lemma Share(part: real, whole: real)
    requires 0.0 <= part <= whole && whole > 0.0
    ensures 0.0 <= Quotient(part, whole) <= 1.0
  {
  }

  /** Against the flat line at the mean, the error is the fit's and the slope's share. */
  lemma ErrorSplits(xs: seq<real>, ys: seq<real>, fit: LinearTrend)
    requires Fits(xs, ys, fit)
    ensures
      var error, explained := Error(xs, ys, fit.slope, fit.intercept), Times(fit.slope, Times(fit.slope, Spread(xs, Mean(xs))));
      Spread(ys, Mean(ys)) == error + explained && error >= 0.0 && explained >= 0.0 && (explained == 0.0 <==> fit.slope == 0.0)
  {
    var my := Mean(ys);
    ErrorAboutFit(xs, ys, fit, 0.0, my, 0.0, fit.slope);
    assert Residuals(xs, ys, 0.0, my) == Centered(ys, my);
    DotNonNegative(Centered(xs, Mean(xs)));
    DotNonNegative(Residuals(xs, ys, fit.slope, fit.intercept));
    WeightedSquare(fit.slope, Spread(xs, Mean(xs)));
  }

  /** What R-squared says: the share of the spread of y that the line accounts for. */
  lemma ExplainedExactly(xs: seq<real>, ys: seq<real>, fit: LinearTrend)
    requires Fits(xs, ys, fit)
    ensures fit.rSquared * Spread(ys, Mean(ys)) == Spread(ys, Mean(ys)) - Error(xs, ys, fit.slope, fit.intercept)
    ensures fit.rSquared == 1.0 <==> forall i | 0 <= i < |xs| :: ys[i] == fit.slope * xs[i] + fit.intercept
    ensures (exists i :: 0 <= i < |ys| && ys[i] != ys[0]) ==> (fit.rSquared == 0.0 <==> fit.slope == 0.0)
    ensures (forall i | 0 <= i < |ys| :: ys[i] == ys[0]) ==> fit.rSquared == 1.0
  {
    var error, total := Error(xs, ys, fit.slope, fit.intercept), Spread(ys, Mean(ys));
    ErrorSplits(xs, ys, fit);
    SpreadIsZero(ys);
    ZeroErrorMeansOnLine(xs, ys, fit.slope, fit.intercept);
    assert fit.rSquared == if total != 0.0 then 1.0 - Quotient(error, total) else 1.0;
    if total != 0.0 {
      ShareExactly(error, total);
    }
  }

  lemma ZeroErrorMeansOnLine(xs: seq<real>, ys: seq<real>, b: real, c: real)
    requires |xs| == |ys|
    ensures Error(xs, ys, b, c) == 0.0 <==> forall i | 0 <= i < |xs| :: ys[i] == b * xs[i] + c
  {
    var r := Residuals(xs, ys, b, c);
    DotNonNegative(r);
    forall i | 0 <= i < |xs| ensures r[i] == 0.0 <==> ys[i] == b * xs[i] + c {
    }
    if forall i | 0 <= i < |r| :: r[i] == 0.0 {
      forall i | 0 <= i < |xs| ensures ys[i] == b * xs[i] + c {
        assert r[i] == 0.0;
      }
    }
  }

  lemma ShareExactly(part: real, whole: real)
    requires whole > 0.0
    ensures (1.0 - Quotient(part, whole)) * whole == whole - part
    ensures 1.0 - Quotient(part, whole) == 1.0 <==> part == 0.0
    ensures 1.0 - Quotient(part, whole) == 0.0 <==> part == whole
  {
    var q := Quotient(part, whole);
    assert q * whole == part;
    if part == whole {
      assert Times(q - 1.0, whole) == 0.0;
      SameSign(q - 1.0, whole);
    }
  }

  // ---------------------------------------------------------------- degenerate inputs

  lemma {:induction false} ConstantSum(v: seq<real>, a: real)
    requires forall i | 0 <= i < |v| :: v[i] == a
    ensures Sum(v) == |v| as real * a
  {
    if v != [] {
      ConstantSum(v[..|v| - 1], a);
    }
  }

  lemma MeanOfConstant(n: real, a: real, sum: real)
    requires n > 0.0 && sum == n * a
    ensures Quotient(sum, n) == a
  {
  }

  lemma SpreadIsZero(xs: seq<real>)
    requires xs != []
    ensures Spread(xs, Mean(xs)) == 0.0 <==> forall i | 0 <= i < |xs| :: xs[i] == xs[0]
  {
    var d := Centered(xs, Mean(xs));
    DotNonNegative(d);
    assert forall i | 0 <= i < |xs| :: d[i] == xs[i] - Mean(xs);
    if forall i | 0 <= i < |xs| :: xs[i] == xs[0] {
      ConstantSum(xs, xs[0]);
      MeanOfConstant(|xs| as real, xs[0], Sum(xs));
    } else {
      var i :| 0 <= i < |xs| && xs[i] != xs[0];
      assert d[i] != 0.0 || d[0] != 0.0;
    }
  }

  /** A fit exists exactly for two or more points, as many y as x, that are not all at one x. */
  lemma FitExists(xs: seq<real>, ys: seq<real>)
    ensures LinReg(xs, ys).Success? <==> |xs| == |ys| && |xs| >= 2 && exists i :: 0 <= i < |xs| && xs[i] != xs[0]
  {
    if |xs| == |ys| && |xs| >= 2 {
      SpreadIsZero(xs);
    }
  }

  /** And each way of having none has its own error. */
  lemma NoFitExactlyWhen(xs: seq<real>, ys: seq<real>)
    ensures LinReg(xs, ys) == Failure(LengthMismatch) <==> |xs| != |ys|
    ensures LinReg(xs, ys) == Failure(TooFewPoints) <==> |xs| == |ys| && |xs| < 2
    ensures LinReg(xs, ys) == Failure(AllXEqual) <==>
              |xs| == |ys| && |xs| >= 2 && forall i | 0 <= i < |xs| :: xs[i] == xs[0]
  {
    FitExists(xs, ys);
  }

  // ---------------------------------------------------------------- forecasting

  /** The trend over a series, with the period index as x. */
  function Trend(values: seq<real>): Result<LinearTrend, StatsError> {
    if |values| < 2 then Failure(TooFewPoints)
    else LinReg(seq(|values|, i => i as real), values)
  }

  /** Two or more points always have a trend, and it is their least-squares line. */
  lemma TrendExists(values: seq<real>, b: real, c: real)
    requires |values| >= 2
    ensures Trend(values).Success?
    ensures
      var xs := seq(|values|, i => i as real);
      Error(xs, values, Trend(values).value.slope, Trend(values).value.intercept) <= Error(xs, values, b, c)
  {
    var xs := seq(|values|, i => i as real);
    assert xs[1] != xs[0];
    FitExists(xs, values);
    LeastSquares(xs, values, Trend(values).value, b, c);
  }

  lemma {:induction false} SumOfConcat(a: seq<real>, b: seq<real>)
    ensures Sum(a + b) == Sum(a) + Sum(b)
  {
    if b == [] {
      assert a + b == a;
    } else {
      SumOfConcat(a, b[..|b| - 1]);
      assert (a + b)[..|a + b| - 1] == a + b[..|b| - 1];
    }
  }

  /** The trailing window ending at `i`. */
  function Window(values: seq<real>, window: nat, i: nat): seq<real>
    requires i < |values| && window >= 1
  {
    values[if i + 1 < window then 0 else i + 1 - window..i + 1]
  }

  function WindowMean(values: seq<real>, window: nat, i: nat): real
    requires i < |values| && window >= 1
  {
    Quotient(Sum(Window(values, window, i)), window as real)
  }

  function WindowStart(window: nat, i: nat): nat {
    if i < window then 0 else i - window
  }

  /** Taking in the next value and dropping the one that leaves keeps the running sum that of the window. */
  lemma WindowSlides(values: seq<real>, window: nat, i: nat)
    requires i < |values| && window >= 1
    ensures Sum(Window(values, window, i))
         == Sum(values[WindowStart(window, i)..i]) + values[i] - if i >= window then values[i - window] else 0.0
  {
    var lo := WindowStart(window, i);
    assert values[lo..i + 1][..i - lo] == values[lo..i];
    if i >= window {
      assert values[lo..i + 1] == [values[lo]] + values[lo + 1..i + 1];
      SumOfConcat([values[lo]], values[lo + 1..i + 1]);
      assert [values[lo]][..0] == [];
    }
  }

  /** What position `i` of the moving average shows: nothing until a window has filled. */
  function AverageAt(values: seq<real>, window: nat, i: nat): Option<real>
    requires i < |values| && window >= 1
  {
    if i + 1 < window then None else Some(WindowMean(values, window, i))
  }

  /** What the loop appends at position `i`, given its running sum. */
  function Shown(running: real, window: nat, i: nat): Option<real>
    requires window >= 1
  {
    if i >= window - 1 then Some(Quotient(running, window as real)) else None
  }

  lemma WindowShows(values: seq<real>, window: nat, i: nat, running: real)
    requires i < |values| && window >= 1 && running == Sum(Window(values, window, i))
    ensures Shown(running, window, i) == AverageAt(values, window, i)
    ensures running == Sum(values[WindowStart(window, i + 1)..i + 1])
  {
    assert Window(values, window, i) == values[WindowStart(window, i + 1)..i + 1];
  }

  ghost predicate Averaged(values: seq<real>, window: nat, out: seq<Option<real>>)
    requires window >= 1
  {
    |out| <= |values| && forall i | 0 <= i < |out| :: out[i] == AverageAt(values, window, i)
  }

  lemma AveragedNext(values: seq<real>, window: nat, out: seq<Option<real>>)
    requires window >= 1 && |out| < |values| && Averaged(values, window, out)
    ensures Averaged(values, window, out + [AverageAt(values, window, |out|)])
  {
  }

  lemma AveragedMeans(values: seq<real>, window: nat, out: seq<Option<real>>, i: nat)
    requires window >= 1 && Averaged(values, window, out) && i < |out|
    ensures out[i] == if i + 1 < window then None else Some(Quotient(Sum(values[i + 1 - window..i + 1]), window as real))
  {
  }

  /** Each average is that of the last `window` values; the running sum never drifts from it. */
  method MovingAverage(values: seq<real>, window: int) returns (r: Result<seq<Option<real>>, StatsError>)
    ensures window <= 0 ==> r == Failure(BadWindow)
    ensures window >= 1 ==> r.Success? && |r.value| == |values|
    ensures window >= 1 ==> forall i | 0 <= i < |values| ::
              r.value[i] == if i + 1 < window then None
                            else Some(Quotient(Sum(values[i + 1 - window..i + 1]), window as real))
  {
    if window <= 0 {
      return Failure(BadWindow);
    }
    var out: seq<Option<real>> := [];
    var running := 0.0;
    for i := 0 to |values|
      invariant |out| == i && Averaged(values, window, out)
      invariant running == Sum(values[WindowStart(window, i)..i])
    {
      WindowSlides(values, window, i);
      running := running + values[i];
      if i >= window {
        running := running - values[i - window];
      }
      WindowShows(values, window, i, running);
      AveragedNext(values, window, out);
      out := out + [Shown(running, window, i)];
    }
    forall i | 0 <= i < |values|
      ensures out[i] == if i + 1 < window then None else Some(Quotient(Sum(values[i + 1 - window..i + 1]), window as real))
    {
      AveragedMeans(values, window, out, i);
    }
    return Success(out);
  }
}
