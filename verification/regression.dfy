/** Simple least-squares line fit of `ys` against the positions 0, 1, ..., n-1,
    in closed form over `real`: slope = Sxy / Sxx and intercept = ȳ - slope·x̄,
    where Sxy and Sxx are the centred cross and square sums. The fitting crate
    the source calls is not part of this model; it fails on fewer than two
    points or a zero x-spread, which with positions 0..n-1 is the same thing. */
module Regression {

  datatype Line = Line(slope: real, intercept: real)

  /** The value the line predicts at `x`. */
  function At(l: Line, x: real): real {
    l.slope * x + l.intercept
  }

  /** Σ ys[i], accumulated from the front. */
  function Sum(ys: seq<real>): real {
    if ys == [] then 0.0 else Sum(ys[..|ys| - 1]) + ys[|ys| - 1]
  }

  /** Σ i·ys[i]. */
  function IndexWeightedSum(ys: seq<real>): real {
    if ys == [] then 0.0
    else IndexWeightedSum(ys[..|ys| - 1]) + (|ys| - 1) as real * ys[|ys| - 1]
  }

  /** Σ_{i<n} i. */
  function IndexSum(n: nat): real {
    if n == 0 then 0.0 else IndexSum(n - 1) + (n - 1) as real
  }

  /** Σ_{i<n} i². */
  function IndexSquareSum(n: nat): real {
    if n == 0 then 0.0 else IndexSquareSum(n - 1) + (n - 1) as real * (n - 1) as real
  }

  /** Mean of the positions 0..n-1. */
  function XMean(n: nat): real {
    (n as real - 1.0) / 2.0
  }

  /** Sxx = Σ (i - x̄)² = Σ i² - n·x̄². */
  function Spread(n: nat): real {
    IndexSquareSum(n) - n as real * XMean(n) * XMean(n)
  }

  /** The least-squares line from the sums it depends on: m points with
      position mean xm, Σy = s, Σ i·y = w and Sxx = sxx. */
  function LineFromSums(m: real, xm: real, s: real, w: real, sxx: real): Line
    requires m > 0.0 && sxx > 0.0
  {
    var yMean := s / m;
    var slope := (w - m * xm * yMean) / sxx;
    Line(slope, yMean - slope * xm)
  }

  /** The least-squares fit; the source unwraps the crate's result, so fewer
      than two points is a caller error. */
  function FitLine(ys: seq<real>): Line
    requires |ys| >= 2
  {
    var n := |ys|;
    SpreadPositive(n);
    LineFromSums(n as real, XMean(n), Sum(ys), IndexWeightedSum(ys), Spread(n))
  }

  /** `ys` lies exactly on the line `l`. */
  ghost predicate OnLine(ys: seq<real>, l: Line) {
    forall i :: 0 <= i < |ys| ==> ys[i] == At(l, i as real)
  }

  /** Σ_{i<n} i = n·x̄. */
  lemma {:induction false} IndexSumIsMeanTimesCount(n: nat)
    ensures IndexSum(n) == n as real * XMean(n)
  {
    if n > 0 {
      IndexSumIsMeanTimesCount(n - 1);
    }
  }

  /** Σ_{i<n} i² = (n-1)n(2n-1)/6. */
  lemma {:induction false} IndexSquareSumClosed(n: nat)
    ensures var m := n as real; IndexSquareSum(n) == (m - 1.0) * m * (2.0 * m - 1.0) / 6.0
  {
    if n > 0 {
      IndexSquareSumClosed(n - 1);
      var m := n as real;
      assert (m - 1.0) * m * (2.0 * m - 1.0)
          == (m - 2.0) * (m - 1.0) * (2.0 * m - 3.0) + 6.0 * ((m - 1.0) * (m - 1.0));
    }
  }

  /** Sxx = n(n²-1)/12, positive from two points on. */
  lemma SpreadPositive(n: nat)
    ensures Spread(n) == n as real * (n as real * n as real - 1.0) / 12.0
    ensures n >= 2 ==> Spread(n) > 0.0
  {
    IndexSquareSumClosed(n);
    var m := n as real;
    SpreadPolynomial(m);
    if n >= 2 {
      assert m * m >= 4.0;
      assert m * (m * m - 1.0) >= 6.0;
    }
  }

  lemma SpreadPolynomial(m: real)
    ensures (m - 1.0) * m * (2.0 * m - 1.0) / 6.0 - m * ((m - 1.0) / 2.0) * ((m - 1.0) / 2.0)
         == m * (m * m - 1.0) / 12.0
    ensures m * (m - 1.0) / 2.0 == m * ((m - 1.0) / 2.0)
  {
  }

  /** The least-squares normal equations of line `l`, over the sums they
      depend on: m points, Σy = s, Σ i·y = w, Σ i = i and Σ i² = q. */
  predicate NormalEqs(m: real, s: real, w: real, i: real, q: real, l: Line) {
    && s - l.slope * i - m * l.intercept == 0.0
    && w - l.slope * q - l.intercept * i == 0.0
  }

  /** The normal equations of `l` for `ys`. */
  predicate NormalSums(ys: seq<real>, l: Line) {
    NormalEqs(|ys| as real, Sum(ys), IndexWeightedSum(ys), IndexSum(|ys|), IndexSquareSum(|ys|), l)
  }

  /** The algebra behind the normal equations, over plain reals: with
      I = Σ i = m·x̄ and Q - m·x̄² = Sxx, the line built from the sums
      satisfies the normal equations. */
  lemma NormalAlgebra(m: real, xm: real, s: real, w: real, i: real, q: real, sxx: real)
    requires m > 0.0 && sxx > 0.0
    requires i == m * xm && q - m * xm * xm == sxx
    ensures NormalEqs(m, s, w, i, q, LineFromSums(m, xm, s, w, sxx))
  {
    var ym := s / m;
    assert ym * m == s;
    var slope := (w - m * xm * ym) / sxx;
    assert slope * sxx == w - m * xm * ym;
    assert w - slope * q - (ym - slope * xm) * i
        == (w - m * xm * ym) - slope * (q - m * xm * xm);
  }

  /** The algebra behind exactness on lines, over plain reals: the normal
      equations have only one solution, the line built from the sums. */
  lemma LineAlgebra(m: real, xm: real, s: real, w: real, i: real, q: real, sxx: real, l: Line)
    requires m > 0.0 && sxx > 0.0
    requires i == m * xm && q - m * xm * xm == sxx
    requires NormalEqs(m, s, w, i, q, l)
    ensures LineFromSums(m, xm, s, w, sxx) == l
  {
    var a, b := l.slope, l.intercept;
    assert s == m * (a * xm + b);
    assert s / m == a * xm + b;
    assert w - m * xm * (a * xm + b) == a * sxx;
  }

  /** The fitted line satisfies the normal equations. */
  lemma {:induction false} FitLineSums(ys: seq<real>)
    requires |ys| >= 2
    ensures NormalSums(ys, FitLine(ys))
  {
    var n := |ys|;
    IndexSumIsMeanTimesCount(n);
    SpreadPositive(n);
    NormalAlgebra(n as real, XMean(n), Sum(ys), IndexWeightedSum(ys), IndexSum(n), IndexSquareSum(n), Spread(n));
  }

  /** A line satisfying the normal equations is the fitted line. */
  lemma {:induction false} FitLineUnique(ys: seq<real>, l: Line)
    requires |ys| >= 2
    requires NormalSums(ys, l)
    ensures FitLine(ys) == l
  {
    var n := |ys|;
    IndexSumIsMeanTimesCount(n);
    SpreadPositive(n);
    LineAlgebra(n as real, XMean(n), Sum(ys), IndexWeightedSum(ys), IndexSum(n), IndexSquareSum(n), Spread(n), l);
  }

  /** The fitted line is exactly the line satisfying the normal equations. */
  lemma {:induction false} FitLineCharacterised(ys: seq<real>, l: Line)
    requires |ys| >= 2
    ensures FitLine(ys) == l <==> NormalSums(ys, l)
  {
    FitLineSums(ys);
    if NormalSums(ys, l) {
      FitLineUnique(ys, l);
    }
  }

  /** One more point on the line keeps the normal equations: with m points
      so far, the new point sits at position x = m with value y = l(x), and
      the primed sums are the old ones extended by it. */
  lemma StepAlgebra(m: real, s: real, w: real, i: real, q: real, l: Line, x: real, y: real,
                    m': real, s': real, w': real, i': real, q': real)
    requires NormalEqs(m, s, w, i, q, l)
    requires x == m && y == l.slope * x + l.intercept
    requires m' == m + 1.0 && s' == s + y && w' == w + x * y && i' == i + x && q' == q + x * x
    ensures NormalEqs(m', s', w', i', q', l)
  {
    assert x * y == l.slope * (x * x) + l.intercept * x;
  }

  /** Points exactly on a line satisfy that line's normal equations. */
  lemma {:induction false} OnLineSums(ys: seq<real>, l: Line)
    requires OnLine(ys, l)
    ensures NormalSums(ys, l)
  {
    if ys != [] {
      var n := |ys|;
      var p := ys[..n - 1];
      assert OnLine(p, l);
      OnLineSums(p, l);
      StepAlgebra((n - 1) as real, Sum(p), IndexWeightedSum(p), IndexSum(n - 1), IndexSquareSum(n - 1), l,
                  (n - 1) as real, ys[n - 1],
                  n as real, Sum(ys), IndexWeightedSum(ys), IndexSum(n), IndexSquareSum(n));
    }
  }
}
