/**
 * The mathematics of the elastic-net jobs (mr_glmRegInitialize.py, mr_glmRegInitialize2.py and
 * mr_glmRegIterate.py), over exact reals: scale factors, the starting penalty and one update of the coefficients.
 *
 * The theorems say what the numbers are for: standardised columns, the least penalty that keeps every coefficient
 * at zero, and coefficients that each minimise the penalised squared error along their own axis.
 */
module ElasticNet {
  type Vector = seq<real>

  // -------------------------------------------------------------------------------------------
  // Sums over a column
  // -------------------------------------------------------------------------------------------

  function Sum(v: Vector): real {
    if v == [] then 0.0 else Sum(v[..|v| - 1]) + v[|v| - 1]
  }

  function Dot(v: Vector, w: Vector): real
    requires |v| == |w|
  {
    if v == [] then 0.0 else Dot(v[..|v| - 1], w[..|w| - 1]) + v[|v| - 1] * w[|w| - 1]
  }

  function Less(v: Vector, m: real): (w: Vector)
    ensures |w| == |v| && forall i :: 0 <= i < |v| ==> w[i] == v[i] - m
  {
    seq(|v|, i requires 0 <= i < |v| => v[i] - m)
  }

  function Over(v: Vector, d: real): (w: Vector)
    requires d != 0.0
    ensures |w| == |v| && forall i :: 0 <= i < |v| ==> w[i] == v[i] / d
  {
    seq(|v|, i requires 0 <= i < |v| => v[i] / d)
  }

  /** r - t * x. */
  function Along(r: Vector, x: Vector, t: real): (w: Vector)
    requires |r| == |x|
    ensures |w| == |r| && forall i :: 0 <= i < |r| ==> w[i] == r[i] - t * x[i]
  {
    seq(|r|, i requires 0 <= i < |r| => r[i] - t * x[i])
  }

  function Times(x: real, y: real): real {
    x * y
  }

  lemma PositiveTimes(x: real, y: real)
    requires x > 0.0 && y > 0.0
    ensures Times(x, y) > 0.0
  {
  }

  lemma Square(x: real)
    ensures Times(x, x) >= 0.0 && (Times(x, x) == 0.0 <==> x == 0.0)
  {
    if x > 0.0 {
      PositiveTimes(x, x);
    } else if x < 0.0 {
      PositiveTimes(-x, -x);
    }
  }

  lemma {:induction false} SquareNonNegative(v: Vector)
    ensures Dot(v, v) >= 0.0
    ensures Dot(v, v) == 0.0 <==> forall i :: 0 <= i < |v| ==> v[i] == 0.0
    decreases |v|
  {
    if v != [] {
      var n := |v| - 1;
      var x := v[n];
      SquareNonNegative(v[..n]);
      Square(x);
      assert Dot(v, v) == Dot(v[..n], v[..n]) + Times(x, x);
      hide Times;
      if Dot(v, v) == 0.0 {
        assert Times(x, x) == 0.0 && Dot(v[..n], v[..n]) == 0.0;
        forall i | 0 <= i < |v| ensures v[i] == 0.0 {
          if i < n { assert v[..n][i] == v[i]; } else { assert v[i] == x; }
        }
      }
    }
  }

  lemma {:induction false} Deviations(v: Vector, m: real)
    ensures Dot(Less(v, m), Less(v, m)) == Dot(v, v) - 2.0 * (m * Sum(v)) + |v| as real * (m * m)
    decreases |v|
  {
    if v != [] {
      var n := |v| - 1;
      Deviations(v[..n], m);
      assert Less(v, m)[..n] == Less(v[..n], m);
      DeviationStep(v[n], m, Sum(v[..n]), n);
    }
  }

  lemma DeviationStep(x: real, m: real, s: real, n: nat)
    ensures (x - m) * (x - m) == x * x - 2.0 * (m * x) + m * m
    ensures m * (s + x) == m * s + m * x
    ensures (n + 1) as real * (m * m) == n as real * (m * m) + m * m
  {
  }

  lemma {:induction false} Rescaled(v: Vector, d: real)
    requires d != 0.0
    ensures Dot(Over(v, d), Over(v, d)) * Times(d, d) == Dot(v, v)
    decreases |v|
  {
    if v != [] {
      var n := |v| - 1;
      Rescaled(v[..n], d);
      var w := Over(v, d);
      assert w[..n] == Over(v[..n], d);
      RescaleStep(v[n], w[n], d, Dot(w[..n], w[..n]));
    }
  }

  lemma RescaleStep(x: real, y: real, d: real, s: real)
    requires d != 0.0 && y == x / d
    ensures (s + y * y) * Times(d, d) == s * Times(d, d) + x * x
  {
    assert y * d == x;
    assert (y * y) * (d * d) == (y * d) * (y * d);
  }

  function Error(q: real, p: real, xx: real, t: real): real {
    q - 2.0 * (t * p) + (t * t) * xx
  }

  /** Squared error as the coefficient of one column moves by `t`. */
  lemma {:induction false} ErrorAlong(r: Vector, x: Vector, t: real)
    requires |r| == |x|
    ensures Dot(Along(r, x, t), Along(r, x, t)) == Error(Dot(r, r), Dot(x, r), Dot(x, x), t)
    decreases |r|
  {
    if r == [] {
      NoError(r, x, t);
    } else {
      var n := |r| - 1;
      ErrorAlong(r[..n], x[..n], t);
      AlongPrefix(r, x, t);
      hide Dot, Along, Error;
      ErrorSnoc(Along(r, x, t), r, x, t);
    }
  }

  lemma {:induction false} ErrorSnoc(w: Vector, r: Vector, x: Vector, t: real)
    requires |w| == |r| == |x| > 0
    requires var n := |r| - 1;
      && w[n] == r[n] - t * x[n]
      && Dot(w[..n], w[..n]) == Error(Dot(r[..n], r[..n]), Dot(x[..n], r[..n]), Dot(x[..n], x[..n]), t)
    ensures Dot(w, w) == Error(Dot(r, r), Dot(x, r), Dot(x, x), t)
  {
    var n := |r| - 1;
    DotSnoc(w, w);
    DotSnoc(r, r);
    DotSnoc(x, r);
    DotSnoc(x, x);
    hide Dot, Error;
    ErrorStep(r[n], x[n], t, w[n], Dot(r[..n], r[..n]), Dot(x[..n], r[..n]), Dot(x[..n], x[..n]), Dot(r, r),
        Dot(x, r), Dot(x, x));
  }

  lemma {:induction false} NoError(r: Vector, x: Vector, t: real)
    requires r == [] && x == []
    ensures Dot(Along(r, x, t), Along(r, x, t)) == Error(Dot(r, r), Dot(x, r), Dot(x, x), t)
  {
  }

  lemma {:induction false} DotSnoc(v: Vector, w: Vector)
    requires |v| == |w| > 0
    ensures Dot(v, w) == Dot(v[..|v| - 1], w[..|v| - 1]) + v[|v| - 1] * w[|v| - 1]
  {
  }

  lemma AlongPrefix(r: Vector, x: Vector, t: real)
    requires |r| == |x| > 0
    ensures var n := |r| - 1;
      Along(r, x, t)[..n] == Along(r[..n], x[..n], t) && Along(r, x, t)[n] == r[n] - t * x[n]
  {
    var n := |r| - 1;
    var w, u := Along(r, x, t), Along(r[..n], x[..n], t);
    forall i | 0 <= i < n ensures w[i] == u[i] {
      assert r[..n][i] == r[i] && x[..n][i] == x[i];
    }
  }

  lemma ErrorStep(r: real, x: real, t: real, w: real, q: real, p: real, xx: real, q1: real, p1: real, xx1: real)
    requires w == r - t * x && q1 == q + r * r && p1 == p + x * r && xx1 == xx + x * x
    ensures Error(q, p, xx, t) + w * w == Error(q1, p1, xx1, t)
  {
    assert (r - t * x) * (r - t * x) == r * r - 2.0 * (t * (x * r)) + (t * t) * (x * x);
    assert t * (p + x * r) == t * p + t * (x * r);
    assert (t * t) * (xx + x * x) == (t * t) * xx + (t * t) * (x * x);
  }

  // -------------------------------------------------------------------------------------------
  // The soft threshold
  // -------------------------------------------------------------------------------------------

  function Abs(x: real): (a: real)
    ensures a >= x && a >= -x && (a == x || a == -x)
  {
    if x < 0.0 then -x else x
  }

  /** S. */
  function S(z: real, gamma: real): real {
    if gamma >= Abs(z) then 0.0 else if z > 0.0 then z - gamma else z + gamma
  }

  function NewBeta(z: real, lam: real, alpha: real): real
    requires lam >= 0.0 && 0.0 <= alpha <= 1.0
  {
    PenaltyFactor(lam, alpha);
    S(z, lam * alpha) / (1.0 + lam * (1.0 - alpha))
  }

  lemma PenaltyFactor(lam: real, alpha: real)
    requires lam >= 0.0 && 0.0 <= alpha <= 1.0
    ensures lam * alpha >= 0.0 && 1.0 + lam * (1.0 - alpha) >= 1.0
  {
  }

  function HalfSquare(x: real): (h: real)
    ensures h >= 0.0 && (h == 0.0 <==> x == 0.0)
  {
    Square(x);
    Times(x, x) / 2.0
  }

  function Penalty(b: real, lam: real, alpha: real): real {
    lam * alpha * Abs(b) + lam * (1.0 - alpha) * (b * b) / 2.0
  }

  /** The elastic-net objective in one coefficient. */
  function Objective(b: real, z: real, lam: real, alpha: real): real {
    HalfSquare(b - z) + Penalty(b, lam, alpha)
  }

  /** The update is the unique minimiser, and with room to spare: the objective grows at least like a parabola. */
  lemma UpdateMinimises(z: real, lam: real, alpha: real, b: real)
    requires lam >= 0.0 && 0.0 <= alpha <= 1.0
    ensures var best := NewBeta(z, lam, alpha);
      && Objective(b, z, lam, alpha) >= Objective(best, z, lam, alpha) + HalfSquare(b - best)
      && (b != best ==> Objective(b, z, lam, alpha) > Objective(best, z, lam, alpha))
  {
    PenaltyFactor(lam, alpha);
    var g, c := lam * alpha, 1.0 + lam * (1.0 - alpha);
    var best := NewBeta(z, lam, alpha);
    Expanded(b, z, lam, alpha, g, c);
    Expanded(best, z, lam, alpha, g, c);
    Quotient(S(z, g), c);
    hide NewBeta, Objective, HalfSquare, S;
    GapInSquares(z, g, c, b, best);
  }

  lemma Quotient(a: real, c: real)
    requires c >= 1.0
    ensures a / c * c == a
  {
  }

  lemma Expanded(b: real, z: real, lam: real, alpha: real, g: real, c: real)
    requires g == lam * alpha && c == 1.0 + lam * (1.0 - alpha)
    ensures Objective(b, z, lam, alpha) == c * (b * b) / 2.0 - z * b + g * Abs(b) + z * z / 2.0
  {
    assert (b - z) * (b - z) == b * b - 2.0 * (z * b) + z * z;
    assert c * (b * b) == b * b + lam * (1.0 - alpha) * (b * b);
  }

  lemma GapInSquares(z: real, g: real, c: real, b: real, best: real)
    requires g >= 0.0 && c >= 1.0 && best * c == S(z, g)
    ensures c * (b * b) / 2.0 - z * b + g * Abs(b) >=
            c * (best * best) / 2.0 - z * best + g * Abs(best) + HalfSquare(b - best)
  {
    Gap(z, g, c, b, best);
    HalfSquareIs(b - best);
    hide HalfSquare, S, Abs;
  }

  lemma HalfSquareIs(x: real)
    ensures HalfSquare(x) == x * x / 2.0
  {
  }

  /** The objective's square terms at `b`, seen from the point where its slope would be `k` less. */
  lemma Parabola(c: real, b: real, best: real, k: real)
    requires best * c == k
    ensures c * (b * b) / 2.0 == c * (best * best) / 2.0 + k * (b - best) + c * ((b - best) * (b - best)) / 2.0
  {
    var d := b - best;
    assert b * b == best * best + 2.0 * (best * d) + d * d;
    assert c * (best * d) == k * d;
    assert c * (b * b) == c * (best * best) + 2.0 * (c * (best * d)) + c * (d * d);
  }

  lemma AtLeastOnce(c: real, x: real)
    requires c >= 1.0 && x >= 0.0
    ensures c * x >= x
  {
    var e := c - 1.0;
    assert c * x == e * x + x;
  }

  /** What the absolute value adds makes up for the slope. */
  lemma Slope(z: real, g: real, k: real, b: real, best: real)
    requires g >= 0.0 && k == S(z, g)
    requires (best > 0.0 <==> k > 0.0) && (best < 0.0 <==> k < 0.0)
    ensures (k - z) * (b - best) + g * (Abs(b) - Abs(best)) >= 0.0
  {
    if g >= Abs(z) {
      NoSteeper(z, g, b);
      assert (k - z) * (b - best) == -(z * b);
    } else if z > 0.0 {
      NonNegativeTimes(g, Abs(b) - b);
      assert (k - z) * (b - best) == -(g * b) + g * best;
      assert g * (Abs(b) - Abs(best)) == g * Abs(b) - g * best;
    } else {
      NonNegativeTimes(g, Abs(b) + b);
      assert (k - z) * (b - best) == g * b - g * best;
      assert g * (Abs(b) - Abs(best)) == g * Abs(b) + g * best;
    }
  }

  lemma NonNegativeTimes(x: real, y: real)
    requires x >= 0.0 && y >= 0.0
    ensures x * y >= 0.0
  {
  }

  lemma NoSteeper(z: real, g: real, b: real)
    requires g >= Abs(z)
    ensures g * Abs(b) - z * b >= 0.0
  {
    NonNegativeTimes(g - Abs(z), Abs(b));
    assert (g - Abs(z)) * Abs(b) == g * Abs(b) - Abs(z) * Abs(b);
    if z >= 0.0 {
      NonNegativeTimes(z, Abs(b) - b);
      assert z * (Abs(b) - b) == Abs(z) * Abs(b) - z * b;
    } else {
      NonNegativeTimes(-z, Abs(b) + b);
      assert (-z) * (Abs(b) + b) == Abs(z) * Abs(b) - z * b;
    }
  }

  lemma SameSign(best: real, c: real)
    requires c >= 1.0
    ensures (best > 0.0 <==> best * c > 0.0) && (best < 0.0 <==> best * c < 0.0)
  {
    Signs(best, c);
  }

  lemma Gap(z: real, g: real, c: real, b: real, best: real)
    requires g >= 0.0 && c >= 1.0 && best * c == S(z, g)
    ensures c * (b * b) / 2.0 - z * b + g * Abs(b) >=
            c * (best * best) / 2.0 - z * best + g * Abs(best) + (b - best) * (b - best) / 2.0
  {
    var k := S(z, g);
    SameSign(best, c);
    Slope(z, g, k, b, best);
    Parabola(c, b, best, k);
    Square(b - best);
    TimesIs(b - best);
    AtLeastOnce(c, (b - best) * (b - best));
    hide S, Abs, Times;
    GapSum(c * (b * b) / 2.0, c * (best * best) / 2.0, z, g, k, b, best, Abs(b), Abs(best),
           c * ((b - best) * (b - best)), (b - best) * (b - best));
  }

  lemma TimesIs(x: real)
    ensures Times(x, x) == x * x
  {
  }

  lemma GapSum(cb: real, cbest: real, z: real, g: real, k: real, b: real, best: real, ab: real, abest: real, cd: real,
      d: real)
    requires cb == cbest + k * (b - best) + cd / 2.0 && cd >= d
    requires (k - z) * (b - best) + g * (ab - abest) >= 0.0
    ensures cb - z * b + g * ab >= cbest - z * best + g * abest + d / 2.0
  {
    assert (k - z) * (b - best) == k * (b - best) - z * b + z * best;
    assert g * (ab - abest) == g * ab - g * abest;
  }

  // -------------------------------------------------------------------------------------------
  // Rows, columns and scale factors
  // -------------------------------------------------------------------------------------------

  datatype Row = Row(y: real, x: Vector)

  /** Means and standard deviations. */
  datatype Scale = Scale(meanY: real, meanX: Vector, sd: Vector)

  predicate Wide(rows: seq<Row>, dim: nat) {
    forall i :: 0 <= i < |rows| ==> |rows[i].x| == dim
  }

  function Column(rows: seq<Row>, dim: nat, j: nat): (v: Vector)
    requires Wide(rows, dim) && j < dim
    ensures |v| == |rows| && forall i :: 0 <= i < |rows| ==> v[i] == rows[i].x[j]
  {
    seq(|rows|, i requires 0 <= i < |rows| => rows[i].x[j])
  }

  function Targets(rows: seq<Row>): (v: Vector)
    ensures |v| == |rows| && forall i :: 0 <= i < |rows| ==> v[i] == rows[i].y
  {
    seq(|rows|, i requires 0 <= i < |rows| => rows[i].y)
  }

  function Mean(v: Vector): real
    requires v != []
  {
    Sum(v) / |v| as real
  }

  function VarianceFrom(sumSq: real, mean: real, n: nat): real
    requires n > 0
  {
    sumSq / n as real - mean * mean
  }

  /** Mean of squares minus square of mean, as the first job computes it. */
  function Variance(v: Vector): real
    requires v != []
  {
    VarianceFrom(Dot(v, v), Mean(v), |v|)
  }

  /** It is the mean squared deviation: never negative, and zero only for a constant column. */
  lemma VarianceIsMeanDeviation(v: Vector)
    requires v != []
    ensures var w := Less(v, Mean(v));
      && Variance(v) * |v| as real == Dot(w, w)
      && Variance(v) >= 0.0
      && (Variance(v) == 0.0 <==> forall i :: 0 <= i < |v| ==> v[i] == Mean(v))
  {
    var m, w := Mean(v), Less(v, Mean(v));
    Deviations(v, m);
    SquareNonNegative(w);
    ZeroDeviations(v, m);
    hide Dot, Sum, Less, VarianceFrom;
    VarianceStep(Dot(v, v), Sum(v), m, |v|, Dot(w, w));
  }

  lemma ZeroDeviations(v: Vector, m: real)
    ensures (forall i :: 0 <= i < |v| ==> Less(v, m)[i] == 0.0) <==> forall i :: 0 <= i < |v| ==> v[i] == m
  {
    var w := Less(v, m);
    assert forall i :: 0 <= i < |v| ==> (w[i] == 0.0 <==> v[i] == m);
  }

  lemma VarianceStep(q: real, s: real, m: real, size: nat, d: real)
    requires size > 0 && m == s / size as real && d >= 0.0
    requires d == q - 2.0 * (m * s) + size as real * (m * m)
    ensures var e := VarianceFrom(q, m, size);
      e * size as real == d && e >= 0.0 && (e == 0.0 <==> d == 0.0)
  {
    var n := size as real;
    var e := VarianceFrom(q, m, size);
    assert s == n * m;
    assert m * s == n * (m * m);
    assert q / n * n == q;
    assert e * n == q - (m * m) * n;
    Signs(e, n);
  }

  lemma Signs(e: real, n: real)
    requires n > 0.0
    ensures (e < 0.0 <==> e * n < 0.0) && (e > 0.0 <==> e * n > 0.0)
  {
    if e > 0.0 {
      assert e * n > 0.0;
    } else if e < 0.0 {
      assert (-e) * n > 0.0;
    }
  }

  /** Scale factors that the first job computes: the source takes the square roots. */
  ghost predicate ScaleOf(s: Scale, rows: seq<Row>, dim: nat)
    requires Wide(rows, dim) && rows != []
  {
    && |s.meanX| == |s.sd| == dim
    && s.meanY == Mean(Targets(rows))
    && forall j :: 0 <= j < dim ==>
         s.meanX[j] == Mean(Column(rows, dim, j)) && s.sd[j] >= 0.0
             && Times(s.sd[j], s.sd[j]) == Variance(Column(rows, dim, j))
  }

  /** Scale factors that can be divided by. */
  predicate Usable(s: Scale, dim: nat) {
    |s.meanX| == |s.sd| == dim && forall j :: 0 <= j < dim ==> s.sd[j] != 0.0
  }

  /** One row, centred and scaled. */
  function Scaled(x: Vector, s: Scale): (r: Vector)
    requires Usable(s, |x|)
    ensures |r| == |x| && forall j :: 0 <= j < |x| ==> r[j] == (x[j] - s.meanX[j]) / s.sd[j]
  {
    seq(|x|, j requires 0 <= j < |x| => (x[j] - s.meanX[j]) / s.sd[j])
  }

  function ScaledColumn(rows: seq<Row>, s: Scale, dim: nat, j: nat): (v: Vector)
    requires Wide(rows, dim) && Usable(s, dim) && j < dim
    ensures |v| == |rows| && forall i :: 0 <= i < |rows| ==> v[i] == Scaled(rows[i].x, s)[j]
  {
    seq(|rows|, i requires 0 <= i < |rows| => Scaled(rows[i].x, s)[j])
  }

  /** With the computed scale factors, the squares of a standardised column add up to the number of rows. */
  lemma Standardised(rows: seq<Row>, s: Scale, dim: nat, j: nat)
    requires Wide(rows, dim) && rows != [] && ScaleOf(s, rows, dim) && Usable(s, dim) && j < dim
    ensures var v := ScaledColumn(rows, s, dim, j);
      Dot(v, v) == |rows| as real
  {
    var c := Column(rows, dim, j);
    var w := Less(c, Mean(c));
    var d := s.sd[j];
    ScaledIsOver(rows, s, dim, j);
    hide Dot, Sum, Mean, Variance, Less, Over, ScaledColumn, Times;
    Rescaled(w, d);
    VarianceIsMeanDeviation(c);
    Square(d);
    Cancel(Dot(Over(w, d), Over(w, d)), |rows| as real, Variance(c));
  }

  lemma ScaledIsOver(rows: seq<Row>, s: Scale, dim: nat, j: nat)
    requires Wide(rows, dim) && Usable(s, dim) && j < dim
    ensures ScaledColumn(rows, s, dim, j) == Over(Less(Column(rows, dim, j), s.meanX[j]), s.sd[j])
  {
    var u, v := ScaledColumn(rows, s, dim, j), Over(Less(Column(rows, dim, j), s.meanX[j]), s.sd[j]);
    forall i | 0 <= i < |rows| ensures u[i] == v[i] {
    }
  }

  lemma Cancel(a: real, b: real, c: real)
    requires c > 0.0 && a * c == c * b
    ensures a == b
  {
    var e := a - b;
    assert e * c == a * c - b * c;
    Signs(e, c);
  }

  // -------------------------------------------------------------------------------------------
  // Residuals and one update
  // -------------------------------------------------------------------------------------------

  function Residual(row: Row, s: Scale, beta: Vector): real
    requires Usable(s, |row.x|) && |beta| == |row.x|
  {
    row.y - s.meanY - Dot(Scaled(row.x, s), beta)
  }

  function Residuals(rows: seq<Row>, s: Scale, dim: nat, beta: Vector): (r: Vector)
    requires Wide(rows, dim) && Usable(s, dim) && |beta| == dim
    ensures |r| == |rows| && forall i :: 0 <= i < |rows| ==> r[i] == Residual(rows[i], s, beta)
  {
    seq(|rows|, i requires 0 <= i < |rows| => Residual(rows[i], s, beta))
  }

  function HalfMean(e: real, n: nat): real
    requires n > 0
  {
    e / (2.0 * n as real)
  }

  function Share(p: real, n: nat): real
    requires n > 0
  {
    p / n as real
  }

  /** The sum that both later jobs collect for coefficient `j`. */
  function Product(rows: seq<Row>, s: Scale, dim: nat, beta: Vector, j: nat): real
    requires Wide(rows, dim) && Usable(s, dim) && |beta| == dim && j < dim
  {
    Dot(ScaledColumn(rows, s, dim, j), Residuals(rows, s, dim, beta))
  }

  /** New value of coefficient `j`. */
  function Updated(rows: seq<Row>, s: Scale, dim: nat, beta: Vector, lam: real, alpha: real, j: nat): real
    requires Wide(rows, dim) && rows != [] && Usable(s, dim) && |beta| == dim && j < dim
    requires lam >= 0.0 && 0.0 <= alpha <= 1.0
  {
    NewBeta(Share(Product(rows, s, dim, beta, j), |rows|) + beta[j], lam, alpha)
  }

  /** Half the mean squared error, with the penalty on coefficient `j`, when that coefficient is `b` and the others
      are as in `beta`. */
  function Loss(rows: seq<Row>, s: Scale, dim: nat, beta: Vector, lam: real, alpha: real, j: nat, b: real): real
    requires Wide(rows, dim) && rows != [] && Usable(s, dim) && |beta| == dim && j < dim
  {
    var e := Residuals(rows, s, dim, beta[j := b]);
    HalfMean(Dot(e, e), |rows|) + Penalty(b, lam, alpha)
  }

  lemma {:induction false} DotChange(x: Vector, beta: Vector, j: nat, b: real)
    requires |x| == |beta| && j < |beta|
    ensures Dot(x, beta[j := b]) == Dot(x, beta) + (b - beta[j]) * x[j]
    decreases |x|
  {
    var n := |x| - 1;
    var c := beta[j := b];
    if j < n {
      assert c[..n] == beta[..n][j := b];
      DotChange(x[..n], beta[..n], j, b);
    } else {
      assert c[..n] == beta[..n];
      assert x[n] * b == x[n] * beta[j] + (b - beta[j]) * x[n];
    }
  }

  lemma ResidualsAlong(rows: seq<Row>, s: Scale, dim: nat, beta: Vector, j: nat, b: real)
    requires Wide(rows, dim) && Usable(s, dim) && |beta| == dim && j < dim
    ensures Residuals(rows, s, dim, beta[j := b]) ==
            Along(Residuals(rows, s, dim, beta), ScaledColumn(rows, s, dim, j), b - beta[j])
  {
    var e, f := Residuals(rows, s, dim, beta[j := b]),
        Along(Residuals(rows, s, dim, beta), ScaledColumn(rows, s, dim, j), b - beta[j]);
    forall i | 0 <= i < |rows| ensures e[i] == f[i] {
      DotChange(Scaled(rows[i].x, s), beta, j, b);
    }
  }

  /** On a standardised column the loss along one axis is the one-dimensional objective, up to a constant. */
  lemma LossIsObjective(rows: seq<Row>, s: Scale, dim: nat, beta: Vector, lam: real, alpha: real, j: nat, b: real)
    requires Wide(rows, dim) && rows != [] && ScaleOf(s, rows, dim) && Usable(s, dim) && |beta| == dim && j < dim
    ensures var p := Product(rows, s, dim, beta, j);
      var r := Residuals(rows, s, dim, beta);
      Loss(rows, s, dim, beta, lam, alpha, j, b) ==
      Objective(b, Share(p, |rows|) + beta[j], lam, alpha) + Offset(Dot(r, r), p, |rows|)
  {
    hide Residuals, ScaledColumn, Dot, Along, Penalty, HalfSquare, HalfMean, Share, Offset, Error, Variance, Sum,
        Mean, Times;
    hide ScaleOf, Usable, Wide;
    var r := Residuals(rows, s, dim, beta);
    var x := ScaledColumn(rows, s, dim, j);
    var t := b - beta[j];
    ResidualsAlong(rows, s, dim, beta, j, b);
    ErrorAlong(r, x, t);
    Standardised(rows, s, dim, j);
    CompleteSquare(Dot(r, r), Dot(x, r), |rows|, t);
    assert b - (Share(Dot(x, r), |rows|) + beta[j]) == t - Share(Dot(x, r), |rows|);
  }

  /** The part of the loss that the coefficient has no say in. */
  function Offset(q: real, p: real, n: nat): real
    requires n > 0
  {
    (q / n as real - Share(p, n) * Share(p, n)) / 2.0
  }

  lemma CompleteSquare(q: real, pn: real, size: nat, t: real)
    requires size > 0
    ensures HalfMean(Error(q, pn, size as real, t), size) == HalfSquare(t - Share(pn, size)) + Offset(q, pn, size)
  {
    var n := size as real;
    var p, a := pn / n, q / n;
    assert pn == p * n && q == a * n;
    assert t * pn == (t * p) * n;
    Half(a, t * p, t * t, n);
    HalfSquareIs(t - p);
    assert (t - p) * (t - p) == t * t - 2.0 * (t * p) + p * p;
  }

  lemma Half(a: real, b: real, c: real, n: real)
    requires n > 0.0
    ensures (a * n - 2.0 * (b * n) + c * n) / (2.0 * n) == (a - 2.0 * b + c) / 2.0
  {
    assert a * n - 2.0 * (b * n) + c * n == (a - 2.0 * b + c) / 2.0 * (2.0 * n);
  }

  /** Every updated coefficient is the unique minimiser of the penalised squared error along its axis. */
  lemma UpdateMinimisesLoss(rows: seq<Row>, s: Scale, dim: nat, beta: Vector, lam: real, alpha: real, j: nat, b: real)
    requires Wide(rows, dim) && rows != [] && ScaleOf(s, rows, dim) && Usable(s, dim) && |beta| == dim && j < dim
    requires lam >= 0.0 && 0.0 <= alpha <= 1.0
    requires b != Updated(rows, s, dim, beta, lam, alpha, j)
    ensures Loss(rows, s, dim, beta, lam, alpha, j, b) >
            Loss(rows, s, dim, beta, lam, alpha, j, Updated(rows, s, dim, beta, lam, alpha, j))
  {
    hide Loss, Objective, Product, NewBeta, Residuals, Dot, Share, HalfSquare, Offset, ScaleOf, Usable, Wide, Variance;
    var best := Updated(rows, s, dim, beta, lam, alpha, j);
    var z := Share(Product(rows, s, dim, beta, j), |rows|) + beta[j];
    LossIsObjective(rows, s, dim, beta, lam, alpha, j, b);
    LossIsObjective(rows, s, dim, beta, lam, alpha, j, best);
    UpdateMinimises(z, lam, alpha, b);
    assert best == NewBeta(z, lam, alpha);
  }

  // -------------------------------------------------------------------------------------------
  // The starting penalty
  // -------------------------------------------------------------------------------------------

  function Zeros(dim: nat): (z: Vector)
    ensures |z| == dim && forall j :: 0 <= j < dim ==> z[j] == 0.0
  {
    seq(dim, _ => 0.0)
  }

  /** The running maximum of the second job, over the first `k` coefficients. */
  function Largest(c: Vector, k: nat): (m: real)
    requires k <= |c|
    ensures m >= 0.0 && forall j :: 0 <= j < k ==> Abs(c[j]) <= m
    ensures m > 0.0 ==> exists j :: 0 <= j < k && m == Abs(c[j])
  {
    if k == 0 then 0.0
    else
      var m := Largest(c, k - 1);
      if Abs(c[k - 1]) > m then Abs(c[k - 1]) else m
  }

  function Correlations(rows: seq<Row>, s: Scale, dim: nat): (c: Vector)
    requires Wide(rows, dim) && rows != [] && Usable(s, dim)
    ensures |c| == dim && forall j :: 0 <= j < dim ==> c[j] == Share(Product(rows, s, dim, Zeros(dim), j), |rows|)
  {
    seq(dim, j requires 0 <= j < dim => Share(Product(rows, s, dim, Zeros(dim), j), |rows|))
  }

  function StartingLambda(rows: seq<Row>, s: Scale, dim: nat, alpha: real): real
    requires Wide(rows, dim) && rows != [] && Usable(s, dim) && alpha > 0.0
  {
    Largest(Correlations(rows, s, dim), dim) / alpha
  }

  /** The starting penalty is exactly the least one that keeps every coefficient at zero. */
  lemma StartingLambdaIsLeast(rows: seq<Row>, s: Scale, dim: nat, alpha: real, lam: real)
    requires Wide(rows, dim) && rows != [] && Usable(s, dim) && 0.0 < alpha <= 1.0 && lam >= 0.0
    ensures lam >= StartingLambda(rows, s, dim, alpha) <==>
            forall j :: 0 <= j < dim ==> Updated(rows, s, dim, Zeros(dim), lam, alpha, j) == 0.0
  {
    var c := Correlations(rows, s, dim);
    var m := Largest(c, dim);
    Threshold(m, alpha, lam);
    hide Product;
    forall j | 0 <= j < dim
      ensures Updated(rows, s, dim, Zeros(dim), lam, alpha, j) == 0.0 <==> lam * alpha >= Abs(c[j])
    {
      assert c[j] + Zeros(dim)[j] == c[j];
      ZeroUpdate(c[j], lam, alpha);
    }
    hide NewBeta, Largest, Correlations;
    PenaltyFactor(lam, alpha);
    if !(lam * alpha >= m) {
      var j :| 0 <= j < dim && m == Abs(c[j]);
      assert Updated(rows, s, dim, Zeros(dim), lam, alpha, j) != 0.0;
    }
  }

  lemma Threshold(m: real, alpha: real, lam: real)
    requires alpha > 0.0
    ensures lam >= m / alpha <==> lam * alpha >= m
  {
    var q := m / alpha;
    assert q * alpha == m;
    var e := lam - q;
    assert e * alpha == lam * alpha - m;
    Signs(e, alpha);
  }

  lemma ZeroUpdate(z: real, lam: real, alpha: real)
    requires lam >= 0.0 && 0.0 <= alpha <= 1.0
    ensures NewBeta(z, lam, alpha) == 0.0 <==> lam * alpha >= Abs(z)
  {
    PenaltyFactor(lam, alpha);
    Quotient(S(z, lam * alpha), 1.0 + lam * (1.0 - alpha));
  }
}
