/** Correlation analysis of two questions: the per-participant join of answers,
    numeric coercion of answers, Pearson's coefficient and its verbal labels
    (src/components/results/CorrelationAnalysis.js).

    `Math.sqrt` is not modelled: a coefficient is kept as its numerator and the
    product of the two sums of squares, and `Denotes(c, r)` says that `r` is
    the number `numerator / Math.sqrt(product)` stands for. */
module CorrelationAnalysis {
  import opened Seqs
  import opened JsCore
  import opened JsObject

  // ---------------------------------------------------------------- labels

  const VeryStrong := "매우 강한"
  const Strong := "강한"
  const Moderate := "중간"
  const Weak := "약한"
  const VeryWeak := "매우 약한"

  function Abs(c: real): real
  {
    if c < 0.0 then -c else c
  }

  /** `getCorrelationStrength`: bands of |c| closed at their lower bound. */
  function Strength(c: real): (tag: string)
    ensures tag == VeryStrong <==> Abs(c) >= 0.9
    ensures tag == Strong <==> 0.7 <= Abs(c) < 0.9
    ensures tag == Moderate <==> 0.5 <= Abs(c) < 0.7
    ensures tag == Weak <==> 0.3 <= Abs(c) < 0.5
    ensures tag == VeryWeak <==> Abs(c) < 0.3
  {
    var a := Abs(c);
    if a >= 0.9 then VeryStrong
    else if a >= 0.7 then Strong
    else if a >= 0.5 then Moderate
    else if a >= 0.3 then Weak
    else VeryWeak
  }

  /** Position of a strength tag, weakest first. */
  function Rank(tag: string): nat
  {
    if tag == VeryStrong then 4
    else if tag == Strong then 3
    else if tag == Moderate then 2
    else if tag == Weak then 1
    else 0
  }

  /** The tag depends on |c| only, and a larger |c| never gets a weaker tag. */
  lemma StrengthMonotone(c: real, d: real)
    requires Abs(c) <= Abs(d)
    ensures Rank(Strength(c)) <= Rank(Strength(d))
    ensures Abs(c) == Abs(d) ==> Strength(c) == Strength(d)
  {
  }

  /** `getCorrelationType` */
  function Kind(c: real): (tag: string)
    ensures tag == "양의" <==> c > 0.0
    ensures tag == "음의" <==> c < 0.0
    ensures tag == "무" <==> c == 0.0
  {
    if c > 0.0 then "양의" else if c < 0.0 then "음의" else "무"
  }

  /** Negating the coefficient swaps the positive and negative labels. */
  lemma KindNegate(c: real)
    ensures Kind(c) == "양의" <==> Kind(-c) == "음의"
    ensures Kind(c) == "무" <==> Kind(-c) == "무"
  {
  }

  // ---------------------------------------------------------------- Pearson

  /** The coefficient `calculateCorrelation` / `calculatePearsonCorrelation`
      return: 0 for a zero denominator, `num / Math.sqrt(prod)` with
      `prod > 0`, or NaN when a NaN value entered the sums. */
  datatype Coefficient = Zero | Ratio(num: real, prod: real) | NotANumber

  /** `r` is the number the coefficient stands for. */
  ghost predicate Denotes(c: Coefficient, r: real)
  {
    match c
    case Zero => r == 0.0
    case Ratio(n, p) => p > 0.0 && r * r * p == n * n && (r > 0.0 <==> n > 0.0) && (r < 0.0 <==> n < 0.0)
    case NotANumber => false
  }

  /** Every element of `xs` is `c`. */
  predicate AllEqual(xs: seq<real>, c: real)
  {
    forall i :: 0 <= i < |xs| ==> xs[i] == c
  }

  lemma {:induction false} SumConstant(xs: seq<real>, c: real)
    ensures AllEqual(xs, c) ==> SumReal(xs) == |xs| as real * c
  {
    if |xs| > 0 && AllEqual(xs, c) {
      var p := xs[..|xs| - 1];
      assert AllEqual(p, c);
      SumConstant(p, c);
    }
  }

  /** The mean of a series; a constant series has that constant as its mean. */
  function Mean(xs: seq<real>): (m: real)
    requires |xs| > 0
    ensures AllEqual(xs, xs[0]) ==> m == xs[0]
  {
    SumConstant(xs, xs[0]);
    SumReal(xs) / |xs| as real
  }

  /** Σ_{i<n} (xs[i] - mx) * (ys[i] - my) */
  function CrossSum(xs: seq<real>, ys: seq<real>, mx: real, my: real, n: nat): real
    requires n <= |xs| && n <= |ys|
  {
    if n == 0 then 0.0
    else CrossSum(xs, ys, mx, my, n - 1) + (xs[n - 1] - mx) * (ys[n - 1] - my)
  }

  /** The coefficient built from deviations about the given centres. */
  function PearsonAt(xs: seq<real>, ys: seq<real>, mx: real, my: real): Coefficient
    requires |xs| == |ys|
  {
    var num := CrossSum(xs, ys, mx, my, |xs|);
    var prod := CrossSum(xs, xs, mx, mx, |xs|) * CrossSum(ys, ys, my, my, |ys|);
    if prod == 0.0 then Zero else Ratio(num, prod)
  }

  /** Deviations of a constant series about its constant contribute nothing. */
  lemma {:induction false} DeviationsAboutConstant(xs: seq<real>, ys: seq<real>, c: real, my: real, n: nat)
    requires n <= |xs| && n <= |ys| && AllEqual(xs, c)
    ensures CrossSum(xs, ys, c, my, n) == 0.0
  {
    if n > 0 {
      DeviationsAboutConstant(xs, ys, c, my, n - 1);
      assert xs[n - 1] - c == 0.0;
      assert (xs[n - 1] - c) * (ys[n - 1] - my) == 0.0;
    }
  }

  /** When either series is constant its sum of squares is 0, so the
      denominator vanishes and the coefficient is 0. */
  lemma ConstantSeriesZero(xs: seq<real>, ys: seq<real>)
    requires |xs| == |ys| > 0
    ensures AllEqual(xs, xs[0]) || AllEqual(ys, ys[0]) ==> PearsonAt(xs, ys, Mean(xs), Mean(ys)) == Zero
  {
    if AllEqual(xs, xs[0]) {
      DeviationsAboutConstant(xs, xs, xs[0], xs[0], |xs|);
    } else if AllEqual(ys, ys[0]) {
      DeviationsAboutConstant(ys, ys, ys[0], ys[0], |ys|);
    }
  }

  /** Pearson's coefficient of two equally long, non-empty series: 0 whenever
      either series is constant. */
  function Pearson(xs: seq<real>, ys: seq<real>): (c: Coefficient)
    requires |xs| == |ys| > 0
    ensures AllEqual(xs, xs[0]) || AllEqual(ys, ys[0]) ==> c == Zero
  {
    ConstantSeriesZero(xs, ys);
    PearsonAt(xs, ys, Mean(xs), Mean(ys))
  }

  /** `xs.reduce((sum, val) => sum + val, 0) / xs.length` */
  method MeanOf(xs: seq<real>) returns (m: real)
    requires |xs| > 0
    ensures m == Mean(xs)
  {
    var sum := 0.0;
    var i := 0;
    while i < |xs|
      invariant 0 <= i <= |xs|
      invariant sum == SumReal(xs[..i])
    {
      assert xs[..i + 1] == xs[..i] + [xs[i]];
      SumRealSnoc(xs[..i], xs[i]);
      sum := sum + xs[i];
      i := i + 1;
    }
    assert xs[..i] == xs;
    m := sum / |xs| as real;
  }

  /** The first loop of `calculateCorrelation`: the sum of the products of deviations. */
  method DeviationProducts(x: seq<real>, y: seq<real>, xMean: real, yMean: real) returns (numerator: real)
    requires |x| == |y|
    ensures numerator == CrossSum(x, y, xMean, yMean, |x|)
  {
    numerator := 0.0;
    var i := 0;
    while i < |x|
      invariant 0 <= i <= |x|
      invariant numerator == CrossSum(x, y, xMean, yMean, i)
    {
      numerator := numerator + (x[i] - xMean) * (y[i] - yMean);
      i := i + 1;
    }
  }

  /** The second loop of `calculateCorrelation`: both sums of squared deviations. */
  method DeviationSquares(x: seq<real>, y: seq<real>, xMean: real, yMean: real)
    returns (xSumSquares: real, ySumSquares: real)
    requires |x| == |y|
    ensures xSumSquares == CrossSum(x, x, xMean, xMean, |x|)
    ensures ySumSquares == CrossSum(y, y, yMean, yMean, |y|)
  {
    xSumSquares, ySumSquares := 0.0, 0.0;
    var i := 0;
    while i < |x|
      invariant 0 <= i <= |x|
      invariant xSumSquares == CrossSum(x, x, xMean, xMean, i)
      invariant ySumSquares == CrossSum(y, y, yMean, yMean, i)
    {
      xSumSquares := xSumSquares + (x[i] - xMean) * (x[i] - xMean);
      ySumSquares := ySumSquares + (y[i] - yMean) * (y[i] - yMean);
      i := i + 1;
    }
  }

  /** `calculateCorrelation(x, y)`: 0 for series of different or zero length. */
  method CalculateCorrelation(x: seq<real>, y: seq<real>) returns (c: Coefficient)
    ensures |x| != |y| || |x| == 0 ==> c == Zero
    ensures |x| == |y| > 0 ==> c == Pearson(x, y)
  {
    if |x| != |y| || |x| == 0 {
      return Zero;
    }
    var xMean := MeanOf(x);
    var yMean := MeanOf(y);
    var numerator := DeviationProducts(x, y, xMean, yMean);
    var xSumSquares, ySumSquares := DeviationSquares(x, y, xMean, yMean);
    var product := xSumSquares * ySumSquares;
    if product == 0.0 {
      return Zero;
    }
    return Ratio(numerator, product);
  }

  lemma {:induction false} CrossSumSymmetric(xs: seq<real>, ys: seq<real>, mx: real, my: real, n: nat)
    requires n <= |xs| && n <= |ys|
    ensures CrossSum(ys, xs, my, mx, n) == CrossSum(xs, ys, mx, my, n)
  {
    if n > 0 {
      CrossSumSymmetric(xs, ys, mx, my, n - 1);
    }
  }

  lemma SquareLe(p: real, q: real)
    requires q >= 0.0 && p * p <= q * q
    ensures p <= q
  {
    if p > q {
      SquareLt(q, p);
    }
  }

  lemma SquareLt(q: real, p: real)
    requires 0.0 <= q < p
    ensures q * q < p * p
  {
    var d := p - q;
    assert p * p == q * q + 2.0 * q * d + d * d;
    assert q * d >= 0.0;
    assert d * d > 0.0;
  }

  lemma ProductNonNegative(u: real, v: real)
    requires u >= 0.0 && v >= 0.0
    ensures u * v >= 0.0
  {
  }

  /** C² ≤ A·B */
  predicate ProductBound(A: real, B: real, C: real)
  {
    C * C <= A * B
  }

  /** One step of Cauchy–Schwarz: adding a term to each sum keeps C² ≤ A·B. */
  lemma CauchySchwarzStep(A: real, B: real, C: real, a: real, b: real)
    requires A >= 0.0 && B >= 0.0 && ProductBound(A, B, C)
    ensures ProductBound(A + a * a, B + b * b, C + a * b)
  {
    var u := A * (b * b);
    var v := (a * a) * B;
    ProductNonNegative(A, b * b);
    ProductNonNegative(a * a, B);
    var w := (a * a) * (b * b);
    ProductNonNegative(a * a, b * b);
    var p := 2.0 * (a * b) * C;
    assert p * p == 4.0 * w * (C * C);
    assert 4.0 * w * (C * C) <= 4.0 * w * (A * B);
    assert 4.0 * w * (A * B) == 4.0 * u * v;
    assert (u + v) * (u + v) - 4.0 * u * v == (u - v) * (u - v);
    SquareLe(p, u + v);
    assert (C + a * b) * (C + a * b) == C * C + p + w;
    assert (A + a * a) * (B + b * b) == A * B + u + v + w;
  }

  /** Σ_{i<n} ds[i] * es[i] */
  function Dot(ds: seq<real>, es: seq<real>, n: nat): real
    requires n <= |ds| && n <= |es|
  {
    if n == 0 then 0.0 else Dot(ds, es, n - 1) + ds[n - 1] * es[n - 1]
  }

  /** The deviations of `xs` from `m`. */
  function Devs(xs: seq<real>, m: real): (ds: seq<real>)
    ensures |ds| == |xs|
  {
    seq(|xs|, i requires 0 <= i < |xs| => xs[i] - m)
  }

  lemma {:induction false} CrossSumDot(xs: seq<real>, ys: seq<real>, mx: real, my: real, n: nat)
    requires n <= |xs| && n <= |ys|
    ensures CrossSum(xs, ys, mx, my, n) == Dot(Devs(xs, mx), Devs(ys, my), n)
  {
    if n > 0 {
      CrossSumDot(xs, ys, mx, my, n - 1);
    }
  }

  lemma {:induction false} DotSquaresNonNegative(ds: seq<real>, n: nat)
    requires n <= |ds|
    ensures Dot(ds, ds, n) >= 0.0
  {
    if n > 0 {
      DotSquaresNonNegative(ds, n - 1);
    }
  }

  /** Cauchy–Schwarz for finite sums: (Σ d·e)² ≤ (Σ d²)·(Σ e²). */
  lemma {:induction false} DotCauchySchwarz(ds: seq<real>, es: seq<real>, n: nat)
    requires n <= |ds| && n <= |es|
    ensures ProductBound(Dot(ds, ds, n), Dot(es, es, n), Dot(ds, es, n))
  {
    if n > 0 {
      DotCauchySchwarz(ds, es, n - 1);
      DotSquaresNonNegative(ds, n - 1);
      DotSquaresNonNegative(es, n - 1);
      CauchySchwarzStep(Dot(ds, ds, n - 1), Dot(es, es, n - 1), Dot(ds, es, n - 1), ds[n - 1], es[n - 1]);
    }
  }

  /** Cauchy–Schwarz over the deviation sums: numerator² ≤ xDenominator·yDenominator. */
  lemma CauchySchwarz(xs: seq<real>, ys: seq<real>, mx: real, my: real, n: nat)
    requires n <= |xs| && n <= |ys|
    ensures ProductBound(CrossSum(xs, xs, mx, mx, n), CrossSum(ys, ys, my, my, n), CrossSum(xs, ys, mx, my, n))
  {
    CrossSumDot(xs, ys, mx, my, n);
    CrossSumDot(xs, xs, mx, mx, n);
    CrossSumDot(ys, ys, my, my, n);
    DotCauchySchwarz(Devs(xs, mx), Devs(ys, my), n);
  }

  /** Swapping the two series leaves the coefficient unchanged. */
  lemma PearsonSymmetric(xs: seq<real>, ys: seq<real>)
    requires |xs| == |ys| > 0
    ensures Pearson(ys, xs) == Pearson(xs, ys)
  {
    var mx, my := Mean(xs), Mean(ys);
    CrossSumSymmetric(xs, ys, mx, my, |xs|);
    var a, b := CrossSum(xs, xs, mx, mx, |xs|), CrossSum(ys, ys, my, my, |ys|);
    assert a * b == b * a;
  }

  /** A quotient `n / Math.sqrt(p)` with `n² <= p` lies in [-1, 1]. */
  lemma RatioBounded(n: real, p: real, r: real)
    requires n * n <= p
    requires Denotes(Ratio(n, p), r)
    ensures -1.0 <= r <= 1.0
  {
    SquareAtMostOne(n, p, r);
    if r > 1.0 {
      SquareLt(1.0, r);
    }
    if r < -1.0 {
      SquareLt(1.0, -r);
    }
  }

  lemma SquareAtMostOne(n: real, p: real, r: real)
    requires n * n <= p
    requires p > 0.0 && r * r * p == n * n
    ensures r * r <= 1.0
  {
    assert r * r == (n * n) / p;
    assert (n * n) / p <= p / p;
  }

  /** Whatever the centres, the coefficient stands for a number in [-1, 1]. */
  lemma PearsonAtBounded(xs: seq<real>, ys: seq<real>, mx: real, my: real, r: real)
    requires |xs| == |ys|
    requires Denotes(PearsonAt(xs, ys, mx, my), r)
    ensures -1.0 <= r <= 1.0
  {
    CauchySchwarz(xs, ys, mx, my, |xs|);
    var c := PearsonAt(xs, ys, mx, my);
    if c.Ratio? {
      RatioBounded(c.num, c.prod, r);
    }
  }

  /** The number Pearson's coefficient stands for lies in [-1, 1], so
      `getCorrelationStrength` sees a value in the range its bands cover. */
  lemma PearsonBounded(xs: seq<real>, ys: seq<real>, r: real)
    requires |xs| == |ys| > 0
    requires Denotes(Pearson(xs, ys), r)
    ensures -1.0 <= r <= 1.0
  {
    PearsonAtBounded(xs, ys, Mean(xs), Mean(ys), r);
  }

  // ---------------------------------------------------------------- data points

  /** A scatter point: coerced values, raw answers as labels, and a count of 1. */
  datatype Point = Point(x: Num, y: Num, xLabel: string, yLabel: string, count: int)

  function XValues(ps: seq<Point>): (xs: seq<Num>)
    ensures |xs| == |ps|
  {
    if |ps| == 0 then [] else XValues(ps[..|ps| - 1]) + [ps[|ps| - 1].x]
  }

  function YValues(ps: seq<Point>): (ys: seq<Num>)
    ensures |ys| == |ps|
  {
    if |ps| == 0 then [] else YValues(ps[..|ps| - 1]) + [ps[|ps| - 1].y]
  }

  predicate AllFinite(ns: seq<Num>)
  {
    forall i :: 0 <= i < |ns| ==> ns[i].Dec?
  }

  function Reals(ns: seq<Num>): (rs: seq<real>)
    requires AllFinite(ns)
    ensures |rs| == |ns|
  {
    seq(|ns|, i requires 0 <= i < |ns| => Value(ns[i]))
  }

  /** What `calculatePearsonCorrelation(points)` returns (`None` is `null`). */
  function PearsonOfPoints(ps: seq<Point>): Option<Coefficient>
  {
    if |ps| < 2 then None
    else if !AllFinite(XValues(ps)) || !AllFinite(YValues(ps)) then Some(NotANumber)
    else Some(Pearson(Reals(XValues(ps)), Reals(YValues(ps))))
  }

  /** `calculatePearsonCorrelation(dataPoints)`: `null` for fewer than two points. */
  method CalculatePearsonCorrelation(ps: seq<Point>) returns (r: Option<Coefficient>)
    ensures |ps| < 2 <==> r.None?
    ensures r == PearsonOfPoints(ps)
  {
    if |ps| < 2 {
      return None;
    }
    var xValues, yValues := XValues(ps), YValues(ps);
    if !AllFinite(xValues) || !AllFinite(yValues) {
      // a NaN value makes the mean, every sum and the quotient NaN
      return Some(NotANumber);
    }
    var c := PearsonOfSeries(Reals(xValues), Reals(yValues));
    return Some(c);
  }

  /** The arithmetic of `calculatePearsonCorrelation` once the values are extracted. */
  method PearsonOfSeries(xs: seq<real>, ys: seq<real>) returns (c: Coefficient)
    requires |xs| == |ys| > 0
    ensures c == Pearson(xs, ys)
  {
    var xMean := MeanOf(xs);
    var yMean := MeanOf(ys);
    var numerator, xDenominator, yDenominator := Deviations(xs, ys, xMean, yMean);
    if xDenominator * yDenominator == 0.0 {
      return Zero;
    }
    return Ratio(numerator, xDenominator * yDenominator);
  }

  /** The loop of `calculatePearsonCorrelation`: one pass accumulating the
      numerator and both sums of squares. */
  method Deviations(xs: seq<real>, ys: seq<real>, xMean: real, yMean: real)
    returns (numerator: real, xDenominator: real, yDenominator: real)
    requires |xs| == |ys|
    ensures numerator == CrossSum(xs, ys, xMean, yMean, |xs|)
    ensures xDenominator == CrossSum(xs, xs, xMean, xMean, |xs|)
    ensures yDenominator == CrossSum(ys, ys, yMean, yMean, |ys|)
  {
    numerator, xDenominator, yDenominator := 0.0, 0.0, 0.0;
    var i := 0;
    while i < |xs|
      invariant 0 <= i <= |xs|
      invariant numerator == CrossSum(xs, ys, xMean, yMean, i)
      invariant xDenominator == CrossSum(xs, xs, xMean, xMean, i)
      invariant yDenominator == CrossSum(ys, ys, yMean, yMean, i)
    {
      var xDiff := xs[i] - xMean;
      var yDiff := ys[i] - yMean;
      assert CrossSum(xs, ys, xMean, yMean, i + 1) == numerator + xDiff * yDiff;
      assert CrossSum(xs, xs, xMean, xMean, i + 1) == xDenominator + xDiff * xDiff;
      assert CrossSum(ys, ys, yMean, yMean, i + 1) == yDenominator + yDiff * yDiff;
      numerator := numerator + xDiff * yDiff;
      xDenominator := xDenominator + xDiff * xDiff;
      yDenominator := yDenominator + yDiff * yDiff;
      i := i + 1;
    }
  }

  function SwapPoint(p: Point): Point
  {
    Point(p.y, p.x, p.yLabel, p.xLabel, p.count)
  }

  lemma {:induction false} SwapValues(ps: seq<Point>)
    ensures XValues(seq(|ps|, i requires 0 <= i < |ps| => SwapPoint(ps[i]))) == YValues(ps)
    ensures YValues(seq(|ps|, i requires 0 <= i < |ps| => SwapPoint(ps[i]))) == XValues(ps)
    decreases |ps|
  {
    if |ps| > 0 {
      var ps' := ps[..|ps| - 1];
      SwapValues(ps');
      var sw := seq(|ps|, i requires 0 <= i < |ps| => SwapPoint(ps[i]));
      assert sw[..|ps| - 1] == seq(|ps'|, i requires 0 <= i < |ps'| => SwapPoint(ps'[i]));
    }
  }

  /** Swapping x and y in every point leaves the coefficient unchanged. */
  lemma PearsonOfPointsSymmetric(ps: seq<Point>)
    ensures PearsonOfPoints(seq(|ps|, i requires 0 <= i < |ps| => SwapPoint(ps[i]))) == PearsonOfPoints(ps)
  {
    SwapValues(ps);
    if |ps| >= 2 && AllFinite(XValues(ps)) && AllFinite(YValues(ps)) {
      PearsonSymmetric(Reals(XValues(ps)), Reals(YValues(ps)));
    }
  }

  // ---------------------------------------------------------------- coercion

  /** The fields of a question this component reads. */
  datatype Question = Question(id: string, qtype: string, options: JsVal)

  /** `getNumericValue` either yields a value (`None` is `null`) or throws a
      TypeError, which happens when `options` is truthy but has no `findIndex`. */
  datatype Coerced = Threw | Got(value: Option<Num>)

  /** Index of the first element strictly equal to the string `v`, or -1. */
  function FindIndex(es: seq<JsVal>, v: string): (i: int)
    ensures -1 <= i < |es|
    ensures i >= 0 ==> es[i] == Str(v) && forall j :: 0 <= j < i ==> es[j] != Str(v)
    ensures i == -1 ==> forall j :: 0 <= j < |es| ==> es[j] != Str(v)
  {
    if |es| == 0 then -1
    else if es[|es| - 1] == Str(v) && FindIndex(es[..|es| - 1], v) == -1 then |es| - 1
    else FindIndex(es[..|es| - 1], v)
  }

  /** `getNumericValue(value, question)` */
  function NumericValue(value: string, q: Question): (r: Coerced)
    ensures value == "" ==> r == Got(None)
    ensures value != "" && ToNumber(value).Dec? ==> r == Got(Some(ToNumber(value)))
    ensures value != "" && ToNumber(value).NaN? && q.qtype == "scale" ==> r == Got(Some(NaN))
    ensures r == Got(None) ==> value == "" || q.qtype != "scale"
  {
    if value == "" then Got(None)
    else if ToNumber(value).Dec? then Got(Some(ToNumber(value)))
    else if q.qtype == "scale" then Got(Some(ToNumber(value)))
    else if q.qtype == "single_choice" && Truthy(q.options) then
      match q.options
      case Arr(es) =>
        var i := FindIndex(es, value);
        if i >= 0 then Got(Some(FromInt(i))) else Got(None)
      case _ => Threw
    else Got(None)
  }

  /** A non-numeric single-choice answer is coerced to its 0-based option index. */
  lemma NumericValueOption(value: string, q: Question, es: seq<JsVal>, k: nat)
    requires value != "" && ToNumber(value).NaN?
    requires q.qtype == "single_choice" && q.options == Arr(es)
    requires k < |es| && es[k] == Str(value) && forall j :: 0 <= j < k ==> es[j] != Str(value)
    ensures NumericValue(value, q) == Got(Some(FromInt(k)))
  {
  }

  /** `getLabelForValue`: both branches give the answer text back. */
  function Label(value: string, q: Question): (tag: string)
    ensures tag == value
  {
    if value == "" then ""
    else if q.qtype == "single_choice" && Truthy(q.options) then value
    else value
  }

  // ---------------------------------------------------------------- join

  /** The fields of a response row this component reads. `participant` is
      `response.participant_id`, which rows of the responses table lack. */
  datatype Response = Response(participant: JsVal, questionId: string, answer: string)

  /** The object key of a row's participant: `String(response.participant_id)`. */
  function ParticipantKey(r: Response): string
  {
    ToStr(r.participant)
  }

  /** One step of the grouping loop: the participant's object is created if
      missing, then the answer is stored under the question id. */
  function Record(d: Dict<map<string, string>>, r: Response): Dict<map<string, string>>
  {
    var key := ParticipantKey(r);
    var inner := if key in d.m then d.m[key] else map[];
    Put(d, key, inner[r.questionId := r.answer])
  }

  /** `participantResponses` after the first `n` rows. */
  function Join(rs: seq<Response>, n: nat): Dict<map<string, string>>
    requires n <= |rs|
  {
    if n == 0 then Empty() else Record(Join(rs, n - 1), rs[n - 1])
  }

  lemma {:induction false} JoinValid(rs: seq<Response>, n: nat)
    requires n <= |rs|
    ensures Valid(Join(rs, n))
  {
    if n > 0 {
      JoinValid(rs, n - 1);
      var d, key := Join(rs, n - 1), ParticipantKey(rs[n - 1]);
      PutValid(d, key, (if key in d.m then d.m[key] else map[])[rs[n - 1].questionId := rs[n - 1].answer]);
    }
  }

  /** `Object.values(participantResponses)`: one answer map per participant. */
  function Groups(rs: seq<Response>): seq<map<string, string>>
  {
    JoinValid(rs, |rs|);
    Values(Join(rs, |rs|))
  }

  /** `participantResponses[key]?.[qid]`, `None` when absent. */
  function Lookup(d: Dict<map<string, string>>, key: string, qid: string): Option<string>
  {
    if key in d.m && qid in d.m[key] then Some(d.m[key][qid]) else None
  }

  /** Recording a row stores its answer under its participant and question
      and keeps every other stored answer. */
  lemma RecordLookup(d: Dict<map<string, string>>, r: Response, key: string, qid: string)
    ensures Lookup(Record(d, r), key, qid)
         == if key == ParticipantKey(r) && qid == r.questionId then Some(r.answer) else Lookup(d, key, qid)
  {
  }

  /** After the join, a participant's answer to a question is the one in the
      LAST row for that pair. */
  lemma {:induction false} JoinLastRowWins(rs: seq<Response>, n: nat, k: nat)
    requires k < n <= |rs|
    requires forall j :: k < j < n ==>
      ParticipantKey(rs[j]) != ParticipantKey(rs[k]) || rs[j].questionId != rs[k].questionId
    ensures Lookup(Join(rs, n), ParticipantKey(rs[k]), rs[k].questionId) == Some(rs[k].answer)
    decreases n
  {
    var d := Join(rs, n - 1);
    assert Join(rs, n) == Record(d, rs[n - 1]);
    RecordLookup(d, rs[n - 1], ParticipantKey(rs[k]), rs[k].questionId);
    if n - 1 > k {
      JoinLastRowWins(rs, n - 1, k);
    }
  }

  /** The answer a participant's group holds for `qid`, `""` when absent. */
  function AnswerOf(g: map<string, string>, qid: string): string
  {
    if qid in g then g[qid] else ""
  }

  /** The points made from groups `gs` (each participant's answers), or
      `None` when coercing an answer throws. */
  function PointsOf(gs: seq<map<string, string>>, dq: Question, rq: Question): (r: Option<seq<Point>>)
    ensures r.Some? ==> |r.value| <= |gs|
    ensures r.Some? ==> forall i :: 0 <= i < |r.value| ==> r.value[i].count == 1
  {
    if |gs| == 0 then Some([])
    else
      match PointsOf(gs[..|gs| - 1], dq, rq)
      case None => None
      case Some(ps) => AddPoint(ps, gs[|gs| - 1], dq, rq)
  }

  /** One participant's turn: a point when both answers are present and
      coerce to numbers, nothing when either is absent or coerces to `null`,
      `None` when a coercion throws. */
  function AddPoint(ps: seq<Point>, g: map<string, string>, dq: Question, rq: Question): (r: Option<seq<Point>>)
    ensures r.Some? ==> r.value == ps || (|r.value| == |ps| + 1 && r.value[..|ps|] == ps && r.value[|ps|].count == 1)
  {
    var x, y := AnswerOf(g, dq.id), AnswerOf(g, rq.id);
    if x == "" || y == "" then Some(ps)
    else
      match (NumericValue(x, dq), NumericValue(y, rq))
      case (Got(Some(xn)), Got(Some(yn))) => Some(ps + [Point(xn, yn, Label(x, dq), Label(y, rq), 1)])
      case (Got(_), Got(_)) => Some(ps)
      case _ => None
  }

  // ---------------------------------------------------------------- aggregation

  /** A heat-map cell: one tag pair and how many points carry it. */
  datatype Cell = Cell(x: string, y: string, xValue: Num, yValue: Num, count: int)

  function CellKey(p: Point): string
  {
    p.xLabel + "-" + p.yLabel
  }

  /** One step of `aggregateDataPoints`: the point's cell is created with
      count 0 if missing, then its count goes up by one. */
  function Tally(d: Dict<Cell>, p: Point): Dict<Cell>
  {
    var key := CellKey(p);
    var cell := if key in d.m then d.m[key] else Cell(p.xLabel, p.yLabel, p.x, p.y, 0);
    Put(d, key, cell.(count := cell.count + 1))
  }

  /** The `aggregated` object after the first `n` points. */
  function Aggregate(ps: seq<Point>, n: nat): Dict<Cell>
    requires n <= |ps|
  {
    if n == 0 then Empty() else Tally(Aggregate(ps, n - 1), ps[n - 1])
  }

  lemma {:induction false} AggregateValid(ps: seq<Point>, n: nat)
    requires n <= |ps|
    ensures Valid(Aggregate(ps, n))
  {
    if n > 0 {
      AggregateValid(ps, n - 1);
      var d, p := Aggregate(ps, n - 1), ps[n - 1];
      var cell := if CellKey(p) in d.m then d.m[CellKey(p)] else Cell(p.xLabel, p.yLabel, p.x, p.y, 0);
      PutValid(d, CellKey(p), cell.(count := cell.count + 1));
    }
  }

  /** `Object.values(aggregated)`: the heat-map cells. */
  function Cells(ps: seq<Point>): seq<Cell>
  {
    AggregateValid(ps, |ps|);
    Values(Aggregate(ps, |ps|))
  }

  function CellCount(d: Dict<Cell>): string -> int
  {
    k => if k in d.m then d.m[k].count else 0
  }

  function Counts(cells: seq<Cell>): (cs: seq<int>)
    ensures |cs| == |cells|
  {
    if |cells| == 0 then [] else Counts(cells[..|cells| - 1]) + [cells[|cells| - 1].count]
  }

  /** `aggregateDataPoints` */
  method AggregateDataPoints(ps: seq<Point>) returns (cells: seq<Cell>)
    ensures cells == Cells(ps)
  {
    var aggregated := TallyAll(ps);
    AggregateValid(ps, |ps|);
    cells := Values(aggregated);
  }

  /** The `dataPoints.forEach` loop of `aggregateDataPoints`. */
  method TallyAll(ps: seq<Point>) returns (aggregated: Dict<Cell>)
    ensures aggregated == Aggregate(ps, |ps|)
  {
    aggregated := Empty();
    var i := 0;
    while i < |ps|
      invariant 0 <= i <= |ps|
      invariant aggregated == Aggregate(ps, i)
    {
      assert Aggregate(ps, i + 1) == Tally(Aggregate(ps, i), ps[i]);
      aggregated := TallyPoint(aggregated, ps[i]);
      i := i + 1;
    }
  }


  /** The body of the `forEach` in `aggregateDataPoints`: create the point's
      cell with count 0 if missing, then bump its count. */
  method TallyPoint(aggregated: Dict<Cell>, p: Point) returns (r: Dict<Cell>)
    ensures r == Tally(aggregated, p)
  {
    var key := CellKey(p);
    r := aggregated;
    if key !in r.m {
      r := Put(r, key, Cell(p.xLabel, p.yLabel, p.x, p.y, 0));
      PutPut(aggregated, key, Cell(p.xLabel, p.yLabel, p.x, p.y, 0), Cell(p.xLabel, p.yLabel, p.x, p.y, 1));
    }
    var cell := r.m[key];
    r := Put(r, key, cell.(count := cell.count + 1));
  }

  /** A tally raises the point's cell count by one and leaves every other
      count alone; a new key goes to the end of the insertion order. */
  lemma TallyCounts(d: Dict<Cell>, p: Point)
    requires Valid(d)
    ensures CellCount(Tally(d, p))(CellKey(p)) == CellCount(d)(CellKey(p)) + 1
    ensures forall k :: k != CellKey(p) ==> CellCount(Tally(d, p))(k) == CellCount(d)(k)
    ensures Tally(d, p).order == if CellKey(p) in d.m then d.order else d.order + [CellKey(p)]
  {
  }

  /** A tally adds one to the total of the cell counts. */
  lemma TallySum(d: Dict<Cell>, p: Point)
    requires Valid(d)
    ensures SumOf(CellCount(Tally(d, p)), Tally(d, p).order) == SumOf(CellCount(d), d.order) + 1
  {
    TallyCounts(d, p);
    if CellKey(p) in d.m {
      ValidNoDups(d);
      ValidMember(d, CellKey(p));
      SumOfBump(CellCount(d), CellCount(Tally(d, p)), d.order, CellKey(p));
    } else {
      TallyNewSum(d, p);
    }
  }

  lemma TallyNewSum(d: Dict<Cell>, p: Point)
    requires Valid(d) && CellKey(p) !in d.m
    ensures SumOf(CellCount(Tally(d, p)), Tally(d, p).order) == SumOf(CellCount(d), d.order) + 1
  {
    var key := CellKey(p);
    TallyCounts(d, p);
    var f, f' := CellCount(d), CellCount(Tally(d, p));
    forall i | 0 <= i < |d.order|
      ensures f(d.order[i]) == f'(d.order[i])
    {
      ValidMember(d, d.order[i]);
    }
    SumOfAgree(f, f', d.order);
    SumOfConcat(f', d.order, [key]);
    assert SumOf(f', [key]) == 1 by {
      assert [key][..0] == [];
    }
  }

  /** The sum of the cell counts after the first `n` points. */
  ghost function TotalAfter(ps: seq<Point>, n: nat): int
    requires n <= |ps|
  {
    SumOf(CellCount(Aggregate(ps, n)), Aggregate(ps, n).order)
  }

  /** The point at index `n` brings the total of the cell counts from `n` to `n + 1`. */
  lemma AggregateStep(ps: seq<Point>, n: nat)
    requires n < |ps| && TotalAfter(ps, n) == n
    ensures TotalAfter(ps, n + 1) == n + 1
  {
    AggregateValid(ps, n);
    TallySum(Aggregate(ps, n), ps[n]);
  }

  /** Every point adds one to exactly one cell. */
  lemma {:induction false} AggregateCounts(ps: seq<Point>, n: nat)
    requires n <= |ps|
    ensures TotalAfter(ps, n) == n
  {
    if n > 0 {
      AggregateCounts(ps, n - 1);
      AggregateStep(ps, n - 1);
    }
  }

  /** The aggregated cells' counts sum to the number of points. */
  lemma AggregateTotal(ps: seq<Point>)
    ensures Sum(Counts(Cells(ps))) == |ps|
  {
    var d := Aggregate(ps, |ps|);
    AggregateValid(ps, |ps|);
    AggregateCounts(ps, |ps|);
    CountsAt(Values(d));
    SumOfValues(CellCount(d), Keys(d), Counts(Values(d)));
    SumOfPermutation(CellCount(d), Keys(d), d.order);
  }

  lemma {:induction false} CountsAt(cells: seq<Cell>)
    ensures forall i :: 0 <= i < |cells| ==> Counts(cells)[i] == cells[i].count
    decreases |cells|
  {
    if |cells| > 0 {
      CountsAt(cells[..|cells| - 1]);
    }
  }

  /** Label pairs whose hyphenated keys coincide share one cell:
      ("a-b", "c") and ("a", "b-c") both become "a-b-c". */
  lemma HyphenatedLabelsMerge()
    ensures var ps := [Point(Dec(0, 0), Dec(0, 0), "a-b", "c", 1), Point(Dec(1, 0), Dec(1, 0), "a", "b-c", 1)];
      |Cells(ps)| == 1
  {
    var ps := [Point(Dec(0, 0), Dec(0, 0), "a-b", "c", 1), Point(Dec(1, 0), Dec(1, 0), "a", "b-c", 1)];
    assert CellKey(ps[0]) == CellKey(ps[1]) == "a-b-c";
    assert Aggregate(ps, 2).order == ["a-b-c"];
    AggregateValid(ps, 2);
  }

  // ---------------------------------------------------------------- the analysis

  datatype Chart = Scatter(points: seq<Point>) | HeatMap(cells: seq<Cell>)

  /** The outcome of `calculateCorrelationData`: an error message, or the
      coefficient (`None` is `null`) and the chart data. */
  datatype Outcome = Failed(message: string) | Computed(coefficient: Option<Coefficient>, chart: Chart)

  function FindQuestion(qs: seq<Question>, id: string): (r: Option<Question>)
    ensures r.Some? ==> r.value in qs && r.value.id == id
    ensures r.None? ==> forall i :: 0 <= i < |qs| ==> qs[i].id != id
  {
    if |qs| == 0 then None
    else if qs[0].id == id then Some(qs[0])
    else FindQuestion(qs[1..], id)
  }

  /** What `calculateCorrelationData` sets: `questions` is every question of
      every listed survey set, flattened in order. */
  function CorrelationData(rs: seq<Response>, qs: seq<Question>, demoId: string, respId: string): Outcome
  {
    if |rs| == 0 then Failed("응답 데이터가 없습니다.")
    else
      match (FindQuestion(qs, demoId), FindQuestion(qs, respId))
      case (Some(dq), Some(rq)) =>
        (match PointsOf(Groups(rs), dq, rq)
         case None => Failed("상관관계 계산 중 오류가 발생했습니다.")
         case Some(ps) => FromPoints(ps, dq, rq))
      case _ => Failed("선택한 문항을 찾을 수 없습니다.")
  }

  /** The coefficient and chart once the points are built: a coefficient only
      from two points on, a heat map when either question is single choice. */
  function FromPoints(ps: seq<Point>, dq: Question, rq: Question): (out: Outcome)
    ensures out.Computed?
    ensures out.coefficient.Some? <==> |ps| >= 2
    ensures out.chart.HeatMap? <==> dq.qtype == "single_choice" || rq.qtype == "single_choice"
  {
    var coefficient := if |ps| > 1 then PearsonOfPoints(ps) else None;
    if dq.qtype == "single_choice" || rq.qtype == "single_choice"
    then Computed(coefficient, HeatMap(Cells(ps)))
    else Computed(coefficient, Scatter(ps))
  }

  /** `calculateCorrelationData`: group the rows by participant, build one
      point per participant with two coercible answers, then compute. */
  method CalculateCorrelationData(rs: seq<Response>, qs: seq<Question>, demoId: string, respId: string)
    returns (r: Outcome)
    ensures r == CorrelationData(rs, qs, demoId, respId)
  {
    if |rs| == 0 {
      return Failed("응답 데이터가 없습니다.");
    }
    var demoQ := FindQuestion(qs, demoId);
    var respQ := FindQuestion(qs, respId);
    if demoQ.None? || respQ.None? {
      return Failed("선택한 문항을 찾을 수 없습니다.");
    }
    var dq, rq := demoQ.value, respQ.value;
    var participantResponses := GroupByParticipant(rs);
    JoinValid(rs, |rs|);
    var built := BuildDataPoints(Values(participantResponses), dq, rq);
    if built.None? {
      return Failed("상관관계 계산 중 오류가 발생했습니다.");
    }
    var dataPoints := built.value;
    var validPairs := |dataPoints|;
    var coefficient: Option<Coefficient> := None;
    if validPairs > 1 {
      coefficient := CalculatePearsonCorrelation(dataPoints);
    }
    if dq.qtype == "single_choice" || rq.qtype == "single_choice" {
      var cells := AggregateDataPoints(dataPoints);
      r := Computed(coefficient, HeatMap(cells));
    } else {
      r := Computed(coefficient, Scatter(dataPoints));
    }
    assert r == FromPoints(dataPoints, dq, rq);
  }

  /** The `Object.values(participantResponses).forEach` loop of
      `calculateCorrelationData`; `None` when coercing an answer throws. */
  method BuildDataPoints(groups: seq<map<string, string>>, dq: Question, rq: Question)
    returns (r: Option<seq<Point>>)
    ensures r == PointsOf(groups, dq, rq)
  {
    var dataPoints: seq<Point> := [];
    var j := 0;
    while j < |groups|
      invariant 0 <= j <= |groups|
      invariant PointsOf(groups[..j], dq, rq) == Some(dataPoints)
    {
      assert groups[..j + 1][..j] == groups[..j];
      ghost var before := dataPoints;
      assert PointsOf(groups[..j + 1], dq, rq) == AddPoint(before, groups[j], dq, rq);
      var x, y := AnswerOf(groups[j], dq.id), AnswerOf(groups[j], rq.id);
      if x != "" && y != "" {
        var xNum, yNum := NumericValue(x, dq), NumericValue(y, rq);
        if xNum.Threw? || yNum.Threw? {
          assert AddPoint(before, groups[j], dq, rq) == None;
          PointsOfNoneStays(groups, j + 1, dq, rq);
          return None;
        }
        if xNum.value.Some? && yNum.value.Some? {
          dataPoints := dataPoints + [Point(xNum.value.value, yNum.value.value, Label(x, dq), Label(y, rq), 1)];
        }
      }
      assert AddPoint(before, groups[j], dq, rq) == Some(dataPoints);
      j := j + 1;
    }
    assert groups[..|groups|] == groups;
    return Some(dataPoints);
  }

  /** The `responses.forEach` loop of `calculateCorrelationData`. */
  method GroupByParticipant(rs: seq<Response>) returns (participantResponses: Dict<map<string, string>>)
    ensures participantResponses == Join(rs, |rs|)
  {
    participantResponses := Empty();
    var i := 0;
    while i < |rs|
      invariant 0 <= i <= |rs|
      invariant participantResponses == Join(rs, i)
    {
      assert Join(rs, i + 1) == Record(Join(rs, i), rs[i]);
      participantResponses := RecordRow(participantResponses, rs[i]);
      i := i + 1;
    }
  }

  /** The body of that loop: create the participant's object if missing,
      then store the answer under the question id. */
  method RecordRow(participantResponses: Dict<map<string, string>>, r: Response)
    returns (d: Dict<map<string, string>>)
    ensures d == Record(participantResponses, r)
  {
    var key := ParticipantKey(r);
    d := participantResponses;
    if key !in d.m {
      d := Put(d, key, map[]);
      PutPut(participantResponses, key, map[], map[r.questionId := r.answer]);
    }
    var inner := d.m[key];
    d := Put(d, key, inner[r.questionId := r.answer]);
  }

  lemma {:induction false} PointsOfNoneStays(gs: seq<map<string, string>>, n: nat, dq: Question, rq: Question)
    requires n <= |gs| && PointsOf(gs[..n], dq, rq).None?
    ensures PointsOf(gs, dq, rq).None?
    decreases |gs| - n
  {
    if n < |gs| {
      assert gs[..n + 1][..n] == gs[..n];
      PointsOfNoneStays(gs, n + 1, dq, rq);
    } else {
      assert gs[..n] == gs;
    }
  }

  /** Each participant yields at most one point, and every aggregated count
      sums back to the number of points. */
  lemma AtMostOnePointPerParticipant(rs: seq<Response>, qs: seq<Question>, demoId: string, respId: string)
    requires CorrelationData(rs, qs, demoId, respId).Computed?
    ensures var out := CorrelationData(rs, qs, demoId, respId);
      (out.chart.Scatter? ==> |out.chart.points| <= |Groups(rs)|)
      && (out.chart.HeatMap? ==> Sum(Counts(out.chart.cells)) <= |Groups(rs)|)
  {
    var dq, rq := FindQuestion(qs, demoId).value, FindQuestion(qs, respId).value;
    var ps := PointsOf(Groups(rs), dq, rq).value;
    AggregateTotal(ps);
  }

  /** Rows without a `participant_id` all land under the key "undefined", so
      at most one point is ever made and the coefficient stays `null`. */
  lemma MissingParticipantIdsMerge(rs: seq<Response>, qs: seq<Question>, demoId: string, respId: string)
    requires forall i :: 0 <= i < |rs| ==> rs[i].participant == Undefined
    requires CorrelationData(rs, qs, demoId, respId).Computed?
    ensures CorrelationData(rs, qs, demoId, respId).coefficient.None?
  {
    var d := Join(rs, |rs|);
    JoinOneKey(rs, |rs|);
    JoinValid(rs, |rs|);
    assert |Groups(rs)| <= 1 by {
      assert |multiset(Keys(d))| == |multiset(d.order)|;
    }
    FewGroupsNoCoefficient(rs, qs, demoId, respId);
  }

  /** With at most one participant group there is at most one point, so no coefficient. */
  lemma FewGroupsNoCoefficient(rs: seq<Response>, qs: seq<Question>, demoId: string, respId: string)
    requires |rs| > 0 && |Groups(rs)| <= 1
    requires CorrelationData(rs, qs, demoId, respId).Computed?
    ensures CorrelationData(rs, qs, demoId, respId).coefficient.None?
  {
    var gs := Groups(rs);
    var dq, rq := FindQuestion(qs, demoId).value, FindQuestion(qs, respId).value;
    var pts := PointsOf(gs, dq, rq);
    assert pts.Some? && CorrelationData(rs, qs, demoId, respId) == FromPoints(pts.value, dq, rq);
  }

  lemma {:induction false} JoinOneKey(rs: seq<Response>, n: nat)
    requires n <= |rs|
    requires forall i :: 0 <= i < |rs| ==> rs[i].participant == Undefined
    ensures |Join(rs, n).order| <= 1
    ensures n > 0 ==> Join(rs, n).order == ["undefined"]
  {
    if n > 0 {
      JoinOneKey(rs, n - 1);
      assert ToStr(rs[n - 1].participant) == "undefined";
    }
  }
}
