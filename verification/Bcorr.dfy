// Pearson correlation over the common dates of two series (ops/tools/bcorr/bcorr.cpp:113-158), over the reals.
module Bcorr {
  import opened Ordering

  type Pair = (real, real)

  // ------------------------------------------------------------------ sums

  function Sum(z: seq<Pair>, f: Pair -> real): real {
    if z == [] then 0.0 else Sum(z[..|z| - 1], f) + f(z[|z| - 1])
  }

  function X(p: Pair): real { p.0 }
  function Y(p: Pair): real { p.1 }
  function XY(p: Pair): real { p.0 * p.1 }
  function XX(p: Pair): real { p.0 * p.0 }
  function YY(p: Pair): real { p.1 * p.1 }

  function Product(a: real, b: real): real {
    a * b
  }

  /** n*a - b*c */
  function Det(n: real, a: real, b: real, c: real): real {
    n * a - b * c
  }

  function Numerator(z: seq<Pair>): real {
    Det(|z| as real, Sum(z, XY), Sum(z, X), Sum(z, Y))
  }

  /** n times the sum of squares minus the square of the sum: n squared times the variance. */
  function FactorX(z: seq<Pair>): real {
    Det(|z| as real, Sum(z, XX), Sum(z, X), Sum(z, X))
  }

  function FactorY(z: seq<Pair>): real {
    Det(|z| as real, Sum(z, YY), Sum(z, Y), Sum(z, Y))
  }

  // ------------------------------------------------------------------ the code

  datatype Corr = NaN | Value(r: real)

  /** What the code assumes of std::sqrt. */
  ghost predicate IsSqrt(sqrt: real -> real) {
    forall d: real :: d >= 0.0 ==> sqrt(d) >= 0.0 && Product(sqrt(d), sqrt(d)) == d
  }

  function Zip(x: seq<real>, y: seq<real>): (z: seq<Pair>)
    requires |x| == |y|
    ensures |z| == |x| && forall i :: 0 <= i < |z| ==> z[i] == (x[i], y[i])
  {
    seq(|x|, i requires 0 <= i < |x| => (x[i], y[i]))
  }

  function Quotient(numerator: real, denominator: real): Corr {
    if denominator == 0.0 then NaN else Value(numerator / denominator)
  }

  datatype Sums = Sums(x: real, y: real, xy: real, xx: real, yy: real)

  function SumsOf(z: seq<Pair>): Sums {
    Sums(Sum(z, X), Sum(z, Y), Sum(z, XY), Sum(z, XX), Sum(z, YY))
  }

  function FromSums(n: nat, s: Sums, sqrt: real -> real): Corr {
    if n < 2 then NaN
    else Quotient(Det(n as real, s.xy, s.x, s.y), sqrt(Product(Det(n as real, s.xx, s.x, s.x), Det(n as real, s.yy, s.y, s.y))))
  }

  /** The value as a function of the pairs. */
  function Correlation(z: seq<Pair>, sqrt: real -> real): Corr {
    FromSums(|z|, SumsOf(z), sqrt)
  }

  lemma SumsNext(z: seq<Pair>, i: nat, a: real, b: real)
    requires i < |z| && z[i] == (a, b)
    ensures var s := SumsOf(z[..i]);
            SumsOf(z[..i + 1]) == Sums(s.x + a, s.y + b, s.xy + a * b, s.xx + a * a, s.yy + b * b)
  {
    SumNext(z, i, X);
    SumNext(z, i, Y);
    SumNext(z, i, XY);
    SumNext(z, i, XX);
    SumNext(z, i, YY);
    assert X((a, b)) == a && Y((a, b)) == b && XY((a, b)) == a * b && XX((a, b)) == a * a && YY((a, b)) == b * b;
  }

  lemma SumNext(z: seq<Pair>, i: nat, f: Pair -> real)
    requires i < |z|
    ensures Sum(z[..i + 1], f) == Sum(z[..i], f) + f(z[i])
  {
    assert z[..i + 1][..i] == z[..i];
  }

  lemma NoSums(z: seq<Pair>)
    ensures SumsOf(z[..0]) == Sums(0.0, 0.0, 0.0, 0.0, 0.0)
  {
  }

  method FiveSums(x: seq<real>, y: seq<real>) returns (s: Sums)
    requires |x| == |y|
    ensures s == SumsOf(Zip(x, y))
  {
    hide SumsOf;
    ghost var z := Zip(x, y);
    NoSums(z);
    var sumX, sumY, sumXY, sumX2, sumY2 := 0.0, 0.0, 0.0, 0.0, 0.0;
    var i := 0;
    while i < |x|
      invariant 0 <= i <= |x|
      invariant Sums(sumX, sumY, sumXY, sumX2, sumY2) == SumsOf(z[..i])
    {
      SumsNext(z, i, x[i], y[i]);
      sumX := sumX + x[i];
      sumY := sumY + y[i];
      sumXY := sumXY + x[i] * y[i];
      sumX2 := sumX2 + x[i] * x[i];
      sumY2 := sumY2 + y[i] * y[i];
      i := i + 1;
    }
    assert z[..|x|] == z;
    s := Sums(sumX, sumY, sumXY, sumX2, sumY2);
  }

  /** Besides being the function of the pairs: the value times the geometric mean of the two sums of squared deviations is the sum
      of products of deviations; it is 1 for a rising line and -1 for a falling one; there is none exactly for short, unequal or
      constant series. */
  method CalculateCorrelation(x: seq<real>, y: seq<real>, sqrt: real -> real) returns (c: Corr)
    ensures c == if |x| != |y| then NaN else Correlation(Zip(x, y), sqrt)
    ensures IsSqrt(sqrt) ==> (c.NaN? <==> |x| != |y| || |x| < 2 || Flat(x) || Flat(y))
    ensures IsSqrt(sqrt) && c.Value? ==> Product(c.r, sqrt(Product(Spread(x), Spread(y)))) == Product(|x| as real, Codeviation(x, y))
                                         && (c.r > 0.0 <==> Codeviation(x, y) > 0.0)
    ensures IsSqrt(sqrt) ==> forall a, b :: !Flat(x) && OnLine(x, y, a, b) && a != 0.0 ==> c == Value(if a > 0.0 then 1.0 else -1.0)
  {
    Pearson(x, y, sqrt);
    hide Spread, Codeviation, Product, IsSqrt, Flat;
    if |x| != |y| || |x| < 2 {
      return NaN;
    }
    var s := FiveSums(x, y);
    c := Finish(|x|, s, sqrt);
  }

  method Finish(n: nat, s: Sums, sqrt: real -> real) returns (c: Corr)
    requires n >= 2
    ensures c == FromSums(n, s, sqrt)
  {
    var numerator := n as real * s.xy - s.x * s.y;
    assert numerator == Det(n as real, s.xy, s.x, s.y);
    var factorX, factorY := n as real * s.xx - s.x * s.x, n as real * s.yy - s.y * s.y;
    assert factorX == Det(n as real, s.xx, s.x, s.x) && factorY == Det(n as real, s.yy, s.y, s.y);
    var denominator := sqrt(Product(factorX, factorY));
    if denominator == 0.0 {
      return NaN;
    }
    return Value(numerator / denominator);
  }

  // ------------------------------------------------------------------ linear combinations of sums

  lemma LinearStep(c1: real, s1: real, v1: real, c2: real, s2: real, v2: real, c3: real, s3: real, v3: real, c0: real, n: real)
    ensures c1 * (s1 + v1) + c2 * (s2 + v2) + c3 * (s3 + v3) + c0 * (n + 1.0)
            == (c1 * s1 + c2 * s2 + c3 * s3 + c0 * n) + (c1 * v1 + c2 * v2 + c3 * v3 + c0)
  {
  }

  /** h is c1*f1 + c2*f2 + c3*f3 + c0, place by place. */
  ghost predicate Combines(h: Pair -> real, c1: real, f1: Pair -> real, c2: real, f2: Pair -> real, c3: real, f3: Pair -> real, c0: real) {
    forall p: Pair :: h(p) == c1 * f1(p) + c2 * f2(p) + c3 * f3(p) + c0
  }

  predicate Combo(r: real, c1: real, s1: real, c2: real, s2: real, c3: real, s3: real, c0: real, n: real) {
    r == c1 * s1 + c2 * s2 + c3 * s3 + c0 * n
  }

  lemma {:induction false} SumCombines(z: seq<Pair>, h: Pair -> real, c1: real, f1: Pair -> real, c2: real, f2: Pair -> real,
                                       c3: real, f3: Pair -> real, c0: real)
    requires Combines(h, c1, f1, c2, f2, c3, f3, c0)
    ensures Combo(Sum(z, h), c1, Sum(z, f1), c2, Sum(z, f2), c3, Sum(z, f3), c0, |z| as real)
  {
    if z != [] {
      var init, p := z[..|z| - 1], z[|z| - 1];
      SumCombines(init, h, c1, f1, c2, f2, c3, f3, c0);
      LinearStep(c1, Sum(init, f1), f1(p), c2, Sum(init, f2), f2(p), c3, Sum(init, f3), f3(p), c0, |init| as real);
    }
  }

  lemma {:induction false} SumNonNegative(z: seq<Pair>, f: Pair -> real)
    requires forall p: Pair :: f(p) >= 0.0
    ensures Sum(z, f) >= 0.0
    ensures Sum(z, f) == 0.0 <==> forall i :: 0 <= i < |z| ==> f(z[i]) == 0.0
  {
    if z != [] {
      var init := z[..|z| - 1];
      SumNonNegative(init, f);
      assert forall i :: 0 <= i < |init| ==> init[i] == z[i];
    }
  }

  // ------------------------------------------------------------------ both variance factors are non-negative

  function Square(f: Pair -> real): Pair -> real {
    p => f(p) * f(p)
  }

  function Deviation(f: Pair -> real, a: real): Pair -> real {
    p => Product(f(p) - a, f(p) - a)
  }

  lemma PositiveProduct(a: real, b: real)
    requires a > 0.0 && b > 0.0
    ensures Product(a, b) > 0.0
  {
  }

  lemma NegatedSquare(a: real)
    ensures Product(-a, -a) == Product(a, a)
  {
  }

  lemma ZeroProduct(a: real, b: real)
    requires a == 0.0 || b == 0.0
    ensures Product(a, b) == 0.0
  {
  }

  lemma PositiveSquare(a: real)
    requires a != 0.0
    ensures Product(a, a) > 0.0
  {
    NegatedSquare(a);
    if a > 0.0 {
      PositiveProduct(a, a);
    } else {
      PositiveProduct(-a, -a);
    }
  }

  lemma SquareSign(a: real)
    ensures Product(a, a) >= 0.0 && (Product(a, a) == 0.0 <==> a == 0.0)
  {
    if a == 0.0 {
      ZeroProduct(a, a);
    } else {
      PositiveSquare(a);
    }
  }

  lemma DeviationCombines(f: Pair -> real, a: real)
    ensures Combines(Deviation(f, a), 1.0, Square(f), -2.0 * a, f, 0.0, f, a * a)
  {
    forall p: Pair
      ensures Deviation(f, a)(p) == 1.0 * Square(f)(p) + (-2.0 * a) * f(p) + 0.0 * f(p) + a * a
    {
      DeviationAlgebra(f(p), a);
    }
  }

  lemma DeviationAlgebra(v: real, a: real)
    ensures (v - a) * (v - a) == 1.0 * (v * v) + (-2.0 * a) * v + 0.0 * v + a * a
  {
    assert (v - a) * (v - a) == v * v - a * v - a * v + a * a;
  }

  lemma MeanAlgebra(n: real, sq: real, s: real, a: real, d: real)
    requires n > 0.0 && a == s / n && Combo(d, 1.0, sq, -2.0 * a, s, 0.0, s, a * a, n)
    ensures n * d == Det(n, sq, s, s)
  {
    assert a * n == s;
    assert n * ((-2.0 * a) * s) == -2.0 * (a * n) * s;
    assert n * (a * a * n) == (a * n) * (a * n);
  }

  lemma ProductSign(n: real, d: real)
    requires n > 0.0 && d >= 0.0
    ensures n * d >= 0.0 && (n * d == 0.0 <==> d == 0.0)
  {
  }

  lemma {:induction false} DeviationSum(z: seq<Pair>, f: Pair -> real, a: real)
    ensures Combo(Sum(z, Deviation(f, a)), 1.0, Sum(z, Square(f)), -2.0 * a, Sum(z, f), 0.0, Sum(z, f), a * a, |z| as real)
  {
    DeviationCombines(f, a);
    SumCombines(z, Deviation(f, a), 1.0, Square(f), -2.0 * a, f, 0.0, f, a * a);
  }

  /** The mean of f, and how the sum of squared deviations from it is n-th of the factor. */
  lemma DeviationFromMean(z: seq<Pair>, f: Pair -> real) returns (a: real, d: real)
    requires z != []
    ensures a == Sum(z, f) / |z| as real && d == Sum(z, Deviation(f, a))
    ensures |z| as real * d == Det(|z| as real, Sum(z, Square(f)), Sum(z, f), Sum(z, f))
  {
    hide Sum, Det, Combo, Deviation, Square;
    var n, s := |z| as real, Sum(z, f);
    a := s / n;
    d := Sum(z, Deviation(f, a));
    DeviationSum(z, f, a);
    MeanAlgebra(n, Sum(z, Square(f)), s, a, d);
  }

  lemma {:induction false} DeviationSign(z: seq<Pair>, f: Pair -> real, a: real)
    ensures Sum(z, Deviation(f, a)) >= 0.0
    ensures Sum(z, Deviation(f, a)) == 0.0 <==> forall i :: 0 <= i < |z| ==> f(z[i]) == a
  {
    var g := Deviation(f, a);
    forall p: Pair
      ensures g(p) >= 0.0 && (g(p) == 0.0 <==> f(p) == a)
    {
      SquareSign(f(p) - a);
    }
    SumNonNegative(z, g);
  }

  ghost predicate Constant(z: seq<Pair>, f: Pair -> real) {
    forall i, j :: 0 <= i < |z| && 0 <= j < |z| ==> f(z[i]) == f(z[j])
  }

  /** The factor of any quantity is n times the sum of squared deviations from its mean: never negative, and zero exactly
      when the quantity is constant. */
  lemma {:induction false} FactorIsDeviation(z: seq<Pair>, f: Pair -> real)
    ensures Det(|z| as real, Sum(z, Square(f)), Sum(z, f), Sum(z, f)) >= 0.0
    ensures Det(|z| as real, Sum(z, Square(f)), Sum(z, f), Sum(z, f)) == 0.0 <==> Constant(z, f)
  {
    if z != [] {
      var a, d := DeviationFromMean(z, f);
      DeviationSign(z, f, a);
      ProductSign(|z| as real, d);
      ConstantIsMean(z, f, |z| as real, a);
    }
  }

  lemma {:induction false} SumConstant(z: seq<Pair>, f: Pair -> real, c: real)
    requires forall i :: 0 <= i < |z| ==> f(z[i]) == c
    ensures Sum(z, f) == c * |z| as real
  {
    if z != [] {
      SumConstant(z[..|z| - 1], f, c);
    }
  }

  lemma {:induction false} ConstantIsMean(z: seq<Pair>, f: Pair -> real, n: real, a: real)
    requires z != [] && n == |z| as real && a == Sum(z, f) / n
    ensures Constant(z, f) <==> forall i :: 0 <= i < |z| ==> f(z[i]) == a
  {
    if Constant(z, f) {
      var c := f(z[0]);
      SumConstant(z, f, c);
      assert c * n / n == c;
    }
  }

  lemma {:induction false} SumSame(z: seq<Pair>, f: Pair -> real, g: Pair -> real)
    requires forall p: Pair :: f(p) == g(p)
    ensures Sum(z, f) == Sum(z, g)
  {
    if z != [] {
      SumSame(z[..|z| - 1], f, g);
    }
  }

  lemma SquaresAre()
    ensures forall p: Pair :: Square(X)(p) == XX(p)
    ensures forall p: Pair :: Square(Y)(p) == YY(p)
  {
    forall p: Pair
      ensures Square(X)(p) == XX(p) && Square(Y)(p) == YY(p)
    {
      assert X(p) == p.0 && Y(p) == p.1;
      assert Square(X)(p) == X(p) * X(p);
      assert Square(Y)(p) == Y(p) * Y(p);
    }
  }

  lemma {:induction false} FactorXIsFactor(z: seq<Pair>)
    ensures FactorX(z) == Det(|z| as real, Sum(z, Square(X)), Sum(z, X), Sum(z, X))
    ensures FactorY(z) == Det(|z| as real, Sum(z, Square(Y)), Sum(z, Y), Sum(z, Y))
  {
    SquaresAre();
    SumSame(z, Square(X), XX);
    SumSame(z, Square(Y), YY);
  }

  lemma FactorsNonNegative(z: seq<Pair>)
    ensures FactorX(z) >= 0.0 && FactorY(z) >= 0.0
  {
    FactorXIsFactor(z);
    FactorIsDeviation(z, X);
    FactorIsDeviation(z, Y);
  }

  // ------------------------------------------------------------------ the bound

  function Mixed(t: real): Pair -> real {
    (p: Pair) => p.0 + t * p.1
  }

  lemma MixedAlgebra(x: real, y: real, t: real)
    ensures (x + t * y) * (x + t * y) == 1.0 * (x * x) + (2.0 * t) * (x * y) + (t * t) * (y * y) + 0.0
  {
  }

  lemma MixedCombines(t: real)
    ensures Combines(Mixed(t), 1.0, X, t, Y, 0.0, X, 0.0)
    ensures Combines(Square(Mixed(t)), 1.0, XX, 2.0 * t, XY, t * t, YY, 0.0)
  {
    forall p: Pair
      ensures Square(Mixed(t))(p) == 1.0 * XX(p) + (2.0 * t) * XY(p) + (t * t) * YY(p) + 0.0
    {
      MixedAlgebra(p.0, p.1, t);
    }
  }

  lemma QuadraticAlgebra(n: real, x: real, y: real, xy: real, xx: real, yy: real, t: real, q: real, s: real)
    requires Combo(q, 1.0, xx, 2.0 * t, xy, t * t, yy, 0.0, n) && Combo(s, 1.0, x, t, y, 0.0, x, 0.0, n)
    ensures Det(n, q, s, s) == Det(n, xx, x, x) + 2.0 * t * Det(n, xy, x, y) + t * t * Det(n, yy, y, y)
  {
    assert s * s == x * x + 2.0 * t * (x * y) + t * t * (y * y);
    assert n * q == n * xx + 2.0 * t * (n * xy) + t * t * (n * yy);
  }

  /** The variance factor of x + t*y is a quadratic in t, and never negative. */
  lemma Quadratic(z: seq<Pair>, t: real)
    ensures FactorX(z) + 2.0 * t * Numerator(z) + t * t * FactorY(z) >= 0.0
  {
    MixedCombines(t);
    SumCombines(z, Mixed(t), 1.0, X, t, Y, 0.0, X, 0.0);
    SumCombines(z, Square(Mixed(t)), 1.0, XX, 2.0 * t, XY, t * t, YY, 0.0);
    FactorIsDeviation(z, Mixed(t));
    QuadraticAlgebra(|z| as real, Sum(z, X), Sum(z, Y), Sum(z, XY), Sum(z, XX), Sum(z, YY), t,
                     Sum(z, Square(Mixed(t))), Sum(z, Mixed(t)));
  }

  lemma Discriminant(a: real, b: real, c: real, t: real)
    requires c > 0.0 && t == -b / c && a + 2.0 * t * b + t * t * c >= 0.0
    ensures b * b <= a * c
  {
    assert t * c == -b;
    assert t * t * c == t * (t * c) == t * -b;
    assert a + t * b >= 0.0;
    assert (a + t * b) * c == a * c + (t * c) * b;
    assert (a + t * b) * c >= 0.0;
  }

  lemma FindNegative(a: real, b: real) returns (t: real)
    requires b != 0.0
    ensures !NotNegative(a, b, 0.0, t)
  {
    t := -(a + 1.0) / (2.0 * b);
    assert t * (2.0 * b) == -(a + 1.0);
  }

  /** A quadratic a + 2bt + ctt that is never negative, with c not negative, has b*b at most a*c. */
  lemma QuadraticBound(a: real, b: real, c: real)
    requires a >= 0.0 && c >= 0.0 && forall t: real :: NotNegative(a, b, c, t)
    ensures b * b <= a * c
  {
    if c > 0.0 {
      assert NotNegative(a, b, c, -b / c);
      Discriminant(a, b, c, -b / c);
    } else if b != 0.0 {
      var t := FindNegative(a, b);
    }
  }

  predicate NotNegative(a: real, b: real, c: real, t: real) {
    a + 2.0 * t * b + t * t * c >= 0.0
  }

  /** The square of the numerator is at most the product of the two factors. */
  lemma CauchySchwarz(z: seq<Pair>)
    ensures Numerator(z) * Numerator(z) <= Product(FactorX(z), FactorY(z))
  {
    FactorsNonNegative(z);
    forall t: real
      ensures NotNegative(FactorX(z), Numerator(z), FactorY(z), t)
    {
      Quadratic(z, t);
    }
    QuadraticBound(FactorX(z), Numerator(z), FactorY(z));
  }

  lemma SquareOrder(n: real, d: real)
    requires 0.0 < d < n
    ensures n * n > d * d
  {
    assert (n - d) * (n + d) > 0.0;
    assert (n - d) * (n + d) == n * n - d * d;
  }

  lemma QuotientBound(n: real, d: real)
    requires d > 0.0 && n * n <= d * d
    ensures -1.0 <= n / d <= 1.0
  {
    if n > d {
      SquareOrder(n, d);
    }
    if -n > d {
      SquareOrder(-n, d);
    }
    QuotientOrder(n, d);
  }

  lemma QuotientOrder(n: real, d: real)
    requires d > 0.0 && -d <= n <= d
    ensures -1.0 <= n / d <= 1.0
  {
  }

  lemma RadicandNonNegative(z: seq<Pair>)
    ensures Product(FactorX(z), FactorY(z)) >= 0.0
  {
    FactorsNonNegative(z);
    ProductPositive(FactorX(z), FactorY(z));
  }

  /** A computed correlation lies in [-1, 1]. */
  lemma CorrelationBounded(z: seq<Pair>, sqrt: real -> real)
    requires IsSqrt(sqrt)
    ensures Correlation(z, sqrt).Value? ==> -1.0 <= Correlation(z, sqrt).r <= 1.0
  {
    CauchySchwarz(z);
    RadicandNonNegative(z);
    CorrelationIsQuotient(z, sqrt);
    BoundedQuotient(Correlation(z, sqrt), Numerator(z), Product(FactorX(z), FactorY(z)), sqrt);
  }

  lemma BoundedQuotient(c: Corr, n: real, d: real, sqrt: real -> real)
    requires IsSqrt(sqrt) && n * n <= d && d >= 0.0 && (c.NaN? || c == Quotient(n, sqrt(d)))
    ensures c.Value? ==> -1.0 <= c.r <= 1.0
  {
    BoundedBySqrt(n, d, sqrt);
  }

  lemma CorrelationIsQuotient(z: seq<Pair>, sqrt: real -> real)
    ensures Correlation(z, sqrt) == if |z| < 2 then NaN else Quotient(Numerator(z), sqrt(Product(FactorX(z), FactorY(z))))
  {
  }

  lemma BoundedBySqrt(n: real, d: real, sqrt: real -> real)
    requires IsSqrt(sqrt) && n * n <= d && d >= 0.0
    ensures Quotient(n, sqrt(d)).Value? ==> -1.0 <= Quotient(n, sqrt(d)).r <= 1.0
  {
    if sqrt(d) != 0.0 {
      QuotientBound(n, sqrt(d));
    }
  }

  // ------------------------------------------------------------------ when there is no value

  lemma ProductPositive(a: real, b: real)
    requires a >= 0.0 && b >= 0.0
    ensures Product(a, b) >= 0.0 && (Product(a, b) == 0.0 <==> a == 0.0 || b == 0.0)
  {
    if a == 0.0 || b == 0.0 {
      ZeroProduct(a, b);
    } else {
      PositiveProduct(a, b);
    }
  }

  lemma SqrtZero(d: real, sqrt: real -> real)
    requires IsSqrt(sqrt) && d >= 0.0
    ensures sqrt(d) == 0.0 <==> d == 0.0
  {
    SquareSign(sqrt(d));
  }

  /** There is no value exactly with fewer than two pairs or when one of the series is constant. */
  lemma NoValueExactly(z: seq<Pair>, sqrt: real -> real)
    requires IsSqrt(sqrt)
    ensures Correlation(z, sqrt).NaN? <==> |z| < 2 || Constant(z, X) || Constant(z, Y)
  {
    var a, b := FactorX(z), FactorY(z);
    FactorXIsFactor(z);
    FactorIsDeviation(z, X);
    FactorIsDeviation(z, Y);
    ProductPositive(a, b);
    SqrtZero(Product(a, b), sqrt);
    CorrelationIsQuotient(z, sqrt);
  }

  // ------------------------------------------------------------------ Pearson's coefficient

  function Total(v: seq<real>): real {
    if v == [] then 0.0 else Total(v[..|v| - 1]) + v[|v| - 1]
  }

  function Mean(v: seq<real>): real
    requires v != []
  {
    Total(v) / |v| as real
  }

  /** The products of what x is off a and y is off b, summed. */
  function Off(x: seq<real>, a: real, y: seq<real>, b: real): real
    requires |x| == |y|
  {
    if x == [] then 0.0 else Off(x[..|x| - 1], a, y[..|y| - 1], b) + Product(x[|x| - 1] - a, y[|y| - 1] - b)
  }

  /** The sum of products of deviations from the means: n times the covariance. */
  function Codeviation(x: seq<real>, y: seq<real>): real
    requires |x| == |y|
  {
    if x == [] then 0.0 else Off(x, Mean(x), y, Mean(y))
  }

  /** n times the sum of squared deviations. */
  function Spread(v: seq<real>): real {
    Product(|v| as real, Codeviation(v, v))
  }

  ghost predicate Flat(v: seq<real>) {
    forall i, j :: 0 <= i < |v| && 0 <= j < |v| ==> v[i] == v[j]
  }

  ghost predicate OnLine(x: seq<real>, y: seq<real>, a: real, b: real) {
    |x| == |y| && forall i :: 0 <= i < |x| ==> y[i] == a * x[i] + b
  }

  lemma {:induction false} TotalIsSum(x: seq<real>, y: seq<real>)
    requires |x| == |y|
    ensures Sum(Zip(x, y), X) == Total(x) && Sum(Zip(x, y), Y) == Total(y)
  {
    if x != [] {
      var k := |x| - 1;
      assert Zip(x, y)[..k] == Zip(x[..k], y[..k]);
      TotalIsSum(x[..k], y[..k]);
    }
  }

  /** sum (x-a)(y-b) == sum xy - b sum x - a sum y + n a b */
  lemma {:induction false} OffIs(x: seq<real>, a: real, y: seq<real>, b: real)
    requires |x| == |y|
    ensures Off(x, a, y, b) == Expanded(Sum(Zip(x, y), XY), Total(x), Total(y), |x| as real, a, b)
  {
    if x == [] {
      NothingExpanded(a, b);
    } else {
      var k := |x| - 1;
      assert Zip(x, y)[..k] == Zip(x[..k], y[..k]);
      OffIs(x[..k], a, y[..k], b);
      assert XY((x[k], y[k])) == Product(x[k], y[k]);
      hide Product, XY, Expanded;
      OffStep(Sum(Zip(x[..k], y[..k]), XY), Total(x[..k]), Total(y[..k]), k as real, a, b, x[k], y[k]);
    }
  }

  function Expanded(sxy: real, sx: real, sy: real, n: real, a: real, b: real): real {
    sxy - Product(b, sx) - Product(a, sy) + Product(n, Product(a, b))
  }

  lemma NothingExpanded(a: real, b: real)
    ensures Expanded(0.0, 0.0, 0.0, 0.0, a, b) == 0.0
  {
    ZeroProduct(a, 0.0);
    ZeroProduct(b, 0.0);
    ZeroProduct(0.0, Product(a, b));
  }

  lemma OffStep(sxy: real, sx: real, sy: real, n: real, a: real, b: real, x: real, y: real)
    ensures Expanded(sxy, sx, sy, n, a, b) + Product(x - a, y - b) == Expanded(sxy + Product(x, y), sx + x, sy + y, n + 1.0, a, b)
  {
    assert (x - a) * (y - b) == x * y - b * x - a * y + a * b;
  }

  lemma MeansCancel(n: real, sxy: real, sx: real, sy: real, a: real, b: real)
    requires n > 0.0 && a == sx / n && b == sy / n
    ensures Product(n, Expanded(sxy, sx, sy, n, a, b)) == Det(n, sxy, sx, sy)
  {
    assert a * n == sx && b * n == sy;
    assert n * (b * sx) == sx * sy && n * (a * sy) == sx * sy;
    assert n * (n * (a * b)) == (a * n) * (b * n);
  }

  lemma NoPairs()
    ensures Numerator([]) == 0.0 && Product(0.0, 0.0) == 0.0
  {
  }

  /** The numerator is n times the sum of products of deviations. */
  lemma NumeratorIsCodeviation(x: seq<real>, y: seq<real>)
    requires |x| == |y|
    ensures Numerator(Zip(x, y)) == Product(|x| as real, Codeviation(x, y))
  {
    NoPairs();
    hide Product, Off, Total, Sum, Det, Expanded;
    TotalIsSum(x, y);
    if x == [] {
      assert Zip(x, y) == [];
    } else {
      var n, a, b := |x| as real, Mean(x), Mean(y);
      OffIs(x, a, y, b);
      MeansCancel(n, Sum(Zip(x, y), XY), Total(x), Total(y), a, b);
    }
  }

  lemma {:induction false} SquareSums(x: seq<real>, y: seq<real>)
    requires |x| == |y|
    ensures Sum(Zip(x, x), XY) == Sum(Zip(x, y), XX) && Sum(Zip(y, y), XY) == Sum(Zip(x, y), YY)
  {
    if x != [] {
      var k := |x| - 1;
      assert Zip(x, y)[..k] == Zip(x[..k], y[..k]) && Zip(x, x)[..k] == Zip(x[..k], x[..k]) && Zip(y, y)[..k] == Zip(y[..k], y[..k]);
      SquareSums(x[..k], y[..k]);
    }
  }

  lemma {:induction false} SelfSums(x: seq<real>)
    ensures Spread(x) == Det(|x| as real, Sum(Zip(x, x), XY), Total(x), Total(x))
  {
    TotalIsSum(x, x);
    hide Sum, Codeviation, Product, Det;
    NumeratorIsCodeviation(x, x);
  }

  /** The two factors are n times the sums of squared deviations. */
  lemma FactorsAreSpreads(x: seq<real>, y: seq<real>)
    requires |x| == |y|
    ensures FactorX(Zip(x, y)) == Spread(x) && FactorY(Zip(x, y)) == Spread(y)
  {
    hide Sum, Spread, Total, Det;
    SelfSums(x);
    SelfSums(y);
    SquareSums(x, y);
    TotalIsSum(x, y);
  }

  lemma FlatIsConstant(x: seq<real>, y: seq<real>)
    requires |x| == |y|
    ensures (Flat(x) <==> Constant(Zip(x, y), X)) && (Flat(y) <==> Constant(Zip(x, y), Y))
  {
    var z := Zip(x, y);
    assert forall i :: 0 <= i < |z| ==> X(z[i]) == x[i] && Y(z[i]) == y[i];
  }

  lemma SqrtPositive(d: real, sqrt: real -> real)
    requires IsSqrt(sqrt) && d >= 0.0 && sqrt(d) != 0.0
    ensures sqrt(d) > 0.0
  {
  }

  lemma QuotientTimes(n: real, d: real)
    requires d > 0.0
    ensures Product(n / d, d) == n && (n / d > 0.0 <==> n > 0.0)
  {
    if n > 0.0 {
      assert n / d > 0.0;
    } else if n < 0.0 {
      assert n / d < 0.0;
    }
  }

  lemma SameSign(n: real, d: real)
    requires n > 0.0
    ensures Product(n, d) > 0.0 <==> d > 0.0
  {
    if d > 0.0 {
      PositiveProduct(n, d);
    } else if d < 0.0 {
      PositiveProduct(n, -d);
    }
  }

  /** The value times the root of the product of the spreads is n times the sum of products of deviations. */
  lemma ValueTimesRoot(x: seq<real>, y: seq<real>, sqrt: real -> real)
    requires IsSqrt(sqrt) && |x| == |y| && Correlation(Zip(x, y), sqrt).Value?
    ensures var c := Correlation(Zip(x, y), sqrt).r;
            && Product(c, sqrt(Product(Spread(x), Spread(y)))) == Product(|x| as real, Codeviation(x, y))
            && (c > 0.0 <==> Codeviation(x, y) > 0.0)
  {
    var z := Zip(x, y);
    hide Codeviation, IsSqrt, Numerator, FactorX, FactorY, Correlation, Spread, Product;
    CorrelationIsQuotient(z, sqrt);
    NumeratorIsCodeviation(x, y);
    FactorsAreSpreads(x, y);
    RadicandNonNegative(z);
    SqrtPositive(Product(FactorX(z), FactorY(z)), sqrt);
    QuotientTimes(Numerator(z), sqrt(Product(FactorX(z), FactorY(z))));
    SameSign(|x| as real, Codeviation(x, y));
  }

  // ------------------------------------------------------------------ points on a line

  lemma {:induction false} LineTotal(x: seq<real>, y: seq<real>, a: real, b: real)
    requires OnLine(x, y, a, b)
    ensures Total(y) == Product(a, Total(x)) + Product(b, |x| as real)
  {
    if x == [] {
      ZeroProduct(a, 0.0);
      ZeroProduct(b, 0.0);
    } else {
      var k := |x| - 1;
      LineTotal(x[..k], y[..k], a, b);
      TotalStep(a, Total(x[..k]), x[k], b, k as real);
    }
  }

  lemma TotalStep(a: real, s: real, x: real, b: real, n: real)
    ensures Product(a, s) + Product(b, n) + (a * x + b) == Product(a, s + x) + Product(b, n + 1.0)
  {
  }

  lemma LineMean(n: real, s: real, a: real, b: real)
    requires n > 0.0
    ensures (Product(a, s) + Product(b, n)) / n == a * (s / n) + b
  {
    assert a * s / n == a * (s / n) && b * n / n == b;
  }

  lemma {:induction false} LineOff(x: seq<real>, y: seq<real>, a: real, b: real, m: real, k: real)
    requires OnLine(x, y, a, b) && k == a * m + b
    ensures Off(x, m, y, k) == Product(a, Off(x, m, x, m)) && Off(y, k, y, k) == Product(Product(a, a), Off(x, m, x, m))
  {
    if x == [] {
      ZeroProduct(a, 0.0);
      ZeroProduct(Product(a, a), 0.0);
    } else {
      var i := |x| - 1;
      assert y[i] == a * x[i] + b;
      LineOff(x[..i], y[..i], a, b, m, k);
      LineStep(Off(x[..i], m, x[..i], m), a, b, m, k, x[i], y[i]);
      hide Product, OnLine;
    }
  }

  lemma LineStep(off: real, a: real, b: real, m: real, k: real, x: real, y: real)
    requires y == a * x + b && k == a * m + b
    ensures Product(a, off) + Product(x - m, y - k) == Product(a, off + Product(x - m, x - m))
    ensures Product(Product(a, a), off) + Product(y - k, y - k) == Product(Product(a, a), off + Product(x - m, x - m))
  {
    var d := x - m;
    assert y - k == a * d;
    assert (a * d) * (a * d) == a * a * (d * d);
  }

  lemma LineCodeviation(x: seq<real>, y: seq<real>, a: real, b: real)
    requires OnLine(x, y, a, b) && x != []
    ensures Codeviation(x, y) == Product(a, Codeviation(x, x)) && Codeviation(y, y) == Product(Product(a, a), Codeviation(x, x))
  {
    LineTotal(x, y, a, b);
    assert |y| == |x| && y != [];
    hide Off, Total, OnLine, Product;
    LineMean(|x| as real, Total(x), a, b);
    LineOff(x, y, a, b, Mean(x), Mean(y));
  }

  lemma LineScales(n: real, s: real, a: real)
    ensures Product(n, Product(a, s)) == Product(a, Product(n, s))
    ensures Product(n, Product(Product(a, a), s)) == Product(Product(a, a), Product(n, s))
  {
  }

  lemma LineSpread(x: seq<real>, y: seq<real>, a: real, b: real)
    requires OnLine(x, y, a, b) && x != []
    ensures Spread(y) == Product(Product(a, a), Spread(x)) && Product(|x| as real, Codeviation(x, y)) == Product(a, Spread(x))
  {
    LineCodeviation(x, y, a, b);
    assert |y| == |x|;
    hide Codeviation, OnLine, Product;
    LineScales(|x| as real, Codeviation(x, x), a);
  }

  lemma RootIs(d: real, r: real)
    requires d >= 0.0 && Product(d, d) == Product(r, r)
    ensures d == if r >= 0.0 then r else -r
  {
    var e := if r >= 0.0 then r else -r;
    assert (d - e) * (d + e) == d * d - e * e == 0.0;
    if d < e {
      PositiveProduct(e - d, d + e);
    } else if e < d {
      PositiveProduct(d - e, d + e);
    }
  }

  lemma CancelFactor(c: real, k: real, d: real)
    requires d != 0.0 && Product(c, d) == Product(k, d)
    ensures c == k
  {
    assert (c * d) / d == c && (k * d) / d == k;
  }

  lemma UnitRatio(c: real, r: real, d: real)
    requires r != 0.0 && Product(c, d) == r && d == (if r >= 0.0 then r else -r)
    ensures c == if r > 0.0 then 1.0 else -1.0
  {
    CancelFactor(c, if r > 0.0 then 1.0 else -1.0, d);
  }

  lemma SlopeSign(a: real, t: real)
    requires t > 0.0 && a != 0.0
    ensures Product(a, t) != 0.0 && (Product(a, t) > 0.0 <==> a > 0.0)
  {
    if a > 0.0 {
      PositiveProduct(a, t);
    } else {
      PositiveProduct(-a, t);
    }
  }

  lemma LineRoot(p: real, q: real, a: real, sqrt: real -> real)
    requires IsSqrt(sqrt) && q == Product(Product(a, a), p)
    ensures sqrt(Product(p, q)) == if Product(a, p) >= 0.0 then Product(a, p) else -Product(a, p)
  {
    var r := Product(a, p);
    SquareOfProduct(a, p);
    SquareSign(r);
    hide Product;
    RootIs(sqrt(Product(p, q)), r);
  }

  lemma SquareOfProduct(a: real, p: real)
    ensures Product(p, Product(Product(a, a), p)) == Product(Product(a, p), Product(a, p))
  {
  }

  lemma FactorPositive(z: seq<Pair>)
    requires !Constant(z, X)
    ensures FactorX(z) > 0.0
  {
    FactorXIsFactor(z);
    FactorIsDeviation(z, X);
  }

  lemma SpreadPositive(x: seq<real>, y: seq<real>)
    requires |x| == |y| && !Flat(x)
    ensures Spread(x) > 0.0
  {
    FlatIsConstant(x, y);
    hide Spread, Flat, Constant, Zip, FactorX, FactorY;
    FactorsAreSpreads(x, y);
    FactorPositive(Zip(x, y));
  }

  lemma LineFlat(x: seq<real>, y: seq<real>, a: real, b: real)
    requires OnLine(x, y, a, b) && a != 0.0 && !Flat(x)
    ensures !Flat(y) && |x| >= 2
  {
    var i, j :| 0 <= i < |x| && 0 <= j < |x| && x[i] != x[j];
    if y[i] == y[j] {
      assert Product(a, x[i]) == Product(a, x[j]);
      CancelLeft(a, x[i], x[j]);
    }
  }

  lemma CancelLeft(a: real, x: real, y: real)
    requires a != 0.0 && Product(a, x) == Product(a, y)
    ensures x == y
  {
    CancelFactor(x, y, a);
  }

  /** Points on a line that is not level: 1 when it rises, -1 when it falls. */
  lemma LineIsOne(x: seq<real>, y: seq<real>, sqrt: real -> real, a: real, b: real)
    requires IsSqrt(sqrt) && OnLine(x, y, a, b) && a != 0.0 && !Flat(x)
    ensures Correlation(Zip(x, y), sqrt) == Value(if a > 0.0 then 1.0 else -1.0)
  {
    var z := Zip(x, y);
    LineFlat(x, y, a, b);
    FlatIsConstant(x, y);
    NoValueExactly(z, sqrt);
    hide Spread, Product, Correlation, Flat, Constant, IsSqrt, OnLine;
    SpreadPositive(x, y);
    SlopeSign(a, Spread(x));
    ValueTimesRoot(x, y, sqrt);
    LineSpread(x, y, a, b);
    LineRoot(Spread(x), Spread(y), a, sqrt);
    UnitRatio(Correlation(z, sqrt).r, Product(a, Spread(x)), sqrt(Product(Spread(x), Spread(y))));
  }

  lemma Pearson(x: seq<real>, y: seq<real>, sqrt: real -> real)
    ensures IsSqrt(sqrt) && |x| == |y| ==>
              var c := Correlation(Zip(x, y), sqrt);
              && (c.NaN? <==> |x| < 2 || Flat(x) || Flat(y))
              && (c.Value? ==> Product(c.r, sqrt(Product(Spread(x), Spread(y)))) == Product(|x| as real, Codeviation(x, y))
                               && (c.r > 0.0 <==> Codeviation(x, y) > 0.0))
              && forall a, b :: !Flat(x) && OnLine(x, y, a, b) && a != 0.0 ==> c == Value(if a > 0.0 then 1.0 else -1.0)
  {
    if IsSqrt(sqrt) && |x| == |y| {
      hide Codeviation, Spread, Correlation, IsSqrt, Product;
      FlatIsConstant(x, y);
      NoValueExactly(Zip(x, y), sqrt);
      if Correlation(Zip(x, y), sqrt).Value? {
        ValueTimesRoot(x, y, sqrt);
      }
      forall a, b | !Flat(x) && OnLine(x, y, a, b) && a != 0.0
        ensures Correlation(Zip(x, y), sqrt) == Value(if a > 0.0 then 1.0 else -1.0)
      {
        LineIsOne(x, y, sqrt, a, b);
      }
    }
  }

  // ------------------------------------------------------------------ symmetry and order

  function Swapped(z: seq<Pair>): (r: seq<Pair>)
    ensures |r| == |z| && forall i :: 0 <= i < |r| ==> r[i] == (z[i].1, z[i].0)
  {
    seq(|z|, i requires 0 <= i < |z| => (z[i].1, z[i].0))
  }

  lemma {:induction false} SwappedSum(z: seq<Pair>, f: Pair -> real, g: Pair -> real)
    requires forall p: Pair :: f((p.1, p.0)) == g(p)
    ensures Sum(Swapped(z), f) == Sum(z, g)
  {
    if z != [] {
      assert Swapped(z)[..|z| - 1] == Swapped(z[..|z| - 1]);
      SwappedSum(z[..|z| - 1], f, g);
    }
  }

  lemma Commutes(a: real, b: real)
    ensures a * b == b * a
  {
  }

  lemma SwappedSums(z: seq<Pair>)
    ensures var s, r := SumsOf(z), SumsOf(Swapped(z)); r == Sums(s.y, s.x, s.xy, s.yy, s.xx)
  {
    SwappedSum(z, X, Y);
    SwappedSum(z, Y, X);
    forall p: Pair
      ensures XY((p.1, p.0)) == XY(p)
    {
      Commutes(p.0, p.1);
    }
    SwappedSum(z, XY, XY);
    SwappedSum(z, XX, YY);
    SwappedSum(z, YY, XX);
  }

  /** Swapping the two series changes nothing. */
  lemma CorrelationSymmetric(z: seq<Pair>, sqrt: real -> real)
    ensures Correlation(Swapped(z), sqrt) == Correlation(z, sqrt)
  {
    SwappedSums(z);
    SwappedFormula(|z|, SumsOf(z), SumsOf(Swapped(z)), sqrt);
  }

  lemma DetCommutes(n: real, a: real, b: real, c: real)
    ensures Det(n, a, b, c) == Det(n, a, c, b)
  {
  }

  lemma ProductCommutes(a: real, b: real)
    ensures Product(a, b) == Product(b, a)
  {
  }

  lemma SwappedFormula(n: nat, s: Sums, r: Sums, sqrt: real -> real)
    requires r == Sums(s.y, s.x, s.xy, s.yy, s.xx)
    ensures FromSums(n, r, sqrt) == FromSums(n, s, sqrt)
  {
    DetCommutes(n as real, s.xy, s.x, s.y);
    ProductCommutes(Det(n as real, s.xx, s.x, s.x), Det(n as real, s.yy, s.y, s.y));
  }

  lemma {:induction false} SumConcat(a: seq<Pair>, b: seq<Pair>, f: Pair -> real)
    ensures Sum(a + b, f) == Sum(a, f) + Sum(b, f)
  {
    if b == [] {
      assert a + b == a;
    } else {
      assert (a + b)[..|a + b| - 1] == a + b[..|b| - 1];
      SumConcat(a, b[..|b| - 1], f);
    }
  }

  lemma SumOne(p: Pair, f: Pair -> real)
    ensures Sum([p], f) == f(p)
  {
    assert [p][..0] == [];
  }

  lemma {:induction false} SumWithout(z: seq<Pair>, i: nat, f: Pair -> real)
    requires i < |z|
    ensures Sum(z, f) == Sum(Without(z, i), f) + f(z[i])
  {
    var a, b := z[..i], z[i + 1..];
    SplitAt(z, i);
    SumConcat(a, [z[i]] + b, f);
    SumConcat([z[i]], b, f);
    SumConcat(a, b, f);
    SumOne(z[i], f);
  }

  lemma {:induction false} SumOfPermutation(z: seq<Pair>, w: seq<Pair>, f: Pair -> real)
    requires multiset(z) == multiset(w)
    ensures Sum(z, f) == Sum(w, f)
    decreases |z|
  {
    if z == [] {
      assert |multiset(w)| == 0;
    } else {
      var i := Find(z, w);
      SumWithout(z, 0, f);
      SumWithout(w, i, f);
      SumOfPermutation(Without(z, 0), Without(w, i), f);
    }
  }

  /** Reordering the pairs changes nothing. */
  lemma CorrelationOfPermutation(z: seq<Pair>, w: seq<Pair>, sqrt: real -> real)
    requires multiset(z) == multiset(w)
    ensures Correlation(z, sqrt) == Correlation(w, sqrt)
  {
    SumOfPermutation(z, w, X);
    SumOfPermutation(z, w, Y);
    SumOfPermutation(z, w, XY);
    SumOfPermutation(z, w, XX);
    SumOfPermutation(z, w, YY);
    assert |z| == |multiset(z)| == |multiset(w)| == |w|;
    assert SumsOf(z) == SumsOf(w);
  }

  // ------------------------------------------------------------------ common dates

  function CommonPairs(order: seq<int>, data1: map<int, real>, data2: map<int, real>, start: int, end: int): seq<Pair>
    requires forall d <- order :: d in data1
  {
    if order == [] then []
    else
      var d := order[|order| - 1];
      CommonPairs(order[..|order| - 1], data1, data2, start, end)
      + if start < d < end && d in data2 then [(data1[d], data2[d])] else []
  }

  /** The pairs belong to the dates strictly inside the window that both series have, one pair for each occurrence in the order. */
  lemma {:induction false} CommonDates(order: seq<int>, data1: map<int, real>, data2: map<int, real>, start: int, end: int) returns (dates: seq<int>)
    requires forall d <- order :: d in data1
    ensures |dates| == |CommonPairs(order, data1, data2, start, end)|
    ensures forall i :: 0 <= i < |dates| ==> IsPair(CommonPairs(order, data1, data2, start, end)[i], dates[i], data1, data2)
    ensures forall d :: multiset(dates)[d] == if start < d && d < end && d in data2 then multiset(order)[d] else 0
  {
    dates := [];
    if order != [] {
      var init, d := order[..|order| - 1], order[|order| - 1];
      var before := CommonDates(init, data1, data2, start, end);
      assert order == init + [d];
      if start < d && d < end && d in data2 {
        assert IsPair((data1[d], data2[d]), d, data1, data2);
        dates := before + [d];
      } else {
        dates := before;
      }
      hide IsPair;
    }
  }

  /** The two series' values of one date. */
  predicate IsPair(p: Pair, d: int, data1: map<int, real>, data2: map<int, real>) {
    d in data1 && d in data2 && p.0 == data1[d] && p.1 == data2[d]
  }

  /** getCommonData, iterating data1 in some order of its keys. */
  method GetCommonData(order: seq<int>, data1: map<int, real>, data2: map<int, real>, start: int, end: int)
    returns (x: seq<real>, y: seq<real>)
    requires forall d <- order :: d in data1
    ensures |x| == |y| && Zip(x, y) == CommonPairs(order, data1, data2, start, end)
  {
    x, y := [], [];
    var i := 0;
    while i < |order|
      invariant 0 <= i <= |order| && |x| == |y|
      invariant Zip(x, y) == CommonPairs(order[..i], data1, data2, start, end)
    {
      var d := order[i];
      assert order[..i + 1][..i] == order[..i];
      if start < d < end && d in data2 {
        ghost var before := Zip(x, y);
        x, y := x + [data1[d]], y + [data2[d]];
        assert Zip(x, y) == before + [(data1[d], data2[d])];
      }
      i := i + 1;
    }
    assert order[..|order|] == order;
  }

  lemma {:induction false} CommonConcat(a: seq<int>, b: seq<int>, data1: map<int, real>, data2: map<int, real>, start: int, end: int)
    requires (forall d <- a :: d in data1) && forall d <- b :: d in data1
    ensures CommonPairs(a + b, data1, data2, start, end)
            == CommonPairs(a, data1, data2, start, end) + CommonPairs(b, data1, data2, start, end)
  {
    if b == [] {
      assert a + b == a;
    } else {
      assert (a + b)[..|a + b| - 1] == a + b[..|b| - 1];
      CommonConcat(a, b[..|b| - 1], data1, data2, start, end);
    }
  }

  lemma InOther(a: seq<int>, b: seq<int>, k: nat)
    requires k < |a| && forall d :: d in a <==> d in b
    ensures a[k] in b
  {
    var d := a[k];
    assert d in a;
    assert d in b;
  }

  /** The common pairs are the same, as a multiset, whatever order the hash map iterates in. */
  lemma {:induction false} CommonOfPermutation(a: seq<int>, b: seq<int>, data1: map<int, real>, data2: map<int, real>, start: int, end: int)
    requires (forall d <- a :: d in data1) && (forall d <- b :: d in data1)
    requires (forall i, j :: 0 <= i < j < |a| ==> a[i] != a[j]) && (forall i, j :: 0 <= i < j < |b| ==> b[i] != b[j])
    requires forall d :: d in a <==> d in b
    ensures multiset(CommonPairs(a, data1, data2, start, end)) == multiset(CommonPairs(b, data1, data2, start, end))
    decreases |a|
  {
    assert b != [] ==> b[0] in b;
    if a != [] {
      var k := |a| - 1;
      InOther(a, b, k);
      var i :| 0 <= i < |b| && b[i] == a[k];
      SameWithout(a, b, i);
      CommonOfPermutation(a[..k], b[..i] + b[i + 1..], data1, data2, start, end);
      CommonWithout(b, i, data1, data2, start, end);
    }
  }

  lemma {:induction false} CommonWithout(b: seq<int>, i: nat, data1: map<int, real>, data2: map<int, real>, start: int, end: int)
    requires i < |b| && forall d <- b :: d in data1
    ensures multiset(CommonPairs(b, data1, data2, start, end))
            == multiset(CommonPairs(b[..i] + b[i + 1..], data1, data2, start, end)) + multiset(CommonPairs([b[i]], data1, data2, start, end))
  {
    assert b == b[..i] + ([b[i]] + b[i + 1..]);
    CommonConcat(b[..i], [b[i]] + b[i + 1..], data1, data2, start, end);
    CommonConcat([b[i]], b[i + 1..], data1, data2, start, end);
    CommonConcat(b[..i], b[i + 1..], data1, data2, start, end);
  }

  lemma SameWithout(a: seq<int>, b: seq<int>, i: nat)
    requires a != [] && i < |b| && b[i] == a[|a| - 1]
    requires (forall i, j :: 0 <= i < j < |a| ==> a[i] != a[j]) && (forall i, j :: 0 <= i < j < |b| ==> b[i] != b[j])
    requires forall d :: d in a <==> d in b
    ensures var rest := b[..i] + b[i + 1..];
            && (forall j, k :: 0 <= j < k < |rest| ==> rest[j] != rest[k])
            && (forall d :: d in a[..|a| - 1] <==> d in rest)
  {
    var rest, k := b[..i] + b[i + 1..], |a| - 1;
    assert forall j :: 0 <= j < |rest| ==> rest[j] == if j < i then b[j] else b[j + 1];
    forall d
      ensures d in a[..k] <==> d in rest
    {
      assert a == a[..k] + [a[k]];
      assert d in b <==> d in rest || d == b[i];
      assert d in a <==> d in a[..k] || d == a[k];
    }
  }

  /** bcorr does not depend on the iteration order of its hash maps. */
  lemma {:induction false} OrderOfDatesDoesNotMatter(a: seq<int>, b: seq<int>, data1: map<int, real>, data2: map<int, real>,
                                                     start: int, end: int, sqrt: real -> real)
    requires (forall d <- a :: d in data1) && (forall d <- b :: d in data1)
    requires (forall i, j :: 0 <= i < j < |a| ==> a[i] != a[j]) && (forall i, j :: 0 <= i < j < |b| ==> b[i] != b[j])
    requires forall d :: d in a <==> d in b
    ensures Correlation(CommonPairs(a, data1, data2, start, end), sqrt) == Correlation(CommonPairs(b, data1, data2, start, end), sqrt)
  {
    CommonOfPermutation(a, b, data1, data2, start, end);
    CorrelationOfPermutation(CommonPairs(a, data1, data2, start, end), CommonPairs(b, data1, data2, start, end), sqrt);
  }
}
