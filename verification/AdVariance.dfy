/**
 The exact variance of the two-sample Anderson-Darling statistic under the null hypothesis:
 the harmonic table, the single-loop g, and the cubic in the number of samples; and how far the
 formula that stands in for it beyond 100000 samples is off.
 Floating-point numbers are exact reals.
 */
module AdVariance {
  import opened Reals

  const EXACT_MAX: nat := 100_000

  ghost function Harmonic(i: nat): real {
    if i == 0 then 0.0 else Harmonic(i - 1) + 1.0 / i as real
  }

  // --- the documented g: the sum over 1 <= i < j <= n - 1 of 1 / ((n - i) * j) ---

  ghost function InnerSum(n: nat, i: nat, j: nat): real
    requires i < n && i <= j
    decreases j
  {
    if j == i then 0.0 else InnerSum(n, i, j - 1) + 1.0 / ((n - i) * j) as real
  }

  ghost function DoubleSum(n: nat, i: nat): real
    requires i < n
  {
    if i == 0 then 0.0 else DoubleSum(n, i - 1) + InnerSum(n, i, n - 1)
  }

  ghost function G(n: nat): real
    requires n >= 2
  {
    DoubleSum(n, n - 2)
  }

  // --- the g of the loop: the sum over 2 <= j <= n - 1 of (H(n-1) - H(n-j)) / j ---

  ghost function LoopTerm(n: nat, j: nat): real
    requires 0 < j <= n
  {
    (Harmonic(n - 1) - Harmonic(n - j)) / j as real
  }

  ghost function LoopSum(n: nat, j: nat): real
    requires j < n
  {
    if j <= 1 then 0.0 else LoopSum(n, j - 1) + LoopTerm(n, j)
  }

  lemma SplitReciprocal(d: nat, j: nat, x: real)
    requires d > 0 && j > 0
    ensures x / d as real + 1.0 / (d * j) as real == (x + 1.0 / j as real) / d as real
  {
    var p, q := d as real, j as real;
    assert (d * j) as real == p * q;
    assert 1.0 / (p * q) == (1.0 / q) / p by {
      assert ((1.0 / q) / p) * (p * q) == 1.0 by {
        assert ((1.0 / q) / p) * p == 1.0 / q;
        assert (1.0 / q) * q == 1.0;
      }
      assert p * q > 0.0;
    }
  }

  // The inner sum is a difference of harmonic numbers over the outer factor.
  lemma {:induction false} InnerIsHarmonic(n: nat, i: nat, j: nat)
    requires i < n && i <= j
    ensures InnerSum(n, i, j) == (Harmonic(j) - Harmonic(i)) / (n - i) as real
    decreases j
  {
    if j > i {
      InnerIsHarmonic(n, i, j - 1);
      SplitReciprocal(n - i, j, Harmonic(j - 1) - Harmonic(i));
    }
  }

  // Substituting n - i for the outer index turns the first i rows into the last i loop terms.
  lemma {:induction false} RowsAreTailTerms(n: nat, i: nat)
    requires n >= 2 && i <= n - 2
    ensures DoubleSum(n, i) + LoopSum(n, n - 1 - i) == LoopSum(n, n - 1)
  {
    if i > 0 {
      RowsAreTailTerms(n, i - 1);
      InnerIsHarmonic(n, i, n - 1);
      assert InnerSum(n, i, n - 1) == LoopTerm(n, n - i);
    }
  }

  lemma LoopComputesG(n: nat)
    requires n >= 2
    ensures LoopSum(n, n - 1) == G(n)
  {
    RowsAreTailTerms(n, n - 2);
  }

  // --- g in closed form: the reciprocal squares up to n - 1, less 2 H(n-1) / n ---

  ghost function Squares(m: nat): real {
    if m == 0 then 0.0 else Squares(m - 1) + 1.0 / (m as real * m as real)
  }

  /** The first m terms of the convolution of the harmonic numbers with the reciprocals. */
  ghost function Convolution(n: nat, m: nat): real
    requires m <= n
  {
    if m == 0 then 0.0 else Convolution(n, m - 1) + Harmonic(n - m) / m as real
  }

  lemma PartialFractions(p: real, q: real)
    requires p > 0.0 && q > 0.0
    ensures 1.0 / p / q == (1.0 / p + 1.0 / q) / (p + q)
  {
    var u, v := 1.0 / p, 1.0 / q;
    assert u * p == 1.0 && v * q == 1.0;
    DividedBy(u + v, p + q, u * v);
    DividedBy(u, q, u * v);
  }

  lemma DividedBy(x: real, y: real, z: real)
    requires y > 0.0 && z * y == x
    ensures x / y == z
  {}

  lemma AddQuotients(x: real, y: real, d: real)
    requires d > 0.0
    ensures x / d + y / d == (x + y) / d
  {}

  // How a partial convolution grows with n.
  lemma {:induction false} ConvolutionNext(n: nat, m: nat)
    requires m <= n
    ensures Convolution(n + 1, m) == Convolution(n, m) + (Harmonic(m) + Harmonic(n) - Harmonic(n - m)) / (n + 1) as real
    decreases m
  {
    if m > 0 {
      ConvolutionNext(n, m - 1);
      var p, q := (n + 1 - m) as real, m as real;
      assert Harmonic(n + 1 - m) == Harmonic(n - m) + 1.0 / p;
      AddQuotients(Harmonic(n - m), 1.0 / p, q);
      PartialFractions(p, q);
      AddQuotients(Harmonic(m - 1) + Harmonic(n) - Harmonic(n + 1 - m), 1.0 / p + 1.0 / q, p + q);
    }
  }

  lemma {:induction false} ConvolutionIs(n: nat)
    ensures Convolution(n, n) == Harmonic(n) * Harmonic(n) - Squares(n)
  {
    if n > 0 {
      ConvolutionIs(n - 1);
      ConvolutionNext(n - 1, n - 1);
      SquareNext(Harmonic(n - 1), n as real);
    }
  }

  lemma SquareNext(h: real, x: real)
    requires x > 0.0
    ensures (h + 1.0 / x) * (h + 1.0 / x) == h * h + (h + h) / x + 1.0 / (x * x)
  {
    var u := 1.0 / x;
    assert u * x == 1.0;
    DividedBy(h + h, x, (h + h) * u);
    DividedBy(1.0, x * x, u * u);
  }

  lemma {:induction false} LoopSumIs(n: nat, j: nat)
    requires 0 < j < n
    ensures LoopSum(n, j) == Harmonic(n - 1) * Harmonic(j) - Convolution(n, j)
    decreases j
  {
    var h := Harmonic(n - 1);
    if j == 1 {
      assert Harmonic(1) == 1.0 && Convolution(n, 1) == h;
    } else {
      LoopSumIs(n, j - 1);
      TermSplits(h, Harmonic(j - 1), Harmonic(n - j), j as real);
    }
  }

  lemma TermSplits(h: real, x: real, y: real, d: real)
    requires d > 0.0
    ensures h * x + (h - y) / d == h * (x + 1.0 / d) - y / d
  {
    AddQuotients(h - y, y, d);
    DividedBy(h, d, h * (1.0 / d));
  }

  lemma {:induction false} ClosedG(n: nat)
    requires n >= 2
    ensures G(n) == Squares(n - 1) - 2.0 * Harmonic(n - 1) / n as real
  {
    var h', s' := GParts(n);
    ClosedForm(G(n), Harmonic(n - 1), n as real, Squares(n - 1), h', s');
  }

  lemma GParts(n: nat) returns (h': real, s': real)
    requires n >= 2
    ensures h' == Harmonic(n - 1) + 1.0 / n as real && s' == Squares(n - 1) + 1.0 / (n as real * n as real)
    ensures G(n) == Harmonic(n - 1) * Harmonic(n - 1) - (h' * h' - s')
  {
    LoopComputesG(n);
    LoopSumIs(n, n - 1);
    WholeConvolution(n);
    h', s' := Harmonic(n), Squares(n);
  }

  lemma WholeConvolution(n: nat)
    requires n > 0
    ensures Convolution(n, n - 1) == Harmonic(n) * Harmonic(n) - Squares(n)
  {
    ConvolutionIs(n);
    assert Harmonic(n - n) / n as real == 0.0;
  }

  lemma ClosedForm(g: real, h: real, x: real, s: real, h': real, s': real)
    requires x > 0.0 && h' == h + 1.0 / x && s' == s + 1.0 / (x * x) && g == h * h - (h' * h' - s')
    ensures g == s - 2.0 * h / x
  {
    SquareNext(h, x);
  }

  // --- bounds for many samples ---

  lemma Telescopes(x: real)
    requires x > 1.0
    ensures 1.0 / x - 1.0 / (x + 1.0) <= 1.0 / (x * x) <= 1.0 / (x - 1.0) - 1.0 / x
  {
    var u, v, w := 1.0 / x, 1.0 / (x + 1.0), 1.0 / (x - 1.0);
    assert u * x == 1.0 && v * (x + 1.0) == 1.0 && w * (x - 1.0) == 1.0;
    DividedBy(1.0, x * x, u * u);
    assert u - v == u * v;
    assert w - u == u * w;
    OrderOfReciprocals(x - 1.0, x);
    OrderOfReciprocals(x, x + 1.0);
    assert u * v <= u * u <= u * w;
  }

  lemma OrderOfReciprocals(x: real, y: real)
    requires 0.0 < x <= y
    ensures 0.0 < 1.0 / y <= 1.0 / x
  {}

  // The tail of the reciprocal squares telescopes.
  lemma {:induction false} SquaresFrom(k: nat, m: nat)
    requires 0 < k <= m
    ensures Squares(k) + 1.0 / (k + 1) as real - 1.0 / (m + 1) as real <= Squares(m)
    ensures Squares(m) <= Squares(k) + 1.0 / k as real - 1.0 / m as real
    decreases m
  {
    if k < m {
      SquaresFrom(k, m - 1);
      SquaresStep(m);
    }
  }

  lemma {:induction false} SquaresStep(m: nat)
    requires m > 1
    ensures 1.0 / m as real - 1.0 / (m + 1) as real <= Squares(m) - Squares(m - 1)
    ensures Squares(m) - Squares(m - 1) <= 1.0 / (m - 1) as real - 1.0 / m as real
  {
    Telescopes(m as real);
    assert (m - 1) as real == m as real - 1.0 && (m + 1) as real == m as real + 1.0;
  }

  lemma TenSquares()
    ensures 1.5497 < Squares(10) < 1.5498
  {
    assert Squares(3) == 49.0 / 36.0;
    assert 1.46361 < Squares(5) < 1.46362;
    assert 1.51179 < Squares(7) < 1.51181;
    assert 1.53976 < Squares(9) < 1.53978;
  }

  lemma {:induction false} HarmonicFrom(k: nat, j: nat)
    requires k > 0
    ensures Harmonic(k + j) <= Harmonic(k) + j as real / k as real
  {
    if j > 0 {
      HarmonicFrom(k, j - 1);
      OrderOfReciprocals(k as real, (k + j) as real);
      AddQuotients((j - 1) as real, 1.0, k as real);
    }
  }

  lemma HarmonicIsSmall(n: nat)
    requires n > EXACT_MAX
    ensures 1.0 <= Harmonic(n - 1) <= 0.0013 * n as real
  {
    assert Harmonic(1) == 1.0;
    HarmonicFrom(1, 9);
    HarmonicFrom(10, 90);
    HarmonicFrom(100, 900);
    HarmonicFrom(1000, n - 1001);
    HarmonicGrows(1, n - 2);
  }

  lemma {:induction false} HarmonicGrows(k: nat, j: nat)
    ensures Harmonic(k) <= Harmonic(k + j)
  {
    if j > 0 {
      HarmonicGrows(k, j - 1);
    }
  }

  lemma GIsNearLimit(n: nat)
    requires n > EXACT_MAX
    ensures 1.637 <= G(n) <= 1.65
  {
    ClosedG(n);
    HarmonicIsSmall(n);
    SquaresFrom(10, n - 1);
    TenSquares();
    OrderOfReciprocals(100_000.0, n as real);
    OrderOfReciprocals(n as real - 1.0, n as real);
    SmallShare(2.0 * Harmonic(n - 1), n as real, 0.0026);
  }

  lemma SmallShare(x: real, y: real, c: real)
    requires y > 0.0 && 0.0 <= x <= c * y
    ensures 0.0 <= x / y <= c
  {
    var q := x / y;
    assert q * y == x;
    CancelFactor(0.0, q, y);
    CancelFactor(q, c, y);
  }

  lemma CancelFactor(x: real, y: real, d: real)
    requires d > 0.0 && x * d <= y * d
    ensures x <= y
  {}

  // --- the variance ---

  datatype Cubic = Cubic(a: real, b: real, c: real, d: real)
  {
    function At(n: real): real {
      a * (n * n * n) + b * (n * n) + c * n + d
    }
  }

  // Equation (8) of Scholz and Stephens (1987) for k samples; H is the sum of the reciprocal sizes.
  ghost function Coefficients(k: real, H: real, h: real, g: real): Cubic {
    Cubic(
      (4.0 * g - 6.0) * (k - 1.0) + (10.0 - 6.0 * g) * H,
      (2.0 * g - 4.0) * k * k + 8.0 * h * k + (2.0 * g - 14.0 * h - 4.0) * H - 8.0 * h + 4.0 * g - 6.0,
      (6.0 * h + 2.0 * g - 2.0) * k * k + (4.0 * h - 4.0 * g + 6.0) * k + (2.0 * h - 6.0) * H + 4.0 * h,
      (2.0 * h + 6.0) * k * k - 4.0 * h * k)
  }

  function TwoSampleCoefficients(H: real, h: real, g: real): Cubic {
    Cubic(
      4.0 * g - 6.0 + (10.0 - 6.0 * g) * H,
      12.0 * g + 8.0 * h - 22.0 + (2.0 * g - 14.0 * h - 4.0) * H,
      36.0 * h + 4.0 + (2.0 * h - 6.0) * H,
      24.0)
  }

  // The coefficients in the code are the general ones at k = 2.
  lemma SpecialisedToTwoSamples(H: real, h: real, g: real)
    ensures TwoSampleCoefficients(H, h, g) == Coefficients(2.0, H, h, g)
  {
    var x, y := (10.0 - 6.0 * g) * H, (2.0 * g - 14.0 * h - 4.0) * H;
    assert (4.0 * g - 6.0) * (2.0 - 1.0) + x == 4.0 * g - 6.0 + x;
    assert (2.0 * g - 4.0) * 2.0 * 2.0 + 8.0 * h * 2.0 + y - 8.0 * h + 4.0 * g - 6.0 == 12.0 * g + 8.0 * h - 22.0 + y;
  }

  lemma PositiveFactors(n: nat)
    requires n >= 4
    ensures (n - 1) * (n - 2) * (n - 3) > 0
  {
    assert (n - 1) * (n - 2) > 0;
  }

  ghost function Variance(n: nat, nA: nat, nB: nat): real
    requires n >= 4 && nA > 0 && nB > 0
  {
    var cubic := Coefficients(2.0, 1.0 / nA as real + 1.0 / nB as real, Harmonic(n - 1), G(n));
    cubic.At(n as real) / ((n - 1) * (n - 2) * (n - 3)) as real
  }

  // --- small samples ---

  lemma SmallHarmonics()
    ensures Harmonic(3) == 11.0 / 6.0 && Harmonic(4) == 25.0 / 12.0 && Harmonic(5) == 137.0 / 60.0
    ensures Squares(3) == 49.0 / 36.0 && Squares(4) == 205.0 / 144.0 && Squares(5) == 5269.0 / 3600.0
  {
    assert Harmonic(1) == 1.0 && Harmonic(2) == 1.5;
    assert Squares(1) == 1.0 && Squares(2) == 1.25;
  }

  lemma SmallG()
    ensures G(4) == 4.0 / 9.0 && G(5) == 85.0 / 144.0 && G(6) == 281.0 / 400.0
  {
    SmallHarmonics();
    ClosedG(4);
    ClosedG(5);
    ClosedG(6);
  }

  // The variance of A squared over all arrangements of 2 and 2, of 1 and 3, of 2 and 3, and of 3 and 3
  // samples of different values.
  lemma SmallVariances()
    ensures Variance(4, 2, 2) == 2.0 / 9.0 && Variance(4, 1, 3) == 16.0 / 81.0
    ensures Variance(5, 2, 3) == 1429.0 / 5184.0 && Variance(6, 3, 3) == 143.0 / 450.0
  {
    SmallHarmonics();
    SmallG();
    VarianceFrom(4, 2, 2, 1.0, 11.0 / 6.0, 4.0 / 9.0, 4.0 / 3.0, 6.0);
    VarianceFrom(4, 1, 3, 4.0 / 3.0, 11.0 / 6.0, 4.0 / 9.0, 32.0 / 27.0, 6.0);
    VarianceFrom(5, 2, 3, 5.0 / 6.0, 25.0 / 12.0, 85.0 / 144.0, 1429.0 / 216.0, 24.0);
    VarianceFrom(6, 3, 3, 2.0 / 3.0, 137.0 / 60.0, 281.0 / 400.0, 286.0 / 15.0, 60.0);
  }

  lemma VarianceFrom(n: nat, nA: nat, nB: nat, H: real, h: real, g: real, num: real, den: real)
    requires n >= 4 && nA > 0 && nB > 0 && H == 1.0 / nA as real + 1.0 / nB as real
    requires h == Harmonic(n - 1) && g == G(n)
    requires num == TwoSampleCoefficients(H, h, g).At(n as real)
    requires den == ((n - 1) * (n - 2) * (n - 3)) as real && den > 0.0
    ensures Variance(n, nA, nB) == num / den
  {
    var num', den' := VarianceIs(n, nA, nB, H);
  }

  lemma ReciprocalSizes(n: nat, nA: nat, nB: nat)
    requires n > EXACT_MAX && nA > 0 && nB > 0 && nA + nB == n
    ensures 0.0 < 1.0 / nA as real + 1.0 / nB as real <= 1.00002
  {
    var large, small := if nA > nB then nA else nB, if nA > nB then nB else nA;
    OrderOfReciprocals(1.0, small as real);
    OrderOfReciprocals(50_000.0, large as real);
  }

  lemma Products(x: real, y: real, z: real)
    requires 0.0 <= x && y <= z
    ensures x * y <= x * z
  {}

  // Each coefficient for many samples; h stands for a harmonic number, g for its limit.
  lemma LeadingCoefficient(H: real, g: real)
    requires 0.0 < H <= 1.00002 && 1.637 <= g <= 1.65
    ensures 4.0 * g - 6.0 + (10.0 - 6.0 * g) * H <= 0.7261
  {
    var y := 10.0 - 6.0 * g;
    var p := y * H;
    Products(y, H, 1.00002);
    assert p <= 10.0002 - 6.00012 * g;
  }

  lemma SecondCoefficient(H: real, h: real, g: real)
    requires 0.0 < H && 1.0 <= h && g <= 1.65
    ensures 12.0 * g + 8.0 * h - 22.0 + (2.0 * g - 14.0 * h - 4.0) * H <= 8.0 * h
  {
    var y := 2.0 * g - 14.0 * h - 4.0;
    var p := y * H;
    Products(H, y, 0.0);
    assert p <= 0.0;
  }

  lemma ThirdCoefficient(H: real, h: real)
    requires 0.0 < H <= 1.00002 && 1.0 <= h
    ensures 36.0 * h + 4.0 + (2.0 * h - 6.0) * H <= 38.1 * h + 4.0
  {
    var y := 2.0 * h - 6.0;
    var p := y * H;
    Products(H, y, 2.0 * h);
    Products(2.0 * h, H, 1.00002);
    assert p <= 2.00004 * h;
  }

  // A cubic is bounded by its leading term when its coefficients grow slowly.
  lemma LeadingTerm(k: Cubic, h: real, x: real)
    requires x > 100_000.0 && 1.0 <= h <= 0.0013 * x
    requires k.a <= 0.7261 && k.b <= 8.0 * h && k.c <= 38.1 * h + 4.0 && k.d == 24.0
    ensures k.At(x) <= 0.738 * (x * x * x)
  {
    LeadingSum(k.a, k.b, k.c, h, x, x * x, x * x * x);
  }

  lemma LeadingSum(a: real, b: real, c: real, h: real, x: real, x2: real, x3: real)
    requires x > 100_000.0 && x2 == x * x && x3 == x2 * x && 1.0 <= h <= 0.0013 * x
    requires a <= 0.7261 && b <= 8.0 * h && c <= 38.1 * h + 4.0
    ensures a * x3 + b * x2 + c * x + 24.0 <= 0.738 * x3
  {
    Powers(x);
    Scaled(a, 0.7261, x3);
    Scaled(b, 0.0104 * x, x2);
    Scaled(c, 0.05 * x, x);
    Cubed(x, x2, x3, 0.0104);
    Squared(x, x2, 0.05);
    Dominated(a * x3, b * x2, c * x, x, x2, x3);
  }

  lemma Scaled(y: real, z: real, x: real)
    requires 0.0 <= x && y <= z
    ensures y * x <= z * x
  {}

  lemma Powers(x: real)
    requires x > 100_000.0
    ensures x * x >= 100_000.0 * x && x * x * x >= 100_000.0 * (x * x)
  {
    Scaled(100_000.0, x, x);
    Products(x * x, 100_000.0, x);
  }

  lemma Dominated(p: real, q: real, r: real, x: real, x2: real, x3: real)
    requires x > 100_000.0 && x2 >= 100_000.0 * x && x3 >= 100_000.0 * x2
    requires p <= 0.7261 * x3 && q <= 0.0104 * x3 && r <= 0.05 * x2
    ensures p + q + r + 24.0 <= 0.738 * x3
  {}

  lemma Cubed(x: real, x2: real, x3: real, c: real)
    requires x3 == x2 * x
    ensures c * x * x2 == c * x3
  {}

  lemma Squared(x: real, x2: real, c: real)
    requires x2 == x * x
    ensures c * x * x == c * x2
  {}

  lemma DenominatorBound(n: nat)
    requires n > EXACT_MAX
    ensures var x := n as real;
      ((n - 1) * (n - 2) * (n - 3)) as real >= 0.9999 * (x * x * x) > 0.0
  {
    ThreeFactors(n);
    LargeCube(((n - 1) * (n - 2) * (n - 3)) as real, n as real);
  }

  lemma LargeCube(d: real, x: real)
    requires x > 100_000.0 && d == x * x * x - 6.0 * (x * x) + 11.0 * x - 6.0
    ensures d >= 0.9999 * (x * x * x) > 0.0
  {
    Powers(x);
    MostlyCube(d, x, x * x, x * x * x);
  }

  lemma MostlyCube(d: real, x: real, x2: real, x3: real)
    requires x > 100_000.0 && x2 >= 100_000.0 * x && x3 >= 100_000.0 * x2
    requires d == x3 - 6.0 * x2 + 11.0 * x - 6.0
    ensures d >= 0.9999 * x3 > 0.0
  {}

  lemma ThreeFactors(n: nat)
    requires n >= 3
    ensures var x := n as real;
      ((n - 1) * (n - 2) * (n - 3)) as real == x * x * x - 6.0 * (x * x) + 11.0 * x - 6.0
  {
    var x, p := n as real, (n - 1) * (n - 2);
    assert p as real == (x - 1.0) * (x - 2.0);
    assert (p * (n - 3)) as real == p as real * (x - 3.0);
  }

  lemma QuotientBelow(num: real, den: real, x3: real)
    requires x3 > 0.0 && den >= 0.9999 * x3 && num <= 0.738 * x3
    ensures num / den < 0.74
  {
    var q := num / den;
    assert q * den == num;
    assert num < 0.74 * den;
    if q >= 0.74 {
      Products(den, 0.74, q);
      assert false;
    }
  }

  lemma NumeratorBound(n: nat, H: real)
    requires n > EXACT_MAX && 0.0 < H <= 1.00002
    ensures var x := n as real;
      TwoSampleCoefficients(H, Harmonic(n - 1), G(n)).At(x) <= 0.738 * (x * x * x)
  {
    var h, g := Harmonic(n - 1), G(n);
    HarmonicIsSmall(n);
    GIsNearLimit(n);
    LeadingCoefficient(H, g);
    SecondCoefficient(H, h, g);
    ThirdCoefficient(H, h);
    LeadingTerm(TwoSampleCoefficients(H, h, g), h, n as real);
  }

  lemma VarianceOfMany(n: nat, nA: nat, nB: nat)
    requires n > EXACT_MAX && nA > 0 && nB > 0 && nA + nB == n
    ensures Variance(n, nA, nB) < 0.74
  {
    var num, den, x3 := VarianceParts(n, nA, nB);
    QuotientBelow(num, den, x3);
  }

  lemma VarianceParts(n: nat, nA: nat, nB: nat) returns (num: real, den: real, x3: real)
    requires n > EXACT_MAX && nA > 0 && nB > 0 && nA + nB == n
    ensures x3 > 0.0 && den >= 0.9999 * x3 && num <= 0.738 * x3 && Variance(n, nA, nB) == num / den
  {
    var H := 1.0 / nA as real + 1.0 / nB as real;
    ReciprocalSizes(n, nA, nB);
    NumeratorBound(n, H);
    DenominatorBound(n);
    num, den := VarianceIs(n, nA, nB, H);
    x3 := n as real * n as real * n as real;
  }

  lemma VarianceIs(n: nat, nA: nat, nB: nat, H: real) returns (num: real, den: real)
    requires n >= 4 && nA > 0 && nB > 0 && H == 1.0 / nA as real + 1.0 / nB as real
    ensures num == TwoSampleCoefficients(H, Harmonic(n - 1), G(n)).At(n as real)
    ensures den == ((n - 1) * (n - 2) * (n - 3)) as real && den != 0.0 && Variance(n, nA, nB) == num / den
  {
    SpecialisedToTwoSamples(H, Harmonic(n - 1), G(n));
    PositiveFactors(n);
    num := TwoSampleCoefficients(H, Harmonic(n - 1), G(n)).At(n as real);
    den := ((n - 1) * (n - 2) * (n - 3)) as real;
  }

  /** What the code returns for more than EXACT_MAX samples. */
  function Asymptotic(n: nat): real
    requires n > 0
  {
    4.0 / 3.0 * (1.0 - 1.34 / n as real)
  }

  // In whole numbers: three times the value times N is 4 N - 5.36.
  lemma AsymptoticTimes(n: nat)
    requires n > 0
    ensures 3.0 * Asymptotic(n) * n as real == 4.0 * n as real - 5.36
  {
    var q := 1.34 / n as real;
    assert q * n as real == 1.34;
  }

  lemma AsymptoticIsLarge(n: nat)
    requires n > EXACT_MAX
    ensures 1.333 < Asymptotic(n) < 1.334
  {
    SmallShare(1.34, n as real, 0.0000134);
  }

  // It is documented to be within about one per cent of the variance for every split. In fact it is more
  // than 1.8 times the variance for every number of samples it is used for, and every split.
  lemma AsymptoticIsTooLarge(n: nat, nA: nat, nB: nat)
    requires n > EXACT_MAX && nA > 0 && nB > 0 && nA + nB == n
    ensures Asymptotic(n) > 1.8 * Variance(n, nA, nB)
  {
    VarianceOfMany(n, nA, nB);
    AsymptoticIsLarge(n);
    FarAbove(Asymptotic(n), Variance(n, nA, nB));
  }

  lemma FarAbove(x: real, y: real)
    requires x > 1.333 && y < 0.74
    ensures x > 1.8 * y
  {}

  ghost predicate IsTable(xs: seq<real>) {
    forall k :: 0 <= k < |xs| ==> xs[k] == Harmonic(k)
  }

  lemma TableNext(xs: seq<real>, x: real)
    requires IsTable(xs) && |xs| > 0 && x == xs[|xs| - 1] + 1.0 / |xs| as real
    ensures IsTable(xs + [x])
  {}

  /** The harmonic numbers up to n - 1. */
  method HarmonicTable(n: nat) returns (hVals: array<real>)
    requires n > 0
    ensures fresh(hVals) && hVals.Length == n
    ensures IsTable(hVals[..])
  {
    hVals := new real[n](_ => 0.0);
    for i := 1 to n
      invariant IsTable(hVals[..i])
    {
      ghost var before := hVals[..i];
      hVals[i] := hVals[i - 1] + 1.0 / i as real;
      TableNext(before, hVals[i]);
      assert hVals[..i + 1] == before + [hVals[i]];
    }
    assert hVals[..] == hVals[..n];
  }

  method SigmaSquared(total: nat, nA: nat, nB: nat) returns (v: real)
    requires total >= 4 && nA > 0 && nB > 0
    ensures total > EXACT_MAX ==> v == Asymptotic(total)
    ensures total > EXACT_MAX && nA + nB == total ==> v > 1.8 * Variance(total, nA, nB)
    ensures total <= EXACT_MAX ==> v == if Variance(total, nA, nB) < EPSILON then EPSILON else Variance(total, nA, nB)
  {
    if total > EXACT_MAX {
      assert nA + nB == total ==> Asymptotic(total) > 1.8 * Variance(total, nA, nB) by {
        if nA + nB == total {
          AsymptoticIsTooLarge(total, nA, nB);
        }
      }
      return 4.0 / 3.0 * (1.0 - 1.34 / total as real);
    }
    var h, g := HarmonicAndG(total);
    var capH := 1.0 / nA as real + 1.0 / nB as real;
    SpecialisedToTwoSamples(capH, h, g);
    var num := TwoSampleCoefficients(capH, h, g).At(total as real);
    PositiveFactors(total);
    var sigma := num / ((total - 1) * (total - 2) * (total - 3)) as real;
    v := if sigma < EPSILON then EPSILON else sigma;
  }

  method HarmonicAndG(n: nat) returns (h: real, g: real)
    requires n >= 2
    ensures h == Harmonic(n - 1) && g == G(n)
  {
    var hVals := HarmonicTable(n);
    h := hVals[n - 1];
    g := 0.0;
    for j := 2 to n
      invariant g == LoopSum(n, j - 1)
    {
      g := g + (h - hVals[n - j]) / j as real;
    }
    LoopComputesG(n);
  }
}
