/**
 * The unbiased pass@k estimator: for n trials of which c succeeded, the
 * chance that k trials drawn without replacement include a success,
 * 1 - C(n - c, k) / C(n, k).
 *
 * The benchmark scripts compute it in two places: calculate_task_pass_at_k
 * (benchmark_infer.py) with two special cases in front of the formula, and
 * cal_atk (RTLLM/auto_run.py) with scipy's comb and no special case. Both are
 * related here to each other and to the product form
 * 1 - prod_{i = n-c+1}^{n} (1 - k / i) of Chen et al., which never forms a
 * binomial coefficient.
 */
module Estimator {
  import opened Binomial

  /** The per-task value of calculate_task_pass_at_k for m trials of which s passed. */
  function PassAtK(m: nat, s: nat, k: nat): real
    requires s <= m
  {
    if s == 0 then 0.0
    else if k >= m then 1.0
    else 1.0 - (Comb(m - s, k) as real) / (Comb(m, k) as real)
  }

  /** scipy.special.comb(N, k): 0 when N is negative, C(N, k) otherwise. */
  function SciComb(N: int, k: nat): (r: nat)
    ensures N < 0 ==> r == 0
    ensures N >= 0 ==> r == Comb(N, k)
  {
    if N < 0 then 0 else Comb(N, k)
  }

  /**
   * The per-design term of cal_atk, 1 - comb(n - c, k) / comb(n, k); comb(n, k)
   * is non-zero only for k <= n (otherwise the source divides 0 by 0).
   */
  function Term(n: nat, c: nat, k: nat): real
    requires k <= n
  {
    1.0 - (SciComb(n - c, k) as real) / (Comb(n, k) as real)
  }

  /** prod_{i = n-c+1}^{n} (1 - k / i): one factor per successful trial. */
  function StableProduct(n: nat, c: nat, k: nat): real
    requires c <= n
  {
    if c == 0 then 1.0
    else StableProduct(n, c - 1, k) * (1.0 - (k as real) / ((n - c + 1) as real))
  }

  /** The estimator in Chen et al.'s numerically stable form. */
  function StableEstimate(n: nat, c: nat, k: nat): real
    requires c <= n
  {
    if n - c < k then 1.0 else 1.0 - StableProduct(n, c, k)
  }

  // ---------------------------------------------------------------------
  // Arithmetic on reals and integers used below.

  lemma QuotientInUnit(a: nat, b: nat)
    requires a <= b && b > 0
    ensures 0.0 <= (a as real) / (b as real) <= 1.0
  {
  }

  lemma SelfQuotient(d: nat)
    requires d > 0
    ensures (d as real) / (d as real) == 1.0
  {
  }

  lemma CastMul(u: int, v: int)
    ensures (u * v) as real == (u as real) * (v as real)
  {
  }

  /** x / p <= y / q for naturals, from x * q <= y * p. */
  lemma CrossMultiplied(x: nat, p: nat, y: nat, q: nat)
    requires p > 0 && q > 0 && x * q <= y * p
    ensures (x as real) / (p as real) <= (y as real) / (q as real)
  {
    CastMul(x, q);
    CastMul(y, p);
    var xr, pr, yr, qr := x as real, p as real, y as real, q as real;
    assert xr * qr <= yr * pr;
    assert xr / pr == (xr * qr) / (pr * qr);
    assert yr / qr == (yr * pr) / (pr * qr);
  }

  lemma ScaleLe(u: int, v: int, w: int)
    requires u <= v && w >= 0
    ensures u * w <= v * w
  {
  }

  lemma CancelPositive(x: int, y: int, f: int)
    requires f > 0 && f * x <= f * y
    ensures x <= y
  {
  }

  /** The integer inequality behind monotonicity in k. */
  lemma BudgetArith(A: nat, A2: nat, N: nat, N2: nat, a: int, n: int, k: nat)
    requires k <= a <= n
    requires A2 * (k + 1) == A * (a - k)
    requires N2 * (k + 1) == N * (n - k)
    ensures A2 * N <= A * N2
  {
    assert (k + 1) * (A2 * N) == (A * N) * (a - k);
    assert (k + 1) * (A * N2) == (A * N) * (n - k);
    ScaleLe(a - k, n - k, A * N);
    assert (A * N) * (a - k) <= (A * N) * (n - k);
    CancelPositive(A2 * N, A * N2, k + 1);
  }

  lemma RatioStep(a: real, b: real, d: real, x: real, k: real)
    requires d > 0.0 && x > 0.0
    requires b * x == a * (x - k)
    ensures b / d == (a / d) * (1.0 - k / x)
  {
    assert b == a * (x - k) / x;
    assert x / x == 1.0;
    assert (x - k) / x == x / x - k / x;
    assert 1.0 - k / x == (x - k) / x;
  }

  /** RatioStep for naturals: from b * x == a * (x - k), b / d == (a / d) * (1 - k / x). */
  lemma CastRatioStep(a: nat, b: nat, d: nat, x: nat, k: nat)
    requires d > 0 && x > 0 && k <= x && b * x == a * (x - k)
    ensures (b as real) / (d as real) == ((a as real) / (d as real)) * (1.0 - (k as real) / (x as real))
  {
    var y: nat := x - k;
    CastMul(b, x);
    CastMul(a, y);
    assert (b * x) as real == (a * y) as real;
    assert (y as real) == (x as real) - (k as real);
    RatioStep(a as real, b as real, d as real, x as real, k as real);
  }

  /** The inductive step of RatioIsProduct, with the binomial values as plain numbers. */
  lemma ExtendProduct(p: real, a: nat, b: nat, d: nat, x: nat, k: nat, next: real)
    requires d > 0 && x > 0 && k <= x && a * (x - k) == x * b
    requires (a as real) / (d as real) == p
    requires next == p * (1.0 - (k as real) / (x as real))
    ensures (b as real) / (d as real) == next
  {
    CastRatioStep(a, b, d, x, k);
  }

  // ---------------------------------------------------------------------
  // Bounds and special cases.

  /** Every per-task value of the log-replay variant is a probability. */
  lemma PassAtKInUnitInterval(m: nat, s: nat, k: nat)
    requires s <= m
    ensures 0.0 <= PassAtK(m, s, k) <= 1.0
  {
    if s > 0 && k < m {
      CombMonotone(m - s, m, k);
      QuotientInUnit(Comb(m - s, k), Comb(m, k));
    }
  }

  /** Every per-design term of cal_atk is a probability. */
  lemma TermInUnitInterval(n: nat, c: nat, k: nat)
    requires k <= n
    ensures 0.0 <= Term(n, c, k) <= 1.0
  {
    if c <= n {
      CombMonotone(n - c, n, k);
    }
    QuotientInUnit(SciComb(n - c, k), Comb(n, k));
  }

  /**
   * cal_atk's term is 0 for a design that never succeeded and 1 for one that
   * always succeeded (k >= 1), without any special case in the code.
   */
  lemma TermEdgeCases(n: nat, k: nat)
    requires k <= n
    ensures Term(n, 0, k) == 0.0
    ensures 1 <= k ==> Term(n, n, k) == 1.0
  {
    assert SciComb(n - 0, k) == Comb(n, k);
    if 1 <= k {
      assert SciComb(n - n, k) == Comb(0, k) == 0;
    }
  }

  /**
   * The special cases of calculate_task_pass_at_k agree with the plain
   * formula wherever the formula is defined (k <= m): no passes give 0, and
   * k == m with a pass gives 1 because C(m - s, m) == 0.
   */
  lemma VariantsAgree(m: nat, s: nat, k: nat)
    requires s <= m && k <= m
    ensures PassAtK(m, s, k) == Term(m, s, k)
  {
    var d := Comb(m, k) as real;
    assert d > 0.0;
    if s == 0 {
      assert SciComb(m - s, k) as real == d;
      assert d / d == 1.0;
    } else if k == m {
      assert SciComb(m - s, k) == Comb(m - s, m) == 0;
    }
  }

  /** A task every one of whose m >= 1 trials passed has pass@k == 1 for every k >= 1. */
  lemma PassAtKAllPassed(m: nat, k: nat)
    requires 1 <= m && 1 <= k
    ensures PassAtK(m, m, k) == 1.0
  {
    if k < m {
      assert Comb(m - m, k) == 0;
    }
  }

  // ---------------------------------------------------------------------
  // Monotonicity.

  /** More successes never lower cal_atk's term. */
  lemma TermMonotoneInSuccesses(n: nat, c: nat, c2: nat, k: nat)
    requires c <= c2 && k <= n
    ensures Term(n, c, k) <= Term(n, c2, k)
  {
    var d := Comb(n, k);
    if c2 <= n {
      CombMonotone(n - c2, n - c, k);
    }
    ScaleLe(SciComb(n - c2, k), SciComb(n - c, k), d);
    CrossMultiplied(SciComb(n - c2, k), d, SciComb(n - c, k), d);
  }

  /** More passes never lower the log-replay value. */
  lemma PassAtKMonotoneInPasses(m: nat, s: nat, s2: nat, k: nat)
    requires s <= s2 <= m
    ensures PassAtK(m, s, k) <= PassAtK(m, s2, k)
  {
    PassAtKInUnitInterval(m, s, k);
    PassAtKInUnitInterval(m, s2, k);
    if s > 0 && k < m {
      TermMonotoneInSuccesses(m, s, s2, k);
    }
  }

  /** C(a, k + 1) / C(n, k + 1) <= C(a, k) / C(n, k), cross-multiplied, for a <= n. */
  lemma CombRatioShrinks(a: nat, n: nat, k: nat)
    requires a <= n && k + 1 <= n
    ensures Comb(a, k + 1) * Comb(n, k) <= Comb(a, k) * Comb(n, k + 1)
  {
    CombStep(n, k);
    if k <= a {
      CombStep(a, k);
      BudgetArith(Comb(a, k), Comb(a, k + 1), Comb(n, k), Comb(n, k + 1), a, n, k);
    } else {
      assert Comb(a, k + 1) == 0;
    }
  }

  /** A larger sample budget never lowers cal_atk's term. */
  lemma TermMonotoneInBudget(n: nat, c: nat, k: nat)
    requires k + 1 <= n
    ensures Term(n, c, k) <= Term(n, c, k + 1)
  {
    var A, A2 := SciComb(n - c, k), SciComb(n - c, k + 1);
    if c <= n {
      CombRatioShrinks(n - c, n, k);
    }
    CrossMultiplied(A2, Comb(n, k + 1), A, Comb(n, k));
  }

  /** A larger sample budget never lowers the log-replay value. */
  lemma PassAtKMonotoneInBudget(m: nat, s: nat, k: nat)
    requires s <= m
    ensures PassAtK(m, s, k) <= PassAtK(m, s, k + 1)
  {
    PassAtKInUnitInterval(m, s, k);
    if s > 0 && k + 1 < m {
      TermMonotoneInBudget(m, s, k);
    }
  }

  // ---------------------------------------------------------------------
  // The product form.

  /** C(n - c, k) / C(n, k) is the product of the c factors (1 - k / i). */
  lemma {:induction false} RatioIsProduct(n: nat, c: nat, k: nat)
    requires c <= n && k <= n - c
    ensures (Comb(n - c, k) as real) / (Comb(n, k) as real) == StableProduct(n, c, k)
  {
    var d := Comb(n, k);
    assert d > 0;
    if c == 0 {
      SelfQuotient(d);
    } else {
      var x := n - c + 1;
      assert n - (c - 1) == x && n - c == x - 1;
      var p := StableProduct(n, c - 1, k);
      var next := StableProduct(n, c, k);
      assert next == p * (1.0 - (k as real) / (x as real));
      var a, b := Comb(x, k), Comb(x - 1, k);
      assert (a as real) / (d as real) == p by {
        RatioIsProduct(n, c - 1, k);
      }
      assert a * (x - k) == x * b by {
        CombShrink(x, k);
      }
      ExtendProduct(p, a, b, d, x, k, next);
    }
  }

  /** cal_atk's term equals the numerically stable estimator for every valid (n, c, k). */
  lemma TermIsStableEstimate(n: nat, c: nat, k: nat)
    requires c <= n && k <= n
    ensures Term(n, c, k) == StableEstimate(n, c, k)
  {
    if n - c < k {
      assert Comb(n - c, k) == 0;
    } else {
      RatioIsProduct(n, c, k);
    }
  }

  /** So is the log-replay value, for k <= m. */
  lemma PassAtKIsStableEstimate(m: nat, s: nat, k: nat)
    requires s <= m && k <= m
    ensures PassAtK(m, s, k) == StableEstimate(m, s, k)
  {
    VariantsAgree(m, s, k);
    TermIsStableEstimate(m, s, k);
  }

  // ---------------------------------------------------------------------
  // Worked values.

  /** n = 5, c = 1, k = 1: 1 - C(4, 1) / C(5, 1) = 1 - 4/5. */
  lemma FiveTrialsOnePass()
    ensures PassAtK(5, 1, 1) == 0.2
    ensures Term(5, 1, 1) == 0.2
  {
    CombNext(4, 0, 1, 4);
    CombNext(5, 0, 1, 5);
  }

  /** One step of the product formula from a known value of C(n, k): C(n, k + 1) == w. */
  lemma CombNext(n: nat, k: nat, v: nat, w: nat)
    requires Comb(n, k) == v && w * (k + 1) == v * (n - k)
    ensures Comb(n, k + 1) == w
  {
    CombStep(n, k);
  }

  lemma FifteenChooseFive()
    ensures Comb(15, 5) == 3003
  {
    CombNext(15, 0, 1, 15);
    CombNext(15, 1, 15, 105);
    CombNext(15, 2, 105, 455);
    CombNext(15, 3, 455, 1365);
    CombNext(15, 4, 1365, 3003);
  }

  lemma TwentyChooseFive()
    ensures Comb(20, 5) == 15504
  {
    CombNext(20, 0, 1, 20);
    CombNext(20, 1, 20, 190);
    CombNext(20, 2, 190, 1140);
    CombNext(20, 3, 1140, 4845);
    CombNext(20, 4, 4845, 15504);
  }

  /** n = 20, c = 5, k = 5: 1 - C(15, 5) / C(20, 5) = 1 - 3003 / 15504, by the product form. */
  lemma TwentyTrialsFivePasses()
    ensures PassAtK(20, 5, 5) == 1.0 - 3003.0 / 15504.0
    ensures Term(20, 5, 5) == PassAtK(20, 5, 5)
  {
    assert StableEstimate(20, 5, 5) == 1.0 - 3003.0 / 15504.0;
    PassAtKIsStableEstimate(20, 5, 5);
    TermIsStableEstimate(20, 5, 5);
  }
}
