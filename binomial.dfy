/**
 * Binomial coefficients with the integer semantics of Python's math.comb:
 * C(n, k) counts the k-element subsets of an n-element set, and is 0 when
 * k > n.
 */
module Binomial {

  /** math.comb(n, k), by Pascal's rule. It is positive exactly when k <= n. */
  function Comb(n: nat, k: nat): (r: nat)
    ensures r > 0 <==> k <= n
  {
    if k == 0 then 1
    else if n == 0 then 0
    else Comb(n - 1, k - 1) + Comb(n - 1, k)
  }

  /** The ring arithmetic behind CombStep, kept apart from Comb. */
  lemma StepArith(a: int, b: int, c: int, n: int, k: int)
    requires b * (k + 1) == a * (n - 1 - k)
    requires a * k == c * (n - k)
    ensures (a + b) * (k + 1) == (c + a) * (n - k)
  {
  }

  /** The ring arithmetic behind CombShrink, kept apart from Comb. */
  lemma ShrinkArith(a: int, b: int, lhs: int, x: int, k: int)
    requires lhs == (a + b) * (k + 1)
    requires b * (k + 1) == a * (x - 1 - k)
    ensures lhs == x * a
  {
  }

  /** One step of the product formula: C(n, k + 1) * (k + 1) == C(n, k) * (n - k). */
  lemma {:induction false} CombStep(n: nat, k: nat)
    ensures Comb(n, k + 1) * (k + 1) == Comb(n, k) * (n - k)
  {
    if n == 0 {
      assert Comb(0, k + 1) == 0;
      if k > 0 {
        assert Comb(0, k) == 0;
      }
    } else {
      var a, b := Comb(n - 1, k), Comb(n - 1, k + 1);
      CombStep(n - 1, k);
      assert Comb(n, k + 1) == a + b;
      if k == 0 {
        assert Comb(n - 1, 0) == 1 && Comb(n, 0) == 1;
        ShrinkArith(a, b, Comb(n, 1), n, 0);
      } else {
        var c := Comb(n - 1, k - 1);
        CombStep(n - 1, k - 1);
        assert Comb(n, k) == c + a;
        StepArith(a, b, c, n, k);
      }
    }
  }

  /** Removing one element: C(x, k) * (x - k) == x * C(x - 1, k). */
  lemma CombShrink(x: nat, k: nat)
    requires x >= 1
    ensures Comb(x, k) * (x - k) == x * Comb(x - 1, k)
  {
    var a, b := Comb(x - 1, k), Comb(x - 1, k + 1);
    CombStep(x, k);
    CombStep(x - 1, k);
    assert Comb(x, k + 1) == a + b;
    ShrinkArith(a, b, Comb(x, k + 1) * (k + 1), x, k);
  }

  /** C(a, k) <= C(b, k) whenever a <= b. */
  lemma {:induction false} CombMonotone(a: nat, b: nat, k: nat)
    requires a <= b
    ensures Comb(a, k) <= Comb(b, k)
    decreases b - a
  {
    if a < b {
      CombMonotone(a, b - 1, k);
      if k > 0 {
        assert Comb(b, k) == Comb(b - 1, k - 1) + Comb(b - 1, k);
      }
    }
  }
}
