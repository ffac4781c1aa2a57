/** Real-number helpers standing in for `Math.pow`, `Math.sqrt` and `Math.ceil`.
    Arithmetic is exact over `real`; IEEE-754 rounding is not modelled. */
module RealMath {

  /** `Math.pow(x, n)` for a natural exponent. */
  function Pow(x: real, n: nat): (r: real)
    ensures x != 0.0 ==> r != 0.0
  {
    if n == 0 then 1.0 else x * Pow(x, n - 1)
  }

  lemma {:induction false} PowPositive(x: real, n: nat)
    requires x > 0.0
    ensures Pow(x, n) > 0.0
  {
    if n > 0 {
      PowPositive(x, n - 1);
    }
  }

  lemma QuotientPositive(a: real, b: real)
    requires a > 0.0 && b > 0.0
    ensures a / b > 0.0
  {
  }

  lemma QuotientTimesDivisor(a: real, b: real)
    requires b != 0.0
    ensures a / b * b == a
  {
  }

  /** Dividing both sides of `x * n <= y * n` by a positive `n`. */
  lemma CancelPositiveFactor(x: real, y: real, n: real)
    requires n > 0.0 && x * n <= y * n
    ensures x <= y
  {
  }

  /** A non-zero factor cancels from both sides of an equation. */
  lemma CancelFactor(x: real, y: real, n: real)
    requires n != 0.0 && x * n == y * n
    ensures x == y
  {
    if n > 0.0 {
      ScaleStrict(x, y, n);
      ScaleStrict(y, x, n);
    } else {
      var m := -n;
      assert x * m == y * m;
      ScaleStrict(x, y, m);
      ScaleStrict(y, x, m);
    }
  }

  /** Multiplying both sides of a strict inequality by a positive `n`. */
  lemma ScaleStrict(x: real, y: real, n: real)
    requires n > 0.0
    ensures x < y <==> x * n < y * n
  {
    if x < y {
      assert (y - x) * n > 0.0;
    }
    if x * n < y * n {
      assert (y - x) * n > 0.0;
    }
  }

  /** Two non-negative numbers with the same square are equal. */
  lemma SquareInjective(a: real, b: real)
    requires a >= 0.0 && b >= 0.0 && a * a == b * b
    ensures a == b
  {
    if a < b {
      SquareStrict(a, b);
    } else if b < a {
      SquareStrict(b, a);
    }
  }

  lemma SquareStrict(a: real, b: real)
    requires 0.0 <= a < b
    ensures a * a < b * b
  {
    assert a * (b - a) >= 0.0;
    assert (b - a) * b > 0.0;
  }

  lemma SquareMonotone(a: real, b: real)
    requires 0.0 <= a <= b
    ensures a * a <= b * b
  {
    assert a * a <= a * b;
    assert a * b <= b * b;
  }

  /** `Math.sqrt` is a library routine the model does not see: every member
      that needs it takes it as a parameter that meets this predicate. */
  ghost predicate IsSqrt(sqrt: real -> real) {
    forall x :: x >= 0.0 ==> sqrt(x) >= 0.0 && sqrt(x) * sqrt(x) == x
  }

  /** The root of a positive number is positive. */
  lemma SqrtOfPositive(sqrt: real -> real, x: real)
    requires IsSqrt(sqrt)
    requires x > 0.0
    ensures sqrt(x) > 0.0
  {
    assert sqrt(x) >= 0.0 && sqrt(x) * sqrt(x) == x;
  }

  /** A non-negative number whose square is `x` is the root of `x`. */
  lemma SqrtUnique(sqrt: real -> real, x: real, y: real)
    requires IsSqrt(sqrt)
    requires y >= 0.0 && y * y == x
    ensures sqrt(x) == y
  {
    var s := sqrt(x);
    assert s >= 0.0 && s * s == x;
    SquareInjective(s, y);
  }

  /** `Math.ceil`: the least integer not below `x`. */
  function Ceil(x: real): (r: int)
    ensures x <= r as real < x + 1.0
  {
    var f := x.Floor;
    if f as real == x then f else f + 1
  }

  /** Any integer not below `x` is at least `Ceil(x)`. */
  lemma CeilLeast(x: real, n: int)
    requires x <= n as real
    ensures Ceil(x) <= n
  {
  }

  /** The sum of a list of numbers, folded from the left. */
  function Sum(xs: seq<real>): real {
    if xs == [] then 0.0 else Sum(xs[..|xs| - 1]) + xs[|xs| - 1]
  }

  lemma SumSnoc(xs: seq<real>, x: real)
    ensures Sum(xs + [x]) == Sum(xs) + x
  {
    assert (xs + [x])[..|xs|] == xs;
  }

  /** Changing one entry changes the sum by the difference. */
  lemma {:induction false} SumUpdate(xs: seq<real>, k: nat, y: real)
    requires k < |xs|
    ensures Sum(xs[k := y]) == Sum(xs) - xs[k] + y
    decreases |xs|
  {
    var n := |xs| - 1;
    var ys := xs[k := y];
    if k < n {
      assert ys[..n] == xs[..n][k := y];
      SumUpdate(xs[..n], k, y);
    } else {
      assert ys[..n] == xs[..n];
    }
  }

  lemma SumPair(a: real, b: real)
    ensures Sum([a, b]) == a + b
  {
    assert [a][..0] == [];
    assert Sum([a]) == a;
    assert [a, b][..1] == [a];
  }
}
