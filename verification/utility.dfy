/** `utility::ceiling(num, significance)`: rounds a non-negative number up to
    a multiple of `significance`, after first rounding it up to a whole
    number. `num` is a float in the program and a `real` here. */
module Utility {

  /** `std::ceil` converted to `int`: the least integer not below `x`. */
  function Ceil(x: real): (n: int)
    ensures x <= n as real < x + 1.0
  {
    -((-x).Floor)
  }

  // ---------------------------------------------------------------------
  // Quotient and remainder facts the solver does not find by itself

  lemma MulNonneg(d: int, s: int)
    requires s > 0 && d >= 0
    ensures d * s >= 0
  {
  }

  lemma MulAtLeast(d: int, s: int)
    requires s > 0 && d >= 1
    ensures d * s >= s
  {
  }

  lemma MulAtMost(d: int, s: int)
    requires s > 0 && d <= -1
    ensures d * s <= -s
  {
  }

  /** Quotient and remainder are the only ones with `0 <= m < s`. */
  lemma DivModUnique(n: int, s: int, q: int, m: int)
    requires s > 0 && 0 <= m < s && n == q * s + m
    ensures n % s == m && n / s == q
  {
    var q0 := n / s;
    var m0 := n % s;
    var d := q - q0;
    assert d * s == m0 - m by {
      assert q * s - q0 * s == (q - q0) * s;
    }
    if d >= 1 { MulAtLeast(d, s); }
    if d <= -1 { MulAtMost(d, s); }
  }

  /** `n + (s - n % s)`, the program's step, is the next multiple of `s`
      strictly above `n`. */
  lemma NextMultiple(n: int, s: int)
    requires s > 0
    ensures var r := n + (s - n % s);
            r % s == 0 && n < r <= n + s && r == (n / s + 1) * s
  {
    var q := n / s;
    var r := n + (s - n % s);
    assert r == (q + 1) * s by {
      assert n == q * s + n % s;
      assert (q + 1) * s == q * s + s;
    }
    DivModUnique(r, s, q + 1, 0);
  }

  /** A multiple of `s` above `n` is at least the next one. */
  lemma MultipleAboveIsAtLeastNext(n: int, s: int, m: int)
    requires s > 0 && m % s == 0 && m > n
    ensures m >= (n / s + 1) * s
  {
    var q := n / s;
    var k := m / s;
    assert m == k * s;
    assert n == q * s + n % s;
    if k <= q {
      MulNonneg(q - k, s);
    } else {
      MulNonneg(k - (q + 1), s);
      assert k * s - (q + 1) * s == (k - (q + 1)) * s;
    }
  }

  /** The program's rounding, as written. With `significance` zero and `num`
      non-negative it would take a remainder by zero, so that case is
      excluded. For non-negative arguments the operands of `%` are
      non-negative, where C++'s truncating remainder agrees with Dafny's. */
  function Ceiling(num: real, significance: int): (r: int)
    requires num < 0.0 || significance != 0
    ensures num < 0.0 || significance < 0 ==> r == -1
    ensures 0.0 <= num < significance as real ==> r == significance
    ensures num >= 0.0 && significance > 0 ==> r % significance == 0 && Ceil(num) <= r && num <= r as real
    ensures num >= significance as real && significance > 0 ==> Ceil(num) < r <= Ceil(num) + significance
  {
    if num < 0.0 || significance < 0 then -1
    else if num < significance as real then
      DivModUnique(significance, significance, 1, 0);
      significance
    else
      var integerNum := Ceil(num);
      var offset := significance - integerNum % significance;
      NextMultiple(integerNum, significance);
      integerNum + offset
  }

  /** For `num` at least `significance`, the result is the least multiple
      of `significance` strictly above `Ceil(num)`. */
  lemma CeilingIsLeastMultipleAbove(num: real, significance: int, m: int)
    requires num >= significance as real && significance > 0
    requires m % significance == 0 && m > Ceil(num)
    ensures Ceiling(num, significance) <= m
  {
    NextMultiple(Ceil(num), significance);
    MultipleAboveIsAtLeastNext(Ceil(num), significance, m);
  }

  /** A whole-number input that is already a multiple is still pushed up a
      full step: `ceiling(50, 25)` is 75. */
  lemma CeilingBumpsMultiples(k: nat, significance: int)
    requires k > 0 && significance > 0
    ensures Ceiling((k * significance) as real, significance) == k * significance + significance
  {
    var n := k * significance;
    assert Ceil(n as real) == n;
    MulAtLeast(k, significance);
    DivModUnique(n, significance, k, 0);
  }

  lemma CeilingExamples()
    ensures Ceiling(50.0, 25) == 75
    ensures Ceiling(30.0, 25) == 50
    ensures Ceiling(10.0, 25) == 25
    ensures Ceiling(0.0, 25) == 25
    ensures Ceiling(-1.0, 25) == -1 && Ceiling(30.0, -1) == -1
  {
    CeilingBumpsMultiples(2, 25);
    assert Ceil(30.0) == 30;
  }

  /** The same rounding with the step corrected to leave a whole number that
      is already a multiple alone, so that the result is the least multiple
      not below `Ceil(num)`; small inputs still give `significance`. */
  function CeilingIntended(num: real, significance: int): (r: int)
    requires num < 0.0 || significance != 0
    ensures num < 0.0 || significance < 0 ==> r == -1
    ensures 0.0 <= num < significance as real ==> r == significance
    ensures num >= 0.0 && significance > 0 ==> r % significance == 0 && num <= r as real
    ensures num >= significance as real && significance > 0 ==> Ceil(num) <= r < Ceil(num) + significance
  {
    if num < 0.0 || significance < 0 then -1
    else if num < significance as real then
      DivModUnique(significance, significance, 1, 0);
      significance
    else
      var integerNum := Ceil(num);
      var m := integerNum % significance;
      if m == 0 then
        integerNum
      else
        NextMultiple(integerNum, significance);
        DivModUnique(significance - m, significance, 0, significance - m);
        integerNum + (significance - m) % significance
  }

  /** For `num` at least `significance`, the corrected rounding is the least
      multiple not below `num`, and it differs from the program's exactly when
      `Ceil(num)` is already a multiple. */
  lemma CeilingIntendedIsLeast(num: real, significance: int, m: int)
    requires num >= significance as real && significance > 0
    requires m % significance == 0 && m as real >= num
    ensures CeilingIntended(num, significance) <= m
    ensures CeilingIntended(num, significance) != Ceiling(num, significance)
        <==> Ceil(num) % significance == 0
  {
    var n := Ceil(num);
    assert m >= n;
    NextMultiple(n, significance);
    if n % significance != 0 {
      MultipleAboveIsAtLeastNext(n, significance, m);
      DivModUnique(significance - n % significance, significance, 0, significance - n % significance);
    }
  }

  /** `ceiling(50, 25)` is 75 as written and 50 corrected. */
  lemma CeilingDiscrepancy()
    ensures Ceiling(50.0, 25) == 75 && CeilingIntended(50.0, 25) == 50
  {
    CeilingBumpsMultiples(2, 25);
    assert Ceil(50.0) == 50;
  }
}
