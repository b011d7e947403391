/** Facts about exact rational arithmetic that let the scorer's
    ratio-and-threshold tests be restated over integers. */
module Arith {

  /** `Math.min(a, b)` on numbers. */
  function MinReal(a: real, b: real): (m: real)
    ensures m <= a && m <= b && (m == a || m == b)
  {
    if a <= b then a else b
  }

  /** Dividing by `n` and scaling by `c` is scaling by `c` and dividing by `n`. */
  lemma ScaleDiv(a: real, n: real, c: real)
    requires n > 0.0
    ensures (a / n) * c == (a * c) / n
  {
    var d := a / n;
    assert d * n == a;
    assert (d * c) * n == a * c;
  }

  lemma DivAtLeast(x: real, n: real, c: real)
    requires n > 0.0
    ensures x / n >= c <==> x >= c * n
  {
    var d := x / n;
    assert d * n == x;
    if d < c {
      assert d * n < c * n;
    } else {
      assert d * n >= c * n;
    }
  }

  lemma DivAbove(x: real, n: real, c: real)
    requires n > 0.0
    ensures x / n > c <==> x > c * n
  {
    var d := x / n;
    assert d * n == x;
    if d > c {
      assert d * n > c * n;
    } else {
      assert d * n <= c * n;
    }
  }

  lemma DivZero(x: real, n: real)
    requires n > 0.0 && x >= 0.0
    ensures x / n == 0.0 <==> x == 0.0
  {
    var d := x / n;
    assert d * n == x;
  }
}
