/** Nonlinear facts about natural numbers used by the resampler and the scalers. */
module Arith {

  function Min(a: int, b: int): int { if a < b then a else b }

  function Max(a: int, b: int): int { if a < b then b else a }

  lemma {:induction false} MulLe(a: int, b: int, n: nat)
    requires a <= b
    ensures a * n <= b * n
    decreases b - a
  {
    if a < b {
      MulLe(a, b - 1, n);
      assert b * n == (b - 1) * n + n;
    }
  }

  /** Euclidean quotients are unique. */
  lemma DivUnique(a: int, n: nat, q: int)
    requires n > 0 && q * n <= a < q * n + n
    ensures a / n == q
  {
    var p := a / n;
    assert p * n <= a < p * n + n;
    if p < q {
      MulLe(p + 1, q, n);
    } else if q < p {
      MulLe(q + 1, p, n);
    }
  }

  lemma DivShift(a: int, n: nat)
    requires n > 0
    ensures (a - n) / n == a / n - 1
  {
    var q := a / n;
    assert a == q * n + a % n;
    DivUnique(a - n, n, q - 1);
  }

  /** q is at most a quotient exactly when its product is at most the dividend. */
  lemma DivBound(a: int, n: nat, q: int)
    requires n > 0
    ensures q <= a / n <==> q * n <= a
  {
    var p := a / n;
    assert p * n <= a < p * n + n;
    if q <= p {
      MulLe(q, p, n);
    } else {
      MulLe(p + 1, q, n);
    }
  }

  lemma MulLt(a: int, b: int, n: nat)
    requires a < b && n > 0
    ensures a * n < b * n
  {
    MulLe(a, b - 1, n);
    assert b * n == (b - 1) * n + n;
  }

  lemma CancelLe(a: int, b: int, n: nat)
    requires n > 0 && a * n <= b * n
    ensures a <= b
  {
    if b < a { MulLt(b, a, n); }
  }

  lemma CancelLt(a: int, b: int, n: nat)
    requires n > 0 && a * n < b * n
    ensures a < b
  {
    if b <= a { MulLe(b, a, n); }
  }

  lemma Swap(a: int, b: int, c: int)
    ensures (a * b) * c == (a * c) * b
  {
  }

  /** Equal fractions have equal floors. */
  lemma EqualFloors(a: int, n: nat, b: int, m: nat)
    requires n > 0 && m > 0 && a * m == b * n
    ensures a / n == b / m
  {
    var c := a / n;
    assert c * n <= a < (c + 1) * n;
    MulLe(c * n, a, m);
    MulLt(a, (c + 1) * n, m);
    Swap(c, n, m);
    Swap(c + 1, n, m);
    CancelLe(c * m, b, n);
    CancelLt(b, (c + 1) * m, n);
    DivUnique(b, m, c);
  }
}
