/** Products, quotients and sums, one fact at a time. */
module Arithmetic {

  lemma MulLe(a: int, b: int, n: nat)
    requires a <= b
    ensures a * n <= b * n
  {
  }

  lemma MulDiff(a: int, b: int, n: int)
    ensures (a - b) * n == a * n - b * n
  {
  }

  lemma MulLess(x: int, y: int, n: nat)
    requires n > 0
    ensures x < y <==> x * n < y * n
  {
    if x < y {
      MulLe(x + 1, y, n);
      MulDiff(x, -1, n);
    } else {
      MulLe(y, x, n);
    }
  }

  lemma MulAtMost(x: int, y: int, n: nat)
    requires n > 0
    ensures x * n <= y * n <==> x <= y
  {
    if x <= y {
      MulLe(x, y, n);
    } else {
      MulLe(y + 1, x, n);
      MulDiff(y, -1, n);
    }
  }

  /** Quotient and remainder are determined by x == q * n + r. */
  lemma Quotient(x: int, n: nat, q: int, r: nat)
    requires r < n && x == q * n + r
    ensures x / n == q && x % n == r
  {
    var q', r' := x / n, x % n;
    assert x == q' * n + r';
    if q' < q {
      MulLe(q' + 1, q, n);
      MulDiff(q', -1, n);
    } else if q' > q {
      MulLe(q + 1, q', n);
      MulDiff(q, -1, n);
    }
  }

  lemma MultipleMod(q: int, n: nat)
    requires n > 0
    ensures (q * n) % n == 0
  {
    Quotient(q * n, n, q, 0);
  }

  lemma Exact(q: int, n: nat)
    requires n > 0
    ensures q * n / n == q
  {
    Quotient(q * n, n, q, 0);
  }

  /** Less than twice around a ring. */
  lemma Wrap(a: nat, n: nat)
    requires a < 2 * n
    ensures a % n == if a < n then a else a - n
  {
    if a < n {
      Quotient(a, n, 0, a);
    } else {
      Quotient(a, n, 1, a - n);
    }
  }

  /** i * n by repeated addition. */
  function Times(i: nat, n: nat): nat {
    if i == 0 then 0 else Times(i - 1, n) + n
  }

  lemma {:induction false} TimesIs(i: nat, n: nat)
    ensures Times(i, n) == i * n
  {
    if i > 0 {
      TimesIs(i - 1, n);
      MulDiff(i, 1, n);
    }
  }

  lemma {:induction false} TimesLe(i: nat, j: nat, n: nat)
    requires i <= j
    ensures Times(i, n) <= Times(j, n)
    ensures n > 0 ==> j <= Times(j, n)
    decreases j
  {
    if i < j {
      TimesLe(i, j - 1, n);
    } else if j > 0 {
      TimesLe(j - 1, j - 1, n);
    }
  }

  // ----- sums

  function Sum(xs: seq<real>): real {
    if xs == [] then 0.0 else Sum(xs[..|xs| - 1]) + xs[|xs| - 1]
  }
}
