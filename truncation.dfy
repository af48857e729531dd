/** `truncate(f, n)`: cut a value down to `n` decimal places by flooring.
    The value is the exact rational `num / den`; the result is returned in
    units of 10^-n, so `Truncate(num, den, 2)` is 100 times the exact value that the source
    approximates in floating point. */
module Truncation {

  function Pow10(n: nat): (r: nat)
    ensures r >= 1
  {
    if n == 0 then 1 else 10 * Pow10(n - 1)
  }

  /** floor(num / den * 10^n), in units of 10^-n. */
  function Truncate(num: int, den: int, n: nat): (t: int)
    requires den > 0
    ensures t * den <= num * Pow10(n) < (t + 1) * den
  {
    (num * Pow10(n)) / den
  }

  lemma MulLeMono(a: int, b: int, c: int)
    requires a <= b && c >= 0
    ensures a * c <= b * c
  {
  }

  /** The floor band determines the truncation: it is the only integer `t`
      with t <= num/den * 10^n < t + 1. */
  lemma {:induction false} TruncateUnique(num: int, den: int, n: nat, t: int)
    requires den > 0
    requires t * den <= num * Pow10(n) < (t + 1) * den
    ensures t == Truncate(num, den, n)
  {
    var u := Truncate(num, den, n);
    if t < u {
      MulLeMono(t + 1, u, den);
    } else if u < t {
      MulLeMono(u + 1, t, den);
    }
  }

  lemma CrossLe(a: real, b: real, c: real, d: real)
    requires b > 0.0 && d > 0.0 && a * d <= c * b
    ensures a / b <= c / d
  {
    assert a / b == (a * d) / (b * d);
    assert c / d == (c * b) / (b * d);
  }

  lemma CrossLt(a: real, b: real, c: real, d: real)
    requires b > 0.0 && d > 0.0 && a * d < c * b
    ensures a / b < c / d
  {
    assert a / b == (a * d) / (b * d);
    assert c / d == (c * b) / (b * d);
  }

  /** In real terms: t / 10^n <= num / den < t / 10^n + 10^-n. */
  lemma {:induction false} TruncateBand(num: int, den: int, n: nat)
    requires den > 0
    ensures var t := Truncate(num, den, n);
      (t as real) / (Pow10(n) as real) <= (num as real) / (den as real)
      && (num as real) / (den as real) < ((t + 1) as real) / (Pow10(n) as real)
  {
    var t := Truncate(num, den, n);
    var p := Pow10(n);
    assert t * den <= num * p;
    assert num * p < (t + 1) * den;
    assert (t as real) * (den as real) == (t * den) as real;
    assert (num as real) * (p as real) == (num * p) as real;
    assert ((t + 1) as real) * (den as real) == ((t + 1) * den) as real;
    CrossLe(t as real, p as real, num as real, den as real);
    CrossLt(num as real, den as real, (t + 1) as real, p as real);
  }

  lemma MulNonNeg(a: int, b: int)
    requires a >= 0 && b >= 0
    ensures a * b >= 0
  {
  }

  /** For a non-negative count of votes split `i` ways the truncated quotient
      is non-negative, and it does not grow as the divisor grows. */
  lemma {:induction false} QuotientMonotone(votes: int, i: int, j: int)
    requires votes >= 0 && 0 < i <= j
    ensures 0 <= Truncate(votes, j, 2) <= Truncate(votes, i, 2)
  {
    var p := Pow10(2);
    var a := votes * p;
    MulNonNeg(votes, p);
    var ti := Truncate(votes, i, 2);
    var tj := Truncate(votes, j, 2);
    assert tj * j <= a < (tj + 1) * j;
    assert ti * i <= a < (ti + 1) * i;
    if tj < 0 {
      MulLeMono(tj + 1, 0, j);
      assert false;
    }
    MulLeMono(i, j, tj);
    assert i * tj == tj * i && j * tj == tj * j;
    if ti < tj {
      MulLeMono(ti + 1, tj, i);
      assert false;
    }
  }

  /** The examples: 10/3 truncates to 3.33, and -0.001 floors to -0.01
      (downwards, not towards zero). */
  lemma TruncateExamples()
    ensures Truncate(10, 3, 2) == 333
    ensures Truncate(-1, 1000, 2) == -1
  {
  }
}
