/**
 * Python's `int(a / b)` on integers: `/` is true division and `int()`
 * truncates toward zero. Both the wheel handler and the resize code use
 * this idiom. The model treats the float quotient as exact, which it is
 * whenever |a| < 2^53 (every delta and every image size the program sees).
 */
module PyInt {

  function Abs(x: int): (r: nat)
    ensures r == x || r == -x
  {
    if x < 0 then -x else x
  }

  /** `int(a / b)` for a positive divisor: the quotient truncated toward zero. */
  function TruncDiv(a: int, b: int): (q: int)
    requires b > 0
    ensures Abs(q) * b <= Abs(a) < (Abs(q) + 1) * b
    ensures a >= 0 ==> q >= 0
    ensures a <= 0 ==> q <= 0
  {
    if a >= 0 then a / b else -((-a) / b)
  }

  /**
   * The contract of TruncDiv determines its value: any q with the same
   * sign as a (or zero) that brackets |a| between |q|*b and (|q|+1)*b is
   * TruncDiv(a, b).
   */
  lemma TruncDivUnique(a: int, b: int, q: int)
    requires b > 0
    requires Abs(q) * b <= Abs(a) < (Abs(q) + 1) * b
    requires a >= 0 ==> q >= 0
    requires a <= 0 ==> q <= 0
    ensures q == TruncDiv(a, b)
  {
    var t := TruncDiv(a, b);
    QuotientUnique(Abs(a), b, Abs(q), Abs(t));
  }

  lemma QuotientUnique(n: nat, b: int, x: nat, y: nat)
    requires b > 0
    requires x * b <= n < (x + 1) * b
    requires y * b <= n < (y + 1) * b
    ensures x == y
  {
    if x < y {
      MulMono(x + 1, y, b);
    } else if y < x {
      MulMono(y + 1, x, b);
    }
  }

  lemma MulMono(x: int, y: int, b: int)
    requires x <= y && b > 0
    ensures x * b <= y * b
  {
    assert y * b - x * b == (y - x) * b;
  }

  /** Unlike Dafny's Euclidean `/`, truncation is symmetric under negation. */
  lemma TruncDivNeg(a: int, b: int)
    requires b > 0
    ensures TruncDiv(-a, b) == -TruncDiv(a, b)
  {
  }

  /** On exact multiples there is no rounding at all. */
  lemma TruncDivExact(k: int, b: int)
    requires b > 0
    ensures TruncDiv(k * b, b) == k
  {
    assert Abs(k * b) == Abs(k) * b by {
      if k < 0 { assert -(k * b) == (-k) * b; }
    }
    TruncDivUnique(k * b, b, k);
  }
}
