/**
 Go's integer division and remainder. Go's `/` truncates toward zero and its
 `%` takes the sign of the dividend, whereas Dafny's `/` and `%` are
 Euclidean; the two agree only when both operands are non-negative.
 */
module GoArith {

  function Abs(n: int): nat
  {
    if n < 0 then -n else n
  }

  /** Go's `n / d`: the quotient truncated toward zero. */
  function GoDiv(n: int, d: int): int
    requires d != 0
  {
    var q := Abs(n) / Abs(d);
    if (n < 0) == (d < 0) then q else -q
  }

  /** Go's `n % d`: the remainder that goes with GoDiv, carrying the sign of `n`. */
  function GoMod(n: int, d: int): (m: int)
    requires d != 0
    ensures n == d * GoDiv(n, d) + m
    ensures Abs(m) < Abs(d)
    ensures 0 <= n ==> 0 <= m
    ensures n <= 0 ==> m <= 0
  {
    var q := Abs(n) / Abs(d);
    var r := Abs(n) % Abs(d);
    assert Abs(n) == Abs(d) * q + r;
    if n < 0 then -r else r
  }

  /** On non-negative operands Go's and Dafny's division coincide. */
  lemma GoDivModNonNegative(n: int, d: int)
    requires 0 <= n && 0 < d
    ensures GoDiv(n, d) == n / d
    ensures GoMod(n, d) == n % d
  {
  }

  /** On a negative dividend and a positive divisor, Go's quotient and remainder
      are the negated Euclidean quotient and remainder of the magnitude. */
  lemma GoDivModNegative(n: int, d: int)
    requires n < 0 && 0 < d
    ensures GoDiv(n, d) == -((-n) / d)
    ensures GoMod(n, d) == -((-n) % d)
  {
  }

  /** A remainder smaller in magnitude than the divisor is left as it is. */
  lemma GoModSmall(n: int, d: int)
    requires d != 0 && Abs(n) < Abs(d)
    ensures GoMod(n, d) == n
  {
    var a, b := Abs(n), Abs(d);
    var q, r := a / b, a % b;
    assert a == b * q + r && 0 <= r < b;
    assert q == 0;
  }

  /** A non-negative number is its quotient times the divisor plus its remainder. */
  lemma Recompose(n: nat, d: int)
    requires 0 < d
    ensures (n / d) * d + n % d == n
  {
  }
}
