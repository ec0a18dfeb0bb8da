/** Facts about Euclidean division that the solver does not find by itself for a variable divisor. */
module Arith {

  lemma MulAtLeast(k: int, n: int)
    requires k >= 1 && n > 0
    ensures k * n >= n
  {
    assert k * n == (k - 1) * n + n;
  }

  lemma MulBetween(k: int, n: int)
    requires n > 0 && -n < k * n < n
    ensures k == 0
  {
    if k >= 1 {
      MulAtLeast(k, n);
    } else if k <= -1 {
      MulAtLeast(-k, n);
    }
  }

  /** Quotient and remainder are unique. */
  lemma DivModUnique(x: int, n: int, q: int, r: int)
    requires n > 0 && x == q * n + r && 0 <= r < n
    ensures x / n == q && x % n == r
  {
    var k := q - x / n;
    assert k * n == q * n - (x / n) * n;
    MulBetween(k, n);
  }

  /** Counting up by one changes the remainder modulo any `n >= 2`. */
  lemma ModSucc(c: int, n: int)
    requires n >= 2
    ensures (c + 1) % n != c % n
  {
    if c % n + 1 < n {
      DivModUnique(c + 1, n, c / n, c % n + 1);
    } else {
      DivModUnique(c + 1, n, c / n + 1, 0);
    }
  }

  /** Adding `k` leaves the remainder modulo `n` unchanged exactly when `n` divides `k`. */
  lemma ModShift(y: int, k: int, n: int)
    requires n > 0
    ensures (y + k) % n == y % n <==> k % n == 0
  {
    var q, r := y / n, y % n;
    var kq, kr := k / n, k % n;
    assert y + k == (q + kq) * n + (r + kr);
    if r + kr < n {
      DivModUnique(y + k, n, q + kq, r + kr);
    } else {
      DivModUnique(y + k, n, q + kq + 1, r + kr - n);
    }
  }

  /** Reducing the first summand modulo `n` first does not change the sum's remainder. */
  lemma ModOfModPlus(x: int, o: int, n: int)
    requires n > 0
    ensures (x % n + o) % n == (x + o) % n
  {
    var z := x % n + o;
    assert x + o == (z / n + x / n) * n + z % n;
    DivModUnique(x + o, n, z / n + x / n, z % n);
  }
}
