/** Integer facts used by several days: Euclidean `%` (Rust's `rem_euclid`) and Rust's truncating `/` and `%`. */
module Arith {
  function Abs(a: int): nat { if a < 0 then -a else a }

  /** Rust's `/` on signed integers: the quotient rounded toward zero. */
  function TruncDiv(a: int, b: int): int
    requires b != 0
  {
    var q := Abs(a) / Abs(b);
    if (a < 0) != (b < 0) then -q else q
  }

  /** Rust's `%` on signed integers: the remainder takes the sign of the dividend. */
  function TruncRem(a: int, b: int): int
    requires b != 0
  {
    a - b * TruncDiv(a, b)
  }

  /** A product of two naturals is a natural. */
  lemma MulNonneg(a: nat, b: nat)
    ensures a * b >= 0
  {
  }

  /** One factor less by one takes the other factor off the product. */
  lemma MulPred(w: int, h: int)
    ensures w * h == w * (h - 1) + w
  {
  }

  lemma MulAtLeast(k: int, m: int)
    requires k >= 1 && m > 0
    ensures k * m >= m
  {
    var i := 1;
    while i < k
      invariant 1 <= i <= k && i * m >= m
    {
      i := i + 1;
    }
  }

  /** Euclidean division is unique: a quotient and a remainder in range are THE quotient and remainder. */
  lemma DivModUnique(a: int, m: int, q: int, r: int)
    requires m > 0 && 0 <= r < m && a == q * m + r
    ensures a % m == r && a / m == q
  {
    var q0, r0 := a / m, a % m;
    assert a == q0 * m + r0;
    if q0 > q {
      MulAtLeast(q0 - q, m);
    } else if q0 < q {
      MulAtLeast(q - q0, m);
    }
  }

  lemma ModShift(a: int, m: int)
    requires m > 0
    ensures (a - m) % m == a % m && (a + m) % m == a % m
  {
    DivModUnique(a - m, m, a / m - 1, a % m);
    DivModUnique(a + m, m, a / m + 1, a % m);
  }

  /** Rust's `%` by a positive divisor: remainder in (-m, m) with the sign of the dividend, and a == m*q + r. */
  lemma TruncRemRange(a: int, m: int)
    requires m > 0
    ensures -m < TruncRem(a, m) < m
    ensures a >= 0 ==> TruncRem(a, m) >= 0 && TruncRem(a, m) == a % m
    ensures a < 0 ==> TruncRem(a, m) <= 0
    ensures a == m * TruncDiv(a, m) + TruncRem(a, m)
  {
    var q := Abs(a) / m;
    assert Abs(a) == q * m + Abs(a) % m;
    if a < 0 {
      assert TruncDiv(a, m) == -q;
      assert TruncRem(a, m) == a + m * q;
    }
  }

  /** Adding a multiple of m does not change the Euclidean remainder. */
  lemma ModMultiple(q: int, t: int, m: int)
    requires m > 0
    ensures (q * m + t) % m == t % m
  {
    assert t == (t / m) * m + t % m;
    assert q * m + t == (q + t / m) * m + t % m;
    DivModUnique(q * m + t, m, q + t / m, t % m);
  }

  /** Reducing a summand first does not change the Euclidean remainder of the sum. */
  lemma ModAdd(a: int, b: int, m: int)
    requires m > 0
    ensures (a % m + b) % m == (a + b) % m
  {
    assert a == (a / m) * m + a % m;
    ModMultiple(a / m, a % m + b, m);
    assert a + b == (a / m) * m + (a % m + b);
  }

  lemma ModOfInRange(a: int, m: int)
    requires 0 <= a < m
    ensures a % m == a
  {
    DivModUnique(a, m, 0, a);
  }

  /** Rust's `/` undoes an exact multiplication: (q * d) / d == q for any non-zero d. */
  lemma TruncDivExact(q: int, d: int)
    requires d != 0
    ensures TruncDiv(q * d, d) == q
  {
    var a, b := Abs(q), Abs(d);
    assert Abs(q * d) == a * b by {
      if q < 0 && d < 0 {
        assert q * d == (-q) * (-d);
      } else if q < 0 {
        assert q * d == -((-q) * d);
      } else if d < 0 {
        assert q * d == -(q * (-d));
      }
    }
    DivModUnique(a * b, b, a, 0);
    if q > 0 {
      MulAtLeast(q, b);
      assert (q * d < 0) == (d < 0);
    } else if q < 0 {
      MulAtLeast(-q, b);
      assert (q * d < 0) != (d < 0);
    }
  }
}
