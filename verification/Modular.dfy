/** The few facts about remainders by a variable modulus that the circular buffer needs. */
module Modular {

  lemma MulAtLeast(k: int, m: nat)
    requires k >= 1
    ensures k * m >= m
  {
    assert k * m == (k - 1) * m + m;
    assert (k - 1) * m >= 0;
  }

  /** A quotient and a remainder in range are the quotient and the remainder. */
  lemma ModUnique(x: int, q: int, r: int, m: nat)
    requires 0 < m && x == q * m + r && 0 <= r < m
    ensures x % m == r
  {
    var q', r' := x / m, x % m;
    var d := q - q';
    assert x == m * q' + r';
    assert d * m == r' - r by {
      assert d * m == q * m - q' * m;
    }
    if d >= 1 {
      MulAtLeast(d, m);
    } else if d <= -1 {
      MulAtLeast(-d, m);
    }
  }

  lemma ModSmall(x: nat, m: nat)
    requires x < m
    ensures x % m == x
  {
    ModUnique(x, 0, x, m);
  }

  /** The remainder by repeated subtraction; the same number as `x % m`. */
  function Rem(x: nat, m: nat): (r: nat)
    requires 0 < m
    ensures r < m
  {
    if x < m then x else Rem(x - m, m)
  }

  lemma RemOnce(x: nat, m: nat)
    requires 0 < m <= x < 2 * m
    ensures Rem(x, m) == x - m
  {
    assert Rem(x - m, m) == x - m;
  }

  lemma {:induction false} RemIsMod(x: nat, m: nat)
    requires 0 < m
    ensures Rem(x, m) == x % m
  {
    if x < m {
      ModSmall(x, m);
    } else {
      RemIsMod(x - m, m);
      var q, r := (x - m) / m, (x - m) % m;
      assert x - m == m * q + r;
      assert x == (q + 1) * m + r;
      ModUnique(x, q + 1, r, m);
    }
  }

  /** Reducing the first summand does not change the remainder of a sum. */
  lemma {:induction false} RemAdd(a: nat, b: nat, m: nat)
    requires 0 < m
    ensures Rem(a + b, m) == Rem(Rem(a, m) + b, m)
  {
    if a < m {
    } else {
      RemAdd(a - m, b, m);
      assert Rem(a + b, m) == Rem(a + b - m, m);
    }
  }

  /** Sums and differences of multiples are multiples ... */
  lemma {:induction false} MultipleSum(a: nat, b: nat, m: nat)
    requires 0 < m && Rem(a, m) == 0 && Rem(b, m) == 0
    ensures Rem(a + b, m) == 0
    ensures b <= a ==> Rem(a - b, m) == 0
  {
    RemAdd(a, b, m);
    if b <= a {
      RemAdd(b, a - b, m);
      assert b + (a - b) == a;
    }
  }

  /** ... and so are remainders of one multiple by another. */
  lemma {:induction false} MultipleRem(a: nat, n: nat, m: nat)
    requires 0 < m && 0 < n && Rem(a, m) == 0 && Rem(n, m) == 0
    ensures Rem(Rem(a, n), m) == 0
  {
    if a < n {
    } else {
      MultipleSum(a, n, m);
      MultipleRem(a - n, n, m);
    }
  }

  lemma {:induction false} MultipleProduct(k: nat, m: nat)
    requires 0 < m
    ensures Rem(k * m, m) == 0
  {
    if k == 0 {
    } else {
      MultipleProduct(k - 1, m);
      assert k * m == (k - 1) * m + m;
    }
  }
}
