/** Facts about division and remainder by a variable modulus. */
module Arith {

  lemma {:induction false} MulAtLeast(k: int, n: nat)
    requires k >= 1
    ensures k * n >= n
  {
    assert k * n == (k - 1) * n + n;
    MulNonNegative(k - 1, n);
  }

  lemma {:induction false} MulNonNegative(a: nat, b: nat)
    ensures a * b >= 0
  {
  }

  /** Quotient and remainder are unique. */
  lemma {:induction false} DivModUnique(x: int, n: nat, q: int, r: int)
    requires n > 0 && x == q * n + r && 0 <= r < n
    ensures x / n == q && x % n == r
  {
    var q', r' := x / n, x % n;
    var k := q' - q;
    assert x == n * q' + r';
    assert k * n == r - r' by {
      assert k * n == q' * n - q * n;
    }
    assert (-k) * n == -(k * n);
    if k >= 1 {
      MulAtLeast(k, n);
    } else if k <= -1 {
      MulAtLeast(-k, n);
    }
  }

  lemma {:induction false} DivNonNegative(x: nat, n: nat)
    requires n > 0
    ensures x / n >= 0
  {
    var q := x / n;
    assert x == n * q + x % n;
    if q < 0 {
      MulAtLeast(-q, n);
    }
  }

  lemma {:induction false} ModDrop(x: nat, n: nat)
    requires n > 0
    ensures (x + n) % n == x % n
  {
    var q, r := x / n, x % n;
    assert x == n * q + r;
    assert x + n == (q + 1) * n + r;
    DivModUnique(x + n, n, q + 1, r);
  }

  /** Remainders by a divisor of the modulus. */
  lemma {:induction false} ModOfMod(x: int, m: int, k: int, n: int)
    requires m > 0 && k > 0 && n == m * k
    ensures n > 0 && x % n % m == x % m
  {
    MulAtLeast(k, m);
    var q, r := x / n, x % n;
    var a, b := r / m, r % m;
    assert x == n * q + r && r == m * a + b;
    assert x == (k * q + a) * m + b by {
      assert n * q == m * (k * q);
      assert (k * q + a) * m == (k * q) * m + a * m;
    }
    DivModUnique(x, m, k * q + a, b);
  }

  /** A digit, counted from below or from above. */
  lemma {:induction false} DivOfMod(x: int, a: int, b: int, n: int)
    requires a > 0 && b > 0 && n == a * b
    ensures n > 0 && x % n / a == x / a % b
  {
    MulAtLeast(b, a);
    var q, r := x / a, x % a;
    var u, w := q / b, q % b;
    assert x == a * q + r && q == b * u + w;
    assert x == u * n + (w * a + r) by {
      assert a * q == a * (b * u) + a * w;
      assert a * (b * u) == u * (a * b);
    }
    assert w * a + r < n by {
      MulMonotone(a, w, b - 1);
      assert w * a == a * w && a * (b - 1) == a * b - a;
    }
    MulNonNegative(w, a);
    DivModUnique(x, n, u, w * a + r);
    DivModUnique(w * a + r, a, w, r);
  }

  lemma {:induction false} HalfDiv(c: nat, x: nat)
    requires x >= 1
    ensures c / 2 / x == c / (2 * x)
  {
    var q, r := c / 2 / x, c / 2 % x;
    assert c / 2 == x * q + r;
    assert c == q * (2 * x) + (2 * r + c % 2);
    DivModUnique(c, 2 * x, q, 2 * r + c % 2);
  }

  /** 1 << k. */
  function Pow2(k: nat): (r: nat)
    ensures r >= 1
  {
    if k == 0 then 1 else 2 * Pow2(k - 1)
  }

  lemma {:induction false} Pow2Sum(a: nat, b: nat)
    ensures Pow2(a + b) == Pow2(a) * Pow2(b)
  {
    if b > 0 {
      Pow2Sum(a, b - 1);
      assert Pow2(a + b) == 2 * Pow2(a + (b - 1));
    }
  }

  lemma {:induction false} Pow2Next(k: nat)
    ensures Pow2(k + 1) == 2 * Pow2(k)
  {
  }

  lemma {:induction false} Pow2Monotone(a: nat, b: nat)
    requires a <= b
    ensures Pow2(a) <= Pow2(b)
  {
    if a < b {
      Pow2Monotone(a, b - 1);
    }
  }

  lemma {:induction false} Pow2Less(a: nat, b: nat)
    requires Pow2(a) < Pow2(b)
    ensures a < b
  {
    hide Pow2;
    if a >= b {
      Pow2Monotone(b, a);
    }
  }

  /** The powers that the masks and shifts of the sources use. */
  lemma {:induction false} WordPowers()
    ensures Pow2(10) == 0x400 && Pow2(11) == 0x800 && Pow2(12) == 0x1000 && Pow2(16) == 0x1_0000
    ensures Pow2(20) == 0x10_0000 && Pow2(30) == 0x4000_0000 && Pow2(31) == 0x8000_0000
  {
    assert Pow2(4) == 16 && Pow2(5) == 32;
    Pow2Sum(5, 5);
    Pow2Sum(10, 10);
    Pow2Sum(20, 10);
    Pow2Sum(4, 4);
    Pow2Sum(8, 8);
  }

  lemma {:induction false} MulDistributes(a: int, b: int, c: int)
    ensures a * (b + c) == a * b + a * c
    ensures a * (b - c) == a * b - a * c
  {
  }

  lemma {:induction false} MulMonotone(a: nat, b: int, c: int)
    requires b <= c
    ensures a * b <= a * c
  {
    MulNonNegative(a, c - b);
    MulDistributes(a, c, b);
  }

  /** What is smaller by a factor is smaller. */
  lemma {:induction false} MulCancel(a: nat, b: int, c: int)
    requires a >= 1 && a * b < a * c
    ensures b < c
  {
    if b >= c {
      MulMonotone(a, c, b);
    }
  }
}
