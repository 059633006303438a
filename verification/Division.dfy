/** Facts about quotients and remainders that the solver does not find by itself. */
module Division {

  lemma SmallMultiple(x: int, g: nat, r: int)
    requires -(g as int) < r < g && x * g + r == 0
    ensures x == 0
  {
    assert x >= 1 ==> x * g >= g by {
      assert x >= 1 ==> (x - 1) * g >= 0;
    }
    assert x <= -1 ==> x * g <= -(g as int) by {
      assert x <= -1 ==> (x + 1) * g <= 0;
    }
  }

  /** Quotient and remainder are unique. */
  lemma DivMod(x: nat, d: nat, q: nat, r: nat)
    requires d > 0 && r < d && x == q * d + r
    ensures x / d == q && x % d == r
  {
    assert (x / d - q) * d + (x % d - r) == 0 by {
      assert x == (x / d) * d + x % d;
      assert (x / d - q) * d == (x / d) * d - q * d;
    }
    SmallMultiple(x / d - q, d, x % d - r);
  }

  lemma DivAdd(x: nat, y: nat, d: nat)
    requires d > 0
    ensures var s := x % d + y;
      && (x + y) / d == x / d + s / d && (x + y) % d == s - (s / d) * d && 0 <= s - (s / d) * d < d
  {
    var s := x % d + y;
    assert x == (x / d) * d + x % d;
    assert s == (s / d) * d + s % d;
    assert (x / d + s / d) * d == (x / d) * d + (s / d) * d;
    DivMod(x + y, d, x / d + s / d, s % d);
  }

  lemma AtMost(x: nat, d: nat, c: nat)
    requires d > 0 && x < c * d
    ensures x / d < c
  {
    var q := x / d;
    assert x == q * d + x % d;
    assert (q - c) * d == q * d - c * d;
    assert q >= c ==> (q - c) * d >= 0;
  }

  lemma Cancel(x: int, g: nat)
    requires g > 0 && x * g == g
    ensures x == 1
  {
    assert (x - 1) * g + 0 == 0;
    SmallMultiple(x - 1, g, 0);
  }

  /** Two numbers less than n apart: how their remainders lie. */
  lemma Lap(a: nat, b: nat, n: nat)
    requires n > 0 && b <= a < b + n
    ensures a - b == if a % n >= b % n then a % n - b % n else a % n - b % n + n
  {
    var k, r, t := a / n - b / n, a % n, b % n;
    assert k * n == a - b - (r - t) by {
      assert a == (a / n) * n + r && b == (b / n) * n + t;
      assert k * n == (a / n) * n - (b / n) * n;
    }
    if r >= t {
      SmallMultiple(k, n, r - t - (a - b));
    } else {
      assert (k - 1) * n == k * n - n;
      SmallMultiple(k - 1, n, r - t + n - (a - b));
    }
  }

  lemma Offset(a: nat, i: nat, n: nat)
    requires n > 0 && a % n + i <= n
    ensures (a + i) % n == (a % n + i) % n == if a % n + i == n then 0 else a % n + i
  {
    DivAdd(a, i, n);
    var s := a % n + i;
    if s == n {
      DivMod(s, n, 1, 0);
    } else {
      DivMod(s, n, 0, s);
    }
  }

  /** Equal multiples order their factors. */
  lemma LessFactor(x: int, y: int, q: nat)
    requires q > 0
    ensures x * q < y * q + q ==> x <= y
  {
    assert (x - y) * q == x * q - y * q;
    assert x - y >= 1 ==> (x - y - 1) * q >= 0;
    assert (x - y - 1) * q == (x - y) * q - q;
  }

  lemma MulMonotone(a: nat, b: nat, c: nat)
    requires a <= b
    ensures a * c <= b * c
  {
    assert (b - a) * c >= 0;
  }

  /** Adding y, at most h times n, to a remainder. */
  lemma CarryBound(r: nat, y: nat, n: nat, h: nat)
    requires r < n && y <= h * n
    ensures (r + y) / n <= h && (r + y < n ==> (r + y) / n == 0)
  {
    assert (h + 1) * n == h * n + n;
    AtMost(r + y, n, h + 1);
    if r + y < n {
      DivMod(r + y, n, 0, r + y);
    }
  }

  /** n steps of length s. */
  function Times(n: nat, s: real): real {
    n as real * s
  }

  lemma TimesSteps(n: nat, s: real)
    ensures Times(0, s) == 0.0 && Times(n + 1, s) == Times(n, s) + s
  {
  }
}
