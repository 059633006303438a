/** The remainder loop that brings a rate conversion to lowest terms, and what that buys. */
module Gcd {
  import opened Division

  ghost predicate Divides(d: nat, n: int) {
    exists q :: n == Mul(q, d)
  }

  function Mul(q: int, d: int): int {
    q * d
  }

  /** g is a common divisor, and every common divisor divides it. */
  ghost predicate IsGcd(g: nat, a: nat, b: nat) {
    Divides(g, a) && Divides(g, b) && forall d: nat :: Divides(d, a) && Divides(d, b) ==> Divides(d, g)
  }

  lemma DividesCombination(d: nat, a: int, b: int, k: int)
    requires Divides(d, a) && Divides(d, b)
    ensures Divides(d, a + k * b)
  {
    var p, q :| a == Mul(p, d) && b == Mul(q, d);
    assert a + k * b == Mul(p + k * q, d) by {
      assert k * (q * d) == (k * q) * d;
    }
  }

  lemma DividesSelf(a: nat)
    ensures Divides(a, a) && Divides(a, 0) && Divides(1, a)
  {
    assert a == Mul(1, a) && 0 == Mul(0, a) && a == Mul(a, 1);
  }

  /** Common divisors of (a % b, b) and of (a, b) are the same. */
  lemma RemainderStep(g: nat, a: nat, b: nat)
    requires b > 0
    ensures IsGcd(g, a % b, b) <==> IsGcd(g, a, b)
    ensures IsGcd(g, b, a % b) <==> IsGcd(g, b, a)
  {
    forall d: nat
      ensures Divides(d, a % b) && Divides(d, b) <==> Divides(d, a) && Divides(d, b)
    {
      if Divides(d, b) {
        if Divides(d, a % b) {
          DividesCombination(d, a % b, b, a / b);
          assert a % b + (a / b) * b == a;
        }
        if Divides(d, a) {
          DividesCombination(d, a, b, -(a / b));
          assert a + -(a / b) * b == a % b;
        }
      }
    }
  }

  lemma GcdOfZero(a: nat)
    ensures IsGcd(a, a, 0) && IsGcd(a, 0, a) && IsGcd(1, 1, a) && IsGcd(1, a, 1)
  {
    DividesSelf(a);
    DividesSelf(1);
  }

  method ComputeGcd(x: nat, y: nat) returns (g: nat)
    ensures IsGcd(g, x, y)
  {
    GcdOfZero(x);
    GcdOfZero(y);
    var a, b := x, y;
    if a == 0 {
      return b;
    }
    if b == 0 {
      return a;
    }
    while true
      invariant a > 0 && b > 0
      invariant forall d: nat :: IsGcd(d, a, b) ==> IsGcd(d, x, y)
      decreases a + b
    {
      hide IsGcd;
      GcdOfZero(a);
      GcdOfZero(b);
      if a > b {
        forall d: nat { RemainderStep(d, a, b); }
        a := a % b;
        if a == 0 {
          return b;
        }
        if a == 1 {
          return 1;
        }
      } else {
        forall d: nat { RemainderStep(d, b, a); }
        b := b % a;
        if b == 0 {
          return a;
        }
        if b == 1 {
          return 1;
        }
      }
    }
  }

  lemma ExactQuotient(q: int, g: nat, n: nat)
    requires g > 0 && n == q * g
    ensures n / g == q && q >= 0
  {
    var k := n / g;
    assert (k - q) * g + n % g == 0 by {
      assert n == k * g + n % g;
      assert (k - q) * g == k * g - q * g;
    }
    SmallMultiple(k - q, g, n % g);
  }

  lemma ScaledDivides(d: nat, p: nat, g: nat)
    requires Divides(d, p)
    ensures Divides(d * g, p * g)
  {
    var u :| p == Mul(u, d);
    assert p * g == Mul(u, d * g) by {
      assert (u * d) * g == u * (d * g);
    }
  }

  lemma UnscaledUnit(d: nat, g: nat)
    requires Divides(d * g, g) && g > 0
    ensures Divides(d, 1)
  {
    var w :| g == Mul(w, d * g);
    assert w * (d * g) == (w * d) * g;
    assert (w * d - 1) * g == 0;
    assert 1 == Mul(w, d);
  }

  /** Dividing two numbers by their greatest common divisor makes them coprime. */
  lemma LowestTerms(g: nat, a: nat, b: nat)
    requires IsGcd(g, a, b) && a > 0
    ensures g > 0 && (a / g) * g == a && (b / g) * g == b && IsGcd(1, a / g, b / g)
  {
    var p, q :| a == Mul(p, g) && b == Mul(q, g);
    assert g > 0;
    ExactQuotient(p, g, a);
    ExactQuotient(q, g, b);
    forall d: nat | Divides(d, p) && Divides(d, q)
      ensures Divides(d, 1)
    {
      ScaledDivides(d, p, g);
      ScaledDivides(d, q, g);
      UnscaledUnit(d, g);
    }
    DividesSelf(p);
    DividesSelf(q);
  }

  /** The greatest common divisor is a combination of the two numbers. */
  lemma {:induction false} Bezout(a: nat, b: nat) returns (x: int, y: int)
    ensures x * a + y * b >= 0 && Divides(x * a + y * b, a) && Divides(x * a + y * b, b)
    decreases b
  {
    if b == 0 {
      x, y := 1, 0;
      DividesSelf(a);
    } else {
      var u, v := Bezout(b, a % b);
      x, y := v, u - (a / b) * v;
      var g := u * b + v * (a % b);
      assert x * a + y * b == g by {
        assert v * a == v * (a % b + (a / b) * b) == v * (a % b) + v * ((a / b) * b);
        assert v * ((a / b) * b) == ((a / b) * v) * b;
      }
      DividesCombination(g, a % b, b, a / b);
      assert a % b + (a / b) * b == a;
    }
  }

  /** Euclid: what divides j*b and is coprime to b divides j. */
  lemma CoprimeDivides(a: nat, b: nat, j: int)
    requires IsGcd(1, a, b) && Divides(a, j * b)
    ensures Divides(a, j)
  {
    var x, y := Bezout(a, b);
    var g := x * a + y * b;
    var q :| 1 == Mul(q, g);
    UnitFactor(q, g);
    var t :| j * b == Mul(t, a);
    assert j == Mul(j * x + y * t, a) by {
      assert j == j * (x * a + y * b) == j * (x * a) + j * (y * b);
      assert j * (y * b) == y * (j * b) == y * (t * a);
      assert j * (x * a) == (j * x) * a && y * (t * a) == (y * t) * a;
    }
  }

  lemma UnitFactor(q: int, g: nat)
    requires q * g == 1
    ensures g == 1
  {
    assert q > 0 by {
      assert q <= 0 ==> q * g <= 0;
    }
    assert (q - 1) * g >= 0;
  }
}
