/** Reducing a ratio to its lowest terms, as printing it does in place. */
module Ratios {
  import opened Common

  function Gcd(a: nat, b: nat): nat
    decreases b
  {
    if b == 0 then a else Gcd(b, a % b)
  }

  function Quotient(n: nat, d: nat): (q: nat)
    requires d > 0
    ensures n == q * d + n % d
  {
    NotNegative(n, d);
    n / d
  }

  lemma NotNegative(n: nat, d: nat)
    requires d > 0
    ensures n / d >= 0 && n == n / d * d + n % d
  {
    var p := n / d;
    assert n == p * d + n % d;
  }

  /** Numerator and denominator after printing. */
  function Reduced(num: nat, den: nat): (nat, nat) {
    var div := Gcd(num, den);
    if div > 1 then (Quotient(num, div), Quotient(den, div)) else (num, den)
  }

  ghost predicate Divides(d: nat, n: nat) {
    exists q: nat :: n == d * q
  }

  lemma {:induction false} GcdDivides(a: nat, b: nat)
    ensures Divides(Gcd(a, b), a) && Divides(Gcd(a, b), b)
    decreases b
  {
    if b == 0 {
      assert a == a * 1 && b == a * 0;
    } else {
      GcdDivides(b, a % b);
      var g := Gcd(b, a % b);
      var q: nat, r: nat :| b == g * q && a % b == g * r;
      var n := Quotient(a, b);
      Regroup(g, n, q, r);
    }
  }

  lemma Regroup(g: nat, n: nat, q: nat, r: nat)
    ensures n * (g * q) + g * r == g * (n * q + r)
  {
  }

  lemma {:induction false} GcdScales(k: nat, a: nat, b: nat)
    requires k > 0
    ensures Gcd(k * a, k * b) == k * Gcd(a, b)
    decreases b
  {
    if b > 0 {
      RemainderScales(k, a, b);
      assert k * b > 0;
      GcdScales(k, b, a % b);
    } else {
      assert k * b == 0;
    }
  }

  lemma RemainderScales(k: nat, a: nat, b: nat)
    requires k > 0 && b > 0
    ensures k * b > 0 && k * a % (k * b) == k * (a % b)
  {
    var q, r := Quotient(a, b), a % b;
    MulMonotone(r + 1, b, k);
    assert k * a == q * (k * b) + k * r by {
      Spread(k, b, q, r);
    }
    DivIs(k * a, k * b, q, k * r);
  }

  lemma Spread(k: nat, b: nat, q: nat, r: nat)
    ensures k * (q * b + r) == q * (k * b) + k * r
  {
  }

  /** The reduced ratio is the same ratio, in lowest terms; reducing it again changes nothing. */
  lemma ReducedIsLowest(num: nat, den: nat)
    ensures var r := Reduced(num, den); r.0 * den == num * r.1 && Gcd(r.0, r.1) <= 1 && Reduced(r.0, r.1) == r
  {
    var g := Gcd(num, den);
    if g > 1 {
      GcdDivides(num, den);
      hide Gcd;
      var a: nat, b: nat :| num == g * a && den == g * b;
      DivIs(num, g, a, 0);
      DivIs(den, g, b, 0);
      GcdScales(g, a, b);
      OneLeft(g, Gcd(a, b));
      Crossed(g, a, b);
    }
  }

  lemma OneLeft(g: nat, h: nat)
    requires g > 0 && g == g * h
    ensures h == 1
  {
    if h > 1 {
      MulMonotone(2, h, g);
    }
  }

  lemma Crossed(g: nat, a: nat, b: nat)
    ensures a * (g * b) == g * a * b
  {
  }
}
