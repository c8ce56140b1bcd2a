/** Divisors and multiples. */
module Arithmetic {

  function Times(k: int, d: int): int
  {
    k * d
  }

  ghost predicate Divides(d: int, n: int)
  {
    exists k: int :: n == Times(k, d)
  }

  lemma DividesTimes(d: int, k: int)
    ensures Divides(d, k * d) && Divides(d, d) && Divides(d, 0)
  {
    assert k * d == Times(k, d) && d == Times(1, d) && 0 == Times(0, d);
  }

  lemma DividesCombination(d: int, x: int, y: int, s: int, t: int)
    requires Divides(d, x) && Divides(d, y)
    ensures Divides(d, s * x + t * y)
  {
    var i, j :| x == Times(i, d) && y == Times(j, d);
    Combined(d, i, j, s, t);
    assert s * x + t * y == Times(s * i + t * j, d);
  }

  lemma Combined(d: int, i: int, j: int, s: int, t: int)
    ensures s * (i * d) + t * (j * d) == (s * i + t * j) * d
  {
  }

  lemma DividesTransitive(a: int, b: int, c: int)
    requires Divides(a, b) && Divides(b, c)
    ensures Divides(a, c)
  {
    var i, j :| b == Times(i, a) && c == Times(j, b);
    assert j * (i * a) == (j * i) * a;
    assert c == Times(j * i, a);
  }

  /** The greatest common divisor: a common divisor that all the others divide. */
  ghost predicate IsGcd(g: nat, a: nat, b: nat)
  {
    Divides(g, a) && Divides(g, b) && forall d :: Divides(d, a) && Divides(d, b) ==> Divides(d, g)
  }

  /** The least common multiple: a common multiple that divides all the others. */
  ghost predicate IsLcm(m: nat, a: nat, b: nat)
  {
    Divides(a, m) && Divides(b, m) && forall n :: Divides(a, n) && Divides(b, n) ==> Divides(m, n)
  }

  /** x is a sum of multiples of a and b. */
  ghost predicate Combination(x: int, a: int, b: int)
  {
    exists s: int, t: int :: x == Times(s, a) + Times(t, b)
  }

  lemma CombinationNext(x: int, y: int, q: int, a: int, b: int)
    requires Combination(x, a, b) && Combination(y, a, b)
    ensures Combination(x - q * y, a, b)
  {
    var s1, t1 :| x == Times(s1, a) + Times(t1, b);
    var s2, t2 :| y == Times(s2, a) + Times(t2, b);
    Subtracted(s1, t1, s2, t2, q, a, b);
    assert x - q * y == Times(s1 - q * s2, a) + Times(t1 - q * t2, b);
  }

  lemma Subtracted(s1: int, t1: int, s2: int, t2: int, q: int, a: int, b: int)
    ensures Times(s1, a) + Times(t1, b) - q * (Times(s2, a) + Times(t2, b)) == Times(s1 - q * s2, a) + Times(t1 - q * t2, b)
  {
    assert q * (s2 * a + t2 * b) == q * s2 * a + q * t2 * b;
  }

  lemma CombinationDivided(x: int, a: int, b: int, d: int)
    requires Combination(x, a, b) && Divides(d, a) && Divides(d, b)
    ensures Divides(d, x)
  {
    var s, t :| x == Times(s, a) + Times(t, b);
    DividesCombination(d, a, b, s, t);
  }

  /** What divides y and the remainder of x by y divides x, and the remainder is a combination if x and y are. */
  lemma RemainderStep(x: nat, y: nat, a: int, b: int)
    requires y > 0 && Combination(x, a, b) && Combination(y, a, b)
    ensures Combination(x % y, a, b)
    ensures forall d :: Divides(d, y) && Divides(d, x % y) ==> Divides(d, x)
  {
    var q := x / y;
    assert x == q * y + 1 * (x % y);
    CombinationNext(x, y, q, a, b);
    forall d | Divides(d, y) && Divides(d, x % y) ensures Divides(d, x) {
      DividesCombination(d, y, x % y, q, 1);
    }
  }

  /** Euclid's algorithm. */
  method Gcd(a: nat, b: nat) returns (g: nat)
    ensures IsGcd(g, a, b) && Combination(g, a, b)
    ensures a > 0 || b > 0 ==> g > 0
  {
    var x, y := a, b;
    assert a == Times(1, a) + Times(0, b) && b == Times(0, a) + Times(1, b);
    while y != 0
      invariant Combination(x, a, b) && Combination(y, a, b)
      invariant a > 0 || b > 0 ==> x > 0 || y > 0
      invariant forall d :: Divides(d, x) && Divides(d, y) ==> Divides(d, a) && Divides(d, b)
      decreases y
    {
      RemainderStep(x, y, a, b);
      var r := x % y;
      x, y := y, r;
    }
    g := x;
    DividesTimes(g, 0);
    forall d | Divides(d, a) && Divides(d, b) ensures Divides(d, g) {
      CombinationDivided(g, a, b, d);
    }
  }

  lemma LcmDivides(a: nat, b: nat, g: nat, m: nat, n: int)
    requires g > 0 && Combination(g, a, b) && m * g == a * b && Divides(a, n) && Divides(b, n)
    ensures Divides(m, n)
  {
    var s, t :| g == Times(s, a) + Times(t, b);
    var x, y :| n == Times(x, a) && n == Times(y, b);
    Bezout(a, b, g, s, t, m, n, x, y);
    assert n == Times(s * y + t * x, m);
  }

  lemma Bezout(a: nat, b: nat, g: nat, s: int, t: int, m: nat, n: int, x: int, y: int)
    requires g > 0 && g == s * a + t * b && m * g == a * b && n == x * a && n == y * b
    ensures n == (s * y + t * x) * m
  {
  }

  method Lcm(a: nat, b: nat) returns (m: nat)
    requires a > 0 && b > 0
    ensures IsLcm(m, a, b) && m > 0
  {
    var g := Gcd(a, b);
    LcmOf(a, b, g);
    m := a * (b / g);
    forall n | Divides(a, n) && Divides(b, n) ensures Divides(m, n) {
      LcmDivides(a, b, g, m, n);
    }
  }

  lemma LcmOf(a: nat, b: nat, g: nat)
    requires a > 0 && b > 0 && g > 0 && Divides(g, a) && Divides(g, b)
    ensures var m := a * (b / g); m > 0 && m * g == a * b && Divides(a, m) && Divides(b, m)
  {
    var i, j :| a == Times(i, g) && b == Times(j, g);
    QuotientOf(b, j, g);
    var m := a * j;
    assert m == Times(j, a);
    assert m == Times(i, b) by {
      assert (i * g) * j == i * (j * g);
    }
    assert m * g == a * b by {
      assert (a * j) * g == a * (j * g);
    }
    assert m > 0;
  }

  lemma QuotientOf(b: nat, j: int, g: nat)
    requires g > 0 && b == j * g
    ensures b / g == j && (b > 0 ==> j > 0)
  {
    var q := b / g;
    assert b == q * g + b % g;
    assert (j - q) * g == b % g;
    SmallMultiple(g, j - q);
  }

  lemma DividesRemainder(d: nat, n: nat)
    requires d > 0
    ensures Divides(d, n) <==> n % d == 0
  {
    if k :| n == Times(k, d) {
      QuotientOf(n, k, d);
      assert n == (n / d) * d + n % d;
    }
    if n % d == 0 {
      assert n == Times(n / d, d);
    }
  }

  lemma SmallMultiple(g: nat, k: int)
    requires 0 <= k * g < g
    ensures k == 0
  {
  }

  lemma Monotone(x: int, y: int, g: nat)
    requires x <= y
    ensures x * g <= y * g
  {
  }
}
