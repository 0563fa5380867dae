/** Euclid's algorithm over the integers, and inverses in a quotient ring of the integers. */
module Inverse {
  import opened Arithmetic

  ghost predicate Divides(d: int, n: int)
    requires d != 0
  {
    n % d == 0
  }

  function Abs(n: int): (a: nat)
    ensures a == n || a == -n
  {
    if n < 0 then -n else n
  }

  /** d is the greatest common divisor of a and b: it divides both, and every common divisor divides it. */
  ghost predicate IsGcd(d: nat, a: int, b: int) {
    if d == 0 then a == 0 && b == 0
    else Divides(d, a) && Divides(d, b) && forall c: nat :: c > 0 && Divides(c, a) && Divides(c, b) ==> Divides(c, d)
  }

  lemma DividesCombination(c: nat, a: int, b: int, k: int)
    requires c > 0 && Divides(c, a) && Divides(c, b)
    ensures Divides(c, a + k * b)
  {
    DivMod(a, c);
    DivMod(b, c);
    MulAssociates(k, b / c, c);
    Distribute(a / c, k * (b / c), c);
    DivModUnique(a + k * b, c, a / c + k * (b / c), 0);
  }

  /** Integer::Divide leaves a remainder that is not negative, whatever the signs. */
  lemma DivModSigned(n: int, d: int)
    requires d != 0
    ensures n == (n / d) * d + n % d && 0 <= n % d < Abs(d)
  {
  }

  /** A division step keeps the common divisors. */
  lemma GcdStep(d: nat, a: int, b: int)
    requires b != 0 && IsGcd(d, b, a % b)
    ensures IsGcd(d, a, b)
  {
    DivModSigned(a, b);
    assert a % b + (a / b) * b == a && a + -(a / b) * b == a % b;
    assert d > 0 by {
      if d == 0 {
        assert false;
      }
    }
    DividesCombination(d, a % b, b, a / b);
    forall c: nat | c > 0 && Divides(c, a) && Divides(c, b)
      ensures Divides(c, d)
    {
      DividesCombination(c, a, b, -(a / b));
    }
  }

  lemma GcdBase(a: int)
    ensures IsGcd(Abs(a), a, 0)
  {
    if a != 0 {
      var d := Abs(a);
      DivModUnique(a, d, if a > 0 then 1 else -1, 0);
      DivModUnique(0, d, 0, 0);
      forall c: nat | c > 0 && Divides(c, a)
        ensures Divides(c, d)
      {
        if a < 0 {
          DivMod(a, c);
          DivModUnique(-a, c, -(a / c), 0);
        }
      }
    }
  }

  lemma GcdUnique(d: nat, e: nat, a: int, b: int)
    requires IsGcd(d, a, b) && IsGcd(e, a, b)
    ensures d == e
  {
    if d > 0 && e > 0 {
      DividesAtMost(d, e);
      DividesAtMost(e, d);
    } else if d > 0 {
      OnlyZero(d);
    } else if e > 0 {
      OnlyZero(e);
    }
  }

  /** No positive number is a multiple of all others, so only 0 and 0 have the divisor 0. */
  lemma OnlyZero(d: nat)
    requires d > 0
    ensures !IsGcd(d, 0, 0)
  {
    if IsGcd(d, 0, 0) {
      DivModUnique(0, d + 1, 0, 0);
      assert Divides(d + 1, 0);
      DividesAtMost(d + 1, d);
    }
  }

  lemma DividesAtMost(c: nat, n: nat)
    requires c > 0 && n > 0 && Divides(c, n)
    ensures c <= n
  {
    DivMod(n, c);
    DivNonneg(n, c);
    if n / c >= 1 {
      MulMonotone(1, n / c, c);
    }
  }

  /** The greatest common divisor, by the recursion that both loops below follow. */
  ghost function GcdOf(a: int, b: int): (d: nat)
    ensures IsGcd(d, a, b)
    decreases Abs(b)
  {
    if b == 0 then
      GcdBase(a);
      Abs(a)
    else
      DivModSigned(a, b);
      var d := GcdOf(b, a % b);
      GcdStep(d, a, b);
      d
  }

  /** The greatest common divisor, or its negative. */
  method Gcd(a: int, b: int) returns (d: int)
    ensures IsGcd(Abs(d), a, b)
    ensures a >= 0 && b >= 0 ==> d >= 0
  {
    var g0, g1 := b, a;
    while g1 != 0
      invariant GcdOf(g0, g1) == GcdOf(b, a)
      invariant a >= 0 && b >= 0 ==> g0 >= 0 && g1 >= 0
      decreases Abs(g1)
    {
      DivModSigned(g0, g1);
      g0, g1 := g1, g0 % g1;
    }
    d := g0;
    assert IsGcd(Abs(d), b, a);
  }

  /** The quotient ring's Equal(x, 0): equality modulo m, not of the integers. */
  predicate IsZero(x: int, m: nat)
    requires m > 0
  {
    x % m == 0
  }

  /** An inverse of a modulo m where there is one, and zero where there is none. */
  ghost predicate IsInverse(r: int, a: int, m: nat)
    requires m > 0
  {
    if GcdOf(m, a) == 1 then (a * r) % m == 1 % m else r == 0
  }

  /**
   What the extended Euclidean loop keeps: both remainders are combinations of a and m with the
   cofactors v, their greatest common divisor is that of m and a, and a too large an a is met only
   in the first two rounds.
   */
  ghost predicate Kept(a: int, m: nat, g0: int, g1: int, v0: int, v1: int, k0: int, k1: int) {
    && g0 == a * v0 + m * k0 && g1 == a * v1 + m * k1
    && GcdOf(g0, g1) == GcdOf(m, a)
    && (Abs(a) < m ==> Abs(g1) < m)
    && (Abs(a) >= m ==> (g0 == m && g1 == a && v0 == 0) || (g0 == a && g1 == m))
  }

  lemma KeepStep(a: int, m: nat, g0: int, g1: int, v0: int, v1: int, k0: int, k1: int)
    requires m > 0 && g1 != 0 && Kept(a, m, g0, g1, v0, v1, k0, k1) && !IsZero(g1, m)
    ensures 0 <= g0 % g1 < Abs(g1)
    ensures Kept(a, m, g1, g0 % g1, v1, v0 - v1 * (g0 / g1), k1, k0 - k1 * (g0 / g1))
  {
    SmallRemainder(m);
    DivModSigned(g0, g1);
    Combine(a, m, v0, v1, k0, k1, g0 / g1, g0, g1, g0 % g1);
    if Abs(a) >= m {
      MultipleIsZero(a, m);
      SignedUnique(m, a, 0, m);
    }
  }

  lemma SignedUnique(n: int, d: int, q: int, r: int)
    requires 0 <= r < Abs(d) && n == q * d + r
    ensures n / d == q && n % d == r
  {
    if d > 0 {
      DivModUnique(n, d, q, r);
    } else {
      DivModSigned(n, d);
      Distribute(q, -(n / d), d);
      Distribute(n / d, -(n / d), d);
      SmallMultiple(-(q - n / d), -d);
    }
  }

  lemma MultipleIsZero(a: int, m: nat)
    requires m > 0
    ensures Abs(a) == m ==> IsZero(a, m)
  {
    if Abs(a) == m {
      DivModUnique(a, m, if a > 0 then 1 else -1, 0);
    }
  }

  /** Dividing by a unit, as IsUnit and Divide of the domain do. */
  function OverUnit(v: int, g: int): int {
    if g == 1 then v else if g == -1 then -v else 0
  }

  lemma KeptResult(a: int, m: nat, g0: int, g1: int, v0: int, v1: int, k0: int, k1: int)
    requires m > 0 && Kept(a, m, g0, g1, v0, v1, k0, k1) && IsZero(g1, m)
    ensures IsInverse(OverUnit(v0, g0), a, m) <==> Abs(a) < m || m == 1 || GcdOf(m, a) != 1
    ensures Abs(a) >= m > 1 ==> OverUnit(v0, g0) == 0
  {
    hide Divides, IsGcd;
    if Abs(a) < m {
      ZeroOnly(g1, m);
      if g0 == 1 || g0 == -1 {
        UnitGives(a, m, g0, v0, k0);
      }
    } else if m == 1 {
      OneModulus(a * OverUnit(v0, g0));
    } else {
      TooLarge(a, m, g0, g1);
      SmallRemainder(m);
    }
  }

  lemma UnitGives(a: int, m: nat, g0: int, v0: int, k0: int)
    requires m > 0 && g0 == a * v0 + m * k0 && (g0 == 1 || g0 == -1)
    ensures (a * OverUnit(v0, g0)) % m == 1 % m
  {
    if g0 == 1 {
      ModDifference(1, a * v0, k0, m);
    } else {
      assert a * -v0 == -(a * v0) && 1 == a * -v0 + -k0 * m;
      ModDifference(1, a * -v0, -k0, m);
    }
  }

  lemma OneModulus(x: int)
    ensures x % 1 == 1 % 1
  {
  }

  lemma ZeroOnly(x: int, m: nat)
    requires Abs(x) < m && IsZero(x, m)
    ensures x == 0
  {
    if x > 0 {
      DivModUnique(x, m, 0, x);
    } else if x < 0 {
      DivModUnique(x, m, -1, x + m);
    }
  }

  /**
   The loop test is equality modulo m, so a remainder of exactly m stops the loop early: that
   happens when a exceeds m, and is harmless only where no inverse is looked for.
   */
  method MultiplicativeInverse(a: int, m: nat) returns (r: int)
    requires m > 0
    ensures IsInverse(r, a, m) <==> Abs(a) < m || m == 1 || GcdOf(m, a) != 1
    ensures Abs(a) >= m > 1 ==> r == 0
  {
    var g0: int, g1: int := m, a;
    var v0, v1 := 0, 1;
    ghost var k0, k1 := 1, 0;
    while !IsZero(g1, m)
      invariant Kept(a, m, g0, g1, v0, v1, k0, k1)
      decreases Abs(g1)
    {
      SmallRemainder(m);
      KeepStep(a, m, g0, g1, v0, v1, k0, k1);
      var y := g0 / g1;
      k0, k1 := k1, k0 - k1 * y;
      v0, v1 := v1, v0 - v1 * y;
      g0, g1 := g1, g0 % g1;
    }
    KeptResult(a, m, g0, g1, v0, v1, k0, k1);
    r := if g0 == 1 || g0 == -1 then v0 / g0 else 0;
  }

  /** A failing input: 5 times 2 is 1 modulo 3, but for 5 modulo 3 the answer is zero. */
  method FiveModuloThree() returns (r: int)
    ensures r == 0 && !IsInverse(r, 5, 3) && GcdOf(3, 5) == 1 && (5 * 2) % 3 == 1
  {
    r := MultiplicativeInverse(5, 3);
    assert GcdOf(3, 5) == GcdOf(5, 3) == GcdOf(3, 2) == GcdOf(2, 1) == GcdOf(1, 0) == 1;
  }

  /** For a from m up the loop ends with m or a, of which neither leads to an inverse unless m is 1. */
  lemma TooLarge(a: int, m: nat, g0: int, g1: int)
    requires 0 < m <= Abs(a) && IsZero(g1, m)
    requires (g0 == m && g1 == a) || (g0 == a && g1 == m)
    ensures (g0 == 1 || g0 == -1) ==> m == 1
    ensures g1 == a ==> GcdOf(m, a) == m
  {
    SmallRemainder(m);
    if g1 == a {
      assert Divides(m, a);
      GcdUnique(GcdOf(m, a), m, m, a);
    }
  }

  lemma SmallRemainder(m: nat)
    requires m > 0
    ensures forall x: nat :: x < m ==> x % m == x
    ensures m % m == 0
  {
    forall x: nat | x < m
      ensures x % m == x
    {
      DivModUnique(x, m, 0, x);
    }
    DivModUnique(m, m, 1, 0);
  }

  /** One step of the loop keeps each remainder a combination of a and m. */
  lemma Combine(a: int, m: int, v0: int, v1: int, k0: int, k1: int, y: int, g0: int, g1: int, t: int)
    requires g0 == a * v0 + m * k0 && g1 == a * v1 + m * k1 && g0 == y * g1 + t
    ensures t == a * (v0 - v1 * y) + m * (k0 - k1 * y)
  {
    Distribute(a * v1, m * k1, y);
    MulAssociates(a, v1, y);
    MulAssociates(m, k1, y);
    Distribute(v0, -(v1 * y), a);
    Distribute(k0, -(k1 * y), m);
  }
}
