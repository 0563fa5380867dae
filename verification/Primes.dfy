/** Powers modulo primes: Fermat's little theorem, and powers modulo the product of two primes. */
module Primes {
  import opened Arithmetic
  import opened ModularPowers

  predicate Divides(d: nat, n: int)
    requires d > 0
  {
    n % d == 0
  }

  ghost predicate Prime(p: nat) {
    p >= 2 && forall d :: 2 <= d < p ==> !Divides(d, p)
  }

  lemma DividesSum(d: nat, a: int, b: int)
    requires d > 0 && Divides(d, a)
    ensures Divides(d, a + b) <==> Divides(d, b)
  {
    DivMod(a, d);
    ModOfMultiple(a / d, d, b);
  }

  lemma DividesMultiple(d: nat, k: int, a: int)
    requires d > 0 && Divides(d, a)
    ensures Divides(d, k * a)
  {
    MulModLeft(a, k, d);
    assert a * k == k * a && (a % d) * k == 0;
    ModOfMultiple(0, d, 0);
  }

  lemma DividesItself(d: nat)
    requires d > 0
    ensures Divides(d, d)
  {
    ModOfMultiple(1, d, 0);
  }

  /** Euclid's lemma, by the steps of his algorithm on the prime and the factor. */
  lemma {:induction false} EuclidsLemma(p: nat, k: nat, c: int)
    requires Prime(p) && 0 < k < p && Divides(p, k * c)
    ensures Divides(p, c)
    decreases k
  {
    if k > 1 {
      var q, r := p / k, p % k;
      DivMod(p, k);
      assert !Divides(k, p);
      assert r * c == c * p + -q * (k * c) by {
        Distribute(q * k, r, c);
        MulAssociates(q, k, c);
      }
      DividesItself(p);
      DividesMultiple(p, c, p);
      DividesMultiple(p, -q, k * c);
      DividesSum(p, c * p, -q * (k * c));
      EuclidsLemma(p, r, c);
    } else {
      assert k * c == c;
    }
  }

  lemma PrimeFactor(p: nat, a: int, c: int)
    requires Prime(p) && Divides(p, a * c)
    ensures Divides(p, a) || Divides(p, c)
  {
    if !Divides(p, a) {
      DivMod(a, p);
      MulModLeft(a, c, p);
      EuclidsLemma(p, a % p, c);
    }
  }

  // ---------- binomial coefficients ----------

  function Choose(n: nat, k: nat): nat {
    if k == 0 then 1 else if n == 0 then 0 else Choose(n - 1, k - 1) + Choose(n - 1, k)
  }

  lemma {:induction false} ChooseNone(n: nat, k: nat)
    requires k > n
    ensures Choose(n, k) == 0
  {
    if n > 0 {
      ChooseNone(n - 1, k - 1);
      ChooseNone(n - 1, k);
    }
  }

  lemma {:induction false} ChooseAbsorbs(n: nat, k: nat)
    ensures (k + 1) * Choose(n + 1, k + 1) == (n + 1) * Choose(n, k)
  {
    var x, w := Choose(n, k), Choose(n, k + 1);
    assert Choose(n + 1, k + 1) == x + w;
    if n == 0 {
      assert w == 0;
    } else {
      var y, z := if k > 0 then Choose(n - 1, k - 1) else 0, Choose(n - 1, k);
      ChooseAbsorbs(n - 1, k);
      if k > 0 {
        ChooseAbsorbs(n - 1, k - 1);
      }
      assert x == y + z;
      hide Choose;
      Absorb(n, k, x, y, z, w);
    }
  }

  lemma Absorb(n: nat, k: nat, x: nat, y: nat, z: nat, w: nat)
    requires x == y + z && (k + 1) * w == n * z && k * x == n * y
    ensures (k + 1) * (x + w) == (n + 1) * x
  {
    Distribute(x, w, k + 1);
    Distribute(y, z, n);
  }

  /** The inner ones of a prime row are its multiples. */
  lemma ChooseOfPrime(p: nat, k: nat)
    requires Prime(p) && 0 < k < p
    ensures Divides(p, Choose(p, k))
  {
    ChooseAbsorbs(p - 1, k - 1);
    hide Choose;
    FactorOfMultiple(p, k, Choose(p, k), Choose(p - 1, k - 1));
  }

  lemma FactorOfMultiple(p: nat, k: nat, c: nat, m: nat)
    requires Prime(p) && 0 < k < p && k * c == p * m
    ensures Divides(p, c)
  {
    DividesItself(p);
    DividesMultiple(p, m, p);
    assert m * p == p * m;
    EuclidsLemma(p, k, c);
  }

  function Power(a: nat, e: nat): nat {
    if e == 0 then 1 else MulNonneg(a, Power(a, e - 1)); a * Power(a, e - 1)
  }

  lemma {:induction false} PowModIs(a: nat, e: nat, n: nat)
    requires n > 0
    ensures PowMod(a, e, n) == Power(a, e) % n
  {
    if e > 0 {
      PowModIs(a, e - 1, n);
      MulModLeft(Power(a, e - 1), a, n);
      assert Power(a, e - 1) * a == a * Power(a, e - 1);
      assert (Power(a, e - 1) % n) * a == a * (Power(a, e - 1) % n);
    }
  }

  /** The terms 0 to k of the expansion of (a + 1)^n. */
  function Expansion(n: nat, k: nat, a: nat): nat {
    MulNonneg(Choose(n, k), Power(a, k));
    (if k == 0 then 0 else Expansion(n, k - 1, a)) + Choose(n, k) * Power(a, k)
  }

  lemma {:induction false} ExpansionNext(n: nat, k: nat, a: nat)
    ensures Expansion(n + 1, k, a) == Expansion(n, k, a) + (if k == 0 then 0 else a * Expansion(n, k - 1, a))
  {
    if k > 0 {
      ExpansionNext(n, k - 1, a);
      ExpansionIs(n + 1, k, a);
      ExpansionIs(n, k, a);
      ExpansionIs(n, k - 1, a);
      var before := if k > 1 then Expansion(n, k - 2, a) else 0;
      var x, y, p := Choose(n, k - 1), Choose(n, k), Power(a, k - 1);
      assert Choose(n + 1, k) == x + y && Power(a, k) == a * p;
      hide Expansion, Choose, Power;
      Collect(a, before, x, y, p);
    }
  }

  lemma Collect(a: int, e: int, x: int, y: int, p: int)
    ensures a * e + (x + y) * (a * p) == y * (a * p) + a * (e + x * p)
  {
    Distribute(x, y, a * p);
    Distribute(e, x * p, a);
    MulAssociates(x, p, a);
    assert x * (a * p) == (x * p) * a by {
      assert a * p == p * a;
    }
  }

  lemma ExpansionIs(n: nat, k: nat, a: nat)
    ensures Expansion(n, k, a) == (if k == 0 then 0 else Expansion(n, k - 1, a)) + Choose(n, k) * Power(a, k)
  {
  }

  /** The binomial theorem. */
  lemma {:induction false} Binomial(n: nat, a: nat)
    ensures Expansion(n, n, a) == Power(a + 1, n)
  {
    if n > 0 {
      Binomial(n - 1, a);
      ExpansionNext(n - 1, n, a);
      ChooseNone(n - 1, n);
      Distribute(a, 1, Power(a + 1, n - 1));
    }
  }

  lemma {:induction false} InnerTerms(p: nat, k: nat, a: nat)
    requires Prime(p) && k < p
    ensures Divides(p, Expansion(p, k, a) - 1)
  {
    if k > 0 {
      InnerTerms(p, k - 1, a);
      ChooseOfPrime(p, k);
      DividesMultiple(p, Power(a, k), Choose(p, k));
      hide Prime, Divides, Choose, Power;
      DividesSum(p, Power(a, k) * Choose(p, k), Expansion(p, k - 1, a) - 1);
      assert Power(a, k) * Choose(p, k) == Choose(p, k) * Power(a, k);
    } else {
      ModOfMultiple(0, p, 0);
    }
  }

  // ---------- the theorems ----------

  /** Fermat's little theorem. */
  lemma {:induction false} Fermat(p: nat, a: nat)
    requires Prime(p)
    ensures Divides(p, Power(a, p) - a)
  {
    if a == 0 {
      ModOfMultiple(0, p, 0);
    } else {
      var b := a - 1;
      Fermat(p, b);
      Binomial(p, b);
      InnerTerms(p, p - 1, b);
      ChooseAll(p);
      hide Prime, Divides, Choose, Power;
      DividesSum(p, Expansion(p, p - 1, b) - 1, Power(b, p) - b);
    }
  }

  lemma {:induction false} ChooseAll(n: nat)
    ensures Choose(n, n) == 1
  {
    if n > 0 {
      ChooseAll(n - 1);
      ChooseNone(n - 1, n);
    }
  }

  lemma FermatUnit(p: nat, a: nat)
    requires Prime(p) && !Divides(p, a)
    ensures PowMod(a, p - 1, p) == 1 % p
  {
    Fermat(p, a);
    var x := Power(a, p - 1);
    assert Power(a, p) - a == a * (x - 1) by {
      Distribute(x, -1, a);
    }
    PrimeFactor(p, a, x - 1);
    DivMod(x - 1, p);
    ModDifference(x, 1, (x - 1) / p, p);
    PowModIs(a, p - 1, p);
  }

  lemma {:induction false} PowerOfMultiple(p: nat, a: nat, e: nat)
    requires p > 0 && Divides(p, a) && e > 0
    ensures PowMod(a, e, p) == 0
  {
    DividesMultiple(p, PowMod(a, e - 1, p), a);
    assert a * PowMod(a, e - 1, p) == PowMod(a, e - 1, p) * a;
  }

  /** Exponents that differ by a multiple of p - 1, unless one is 0 for a multiple of p. */
  lemma PowersModPrime(p: nat, a: nat, r: nat, t: nat)
    requires Prime(p) && (r > 0 || !Divides(p, a))
    ensures t * (p - 1) >= 0 && PowMod(a, t * (p - 1) + r, p) == PowMod(a, r, p)
  {
    MulNonneg(t, p - 1);
    if Divides(p, a) {
      PowerOfMultiple(p, a, r);
      PowerOfMultiple(p, a, t * (p - 1) + r);
    } else {
      FermatUnit(p, a);
      PowModMul(a, p - 1, t, p);
      assert (p - 1) * t == t * (p - 1);
      PowModOne(t, p);
      PowModAdd(a, t * (p - 1), r, p);
      MulModLeft(1, PowMod(a, r, p), p);
      DivModUnique(PowMod(a, r, p), p, 0, PowMod(a, r, p));
    }
  }

  lemma PrimesApart(p: nat, q: nat, m: int)
    requires Prime(p) && Prime(q) && p != q && Divides(p, m) && Divides(q, m)
    ensures p * q > 0 && Divides(p * q, m)
  {
    MulMonotone(1, p, q);
    DivMod(m, p);
    var t := m / p;
    assert m == p * t;
    assert !Divides(q, p) by {
      if q < p {
        assert !Divides(q, p);
      } else {
        DivModUnique(p, q, 0, p);
      }
    }
    PrimeFactor(q, p, t);
    DivMod(t, q);
    assert m == (t / q) * (p * q) by {
      MulAssociates(t / q, q, p);
      assert q * p == p * q && t * p == p * t;
    }
    DivModUnique(m, p * q, t / q, 0);
  }

  lemma SamePowers(n: nat, a: nat, e: nat, r: nat)
    requires n > 0
    ensures PowMod(a, e, n) == PowMod(a, r, n) <==> Divides(n, Power(a, e) - Power(a, r))
  {
    PowModIs(a, e, n);
    PowModIs(a, r, n);
    SameRemainder(n, Power(a, e), Power(a, r));
  }

  lemma SameRemainder(n: nat, x: int, y: int)
    requires n > 0
    ensures x % n == y % n <==> Divides(n, x - y)
  {
    if x % n == y % n {
      DivMod(x, n);
      DivMod(y, n);
      Distribute(x / n, -(y / n), n);
      Distribute(y / n, -(y / n), n);
      DivModUnique(x - y, n, x / n - y / n, 0);
    }
    if Divides(n, x - y) {
      DivMod(x - y, n);
      ModDifference(x, y, (x - y) / n, n);
    }
  }

  lemma DividesFactor(p: nat, q: nat, m: int)
    requires p > 0 && q > 0 && p * q > 0 && Divides(p * q, m)
    ensures Divides(p, m) && Divides(q, m)
  {
    DivMod(m, p * q);
    var t := m / (p * q);
    MulAssociates(t, p, q);
    MulAssociates(t, q, p);
    assert q * p == p * q && (t * p) * q == m && (t * q) * p == m;
    DivModUnique(m, q, t * p, 0);
    DivModUnique(m, p, t * q, 0);
  }

  /**
   Exponents modulo (p - 1)(q - 1): the power stays the same if and only if the exponent that is left is not 0 or
   neither prime divides the base.
   */
  lemma ReducedExponent(p: nat, q: nat, a: nat, e: nat, order: nat)
    requires Prime(p) && Prime(q) && p != q && order == (p - 1) * (q - 1) > 0 && e > 0
    ensures p * q > 0
    ensures PowMod(a, e % order, p * q) == PowMod(a, e, p * q)
       <==> e % order != 0 || (!Divides(p, a) && !Divides(q, a))
  {
    MulMonotone(1, p, q);
    var r, n := e % order, p * q;
    SamePowers(n, a, e, r);
    SamePowers(p, a, e, r);
    SamePowers(q, a, e, r);
    var d := Power(a, e) - Power(a, r);
    if Divides(n, d) && r == 0 {
      DividesFactor(p, q, d);
      NotZeroth(p, a, e);
      NotZeroth(q, a, e);
    }
    if r != 0 || (!Divides(p, a) && !Divides(q, a)) {
      MultiplesOfOrder(p, q, e, order);
      PowersModPrime(p, a, r, e / order * (q - 1));
      PowersModPrime(q, a, r, e / order * (p - 1));
      PrimesApart(p, q, d);
    }
  }

  /** Euler's theorem for a product of two primes, and its converse. */
  lemma EulersTheorem(p: nat, q: nat, a: nat)
    requires Prime(p) && Prime(q) && p != q
    ensures p * q > 0 && (p - 1) * (q - 1) > 0
    ensures PowMod(a, (p - 1) * (q - 1), p * q) == 1 % (p * q) <==> !Divides(p, a) && !Divides(q, a)
  {
    MulMonotone(1, p, q);
    MulMonotone(1, p - 1, q - 1);
    var order := (p - 1) * (q - 1);
    ReducedExponent(p, q, a, order, order);
    DivModUnique(order, order, 1, 0);
  }

  lemma NotZeroth(p: nat, a: nat, e: nat)
    requires Prime(p) && e > 0 && PowMod(a, e, p) == PowMod(a, 0, p)
    ensures !Divides(p, a)
  {
    if Divides(p, a) {
      PowerOfMultiple(p, a, e);
    }
  }

  lemma MultiplesOfOrder(p: nat, q: nat, e: nat, order: nat)
    requires p > 1 && q > 1 && order == (p - 1) * (q - 1) > 0
    ensures e / order * (q - 1) >= 0 && e / order * (p - 1) >= 0
    ensures e == e / order * (q - 1) * (p - 1) + e % order == e / order * (p - 1) * (q - 1) + e % order
  {
    DivMod(e, order);
    DivNonneg(e, order);
    MulNonneg(e / order, q - 1);
    MulNonneg(e / order, p - 1);
    MulAssociates(e / order, p - 1, q - 1);
    MulAssociates(e / order, q - 1, p - 1);
    assert (q - 1) * (p - 1) == (p - 1) * (q - 1);
  }
}
