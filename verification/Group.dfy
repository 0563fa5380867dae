/**
 Abelian groups as first-class values, and integer multiples of their elements.

 An `AbstractGroup` of the C++ library is a record of operations here. The laws are wrapped in
 predicates, so that each one is used only where a proof names the elements it is about.
 */
module AbelianGroup {

  datatype Group<!T(!new)> = Group(id: T, add: (T, T) -> T, neg: T -> T, inversionIsFast: bool) {

    ghost predicate Associates(a: T, b: T, c: T) {
      add(add(a, b), c) == add(a, add(b, c))
    }

    ghost predicate Commutes(a: T, b: T) {
      add(a, b) == add(b, a)
    }

    ghost predicate HasUnit(a: T) {
      add(a, id) == a
    }

    ghost predicate HasInverse(a: T) {
      add(a, neg(a)) == id
    }

    ghost predicate Laws() {
      && (forall a, b, c :: Associates(a, b, c))
      && (forall a, b :: Commutes(a, b))
      && (forall a :: HasUnit(a))
      && (forall a :: HasInverse(a))
    }

    function Double(a: T): T {
      add(a, a)
    }

    /** The multiple n·x, for every integer n. */
    ghost function Mul(n: int, x: T): T
      decreases if n < 0 then -n else n
    {
      if n == 0 then id
      else if n > 0 then add(Mul(n - 1, x), x)
      else add(Mul(n + 1, x), neg(x))
    }

    lemma UnitLeft(a: T)
      requires Laws()
      ensures add(id, a) == a
    {
      assert Commutes(id, a) && HasUnit(a);
    }

    lemma MulSucc(n: int, x: T)
      requires Laws()
      ensures Mul(n + 1, x) == add(Mul(n, x), x)
    {
      if n < 0 {
        var m := Mul(n + 1, x);
        assert Associates(m, neg(x), x) && Commutes(neg(x), x) && HasInverse(x) && HasUnit(m);
      }
    }

    lemma MulPred(n: int, x: T)
      requires Laws()
      ensures Mul(n - 1, x) == add(Mul(n, x), neg(x))
    {
      if n > 0 {
        var m := Mul(n - 1, x);
        assert Associates(m, x, neg(x)) && HasInverse(x) && HasUnit(m);
      }
    }

    /** Multiples of one element add like integers. */
    lemma {:induction false} MulAdd(a: int, b: int, x: T)
      requires Laws()
      ensures Mul(a + b, x) == add(Mul(a, x), Mul(b, x))
      decreases if b < 0 then -b else b
    {
      if b == 0 {
        assert HasUnit(Mul(a, x));
      } else if b > 0 {
        MulAdd(a, b - 1, x);
        MulSucc(a + (b - 1), x);
        assert Associates(Mul(a, x), Mul(b - 1, x), x);
      } else {
        MulAdd(a, b + 1, x);
        MulPred(a + (b + 1), x);
        assert Associates(Mul(a, x), Mul(b + 1, x), neg(x));
      }
    }

    lemma MulOne(x: T)
      requires Laws()
      ensures Mul(1, x) == x
    {
      assert Mul(1, x) == add(Mul(0, x), x);
      UnitLeft(x);
    }

    lemma CancelLeft(a: T, b: T, c: T)
      requires Laws() && add(a, b) == add(a, c)
      ensures b == c
    {
      assert Associates(neg(a), a, b) && Associates(neg(a), a, c) && Commutes(neg(a), a) && HasInverse(a);
      UnitLeft(b);
      UnitLeft(c);
    }

    lemma MulNeg(n: int, x: T)
      requires Laws()
      ensures Mul(-n, x) == neg(Mul(n, x))
    {
      MulAdd(n, -n, x);
      assert HasInverse(Mul(n, x));
      CancelLeft(Mul(n, x), Mul(-n, x), neg(Mul(n, x)));
    }

    lemma {:induction false} MulMul(a: int, b: int, x: T)
      requires Laws()
      ensures Mul(a * b, x) == Mul(a, Mul(b, x))
      decreases if a < 0 then -a else a
    {
      if a == 0 {
        assert a * b == 0;
      } else if a > 0 {
        MulMul(a - 1, b, x);
        MulAdd((a - 1) * b, b, x);
        assert (a - 1) * b + b == a * b;
      } else {
        MulMul(a + 1, b, x);
        MulAdd((a + 1) * b, -b, x);
        MulNeg(b, x);
        assert (a + 1) * b + -b == a * b;
      }
    }

    /** (a + b) + (c + d) == (a + c) + (b + d) */
    lemma Interchange(a: T, b: T, c: T, d: T)
      requires Laws()
      ensures add(add(a, b), add(c, d)) == add(add(a, c), add(b, d))
    {
      assert Associates(a, b, add(c, d)) && Associates(b, c, d) && Commutes(b, c);
      assert Associates(c, b, d) && Associates(a, c, add(b, d));
    }

    lemma {:induction false} MulDistributes(n: nat, x: T, y: T)
      requires Laws()
      ensures Mul(n, add(x, y)) == add(Mul(n, x), Mul(n, y))
    {
      if n == 0 {
        assert HasUnit(id);
      } else {
        MulDistributes(n - 1, x, y);
        Interchange(Mul(n - 1, x), Mul(n - 1, y), x, y);
      }
    }

    /** The combination a·x + b·y. */
    ghost function Pair(a: int, x: T, b: int, y: T): T {
      add(Mul(a, x), Mul(b, y))
    }

    lemma PairAdd(a: int, b: int, c: int, d: int, x: T, y: T)
      requires Laws()
      ensures add(Pair(a, x, b, y), Pair(c, x, d, y)) == Pair(a + c, x, b + d, y)
    {
      Interchange(Mul(a, x), Mul(b, y), Mul(c, x), Mul(d, y));
      MulAdd(a, c, x);
      MulAdd(b, d, y);
    }

    lemma PairUnits(x: T, y: T)
      requires Laws()
      ensures Pair(1, x, 0, y) == x && Pair(0, x, 1, y) == y && Pair(0, x, 0, y) == id
    {
      MulOne(x);
      MulOne(y);
      assert HasUnit(x) && HasUnit(id);
      UnitLeft(y);
    }
  }

  /** The integers are such a group, and their multiples are products. */
  const INTEGERS: Group<int> := Group(0, (a, b) => a + b, a => -a, true)

  lemma {:induction false} IntegersAreAGroup(n: int, x: int)
    ensures INTEGERS.Laws() && INTEGERS.Mul(n, x) == n * x
    decreases if n < 0 then -n else n
  {
    if n > 0 {
      IntegersAreAGroup(n - 1, x);
    } else if n < 0 {
      IntegersAreAGroup(n + 1, x);
    }
  }
}
