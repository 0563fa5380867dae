/** Octets as numbers below 256. */
module Bytes {

  type byte = x: int | 0 <= x < 0x100
}

/** Results that may be missing. */
module Options {

  datatype Option<T> = None | Some(value: T)
}

/** Facts about products, quotients and remainders that the solver does not find on its own. */
module Arithmetic {

  function Min(a: int, b: int): (m: int)
    ensures m <= a && m <= b && (m == a || m == b)
  {
    if a < b then a else b
  }

  lemma MulNonneg(a: int, b: int)
    requires a >= 0 && b >= 0
    ensures a * b >= 0
  {
  }

  lemma MulMonotone(a: int, b: int, c: int)
    requires a <= b && c >= 0
    ensures a * c <= b * c
  {
    MulNonneg(b - a, c);
    Distribute(b, -a, c);
  }

  lemma Distribute(a: int, b: int, c: int)
    ensures (a + b) * c == a * c + b * c
  {
  }

  lemma MulAssociates(a: int, b: int, c: int)
    ensures (a * b) * c == a * (b * c)
  {
  }

  lemma SmallMultiple(k: int, d: int)
    requires -d < k * d < d
    ensures k == 0
  {
    if k >= 1 {
      MulNonneg(k - 1, d);
      Distribute(k - 1, 1, d);
    } else if k <= -1 {
      MulNonneg(-k - 1, d);
      Distribute(-k - 1, 1, d);
      Distribute(-k, k, d);
    }
  }

  lemma DivMod(n: int, d: int)
    requires d > 0
    ensures n == (n / d) * d + n % d && 0 <= n % d < d
  {
  }

  lemma DivNonneg(n: int, d: int)
    requires n >= 0 && d > 0
    ensures n / d >= 0
  {
    DivMod(n, d);
    if n / d < 0 {
      MulMonotone(n / d, -1, d);
    }
  }

  lemma DivModUnique(n: int, d: int, q: int, r: int)
    requires 0 <= r < d && n == q * d + r
    ensures n / d == q && n % d == r
  {
    DivMod(n, d);
    Distribute(q, -(n / d), d);
    Distribute(n / d, -(n / d), d);
    SmallMultiple(q - n / d, d);
  }

  lemma DivDiv(n: int, a: int, b: int)
    requires a > 0 && b > 0
    ensures a * b > 0 && n / (a * b) == (n / a) / b
  {
    var q, r := n / a, n % a;
    var q2, r2 := q / b, q % b;
    DivMod(n, a);
    DivMod(q, b);
    MulMonotone(1, a, b);
    Distribute(q2 * b, r2, a);
    MulAssociates(q2, b, a);
    MulNonneg(r2, a);
    MulMonotone(r2 + 1, b, a);
    Distribute(r2, 1, a);
    DivModUnique(n, a * b, q2, r2 * a + r);
  }

  lemma ModOfMultiple(k: int, d: int, r: int)
    requires d > 0
    ensures (k * d + r) % d == r % d
  {
    DivMod(r, d);
    Distribute(k, r / d, d);
    DivModUnique(k * d + r, d, k + r / d, r % d);
  }

  /** Congruence: both leave the same remainder. */
  lemma ModDifference(a: int, b: int, k: int, d: int)
    requires d > 0 && a == b + k * d
    ensures a % d == b % d
  {
    ModOfMultiple(k, d, b);
  }

  lemma MulModLeft(a: int, b: int, n: int)
    requires n > 0
    ensures ((a % n) * b) % n == (a * b) % n
  {
    DivMod(a, n);
    Distribute((a / n) * n, a % n, b);
    MulAssociates(a / n, n, b);
    MulAssociates(a / n, b, n);
    assert n * b == b * n;
    ModDifference(a * b, (a % n) * b, (a / n) * b, n);
  }

  lemma MulModBoth(a: int, b: int, n: int)
    requires n > 0
    ensures ((a % n) * (b % n)) % n == (a * b) % n
  {
    MulModLeft(a, b % n, n);
    MulModLeft(b, a, n);
    assert a * (b % n) == (b % n) * a && a * b == b * a;
  }
}

/** Powers of two and the binary digits of natural numbers, as class Integer exposes them. */
module Bits {
  import opened Arithmetic

  function Pow2(n: nat): (p: nat)
    ensures p >= 1
  {
    if n == 0 then 1 else 2 * Pow2(n - 1)
  }

  lemma {:induction false} Pow2Add(a: nat, b: nat)
    ensures Pow2(a + b) == Pow2(a) * Pow2(b)
  {
    if a > 0 {
      Pow2Add(a - 1, b);
      MulAssociates(2, Pow2(a - 1), Pow2(b));
    }
  }

  lemma {:induction false} Pow2Monotone(a: nat, b: nat)
    requires a <= b
    ensures Pow2(a) <= Pow2(b)
  {
    if a < b {
      Pow2Monotone(a, b - 1);
    }
  }

  /** Integer::BitCount: the number of binary digits, none for zero. */
  function BitCount(n: nat): (c: nat)
    ensures n < Pow2(c)
    ensures n > 0 ==> c > 0 && Pow2(c - 1) <= n
  {
    if n == 0 then 0 else 1 + BitCount(n / 2)
  }

  /** n >> i */
  function ShiftRight(n: nat, i: nat): nat {
    DivNonneg(n, Pow2(i));
    n / Pow2(i)
  }

  /** Integer::GetBit */
  function GetBit(n: nat, i: nat): (b: nat)
    ensures b < 2
  {
    ShiftRight(n, i) % 2
  }

  /** Reading one more digit from the top. */
  lemma NextBit(n: nat, i: nat)
    ensures ShiftRight(n, i) == 2 * ShiftRight(n, i + 1) + GetBit(n, i)
  {
    DivDiv(n, Pow2(i), 2);
  }

  lemma ShiftRightBound(n: nat, len: nat, i: nat)
    requires BitCount(n) <= len && i <= len
    ensures ShiftRight(n, i) < Pow2(len - i)
  {
    Pow2Monotone(BitCount(n), len);
    Pow2Add(len - i, i);
    DivMod(n, Pow2(i));
    if ShiftRight(n, i) >= Pow2(len - i) {
      MulMonotone(Pow2(len - i), ShiftRight(n, i), Pow2(i));
    }
  }

  lemma ShiftedOut(n: nat, i: nat)
    ensures ShiftRight(n, i) == 0 <==> n < Pow2(i)
  {
    if n < Pow2(i) {
      DivModUnique(n, Pow2(i), 0, n);
    } else {
      DivMod(n, Pow2(i));
    }
  }
}
