/** Powers modulo n, as ModularArithmetic::Exponentiate and a_exp_b_mod_c define them. */
module ModularPowers {
  import opened Arithmetic

  function PowMod(x: int, e: nat, n: nat): (r: nat)
    requires n > 0
    ensures r < n
  {
    if e == 0 then 1 % n else (x * PowMod(x, e - 1, n)) % n
  }

  lemma {:induction false} PowModAdd(x: int, a: nat, b: nat, n: nat)
    requires n > 0
    ensures PowMod(x, a + b, n) == (PowMod(x, a, n) * PowMod(x, b, n)) % n
  {
    var pb := PowMod(x, b, n);
    if a == 0 {
      MulModLeft(1, pb, n);
      DivModUnique(pb, n, 0, pb);
    } else {
      var pa := PowMod(x, a - 1, n);
      PowModAdd(x, a - 1, b, n);
      MulModLeft(pa * pb, x, n);
      MulModLeft(x * pa, pb, n);
      MulAssociates(x, pa, pb);
      assert (pa * pb) * x == x * (pa * pb) && ((pa * pb) % n) * x == x * ((pa * pb) % n);
    }
  }

  /** The first powers; PowModAdd gives the rest. */
  lemma PowModStarts(x: int, n: nat)
    requires n > 0
    ensures PowMod(x, 0, n) == 1 % n && PowMod(x, 1, n) == x % n
  {
    var one := PowMod(x, 0, n);
    assert PowMod(x, 1, n) == (x * one) % n;
    if n > 1 {
      DivModUnique(1, n, 0, 1);
    }
    hide PowMod;
    assert n > 1 ==> x * one == x;
  }

  lemma {:induction false} PowModMul(x: int, a: nat, b: nat, n: nat)
    requires n > 0
    ensures a * b >= 0 && PowMod(x, a * b, n) == PowMod(PowMod(x, a, n), b, n)
  {
    MulNonneg(a, b);
    if b > 0 {
      MulNonneg(a, b - 1);
      PowModMul(x, a, b - 1, n);
      Distribute(b - 1, 1, a);
      assert a * b == a + a * (b - 1);
      PowModAdd(x, a, a * (b - 1), n);
    }
  }

  lemma {:induction false} PowModOne(b: nat, n: nat)
    requires n > 0
    ensures PowMod(1 % n, b, n) == 1 % n
  {
    if b > 0 {
      PowModOne(b - 1, n);
      MulModBoth(1, 1, n);
    }
  }

  /** When x to the order is 1, exponents count modulo the order only. */
  lemma ExponentModOrder(x: int, e: nat, order: nat, n: nat)
    requires n > 0 && order > 0
    requires PowMod(x, order, n) == 1 % n
    ensures PowMod(x, e, n) == PowMod(x, e % order, n)
  {
    var q, r := e / order, e % order;
    DivMod(e, order);
    DivNonneg(e, order);
    PowModMul(x, order, q, n);
    PowModOne(q, n);
    assert order * q == q * order;
    PowModAdd(x, order * q, r, n);
    MulModLeft(1, PowMod(x, r, n), n);
    DivModUnique(PowMod(x, r, n), n, 0, PowMod(x, r, n));
  }
}

/** The Blum-Blum-Shub keystream with random access. */
module BlumBlumShubGenerator {
  import opened Arithmetic
  import opened Bits
  import opened ModularPowers
  import opened Octets
  import opened Primes

  // ---------- the stream, by position ----------

  /** The j-th squaring of x0. */
  function Square(x0: nat, n: nat, j: nat): (x: nat)
    requires n > 0
  {
    PowMod(x0, Pow2(j), n)
  }

  lemma SquareNext(x0: nat, n: nat, j: nat)
    requires n > 0
    ensures Square(x0, n, j + 1) == (Square(x0, n, j) * Square(x0, n, j)) % n
  {
    PowModAdd(x0, Pow2(j), Pow2(j), n);
  }

  /** How many low bits of each square are used. */
  function Width(n: nat): (w: nat)
    requires n >= 2
    ensures w > 0 && Pow2(w) <= BitCount(n) < Pow2(w + 1)
  {
    assert BitCount(n) >= 2;
    BitCount(BitCount(n)) - 1
  }

  /** Bit t of the stream: each square from the first gives its Width low bits, high bit first. */
  function StreamBit(x0: nat, n: nat, t: nat): (b: nat)
    requires n >= 2
    ensures b < 2
  {
    var w := Width(n);
    DivNonneg(t, w);
    GetBit(Square(x0, n, t / w + 1), w - 1 - t % w)
  }

  function Append(b: bv8, bit: nat): bv8 {
    (b << 1) | (if bit == 1 then 1 else 0)
  }

  /** The first count of the bits from position t on, as a number. */
  function StreamBits(x0: nat, n: nat, t: nat, count: nat): bv8
    requires n >= 2
  {
    if count == 0 then 0 else Append(StreamBits(x0, n, t, count - 1), StreamBit(x0, n, t + count - 1))
  }

  /** The bytes of the stream from bit position t on. */
  function Keystream(x0: nat, n: nat, t: nat, size: nat): (s: seq<bv8>)
    requires n >= 2
    ensures |s| == size
  {
    seq(size, i requires 0 <= i => StreamBits(x0, n, t + 8 * i, 8))
  }

  // ---------- what the stream is ----------

  function BitOf(x0: nat, n: nat, t: nat): bool
    requires n >= 2
  {
    StreamBit(x0, n, t) == 1
  }

  /** The first bit is the highest of the byte. */
  lemma FirstBitIsHighest(x0: nat, n: nat, t: nat)
    requires n >= 2
    ensures BitsOf(StreamBits(x0, n, t, 8)) == seq(8, i requires 0 <= i < 8 => BitOf(x0, n, t + i))
  {
    hide StreamBits, BitOf, BitsOf;
    LeadingBits(x0, n, t, 8);
  }

  /** The last count of the eight bits lead up to position t of the stream. */
  ghost predicate LeadTo(bits: seq<bool>, x0: nat, n: nat, t: nat, count: nat)
    requires n >= 2 && |bits| == 8 && count <= 8 && count <= t
  {
    forall i :: 8 - count <= i < 8 ==> bits[i] == BitOf(x0, n, t + i - 8)
  }

  lemma {:induction false} LeadingBits(x0: nat, n: nat, t: nat, count: nat)
    requires n >= 2 && count <= 8
    ensures LeadTo(BitsOf(StreamBits(x0, n, t, count)), x0, n, t + count, count)
  {
    hide StreamBit, BitsOf, Append;
    if count > 0 {
      LeadingBits(x0, n, t, count - 1);
      AppendBits(StreamBits(x0, n, t, count - 1), StreamBit(x0, n, t + count - 1));
    }
  }

  lemma AppendBits(b: bv8, bit: nat)
    ensures BitsOf(Append(b, bit)) == BitsOf(b)[1..] + [bit == 1]
  {
    hide OctetBit, Append;
    AppendedBit(b, bit, 0x80);
    AppendedBit(b, bit, 0x40);
    AppendedBit(b, bit, 0x20);
    AppendedBit(b, bit, 0x10);
    AppendedBit(b, bit, 8);
    AppendedBit(b, bit, 4);
    AppendedBit(b, bit, 2);
    AppendedLowest(b, bit);
  }

  lemma AppendedBit(b: bv8, bit: nat, mask: bv8)
    requires mask > 1 && mask & (mask - 1) == 0
    ensures OctetBit(Append(b, bit), mask) == OctetBit(b, mask >> 1)
  {
  }

  lemma AppendedLowest(b: bv8, bit: nat)
    ensures OctetBit(Append(b, bit), 1) == (bit == 1)
  {
  }

  /** Each square is that of the one before, and gives as many low bits as its Width says, high bit first. */
  lemma SquaresAre(x0: nat, n: nat, j: nat, k: nat)
    requires n >= 2 && k < Width(n)
    ensures Square(x0, n, 0) == x0 % n
    ensures Square(x0, n, j + 1) == (Square(x0, n, j) * Square(x0, n, j)) % n
    ensures j * Width(n) >= 0
    ensures StreamBit(x0, n, j * Width(n) + k) == Square(x0, n, j + 1) / Pow2(Width(n) - 1 - k) % 2
  {
    hide Width;
    PowModStarts(x0, n);
    SquareNext(x0, n, j);
    MulNonneg(j, Width(n));
    DivModUnique(j * Width(n) + k, Width(n), j, k);
  }

  /** The primes 11 and 23 with the seed 3: the squares 81, 236 and 36 give the bits 001, 100 and 100. */
  lemma StreamExample()
    ensures Width(253) == 3
    ensures Keystream(9, 253, 0, 1) == [0x32]
  {
    ExampleWidth();
    ExampleBits();
    hide StreamBit, Width, Square;
    Appended(9, 253);
  }

  lemma ExampleWidth()
    ensures Width(253) == 3
  {
    assert Pow2(4) == 16 && Pow2(3) == 8;
    Pow2Add(4, 4);
    assert Pow2(8) == 256 && Pow2(7) == 128;
    BitCountUnique(253, 8);
    BitCountUnique(8, 4);
  }

  lemma ThreeBits(x0: nat, n: nat, j: nat)
    requires n >= 2 && Width(n) == 3
    ensures StreamBit(x0, n, 3 * j) == Square(x0, n, j + 1) / 4 % 2
    ensures StreamBit(x0, n, 3 * j + 1) == Square(x0, n, j + 1) / 2 % 2
    ensures StreamBit(x0, n, 3 * j + 2) == Square(x0, n, j + 1) % 2
  {
    hide StreamBit, Width, Square;
    assert Pow2(2) == 4 && Pow2(1) == 2 && Pow2(0) == 1;
    SquaresAre(x0, n, j, 0);
    SquaresAre(x0, n, j, 1);
    SquaresAre(x0, n, j, 2);
    assert j * 3 == 3 * j;
  }

  lemma ExampleSquares()
    ensures Square(9, 253, 1) == 81 && Square(9, 253, 2) == 236 && Square(9, 253, 3) == 36
  {
    hide Square;
    FirstSquare(9, 253);
    SquareNext(9, 253, 0);
    SquareNext(9, 253, 1);
    SquareNext(9, 253, 2);
  }

  lemma ExampleBits()
    ensures StreamBit(9, 253, 0) == 0 && StreamBit(9, 253, 1) == 0 && StreamBit(9, 253, 2) == 1
    ensures StreamBit(9, 253, 3) == 1 && StreamBit(9, 253, 4) == 0 && StreamBit(9, 253, 5) == 0
    ensures StreamBit(9, 253, 6) == 1 && StreamBit(9, 253, 7) == 0
  {
    ExampleWidth();
    ExampleSquares();
    hide StreamBit, Width, Square;
    ThreeBits(9, 253, 0);
    ThreeBits(9, 253, 1);
    ThreeBits(9, 253, 2);
  }

  lemma {:induction false} Appended(x0: nat, n: nat)
    requires n >= 2
    requires StreamBit(x0, n, 0) == 0 && StreamBit(x0, n, 1) == 0 && StreamBit(x0, n, 2) == 1
    requires StreamBit(x0, n, 3) == 1 && StreamBit(x0, n, 4) == 0 && StreamBit(x0, n, 5) == 0
    requires StreamBit(x0, n, 6) == 1 && StreamBit(x0, n, 7) == 0
    ensures StreamBits(x0, n, 0, 8) == 0x32
  {
    hide StreamBit, Append;
    AppendedFour();
    assert StreamBits(x0, n, 0, 1) == Append(0, 0);
    assert StreamBits(x0, n, 0, 2) == Append(0, 0);
    assert StreamBits(x0, n, 0, 4) == Append(Append(0, 1), 1);
    assert StreamBits(x0, n, 0, 6) == Append(Append(3, 0), 0);
  }

  lemma AppendedFour()
    ensures Append(0, 0) == 0 && Append(Append(0, 1), 1) == 3 && Append(Append(3, 0), 0) == 12
    ensures Append(Append(12, 1), 0) == 0x32
  {
  }

  /** Deciphering from the position where enciphering began gives the text back. */
  lemma DecipherUndoesEncipher(x0: nat, n: nat, t: nat, text: seq<bv8>)
    requires n >= 2
    ensures var k := Keystream(x0, n, t, |text|); XorOctets(XorOctets(text, k), k) == text
  {
    XorTwice(text, Keystream(x0, n, t, |text|));
  }

  // ---------- the generator ----------

  /** BitPrecision of a 32-bit value: its highest set bit is found by halving the range of candidates. */
  method BitPrecision(value: nat) returns (h: nat)
    requires value < 0x1_0000_0000
    ensures h == BitCount(value)
  {
    if value == 0 {
      return 0;
    }
    var l := 0;
    h := 32;
    assert value < Pow2(32) by {
      assert Pow2(8) == 256;
      Pow2Add(8, 8);
      Pow2Add(16, 16);
    }
    while h - l > 1
      invariant 0 <= l < h && Pow2(l) <= value < Pow2(h)
      decreases h - l
    {
      var t := (l + h) / 2;
      if ShiftRight(value, t) != 0 {
        ShiftedOut(value, t);
        l := t;
      } else {
        ShiftedOut(value, t);
        h := t;
      }
    }
    BitCountUnique(value, h);
  }

  lemma BitCountUnique(value: nat, h: nat)
    requires h > 0 && Pow2(h - 1) <= value < Pow2(h)
    ensures BitCount(value) == h
  {
    var c := BitCount(value);
    if c < h {
      Pow2Monotone(c, h - 1);
    } else if h < c {
      Pow2Monotone(h, c - 1);
    }
  }

  lemma Product(a: nat, b: nat)
    requires a >= 1 && b >= 1
    ensures a * b >= 1 && (a >= 2 && b >= 2 ==> a * b >= 2)
  {
    MulMonotone(1, a, b);
  }

  /** The order of the multiplicative group modulo p * q, for distinct primes p and q. */
  function Order(p: nat, q: nat): (o: nat)
    requires p >= 2 && q >= 2
    ensures o >= 1
  {
    Product(p - 1, q - 1);
    (p - 1) * (q - 1)
  }

  /** Distinct primes congruent to 3 modulo 4. */
  ghost predicate BlumPrimes(p: nat, q: nat) {
    Prime(p) && Prime(q) && p != q && p % 4 == 3 && q % 4 == 3
  }

  /** For such primes the exponent that is left after reduction is never 0, and so no seed is wrong. */
  lemma JumpIs(p: nat, q: nat, x0: nat, j: nat)
    requires p >= 2 && q >= 2 && j > 0
    requires p * q >= 1 && (PowMod(x0, Order(p, q), p * q) == 1 % (p * q) || BlumPrimes(p, q))
    ensures PowMod(x0, Pow2(j) % Order(p, q), p * q) == Square(x0, p * q, j)
  {
    var order := Order(p, q);
    if BlumPrimes(p, q) {
      ReducedExponent(p, q, x0, Pow2(j), order);
      NoPowerOfTwo(p, q, j);
    } else {
      ExponentModOrder(x0, Pow2(j), order, p * q);
    }
  }

  /**
   Equal factors do not do. With 3 and 3 and the seed 2, byte 1 starts at the fifth square of 4, which is 7; the
   jump to it gives 1.
   */
  lemma EqualFactorsFail()
    ensures Prime(3) && Width(9) == 2 && 8 / Width(9) + 1 == 5
    ensures Square(4, 9, 5) == 7 && PowMod(4, Pow2(5) % Order(3, 3), 9) == 1
  {
    WidthOfNine();
    FifthSquare();
    assert Pow2(3) == 8 && Pow2(5) == 32;
    assert Order(3, 3) == 4;
  }

  lemma WidthOfNine()
    ensures Width(9) == 2
  {
    assert Pow2(2) == 4 && Pow2(3) == 8 && Pow2(4) == 16;
    BitCountUnique(9, 4);
    BitCountUnique(4, 3);
  }

  lemma FifthSquare()
    ensures Square(4, 9, 5) == 7
  {
    hide Square;
    FirstSquare(4, 9);
    SquareNext(4, 9, 0);
    SquareNext(4, 9, 1);
    SquareNext(4, 9, 2);
    SquareNext(4, 9, 3);
    SquareNext(4, 9, 4);
  }

  lemma NoPowerOfTwo(p: nat, q: nat, j: nat)
    requires BlumPrimes(p, q)
    ensures Pow2(j) % Order(p, q) != 0
  {
    if Pow2(j) % Order(p, q) == 0 {
      DividesFactor(p - 1, q - 1, Pow2(j));
      OddFactor(p, j);
      OddFactor(q, j);
    }
  }

  /** 3 is the only prime of the kind whose predecessor divides a power of two. */
  lemma OddFactor(p: nat, j: nat)
    requires p % 4 == 3 && Divides(p - 1, Pow2(j))
    ensures p == 3
  {
    var m := (p - 1) / 2;
    assert m * 2 == p - 1 && m % 2 == 1;
    DividesFactor(m, 2, Pow2(j));
    OddDividesPow2(m, j);
  }

  lemma {:induction false} OddDividesPow2(m: nat, j: nat)
    requires m % 2 == 1 && Divides(m, Pow2(j))
    ensures m == 1
  {
    var t := Pow2(j) / m;
    DivMod(Pow2(j), m);
    assert t * m == Pow2(j);
    if j == 0 {
      if m > 1 {
        DivModUnique(1, m, 0, 1);
      }
    } else {
      var h := t / 2;
      if t % 2 == 1 {
        OddTimesOdd(t, m);
      }
      MulAssociates(2, h, m);
      DivModUnique(Pow2(j - 1), m, h, 0);
      OddDividesPow2(m, j - 1);
    }
  }

  lemma OddTimesOdd(a: int, b: int)
    requires a % 2 == 1 && b % 2 == 1
    ensures (a * b) % 2 == 1
  {
    MulModBoth(a, b, 2);
  }

  class BlumBlumShub {
    const n: nat
    const p: nat
    const q: nat
    const x0: nat
    const maxBits: nat
    var current: nat
    var bitsLeft: nat
    /** The stream position of the next bit. */
    ghost var position: nat

    /** A block that is used up and the one after it, still whole, stand for the same position. */
    ghost predicate Valid()
      reads this
    {
      && n >= 2 && p >= 2 && q >= 2 && n == p * q
      && maxBits == Width(n) && bitsLeft <= maxBits
      && exists j: nat :: At(j)
    }

    /** The seed has the order of the group, or the factors are what the class is documented to be given. */
    ghost predicate MayJump()
      requires n >= 2 && p >= 2 && q >= 2
    {
      PowMod(x0, Order(p, q), n) == 1 % n || BlumPrimes(p, q)
    }

    ghost predicate At(j: nat)
      requires n >= 2
      reads this
    {
      current == Square(x0, n, j + 1) && position == j * maxBits + (maxBits - bitsLeft)
    }

    constructor (p: nat, q: nat, seed: nat)
      requires p >= 2 && q >= 2 && BitCount(p * q) < 0x1_0000_0000
      ensures Valid() && position == 0
      ensures this.p == p && this.q == q && x0 == (seed * seed) % n
    {
      Product(p, q);
      var modulus := p * q;
      var first := (seed * seed) % modulus;
      var width := BitPrecision(BitCount(modulus));
      this.p, this.q, n := p, q, modulus;
      x0 := first;
      current := (first * first) % modulus;
      maxBits, bitsLeft := width - 1, width - 1;
      position := 0;
      new;
      SquareNext(x0, n, 0);
      FirstSquare(x0, n);
      assert At(0);
    }

    method GenerateBit() returns (bit: nat)
      requires Valid()
      modifies this`current, this`bitsLeft, this`position
      ensures Valid() && position == old(position) + 1
      ensures bit == StreamBit(x0, n, old(position))
    {
      hide Square, Width;
      ghost var j: nat :| At(j);
      if bitsLeft == 0 {
        SquareNext(x0, n, j + 1);
        current := (current * current) % n;
        bitsLeft := maxBits;
        Distribute(j, 1, maxBits);
        j := j + 1;
      }
      assert At(j);
      bitsLeft := bitsLeft - 1;
      DivModUnique(position, maxBits, j, maxBits - 1 - bitsLeft);
      bit := GetBit(current, bitsLeft);
      position := position + 1;
      assert At(j);
    }

    method GenerateByte() returns (b: bv8)
      requires Valid()
      modifies this`current, this`bitsLeft, this`position
      ensures Valid() && position == old(position) + 8
      ensures b == StreamBits(x0, n, old(position), 8)
    {
      b := 0;
      for i := 0 to 8
        invariant Valid() && position == old(position) + i
        invariant b == StreamBits(x0, n, old(position), i)
      {
        var bit := GenerateBit();
        b := Append(b, bit);
      }
    }

    method GenerateBlock(output: array<bv8>)
      requires Valid()
      modifies this`current, this`bitsLeft, this`position, output
      ensures Valid() && position == old(position) + 8 * output.Length
      ensures output[..] == Keystream(x0, n, old(position), output.Length)
    {
      hide StreamBits;
      for i := 0 to output.Length
        invariant Valid() && position == old(position) + 8 * i
        invariant forall k :: 0 <= k < i ==> output[k] == StreamBits(x0, n, old(position) + 8 * k, 8)
      {
        var b := GenerateByte();
        output[i] := b;
      }
    }

    /** Input and output may be the same array. */
    method ProcessData(output: array<bv8>, input: array<bv8>)
      requires Valid() && output.Length == input.Length
      modifies this`current, this`bitsLeft, this`position, output
      ensures Valid() && position == old(position) + 8 * input.Length
      ensures output[..] == XorOctets(old(input[..]), Keystream(x0, n, old(position), input.Length))
    {
      hide StreamBits, XorOctet;
      for i := 0 to input.Length
        invariant Valid() && position == old(position) + 8 * i
        invariant forall k :: i <= k < input.Length ==> input[k] == old(input[k])
        invariant forall k :: 0 <= k < i ==>
          output[k] == XorOctet(old(input[k]), StreamBits(x0, n, old(position) + 8 * k, 8))
      {
        var b := GenerateByte();
        output[i] := XorOctet(input[i], b);
      }
    }

    /** Jumping to byte index of the stream. */
    method Seek(index: nat)
      requires Valid() && MayJump()
      modifies this`current, this`bitsLeft, this`position
      ensures Valid() && position == 8 * index
    {
      hide Square, Width, Order, BlumPrimes;
      var i := index * 8;
      DivNonneg(i, maxBits);
      DivMod(i, maxBits);
      var e := Pow2(i / maxBits + 1) % Order(p, q);
      JumpIs(p, q, x0, i / maxBits + 1);
      current := PowMod(x0, e, n);
      bitsLeft := maxBits - i % maxBits;
      position := i;
      SquareIs(x0, n, i / maxBits + 1);
      assert At(i / maxBits);
    }
  }

  lemma SquareIs(x0: nat, n: nat, j: nat)
    requires n > 0
    ensures Square(x0, n, j) == PowMod(x0, Pow2(j), n)
  {
  }

  lemma FirstSquare(x: nat, n: nat)
    requires 0 < n && x < n
    ensures Square(x, n, 0) == x
  {
    MulModBoth(x, 1, n);
    DivModUnique(x, n, 0, x);
    assert PowMod(x, 1, n) == (x * PowMod(x, 0, n)) % n;
  }

  /** Reading after a jump and reading after stepping over the same bytes agree. */
  method JumpOrStep(g: BlumBlumShub, skipped: array<bv8>, jumped: array<bv8>, stepped: array<bv8>)
    requires g.Valid() && g.position == 0 && g.MayJump()
    requires jumped != stepped && skipped != stepped && jumped.Length == stepped.Length
    modifies g`current, g`bitsLeft, g`position, skipped, jumped, stepped
    ensures jumped[..] == stepped[..]
  {
    g.GenerateBlock(skipped);
    g.GenerateBlock(stepped);
    g.Seek(skipped.Length);
    g.GenerateBlock(jumped);
  }
}
