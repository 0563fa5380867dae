/** Octets as numbers. */
module OctetValues {

  function Value(b: bv8): (v: nat)
    ensures v < 256
  {
    b as nat
  }

  function Octet(v: nat): (b: bv8)
    requires v < 256
  {
    v as bv8
  }

  lemma OctetOfValue(b: bv8)
    ensures Octet(Value(b)) == b
  {
  }

  lemma ValueOfOctet(v: nat)
    requires v < 256
    ensures Value(Octet(v)) == v
  {
    var b := Representable(v);
    hide Value, Octet;
    OctetOfValue(b);
  }

  lemma Representable(v: nat) returns (b: bv8)
    requires v < 256
    ensures Value(b) == v
  {
    if v == 0 {
      b := 0;
    } else {
      b := Representable(v - 1);
      Successor(b);
      b := b + 1;
    }
  }

  lemma Successor(b: bv8)
    requires Value(b) < 255
    ensures Value(b + 1) == Value(b) + 1
  {
  }
}

/** Strings of bits. */
module BitStrings {

  function Zeros(n: nat): (z: seq<bool>)
    ensures |z| == n && forall i :: 0 <= i < n ==> !z[i]
  {
    seq(n, _ => false)
  }
}

/** Strings of octets and their bits. */
module Octets {
  import Arithmetic
  import opened OctetValues

  function OctetBit(b: bv8, mask: bv8): bool {
    b & mask != 0
  }

  /** Eight bits, most significant first. */
  function BitsOf(b: bv8): (bits: seq<bool>)
    ensures |bits| == 8
  {
    [
      OctetBit(b, 0x80), OctetBit(b, 0x40), OctetBit(b, 0x20), OctetBit(b, 0x10),
      OctetBit(b, 8), OctetBit(b, 4), OctetBit(b, 2), OctetBit(b, 1)
    ]
  }

  lemma BitsOfOctet(b: bv8)
    ensures var bits := BitsOf(b);
            && bits[0] == OctetBit(b, 0x80) && bits[1] == OctetBit(b, 0x40) && bits[2] == OctetBit(b, 0x20)
            && bits[3] == OctetBit(b, 0x10) && bits[4] == OctetBit(b, 8) && bits[5] == OctetBit(b, 4)
            && bits[6] == OctetBit(b, 2) && bits[7] == OctetBit(b, 1)
  {
  }

  function Bits(bytes: seq<bv8>): (bits: seq<bool>)
    ensures |bits| == 8 * |bytes|
  {
    if bytes == [] then [] else BitsOf(bytes[0]) + Bits(bytes[1..])
  }

  lemma {:induction false} BitsInjective(a: seq<bv8>, b: seq<bv8>)
    requires |a| == |b| && Bits(a) == Bits(b)
    ensures a == b
  {
    hide BitsOf;
    if a != [] {
      assert BitsOf(a[0]) == Bits(a)[..8] && BitsOf(b[0]) == Bits(b)[..8];
      assert Bits(a[1..]) == Bits(a)[8..] && Bits(b[1..]) == Bits(b)[8..];
      BitsOfInjective(a[0], b[0]);
      BitsInjective(a[1..], b[1..]);
    }
  }

  lemma BitsOfInjective(a: bv8, b: bv8)
    requires BitsOf(a) == BitsOf(b)
    ensures a == b
  {
    var x, y := BitsOf(a), BitsOf(b);
    assert x[0] == y[0] && x[1] == y[1] && x[2] == y[2] && x[3] == y[3];
    assert x[4] == y[4] && x[5] == y[5] && x[6] == y[6] && x[7] == y[7];
  }

  /** Addition of bit strings over GF(2): ones where they differ. */
  function Differ(x: seq<bool>, y: seq<bool>): (d: seq<bool>)
    requires |x| == |y|
    ensures |d| == |x| && forall i :: 0 <= i < |x| ==> d[i] == (x[i] != y[i])
  {
    seq(|x|, i requires 0 <= i < |x| => x[i] != y[i])
  }

  function ZeroOctets(n: nat): (z: seq<bv8>)
    ensures |z| == n
  {
    seq(n, _ => 0)
  }

  function XorOctet(a: bv8, b: bv8): bv8 {
    a ^ b
  }

  lemma XorOctetLaws(a: bv8, b: bv8, c: bv8)
    ensures XorOctet(XorOctet(a, b), c) == XorOctet(a, XorOctet(b, c))
    ensures XorOctet(XorOctet(a, b), b) == a && XorOctet(a, b) == XorOctet(b, a)
    ensures XorOctet(a, 0) == a && XorOctet(a, a) == 0
  {
  }

  function XorOctets(a: seq<bv8>, b: seq<bv8>): (c: seq<bv8>)
    requires |a| == |b|
    ensures |c| == |a|
  {
    seq(|a|, i requires 0 <= i < |a| => XorOctet(a[i], b[i]))
  }

  lemma XorTwice(a: seq<bv8>, b: seq<bv8>)
    requires |a| == |b|
    ensures XorOctets(XorOctets(a, b), b) == a
  {
    forall i | 0 <= i < |a|
      ensures XorOctets(XorOctets(a, b), b)[i] == a[i]
    {
      XorOctetLaws(a[i], b[i], 0);
    }
  }

  /** Bit j of octet i. */
  lemma {:induction false} BitsAt(s: seq<bv8>, i: nat, j: nat)
    requires i < |s| && j < 8
    ensures Bits(s)[8 * i + j] == BitsOf(s[i])[j]
  {
    hide BitsOf;
    if i > 0 {
      BitsAt(s[1..], i - 1, j);
    }
  }

  lemma {:induction false} BitsOfXor(a: seq<bv8>, b: seq<bv8>)
    requires |a| == |b|
    ensures Bits(XorOctets(a, b)) == Differ(Bits(a), Bits(b))
  {
    hide BitsOf, XorOctet, Differ;
    if a != [] {
      OctetXorBits(a[0], b[0]);
      BitsOfXor(a[1..], b[1..]);
      assert XorOctets(a, b)[1..] == XorOctets(a[1..], b[1..]);
      DifferAppend(BitsOf(a[0]), BitsOf(b[0]), Bits(a[1..]), Bits(b[1..]));
    }
  }

  lemma DifferAppend(a: seq<bool>, b: seq<bool>, c: seq<bool>, d: seq<bool>)
    requires |a| == |b| && |c| == |d|
    ensures Differ(a + c, b + d) == Differ(a, b) + Differ(c, d)
  {
  }

  lemma OctetXorBits(a: bv8, b: bv8)
    ensures BitsOf(XorOctet(a, b)) == Differ(BitsOf(a), BitsOf(b))
  {
    hide BitsOf, XorOctet, OctetBit;
    BitsOfOctet(a);
    BitsOfOctet(b);
    BitsOfOctet(XorOctet(a, b));
    OctetBitXor(a, b, 0x80);
    OctetBitXor(a, b, 0x40);
    OctetBitXor(a, b, 0x20);
    OctetBitXor(a, b, 0x10);
    OctetBitXor(a, b, 8);
    OctetBitXor(a, b, 4);
    OctetBitXor(a, b, 2);
    OctetBitXor(a, b, 1);
    EightDiffer(BitsOf(a), BitsOf(b), BitsOf(XorOctet(a, b)));
  }

  lemma EightDiffer(x: seq<bool>, y: seq<bool>, d: seq<bool>)
    requires |x| == |y| == |d| == 8
    requires d[0] == (x[0] != y[0]) && d[1] == (x[1] != y[1]) && d[2] == (x[2] != y[2]) && d[3] == (x[3] != y[3])
    requires d[4] == (x[4] != y[4]) && d[5] == (x[5] != y[5]) && d[6] == (x[6] != y[6]) && d[7] == (x[7] != y[7])
    ensures d == Differ(x, y)
  {
    forall i | 0 <= i < 8
      ensures d[i] == (x[i] != y[i])
    {
      if i == 0 || i == 1 || i == 2 || i == 3 {
      } else if i == 4 || i == 5 || i == 6 {
      }
    }
  }

  lemma OctetBitXor(a: bv8, b: bv8, mask: bv8)
    requires mask & (mask - 1) == 0
    ensures OctetBit(XorOctet(a, b), mask) == (OctetBit(a, mask) != OctetBit(b, mask))
  {
  }

  // ---------- numbers ----------

  /** PutWord in big-endian order: the low n octets of v, the highest of them first. */
  function BigEndian(v: nat, n: nat): (s: seq<bv8>)
    ensures |s| == n
  {
    if n == 0 then [] else BigEndian(v / 256, n - 1) + [Octet(v % 256)]
  }

  function FromBigEndian(s: seq<bv8>): nat {
    if s == [] then 0 else FromBigEndian(s[..|s| - 1]) * 256 + Value(s[|s| - 1])
  }

  function Pow256(n: nat): (p: nat)
    ensures p > 0
  {
    if n == 0 then 1 else 256 * Pow256(n - 1)
  }

  lemma {:induction false} BigEndianOfValue(s: seq<bv8>)
    ensures BigEndian(FromBigEndian(s), |s|) == s
  {
    hide Value, Octet, BigEndian;
    if s != [] {
      var rest, b := s[..|s| - 1], s[|s| - 1];
      BigEndianOfValue(rest);
      OctetOfValue(b);
      BigEndianLast(FromBigEndian(rest), Value(b), |rest|);
      assert s == rest + [b];
    } else {
      assert |BigEndian(0, 0)| == 0;
    }
  }

  lemma BigEndianLast(q: nat, r: nat, n: nat)
    requires r < 256
    ensures BigEndian(q * 256 + r, n + 1) == BigEndian(q, n) + [Octet(r)]
  {
    hide Octet;
    LastDigit(q, r);
  }

  lemma {:induction false} ValueBound(s: seq<bv8>)
    ensures FromBigEndian(s) < Pow256(|s|)
  {
    hide Value, Octet;
    if s != [] {
      ValueBound(s[..|s| - 1]);
    }
  }

  lemma LastDigit(q: nat, r: nat)
    requires r < 256
    ensures (q * 256 + r) / 256 == q && (q * 256 + r) % 256 == r
  {
  }

  lemma {:induction false} ValueOfBigEndian(v: nat, n: nat)
    requires v < Pow256(n)
    ensures FromBigEndian(BigEndian(v, n)) == v
  {
    hide Value, Octet;
    if n > 0 {
      ValueOfBigEndian(v / 256, n - 1);
      ValueOfOctet(v % 256);
      var s := BigEndian(v, n);
      assert s[..n - 1] == BigEndian(v / 256, n - 1) && s[n - 1] == Octet(v % 256);
    }
  }

  lemma {:induction false} ValueOfAppend(a: seq<bv8>, b: seq<bv8>)
    ensures FromBigEndian(a + b) == FromBigEndian(a) * Pow256(|b|) + FromBigEndian(b)
  {
    hide Value, Octet;
    if b == [] {
      assert a + b == a;
    } else {
      var rest := b[..|b| - 1];
      assert (a + b)[..|a + b| - 1] == a + rest;
      ValueOfAppend(a, rest);
      Arithmetic.Distribute(FromBigEndian(a) * Pow256(|rest|), FromBigEndian(rest), 256);
      Arithmetic.MulAssociates(FromBigEndian(a), Pow256(|rest|), 256);
    }
  }

  /** Leading octets of a number that fits without them are zero. */
  lemma {:induction false} BigEndianWider(v: nat, n: nat, m: nat)
    requires v < Pow256(n) && n <= m
    ensures BigEndian(v, m)[m - n..] == BigEndian(v, n)
  {
    hide Value, Octet;
    if n > 0 {
      BigEndianWider(v / 256, n - 1, m - 1);
      var s := BigEndian(v, m);
      assert s[m - n..] == BigEndian(v / 256, m - 1)[m - n..] + [Octet(v % 256)];
    }
  }

  /** The high octet stands first. */
  lemma {:induction false} BigEndianExample()
    ensures BigEndian(0x102_0304, 4) == [1, 2, 3, 4] && FromBigEndian([1, 2]) == 0x102
  {
    assert BigEndian(0x1, 1) == [] + [Octet(1)] && BigEndian(0x102, 2) == BigEndian(1, 1) + [Octet(2)];
    assert BigEndian(0x1_0203, 3) == BigEndian(0x102, 2) + [Octet(3)];
    assert BigEndian(0x102_0304, 4) == BigEndian(0x1_0203, 3) + [Octet(4)];
    assert Value(1) == 1 && Value(2) == 2 && [1, 2][..1] == [1] && [1][..0] == [];
    assert FromBigEndian([1]) == 1;
  }
}
