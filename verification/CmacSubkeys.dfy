/** What CMAC has to compute, stated by section 2 of RFC 4493, and its examples. */
module CmacSubkeys {
  import opened Arithmetic
  import opened BlockCiphers
  import opened Cmac
  import opened Octets

  /** The subkeys are the enciphered zero block times x, and times x once more. */
  lemma SubkeysAre(c: BlockCipher)
    requires c.Valid() && FieldSize(c.blockSize)
    ensures var l, poly := c.encrypt(ZeroOctets(c.blockSize)), Coefficients(c.blockSize);
            && Bits(Key1(c)) == TimesX(Bits(l), poly)
            && Bits(Key2(c)) == TimesX(TimesX(Bits(l), poly), poly)
  {
    hide DoubleOctets, Bits, TimesX;
    DoubleIsTimesX(c.encrypt(ZeroOctets(c.blockSize)));
    DoubleIsTimesX(Key1(c));
  }

  /** A message of whole blocks: the first subkey goes onto the last of them. */
  lemma TagOfWhole(c: BlockCipher, head: seq<bv8>, last: seq<bv8>)
    requires c.Valid() && c.blockSize >= 8 && |head| % c.blockSize == 0 && |last| == c.blockSize
    ensures Tag(c, head + last) == c.encrypt(XorOctets(XorOctets(Chain(c, head), last), Key1(c)))
  {
    hide Chain, Key1, Key2, HeadLength, XorOctets;
    HeadLengthUnique(|head + last|, c.blockSize, |head|);
    SplitAt(head, last);
    XorThrice(Chain(c, head), last, Key1(c));
  }

  /** Any other: a one bit and zeros fill the last block, and the second subkey goes onto it. */
  lemma TagOfPart(c: BlockCipher, head: seq<bv8>, last: seq<bv8>)
    requires c.Valid() && c.blockSize >= 8 && |head| % c.blockSize == 0
    requires |last| < c.blockSize && (last == [] ==> head == [])
    ensures var filled := last + [0x80] + ZeroOctets(c.blockSize - |last| - 1);
            Tag(c, head + last) == c.encrypt(XorOctets(XorOctets(Chain(c, head), filled), Key2(c)))
  {
    hide Chain, Key1, Key2, HeadLength, XorOctets, Padded;
    var filled := Padded(last, c.blockSize);
    assert filled == last + [0x80] + ZeroOctets(c.blockSize - |last| - 1) by {
      PaddedIs(last, c.blockSize);
    }
    HeadOfPart(head, last, c.blockSize);
    SplitAt(head, last);
    XorThrice(Chain(c, head), filled, Key2(c));
  }

  lemma PaddedIs(last: seq<bv8>, b: nat)
    requires |last| < b
    ensures Padded(last, b) == last + [0x80] + ZeroOctets(b - |last| - 1)
  {
  }

  lemma HeadOfPart(head: seq<bv8>, last: seq<bv8>, b: nat)
    requires b > 0 && |head| % b == 0 && |last| < b && (last == [] ==> head == [])
    ensures HeadLength(|head + last|, b) == |head|
  {
    if last != [] {
      hide HeadLength;
      HeadLengthUnique(|head + last|, b, |head|);
    }
  }

  lemma SplitAt(head: seq<bv8>, last: seq<bv8>)
    ensures (head + last)[..|head|] == head && (head + last)[|head|..] == last
  {
  }

  lemma XorThrice(x: seq<bv8>, y: seq<bv8>, z: seq<bv8>)
    requires |x| == |y| == |z|
    ensures XorOctets(x, XorOctets(y, z)) == XorOctets(XorOctets(x, y), z)
  {
    hide XorOctet;
    forall i | 0 <= i < |x|
      ensures XorOctets(x, XorOctets(y, z))[i] == XorOctets(XorOctets(x, y), z)[i]
    {
      XorOctetLaws(x[i], y[i], z[i]);
    }
  }

  /** The subkey generation example of section 4 of RFC 4493. */
  lemma SubkeyExample(c: BlockCipher)
    requires c.Valid() && c.blockSize == 16
    requires c.encrypt(ZeroOctets(16)) ==
             [0x7d, 0xf7, 0x6b, 0x0c, 0x1a, 0xb8, 0x99, 0xb3, 0x3e, 0x42, 0xf0, 0x47, 0xb9, 0x1b, 0x54, 0x6f]
    ensures Key1(c) ==
            [0xfb, 0xee, 0xd6, 0x18, 0x35, 0x71, 0x33, 0x66, 0x7c, 0x85, 0xe0, 0x8f, 0x72, 0x36, 0xa8, 0xde]
    ensures Key2(c) ==
            [0xf7, 0xdd, 0xac, 0x30, 0x6a, 0xe2, 0x66, 0xcc, 0xf9, 0x0b, 0xc1, 0x1e, 0xe4, 0x6d, 0x51, 0x3b]
  {
    FirstExample();
    SecondExample();
  }

  lemma FirstExample()
    ensures DoubleOctets(
              [0x7d, 0xf7, 0x6b, 0x0c, 0x1a, 0xb8, 0x99, 0xb3, 0x3e, 0x42, 0xf0, 0x47, 0xb9, 0x1b, 0x54, 0x6f]) ==
              [0xfb, 0xee, 0xd6, 0x18, 0x35, 0x71, 0x33, 0x66, 0x7c, 0x85, 0xe0, 0x8f, 0x72, 0x36, 0xa8, 0xde]
  {
    FirstShift();
    assert TopBit(0x7d) == 0;
    hide ShiftLeft, TopBit, XorOctets;
    DoubleOctetsIs(
      [0x7d, 0xf7, 0x6b, 0x0c, 0x1a, 0xb8, 0x99, 0xb3, 0x3e, 0x42, 0xf0, 0x47, 0xb9, 0x1b, 0x54, 0x6f]);
  }

  lemma FirstShift()
    ensures ShiftLeft(
              [0x7d, 0xf7, 0x6b, 0x0c, 0x1a, 0xb8, 0x99, 0xb3, 0x3e, 0x42, 0xf0, 0x47, 0xb9, 0x1b, 0x54, 0x6f]) ==
              [0xfb, 0xee, 0xd6, 0x18, 0x35, 0x71, 0x33, 0x66, 0x7c, 0x85, 0xe0, 0x8f, 0x72, 0x36, 0xa8, 0xde]
  {
    assert Doubled(0x7d, TopBit(0xf7)) == 0xfb && Doubled(0xf7, TopBit(0x6b)) == 0xee;
    assert Doubled(0x6b, TopBit(0x0c)) == 0xd6 && Doubled(0x0c, TopBit(0x1a)) == 0x18;
    assert Doubled(0x1a, TopBit(0xb8)) == 0x35 && Doubled(0xb8, TopBit(0x99)) == 0x71;
    assert Doubled(0x99, TopBit(0xb3)) == 0x33 && Doubled(0xb3, TopBit(0x3e)) == 0x66;
    assert Doubled(0x3e, TopBit(0x42)) == 0x7c && Doubled(0x42, TopBit(0xf0)) == 0x85;
    assert Doubled(0xf0, TopBit(0x47)) == 0xe0 && Doubled(0x47, TopBit(0xb9)) == 0x8f;
    assert Doubled(0xb9, TopBit(0x1b)) == 0x72 && Doubled(0x1b, TopBit(0x54)) == 0x36;
    assert Doubled(0x54, TopBit(0x6f)) == 0xa8 && Doubled(0x6f, 0) == 0xde;
    hide Doubled, TopBit;
  }

  lemma SecondExample()
    ensures DoubleOctets(
              [0xfb, 0xee, 0xd6, 0x18, 0x35, 0x71, 0x33, 0x66, 0x7c, 0x85, 0xe0, 0x8f, 0x72, 0x36, 0xa8, 0xde]) ==
              [0xf7, 0xdd, 0xac, 0x30, 0x6a, 0xe2, 0x66, 0xcc, 0xf9, 0x0b, 0xc1, 0x1e, 0xe4, 0x6d, 0x51, 0x3b]
  {
    SecondShift();
    assert TopBit(0xfb) != 0;
    assert XorOctet(0xbc, 0x87) == 0x3b;
    hide ShiftLeft, TopBit, XorOctet;
    DoubleOctetsIs(
      [0xfb, 0xee, 0xd6, 0x18, 0x35, 0x71, 0x33, 0x66, 0x7c, 0x85, 0xe0, 0x8f, 0x72, 0x36, 0xa8, 0xde]);
    forall b
      ensures XorOctet(b, 0) == b
    {
      XorOctetLaws(b, 0, 0);
    }
    var low := LowerTerms(16);
    assert low[..13] == ZeroOctets(13) && low[13] == 0 && low[14] == 0 && low[15] == 0x87;
  }

  lemma SecondShift()
    ensures ShiftLeft(
              [0xfb, 0xee, 0xd6, 0x18, 0x35, 0x71, 0x33, 0x66, 0x7c, 0x85, 0xe0, 0x8f, 0x72, 0x36, 0xa8, 0xde]) ==
              [0xf7, 0xdd, 0xac, 0x30, 0x6a, 0xe2, 0x66, 0xcc, 0xf9, 0x0b, 0xc1, 0x1e, 0xe4, 0x6d, 0x51, 0xbc]
  {
    assert Doubled(0xfb, TopBit(0xee)) == 0xf7 && Doubled(0xee, TopBit(0xd6)) == 0xdd;
    assert Doubled(0xd6, TopBit(0x18)) == 0xac && Doubled(0x18, TopBit(0x35)) == 0x30;
    assert Doubled(0x35, TopBit(0x71)) == 0x6a && Doubled(0x71, TopBit(0x33)) == 0xe2;
    assert Doubled(0x33, TopBit(0x66)) == 0x66 && Doubled(0x66, TopBit(0x7c)) == 0xcc;
    assert Doubled(0x7c, TopBit(0x85)) == 0xf9 && Doubled(0x85, TopBit(0xe0)) == 0x0b;
    assert Doubled(0xe0, TopBit(0x8f)) == 0xc1 && Doubled(0x8f, TopBit(0x72)) == 0x1e;
    assert Doubled(0x72, TopBit(0x36)) == 0xe4 && Doubled(0x36, TopBit(0xa8)) == 0x6d;
    assert Doubled(0xa8, TopBit(0xde)) == 0x51 && Doubled(0xde, 0) == 0xbc;
    hide Doubled, TopBit;
  }

  /** A bit that falls out at the top comes back as the lower terms of the polynomial. */
  lemma TopBitDoubled(len: nat)
    requires FieldSize(len)
    ensures var d := DoubleOctets([0x80] + ZeroOctets(len - 1));
            && d[..len - 3] == ZeroOctets(len - 3)
            && d[len - 3..] == match len
                               case 8 => [0, 0, 0x1b]
                               case 16 => [0, 0, 0x87]
                               case 32 => [0, 4, 0x25]
                               case 64 => [0, 1, 0x25]
                               case _ => [8, 0, 0x43]
  {
    var s, low := [0x80] + ZeroOctets(len - 1), LowerTerms(len);
    assert ShiftLeft(s) == ZeroOctets(len) by {
      assert Doubled(0x80, 0) == 0 && Doubled(0, 0) == 0 && TopBit(0) == 0;
      hide Doubled, TopBit;
    }
    assert TopBit(0x80) != 0;
    hide ShiftLeft, TopBit, XorOctet;
    DoubleOctetsIs(s);
    assert XorOctets(ZeroOctets(len), low) == low by {
      forall i | 0 <= i < len
        ensures XorOctet(0, low[i]) == low[i]
      {
        XorOctetLaws(low[i], 0, 0);
      }
    }
    assert low[..len - 3] == ZeroOctets(len - 3);
    assert low[len - 3..] == [low[len - 3], low[len - 2], low[len - 1]];
  }
}
