/** The CMAC of any block cipher, for any split of the message. */
module Cmac {
  import opened Arithmetic
  import opened BlockCiphers
  import opened Octets

  // ---------- doubling in the field ----------

  /** The terms below the leading one of the polynomial that defines the field of 8 * len bits. */
  function Exponents(len: nat): set<nat> {
    match len
    case 8 => {4, 3, 1, 0}
    case 16 => {7, 2, 1, 0}
    case 32 => {10, 5, 2, 0}
    case 64 => {8, 5, 2, 0}
    case _ => {19, 6, 1, 0}
  }

  predicate FieldSize(len: nat) {
    len == 8 || len == 16 || len == 32 || len == 64 || len == 128
  }

  /** The coefficients, highest first. */
  function Coefficients(len: nat): (p: seq<bool>)
    ensures |p| == 8 * len
  {
    seq(8 * len, i requires 0 <= i < 8 * len => 8 * len - 1 - i in Exponents(len))
  }

  /** Multiplication by the indeterminate, modulo x^(8 * len) plus the lower terms. */
  function TimesX(p: seq<bool>, lower: seq<bool>): seq<bool>
    requires |p| == |lower| > 0
  {
    var shifted := p[1..] + [false];
    if p[0] then Differ(shifted, lower) else shifted
  }

  /** The last three octets of the lower terms; all others are zero. */
  function LowOctets(len: nat): (bv8, bv8, bv8) {
    match len
    case 8 => (0, 0, 0x1b)
    case 16 => (0, 0, 0x87)
    case 32 => (0, 4, 0x25)
    case 64 => (0, 1, 0x25)
    case _ => (8, 0, 0x43)
  }

  function LowerTerms(len: nat): (p: seq<bv8>)
    requires len >= 8
    ensures |p| == len
  {
    ZeroOctets(len - 3) + [LowOctets(len).0, LowOctets(len).1, LowOctets(len).2]
  }

  lemma LowerTermsAre(len: nat)
    requires FieldSize(len)
    ensures Bits(LowerTerms(len)) == Coefficients(len)
  {
    forall t | 0 <= t < 8 * len
      ensures Bits(LowerTerms(len))[t] == Coefficients(len)[t]
    {
      CoefficientIs(len, t / 8, t % 8);
    }
  }

  lemma CoefficientIs(len: nat, i: nat, j: nat)
    requires FieldSize(len) && i < len && j < 8
    ensures Bits(LowerTerms(len))[8 * i + j] == Coefficients(len)[8 * i + j]
  {
    BitsAt(LowerTerms(len), i, j);
    hide Bits, BitsOf, Exponents, LowOctets;
    if i < len - 3 {
      ZeroBits();
      NoHighExponents(len, 8 * len - 1 - (8 * i + j));
    } else {
      LowBits(len, i - (len - 3), j);
      assert 8 * len - 1 - (8 * i + j) == 23 - 8 * (i - (len - 3)) - j;
    }
  }

  lemma NoHighExponents(len: nat, e: nat)
    requires e >= 24
    ensures e !in Exponents(len)
  {
  }

  lemma ZeroBits()
    ensures forall j :: 0 <= j < 8 ==> !BitsOf(0)[j]
  {
  }

  lemma LowBits(len: nat, i: nat, j: nat)
    requires FieldSize(len) && i < 3 && j < 8
    ensures var o := LowOctets(len);
            BitsOf(if i == 0 then o.0 else if i == 1 then o.1 else o.2)[j] == (23 - 8 * i - j in Exponents(len))
  {
    ZeroBits();
    assert BitsOf(0x1b) == [false, false, false, true, true, false, true, true];
    assert BitsOf(0x87) == [true, false, false, false, false, true, true, true];
    assert BitsOf(4) == [false, false, false, false, false, true, false, false];
    assert BitsOf(0x25) == [false, false, true, false, false, true, false, true];
    assert BitsOf(1) == [false, false, false, false, false, false, false, true];
    assert BitsOf(8) == [false, false, false, false, true, false, false, false];
    assert BitsOf(0x43) == [false, true, false, false, false, false, true, true];
    hide BitsOf;
  }

  /** One octet of the doubled string, with the bit that comes in from the next one. */
  function Doubled(octet: bv8, carry: bv8): bv8 {
    octet + (octet + carry)
  }

  function TopBit(octet: bv8): bv8 {
    octet >> 7
  }

  function CarryInto(s: seq<bv8>, j: nat): bv8 {
    if j + 1 < |s| then TopBit(s[j + 1]) else 0
  }

  function ShiftLeft(s: seq<bv8>): (t: seq<bv8>)
    ensures |t| == |s|
  {
    seq(|s|, j requires 0 <= j < |s| => Doubled(s[j], CarryInto(s, j)))
  }

  lemma DoubledBits(octet: bv8, carry: bv8)
    requires carry <= 1
    ensures BitsOf(Doubled(octet, carry)) == BitsOf(octet)[1..] + [carry == 1]
  {
    hide OctetBit, Doubled;
    DoubledBit(octet, carry, 0x80);
    DoubledBit(octet, carry, 0x40);
    DoubledBit(octet, carry, 0x20);
    DoubledBit(octet, carry, 0x10);
    DoubledBit(octet, carry, 8);
    DoubledBit(octet, carry, 4);
    DoubledBit(octet, carry, 2);
    LowestBit(octet, carry);
  }

  lemma DoubledBit(octet: bv8, carry: bv8, mask: bv8)
    requires carry <= 1 && mask > 1 && mask & (mask - 1) == 0
    ensures OctetBit(Doubled(octet, carry), mask) == OctetBit(octet, mask >> 1)
  {
  }

  lemma LowestBit(octet: bv8, carry: bv8)
    requires carry <= 1
    ensures OctetBit(Doubled(octet, carry), 1) == (carry == 1)
  {
  }

  lemma TopBitIs(octet: bv8)
    ensures TopBit(octet) <= 1 && BitsOf(octet)[0] == (TopBit(octet) == 1)
  {
  }

  lemma {:induction false} ShiftLeftBits(s: seq<bv8>)
    requires s != []
    ensures Bits(ShiftLeft(s)) == Bits(s)[1..] + [false]
  {
    hide BitsOf, Doubled, TopBit;
    var carry, rest := CarryInto(s, 0), s[1..];
    ShiftLeftRest(s);
    if rest == [] {
      DoubledBits(s[0], 0);
    } else {
      ShiftLeftBits(rest);
      TopBitIs(rest[0]);
      assert Bits(rest)[0] == (carry == 1);
      DoubledBits(s[0], carry);
      ShiftAcross(BitsOf(s[0]), Bits(rest));
    }
  }

  lemma ShiftAcross(head: seq<bool>, rest: seq<bool>)
    requires head != [] && rest != []
    ensures (head + rest)[1..] + [false] == head[1..] + [rest[0]] + (rest[1..] + [false])
  {
  }

  lemma ShiftLeftRest(s: seq<bv8>)
    requires s != []
    ensures ShiftLeft(s)[1..] == ShiftLeft(s[1..])
  {
    hide Doubled, TopBit;
    var rest := s[1..];
    forall j | 0 <= j < |rest|
      ensures ShiftLeft(s)[1..][j] == ShiftLeft(rest)[j]
    {
      assert CarryInto(s, j + 1) == CarryInto(rest, j);
    }
  }

  function DoubleOctets(s: seq<bv8>): (t: seq<bv8>)
    requires |s| >= 8
    ensures |t| == |s|
  {
    if TopBit(s[0]) != 0 then XorOctets(ShiftLeft(s), LowerTerms(|s|)) else ShiftLeft(s)
  }

  lemma DoubleOctetsIs(s: seq<bv8>)
    requires |s| >= 8
    ensures TopBit(s[0]) != 0 ==> DoubleOctets(s) == XorOctets(ShiftLeft(s), LowerTerms(|s|))
    ensures TopBit(s[0]) == 0 ==> DoubleOctets(s) == ShiftLeft(s)
  {
  }

  /** What MulU computes is multiplication by x in the field of 8 * |s| bits. */
  lemma DoubleIsTimesX(s: seq<bv8>)
    requires FieldSize(|s|)
    ensures Bits(DoubleOctets(s)) == TimesX(Bits(s), Coefficients(|s|))
  {
    TopBitIs(s[0]);
    ShiftLeftBits(s);
    LowerTermsAre(|s|);
    BitsOfXor(ShiftLeft(s), LowerTerms(|s|));
    hide BitsOf, TopBit, Coefficients, LowerTerms, ShiftLeft;
  }

  /** In t, the octets of u after position i of the len ones from at on have been shifted already. */
  ghost predicate ShiftedAfter(t: seq<bv8>, u: seq<bv8>, at: nat, len: nat, i: int)
    requires at + len <= |u| == |t|
  {
    forall j :: 0 <= j < |t| ==>
      t[j] == if at + i < j < at + len then Doubled(u[j], CarryInto(u[..at + len], j)) else u[j]
  }

  lemma ShiftPair(t: seq<bv8>, u: seq<bv8>, at: nat, len: nat, i: nat)
    requires at + len <= |u| == |t| && 1 <= i < len && ShiftedAfter(t, u, at, len, i)
    ensures var carry := CarryInto(u[..at + len], at + i);
            var t' := t[at + i := Doubled(t[at + i], carry)]
                       [at + i - 1 := Doubled(t[at + i - 1], TopBit(t[at + i]))];
            ShiftedAfter(t', u, at, len, i - 2)
  {
  }

  lemma ShiftedAll(t: seq<bv8>, u: seq<bv8>, at: nat, len: nat)
    requires at + len <= |u| == |t| && ShiftedAfter(t, u, at, len, -1)
    ensures t[at..at + len] == ShiftLeft(u[at..at + len])
    ensures t[..at] == u[..at] && t[at + len..] == u[at + len..]
  {
    hide Doubled, TopBit;
  }

  /** Doubles the len octets from position at on, two at each turn, from the last pair to the first. */
  method MulU(k: array<bv8>, at: nat, len: nat)
    requires FieldSize(len) && at + len <= k.Length
    modifies k
    ensures k[at..at + len] == DoubleOctets(old(k[at..at + len]))
    ensures k[..at] == old(k[..at]) && k[at + len..] == old(k[at + len..])
  {
    hide ShiftedAfter, Doubled, TopBit, DoubleOctets, LowerTerms, ShiftLeft;
    ghost var u := k[..];
    var carry: bv8 := 0;
    var i := len - 1;
    ghost var half := len / 2;
    StartShift(u, at, len);
    while i >= 1
      invariant -1 <= i < len && i + 1 == 2 * half
      invariant carry == if i >= 0 then CarryInto(u[..at + len], at + i) else TopBit(u[at])
      invariant ShiftedAfter(k[..], u, at, len, i)
      decreases i
    {
      ShiftPair(k[..], u, at, len, i);
      Untouched(k[..], u, at, len, i);
      carry := ShiftTwo(k, at + i, carry);
      i := i - 2;
      half := half - 1;
    }
    ShiftedAll(k[..], u, at, len);
    DoubleOctetsIs(u[at..at + len]);
    assert k[..][at..at + len] == k[at..at + len] && u[at..at + len] == old(k[at..at + len]);
    if carry != 0 {
      AddLowerTerms(k, at, len);
    }
  }

  lemma StartShift(u: seq<bv8>, at: nat, len: nat)
    requires at + len <= |u|
    ensures ShiftedAfter(u, u, at, len, len - 1)
  {
  }

  lemma Untouched(t: seq<bv8>, u: seq<bv8>, at: nat, len: nat, i: nat)
    requires at + len <= |u| == |t| && 1 <= i < len && ShiftedAfter(t, u, at, len, i)
    ensures t[at + i - 1] == u[at + i - 1]
  {
  }

  /** One turn of the loop, on the octets p and p - 1. */
  method ShiftTwo(k: array<bv8>, p: nat, carry: bv8) returns (carry': bv8)
    requires 1 <= p < k.Length
    modifies k
    ensures carry' == TopBit(old(k[p - 1]))
    ensures k[..] == old(k[..][p := Doubled(k[p], carry)][p - 1 := Doubled(k[p - 1], TopBit(k[p]))])
  {
    hide Doubled, TopBit;
    var carry2 := TopBit(k[p]);
    k[p] := Doubled(k[p], carry);
    carry' := TopBit(k[p - 1]);
    k[p - 1] := Doubled(k[p - 1], carry2);
  }

  /** The switch on the length, for a bit that fell out. */
  method AddLowerTerms(k: array<bv8>, at: nat, len: nat)
    requires FieldSize(len) && at + len <= k.Length
    modifies k
    ensures k[at..at + len] == XorOctets(old(k[at..at + len]), LowerTerms(len))
    ensures k[..at] == old(k[..at]) && k[at + len..] == old(k[at + len..])
  {
    forall x
      ensures XorOctet(x, 0) == x
    {
      XorOctetLaws(x, 0, 0);
    }
    hide XorOctet;
    match len {
      case 8 =>
        k[at + 7] := XorOctet(k[at + 7], 0x1b);
      case 16 =>
        k[at + 15] := XorOctet(k[at + 15], 0x87);
      case 32 =>
        k[at + 30] := XorOctet(k[at + 30], 4);
        k[at + 31] := XorOctet(k[at + 31], 0x25);
      case 64 =>
        k[at + 62] := XorOctet(k[at + 62], 1);
        k[at + 63] := XorOctet(k[at + 63], 0x25);
      case _ =>
        k[at + 125] := XorOctet(k[at + 125], 8);
        k[at + 126] := XorOctet(k[at + 126], 0);
        k[at + 127] := XorOctet(k[at + 127], 0x43);
    }
  }

  // ---------- the tag ----------

  ghost function Key1(c: BlockCipher): (k: seq<bv8>)
    requires c.Valid() && c.blockSize >= 8
    ensures |k| == c.blockSize
  {
    DoubleOctets(c.encrypt(ZeroOctets(c.blockSize)))
  }

  ghost function Key2(c: BlockCipher): (k: seq<bv8>)
    requires c.Valid() && c.blockSize >= 8
    ensures |k| == c.blockSize
  {
    DoubleOctets(Key1(c))
  }

  /** Section 2.4 of RFC 4493: n blocks, the last one masked with the first subkey if whole, else padded. */
  ghost function Tag(c: BlockCipher, message: seq<bv8>): (t: seq<bv8>)
    requires c.Valid() && c.blockSize >= 8
    ensures |t| == c.blockSize
  {
    var head := HeadLength(|message|, c.blockSize);
    c.encrypt(XorOctets(Chain(c, message[..head]), LastBlock(c, message[head..])))
  }

  /** The octets before the last block, which is empty only for an empty message. */
  function HeadLength(length: nat, b: nat): (h: nat)
    requires b > 0
    ensures h <= length && length - h <= b && (length > 0 ==> h < length)
  {
    if length == 0 then 0
    else
      DivMod(length + b - 1, b);
      MulMonotone(1, (length + b - 1) / b, b);
      Distribute((length + b - 1) / b, -1, b);
      ((length + b - 1) / b - 1) * b
  }

  lemma HeadLengthUnique(length: nat, b: nat, h: nat)
    requires b > 0 && h < length <= h + b && h % b == 0
    ensures HeadLength(length, b) == h
  {
    DivMod(h, b);
    Distribute(h / b, 1, b);
    DivModUnique(length + b - 1, b, h / b + 1, length - 1 - h);
  }

  ghost function LastBlock(c: BlockCipher, last: seq<bv8>): (x: seq<bv8>)
    requires c.Valid() && c.blockSize >= 8 && |last| <= c.blockSize
    ensures |x| == c.blockSize
  {
    if |last| == c.blockSize then XorOctets(last, Key1(c))
    else XorOctets(Padded(last, c.blockSize), Key2(c))
  }

  function Padded(last: seq<bv8>, b: nat): (p: seq<bv8>)
    requires |last| < b
    ensures |p| == b
  {
    last + [0x80] + ZeroOctets(b - |last| - 1)
  }

  /** The register after the data: whole blocks went through the cipher, the last counter octets did not. */
  ghost predicate Absorbed(c: BlockCipher, block: seq<bv8>, counter: nat, data: seq<bv8>)
    requires c.Valid() && c.blockSize >= 8
  {
    && counter <= c.blockSize && counter <= |data| && (|data| - counter) % c.blockSize == 0
    && block == XorAt(Chain(c, data[..|data| - counter]), 0, data[|data| - counter..])
  }

  lemma AbsorbOctets(c: BlockCipher, block: seq<bv8>, counter: nat, data: seq<bv8>, more: seq<bv8>)
    requires c.Valid() && c.blockSize >= 8 && Absorbed(c, block, counter, data)
    requires counter + |more| <= c.blockSize
    ensures |block| == c.blockSize
    ensures Absorbed(c, XorAt(block, counter, more), counter + |more|, data + more)
  {
    hide XorAt, Chain;
    var h := |data| - counter;
    assert (data + more)[..h] == data[..h] && (data + more)[h..] == data[h..] + more;
    XorAtAppend(Chain(c, data[..h]), data[h..], more);
  }

  lemma AbsorbBlock(c: BlockCipher, block: seq<bv8>, data: seq<bv8>)
    requires c.Valid() && c.blockSize >= 8 && Absorbed(c, block, c.blockSize, data)
    ensures |block| == c.blockSize && Absorbed(c, c.encrypt(block), 0, data)
  {
    hide XorAt, Chain;
    var h := |data| - c.blockSize;
    ModOfMultiple(1, c.blockSize, h);
    ChainNext(c, data[..h], data[h..]);
    assert data[..h] + data[h..] == data == data[..|data|] && data[|data|..] == [];
    XorAtNothing(Chain(c, data));
  }

  lemma AbsorbedNothing(c: BlockCipher)
    requires c.Valid() && c.blockSize >= 8
    ensures Absorbed(c, ZeroOctets(c.blockSize), 0, [])
  {
    XorAtNothing(ZeroOctets(c.blockSize));
  }

  lemma LastStart(c: BlockCipher, block: seq<bv8>, counter: nat, data: seq<bv8>)
    requires c.Valid() && c.blockSize >= 8 && Absorbed(c, block, counter, data) && (counter == 0 ==> data == [])
    ensures counter <= |data| && HeadLength(|data|, c.blockSize) == |data| - counter
  {
    hide Chain, XorAt;
    if counter > 0 {
      HeadLengthUnique(|data|, c.blockSize, |data| - counter);
    }
  }

  /** What TruncatedFinal does to a full register gives the tag. */
  lemma FinishFull(c: BlockCipher, block: seq<bv8>, data: seq<bv8>)
    requires c.Valid() && c.blockSize >= 8 && Absorbed(c, block, c.blockSize, data)
    ensures |block| == c.blockSize && c.encrypt(XorOctets(block, Key1(c))) == Tag(c, data)
  {
    hide Chain, Key1, Key2, HeadLength, XorAt, XorOctets;
    LastStart(c, block, c.blockSize, data);
    var h := |data| - c.blockSize;
    FinishWhole(Chain(c, data[..h]), block, data[h..], Key1(c));
  }

  /** And to one that is not full. */
  lemma FinishPadded(c: BlockCipher, block: seq<bv8>, counter: nat, data: seq<bv8>)
    requires c.Valid() && c.blockSize >= 8 && Absorbed(c, block, counter, data) && (counter == 0 ==> data == [])
    requires counter < c.blockSize
    ensures |block| == c.blockSize
    ensures c.encrypt(XorOctets(block[counter := XorOctet(block[counter], 0x80)], Key2(c))) == Tag(c, data)
  {
    hide Chain, Key1, Key2, HeadLength, XorAt, XorOctets, XorOctet, Padded;
    LastStart(c, block, counter, data);
    var h := |data| - counter;
    FinishPart(Chain(c, data[..h]), block, data[h..], Key2(c));
  }

  lemma FinishWhole(x: seq<bv8>, block: seq<bv8>, last: seq<bv8>, key: seq<bv8>)
    requires |x| == |last| == |key| && block == XorAt(x, 0, last)
    ensures XorOctets(block, key) == XorOctets(x, XorOctets(last, key))
  {
    hide XorOctet;
    forall i | 0 <= i < |x|
      ensures XorOctets(block, key)[i] == XorOctets(x, XorOctets(last, key))[i]
    {
      XorOctetLaws(x[i], last[i], key[i]);
    }
  }

  lemma FinishPart(x: seq<bv8>, block: seq<bv8>, last: seq<bv8>, key: seq<bv8>)
    requires |last| < |x| == |key| && block == XorAt(x, 0, last)
    ensures var marked := block[|last| := XorOctet(block[|last|], 0x80)];
            XorOctets(marked, key) == XorOctets(x, XorOctets(Padded(last, |x|), key))
  {
    hide XorOctet;
    var marked := block[|last| := XorOctet(block[|last|], 0x80)];
    var padded := Padded(last, |x|);
    forall i | 0 <= i < |x|
      ensures XorOctets(marked, key)[i] == XorOctets(x, XorOctets(padded, key))[i]
    {
      XorOctetLaws(x[i], padded[i], key[i]);
      XorOctetLaws(x[i], 0, 0);
    }
  }

  // ---------- the class ----------

  class CmacBase {
    var cipher: BlockCipher
    var reg: array<bv8>
    var counter: nat
    /** The message so far. */
    ghost var data: seq<bv8>

    ghost predicate Keyed()
      reads this, reg
    {
      var b := cipher.blockSize;
      && cipher.Valid() && FieldSize(b) && reg.Length == 3 * b
      && reg[b..] == Key1(cipher) + Key2(cipher)
    }

    /** A message that is not empty always holds its last block back. */
    ghost predicate Valid()
      reads this, reg
    {
      && Keyed()
      && Absorbed(cipher, reg[..cipher.blockSize], counter, data)
      && (counter == 0 ==> data == [])
    }

    /** The cipher with the new key set. */
    constructor UncheckedSetKey(keyed: BlockCipher)
      requires keyed.Valid() && FieldSize(keyed.blockSize)
      ensures Valid() && fresh(reg) && cipher == keyed && data == []
    {
      cipher := keyed;
      var b := keyed.blockSize;
      reg := new bv8[3 * b](_ => 0);
      counter := 0;
      data := [];
      new;
      assert reg[..b] == ZeroOctets(b);
      SetSubkeys();
      AbsorbedNothing(cipher);
    }

    method SetSubkeys()
      requires cipher.Valid() && FieldSize(cipher.blockSize) && reg.Length == 3 * cipher.blockSize
      requires reg[..cipher.blockSize] == ZeroOctets(cipher.blockSize)
      modifies reg
      ensures Keyed() && reg[..cipher.blockSize] == ZeroOctets(cipher.blockSize)
    {
      hide DoubleOctets;
      var b := cipher.blockSize;
      CopyInto(reg, b, cipher.encrypt(reg[..b]));
      MulU(reg, b, b);
      label first:
      CopyInto(reg, 2 * b, reg[b..2 * b]);
      FirstThirds(old@first(reg[..]), reg[..], b);
      label second:
      MulU(reg, 2 * b, b);
      FirstThirds(old@second(reg[..]), reg[..], b);
      KeyAt(reg[..], b, Key1(cipher), Key2(cipher));
    }

    /** xorbuf of some octets of the input into the register at the counter, which they advance. */
    method XorInput(input: array<bv8>, from: nat, len: nat)
      requires input != reg && from + len <= input.Length
      requires Keyed() && Absorbed(cipher, reg[..cipher.blockSize], counter, data) && counter + len <= cipher.blockSize
      modifies this`counter, this`data, reg
      ensures Keyed() && Absorbed(cipher, reg[..cipher.blockSize], counter, data)
      ensures counter == old(counter) + len && data == old(data) + input[from..from + len]
    {
      hide Absorbed, Key1, Key2;
      var b := cipher.blockSize;
      AbsorbOctets(cipher, reg[..b], counter, data, input[from..from + len]);
      XorBuf(reg, counter, input, from, len);
      XorAtHead(old(reg[..]), b, counter, input[from..from + len]);
      assert reg[..b] == reg[..][..b] && reg[b..] == reg[..][b..];
      assert old(reg[..b]) == old(reg[..])[..b] && old(reg[b..]) == old(reg[..])[b..];
      counter := counter + len;
      data := data + input[from..from + len];
    }

    /** ProcessBlock on the register, full. */
    method ProcessRegister()
      requires Keyed() && Absorbed(cipher, reg[..cipher.blockSize], cipher.blockSize, data)
      modifies this`counter, reg
      ensures Keyed() && counter == 0 && Absorbed(cipher, reg[..cipher.blockSize], 0, data)
    {
      hide Absorbed, Key1, Key2;
      var b := cipher.blockSize;
      AbsorbBlock(cipher, reg[..b], data);
      CopyInto(reg, 0, cipher.encrypt(reg[..b]));
      counter := 0;
    }

    /** AdvancedProcessBlocks on all but the last octet that is left: one to a whole block of octets stay behind. */
    method ProcessBlocks(input: array<bv8>, from: nat) returns (start: nat)
      requires input != reg && from + cipher.blockSize < input.Length
      requires Keyed() && counter == 0 && Absorbed(cipher, reg[..cipher.blockSize], 0, data)
      modifies this`counter, this`data, reg
      ensures Keyed() && counter == 0 && Absorbed(cipher, reg[..cipher.blockSize], 0, data)
      ensures from <= start < input.Length <= start + cipher.blockSize
      ensures data == old(data) + input[from..start]
    {
      hide Absorbed, Key1, Key2;
      start := from;
      var length: nat := input.Length - from - 1;
      assert old(data) + input[from..from] == data;
      while length >= cipher.blockSize
        invariant from <= start && start + length + 1 == input.Length
        invariant Keyed() && counter == 0 && Absorbed(cipher, reg[..cipher.blockSize], 0, data)
        invariant data == old(data) + input[from..start]
      {
        XorInput(input, start, cipher.blockSize);
        ProcessRegister();
        assert input[from..start] + input[start..start + cipher.blockSize] == input[from..start + cipher.blockSize];
        start := start + cipher.blockSize;
        length := length - cipher.blockSize;
      }
    }

    /** Any split of the message into calls leaves the register as the whole message would. */
    method Update(input: array<bv8>)
      requires Valid() && input != reg
      modifies this`counter, this`data, reg
      ensures Valid() && data == old(data) + input[..]
    {
      hide Absorbed, Key1, Key2, Chain, DoubleOctets, FieldSize;
      if input.Length == 0 {
        assert data + input[..] == data;
        return;
      }
      var start := FillBlock(input);
      if input.Length - start > cipher.blockSize {
        var from := start;
        start := ProcessBlocks(input, from);
        assert input[..from] + input[from..start] == input[..start];
      }
      if start < input.Length {
        XorInput(input, start, input.Length - start);
        assert input[..start] + input[start..] == input[..];
      }
      assert input[..input.Length] == input[..];
    }

    /** Completes the block that was held back, and passes it on when more follows. */
    method FillBlock(input: array<bv8>) returns (start: nat)
      requires Valid() && input != reg && input.Length > 0
      modifies this`counter, this`data, reg
      ensures start <= input.Length && data == old(data) + input[..start]
      ensures Keyed() && Absorbed(cipher, reg[..cipher.blockSize], counter, data)
      ensures if start < input.Length then counter == 0 else counter > 0
    {
      hide Absorbed, Key1, Key2;
      start := 0;
      assert old(data) + input[..0] == data;
      if counter > 0 {
        AbsorbedBounds(cipher, reg[..cipher.blockSize], counter, data);
        start := if cipher.blockSize - counter < input.Length then cipher.blockSize - counter else input.Length;
        XorInput(input, 0, start);
        if counter == cipher.blockSize && start < input.Length {
          ProcessRegister();
        }
      }
    }

    /** The first size octets of the tag, unless more are asked for than it has; then ready for a new message. */
    method TruncatedFinal(mac: array?<bv8>, size: nat) returns (ok: bool)
      requires Valid() && mac != reg && (mac != null ==> size <= mac.Length)
      modifies this`counter, this`data, reg, mac
      ensures ok == (size <= cipher.blockSize)
      ensures ok ==> Valid() && data == []
      ensures ok && mac != null ==> mac[..size] == Tag(cipher, old(data))[..size] && mac[size..] == old(mac[size..])
      ensures !ok ==> Valid() && data == old(data) && (mac != null ==> mac[..] == old(mac[..]))
    {
      hide Absorbed, Key1, Key2, Tag;
      var b := cipher.blockSize;
      if size > b {
        return false;
      }
      FinishRegister();
      if mac != null {
        CopyInto(mac, 0, reg[..size]);
        assert mac[0..size] == mac[..size] && reg[..size] == reg[..b][..size];
      }
      counter := 0;
      CopyInto(reg, 0, ZeroOctets(b));
      assert reg[..b] == reg[0..b];
      AbsorbedNothing(cipher);
      data := [];
      ok := true;
    }

    method FinishRegister()
      requires Valid()
      modifies reg
      ensures Keyed() && reg[..cipher.blockSize] == Tag(cipher, data)
    {
      hide Absorbed, Key1, Key2, Tag;
      var b := cipher.blockSize;
      AbsorbedBounds(cipher, reg[..b], counter, data);
      KeyAt(reg[..], b, Key1(cipher), Key2(cipher));
      if counter < b {
        FinishPadded(cipher, reg[..b], counter, data);
        XorBuf80(counter);
        KeyAt(reg[..], b, Key1(cipher), Key2(cipher));
        XorBlock(2 * b);
      } else {
        FinishFull(cipher, reg[..b], data);
        XorBlock(b);
      }
    }

    /** m_reg[m_counter] ^= 0x80 */
    method XorBuf80(at: nat)
      requires cipher.Valid() && reg.Length == 3 * cipher.blockSize && at < cipher.blockSize
      modifies reg
      ensures reg[..cipher.blockSize] == old(reg[..cipher.blockSize][at := XorOctet(reg[at], 0x80)])
      ensures reg[cipher.blockSize..] == old(reg[cipher.blockSize..])
    {
      reg[at] := XorOctet(reg[at], 0x80);
    }

    /** AdvancedProcessBlocks on one block: the register and a subkey, through the cipher. */
    method XorBlock(key: nat)
      requires cipher.Valid() && reg.Length == 3 * cipher.blockSize
      requires cipher.blockSize <= key <= 2 * cipher.blockSize
      modifies reg
      ensures reg[..cipher.blockSize] ==
        cipher.encrypt(XorOctets(old(reg[..cipher.blockSize]), old(reg[key..key + cipher.blockSize])))
      ensures reg[cipher.blockSize..] == old(reg[cipher.blockSize..])
    {
      var b := cipher.blockSize;
      CopyInto(reg, 0, cipher.encrypt(XorOctets(reg[..b], reg[key..key + b])));
    }
  }

  lemma FirstThirds(r: seq<bv8>, t: seq<bv8>, b: nat)
    requires |r| == |t| == 3 * b && r[..2 * b] == t[..2 * b]
    ensures r[..b] == t[..b] && r[b..2 * b] == t[b..2 * b]
  {
    assert r[..b] == r[..2 * b][..b] && t[..b] == t[..2 * b][..b];
    assert r[b..2 * b] == r[..2 * b][b..] && t[b..2 * b] == t[..2 * b][b..];
  }

  lemma KeyAt(reg: seq<bv8>, b: nat, k1: seq<bv8>, k2: seq<bv8>)
    requires |k1| == |k2| == b && |reg| == 3 * b
    ensures reg[b..] == k1 + k2 <==> reg[b..2 * b] == k1 && reg[2 * b..3 * b] == k2
  {
    assert reg[b..] == reg[b..2 * b] + reg[2 * b..3 * b];
    assert reg[b..][..b] == reg[b..2 * b] && reg[b..][b..] == reg[2 * b..3 * b];
  }

  lemma AbsorbedBounds(c: BlockCipher, block: seq<bv8>, counter: nat, data: seq<bv8>)
    requires c.Valid() && c.blockSize >= 8 && Absorbed(c, block, counter, data)
    ensures counter <= c.blockSize && |block| == c.blockSize
  {
  }

  lemma XorAtHead(x: seq<bv8>, b: nat, at: nat, t: seq<bv8>)
    requires at + |t| <= b <= |x|
    ensures XorAt(x, at, t)[..b] == XorAt(x[..b], at, t) && XorAt(x, at, t)[b..] == x[b..]
  {
    hide XorOctet;
  }
}
