/** The POSIX checksum of both sides: what it computes, and which errors it cannot miss. */
module Crc {
  import opened BitStrings
  import opened CrcTable
  import opened LittleEndian
  import opened OctetValues
  import opened Octets

  // ---------- the definition: long division of bit strings ----------

  /** Long division by x^32 + POLYNOMIAL over GF(2): bring down a bit, subtract if a one falls out. */
  function Divide(r: bv32, bits: seq<bool>): bv32
    decreases bits
  {
    if bits == [] then r
    else Divide(Xor(Shift(r), if bits[0] then 1 else 0), bits[1..])
  }

  /** Addition and subtraction of polynomials over GF(2), named so that proofs can treat it as a symbol. */
  function Xor(a: bv32, b: bv32): bv32 {
    a ^ b
  }

  /** The remainder of the bit string times x^32. */
  function Remainder(bits: seq<bool>): bv32 {
    Divide(0, bits + Zeros(32))
  }

  /** The octets of the length, low octet first, none for zero. */
  function LengthOctets(n: nat): seq<bv8> {
    if n == 0 then [] else [(n % 256) as bv8] + LengthOctets(n / 256)
  }

  function Posix(message: seq<bv8>): bv32 {
    Complement(Remainder(Bits(message + LengthOctets(|message|))))
  }

  function Complement(s: bv32): bv32 {
    !s
  }

  // ---------- the code: one table lookup for each byte ----------

  function Index(s: bv32, b: bv8): bv8 {
    (s >> 24) as bv8 ^ b
  }

  function TableStep(s: bv32, b: bv8): bv32 {
    Xor(s << 8, Table(Index(s, b)))
  }

  function TableSteps(s: bv32, bytes: seq<bv8>): bv32
    decreases bytes
  {
    if bytes == [] then s else TableSteps(TableStep(s, bytes[0]), bytes[1..])
  }

  function Cksum(message: seq<bv8>): bv32 {
    Complement(TableSteps(TableSteps(0, message), LengthOctets(|message|)))
  }

  lemma {:induction false} TableStepsAppend(s: bv32, a: seq<bv8>, b: seq<bv8>)
    ensures TableSteps(s, a + b) == TableSteps(TableSteps(s, a), b)
    decreases a
  {
    hide Table, TableStep;
    if a == [] {
      assert a + b == b;
    } else {
      assert (a + b)[1..] == a[1..] + b;
      TableStepsAppend(TableStep(s, a[0]), a[1..], b);
    }
  }

  /**
   UNSIGNED(s << 8) ^ crctab[(s >> 24) ^ c] on integers without a width: the index is an octet, the state
   stays narrow.
   */
  function MaskedStep(s: bv64, c: bv8): (t: bv64)
    requires s <= 0xffff_ffff
    ensures t <= 0xffff_ffff && t as bv32 == TableStep(s as bv32, c)
  {
    WideStep(s, c);
    ((s << 8) & 0xffff_ffff) ^ Table((s >> 24) as bv8 ^ c) as bv64
  }

  lemma WideStep(s: bv64, c: bv8)
    requires s <= 0xffff_ffff
    ensures (s >> 24) <= 0xff
    ensures ((s << 8) & 0xffff_ffff) ^ Table((s >> 24) as bv8 ^ c) as bv64 == TableStep(s as bv32, c) as bv64
  {
    hide Table;
  }

  /** The server's loops. */
  method MemcrcPython(b: seq<bv8>) returns (r: bv32)
    ensures r == Cksum(b)
  {
    hide Table, TableStep, MaskedStep;
    var n: nat := |b|;
    var s: bv64 := 0;
    for i := 0 to |b|
      invariant s <= 0xffff_ffff && TableSteps(s as bv32, b[i..]) == TableSteps(0, b)
    {
      assert b[i..][1..] == b[i + 1..];
      s := MaskedStep(s, b[i]);
    }
    assert b[|b|..] == [];
    while n != 0
      invariant s <= 0xffff_ffff
      invariant TableSteps(s as bv32, LengthOctets(n)) == TableSteps(TableSteps(0, b), LengthOctets(|b|))
    {
      var c := (n % 256) as bv8;
      assert LengthOctets(n)[0] == c && LengthOctets(n)[1..] == LengthOctets(n / 256);
      n := n / 256;
      s := MaskedStep(s, c);
    }
    r := !(s as bv32);
  }

  function NarrowStep(s: bv32, c: bv8): (t: bv32)
    ensures t == TableStep(s, c)
  {
    (s << 8) ^ Table((s >> 24) as bv8 ^ c)
  }

  /** The client's loops. The counter is an int, so the length must be below 2^31. */
  method MemcrcCpp(b: seq<bv8>) returns (r: bv32)
    requires |b| < 0x8000_0000
    ensures r == Cksum(b)
  {
    hide Table, TableStep, NarrowStep;
    var n: nat := |b|;
    var s: bv32 := 0;
    var i := 0;
    while i < n
      invariant 0 <= i <= n < 0x8000_0000 && TableSteps(s, b[i..]) == TableSteps(0, b)
    {
      assert b[i..][1..] == b[i + 1..];
      s := NarrowStep(s, b[i]);
      i := i + 1;
    }
    assert b[|b|..] == [];
    while n != 0
      invariant TableSteps(s, LengthOctets(n)) == TableSteps(TableSteps(0, b), LengthOctets(|b|))
    {
      var c := (n % 256) as bv8;
      assert LengthOctets(n)[0] == c && LengthOctets(n)[1..] == LengthOctets(n / 256);
      n := n / 256;
      s := NarrowStep(s, c);
    }
    r := !s;
  }

  // ---------- lookup is division ----------

  /** One message bit on the register that has already been multiplied by x^32. */
  function FeedStep(s: bv32, bit: bool): bv32 {
    Xor(Shift(s), if bit then POLYNOMIAL else 0)
  }

  function Feed(s: bv32, bits: seq<bool>): bv32
    decreases bits
  {
    if bits == [] then s else Feed(FeedStep(s, bits[0]), bits[1..])
  }

  function ShiftN(s: bv32, n: nat): bv32
    decreases n
  {
    if n == 0 then s else ShiftN(Shift(s), n - 1)
  }

  lemma XorLaws(a: bv32, b: bv32, c: bv32, d: bv32)
    ensures Xor(Xor(a, b), Xor(c, d)) == Xor(Xor(a, c), Xor(b, d))
    ensures Xor(a, 0) == a && Xor(0, a) == a && Xor(a, a) == 0
    ensures Xor(a, b) == 0 ==> a == b
  {
  }

  lemma ShlXor(x: bv32, y: bv32)
    ensures (x ^ y) << 1 == (x << 1) ^ (y << 1)
  {
  }

  /** The polynomial if the top bit is set. */
  function Carry(s: bv32): bv32 {
    (0 - (s >> 31)) & 0x04c11db7
  }

  lemma CarryXor(x: bv32, y: bv32)
    ensures Carry(x ^ y) == Carry(x) ^ Carry(y)
  {
  }

  lemma XorSwap(a: bv32, b: bv32, c: bv32, d: bv32)
    ensures (a ^ b) ^ (c ^ d) == (a ^ c) ^ (b ^ d)
  {
  }

  function CarryShift(s: bv32): bv32 {
    (s << 1) ^ Carry(s)
  }

  lemma ShiftIsCarryShift(s: bv32)
    ensures Shift(s) == CarryShift(s)
  {
    if s & 0x8000_0000 != 0 {
      assert s >> 31 == 1;
    } else {
      assert s >> 31 == 0;
    }
  }

  lemma CarryShiftIsLinear(x: bv32, y: bv32)
    ensures CarryShift(x ^ y) == CarryShift(x) ^ CarryShift(y)
  {
    hide Carry;
    ShlXor(x, y);
    CarryXor(x, y);
    XorSwap(x << 1, y << 1, Carry(x), Carry(y));
  }

  lemma ShiftIsLinear(x: bv32, y: bv32)
    ensures Shift(Xor(x, y)) == Xor(Shift(x), Shift(y))
  {
    ShiftIsCarryShift(x);
    ShiftIsCarryShift(y);
    ShiftIsCarryShift(x ^ y);
    CarryShiftIsLinear(x, y);
    hide Shift, CarryShift;
  }

  lemma {:induction false} ShiftNIsLinear(x: bv32, y: bv32, n: nat)
    ensures ShiftN(Xor(x, y), n) == Xor(ShiftN(x, n), ShiftN(y, n))
    decreases n
  {
    hide Shift, Xor;
    if n > 0 {
      ShiftIsLinear(x, y);
      ShiftNIsLinear(Shift(x), Shift(y), n - 1);
    }
  }

  lemma {:induction false} ShiftNLast(s: bv32, n: nat)
    ensures ShiftN(s, n + 1) == Shift(ShiftN(s, n))
    decreases n
  {
    hide Shift;
    if n > 0 {
      ShiftNLast(Shift(s), n - 1);
    }
  }

  lemma {:induction false} ShiftNAdd(s: bv32, m: nat, n: nat)
    ensures ShiftN(s, m + n) == ShiftN(ShiftN(s, m), n)
    decreases m
  {
    hide Shift;
    if m > 0 {
      ShiftNAdd(Shift(s), m - 1, n);
    }
  }

  lemma {:induction false} ShiftNZero(n: nat)
    ensures ShiftN(0, n) == 0
  {
    if n > 0 {
      ShiftNZero(n - 1);
    }
  }

  lemma ShiftFour(s: bv32)
    ensures ShiftN(s, 4) == Shift(Shift(Shift(Shift(s))))
  {
    hide Shift;
    assert ShiftN(s, 4) == ShiftN(Shift(s), 3);
    assert ShiftN(Shift(s), 3) == ShiftN(Shift(Shift(s)), 2);
  }

  /** x^32 leaves the generator's low terms. */
  lemma ShiftedOne()
    ensures ShiftN(1, 32) == POLYNOMIAL
  {
    ShiftFour(1);
    ShiftFour(0x10);
    ShiftFour(0x100);
    ShiftFour(0x1000);
    ShiftFour(0x1_0000);
    ShiftFour(0x10_0000);
    ShiftFour(0x100_0000);
    ShiftFour(0x1000_0000);
    ShiftNAdd(1, 4, 28);
    ShiftNAdd(0x10, 4, 24);
    ShiftNAdd(0x100, 4, 20);
    ShiftNAdd(0x1000, 4, 16);
    ShiftNAdd(0x1_0000, 4, 12);
    ShiftNAdd(0x10_0000, 4, 8);
    ShiftNAdd(0x100_0000, 4, 4);
  }

  lemma {:induction false} DivideAppend(r: bv32, a: seq<bool>, b: seq<bool>)
    ensures Divide(r, a + b) == Divide(Divide(r, a), b)
    decreases a
  {
    hide Shift, Xor;
    if a == [] {
      assert a + b == b;
    } else {
      assert (a + b)[1..] == a[1..] + b;
      DivideAppend(Xor(Shift(r), if a[0] then 1 else 0), a[1..], b);
    }
  }

  lemma {:induction false} DivideZeros(r: bv32, z: seq<bool>)
    requires forall i :: 0 <= i < |z| ==> !z[i]
    ensures Divide(r, z) == ShiftN(r, |z|)
    decreases z
  {
    if z != [] {
      XorLaws(Shift(r), 0, 0, 0);
      hide Shift, Xor;
      DivideZeros(Shift(r), z[1..]);
    }
  }

  /** Multiplying by x^32 first and then feeding bits is the same as bringing the bits down first. */
  lemma {:induction false} FeedIsDivide(r: bv32, bits: seq<bool>)
    ensures Feed(ShiftN(r, 32), bits) == ShiftN(Divide(r, bits), 32)
    decreases bits
  {
    hide Shift, Xor;
    if bits != [] {
      var c: bv32 := if bits[0] then 1 else 0;
      ShiftedOne();
      ShiftNZero(32);
      ShiftNIsLinear(Shift(r), c, 32);
      ShiftNLast(r, 32);
      assert ShiftN(Shift(r), 32) == Shift(ShiftN(r, 32)) by { assert ShiftN(r, 33) == ShiftN(Shift(r), 32); }
      FeedIsDivide(Xor(Shift(r), c), bits[1..]);
    }
  }

  lemma FeedIsRemainder(bits: seq<bool>)
    ensures Feed(0, bits) == Remainder(bits)
  {
    ShiftNZero(32);
    FeedIsDivide(0, bits);
    DivideAppend(0, bits, Zeros(32));
    DivideZeros(Divide(0, bits), Zeros(32));
  }

  // ---------- one byte, and the whole message ----------

  predicate Top(w: bv32) {
    w & 0x8000_0000 != 0
  }

  lemma ShiftOf(w: bv32)
    ensures Shift(w) == Xor(w << 1, if Top(w) then POLYNOMIAL else 0)
  {
    XorLaws(w << 1, 0, 0, 0);
    if Top(w) {
      assert Shift(w) == Xor(w << 1, POLYNOMIAL);
    } else {
      hide Xor;
      assert Shift(w) == w << 1;
    }
  }

  lemma XorCancels(a: bv32, b: bv32, c: bv32)
    ensures Xor(Xor(a, b), c) == Xor(a, Xor(c, b))
  {
  }

  function Up(w: bv32): bv32 {
    w << 1
  }

  /** Feeding the top bit of w, with the rest of w still to come, is one shift of the sum. */
  lemma FeedTopBit(s: bv32, w: bv32)
    ensures Xor(FeedStep(s, Top(w)), Up(w)) == Shift(Xor(s, w))
  {
    ShiftIsLinear(s, w);
    ShiftOf(w);
    XorCancels(Shift(s), if Top(w) then POLYNOMIAL else 0, w << 1);
    hide Shift, Xor, Top;
  }

  function UpN(w: bv32, n: nat): bv32
    decreases n
  {
    if n == 0 then w else UpN(Up(w), n - 1)
  }

  /** The bits are the top bits of w, one after the other. */
  ghost predicate AreTopBits(bits: seq<bool>, w: bv32) {
    forall i :: 0 <= i < |bits| ==> bits[i] == Top(UpN(w, i))
  }

  lemma {:induction false} FeedTopBits(s: bv32, w: bv32, bits: seq<bool>)
    requires AreTopBits(bits, w)
    ensures Xor(Feed(s, bits), UpN(w, |bits|)) == ShiftN(Xor(s, w), |bits|)
    decreases bits
  {
    hide Shift, Xor, Top, Up, FeedStep;
    if bits != [] {
      FeedTopBit(s, w);
      assert bits[0] == Top(UpN(w, 0));
      forall i | 0 <= i < |bits| - 1
        ensures bits[1..][i] == Top(UpN(Up(w), i))
      {
        assert bits[i + 1] == Top(UpN(w, i + 1));
      }
      FeedTopBits(FeedStep(s, Top(w)), Up(w), bits[1..]);
    }
  }

  lemma ByteBits(b: bv8)
    ensures AreTopBits(BitsOf(b), (b as bv32) << 24) && UpN((b as bv32) << 24, 8) == 0
  {
    var w := (b as bv32) << 24;
    assert UpN(w, 1) == Up(w);
    assert UpN(w, 2) == Up(Up(w));
    assert UpN(w, 3) == Up(Up(Up(w)));
    assert UpN(w, 4) == Up(Up(Up(Up(w))));
    assert UpN(w, 5) == Up(Up(Up(Up(Up(w)))));
    assert UpN(w, 6) == Up(Up(Up(Up(Up(Up(w))))));
    assert UpN(w, 7) == Up(Up(Up(Up(Up(Up(Up(w)))))));
    assert UpN(w, 8) == Up(Up(Up(Up(Up(Up(Up(Up(w))))))));
  }

  lemma UnfoldShifts(w: bv32)
    ensures ShiftN(w, 8) == Shift8(w)
  {
    ShiftFour(w);
    ShiftNAdd(w, 4, 4);
    ShiftFour(ShiftN(w, 4));
    hide Shift;
  }

  /** Eight bits at a time: the table lookup is what eight division steps do. */
  lemma FeedByte(s: bv32, b: bv8)
    ensures Feed(s, BitsOf(b)) == TableStep(s, b)
  {
    var w := (b as bv32) << 24;
    ByteBits(b);
    FeedTopBits(s, w, BitsOf(b));
    XorLaws(Feed(s, BitsOf(b)), 0, 0, 0);
    LookupIsEightShifts(s, b);
    hide Shift, Shift8, Xor, Top, Up, FeedStep, BitsOf, TableStep, Table;
  }

  /** Only the top byte of the register and the message byte meet in eight shifts; the rest moves up. */
  lemma LookupIsEightShifts(s: bv32, b: bv8)
    ensures TableStep(s, b) == ShiftN(Xor(s, (b as bv32) << 24), 8)
  {
    hide Table, Shift, Shift8, ShiftN, Xor, Index;
    SplitByte(s, b);
    LowShifts(s);
    LookupShifts(Index(s, b));
    ShiftNIsLinear(s & 0xff_ffff, (Index(s, b) as bv32) << 24, 8);
  }

  lemma LookupShifts(i: bv8)
    ensures ShiftN((i as bv32) << 24, 8) == Table(i)
  {
    hide Table, Shift, Shift8, ShiftN;
    TableIsShift(i);
    UnfoldShifts((i as bv32) << 24);
  }

  lemma SplitByte(s: bv32, b: bv8)
    ensures Xor(s, (b as bv32) << 24) == Xor(s & 0xff_ffff, (Index(s, b) as bv32) << 24)
  {
  }

  lemma ShiftLow(x: bv32)
    requires !Top(x)
    ensures Shift(x) == Up(x)
  {
  }

  lemma LowTops(s: bv32)
    ensures var a := s & 0xff_ffff;
      && !Top(a) && !Top(Up(a)) && !Top(Up(Up(a))) && !Top(Up(Up(Up(a)))) && !Top(Up(Up(Up(Up(a)))))
      && !Top(Up(Up(Up(Up(Up(a)))))) && !Top(Up(Up(Up(Up(Up(Up(a))))))) && !Top(Up(Up(Up(Up(Up(Up(Up(a))))))))
      && Up(Up(Up(Up(Up(Up(Up(Up(a)))))))) == s << 8
  {
  }

  lemma LowShifts(s: bv32)
    ensures ShiftN(s & 0xff_ffff, 8) == s << 8
  {
    hide Shift, Up, Top;
    LowTops(s);
    var a := s & 0xff_ffff;
    var b := Up(a);
    var c := Up(b);
    var d := Up(c);
    var e := Up(d);
    var f := Up(e);
    var g := Up(f);
    var h := Up(g);
    ShiftLow(a);
    ShiftLow(b);
    ShiftLow(c);
    ShiftLow(d);
    ShiftLow(e);
    ShiftLow(f);
    ShiftLow(g);
    ShiftLow(h);
    UnfoldShifts(a);
  }

  lemma {:induction false} FeedAppend(s: bv32, a: seq<bool>, b: seq<bool>)
    ensures Feed(s, a + b) == Feed(Feed(s, a), b)
    decreases a
  {
    hide FeedStep;
    if a == [] {
      assert a + b == b;
    } else {
      assert (a + b)[1..] == a[1..] + b;
      FeedAppend(FeedStep(s, a[0]), a[1..], b);
    }
  }

  lemma {:induction false} FeedBytes(s: bv32, bytes: seq<bv8>)
    ensures Feed(s, Bits(bytes)) == TableSteps(s, bytes)
    decreases bytes
  {
    hide FeedStep, TableStep, BitsOf;
    if bytes != [] {
      FeedAppend(s, BitsOf(bytes[0]), Bits(bytes[1..]));
      FeedByte(s, bytes[0]);
      FeedBytes(TableStep(s, bytes[0]), bytes[1..]);
    }
  }

  /** The table-driven checksum is the POSIX definition, for every message. */
  lemma CksumIsPosix(message: seq<bv8>)
    ensures Cksum(message) == Posix(message)
  {
    hide TableStep, TableSteps, Feed, Divide, Bits, Remainder, LengthOctets, Complement;
    var whole := message + LengthOctets(|message|);
    TableStepsAppend(0, message, LengthOctets(|message|));
    FeedBytes(0, whole);
    FeedIsRemainder(Bits(whole));
    assert TableSteps(0, whole) == Remainder(Bits(whole));
  }

  // ---------- the same, spelled out ----------

  /** The length octets are those of the length, low octet first, and no more than it needs. */
  lemma {:induction false} LengthOctetsAre(n: nat)
    ensures Unpack(LengthOctets(n)) == n
    ensures LengthOctets(n) == [] || LengthOctets(n)[|LengthOctets(n)| - 1] != 0
  {
    assert Value(0) == 0;
    hide Value;
    if n > 0 {
      var l := LengthOctets(n);
      LengthOctetsAre(n / 256);
      ValueOfOctet(n % 256);
      assert l[0] == Octet(n % 256) && l[1..] == LengthOctets(n / 256);
      if n / 256 == 0 {
        assert |l| == 1 && Value(l[0]) == n;
      } else {
        assert LengthOctets(n / 256) != [] && l[|l| - 1] == LengthOctets(n / 256)[|LengthOctets(n / 256)| - 1];
      }
    }
  }

  /** All bits of the checksum are those of the remainder inverted. */
  lemma InvertedRemainder(message: seq<bv8>)
    ensures var l := LengthOctets(|message|);
            && Cksum(message) ^ 0xffff_ffff == Remainder(Bits(message + l))
            && Unpack(l) == |message| && (l == [] || l[|l| - 1] != 0)
  {
    hide Remainder, Bits, LengthOctets, Cksum, Complement, Unpack;
    CksumIsPosix(message);
    LengthOctetsAre(|message|);
    Inverted(Remainder(Bits(message + LengthOctets(|message|))));
  }

  lemma Inverted(s: bv32)
    ensures Complement(s) ^ 0xffff_ffff == s
  {
  }

  lemma NoOctets()
    ensures Cksum([]) == 0xffff_ffff
  {
    assert TableSteps(0, []) == 0 && LengthOctets(0) == [];
    hide TableSteps, LengthOctets;
  }

  /** What the cksum utility prints for the nine digits. */
  lemma Digits()
    ensures Cksum([0x31, 0x32, 0x33, 0x34, 0x35, 0x36, 0x37, 0x38, 0x39]) == 0x377a_6011
  {
    hide TableStep, TableSteps;
    DigitSteps();
    var m: seq<bv8> := [0x31, 0x32, 0x33, 0x34, 0x35, 0x36, 0x37, 0x38, 0x39];
    var s := 0;
    s := OneTableStep(s, m, 0);
    s := OneTableStep(s, m, 1);
    s := OneTableStep(s, m, 2);
    s := OneTableStep(s, m, 3);
    s := OneTableStep(s, m, 4);
    s := OneTableStep(s, m, 5);
    s := OneTableStep(s, m, 6);
    s := OneTableStep(s, m, 7);
    s := OneTableStep(s, m, 8);
    assert m[9..] == [] && m[0..] == m && |LengthOctets(0)| == 0 && LengthOctets(9) == [9];
    NoTableStep(s);
    assert [9][0..] == [9] && [9][1..] == [];
    var t := OneTableStep(s, [9], 0);
    NoTableStep(t);
    assert Complement(0xc885_9fee) == 0x377a_6011;
  }

  lemma OneTableStep(s: bv32, m: seq<bv8>, i: nat) returns (t: bv32)
    requires i < |m|
    ensures t == TableStep(s, m[i]) && TableSteps(s, m[i..]) == TableSteps(t, m[i + 1..])
  {
    hide TableStep, Table, Index;
    t := TableStep(s, m[i]);
    assert m[i..][1..] == m[i + 1..];
  }

  lemma NoTableStep(s: bv32)
    ensures TableSteps(s, []) == s
  {
  }

  lemma DigitSteps()
    ensures TableStep(0, 0x31) == 0xd0f3_7027
    ensures TableStep(0xd0f3_7027, 0x32) == 0x3f5b_3a17
    ensures TableStep(0x3f5b_3a17, 0x33) == 0x6e36_8c64
    ensures TableStep(0x6e36_8c64, 0x34) == 0x6191_19d1
    ensures TableStep(0x6191_19d1, 0x35) == 0xfa8a_0cdb
    ensures TableStep(0xfa8a_0cdb, 0x36) == 0xe28a_d0fd
    ensures TableStep(0xe28a_d0fd, 0x37) == 0x8c8e_dd82
    ensures TableStep(0x8c8e_dd82, 0x38) == 0x20e7_79a2
    ensures TableStep(0x20e7_79a2, 0x39) == 0x89a1_897f
    ensures TableStep(0x89a1_897f, 0x09) == 0xc885_9fee
  {
    hide TableStep;
    FirstDigits();
    MoreDigits();
    LastDigits();
  }

  lemma FirstDigits()
    ensures TableStep(0, 0x31) == 0xd0f3_7027
    ensures TableStep(0xd0f3_7027, 0x32) == 0x3f5b_3a17
    ensures TableStep(0x3f5b_3a17, 0x33) == 0x6e36_8c64
    ensures TableStep(0x6e36_8c64, 0x34) == 0x6191_19d1
  {
  }

  lemma MoreDigits()
    ensures TableStep(0x6191_19d1, 0x35) == 0xfa8a_0cdb
    ensures TableStep(0xfa8a_0cdb, 0x36) == 0xe28a_d0fd
    ensures TableStep(0xe28a_d0fd, 0x37) == 0x8c8e_dd82
  {
  }

  lemma LastDigits()
    ensures TableStep(0x8c8e_dd82, 0x38) == 0x20e7_79a2
    ensures TableStep(0x20e7_79a2, 0x39) == 0x89a1_897f
    ensures TableStep(0x89a1_897f, 0x09) == 0xc885_9fee
  {
  }

  // ---------- which errors cannot be missed ----------

  lemma FeedStepDifference(s: bv32, t: bv32, a: bool, b: bool)
    ensures Xor(FeedStep(s, a), FeedStep(t, b)) == FeedStep(Xor(s, t), a != b)
  {
    hide Shift, Xor;
    var p: bv32, q: bv32 := if a then POLYNOMIAL else 0, if b then POLYNOMIAL else 0;
    ShiftIsLinear(s, t);
    XorLaws(Shift(s), p, Shift(t), q);
    XorLaws(p, 0, 0, 0);
    XorLaws(q, 0, 0, 0);
  }

  /** Two runs differ by the run of their difference. */
  lemma {:induction false} FeedDifference(s: bv32, t: bv32, x: seq<bool>, y: seq<bool>)
    requires |x| == |y|
    ensures Xor(Feed(s, x), Feed(t, y)) == Feed(Xor(s, t), Differ(x, y))
    decreases x
  {
    hide Shift, Xor, FeedStep;
    if x != [] {
      FeedStepDifference(s, t, x[0], y[0]);
      FeedDifference(FeedStep(s, x[0]), FeedStep(t, y[0]), x[1..], y[1..]);
      assert Differ(x, y)[1..] == Differ(x[1..], y[1..]);
    }
  }

  function LowMask(m: nat): bv32
  {
    if m == 0 then 0 else (LowMask(m - 1) << 1) | 1
  }

  /** Up to 31 low bits leave the top bit alone. */
  lemma {:induction false} LowMaskGrows(m: nat)
    ensures LowMask(m) & LowMask(m + 1) == LowMask(m)
  {
    if m > 0 {
      LowMaskGrows(m - 1);
      MaskStep(LowMask(m - 1), LowMask(m));
    }
  }

  lemma MaskStep(a: bv32, b: bv32)
    requires a & b == a
    ensures ((a << 1) | 1) & ((b << 1) | 1) == (a << 1) | 1
  {
  }

  lemma {:induction false} LowMaskTop(m: nat)
    requires m <= 31
    ensures LowMask(m) & 0x8000_0000 == 0
    decreases 31 - m
  {
    if m == 31 {
      assert LowMask(8) == 0xff;
      assert LowMask(16) == 0xffff;
      assert LowMask(24) == 0xff_ffff;
      assert LowMask(31) == 0x7fff_ffff;
    } else {
      LowMaskTop(m + 1);
      LowMaskGrows(m);
      SmallerMask(LowMask(m), LowMask(m + 1));
    }
  }

  lemma SmallerMask(a: bv32, b: bv32)
    requires a & b == a && b & 0x8000_0000 == 0
    ensures a & 0x8000_0000 == 0
  {
  }

  /** Zeros in the low m+1 bits after a step come from zeros in the low m bits before it. */
  lemma BackStep(s: bv32, bit: bool, mask: bv32)
    requires mask & 0x8000_0000 == 0
    requires FeedStep(s, bit) & ((mask << 1) | 1) == 0
    ensures s & mask == 0
  {
  }

  lemma {:induction false} Back(s: bv32, e: seq<bool>, m: nat)
    requires m + |e| <= 32 && Feed(s, e) & LowMask(m + |e|) == 0
    ensures s & LowMask(m) == 0
    decreases e
  {
    hide FeedStep;
    if e != [] {
      Back(FeedStep(s, e[0]), e[1..], m + 1);
      LowMaskTop(m);
      BackStep(s, e[0], LowMask(m));
    }
  }

  lemma NonzeroShift(s: bv32)
    requires s != 0
    ensures FeedStep(s, false) != 0
  {
  }

  lemma ZeroSteps()
    ensures FeedStep(0, false) == 0 && FeedStep(0, true) == POLYNOMIAL
  {
  }

  /** A difference that fits in 32 bits does not cancel itself. */
  lemma {:induction false} WindowSurvives(e: seq<bool>)
    requires |e| <= 32 && exists i :: 0 <= i < |e| && e[i]
    ensures Feed(0, e) != 0
    decreases e
  {
    ZeroSteps();
    hide FeedStep;
    if e[0] {
      if Feed(0, e) == 0 {
        XorLaws(0, 0, 0, 0);
        OddPolynomial();
        Back(POLYNOMIAL, e[1..], 1);
      }
    } else {
      var i :| 0 <= i < |e| && e[i];
      assert e[1..][i - 1];
      WindowSurvives(e[1..]);
    }
  }

  lemma OddPolynomial()
    ensures (0 as bv32) & LowMask(32) == 0 && LowMask(1) == 1 && POLYNOMIAL & 1 == 1
  {
  }

  lemma {:induction false} TailKeepsDifference(s: bv32, e: seq<bool>)
    requires s != 0 && forall i :: 0 <= i < |e| ==> !e[i]
    ensures Feed(s, e) != 0
    decreases e
  {
    hide FeedStep;
    if e != [] {
      NonzeroShift(s);
      TailKeepsDifference(FeedStep(s, e[0]), e[1..]);
    }
  }

  lemma {:induction false} LeadingZeros(e: seq<bool>)
    requires forall i :: 0 <= i < |e| ==> !e[i]
    ensures Feed(0, e) == 0
    decreases e
  {
    ZeroSteps();
    hide FeedStep;
    if e != [] {
      LeadingZeros(e[1..]);
    }
  }

  /** The positions at which two bit strings differ all lie in one window of 32 bits. */
  ghost predicate DifferInWindow(x: seq<bool>, y: seq<bool>, start: nat) {
    |x| == |y| && forall i :: 0 <= i < |x| && x[i] != y[i] ==> start <= i < start + 32
  }

  lemma DifferenceSurvives(d: seq<bool>, start: nat)
    requires forall i :: 0 <= i < |d| && d[i] ==> start <= i < start + 32
    requires exists i :: 0 <= i < |d| && d[i]
    ensures Feed(0, d) != 0
  {
    hide Feed, FeedStep, Shift;
    var before, window, after := CutOut(d, start);
    FeedAppend(0, before, window + after);
    LeadingZeros(before);
    FeedAppend(0, window, after);
    WindowSurvives(window);
    TailKeepsDifference(Feed(0, window), after);
  }

  /** The part of a difference that is not zero, with what comes before and after it. */
  lemma CutOut(d: seq<bool>, start: nat) returns (before: seq<bool>, window: seq<bool>, after: seq<bool>)
    requires forall i :: 0 <= i < |d| && d[i] ==> start <= i < start + 32
    requires exists i :: 0 <= i < |d| && d[i]
    ensures d == before + (window + after) && |window| <= 32 && true in window
    ensures true !in before && true !in after
  {
    var i :| 0 <= i < |d| && d[i];
    var end := if start + 32 < |d| then start + 32 else |d|;
    before, window, after := d[..start], d[start..end], d[end..];
    assert d == before + (window + after);
    assert window[i - start] == d[i];
  }

  lemma BurstSurvives(x: seq<bool>, y: seq<bool>, start: nat)
    requires DifferInWindow(x, y, start) && x != y
    ensures Feed(0, x) != Feed(0, y)
  {
    hide Feed, Xor;
    DifferenceSurvives(Differ(x, y), start);
    FeedDifference(0, 0, x, y);
    XorLaws(Feed(0, x), 0, 0, 0);
    XorLaws(0, 0, 0, 0);
  }

  lemma SameTail(s: bv32, t: bv32, tail: seq<bool>)
    requires s != t
    ensures Feed(s, tail) != Feed(t, tail)
  {
    XorLaws(s, t, 0, 0);
    FeedDifference(s, t, tail, tail);
    TailKeepsDifference(Xor(s, t), Differ(tail, tail));
    XorLaws(Feed(s, tail), 0, 0, 0);
    hide Xor, Feed;
  }

  /**
   The guarantee the transfer rests on: two messages of the same length whose bits differ only
   inside one window of 32 bits, wherever it starts, never have the same checksum.
   */
  lemma DetectsBursts(a: seq<bv8>, b: seq<bv8>, start: nat)
    requires a != b && |a| == |b| && DifferInWindow(Bits(a), Bits(b), start)
    ensures Cksum(a) != Cksum(b)
  {
    if Bits(a) == Bits(b) {
      BitsInjective(a, b);
    }
    var l := LengthOctets(|a|);
    BurstSurvives(Bits(a), Bits(b), start);
    FeedBytes(0, a);
    FeedBytes(0, b);
    SameTail(TableSteps(0, a), TableSteps(0, b), Bits(l));
    FeedBytes(TableSteps(0, a), l);
    FeedBytes(TableSteps(0, b), l);
    ComplementInjective(TableSteps(TableSteps(0, a), l), TableSteps(TableSteps(0, b), l));
    hide TableStep, TableSteps, Feed, Bits, LengthOctets, Complement;
  }

  /** In octets: messages that differ only within four consecutive ones. */
  lemma DetectsFourOctets(a: seq<bv8>, b: seq<bv8>, k: nat)
    requires a != b && |a| == |b|
    requires forall i :: 0 <= i < |a| && (i < k || k + 4 <= i) ==> a[i] == b[i]
    ensures Cksum(a) != Cksum(b)
  {
    hide Cksum, Bits, BitsOf;
    forall t | 0 <= t < |Bits(a)| && (t < 8 * k || 8 * k + 32 <= t)
      ensures Bits(a)[t] == Bits(b)[t]
    {
      BitsAt(a, t / 8, t % 8);
      BitsAt(b, t / 8, t % 8);
    }
    DetectsBursts(a, b, 8 * k);
  }

  lemma ComplementInjective(s: bv32, t: bv32)
    ensures Complement(s) == Complement(t) ==> s == t
  {
  }
}
