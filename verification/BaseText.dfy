/** Numbers and their binary digits, highest first. */
module BinaryDigits {
  import opened Arithmetic
  import opened Bits
  import opened BitStrings

  function Number(bits: seq<bool>): (v: nat)
    ensures v < Pow2(|bits|)
  {
    if bits == [] then 0
    else 2 * Number(bits[..|bits| - 1]) + (if bits[|bits| - 1] then 1 else 0)
  }

  function Digits(v: nat, n: nat): (bits: seq<bool>)
    ensures |bits| == n
  {
    if n == 0 then [] else Digits(v / 2, n - 1) + [v % 2 == 1]
  }

  lemma {:induction false} NumberOfDigits(v: nat, n: nat)
    requires v < Pow2(n)
    ensures Number(Digits(v, n)) == v
  {
    if n > 0 {
      NumberOfDigits(v / 2, n - 1);
      var d := Digits(v, n);
      assert d[..n - 1] == Digits(v / 2, n - 1) && d[n - 1] == (v % 2 == 1);
    }
  }

  lemma {:induction false} DigitsOfNumber(bits: seq<bool>)
    ensures Digits(Number(bits), |bits|) == bits
  {
    if bits != [] {
      var rest := bits[..|bits| - 1];
      DigitsOfNumber(rest);
      var v := Number(bits);
      assert v / 2 == Number(rest) && (v % 2 == 1) == bits[|bits| - 1];
      assert bits == rest + [bits[|bits| - 1]];
    }
  }

  function ShiftLeft(v: nat, n: nat): nat {
    MulNonneg(v, Pow2(n));
    v * Pow2(n)
  }

  lemma NumberLast(bits: seq<bool>, last: bool)
    ensures Number(bits + [last]) == 2 * Number(bits) + (if last then 1 else 0)
  {
    assert (bits + [last])[..|bits|] == bits;
  }

  lemma OneMoreDigit(x: int, p: int, y: int, n: int, digit: int)
    requires n == x * p + y
    ensures 2 * n + digit == x * (2 * p) + (2 * y + digit)
  {
  }

  lemma {:induction false} NumberAppend(a: seq<bool>, b: seq<bool>)
    ensures Number(a + b) == ShiftLeft(Number(a), |b|) + Number(b)
  {
    if b == [] {
      assert a + b == a;
    } else {
      var rest, last := b[..|b| - 1], b[|b| - 1];
      NumberAppend(a, rest);
      assert b == rest + [last] && a + b == a + rest + [last];
      NumberLast(rest, last);
      NumberLast(a + rest, last);
      assert Pow2(|b|) == 2 * Pow2(|rest|);
      OneMoreDigit(Number(a), Pow2(|rest|), Number(rest), Number(a + rest), if last then 1 else 0);
      hide Number, Pow2;
    }
  }

  lemma {:induction false} NumberOfZeros(n: nat)
    ensures Number(Zeros(n)) == 0
  {
    if n > 0 {
      NumberOfZeros(n - 1);
      assert Zeros(n)[..n - 1] == Zeros(n - 1);
    }
  }

  /** Digits at the top of a field of w. */
  function TopOf(bits: seq<bool>, w: nat): (v: nat)
    requires |bits| <= w
    ensures v < Pow2(w)
  {
    Number(bits + Zeros(w - |bits|))
  }

  lemma TopOfIs(bits: seq<bool>, w: nat)
    requires |bits| <= w
    ensures TopOf(bits, w) == ShiftLeft(Number(bits), w - |bits|)
  {
    NumberAppend(bits, Zeros(w - |bits|));
    NumberOfZeros(w - |bits|);
  }

  // ---------- shifts and or, on numbers without a width ----------

  /** The lowest n digits: masking, or storing to a narrower variable. */
  function Low(v: nat, n: nat): (r: nat)
    ensures r < Pow2(n)
  {
    v % Pow2(n)
  }

  function Or(x: nat, y: nat): nat {
    if x == 0 && y == 0 then 0
    else 2 * Or(x / 2, y / 2) + (if x % 2 == 1 || y % 2 == 1 then 1 else 0)
  }

  lemma {:induction false} OrDigits(a: seq<bool>, b: seq<bool>)
    ensures Or(Number(a + Zeros(|b|)), Number(b)) == Number(a + b)
    decreases |b|
  {
    if b == [] {
      assert a + b == a + Zeros(0) == a;
      OrZero(Number(a));
    } else {
      var rest := b[..|b| - 1];
      OrDigits(a, rest);
      assert (a + b)[..|a + b| - 1] == a + rest;
      assert (a + Zeros(|b|))[..|a + b| - 1] == a + Zeros(|rest|);
      OrStep(Number(a + Zeros(|rest|)), Number(rest), b[|b| - 1]);
    }
  }

  lemma OrStep(x: nat, y: nat, bit: bool)
    ensures Or(2 * x, 2 * y + (if bit then 1 else 0)) == 2 * Or(x, y) + (if bit then 1 else 0)
  {
  }

  lemma {:induction false} OrZero(x: nat)
    ensures Or(x, 0) == x
  {
    if x > 0 {
      OrZero(x / 2);
    }
  }

  /** Digits of a field move down out of it, or up out of it. */
  lemma ShiftDown(a: seq<bool>, b: seq<bool>)
    ensures ShiftRight(Number(a + b), |b|) == Number(a)
  {
    NumberAppend(a, b);
    DivModUnique(Number(a + b), Pow2(|b|), Number(a), Number(b));
  }

  lemma ShiftUp(a: seq<bool>, b: seq<bool>, m: nat)
    ensures Low(ShiftLeft(Number(a + b), m), |b| + m) == Number(b + Zeros(m))
  {
    hide Number, Pow2, Zeros, ShiftLeft, Low;
    NumberAppend(a, b);
    NumberAppend(b, Zeros(m));
    NumberOfZeros(m);
    assert |b + Zeros(m)| == |b| + m;
    UpperShiftedOut(Number(a), |b|, Number(b), m, Number(a + b), Number(b + Zeros(m)));
  }

  lemma UpperShiftedOut(x: nat, i: nat, y: nat, j: nat, n: nat, r: nat)
    requires n == ShiftLeft(x, i) + y && r == ShiftLeft(y, j) && r < Pow2(i + j)
    ensures Low(ShiftLeft(n, j), i + j) == r
  {
    var q, p := Pow2(i), Pow2(j);
    Pow2Add(i, j);
    ProductOfSum(x, q, y, p);
    DivModUnique(ShiftLeft(n, j), Pow2(i + j), x, r);
  }

  lemma ProductOfSum(x: int, q: int, y: int, p: int)
    ensures (x * q + y) * p == x * (q * p) + y * p
  {
    Distribute(x * q, y, p);
    MulAssociates(x, q, p);
  }
}

/** What text in a base of 2 to 128 means, and that reading undoes writing. */
module BaseText {
  import opened Bits
  import opened BitStrings
  import opened BinaryDigits
  import opened Bytes

  predicate BitsPerChar(k: int) {
    1 <= k <= 7
  }

  /** An alphabet and a table to read it with; other characters, such as padding, may mean anything or nothing. */
  predicate Alphabet(k: nat, alphabet: seq<byte>) {
    BitsPerChar(k) && |alphabet| == Pow2(k)
  }

  /**
   A table gives each octet its digit, or a number out of range to skip it; -1 is out of range as an unsigned
   number.
   */
  predicate Lookup(k: nat, lookup: seq<int>) {
    && BitsPerChar(k) && |lookup| == 256
    && forall c :: 0 <= c < 256 ==> 0 <= lookup[c] < 256 ==> lookup[c] < Pow2(k)
  }

  predicate Matches(k: nat, alphabet: seq<byte>, lookup: seq<int>) {
    && Alphabet(k, alphabet) && Lookup(k, lookup)
    && forall v :: 0 <= v < Pow2(k) ==> lookup[alphabet[v]] == v
  }

  predicate Skipped(lookup: seq<int>, c: byte)
    requires |lookup| == 256
  {
    !(0 <= lookup[c] < 256)
  }

  // ---------- what encoding and decoding mean ----------

  predicate Below(vs: seq<nat>, n: nat) {
    forall i :: 0 <= i < |vs| ==> vs[i] < n
  }

  /** The bits of numbers of w bits each. */
  function Flat(vs: seq<nat>, w: nat): (bits: seq<bool>)
    ensures |bits| == w * |vs|
  {
    if vs == [] then [] else Flat(vs[..|vs| - 1], w) + Digits(vs[|vs| - 1], w)
  }

  /** The bits cut into digits of k; zeros fill up the last one. */
  function Cut(bits: seq<bool>, k: nat): (vs: seq<nat>)
    requires k > 0
    ensures Below(vs, Pow2(k))
    decreases |bits|
  {
    if bits == [] then []
    else if |bits| <= k then [TopOf(bits, k)]
    else [Number(bits[..k])] + Cut(bits[k..], k)
  }

  function Spell(vs: seq<nat>, alphabet: seq<byte>): (text: seq<byte>)
    requires Below(vs, |alphabet|)
    ensures |text| == |vs|
  {
    seq(|vs|, i requires 0 <= i < |vs| => alphabet[vs[i]])
  }

  /** The digits of the characters that have one. */
  function Read(text: seq<byte>, lookup: seq<int>): (vs: seq<nat>)
    requires |lookup| == 256
  {
    if text == [] then []
    else
      var c := text[|text| - 1];
      Read(text[..|text| - 1], lookup) + (if Skipped(lookup, c) then [] else [lookup[c]])
  }

  /** Cutting undoes flattening, and what does not fill a digit comes after it. */
  lemma {:induction false} CutFlat(vs: seq<nat>, k: nat, rest: seq<bool>)
    requires k > 0 && |rest| < k && Below(vs, Pow2(k))
    ensures Cut(Flat(vs, k) + rest, k) == vs + (if rest == [] then [] else [TopOf(rest, k)])
  {
    if vs == [] {
      assert [] + rest == rest;
    } else {
      CutDigit(vs[..|vs| - 1], vs[|vs| - 1], k, rest);
      assert vs == vs[..|vs| - 1] + [vs[|vs| - 1]];
    }
  }

  lemma {:induction false} CutDigit(vs: seq<nat>, v: nat, k: nat, rest: seq<bool>)
    requires k > 0 && |rest| < k && v < Pow2(k) && Below(vs, Pow2(k))
    ensures Cut(Flat(vs + [v], k) + rest, k) == vs + [v] + (if rest == [] then [] else [TopOf(rest, k)])
    decreases |vs|
  {
    hide Number, Digits, TopOf;
    NumberOfDigits(v, k);
    var bits := Flat(vs + [v], k) + rest;
    FlatFirst(vs + [v], k);
    if vs == [] {
      assert Flat([v], k) == Digits(v, k);
      OneDigit(v, k, rest);
    } else {
      NumberOfDigits(vs[0], k);
      var d, tail := Digits(vs[0], k), Flat(vs[1..] + [v], k) + rest;
      assert (vs + [v])[1..] == vs[1..] + [v];
      assert bits == d + tail;
      assert bits[..k] == d && bits[k..] == tail;
      FlatFirst(vs[1..] + [v], k);
      CutDigit(vs[1..], v, k, rest);
    }
  }

  lemma {:induction false} OneDigit(v: nat, k: nat, rest: seq<bool>)
    requires k > 0 && |rest| < k && v < Pow2(k)
    ensures Cut(Digits(v, k) + rest, k) == [v] + (if rest == [] then [] else [TopOf(rest, k)])
  {
    NumberOfDigits(v, k);
    var d := Digits(v, k);
    if rest == [] {
      assert d + rest == d == d + Zeros(0);
    } else {
      assert (d + rest)[..k] == d && (d + rest)[k..] == rest;
    }
  }

  lemma {:induction false} FlatFirst(vs: seq<nat>, k: nat)
    requires vs != []
    ensures Flat(vs, k) == Digits(vs[0], k) + Flat(vs[1..], k)
    decreases |vs|
  {
    var init, last := vs[..|vs| - 1], vs[|vs| - 1];
    if init == [] {
      assert vs[1..] == [];
    } else {
      FlatFirst(init, k);
      assert vs[1..][..|vs| - 2] == init[1..] && vs[1..][|vs| - 2] == last;
      assert Digits(vs[0], k) + Flat(init[1..], k) + Digits(last, k)
          == Digits(vs[0], k) + (Flat(init[1..], k) + Digits(last, k));
    }
  }

  /** Flattening undoes cutting, up to the zeros that filled the last digit, which are fewer than k. */
  lemma {:induction false} FlatCut(bits: seq<bool>, k: nat) returns (fill: nat)
    requires k > 0
    ensures fill < k && Flat(Cut(bits, k), k) == bits + Zeros(fill)
    decreases |bits|
  {
    hide Number, Digits, TopOf, Flat, Zeros;
    var vs := Cut(bits, k);
    if bits == [] {
      NothingFlat(k);
      fill := 0;
    } else {
      FlatFirst(vs, k);
      if |bits| <= k {
        fill := k - |bits|;
        LastDigits(bits, k);
        assert vs[1..] == [];
        NothingFlat(k);
      } else {
        fill := FlatCut(bits[k..], k);
        DigitsOfNumber(bits[..k]);
        assert vs[1..] == Cut(bits[k..], k);
        FirstDigit(bits, k, Zeros(fill));
      }
    }
  }

  lemma NothingFlat(k: nat)
    ensures Flat([], k) == [] == Zeros(0)
  {
  }

  lemma FirstDigit(bits: seq<bool>, k: nat, z: seq<bool>)
    requires k <= |bits|
    ensures bits + z == bits[..k] + (bits[k..] + z)
  {
  }

  lemma LastDigits(bits: seq<bool>, k: nat)
    requires |bits| <= k
    ensures Digits(TopOf(bits, k), k) == bits + Zeros(k - |bits|)
  {
    DigitsOfNumber(bits + Zeros(k - |bits|));
  }

  // ---------- text ----------

  /** How many bits make whole octets as well as whole digits. */
  function BlockBits(k: nat): nat
    requires BitsPerChar(k)
  {
    match k
    case 3 => 24
    case 5 => 40
    case 6 => 24
    case 7 => 56
    case _ => 8
  }

  function BlockChars(k: nat): (n: nat)
    requires BitsPerChar(k)
    ensures n * k == BlockBits(k) && n > 0
  {
    BlockBits(k) / k
  }

  /** The text of some octets, filled up to whole blocks when there is a padding character. */
  function EncodedText(k: nat, alphabet: seq<byte>, padding: int, data: seq<byte>): seq<byte>
    requires Alphabet(k, alphabet) && -1 <= padding < 256
  {
    var text := Spell(Cut(Flat(data, 8), k), alphabet);
    if padding == -1 then text else text + Repeat(padding, Missing(|text|, BlockChars(k)))
  }

  function Missing(length: nat, block: nat): (n: nat)
    requires block > 0
    ensures n < block
  {
    if length % block == 0 then 0 else block - length % block
  }

  function Repeat(c: byte, n: nat): (t: seq<byte>)
    ensures |t| == n
  {
    seq(n, _ => c)
  }

  /** The octets of a text; bits that do not make a whole octet are dropped. */
  function DecodedOctets(k: nat, lookup: seq<int>, text: seq<byte>): seq<nat>
    requires Lookup(k, lookup)
  {
    var bits := Flat(Read(text, lookup), k);
    Cut(bits[..8 * (|bits| / 8)], 8)
  }

  lemma {:induction false} ReadAppend(s: seq<byte>, t: seq<byte>, lookup: seq<int>)
    requires |lookup| == 256
    ensures Read(s + t, lookup) == Read(s, lookup) + Read(t, lookup)
    decreases |t|
  {
    if t == [] {
      assert s + t == s;
    } else {
      var rest := t[..|t| - 1];
      ReadAppend(s, rest, lookup);
      assert (s + t)[..|s + t| - 1] == s + rest;
      var last: seq<nat> := if Skipped(lookup, t[|t| - 1]) then [] else [lookup[t[|t| - 1]]];
      assert Read(s, lookup) + (Read(rest, lookup) + last) == Read(s, lookup) + Read(rest, lookup) + last;
    }
  }

  lemma ReadLast(text: seq<byte>, c: byte, lookup: seq<int>)
    requires |lookup| == 256
    ensures Skipped(lookup, c) ==> Read(text + [c], lookup) == Read(text, lookup)
    ensures !Skipped(lookup, c) ==> Read(text + [c], lookup) == Read(text, lookup) + [lookup[c]]
  {
    assert (text + [c])[..|text|] == text;
  }

  predicate AllSkipped(lookup: seq<int>, text: seq<byte>)
    requires |lookup| == 256
  {
    forall i :: 0 <= i < |text| ==> Skipped(lookup, text[i])
  }

  lemma {:induction false} ReadSkipped(text: seq<byte>, lookup: seq<int>)
    requires |lookup| == 256 && AllSkipped(lookup, text)
    ensures Read(text, lookup) == []
  {
    if text != [] {
      ReadSkipped(text[..|text| - 1], lookup);
    }
  }

  lemma {:induction false} ReadSpell(k: nat, vs: seq<nat>, alphabet: seq<byte>, lookup: seq<int>)
    requires Matches(k, alphabet, lookup) && Below(vs, Pow2(k))
    ensures Read(Spell(vs, alphabet), lookup) == vs
  {
    if vs != [] {
      var init, last := vs[..|vs| - 1], vs[|vs| - 1];
      ReadSpell(k, init, alphabet, lookup);
      SmallDigit(k);
      assert Spell(vs, alphabet)[..|vs| - 1] == Spell(init, alphabet);
      assert lookup[alphabet[last]] == last;
      assert vs == init + [last];
    }
  }

  lemma SmallDigit(k: nat)
    requires BitsPerChar(k)
    ensures Pow2(k) <= 128
  {
    Pow2Monotone(k, 7);
    assert Pow2(7) == 128;
  }

  /**
   Decoding an encoded text gives the octets back, in every base, with or without padding, and with anything
   between and behind the characters that the table skips.
   */
  lemma RoundTrip(k: nat, alphabet: seq<byte>, lookup: seq<int>, padding: int, data: seq<byte>,
                                     text: seq<byte>)
    requires Matches(k, alphabet, lookup) && -1 <= padding < 256 && (padding >= 0 ==> Skipped(lookup, padding))
    requires Read(text, lookup) == Read(EncodedText(k, alphabet, padding, data), lookup)
    ensures DecodedOctets(k, lookup, text) == data
  {
    hide Read, Spell, Flat, Cut, Digits, Zeros, BlockChars, Missing;
    var bits := Flat(data, 8);
    var vs := Cut(bits, k);
    ReadSpell(k, vs, alphabet, lookup);
    if padding >= 0 {
      var pad := Repeat(padding, Missing(|vs|, BlockChars(k)));
      ReadSkipped(pad, lookup);
      ReadAppend(Spell(vs, alphabet), pad, lookup);
    }
    assert Read(text, lookup) == vs;
    var fill := FlatCut(bits, k);
    WholeOctets(bits, |data|, fill);
    OctetsBelow(data);
    assert bits + [] == bits;
    CutFlat(data, 8, []);
  }

  lemma WholeOctets(bits: seq<bool>, n: nat, fill: nat)
    requires |bits| == 8 * n && fill < 8
    ensures var all := bits + Zeros(fill); all[..8 * (|all| / 8)] == bits
  {
  }

  lemma OctetsBelow(data: seq<byte>)
    ensures Below(data, Pow2(8))
  {
    assert Pow2(8) == 256;
  }

  // ---------- Base64: section 4 of RFC 4648 ----------

  /** Digits to characters. */
  function Base64Char(v: nat): byte
    requires v < 64
  {
    if v < 26 then 'A' as int + v
    else if v < 52 then 'a' as int + (v - 26)
    else if v < 62 then '0' as int + (v - 52)
    else if v == 62 then '+' as int else '/' as int
  }

  function Base64Alphabet(): seq<byte> {
    seq(64, v requires 0 <= v < 64 => Base64Char(v))
  }

  /** Three octets make four characters; one or two at the end make two or three, and padding. */
  function Rfc4648(data: seq<byte>): seq<byte> {
    if data == [] then []
    else if |data| == 1 then
      [Base64Char(data[0] / 4), Base64Char(data[0] % 4 * 16), '=' as int, '=' as int]
    else if |data| == 2 then
      [Base64Char(data[0] / 4), Base64Char(data[0] % 4 * 16 + data[1] / 16), Base64Char(data[1] % 16 * 4), '=' as int]
    else
      [Base64Char(data[0] / 4), Base64Char(data[0] % 4 * 16 + data[1] / 16),
       Base64Char(data[1] % 16 * 4 + data[2] / 64), Base64Char(data[2] % 64)] + Rfc4648(data[3..])
  }

  lemma CutOne(d: seq<bool>, k: nat, rest: seq<bool>)
    requires |d| == k > 0
    ensures Cut(d + rest, k) == [Number(d)] + Cut(rest, k)
  {
    if rest == [] {
      assert d + rest == d == d + Zeros(0);
    } else {
      assert (d + rest)[..k] == d && (d + rest)[k..] == rest;
    }
  }

  lemma CutLast(d: seq<bool>, k: nat)
    requires 0 < |d| < k
    ensures Cut(d, k) == [ShiftLeft(Number(d), k - |d|)]
  {
    TopOfIs(d, k);
  }

  /** The upper m digits of an octet, and the others. */
  lemma SplitOctet(v: byte, m: nat)
    requires m <= 8
    ensures Number(Digits(v, 8)[..m]) == v / Pow2(8 - m) && Number(Digits(v, 8)[m..]) == v % Pow2(8 - m)
  {
    assert Pow2(8) == 256;
    NumberOfDigits(v, 8);
    var d := Digits(v, 8);
    assert d == d[..m] + d[m..];
    NumberAppend(d[..m], d[m..]);
    Arithmetic.DivModUnique(v, Pow2(8 - m), Number(d[..m]), Number(d[m..]));
  }

  lemma SmallPowers()
    ensures Pow2(2) == 4 && Pow2(4) == 16 && Pow2(6) == 64
  {
  }

  lemma OneOctet(x: byte)
    ensures Cut(Digits(x, 8), 6) == [x / 4, x % 4 * 16]
  {
    hide Number, Digits, Cut;
    SmallPowers();
    SplitOctet(x, 6);
    var d := Digits(x, 8);
    assert d == d[..6] + d[6..];
    CutOne(d[..6], 6, d[6..]);
    CutLast(d[6..], 6);
  }

  lemma TwoOctets(x: byte, y: byte)
    ensures Cut(Digits(x, 8) + Digits(y, 8), 6) == [x / 4, x % 4 * 16 + y / 16, y % 16 * 4]
  {
    hide Number, Digits, Cut;
    SmallPowers();
    SplitOctet(x, 6);
    SplitOctet(y, 4);
    var d, e := Digits(x, 8), Digits(y, 8);
    var second := d[6..] + e[..4];
    NumberAppend(d[6..], e[..4]);
    assert d + e == d[..6] + (second + e[4..]);
    CutOne(d[..6], 6, second + e[4..]);
    CutOne(second, 6, e[4..]);
    CutLast(e[4..], 6);
  }

  lemma SixBits(d: seq<bool>, e: seq<bool>, f: seq<bool>, rest: seq<bool>)
    requires |d| == |e| == |f| == 8
    ensures d + (e + (f + rest)) == d[..6] + ((d[6..] + e[..4]) + ((e[4..] + f[..2]) + (f[2..] + rest)))
  {
  }

  lemma ThreeOctets(x: byte, y: byte, z: byte, rest: seq<bool>)
    ensures Cut(Digits(x, 8) + (Digits(y, 8) + (Digits(z, 8) + rest)), 6)
         == [x / 4, x % 4 * 16 + y / 16, y % 16 * 4 + z / 64, z % 64] + Cut(rest, 6)
  {
    hide Number, Digits, Cut;
    SmallPowers();
    SplitOctet(x, 6);
    SplitOctet(y, 4);
    SplitOctet(z, 2);
    var d, e, f := Digits(x, 8), Digits(y, 8), Digits(z, 8);
    var second, third := d[6..] + e[..4], e[4..] + f[..2];
    NumberAppend(d[6..], e[..4]);
    NumberAppend(e[4..], f[..2]);
    SixBits(d, e, f, rest);
    CutOne(d[..6], 6, second + (third + (f[2..] + rest)));
    CutOne(second, 6, third + (f[2..] + rest));
    CutOne(third, 6, f[2..] + rest);
    CutOne(f[2..], 6, rest);
  }

  /** Digits in Base64, with padding. */
  function Text64(vs: seq<nat>): seq<byte>
    requires Below(vs, 64)
  {
    Spell(vs, Base64Alphabet()) + Repeat('=' as int, Missing(|vs|, 4))
  }

  lemma FourMore(a: nat, b: nat, c: nat, d: nat, vs: seq<nat>)
    requires a < 64 && b < 64 && c < 64 && d < 64 && Below(vs, 64)
    ensures Below([a, b, c, d] + vs, 64)
    ensures Text64([a, b, c, d] + vs) == [Base64Char(a), Base64Char(b), Base64Char(c), Base64Char(d)] + Text64(vs)
  {
    hide Base64Char;
    assert Spell([a, b, c, d] + vs, Base64Alphabet())
        == [Base64Char(a), Base64Char(b), Base64Char(c), Base64Char(d)] + Spell(vs, Base64Alphabet());
    assert |[a, b, c, d] + vs| % 4 == |vs| % 4;
  }

  lemma ShortText(a: nat, b: nat, c: nat)
    requires a < 64 && b < 64 && c < 64
    ensures Text64([a, b]) == [Base64Char(a), Base64Char(b), '=' as int, '=' as int]
    ensures Text64([a, b, c]) == [Base64Char(a), Base64Char(b), Base64Char(c), '=' as int]
    ensures Text64([]) == []
  {
    hide Base64Char;
  }

  lemma {:induction false} TextIsRfc4648(data: seq<byte>)
    ensures Below(Cut(Flat(data, 8), 6), 64) && Text64(Cut(Flat(data, 8), 6)) == Rfc4648(data)
    decreases |data|
  {
    hide Digits, Cut, Number, Text64, Base64Char;
    SmallPowers();
    ShortText(0, 0, 0);
    if data == [] {
      CutNothing();
    } else if |data| == 1 {
      FlatFirst(data, 8);
      assert Digits(data[0], 8) + [] == Digits(data[0], 8);
      OneOctet(data[0]);
      ShortText(data[0] / 4, data[0] % 4 * 16, 0);
    } else if |data| == 2 {
      FlatFirst(data, 8);
      FlatFirst(data[1..], 8);
      assert Digits(data[1], 8) + [] == Digits(data[1], 8);
      TwoOctets(data[0], data[1]);
      ShortText(data[0] / 4, data[0] % 4 * 16 + data[1] / 16, data[1] % 16 * 4);
    } else {
      FlatFirst(data, 8);
      FlatFirst(data[1..], 8);
      FlatFirst(data[2..], 8);
      ThreeOctets(data[0], data[1], data[2], Flat(data[3..], 8));
      TextIsRfc4648(data[3..]);
      FourMore(data[0] / 4, data[0] % 4 * 16 + data[1] / 16, data[1] % 16 * 4 + data[2] / 64, data[2] % 64,
               Cut(Flat(data[3..], 8), 6));
    }
  }

  lemma CutNothing()
    ensures Cut([], 6) == []
  {
  }

  /** With six bits, the standard alphabet and '=' the text is that of the RFC. */
  lemma Base64IsRfc4648(data: seq<byte>)
    ensures Alphabet(6, Base64Alphabet()) && EncodedText(6, Base64Alphabet(), '=' as int, data) == Rfc4648(data)
  {
    hide Cut, Flat, Rfc4648, Base64Char;
    SmallPowers();
    TextIsRfc4648(data);
  }

  // ---------- groups ----------

  /** A separator before each group but the first; no groups at all when their size is 0. */
  function Grouped(data: seq<byte>, size: nat, separator: seq<byte>): seq<byte> {
    if data == [] then []
    else
      var n := |data| - 1;
      Grouped(data[..n], size, separator) + (if StartsGroup(n, size) then separator else []) + [data[n]]
  }

  /** Whether the octet with n others before it is the first of a group, but not of all. */
  predicate StartsGroup(n: nat, size: nat) {
    size > 0 && n > 0 && n % size == 0
  }

  /** Octets that fit into the group that was begun come in one piece. */
  lemma {:induction false} GroupedPiece(data: seq<byte>, piece: seq<byte>, size: nat, separator: seq<byte>)
    requires piece != [] && (size > 0 ==> |data| % size + |piece| <= size)
    ensures Grouped(data + piece, size, separator)
         == Grouped(data, size, separator) + (if StartsGroup(|data|, size) then separator else []) + piece
    decreases |piece|
  {
    hide StartsGroup;
    var init, last := piece[..|piece| - 1], piece[|piece| - 1];
    assert data + piece == data + init + [last] && (data + init + [last])[..|data + init|] == data + init;
    if init == [] {
      assert data + init == data;
    } else {
      GroupedPiece(data, init, size, separator);
      InsideGroup(|data|, |init|, size);
      var g := Grouped(data, size, separator) + (if StartsGroup(|data|, size) then separator else []);
      assert piece == init + [last];
      assert g + init + [] + [last] == g + (init + [last]);
    }
  }

  lemma InsideGroup(n: nat, i: nat, size: nat)
    requires 0 < i && (size > 0 ==> n % size + i < size)
    ensures !StartsGroup(n + i, size)
  {
    if size > 0 {
      Arithmetic.DivMod(n, size);
      Arithmetic.DivModUnique(n + i, size, n / size, n % size + i);
    }
  }

  /** A table that skips separators reads the same digits with and without them. */
  lemma {:induction false} ReadGrouped(data: seq<byte>, size: nat, separator: seq<byte>, lookup: seq<int>)
    requires |lookup| == 256 && AllSkipped(lookup, separator)
    ensures Read(Grouped(data, size, separator), lookup) == Read(data, lookup)
  {
    hide StartsGroup, Skipped;
    if data != [] {
      var n := |data| - 1;
      var init, last := Grouped(data[..n], size, separator), data[n];
      ReadGrouped(data[..n], size, separator, lookup);
      ReadSkipped(separator, lookup);
      ReadAppend(init, separator, lookup);
      assert Read(init, lookup) + [] == Read(init, lookup) && init + [] == init;
      ReadLast(if StartsGroup(n, size) then init + separator else init, last, lookup);
      ReadLast(data[..n], last, lookup);
      assert data == data[..n] + [last];
    }
  }

  /** The whole way of the private key: encoder, grouper, and decoder. */
  lemma GroupedRoundTrip(k: nat, alphabet: seq<byte>, lookup: seq<int>, padding: int, size: nat,
                                            separator: seq<byte>, terminator: seq<byte>, data: seq<byte>)
    requires Matches(k, alphabet, lookup) && -1 <= padding < 256 && (padding >= 0 ==> Skipped(lookup, padding))
    requires AllSkipped(lookup, separator) && AllSkipped(lookup, terminator)
    ensures var text := Grouped(EncodedText(k, alphabet, padding, data), size, separator) + terminator;
            DecodedOctets(k, lookup, text) == data
  {
    hide Grouped, EncodedText, Read, DecodedOctets;
    var text := EncodedText(k, alphabet, padding, data);
    ReadGrouped(text, size, separator, lookup);
    ReadSkipped(terminator, lookup);
    ReadAppend(Grouped(text, size, separator), terminator, lookup);
    assert Read(text, lookup) + [] == Read(text, lookup);
    RoundTrip(k, alphabet, lookup, padding, data, Grouped(text, size, separator) + terminator);
  }

  /** The standard decoding table: -1 but for the characters of the alphabet. */
  function Base64Digit(c: byte): int {
    if 'A' as int <= c <= 'Z' as int then c - 'A' as int
    else if 'a' as int <= c <= 'z' as int then c - 'a' as int + 26
    else if '0' as int <= c <= '9' as int then c - '0' as int + 52
    else if c == '+' as int then 62
    else if c == '/' as int then 63
    else -1
  }

  function Base64Lookup(): (t: seq<int>)
    ensures |t| == 256
  {
    seq(256, c requires 0 <= c < 256 => Base64Digit(c))
  }

  lemma Base64Matches()
    ensures Matches(6, Base64Alphabet(), Base64Lookup())
    ensures Skipped(Base64Lookup(), '=' as int) && AllSkipped(Base64Lookup(), ['\n' as int])
  {
    SmallPowers();
  }

  /** What Base64Wrapper stores and reads again: one line without breaks. */
  lemma Base64RoundTrip(data: seq<byte>)
    ensures DecodedOctets(6, Base64Lookup(), Rfc4648(data)) == data
  {
    hide Base64Lookup, Base64Alphabet, DecodedOctets, EncodedText, Rfc4648;
    Base64Matches();
    Base64IsRfc4648(data);
    RoundTrip(6, Base64Alphabet(), Base64Lookup(), '=' as int, data, Rfc4648(data));
  }
}
