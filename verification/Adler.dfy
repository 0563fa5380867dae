/** The Adler-32 checksum with its reductions put off. */
module Adler {
  import Arithmetic
  import opened Bytes

  const BASE: nat := 65521

  // ---------- the definition: both sums reduced at every byte ----------

  /** The sum of all bytes, starting from 1. */
  function Sum1(d: seq<byte>): (s: nat)
    ensures s < BASE
  {
    if d == [] then 1 else (Sum1(d[..|d| - 1]) + d[|d| - 1]) % BASE
  }

  /** The sum of all values of the first sum. */
  function Sum2(d: seq<byte>): (s: nat)
    ensures s < BASE
  {
    if d == [] then 0 else (Sum2(d[..|d| - 1]) + Sum1(d)) % BASE
  }

  /** The value of the checksum, most significant octet first. */
  function Digest(d: seq<byte>): (h: seq<byte>)
    ensures |h| == 4
  {
    var v := Sum2(d) * 0x1_0000 + Sum1(d);
    [v / 0x100_0000, v / 0x1_0000 % 0x100, v / 0x100 % 0x100, v % 0x100]
  }

  lemma DigestOctets(d: seq<byte>)
    ensures Digest(d)[0] == Sum2(d) / 0x100 && Digest(d)[1] == Sum2(d) % 0x100
    ensures Digest(d)[2] == Sum1(d) / 0x100 && Digest(d)[3] == Sum1(d) % 0x100
  {
    hide Sum1, Sum2;
    FourOctets(Sum2(d) / 0x100, Sum2(d) % 0x100, Sum1(d) / 0x100, Sum1(d) % 0x100);
  }

  lemma FourOctets(a: byte, b: byte, c: byte, d: byte)
    ensures var v := (a * 0x100 + b) * 0x1_0000 + (c * 0x100 + d);
            v / 0x100_0000 == a && v / 0x1_0000 % 0x100 == b && v / 0x100 % 0x100 == c && v % 0x100 == d
  {
  }

  /** The two running sums stand for the sums over d. */
  ghost predicate Stands(s1: nat, s2: nat, d: seq<byte>) {
    s1 % BASE == Sum1(d) && s2 % BASE == Sum2(d)
  }

  lemma ReduceLate(x: nat, y: nat)
    ensures (x % BASE + y) % BASE == (x + y) % BASE
  {
  }

  lemma NextByte(s1: nat, s2: nat, d: seq<byte>, b: byte)
    requires Stands(s1, s2, d)
    ensures Stands(s1 + b, s2 + (s1 + b), d + [b])
  {
    SumsNext(d, b);
    hide Sum1, Sum2;
    ReduceLate(s1, b);
    TwoReductions(s2, s1 + b);
  }

  lemma SumsNext(d: seq<byte>, b: byte)
    ensures Sum1(d + [b]) == (Sum1(d) + b) % BASE && Sum2(d + [b]) == (Sum2(d) + Sum1(d + [b])) % BASE
  {
    var e := d + [b];
    assert e[..|e| - 1] == d && e[|e| - 1] == b;
  }

  lemma TwoReductions(x: nat, y: nat)
    ensures (x % BASE + y % BASE) % BASE == (x + y) % BASE
  {
    ReduceLate(x, y % BASE);
    ReduceLate(y, x);
  }

  lemma Reduced(s1: nat, s2: nat, d: seq<byte>)
    requires Stands(s1, s2, d) && s1 < 2 * BASE
    ensures Stands(if s1 >= BASE then s1 - BASE else s1, s2, d) && Stands(s1, s2 % BASE, d)
  {
  }

  // ---------- what the sums are ----------

  function Total(d: seq<byte>): nat {
    if d == [] then 0 else d[0] + Total(d[1..])
  }

  /** Every byte counts once for itself and once for each byte after it. */
  function Weighted(d: seq<byte>): nat {
    if d == [] then 0 else Arithmetic.MulNonneg(|d|, d[0]); |d| * d[0] + Weighted(d[1..])
  }

  lemma {:induction false} AppendByte(d: seq<byte>, b: byte)
    ensures Total(d + [b]) == Total(d) + b && Weighted(d + [b]) == Weighted(d) + Total(d) + b
  {
    if d == [] {
      assert d + [b] == [b] && [b][1..] == [];
    } else {
      assert (d + [b])[1..] == d[1..] + [b];
      AppendByte(d[1..], b);
      Arithmetic.Distribute(|d|, 1, d[0]);
    }
  }

  /** Section 8.2 of RFC 1950: A is 1 plus the sum of the bytes, B the sum of all values of A, modulo 65521. */
  lemma {:induction false} SumsAre(d: seq<byte>)
    ensures Sum1(d) == (1 + Total(d)) % 65521 && Sum2(d) == (|d| + Weighted(d)) % 65521
  {
    if d != [] {
      var rest, b := d[..|d| - 1], d[|d| - 1];
      assert d == rest + [b];
      SumsAre(rest);
      AppendByte(rest, b);
      assert Stands(1 + Total(rest), |rest| + Weighted(rest), rest);
      NextByte(1 + Total(rest), |rest| + Weighted(rest), rest, b);
      assert |rest| + Weighted(rest) + (1 + Total(rest) + b) == |d| + Weighted(d);
    }
  }

  lemma {:induction false} DigestExamples()
    ensures Digest([]) == [0, 0, 0, 1]
    ensures Digest([0x57, 0x69, 0x6b, 0x69, 0x70, 0x65, 0x64, 0x69, 0x61]) == [0x11, 0xe6, 0x03, 0x98]
  {
    assert Digest([]) == [0, 0, 0, 1];
    assert Stands(1, 0, []);
    SumsOfExample();
    DigestOctets([0x57, 0x69, 0x6b, 0x69, 0x70, 0x65, 0x64, 0x69, 0x61]);
  }

  lemma {:induction false} SumsOfExample()
    ensures Sum1([0x57, 0x69, 0x6b, 0x69, 0x70, 0x65, 0x64, 0x69, 0x61]) == 920
    ensures Sum2([0x57, 0x69, 0x6b, 0x69, 0x70, 0x65, 0x64, 0x69, 0x61]) == 4582
  {
    var d: seq<byte> := [0x57, 0x69, 0x6b, 0x69, 0x70, 0x65, 0x64, 0x69, 0x61];
    hide Sum1, Sum2, Stands;
    FourBytes(d);
    NextPrefix(405, 986, d, 4);
    NextPrefix(517, 1503, d, 5);
    NextPrefix(618, 2121, d, 6);
    NextPrefix(718, 2839, d, 7);
    NextPrefix(823, 3662, d, 8);
    assert d[..9] == d;
    StandsForItself(920, 4582, d);
  }

  lemma {:induction false} FourBytes(d: seq<byte>)
    requires |d| == 9 && d[0] == 0x57 && d[1] == 0x69 && d[2] == 0x6b && d[3] == 0x69
    ensures Stands(405, 986, d[..4])
  {
    assert Stands(1, 0, d[..0]);
    hide Sum1, Sum2, Stands;
    NextPrefix(1, 0, d, 0);
    NextPrefix(88, 88, d, 1);
    NextPrefix(193, 281, d, 2);
    NextPrefix(300, 581, d, 3);
  }

  lemma StandsForItself(s1: nat, s2: nat, d: seq<byte>)
    requires Stands(s1, s2, d) && s1 < BASE && s2 < BASE
    ensures Sum1(d) == s1 && Sum2(d) == s2
  {
  }

  lemma NextPrefix(s1: nat, s2: nat, d: seq<byte>, k: nat)
    requires k < |d| && Stands(s1, s2, d[..k])
    ensures Stands(s1 + d[k], s2 + (s1 + d[k]), d[..k + 1])
  {
    NextByte(s1, s2, d[..k], d[k]);
    assert d[..k] + [d[k]] == d[..k + 1];
  }

  /** An addition of the code: the operands never carry out of 32 bits. */
  function Add32(a: nat, b: nat): (s: nat)
    requires a + b < 0x1_0000_0000
    ensures s == a + b
  {
    a + b
  }

  /** How many blocks went by since the second sum was reduced, when length bytes are left. */
  ghost predicate Since(length: nat, since: nat, left: nat) {
    && length % 0x8000 == 8 * left
    && left < 0x1000
    && (if left == 0 then since == 0 else since + left <= 0x1000)
  }

  lemma StartBlocks(length: nat) returns (left: nat)
    requires length % 8 == 0
    ensures Since(length, 0, left)
  {
    left := length % 0x8000 / 8;
  }

  lemma NextBlock(length: nat, since: nat, left: nat) returns (since': nat, left': nat)
    requires length >= 8 && Since(length, since, left)
    ensures since < 0x1000
    ensures since' == if (length - 8) % 0x8000 == 0 then 0 else since + 1
    ensures Since(length - 8, since', left')
  {
    left' := if left == 0 then 0xfff else left - 1;
    assert (length - 8) % 0x8000 == 8 * left' by {
      Arithmetic.DivMod(length, 0x8000);
      Arithmetic.DivModUnique(length - 8, 0x8000,
                              if left == 0 then length / 0x8000 - 1 else length / 0x8000, 8 * left');
    }
    since' := if left' == 0 then 0 else since + 1;
  }

  class Adler32 {
    var s1: nat
    var s2: nat
    ghost var data: seq<byte>

    ghost predicate Valid()
      reads this
    {
      s1 == Sum1(data) && s2 == Sum2(data)
    }

    constructor ()
      ensures Valid() && data == []
    {
      s1, s2, data := 1, 0, [];
    }

    method Reset()
      modifies this
      ensures Valid() && data == []
    {
      s1, s2, data := 1, 0, [];
    }

    /** Any split of the data into calls gives the sums over all of it. */
    method Update(input: seq<byte>)
      requires Valid()
      modifies this
      ensures Valid() && data == old(data) + input
    {
      hide Sum1, Sum2;
      var t1, t2, i := s1, s2, 0;
      assert data + input[..0] == data;
      if |input| % 8 != 0 {
        t1, t2, i := Head(t1, t2, data, input);
      }
      t1, t2 := Blocks(t1, t2, data, input, i);
      s1, s2 := t1, t2;
      data := data + input;
    }

    /** The first size bytes, high octet first, of the second sum followed by the first; then a fresh start. */
    method TruncatedFinal(hash: array<byte>, size: nat) returns (ok: bool)
      requires Valid() && hash.Length >= size
      modifies this, hash
      ensures ok == (size <= 4)
      ensures ok ==> Valid() && data == [] && hash[..size] == old(Digest(data)[..size])
      ensures !ok ==> Valid() && data == old(data) && hash[..] == old(hash[..])
      ensures forall k :: size <= k < hash.Length ==> hash[k] == old(hash[k])
    {
      if size > 4 {
        return false;
      }
      DigestOctets(data);
      if size >= 4 {
        hash[3] := s1 % 0x100;
      }
      if size >= 3 {
        hash[2] := s1 / 0x100;
      }
      if size >= 2 {
        hash[1] := s2 % 0x100;
      }
      if size >= 1 {
        hash[0] := s2 / 0x100;
      }
      Reset();
      ok := true;
    }
  }

  /** The bytes before a multiple of eight is left: one subtraction is enough for the first sum. */
  method Head(a: nat, b: nat, ghost data: seq<byte>, input: seq<byte>) returns (t1: nat, t2: nat, i: nat)
    requires a < BASE && b < BASE && |input| % 8 != 0 && Stands(a, b, data)
    ensures i <= |input| && (|input| - i) % 8 == 0
    ensures t1 < BASE && t2 < BASE && Stands(t1, t2, data + input[..i])
  {
    hide Stands;
    t1, t2, i := a, b, 0;
    var length: nat := |input|;
    ghost var d := data;
    assert data + input[..0] == data;
    while length % 8 != 0
      invariant i + length == |input| && d == data + input[..i]
      invariant i <= |input| % 8 == length % 8 + i
      invariant t1 < BASE + 255 * i && t2 < BASE + 67561 * i
      invariant Stands(t1, t2, d)
    {
      NextByte(t1, t2, d, input[i]);
      d := d + [input[i]];
      t1 := Add32(t1, input[i]);
      t2 := Add32(t2, t1);
      i := i + 1;
      length := length - 1;
    }
    Reduced(t1, t2, d);
    if t1 >= BASE {
      t1 := t1 - BASE;
    }
    Reduced(t1, t2, d);
    t2 := t2 % BASE;
  }

  /** Eight bytes at a time; the second sum is reduced only when a multiple of 0x8000 bytes is left. */
  method Blocks(a: nat, b: nat, ghost data: seq<byte>, input: seq<byte>, from: nat) returns (t1: nat, t2: nat)
    requires from <= |input| && (|input| - from) % 8 == 0
    requires a < BASE && b < BASE && Stands(a, b, data + input[..from])
    ensures t1 < BASE && t2 < BASE && Stands(t1, t2, data + input)
  {
    hide Stands, Since;
    t1, t2 := a, b;
    var i: nat, length: nat := from, |input| - from;
    ghost var since: nat := 0;
    ghost var left := StartBlocks(length);
    while length > 0
      invariant i + length == |input| && length % 8 == 0
      invariant Since(length, since, left)
      invariant t1 < BASE && t2 < BASE + since * 540488
      invariant length == 0 ==> t2 < BASE
      invariant Stands(t1, t2, data + input[..i])
    {
      ghost var since', left' := NextBlock(length, since, left);
      t1, t2 := EightBytes(t1, t2, data + input[..i], input, i, since);
      assert data + input[..i] + input[i..i + 8] == data + input[..i + 8];
      length := length - 8;
      i := i + 8;
      Reduced(t1, t2, data + input[..i]);
      if t1 >= BASE {
        t1 := t1 - BASE;
      }
      if length % 0x8000 == 0 {
        Reduced(t1, t2, data + input[..i]);
        t2 := t2 % BASE;
      }
      since, left := since', left';
    }
    assert input[..i] == input;
  }

  method EightBytes(a: nat, b: nat, ghost data: seq<byte>, input: seq<byte>, i: nat, ghost since: nat)
    returns (t1: nat, t2: nat)
    requires i + 8 <= |input| && since < 0x1000
    requires a < BASE && b < BASE + since * 540488 && Stands(a, b, data)
    ensures t1 < 2 * BASE && t2 < BASE + (since + 1) * 540488
    ensures Stands(t1, t2, data + input[i..i + 8])
  {
    hide Stands;
    t1, t2 := a, b;
    assert data + input[i..i] == data;
    for k := 0 to 8
      invariant t1 < BASE + 255 * k && t2 <= b + 67561 * k
      invariant Stands(t1, t2, data + input[i..i + k])
    {
      NextByte(t1, t2, data + input[i..i + k], input[i + k]);
      assert data + input[i..i + k + 1] == data + input[i..i + k] + [input[i + k]];
      t1 := Add32(t1, input[i + k]);
      t2 := Add32(t2, t1);
    }
  }
}
