/** What the blocks of CCM are for: whoever reads them can tell nonce, header and message apart. */
module CcmEncoding {
  import opened Arithmetic
  import opened BlockCiphers
  import opened Ccm
  import opened OctetValues
  import opened Octets

  // ---------- the first octet ----------

  /** The fields of the flags: a header or none, the length of the tag, and the width of the message length. */
  lemma FlagFields(p: Parameters)
    requires p.Valid()
    ensures var b := FirstBlock(p)[0];
            && b & 0x80 == 0 && (b & 0x40 != 0 <==> p.headerLength > 0)
            && ((b >> 3) & 7) as nat == (p.tagLength - 2) / 2 && (b & 7) as nat == 14 - |p.nonce|
  {
    hide Value, Octet, BigEndian;
    var x, y, z := if p.headerLength > 0 then 1 else 0, (p.tagLength - 2) / 2, 14 - |p.nonce|;
    ValueOfOctet(64 * x + 8 * y + z);
    FieldsOf(FirstBlock(p)[0]);
    FieldValues(x, y, z);
  }

  lemma FieldsOf(b: bv8)
    ensures (b & 0x80 != 0 <==> Value(b) / 128 == 1) && (b & 0x40 != 0 <==> Value(b) / 64 % 2 == 1)
    ensures ((b >> 3) & 7) as nat == Value(b) / 8 % 8 && (b & 7) as nat == Value(b) % 8
  {
    UpperFields(b);
    MiddleField(b);
    LowField(b);
    hide Value;
  }

  lemma UpperFields(b: bv8)
    ensures (b & 0x80 != 0 <==> Value(b) / 128 == 1) && (b & 0x40 != 0 <==> Value(b) / 64 % 2 == 1)
  {
  }

  lemma MiddleField(b: bv8)
    ensures ((b >> 3) & 7) as nat == Value(b) / 8 % 8
  {
  }

  lemma LowField(b: bv8)
    ensures (b & 7) as nat == Value(b) % 8
  {
  }

  lemma FieldValues(x: nat, y: nat, z: nat)
    requires x < 2 && y < 8 && z < 8
    ensures var v := 64 * x + 8 * y + z; v / 128 == 0 && v / 64 % 2 == x && v / 8 % 8 == y && v % 8 == z
  {
  }

  /** Which nonces and tags there are. */
  lemma Ranges(n: nat)
    ensures NonceLength(n) <==> n in {7, 8, 9, 10, 11, 12, 13}
    ensures TagLength(n) <==> n in {4, 6, 8, 10, 12, 14, 16}
  {
  }

  // ---------- no two messages are confused ----------

  /** Lengths that were declared and met. */
  ghost predicate Complete(p: Parameters, header: seq<bv8>, message: seq<bv8>) {
    && p.Valid() && p.headerLength == |header| < Pow256(8) && p.messageLength == |message| < Pow256(15 - |p.nonce|)
  }

  predicate IsPrefix(a: seq<bv8>, b: seq<bv8>) {
    |a| <= |b| && a == b[..|a|]
  }

  /** If one string of blocks is the start of another, they stand for the same nonce, header and message. */
  lemma PrefixFree(p: Parameters, h: seq<bv8>, m: seq<bv8>, q: Parameters, k: seq<bv8>, n: seq<bv8>)
    requires Complete(p, h, m) && Complete(q, k, n) && IsPrefix(AuthString(p, h, m), AuthString(q, k, n))
    ensures p.nonce == q.nonce && h == k && m == n && p.tagLength == q.tagLength
  {
    hide FirstBlock, Prefix, Pad, Pow256;
    var s, t := Pad(Prefix(|h|) + h), Pad(Prefix(|k|) + k);
    assert AuthString(p, h, m) == FirstBlock(p) + (s + Pad(m)) && AuthString(q, k, n) == FirstBlock(q) + (t + Pad(n));
    CutPrefix(FirstBlock(p), s + Pad(m), FirstBlock(q), t + Pad(n));
    FirstBlockTells(p, q);
    HeaderTells(h, Pad(m), k, Pad(n));
    PadTells(m, n);
  }

  lemma CutPrefix(a: seq<bv8>, b: seq<bv8>, c: seq<bv8>, d: seq<bv8>)
    requires |a| == |c| && IsPrefix(a + b, c + d)
    ensures a == c && IsPrefix(b, d)
  {
    assert a == (a + b)[..|a|] && c == (c + d)[..|a|] && b == (a + b)[|a|..] && d == (c + d)[|a|..];
    assert (c + d)[..|a + b|][..|a|] == c && (c + d)[..|a + b|][|a|..] == d[..|b|];
  }

  lemma FirstBlockTells(p: Parameters, q: Parameters)
    requires p.Valid() && q.Valid() && FirstBlock(p) == FirstBlock(q)
    requires p.messageLength < Pow256(15 - |p.nonce|) && q.messageLength < Pow256(15 - |q.nonce|)
    ensures p.nonce == q.nonce && p.messageLength == q.messageLength && p.tagLength == q.tagLength
    ensures p.headerLength > 0 <==> q.headerLength > 0
  {
    hide Flags, BigEndian, Pow256;
    FlagFields(p);
    FlagFields(q);
    var w, b := |p.nonce|, FirstBlock(p);
    assert |q.nonce| == w;
    assert b[1..1 + w] == p.nonce && b[1..1 + w] == q.nonce;
    assert b[1 + w..] == BigEndian(p.messageLength, 15 - w) && b[1 + w..] == BigEndian(q.messageLength, 15 - w);
    ValueOfBigEndian(p.messageLength, 15 - w);
    ValueOfBigEndian(q.messageLength, 15 - w);
  }

  /** The length prefix tells how long the header is, if there is one. */
  lemma HeaderTells(h: seq<bv8>, a: seq<bv8>, k: seq<bv8>, b: seq<bv8>)
    requires |h| < Pow256(8) && |k| < Pow256(8) && (h == [] <==> k == [])
    requires IsPrefix(Pad(Prefix(|h|) + h) + a, Pad(Prefix(|k|) + k) + b)
    ensures h == k && IsPrefix(a, b)
  {
    hide Prefix, Pad, Pow256;
    var x, y := Prefix(|h|) + h, Prefix(|k|) + k;
    PadStarts(x);
    PadStarts(y);
    if h != [] {
      PrefixTells(|h|, |k|, (h + Pad(x)[|x|..]) + a, (k + Pad(y)[|y|..]) + b) by {
        PrefixIn(x, Pad(x), Prefix(|h|), h, a);
        PrefixIn(y, Pad(y), Prefix(|k|), k, b);
      }
    } else {
      assert Prefix(0) == [] by { NoHeader(); }
    }
    PadLength(x, y);
    CutPrefix(Pad(x), a, Pad(y), b);
    assert h == Pad(x)[..|x|][|Prefix(|h|)|..] && k == Pad(y)[..|y|][|Prefix(|k|)|..];
  }

  lemma NoHeader()
    ensures Prefix(0) == []
  {
  }

  lemma PadStarts(x: seq<bv8>)
    ensures |Pad(x)| >= |x| && Pad(x)[..|x|] == x
  {
  }

  lemma PadLength(x: seq<bv8>, y: seq<bv8>)
    ensures |x| == |y| ==> |Pad(x)| == |Pad(y)|
  {
  }

  lemma PadTells(m: seq<bv8>, n: seq<bv8>)
    requires |m| == |n| && IsPrefix(Pad(m), Pad(n))
    ensures m == n
  {
    hide Pad;
    PadStarts(m);
    PadStarts(n);
    PadLength(m, n);
  }

  lemma PrefixIn(x: seq<bv8>, padded: seq<bv8>, prefix: seq<bv8>, h: seq<bv8>, a: seq<bv8>)
    requires x == prefix + h && |padded| >= |x| && padded[..|x|] == x
    ensures padded + a == prefix + ((h + padded[|x|..]) + a)
  {
    assert padded == x + padded[|x|..];
  }

  /** Two encodings of lengths, with anything behind them, agree only if the lengths do. */
  lemma PrefixTells(x: nat, y: nat, a: seq<bv8>, b: seq<bv8>)
    requires 0 < x < Pow256(8) && 0 < y < Pow256(8) && IsPrefix(Prefix(x) + a, Prefix(y) + b)
    ensures x == y
  {
    hide BigEndian, Pow256, Octet, Value;
    PrefixStarts(x);
    PrefixStarts(y);
    var s, t := Prefix(x) + a, Prefix(y) + b;
    assert |s| >= 2 && s[0] == t[0] && s[1] == t[1];
    assert |Prefix(x)| == |Prefix(y)|;
    CutPrefix(Prefix(x), a, Prefix(y), b);
    PrefixInjective(x, y);
  }

  /** A length of two octets does not start with ff; the longer ones do, and the next octet says which they are. */
  lemma PrefixStarts(x: nat)
    requires 0 < x < Pow256(8)
    ensures |Prefix(x)| >= 2
    ensures x < 0xff00 ==> Prefix(x)[0] != 0xff && |Prefix(x)| == 2
    ensures 0xff00 <= x < 0x1_0000_0000 ==> Prefix(x)[0] == 0xff && Prefix(x)[1] == 0xfe && |Prefix(x)| == 6
    ensures 0x1_0000_0000 <= x ==> Prefix(x)[0] == 0xff && Prefix(x)[1] == 0xff && |Prefix(x)| == 10
  {
    if x < 0xff00 {
      assert BigEndian(x, 2) == BigEndian(x / 256, 1) + [Octet(x % 256)];
      assert BigEndian(x / 256, 1) == [Octet(x / 256 % 256)];
      ValueOfOctet(x / 256);
      assert Value(0xff) == 255;
    }
  }

  lemma PrefixInjective(x: nat, y: nat)
    requires 0 < x < Pow256(8) && 0 < y < Pow256(8) && Prefix(x) == Prefix(y)
    ensures x == y
  {
    PrefixStarts(x);
    PrefixStarts(y);
    assert Pow256(2) == 0x1_0000 && Pow256(4) == 0x1_0000_0000;
    hide BigEndian, Pow256;
    var n := if x < 0xff00 then 2 else if x < 0x1_0000_0000 then 4 else 8;
    var l := Prefix(x)[|Prefix(x)| - n..];
    assert l == BigEndian(x, n) && l == BigEndian(y, n);
    ValueOfBigEndian(x, n);
    ValueOfBigEndian(y, n);
  }

  // ---------- no two blocks of the key stream are the same ----------

  lemma CountersDiffer(a: seq<bv8>, i: nat, b: seq<bv8>, j: nat)
    requires NonceLength(|a|) && NonceLength(|b|) && i < Pow256(15 - |a|) && j < Pow256(15 - |b|)
    requires CounterBlock(a, i) == CounterBlock(b, j)
    ensures a == b && i == j
  {
    ValueOfOctet(14 - |a|);
    ValueOfOctet(14 - |b|);
    hide BigEndian, Pow256, Octet, Value;
    var x, w := CounterBlock(a, i), |a|;
    assert x[0] == Octet(14 - |a|) == Octet(14 - |b|);
    assert x[1..1 + w] == a && x[1..1 + w] == b;
    assert x[1 + w..] == BigEndian(i, 15 - w) && x[1 + w..] == BigEndian(j, 15 - w);
    ValueOfBigEndian(i, 15 - w);
    ValueOfBigEndian(j, 15 - w);
  }

  /** The flags of a counter block hold the width of the counter and nothing else, so it is never a first block. */
  lemma CounterIsNoFirstBlock(nonce: seq<bv8>, i: nat, p: Parameters)
    requires NonceLength(|nonce|) && p.Valid()
    ensures var b := CounterBlock(nonce, i)[0]; b & 0xf8 == 0 && (b & 7) as nat == 14 - |nonce|
    ensures CounterBlock(nonce, i) != FirstBlock(p)
  {
    ValueOfOctet(14 - |nonce|);
    FieldsOf(CounterBlock(nonce, i)[0]);
    UpperBits(CounterBlock(nonce, i)[0]);
    FlagFields(p);
    hide BigEndian, Octet, Value, Flags, FirstBlock;
    var b := CounterBlock(nonce, i)[0];
    assert Value(b) == 14 - |nonce|;
    assert ((b >> 3) & 7) as nat == 0 && ((FirstBlock(p)[0] >> 3) & 7) as nat == (p.tagLength - 2) / 2 > 0;
  }

  lemma UpperBits(b: bv8)
    ensures b & 0xf8 == 0 <==> Value(b) < 8
  {
  }

  // ---------- the tag and the ciphertext ----------

  /** The tag is the end of the chain, masked with the cipher of counter block 0. */
  lemma TagIsMasked(c: BlockCipher, p: Parameters, header: seq<bv8>, message: seq<bv8>)
    requires c.Valid() && c.blockSize == 16 && p.Valid()
    ensures Tag(c, p, header, message)
         == XorOctets(Chain(c, AuthString(p, header, message)), c.encrypt(CounterBlock(p.nonce, 0)))
  {
    hide CounterBlock, Chain, AuthString, XorOctets;
    assert KeyStream(c, p.nonce, 0, 16) == c.encrypt(CounterBlock(p.nonce, 0));
  }

  /** Octet i of a message is masked with the cipher of counter block i / 16 + 1. */
  lemma MessageIsMasked(c: BlockCipher, nonce: seq<bv8>, text: seq<bv8>, i: nat)
    requires c.Valid() && c.blockSize == 16 && NonceLength(|nonce|) && i < |text|
    ensures Crypt(c, nonce, text)[i] == text[i] ^ c.encrypt(CounterBlock(nonce, i / 16 + 1))[i % 16]
  {
    hide CounterBlock;
  }

  // ---------- packet vector 1 of section 8 of RFC 3610 ----------

  function Nonce(): seq<bv8> {
    [0, 0, 0, 3, 2, 1, 0, 0xa0, 0xa1, 0xa2, 0xa3, 0xa4, 0xa5]
  }

  lemma VectorBlocks()
    ensures FirstBlock(Parameters(Nonce(), 8, 8, 23))
         == [0x59, 0, 0, 0, 3, 2, 1, 0, 0xa0, 0xa1, 0xa2, 0xa3, 0xa4, 0xa5, 0, 0x17]
    ensures CounterBlock(Nonce(), 1) == [1, 0, 0, 0, 3, 2, 1, 0, 0xa0, 0xa1, 0xa2, 0xa3, 0xa4, 0xa5, 0, 1]
    ensures Prefix(8) == [0, 8]
  {
    hide BigEndian, Octet;
    BigEndianPair(23);
    BigEndianPair(8);
    BigEndianPair(1);
    SmallOctets();
  }

  lemma SmallOctets()
    ensures Octet(0) == 0 && Octet(1) == 1 && Octet(8) == 8 && Octet(0x17) == 0x17 && Octet(0x59) == 0x59
  {
  }

  lemma {:induction false} BigEndianPair(v: nat)
    requires v < 256
    ensures BigEndian(v, 2) == [Octet(0), Octet(v)]
  {
    hide Octet;
    assert BigEndian(v, 2) == BigEndian(0, 1) + [Octet(v % 256)] && BigEndian(0, 1) == [] + [Octet(0)];
  }

  lemma VectorString(header: seq<bv8>, message: seq<bv8>)
    requires header == [0, 1, 2, 3, 4, 5, 6, 7]
    requires message == [8, 9, 0xa, 0xb, 0xc, 0xd, 0xe, 0xf, 0x10, 0x11, 0x12, 0x13, 0x14, 0x15, 0x16, 0x17]
                      + [0x18, 0x19, 0x1a, 0x1b, 0x1c, 0x1d, 0x1e]
    ensures AuthString(Parameters(Nonce(), 8, 8, 23), header, message)
         == [0x59, 0, 0, 0, 3, 2, 1, 0, 0xa0, 0xa1, 0xa2, 0xa3, 0xa4, 0xa5, 0, 0x17]
          + [0, 8, 0, 1, 2, 3, 4, 5, 6, 7, 0, 0, 0, 0, 0, 0]
          + [8, 9, 0xa, 0xb, 0xc, 0xd, 0xe, 0xf, 0x10, 0x11, 0x12, 0x13, 0x14, 0x15, 0x16, 0x17]
          + [0x18, 0x19, 0x1a, 0x1b, 0x1c, 0x1d, 0x1e, 0, 0, 0, 0, 0, 0, 0, 0, 0]
  {
    VectorBlocks();
    hide FirstBlock, Prefix, Nonce, Pad;
    PadIs([0, 8] + header, [0, 0, 0, 0, 0, 0]);
    PadIs(message, [0, 0, 0, 0, 0, 0, 0, 0, 0]);
    assert [0, 8] + header + [0, 0, 0, 0, 0, 0] == [0, 8, 0, 1, 2, 3, 4, 5, 6, 7, 0, 0, 0, 0, 0, 0];
  }

  lemma PadIs(s: seq<bv8>, zeros: seq<bv8>)
    requires |zeros| < 16 && (|s| + |zeros|) % 16 == 0 && forall i :: 0 <= i < |zeros| ==> zeros[i] == 0
    ensures Pad(s) == s + zeros
  {
  }
}
