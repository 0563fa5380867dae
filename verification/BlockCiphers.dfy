/** A keyed block cipher: an arbitrary function on blocks. */
module BlockCiphers {
  import opened Octets

  datatype BlockCipher = BlockCipher(blockSize: nat, encrypt: seq<bv8> -> seq<bv8>) {

    ghost predicate Valid() {
      && blockSize > 0
      && forall x :: |x| == blockSize ==> |encrypt(x)| == blockSize
    }
  }

  /** xorbuf(x + at, t): the octets of t are added to those of x from position at on. */
  function XorAt(x: seq<bv8>, at: nat, t: seq<bv8>): (y: seq<bv8>)
    requires at + |t| <= |x|
    ensures |y| == |x|
  {
    seq(|x|, i requires 0 <= i < |x| => if at <= i < at + |t| then XorOctet(x[i], t[i - at]) else x[i])
  }

  lemma XorAtAppend(x: seq<bv8>, t: seq<bv8>, u: seq<bv8>)
    requires |t| + |u| <= |x|
    ensures XorAt(XorAt(x, 0, t), |t|, u) == XorAt(x, 0, t + u)
  {
    hide XorOctet;
  }

  lemma XorAtNothing(x: seq<bv8>)
    ensures XorAt(x, 0, []) == x
  {
  }

  lemma XorAtAll(x: seq<bv8>, t: seq<bv8>)
    requires |x| == |t|
    ensures XorAt(x, 0, t) == XorOctets(x, t)
  {
  }

  /** The CBC chain over whole blocks, from a zero block. */
  ghost function Chain(c: BlockCipher, data: seq<bv8>): (x: seq<bv8>)
    requires c.Valid()
    ensures |x| == c.blockSize
  {
    if |data| < c.blockSize then ZeroOctets(c.blockSize)
    else
      var rest := |data| - c.blockSize;
      c.encrypt(XorOctets(Chain(c, data[..rest]), data[rest..]))
  }

  lemma ChainNext(c: BlockCipher, data: seq<bv8>, block: seq<bv8>)
    requires c.Valid() && |block| == c.blockSize
    ensures Chain(c, data + block) == c.encrypt(XorAt(Chain(c, data), 0, block))
  {
    assert (data + block)[..|data|] == data && (data + block)[|data|..] == block;
    XorAtAll(Chain(c, data), block);
  }

  /** Cipher block chaining: the first block is enciphered, and each one after it is added to the block before. */
  lemma ChainIs(c: BlockCipher, data: seq<bv8>, block: seq<bv8>)
    requires c.Valid() && |block| == c.blockSize
    ensures Chain(c, block) == c.encrypt(block)
    ensures Chain(c, data + block) == c.encrypt(XorOctets(Chain(c, data), block))
  {
    ChainNext(c, data, block);
    XorAtAll(Chain(c, data), block);
    assert block == block[0..] && block[..0] == [];
    forall i | 0 <= i < |block|
      ensures XorOctet(0, block[i]) == block[i]
    {
      XorOctetLaws(block[i], 0, 0);
    }
    assert XorOctets(ZeroOctets(c.blockSize), block) == block;
  }

  /** memcpy */
  method CopyInto(k: array<bv8>, at: nat, t: seq<bv8>)
    requires at + |t| <= k.Length
    modifies k
    ensures k[..at] == old(k[..at]) && k[at..at + |t|] == t && k[at + |t|..] == old(k[at + |t|..])
  {
    for i := 0 to |t|
      invariant forall j :: 0 <= j < k.Length ==> k[j] == if at <= j < at + i then t[j - at] else old(k[j])
    {
      k[at + i] := t[i];
    }
  }

  /** xorbuf */
  method XorBuf(k: array<bv8>, at: nat, input: array<bv8>, from: nat, len: nat)
    requires k != input && at + len <= k.Length && from + len <= input.Length
    modifies k
    ensures k[..] == XorAt(old(k[..]), at, input[from..from + len])
  {
    hide XorOctet;
    for i := 0 to len
      invariant forall j :: 0 <= j < k.Length ==>
        k[j] == if at <= j < at + i then XorOctet(old(k[j]), input[from + (j - at)]) else old(k[j])
    {
      k[at + i] := XorOctet(k[at + i], input[from + i]);
    }
  }
}
