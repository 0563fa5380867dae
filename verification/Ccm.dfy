/** Counter with CBC-MAC: authenticated encryption in both directions, for any split of header and message. */
module Ccm {
  import opened Arithmetic
  import opened BlockCiphers
  import opened OctetValues
  import opened Octets
  import opened Options

  // ---------- the definition: section 2 of RFC 3610 ----------

  predicate NonceLength(n: nat) {
    7 <= n <= 13
  }

  predicate TagLength(m: nat) {
    m % 2 == 0 && 4 <= m <= 16
  }

  /** The nonce, and what is declared before any data. */
  datatype Parameters = Parameters(nonce: seq<bv8>, tagLength: nat, headerLength: nat, messageLength: nat) {

    predicate Valid() {
      NonceLength(|nonce|) && TagLength(tagLength)
    }
  }

  /** The encoding of the header length; an empty header has none. */
  function Prefix(h: nat): seq<bv8> {
    if h == 0 then []
    else if h < 0xff00 then BigEndian(h, 2)
    else if h < 0x1_0000_0000 then [0xff, 0xfe] + BigEndian(h, 4)
    else [0xff, 0xff] + BigEndian(h, 8)
  }

  /** The first block: flags, nonce and message length, in as many octets as the nonce leaves. */
  function FirstBlock(p: Parameters): (b: seq<bv8>)
    requires p.Valid()
    ensures |b| == 16
  {
    [Flags(p)] + p.nonce + BigEndian(p.messageLength, 15 - |p.nonce|)
  }

  function Flags(p: Parameters): bv8
    requires p.Valid()
  {
    Octet(64 * (if p.headerLength > 0 then 1 else 0) + 8 * ((p.tagLength - 2) / 2) + (14 - |p.nonce|))
  }

  /** Zeros up to a multiple of sixteen octets. */
  function Pad(s: seq<bv8>): (p: seq<bv8>)
    ensures |p| % 16 == 0
  {
    if |s| % 16 == 0 then s else s + ZeroOctets(16 - |s| % 16)
  }

  function HeaderString(p: Parameters, header: seq<bv8>): (s: seq<bv8>)
    requires p.Valid()
  {
    FirstBlock(p) + Prefix(p.headerLength) + header
  }

  /** All the blocks that go through the CBC chain. */
  function AuthString(p: Parameters, header: seq<bv8>, message: seq<bv8>): seq<bv8>
    requires p.Valid()
  {
    FirstBlock(p) + Pad(Prefix(p.headerLength) + header) + Pad(message)
  }

  /** The i-th counter block. */
  function CounterBlock(nonce: seq<bv8>, i: nat): (a: seq<bv8>)
    requires NonceLength(|nonce|)
    ensures |a| == 16
  {
    [Octet(14 - |nonce|)] + nonce + BigEndian(i, 15 - |nonce|)
  }

  /** Octet p of the key stream, counted from block 0, which only the tag uses. */
  ghost function KeyOctet(c: BlockCipher, nonce: seq<bv8>, p: nat): bv8
    requires c.Valid() && c.blockSize == 16 && NonceLength(|nonce|)
  {
    c.encrypt(CounterBlock(nonce, p / 16))[p % 16]
  }

  ghost function KeyStream(c: BlockCipher, nonce: seq<bv8>, p: nat, n: nat): (k: seq<bv8>)
    requires c.Valid() && c.blockSize == 16 && NonceLength(|nonce|)
    ensures |k| == n
  {
    seq(n, i requires 0 <= i => KeyOctet(c, nonce, p + i))
  }

  /** The ciphertext of a message, and also the message of a ciphertext. */
  ghost function Crypt(c: BlockCipher, nonce: seq<bv8>, text: seq<bv8>): (t: seq<bv8>)
    requires c.Valid() && c.blockSize == 16 && NonceLength(|nonce|)
    ensures |t| == |text|
  {
    XorOctets(text, KeyStream(c, nonce, 16, |text|))
  }

  /** The tag before it is cut to length. */
  ghost function Tag(c: BlockCipher, p: Parameters, header: seq<bv8>, message: seq<bv8>): (t: seq<bv8>)
    requires c.Valid() && c.blockSize == 16 && p.Valid()
    ensures |t| == 16
  {
    XorOctets(Chain(c, AuthString(p, header, message)), KeyStream(c, p.nonce, 0, 16))
  }

  lemma CryptTwice(c: BlockCipher, nonce: seq<bv8>, text: seq<bv8>)
    requires c.Valid() && c.blockSize == 16 && NonceLength(|nonce|)
    ensures Crypt(c, nonce, Crypt(c, nonce, text)) == text
  {
    XorTwice(text, KeyStream(c, nonce, 16, |text|));
  }

  function Concat(pieces: seq<seq<bv8>>): seq<bv8> {
    if pieces == [] then [] else pieces[0] + Concat(pieces[1..])
  }

  /**
   The outputs of a run of ProcessData calls, joined: each call goes on from the position where the last one
   stopped.
   */
  ghost function ProcessPieces(c: BlockCipher, nonce: seq<bv8>, p: nat, pieces: seq<seq<bv8>>): seq<bv8>
    requires c.Valid() && c.blockSize == 16 && NonceLength(|nonce|)
    decreases pieces
  {
    if pieces == [] then []
    else
      var joined := ProcessPieces(c, nonce, p + |pieces[0]|, pieces[1..]);
      XorOctets(pieces[0], KeyStream(c, nonce, p, |pieces[0]|)) + joined
  }

  lemma {:induction false} PiecesAreWhole(c: BlockCipher, nonce: seq<bv8>, p: nat, pieces: seq<seq<bv8>>)
    requires c.Valid() && c.blockSize == 16 && NonceLength(|nonce|)
    ensures var text := Concat(pieces);
            ProcessPieces(c, nonce, p, pieces) == XorOctets(text, KeyStream(c, nonce, p, |text|))
    decreases pieces
  {
    hide KeyStream, XorOctets;
    if pieces == [] {
      assert |XorOctets([], KeyStream(c, nonce, p, 0))| == 0;
    } else {
      PiecesAreWhole(c, nonce, p + |pieces[0]|, pieces[1..]);
      JoinPieces(c, nonce, p, pieces[0], Concat(pieces[1..]));
    }
  }

  lemma JoinPieces(c: BlockCipher, nonce: seq<bv8>, p: nat, s: seq<bv8>, t: seq<bv8>)
    requires c.Valid() && c.blockSize == 16 && NonceLength(|nonce|)
    ensures XorOctets(s + t, KeyStream(c, nonce, p, |s + t|))
         == XorOctets(s, KeyStream(c, nonce, p, |s|)) + XorOctets(t, KeyStream(c, nonce, p + |s|, |t|))
  {
    hide XorOctet, KeyOctet;
  }

  /** Whatever pieces a message was sealed in, opening the result in any other pieces gives the message back. */
  lemma AnySplitOpens(c: BlockCipher, nonce: seq<bv8>, pieces: seq<seq<bv8>>, sealed: seq<seq<bv8>>)
    requires c.Valid() && c.blockSize == 16 && NonceLength(|nonce|)
    requires Concat(sealed) == ProcessPieces(c, nonce, 16, pieces)
    ensures ProcessPieces(c, nonce, 16, sealed) == Concat(pieces)
    ensures Concat(sealed) == Crypt(c, nonce, Concat(pieces))
  {
    hide KeyStream, XorOctets;
    PiecesAreWhole(c, nonce, 16, pieces);
    PiecesAreWhole(c, nonce, 16, sealed);
    CryptTwice(c, nonce, Concat(pieces));
  }

  // ---------- the counter mode object, which knows nothing of nonces ----------

  /** Incrementing a block as one number of sixteen octets. */
  function CtrBlock(start: seq<bv8>, i: nat): (b: seq<bv8>)
    requires |start| == 16
    ensures |b| == 16
  {
    BigEndian((FromBigEndian(start) + i) % Pow256(16), 16)
  }

  /** As long as the counter fits its octets it does not reach the nonce. */
  lemma CounterStaysInPlace(nonce: seq<bv8>, i: nat)
    requires NonceLength(|nonce|) && i < Pow256(15 - |nonce|)
    ensures CtrBlock(CounterBlock(nonce, 0), i) == CounterBlock(nonce, i)
  {
    hide Octet, BigEndian, FromBigEndian, Pow256;
    var b := CounterBlock(nonce, i);
    AddToLowOctets([Octet(14 - |nonce|)] + nonce, 15 - |nonce|, i);
    ValueBound(b);
    BigEndianOfValue(b);
    DivModUnique(FromBigEndian(b), Pow256(16), 0, FromBigEndian(b));
  }

  lemma AddToLowOctets(high: seq<bv8>, w: nat, i: nat)
    requires i < Pow256(w)
    ensures FromBigEndian(high + BigEndian(0, w)) + i == FromBigEndian(high + BigEndian(i, w))
  {
    ValueOfAppend(high, BigEndian(0, w));
    ValueOfAppend(high, BigEndian(i, w));
    ValueOfBigEndian(0, w);
    ValueOfBigEndian(i, w);
  }

  // ---------- what the buffer holds ----------

  /** After auth went in: whole blocks through the chain in the upper half, the rest waiting in the lower half. */
  ghost predicate Fed(c: BlockCipher, buffer: seq<bv8>, buffered: nat, auth: seq<bv8>)
    requires c.Valid() && c.blockSize == 16
  {
    && |buffer| == 32 && buffered < 16 && buffered <= |auth| && (|auth| - buffered) % 16 == 0
    && buffer[16..] == Chain(c, auth[..|auth| - buffered])
    && buffer[..buffered] == auth[|auth| - buffered..]
  }

  lemma FeedShort(c: BlockCipher, buffer: seq<bv8>, buffered: nat, auth: seq<bv8>, more: seq<bv8>, after: seq<bv8>)
    requires c.Valid() && c.blockSize == 16 && Fed(c, buffer, buffered, auth) && buffered + |more| < 16
    requires |after| == 32 && after[16..] == buffer[16..]
    requires after[..buffered] == buffer[..buffered] && after[buffered..buffered + |more|] == more
    ensures Fed(c, after, buffered + |more|, auth + more)
  {
    hide Chain;
    var h := |auth| - buffered;
    assert (auth + more)[..h] == auth[..h] && (auth + more)[h..] == auth[h..] + more;
    assert after[..buffered + |more|] == after[..buffered] + after[buffered..buffered + |more|];
  }

  /** A block that is completed by more octets. */
  lemma FeedBlock(c: BlockCipher, buffer: seq<bv8>, buffered: nat, auth: seq<bv8>, more: seq<bv8>, after: seq<bv8>)
    requires c.Valid() && c.blockSize == 16 && Fed(c, buffer, buffered, auth) && buffered + |more| == 16
    requires |after| == 32 && after[16..] == c.encrypt(XorAt(buffer[16..], 0, buffer[..buffered] + more))
    ensures Fed(c, after, 0, auth + more)
  {
    hide Chain, XorAt;
    var h := |auth| - buffered;
    ChainNext(c, auth[..h], auth[h..] + more);
    assert auth[..h] + (auth[h..] + more) == auth + more == (auth + more)[..|auth + more|];
  }

  /** The last, shorter block of a part: what is missing counts as zeros. */
  lemma FeedPadding(c: BlockCipher, buffer: seq<bv8>, buffered: nat, auth: seq<bv8>, after: seq<bv8>)
    requires c.Valid() && c.blockSize == 16 && Fed(c, buffer, buffered, auth)
    requires |after| == 32
    requires after[16..] == if buffered > 0 then c.encrypt(XorAt(buffer[16..], 0, buffer[..buffered])) else buffer[16..]
    ensures Fed(c, after, 0, Pad(auth))
  {
    hide Chain, XorAt;
    if buffered > 0 {
      ModOf(|auth|, buffered);
      XorAtZeros(buffer[16..], buffer[..buffered]);
      FeedBlock(c, buffer, buffered, auth, ZeroOctets(16 - buffered), after);
    } else {
      assert auth[..|auth|] == auth;
    }
  }

  lemma ModOf(n: nat, k: nat)
    requires k <= n && k < 16 && (n - k) % 16 == 0
    ensures n % 16 == k
  {
  }

  lemma XorAtZeros(x: seq<bv8>, t: seq<bv8>)
    requires |t| <= |x|
    ensures XorAt(x, 0, t) == XorAt(x, 0, t + ZeroOctets(|x| - |t|))
  {
    forall i | |t| <= i < |x|
      ensures x[i] == XorOctet(x[i], 0)
    {
      XorOctetLaws(x[i], 0, 0);
    }
    hide XorOctet;
  }

  /** Padding what follows whole blocks pads the whole. */
  lemma PadAfter(whole: seq<bv8>, s: seq<bv8>)
    requires |whole| % 16 == 0
    ensures Pad(whole + s) == whole + Pad(s)
  {
    assert |whole + s| % 16 == |s| % 16;
  }

  /**
   The buffer while the header goes in: the header string is in it, or also its padding, once the header is
   complete.
   */
  ghost predicate HeaderFed(c: BlockCipher, buffer: seq<bv8>, buffered: nat, p: Parameters, header: seq<bv8>)
    requires c.Valid() && c.blockSize == 16 && p.Valid()
  {
    || Fed(c, buffer, buffered, HeaderString(p, header))
    || (|header| == p.headerLength && buffered == 0 && Fed(c, buffer, 0, Pad(HeaderString(p, header))))
  }

  ghost predicate MessageFed(c: BlockCipher, buffer: seq<bv8>, buffered: nat, p: Parameters, header: seq<bv8>,
                             message: seq<bv8>)
    requires c.Valid() && c.blockSize == 16 && p.Valid()
  {
    Fed(c, buffer, buffered, Pad(HeaderString(p, header)) + message)
  }

  // ---------- the class ----------

  datatype State = Start | KeySet | IVSet | AuthUntransformed | AuthTransformed | AuthFooter {

    function Order(): nat {
      match this
      case Start => 0
      case KeySet => 1
      case IVSet => 2
      case AuthUntransformed => 3
      case AuthTransformed => 4
      case AuthFooter => 5
    }
  }

  datatype Outcome = Done | BadState | InvalidArgument

  /**
   Header and message so far, whether lengths were declared, once and first, whether they were declared again or
   too late, and how many octets failed calls counted but did not take.
   */
  datatype Given = Given(nonce: seq<bv8>, declared: bool, garbled: bool, header: seq<bv8>, message: seq<bv8>,
                         lost: nat) {

    predicate Fresh() {
      !declared && !garbled && header == []
    }
  }

  class CcmBase {
    const forward: bool
    var cipher: BlockCipher
    var state: State
    var digestSize: nat
    var l: nat
    var messageLength: nat
    var aadLength: nat
    var totalHeaderLength: nat
    var totalMessageLength: nat
    var totalFooterLength: nat
    var buffered: nat
    var buffer: array<bv8>
    /** The counter mode object: the block it started from, and its position in the key stream. */
    var ctrStart: seq<bv8>
    var ctrPosition: nat

    /** What was given since the nonce was set. */
    ghost var given: Given

    ghost predicate HasKey()
      reads this
    {
      cipher.Valid() && cipher.blockSize == 16 && TagLength(digestSize) && buffer.Length == 32
    }

    ghost predicate HasNonce()
      reads this
    {
      && HasKey() && NonceLength(|given.nonce|) && l == 15 - |given.nonce| && ctrStart == CounterBlock(given.nonce, 0)
      && totalHeaderLength == |given.header| && buffered < 16
      && messageLength < Pow256(l) && aadLength < Pow256(8)
      && totalMessageLength < Pow256(l)
      && (!given.declared && !given.garbled ==> aadLength == 0 && messageLength == 0)
    }

    ghost predicate Valid()
      reads this, buffer
    {
      && (state != Start ==> HasKey())
      && (state.Order() >= 2 ==> HasNonce())
      && (state == IVSet ==> HeaderPhase())
      && (state == AuthUntransformed || state == AuthTransformed ==> MessagePhase())
      && (state == AuthFooter ==> totalFooterLength > 0)
    }

    /** The header, and perhaps its padding, went in; a header longer than declared can never be finished. */
    ghost predicate HeaderPhase()
      requires HasNonce()
      reads this, buffer
    {
      && given.message == [] && ctrPosition == 16 && totalMessageLength == given.lost && totalFooterLength == 0
      && (given.declared && |given.header| <= aadLength ==>
          HeaderFed(cipher, buffer[..], buffered, Setting(), given.header))
      && (given.Fresh() ==> buffered == 0 && buffer[..16] == ctrStart)
    }

    ghost function Setting(): Parameters
      reads this
    {
      Parameters(given.nonce, digestSize, aadLength, messageLength)
    }

    ghost predicate MessagePhase()
      requires HasNonce()
      reads this, buffer
    {
      && state == (if forward then AuthUntransformed else AuthTransformed)
      && |given.header| == aadLength && totalFooterLength == 0
      && ctrPosition == 16 + |given.message| && totalMessageLength == |given.message| + given.lost
      && (given.declared ==> MessageFed(cipher, buffer[..], buffered, Setting(), given.header, given.message))
    }

    constructor (encrypts: bool, c: BlockCipher)
      ensures Valid() && state == Start && forward == encrypts && digestSize == 0 && fresh(buffer)
    {
      forward, cipher, state, digestSize, l := encrypts, c, Start, 0, 0;
      messageLength, aadLength := 0, 0;
      totalHeaderLength, totalMessageLength, totalFooterLength, buffered := 0, 0, 0, 0;
      buffer := new bv8[32](_ => 0);
      ctrStart, ctrPosition := [], 0;
      given := Given([], false, false, [], [], 0);
    }

    // ----- the CBC chain -----

    /** One block through the chain. */
    method AuthenticateBlock(block: seq<bv8>)
      requires HasKey() && |block| <= 16
      modifies buffer
      ensures buffer[..16] == old(buffer[..16])
      ensures buffer[16..] == cipher.encrypt(XorAt(old(buffer[16..]), 0, block))
    {
      CopyInto(buffer, 16, cipher.encrypt(XorAt(buffer[16..], 0, block)));
      assert buffer[16..32] == buffer[16..];
    }

    /** AdvancedProcessBlocks: all whole blocks of the data; the number of octets left is returned. */
    method AuthenticateBlocks(data: seq<bv8>, ghost fed: bool, ghost auth: seq<bv8>) returns (leftOver: nat)
      requires HasKey() && (fed ==> Fed(cipher, buffer[..], 0, auth))
      modifies buffer
      ensures leftOver < 16 && leftOver <= |data|
      ensures fed ==> Fed(cipher, buffer[..], 0, auth + data[..|data| - leftOver])
    {
      hide Fed;
      leftOver := |data|;
      assert auth + data[..0] == auth;
      while leftOver >= 16
        invariant leftOver <= |data|
        invariant fed ==> Fed(cipher, buffer[..], 0, auth + data[..|data| - leftOver])
      {
        ghost var before := buffer[..];
        ghost var done := |data| - leftOver;
        var block := data[|data| - leftOver..|data| - leftOver + 16];
        AuthenticateBlock(block);
        leftOver := leftOver - 16;
        if fed {
          assert before[..0] + block == block;
          FeedBlock(cipher, before, 0, auth + data[..done], block, buffer[..]);
          assert auth + data[..done] + block == auth + data[..done + 16];
        }
      }
    }

    method AuthenticateData(input: seq<bv8>, ghost fed: bool, ghost auth: seq<bv8>)
      requires HasKey() && buffered < 16 && (fed ==> Fed(cipher, buffer[..], buffered, auth))
      modifies this`buffered, buffer
      ensures buffered < 16 && (fed ==> Fed(cipher, buffer[..], buffered, auth + input))
    {
      hide Fed;
      if input == [] {
        assert auth + input == auth;
        return;
      }
      var rest, done := input, auth;
      if buffered > 0 {
        if buffered + |input| >= 16 {
          rest, done := CompleteBlock(input, fed, auth);
        } else {
          AppendToBuffer(input, fed, auth);
          return;
        }
      }
      if |rest| >= 16 {
        var leftOver := AuthenticateBlocks(rest, fed, done);
        done := done + rest[..|rest| - leftOver];
        rest := rest[|rest| - leftOver..];
      }
      assert done + rest == auth + input;
      AppendToBuffer(rest, fed, done);
    }

    method CompleteBlock(input: seq<bv8>, ghost fed: bool, ghost auth: seq<bv8>)
        returns (rest: seq<bv8>, ghost done: seq<bv8>)
      requires HasKey() && 0 < buffered < 16 <= buffered + |input| && (fed ==> Fed(cipher, buffer[..], buffered, auth))
      modifies this`buffered, buffer
      ensures buffered == 0 && done + rest == auth + input && (fed ==> Fed(cipher, buffer[..], 0, done))
    {
      hide Fed;
      ghost var before := buffer[..];
      var more := input[..16 - buffered];
      CopyInto(buffer, buffered, more);
      assert buffer[..16] == before[..buffered] + more && buffer[16..] == before[16..];
      AuthenticateBlock(buffer[..16]);
      if fed {
        FeedBlock(cipher, before, buffered, auth, more, buffer[..]);
      }
      rest := input[16 - buffered..];
      done := auth + more;
      buffered := 0;
      assert auth + more + rest == auth + input by {
        assert more + rest == input;
      }
    }

    /** memcpy of less than a block behind what waits in the buffer. */
    method AppendToBuffer(input: seq<bv8>, ghost fed: bool, ghost auth: seq<bv8>)
      requires HasKey() && buffered + |input| < 16 && (fed ==> Fed(cipher, buffer[..], buffered, auth))
      modifies this`buffered, buffer
      ensures buffered == old(buffered) + |input| && (fed ==> Fed(cipher, buffer[..], buffered, auth + input))
    {
      hide Fed;
      ghost var before := buffer[..];
      CopyInto(buffer, buffered, input);
      if fed {
        Behind(before, buffer[..], buffered, input);
        FeedShort(cipher, before, buffered, auth, input, buffer[..]);
      }
      buffered := buffered + |input|;
    }

    /** What both AuthenticateLastHeaderBlock and AuthenticateLastConfidentialBlock do when the lengths agree. */
    method FlushBuffer(ghost fed: bool, ghost auth: seq<bv8>)
      requires HasKey() && buffered < 16 && (fed ==> Fed(cipher, buffer[..], buffered, auth))
      modifies this`buffered, buffer
      ensures buffered == 0 && (fed ==> Fed(cipher, buffer[..], 0, Pad(auth)))
      ensures buffer[..16] == old(buffer[..16])
    {
      hide Fed;
      ghost var before := buffer[..];
      if buffered > 0 {
        AuthenticateBlock(buffer[..buffered]);
      }
      if fed {
        FeedPadding(cipher, before, buffered, auth, buffer[..]);
      }
      buffered := 0;
    }

    // ----- the counter mode -----

    /** Octets from the position of the counter mode object on are added to the input, which may be the output. */
    method CtrProcessData(output: array<bv8>, input: array<bv8>, from: nat, length: nat)
      requires HasNonce() && length <= output.Length && from + length <= input.Length
      requires output == input ==> from == 0
      requires ctrPosition + length <= 16 * Pow256(l)
      modifies this`ctrPosition, output
      ensures ctrPosition == old(ctrPosition) + length
      ensures output[..length] ==
        XorOctets(old(input[from..from + length]), KeyStream(cipher, given.nonce, old(ctrPosition), length))
      ensures output[length..] == old(output[length..])
    {
      hide XorOctet, KeyOctet, Pow256, KeyStream, XorOctets;
      ghost var plain, stream := input[from..from + length], KeyStream(cipher, given.nonce, ctrPosition, length);
      ghost var result := XorOctets(plain, stream);
      for i := 0 to length
        invariant ctrPosition == old(ctrPosition) + i
        invariant forall k :: 0 <= k < output.Length ==> output[k] == if k < i then result[k] else old(output[k])
        invariant forall k :: i <= k < length ==> input[from + k] == plain[k]
      {
        CtrOctet(plain, cipher, given.nonce, old(ctrPosition), i, length);
        output[i] := CtrStep(input[from + i], cipher, ctrStart, ctrPosition);
        ctrPosition := ctrPosition + 1;
      }
    }

    // ----- keys and nonces -----

    method SetKey(c: BlockCipher, digest: nat, iv: Option<seq<bv8>>) returns (o: Outcome)
      requires c.Valid()
      modifies this
      ensures Valid() && (buffer == old(buffer) || fresh(buffer))
      ensures o == if c.blockSize == 16 && TagLength(digest) && iv.Some? && NonceLength(|iv.value|) then Done
          else InvalidArgument
      ensures o == Done ==> ReadyFor(iv.value) && cipher == c && digestSize == digest
      ensures o != Done ==> state == if c.blockSize == 16 && TagLength(digest) then KeySet else Start
    {
      buffered := 0;
      state := Start;
      cipher := c;
      if c.blockSize != 16 {
        return InvalidArgument;
      }
      digestSize := digest;
      if digest % 2 > 0 || digest < 4 || digest > 16 {
        return InvalidArgument;
      }
      buffer := new bv8[32](_ => 0);
      l := 8;
      state := KeySet;
      if iv.None? || !(7 <= |iv.value| <= 13) {
        return InvalidArgument;
      }
      o := Resynchronize(iv.value);
    }

    /** A new nonce, nothing declared, nothing processed. */
    ghost predicate ReadyFor(iv: seq<bv8>)
      reads this
    {
      state == IVSet && given == Given(iv, false, false, [], [], 0)
    }

    method Resynchronize(iv: seq<bv8>) returns (o: Outcome)
      requires Valid()
      modifies this`state, this`l, this`messageLength, this`aadLength, this`totalHeaderLength, this`totalMessageLength
      modifies this`totalFooterLength, this`buffered, this`ctrStart, this`ctrPosition
      modifies this`given, buffer
      ensures Valid()
      ensures o == if old(state) == Start then BadState else if NonceLength(|iv|) then Done else InvalidArgument
      ensures o == Done ==> ReadyFor(iv)
      ensures o == InvalidArgument ==> state == KeySet
      ensures o == BadState ==> state == Start
    {
      hide CounterBlock, Pow256;
      if state.Order() < KeySet.Order() {
        return BadState;
      }
      buffered := 0;
      totalHeaderLength, totalMessageLength, totalFooterLength := 0, 0, 0;
      state := KeySet;
      if |iv| < 7 || |iv| > 13 {
        return InvalidArgument;
      }
      Resync(iv);
      state := IVSet;
      o := Done;
    }

    /** The counter block goes to the lower half of the buffer, and the counter mode starts behind it. */
    method Resync(iv: seq<bv8>)
      requires HasKey() && NonceLength(|iv|) && buffered == 0
      requires totalHeaderLength == totalMessageLength == totalFooterLength == 0
      modifies this`l, this`messageLength, this`aadLength, this`ctrStart, this`ctrPosition
      modifies this`given, buffer
      ensures HasNonce() && HeaderPhase()
      ensures given == Given(iv, false, false, [], [], 0)
    {
      hide CounterBlock, Octet, HeaderFed, MessageFed;
      given := Given(iv, false, false, [], [], 0);
      aadLength, messageLength, ctrPosition := 0, 0, 16;
      l := Min(15 - |iv|, 8);
      PutCounterBlock(iv);
      ctrStart := buffer[..16];
    }

    method PutCounterBlock(iv: seq<bv8>)
      requires HasKey() && NonceLength(|iv|) && l == 15 - |iv|
      modifies buffer
      ensures buffer[..16] == CounterBlock(iv, 0)
    {
      hide CounterBlock, Octet;
      CounterStart(iv);
      CopyInto(buffer, 0, [Octet(l - 1)] + iv + ZeroOctets(15 - |iv|));
      assert buffer[0..16] == buffer[..16];
    }

    method Restart()
      requires Valid()
      modifies this`state
      ensures Valid() && state == if old(state) == Start then Start else KeySet
    {
      if state.Order() > KeySet.Order() {
        state := KeySet;
      }
    }

    // ----- declaring the lengths -----

    /** To be called before any header and once for each nonce; otherwise the chain no longer stands for anything. */
    method SpecifyDataLengths(headerLength: nat, messageLen: nat, footerLength: nat) returns (o: Outcome)
      requires Valid() && headerLength < Pow256(8) && messageLen < Pow256(8)
      modifies this`aadLength, this`messageLength, this`buffered, this`given, buffer
      ensures Valid()
      ensures o == if messageLen >= Pow256(l) || footerLength > 0 then InvalidArgument
                   else if state != IVSet then BadState else Done
      ensures o == Done ==>
        && given == old(given.(declared := given.Fresh(), garbled := !given.Fresh()))
        && aadLength == headerLength && messageLength == messageLen
      ensures o != Done ==> given == old(given) && aadLength == old(aadLength) && messageLength == old(messageLength)
    {
      hide FirstBlock, Prefix, Fed, Pow256, CounterBlock, Chain, MessageFed;
      if messageLen >= Pow256(l) {
        return InvalidArgument;
      }
      if footerLength > 0 {
        return InvalidArgument;
      }
      if state != IVSet {
        return BadState;
      }
      aadLength := headerLength;
      messageLength := messageLen;
      PutFirstBlock();
      given := given.(declared := given.Fresh(), garbled := !given.Fresh());
      if headerLength > 0 {
        PutPrefix();
      } else {
        NoPrefix(FirstBlock(Setting()));
      }
      o := Done;
    }

    /** The first block is put together in place, from the nonce still in the lower half, and enciphered. */
    method PutFirstBlock()
      requires HasKey() && NonceLength(|given.nonce|) && l == 15 - |given.nonce| && messageLength < Pow256(l)
      modifies buffer
      ensures old(buffer[..16]) == CounterBlock(given.nonce, 0) ==> Fed(cipher, buffer[..], 0, FirstBlock(Setting()))
    {
      hide BigEndian, Pow256, Octet, CounterBlock, Fed, FirstBlock, Chain;
      ghost var proper := buffer[..16] == CounterBlock(given.nonce, 0);
      ComposeFirstBlock();
      var b := buffer[16..];
      CopyInto(buffer, 16, cipher.encrypt(b));
      TailIs(buffer[..], 16);
      if proper {
        FirstInChain(cipher, b, buffer[..]);
      }
    }

    method ComposeFirstBlock()
      requires HasKey() && NonceLength(|given.nonce|) && l == 15 - |given.nonce| && messageLength < Pow256(l)
      modifies buffer
      ensures old(buffer[..16]) == CounterBlock(given.nonce, 0) ==> buffer[16..] == FirstBlock(Setting())
    {
      hide BigEndian, Pow256, Octet, CounterBlock, FirstBlock, Put;
      ghost var x := buffer[..];
      var flags := Octet(64 * (if aadLength > 0 then 1 else 0) + 8 * ((digestSize - 2) / 2) + (l - 1));
      Overwrite(buffer, 16, [flags]);
      Overwrite(buffer, 24, BigEndian(messageLength, 8));
      var n := buffer[1..16 - l];
      Overwrite(buffer, 17, n);
      if x[..16] == CounterBlock(given.nonce, 0) {
        ComposedIs(x, flags, n, Setting());
      }
    }

    method PutPrefix()
      requires HasNonce() && state == IVSet && 0 < aadLength
      requires given.declared ==> given.header == [] && Fed(cipher, buffer[..], 0, FirstBlock(Setting()))
      modifies this`buffered, buffer
      ensures buffered < 16
      ensures given.declared ==> Fed(cipher, buffer[..], buffered, HeaderString(Setting(), []))
    {
      hide Fed, FirstBlock, Chain, BigEndian;
      ghost var b0 := FirstBlock(Setting());
      buffered := 0;
      if aadLength < 0x1_0000 - 0x100 {
        AppendToBuffer(BigEndian(aadLength, 2), given.declared, b0);
      } else if aadLength < 0x1_0000_0000 {
        AppendToBuffer([0xff, 0xfe] + BigEndian(aadLength, 4), given.declared, b0);
      } else {
        AppendToBuffer([0xff, 0xff] + BigEndian(aadLength, 8), given.declared, b0);
      }
      assert b0 + Prefix(aadLength) + [] == b0 + Prefix(aadLength);
    }

    // ----- header, message and tag -----

    /** More header, or data after the message, which CCM does not allow but reports only at the end. */
    method Update(input: seq<bv8>) returns (o: Outcome)
      requires Valid() && |given.header| + |input| < Pow256(8)
      modifies this`state, this`totalHeaderLength, this`totalFooterLength, this`buffered, this`given, buffer
      ensures Valid()
      ensures o == if input == [] || old(state) == IVSet || old(state) == AuthFooter then Done
                   else if old(state).Order() < 2 then BadState
                   else if messageLength == totalMessageLength then Done else InvalidArgument
      ensures given == if old(state) == IVSet then old(given.(header := given.header + input)) else old(given)
      ensures state == if o == Done && input != [] && old(state).Order() > 2 then AuthFooter else old(state)
    {
      hide HeaderFed, MessageFed, CounterBlock, Pow256;
      if |input| == 0 {
        assert given.header + input == given.header;
        return Done;
      }
      match state {
        case Start | KeySet =>
          return BadState;
        case IVSet =>
          UpdateHeader(input);
        case AuthUntransformed | AuthTransformed =>
          o := AuthenticateLastConfidentialBlock();
          if o != Done {
            return;
          }
          state := AuthFooter;
          UpdateFooter(input);
        case AuthFooter =>
          UpdateFooter(input);
      }
      o := Done;
    }

    method UpdateFooter(input: seq<bv8>)
      requires HasNonce() && input != []
      modifies this`totalFooterLength, this`buffered, buffer
      ensures HasNonce() && totalFooterLength > 0
    {
      AuthenticateData(input, false, []);
      totalFooterLength := totalFooterLength + |input|;
    }

    method UpdateHeader(input: seq<bv8>)
      requires HasNonce() && HeaderPhase() && state == IVSet && input != []
      modifies this`totalHeaderLength, this`buffered, this`given, buffer
      ensures HasNonce() && HeaderPhase() && given == old(given.(header := given.header + input))
    {
      hide Fed, FirstBlock, CounterBlock, Pow256, Prefix;
      ghost var s := HeaderString(Setting(), given.header);
      ghost var fed := given.declared && |given.header| + |input| <= aadLength;
      AuthenticateData(input, fed, s);
      totalHeaderLength := totalHeaderLength + |input|;
      assert s + input == FirstBlock(Setting()) + Prefix(aadLength) + (given.header + input);
      given := given.(header := given.header + input);
    }

    method AuthenticateLastHeaderBlock() returns (o: Outcome)
      requires HasNonce() && HeaderPhase() && state == IVSet
      modifies this`buffered, buffer
      ensures HasNonce() && HeaderPhase()
      ensures o == if aadLength == |given.header| then Done else InvalidArgument
      ensures o == Done ==> buffered == 0
      ensures o == Done && given.declared ==>
        MessageFed(cipher, buffer[..], buffered, Setting(), given.header, given.message)
    {
      hide HeaderString, CounterBlock, Pow256;
      if aadLength != totalHeaderLength {
        return InvalidArgument;
      }
      ghost var s := HeaderString(Setting(), given.header);
      HeaderFlushed();
      assert Pad(s) + given.message == Pad(s);
      o := Done;
    }

    /** The header string, not yet padded or padded already, is padded afterwards. */
    method HeaderFlushed()
      requires HasNonce() && (given.declared ==> HeaderFed(cipher, buffer[..], buffered, Setting(), given.header))
      modifies this`buffered, buffer
      ensures buffered == 0
      ensures given.declared ==>
        Fed(cipher, buffer[..], 0, Pad(HeaderString(Setting(), given.header)))
      ensures !given.declared && old(buffered) == 0 ==> buffer[..16] == old(buffer[..16])
    {
      hide HeaderString, Fed, CounterBlock, Pow256;
      ghost var s := HeaderString(Setting(), given.header);
      PadTwice(s);
      FlushBuffer(given.declared, if Fed(cipher, buffer[..], buffered, s) then s else Pad(s));
    }

    method AuthenticateLastConfidentialBlock() returns (o: Outcome)
      requires HasNonce()
      modifies this`buffered, buffer
      ensures o == if messageLength == totalMessageLength then Done else InvalidArgument
      ensures o != Done ==> buffered == old(buffered) && buffer[..] == old(buffer[..])
      ensures o == Done ==> buffered == 0
      ensures o == Done && old(given.declared &&
          MessageFed(cipher, buffer[..], buffered, Setting(), given.header, given.message)) ==>
        Fed(cipher, buffer[..], 0, AuthString(Setting(), given.header, given.message))
    {
      hide HeaderString, Fed, CounterBlock, Pow256;
      if messageLength != totalMessageLength {
        return InvalidArgument;
      }
      ghost var s := Pad(HeaderString(Setting(), given.header));
      PadAfter(s, given.message);
      AuthStringIs(Setting(), given.header, given.message);
      FlushBuffer(given.declared &&
          MessageFed(cipher, buffer[..], buffered, Setting(), given.header, given.message), s + given.message);
      o := Done;
    }

    /** More octets than a message may have. */
    ghost predicate TooLong(length: nat)
      reads this
    {
      state.Order() >= 2 && totalMessageLength + length >= Pow256(l)
    }

    /** Why ProcessData refuses, if it does. */
    ghost function ProcessOutcome(length: nat): Outcome
      reads this
    {
      if state.Order() < 2 then BadState
      else if TooLong(length) then InvalidArgument
      else if state == AuthFooter then BadState
      else if state == IVSet && aadLength != |given.header| then InvalidArgument
      else Done
    }

    /**
     The next octets of the message, enciphered or deciphered. Either way the chain takes the plain octets,
     and plain and cipher octets differ by the key stream. Output may be input.
     */
    method ProcessData(output: array<bv8>, input: array<bv8>) returns (o: Outcome)
      requires Valid() && output.Length == input.Length && output != buffer && input != buffer
      modifies this`state, this`totalMessageLength, this`buffered, this`ctrPosition, this`given, buffer, output
      ensures Valid()
      ensures o == old(ProcessOutcome(input.Length))
      ensures o == Done ==>
        && output[..] == XorOctets(old(input[..]),
            KeyStream(cipher, old(given.nonce), 16 + |old(given.message)|, input.Length))
        && given == old(given).(message := old(given.message) + (if forward then old(input[..]) else output[..]))
        && state == (if forward then AuthUntransformed else AuthTransformed)
      ensures o != Done ==> state == old(state) && output[..] == old(output[..])
      ensures o != Done ==>
        given == old(given.(lost := given.lost + if TooLong(input.Length) then 0 else input.Length))
      ensures totalMessageLength == old(totalMessageLength + if TooLong(input.Length) then 0 else input.Length)
    {
      hide HeaderFed, MessageFed, CounterBlock, Pow256, KeyStream, XorOctets, HeaderString, Fed, Pad;
      var length := input.Length;
      if state.Order() >= 2 && length > (Pow256(l) - 1) - totalMessageLength {
        return InvalidArgument;
      }
      totalMessageLength := totalMessageLength + length;
      given := given.(lost := given.lost + length);
      o := EnterMessage();
      if o == Done {
        Transform(output, input);
      }
    }

    /** The switch of ProcessData, up to the states in which a message is under way. */
    method EnterMessage() returns (o: Outcome)
      requires Valid()
      modifies this`state, this`buffered, buffer
      ensures o == if old(state).Order() < 2 || old(state) == AuthFooter then BadState
                   else if old(state) == IVSet && aadLength != |given.header| then InvalidArgument else Done
      ensures o == Done ==> HasNonce() && MessagePhase()
      ensures o != Done ==> state == old(state) && Valid()
    {
      hide HeaderFed, MessageFed, CounterBlock, Pow256, HeaderString;
      match state {
        case Start | KeySet =>
          return BadState;
        case AuthFooter =>
          return BadState;
        case IVSet =>
          o := AuthenticateLastHeaderBlock();
          if o != Done {
            return;
          }
          state := if forward then AuthUntransformed else AuthTransformed;
        case AuthUntransformed | AuthTransformed =>
      }
      o := Done;
    }

    method Transform(output: array<bv8>, input: array<bv8>)
      requires HasNonce() && MessagePhase() && given.lost >= input.Length
      requires output.Length == input.Length && output != buffer && input != buffer
      modifies this`buffered, this`ctrPosition, this`given, buffer, output
      ensures HasNonce() && MessagePhase()
      ensures output[..] ==
        XorOctets(old(input[..]), KeyStream(cipher, old(given.nonce), 16 + |old(given.message)|, input.Length))
      ensures given == old(given).(message := old(given.message) + (if forward then old(input[..]) else output[..]),
                                   lost := old(given.lost) - input.Length)
    {
      hide Fed, HeaderString, CounterBlock, KeyStream, XorOctets, Pow256, Pad, HeaderFed;
      ghost var head := Pad(HeaderString(Setting(), given.header));
      ghost var plain := input[..];
      if state == AuthUntransformed {
        AuthenticateData(input[..], given.declared, head + given.message);
        CtrAll(output, input);
      } else {
        CtrAll(output, input);
        plain := output[..];
        AuthenticateData(output[..], given.declared, head + given.message);
      }
      assert head + given.message + plain == head + (given.message + plain);
      given := given.(message := given.message + plain, lost := given.lost - input.Length);
    }

    /** ProcessData of the counter mode object on whole arrays. */
    method CtrAll(output: array<bv8>, input: array<bv8>)
      requires HasNonce() && output.Length == input.Length && ctrPosition + input.Length <= 16 * Pow256(l)
      modifies this`ctrPosition, output
      ensures ctrPosition == old(ctrPosition) + input.Length
      ensures output[..] == XorOctets(old(input[..]), KeyStream(cipher, given.nonce, old(ctrPosition), input.Length))
    {
      CtrProcessData(output, input, 0, input.Length);
      assert output[..] == output[..input.Length] && old(input[..]) == old(input[0..input.Length]);
    }

    /** Why TruncatedFinal refuses, if it does. */
    ghost function FinalOutcome(size: nat): Outcome
      reads this
    {
      if size > digestSize || totalFooterLength > 0 then InvalidArgument
      else if state.Order() < 2 then BadState
      else if state == IVSet && aadLength != |given.header| then InvalidArgument
      else if messageLength != totalMessageLength then InvalidArgument
      else Done
    }

    /** The first size octets of the tag. Both directions give the same one for the same message. */
    method TruncatedFinal(mac: array<bv8>, size: nat) returns (o: Outcome)
      requires Valid() && size <= mac.Length && mac != buffer
      modifies this`state, this`buffered, this`ctrPosition, buffer, mac
      ensures Valid()
      ensures o == old(FinalOutcome(size))
      ensures o == Done ==> state == KeySet && mac[size..] == old(mac[size..])
      ensures o == Done && given.declared ==>
        mac[..size] == Tag(cipher, Parameters(given.nonce, digestSize, |given.header|, |given.message| + given.lost),
            given.header, given.message)[..size]
      ensures o != Done ==> state == old(state) && mac[..] == old(mac[..])
    {
      hide HeaderFed, MessageFed, CounterBlock, Pow256, Tag, AuthString, Fed;
      if size > digestSize {
        return InvalidArgument;
      }
      if totalFooterLength > 0 {
        return InvalidArgument;
      }
      if state.Order() < 2 {
        return BadState;
      }
      o := FinishInput();
      if o != Done {
        return;
      }
      AuthenticateLastFooterBlock(mac, size);
      state := KeySet;
    }

    /** The switch of TruncatedFinal down to the footer. */
    method FinishInput() returns (o: Outcome)
      requires Valid() && state.Order() >= 2 && totalFooterLength == 0
      modifies this`buffered, buffer
      ensures HasNonce() && (o != Done ==> Valid())
      ensures o == if state == IVSet && aadLength != |given.header| then InvalidArgument
                   else if messageLength != totalMessageLength then InvalidArgument else Done
      ensures o == Done ==> aadLength == |given.header| && messageLength == |given.message| + given.lost
      ensures o == Done && given.declared ==>
        Fed(cipher, buffer[..], 0, AuthString(Setting(), given.header, given.message))
    {
      hide HeaderFed, MessageFed, CounterBlock, Pow256, Fed, AuthString;
      if state == IVSet {
        o := AuthenticateLastHeaderBlock();
        if o != Done {
          return;
        }
      }
      o := AuthenticateLastConfidentialBlock();
    }

    /** The tag is the end of the chain, enciphered with the first block of the key stream. */
    method AuthenticateLastFooterBlock(mac: array<bv8>, size: nat)
      requires HasNonce() && size <= 16 && size <= mac.Length && mac != buffer
      modifies this`ctrPosition, mac
      ensures mac[size..] == old(mac[size..])
      ensures Fed(cipher, buffer[..], 0, AuthString(Setting(), given.header, given.message)) ==>
        mac[..size] == Tag(cipher, Setting(), given.header, given.message)[..size]
    {
      hide AuthString, CounterBlock, KeyStream, Chain, XorOctets;
      ctrPosition := 0;
      CtrProcessData(mac, buffer, 16, size);
      ShorterTag(buffer[16..], cipher, given.nonce, size);
      assert buffer[16..16 + size] == buffer[16..][..size];
      ghost var auth := AuthString(Setting(), given.header, given.message);
      assert auth[..|auth|] == auth;
    }
  }

  /** When the whole message and header are in, the tag can be had if and only if no octets were lost. */
  lemma CompleteUnlessLost(c: CcmBase, size: nat)
    requires c.Valid() && IVSet.Order() <= c.state.Order() <= AuthTransformed.Order() && size <= c.digestSize
    requires |c.given.header| == c.aadLength && |c.given.message| == c.messageLength
    ensures c.FinalOutcome(size) == Done <==> c.given.lost == 0
  {
    hide HeaderFed, MessageFed, CounterBlock, Pow256;
  }

  /** A call that comes before the header is refused, and spoils the message that then comes in full. */
  method TooEarly(c: BlockCipher, early: bool) returns (refused: Outcome, final: Outcome)
    requires c.Valid() && c.blockSize == 16
    ensures refused == final == if early then InvalidArgument else Done
  {
    hide HeaderFed, MessageFed, CounterBlock, KeyStream, XorOctets, Tag, Pow256;
    var ccm := OneAndOne(c);
    refused := Done;
    if early {
      var text := new bv8[1](_ => 0);
      refused := ccm.ProcessData(text, text);
    }
    final := GiveOneAndOne(ccm);
  }

  /** The header, the message and the tag. */
  method GiveOneAndOne(ccm: CcmBase) returns (final: Outcome)
    requires ccm.Valid() && ccm.state == IVSet && ccm.digestSize == 16 && ccm.aadLength == ccm.messageLength == 1
    requires Pow256(ccm.l) == 0x1_0000 < Pow256(8)
    requires ccm.given.header == ccm.given.message == [] && ccm.given.lost <= 1
    modifies ccm, ccm.buffer
    ensures final == if old(ccm.given.lost) == 0 then Done else InvalidArgument
  {
    hide HeaderFed, MessageFed, CounterBlock, KeyStream, XorOctets, Tag, Pow256;
    var text, mac := new bv8[1](_ => 0), new bv8[16](_ => 0);
    var _ := ccm.Update([0]);
    var _ := ccm.ProcessData(text, text);
    final := ccm.TruncatedFinal(mac, 16);
  }

  /** One octet of header and one of message are to come. */
  method OneAndOne(c: BlockCipher) returns (ccm: CcmBase)
    requires c.Valid() && c.blockSize == 16
    ensures fresh(ccm) && fresh(ccm.buffer) && ccm.Valid() && ccm.state == IVSet && ccm.digestSize == 16
    ensures ccm.aadLength == ccm.messageLength == 1 && Pow256(ccm.l) == 0x1_0000 < Pow256(8)
    ensures ccm.given.header == ccm.given.message == [] && ccm.given.lost == 0
  {
    ccm := new CcmBase(true, c);
    var _ := ccm.SetKey(c, 16, Some(ZeroOctets(13)));
    assert Pow256(0) == 1 && Pow256(1) == 256 && Pow256(2) == 0x1_0000;
    hide HeaderFed, MessageFed, CounterBlock, Pow256;
    var _ := ccm.SpecifyDataLengths(1, 1, 0);
  }

  lemma Behind(before: seq<bv8>, after: seq<bv8>, at: nat, t: seq<bv8>)
    requires |before| == |after| == 32 && at + |t| < 16
    requires after[..at] == before[..at] && after[at..at + |t|] == t && after[at + |t|..] == before[at + |t|..]
    ensures after[16..] == before[16..]
  {
    assert after[16..] == after[at + |t|..][16 - at - |t|..];
    assert before[16..] == before[at + |t|..][16 - at - |t|..];
  }

  lemma CounterStart(iv: seq<bv8>)
    requires NonceLength(|iv|)
    ensures CounterBlock(iv, 0) == [Octet(14 - |iv|)] + iv + ZeroOctets(15 - |iv|)
  {
    BigEndianZero(15 - |iv|);
  }

  lemma NonceIn(a: seq<bv8>, nonce: seq<bv8>)
    requires NonceLength(|nonce|) && a == CounterBlock(nonce, 0)
    ensures a[1..1 + |nonce|] == nonce
  {
    hide BigEndian, Octet;
  }

  lemma NoPrefix(b: seq<bv8>)
    ensures b + Prefix(0) + [] == b
  {
  }

  lemma TailIs(x: seq<bv8>, n: nat)
    requires n <= |x|
    ensures x[n..|x|] == x[n..]
  {
  }

  lemma {:induction false} BigEndianZero(n: nat)
    ensures BigEndian(0, n) == ZeroOctets(n)
  {
    if n > 0 {
      BigEndianZero(n - 1);
    }
  }

  function CtrStep(b: bv8, c: BlockCipher, start: seq<bv8>, p: nat): bv8
    requires |start| == 16 && c.blockSize == 16 && |c.encrypt(CtrBlock(start, p / 16))| == 16
  {
    XorOctet(b, c.encrypt(CtrBlock(start, p / 16))[p % 16])
  }

  lemma CtrOctet(plain: seq<bv8>, c: BlockCipher, nonce: seq<bv8>, p: nat, i: nat, n: nat)
    requires c.Valid() && c.blockSize == 16 && NonceLength(|nonce|) && i < n == |plain|
    requires p + i < 16 * Pow256(15 - |nonce|)
    ensures CtrStep(plain[i], c, CounterBlock(nonce, 0), p + i) == XorOctets(plain, KeyStream(c, nonce, p, n))[i]
  {
    hide XorOctet, CtrBlock, CounterBlock, Pow256;
    KeyOctetIs(c, nonce, p + i);
  }

  /** Octet p of what the counter mode object produces is octet p of the key stream. */
  lemma KeyOctetIs(c: BlockCipher, nonce: seq<bv8>, p: nat)
    requires c.Valid() && c.blockSize == 16 && NonceLength(|nonce|) && p < 16 * Pow256(15 - |nonce|)
    ensures c.encrypt(CtrBlock(CounterBlock(nonce, 0), p / 16))[p % 16] == KeyOctet(c, nonce, p)
  {
    CounterStaysInPlace(nonce, p / 16);
  }

  /** The octets of x with those of t in their place from position at on. */
  function Put(x: seq<bv8>, at: nat, t: seq<bv8>): (y: seq<bv8>)
    requires at + |t| <= |x|
    ensures |y| == |x|
  {
    x[..at] + t + x[at + |t|..]
  }

  method Overwrite(k: array<bv8>, at: nat, t: seq<bv8>)
    requires at + |t| <= k.Length
    modifies k
    ensures k[..] == Put(old(k[..]), at, t)
  {
    CopyInto(k, at, t);
    assert k[..] == k[..at] + k[at..at + |t|] + k[at + |t|..];
    assert old(k[..])[..at] == old(k[..at]) && old(k[..])[at + |t|..] == old(k[at + |t|..]);
  }

  lemma PutAt(x: seq<bv8>, at: nat, t: seq<bv8>, i: nat)
    requires at + |t| <= |x| && i < |x|
    ensures Put(x, at, t)[i] == if at <= i < at + |t| then t[i - at] else x[i]
  {
  }

  /** Flags, message length and the nonce from the lower half make the first block. */
  lemma ComposedIs(x: seq<bv8>, flags: bv8, n: seq<bv8>, p: Parameters)
    requires |x| == 32 && p.Valid() && p.messageLength < Pow256(15 - |p.nonce|)
    requires x[..16] == CounterBlock(p.nonce, 0) && flags == Flags(p)
    requires n == Put(Put(x, 16, [flags]), 24, BigEndian(p.messageLength, 8))[1..1 + |p.nonce|]
    ensures Put(Put(Put(x, 16, [flags]), 24, BigEndian(p.messageLength, 8)), 17, n)[16..] == FirstBlock(p)
  {
    hide Flags, BigEndian, Pow256, CounterBlock, Put, FirstBlock;
    var u := Put(x, 16, [flags]);
    var v := Put(u, 24, BigEndian(p.messageLength, 8));
    NonceIn(x[..16], p.nonce);
    forall i | 0 <= i < |n|
      ensures n[i] == p.nonce[i]
    {
      PutAt(x, 16, [flags], 1 + i);
      PutAt(u, 24, BigEndian(p.messageLength, 8), 1 + i);
      assert x[..16][1..1 + |p.nonce|][i] == x[1 + i];
    }
    assert n == p.nonce;
    var w := Put(v, 17, n);
    forall i | 0 <= i < 16
      ensures w[16 + i] == FirstOctet(p, i)
    {
      PutAt(x, 16, [flags], 16 + i);
      PutAt(u, 24, BigEndian(p.messageLength, 8), 16 + i);
      PutAt(v, 17, n, 16 + i);
    }
    FirstBlockAt(p);
    assert |w[16..]| == |FirstBlock(p)| && forall i :: 0 <= i < 16 ==> w[16..][i] == w[16 + i];
  }

  function FirstOctet(p: Parameters, i: nat): bv8
    requires p.Valid() && i < 16
  {
    if i == 0 then Flags(p)
    else if i <= |p.nonce| then p.nonce[i - 1]
    else BigEndian(p.messageLength, 8)[i - 8]
  }

  lemma {:induction false} FirstBlockAt(p: Parameters)
    requires p.Valid() && p.messageLength < Pow256(15 - |p.nonce|)
    ensures forall i :: 0 <= i < 16 ==> FirstBlock(p)[i] == FirstOctet(p, i)
  {
    hide Flags, BigEndian, Pow256;
    BigEndianWider(p.messageLength, 15 - |p.nonce|, 8);
    forall i | 0 <= i < 16
      ensures FirstBlock(p)[i] == FirstOctet(p, i)
    {
      JoinedAt(Flags(p), p.nonce, BigEndian(p.messageLength, 15 - |p.nonce|), BigEndian(p.messageLength, 8), i);
    }
  }

  lemma JoinedAt(flags: bv8, nonce: seq<bv8>, short: seq<bv8>, low: seq<bv8>, i: nat)
    requires 7 <= |nonce| <= 13 && |low| == 8 && short == low[|nonce| - 7..] && i < 16
    ensures var b := [flags] + nonce + short;
            |b| == 16 && b[i] == if i == 0 then flags else if i <= |nonce| then nonce[i - 1] else low[i - 8]
  {
  }

  lemma FirstInChain(c: BlockCipher, b: seq<bv8>, after: seq<bv8>)
    requires c.Valid() && c.blockSize == 16 && |b| == 16 && |after| == 32 && after[16..] == c.encrypt(b)
    ensures Fed(c, after, 0, b)
  {
    forall i | 0 <= i < 16
      ensures XorOctets(ZeroOctets(16), b)[i] == b[i]
    {
      XorOctetLaws(b[i], 0, 0);
    }
    assert XorOctets(ZeroOctets(16), b) == b;
    assert b[..0] == [] && b[0..] == b && b[..16] == b;
    assert Chain(c, []) == ZeroOctets(16);
  }

  lemma PadTwice(s: seq<bv8>)
    ensures Pad(Pad(s)) == Pad(s)
  {
  }

  lemma AuthStringIs(p: Parameters, header: seq<bv8>, message: seq<bv8>)
    requires p.Valid()
    ensures AuthString(p, header, message) == Pad(HeaderString(p, header)) + Pad(message)
  {
    hide FirstBlock, Prefix;
    var b, prefix := FirstBlock(p), Prefix(p.headerLength);
    assert b + prefix + header == b + (prefix + header);
    PadAfter(b, prefix + header);
  }

  lemma ShorterTag(x: seq<bv8>, c: BlockCipher, nonce: seq<bv8>, size: nat)
    requires c.Valid() && c.blockSize == 16 && NonceLength(|nonce|) && size <= 16 == |x|
    ensures XorOctets(x[..size], KeyStream(c, nonce, 0, size)) == XorOctets(x, KeyStream(c, nonce, 0, 16))[..size]
  {
    hide XorOctet, KeyOctet;
  }
}
