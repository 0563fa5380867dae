/** Text in a base of 2 to 128: encoder, decoder and grouper, for any split of their input. */
module BaseN {
  import opened BaseText
  import opened Bits
  import opened BitStrings
  import opened BinaryDigits
  import opened Bytes

  // ---------- the encoder ----------

  /** The buffer: the last full digits, and at the top of the next field the bits of one that is not full. */
  ghost predicate Packed(w: nat, buf: seq<nat>, pos: nat, full: seq<nat>, cur: seq<bool>) {
    && |cur| < w && pos <= |full| && pos <= |buf| && Below(full, Pow2(w))
    && (forall i :: 0 <= i < pos ==> buf[i] == full[|full| - pos + i])
    && (pos < |buf| ==> buf[pos] == TopOf(cur, w))
    && (forall i :: pos < i < |buf| ==> buf[i] == 0)
    && (pos == |buf| ==> cur == [])
  }

  /** Or-ing the upper bits of a field of 8 below those that are there already. */
  lemma {:induction false} FillDigit(k: nat, cur: seq<bool>, rem: seq<bool>)
    requires BitsPerChar(k) && |cur| < k && 0 < |rem| <= 8
    ensures var target := k - |cur|;
            var v := Or(TopOf(cur, k), ShiftRight(TopOf(rem, 8), 8 - target));
            && (|rem| >= target ==>
                  v == Number(cur + rem[..target]) &&
                      Low(ShiftLeft(TopOf(rem, 8), target), 8) == TopOf(rem[target..], 8))
            && (|rem| < target ==> v == TopOf(cur + rem, k))
  {
    hide Number, Or, Low, ShiftRight, ShiftLeft;
    var target := k - |cur|;
    var x := rem + Zeros(8 - |rem|);
    var take, rest := x[..target], x[target..];
    assert x == take + rest;
    ShiftDown(take, rest);
    OrDigits(cur, take);
    if |rem| >= target {
      assert take == rem[..target];
      ShiftUp(take, rest, target);
      assert rest + Zeros(target) == rem[target..] + Zeros(8 - |rem[target..]|);
    } else {
      assert cur + take == cur + rem + Zeros(k - |cur + rem|);
    }
  }

  /** One turn of the encoder's inner loop. */
  lemma PackDigit(k: nat, buf: seq<nat>, pos: nat, full: seq<nat>, cur: seq<bool>, rem: seq<bool>)
    requires BitsPerChar(k) && Packed(k, buf, pos, full, cur) && pos < |buf| && 0 < |rem| <= 8
    ensures var target := k - |cur|;
            var field := Or(buf[pos], ShiftRight(TopOf(rem, 8), 8 - target));
            var after := buf[pos := field];
            field < Pow2(k) &&
            if |rem| >= target then
              var more := full + [Number(cur + rem[..target])];
              && Packed(k, after, pos + 1, more, []) && Flat(more, k) == Flat(full, k) + (cur + rem[..target])
              && Low(ShiftLeft(TopOf(rem, 8), target), 8) == TopOf(rem[target..], 8)
            else Packed(k, after, pos, full, cur + rem)
  {
    hide Or, Low, ShiftRight, ShiftLeft, Number, Digits, Pow2;
    FillDigit(k, cur, rem);
    var target := k - |cur|;
    if |rem| >= target {
      var digit := cur + rem[..target];
      DigitsOfNumber(digit);
      NumberOfZeros(k);
      assert [] + Zeros(k) == Zeros(k);
      assert Number(digit) < Pow2(k);
      assert (full + [Number(digit)])[..|full|] == full;
    }
  }

  /** The block is not full before its last octet is through. */
  lemma Room(k: nat, bytePos: nat, bitPos: nat, left: nat, pending: nat)
    requires BitsPerChar(k) && bitPos < k && left <= 8
    requires 8 * pending + (8 - left) == k * bytePos + bitPos && 8 * pending < BlockBits(k)
    ensures left > 0 ==> bytePos < BlockChars(k)
    ensures left == 0 ==> bytePos <= BlockChars(k) && (bytePos == BlockChars(k) ==> bitPos == 0)
  {
    assert k == 1 || k == 2 || k == 3 || k == 4 || k == 5 || k == 6 || k == 7;
  }

  lemma PendingBelow(k: nat, bytePos: nat, bitPos: nat, pending: nat)
    requires BitsPerChar(k) && bitPos < k && 8 * pending == k * bytePos + bitPos && bytePos < BlockChars(k)
    ensures 8 * pending < BlockBits(k) && (bytePos == 0 ==> bitPos == 0)
  {
    assert k == 1 || k == 2 || k == 3 || k == 4 || k == 5 || k == 6 || k == 7;
  }

  lemma SpellAppend(s: seq<nat>, t: seq<nat>, alphabet: seq<byte>)
    requires Below(s, |alphabet|) && Below(t, |alphabet|)
    ensures Below(s + t, |alphabet|) && Spell(s + t, alphabet) == Spell(s, alphabet) + Spell(t, alphabet)
  {
  }

  lemma SplitText(full: seq<nat>, last: seq<nat>, n: nat, alphabet: seq<byte>)
    requires n <= |full| && Below(full + last, |alphabet|)
    ensures var vs := full + last;
            vs[..n] == full[..n] && Spell(vs, alphabet) == Spell(vs[..n], alphabet) + Spell(vs[n..], alphabet)
  {
    var vs := full + last;
    assert vs == vs[..n] + vs[n..];
    SpellAppend(vs[..n], vs[n..], alphabet);
  }

  lemma FlatLast(vs: seq<nat>, v: nat)
    ensures Flat(vs + [v], 8) == Flat(vs, 8) + Digits(v, 8)
  {
    assert (vs + [v])[..|vs|] == vs;
  }

  lemma NextBlock(n: nat, block: nat)
    requires block > 0 && n % block == 0
    ensures (n + block) % block == 0
  {
    Arithmetic.ModOfMultiple(1, block, n);
  }

  lemma LastOfBlock(k: nat, buf: seq<nat>, pos: nat, full: seq<nat>, cur: seq<bool>)
    requires Packed(k, buf, pos, full, cur) && pos < |buf|
    ensures Below(full, Pow2(k))
    ensures var vs := full + (if cur == [] then [] else [TopOf(cur, k)]);
            buf[..if cur == [] then pos else pos + 1] == vs[|full| - pos..]
  {
  }

  lemma MissingIs(n: nat, pos: nat, block: nat)
    requires block > 0 && n % block == 0 && pos <= block
    ensures Missing(n + pos, block) == if pos == 0 then 0 else block - pos
  {
    Arithmetic.DivMod(n, block);
    if pos < block {
      Arithmetic.DivModUnique(n + pos, block, n / block, pos);
    } else {
      Arithmetic.ModOfMultiple(1, block, n);
    }
  }

  lemma {:induction false} EndText(k: nat, alphabet: seq<byte>, padding: int, data: seq<byte>, before: seq<byte>,
                                   n: nat, vs: seq<nat>, output: seq<byte>, last: seq<byte>)
    requires Alphabet(k, alphabet) && -1 <= padding < 256
    requires vs == Cut(Flat(data, 8), k) && Below(vs, |alphabet|)
    requires n <= |vs| <= n + BlockChars(k) && n % BlockChars(k) == 0
    requires Spell(vs, alphabet) == Spell(vs[..n], alphabet) + Spell(vs[n..], alphabet)
    requires output == before + Spell(vs[..n], alphabet)
    requires last == if padding != -1 && |vs| > n then
                       Spell(vs[n..], alphabet) + Repeat(padding, BlockChars(k) - (|vs| - n))
                     else Spell(vs[n..], alphabet)
    ensures output + last == before + EncodedText(k, alphabet, padding, data)
  {
    hide Spell, BlockChars, Flat, Cut, Missing;
    MissingIs(n, |vs| - n, BlockChars(k));
    var s, t := Spell(vs[..n], alphabet), Spell(vs[n..], alphabet);
    if padding != -1 {
      var pad := Repeat(padding, Missing(|vs|, BlockChars(k)));
      assert last == t + pad;
      assert before + s + (t + pad) == before + (s + t + pad);
    } else {
      assert before + s + t == before + (s + t);
    }
  }

  lemma NewMessage(k: nat, alphabet: seq<byte>, output: seq<byte>)
    requires BitsPerChar(k)
    ensures Flat([], 8) == Flat([], k) + [] && output == output + Spell([][..0], alphabet)
    ensures 0 % BlockChars(k) == 0
  {
  }

  /** The first multiple of 8 that the bits of a character divide, in characters. */
  method EncoderBlockSize(k: nat) returns (size: nat)
    requires BitsPerChar(k)
    ensures size == BlockChars(k)
  {
    hide BlockBits;
    var i: nat := 8;
    BlockStep(k, i);
    while i % k != 0
      invariant i % 8 == 0 && 8 <= i <= BlockBits(k)
      invariant if i % k == 0 then i == BlockBits(k) else i + 8 <= BlockBits(k)
      decreases BlockBits(k) - i
    {
      i := i + 8;
      BlockStep(k, i);
    }
    size := i / k;
  }

  lemma BlockStep(k: nat, i: nat)
    requires BitsPerChar(k) && i % 8 == 0 && 8 <= i
    requires i == 8 || i <= BlockBits(k)
    ensures i <= BlockBits(k) && if i % k == 0 then i == BlockBits(k) else i + 8 <= BlockBits(k)
  {
    if k == 3 {
    } else if k == 5 {
    } else if k == 6 {
    } else if k == 7 {
    } else if k == 1 {
    } else if k == 2 {
    }
  }

  lemma StartBlock(k: nat, buf: seq<nat>, full: seq<nat>)
    requires forall i :: 0 <= i < |buf| ==> buf[i] == 0
    requires BitsPerChar(k) && |buf| > 0 && Below(full, Pow2(k))
    ensures Packed(k, buf, 0, full, [])
  {
    NumberOfZeros(k);
    assert [] + Zeros(k) == Zeros(k);
  }

  lemma TopOctet(octet: byte)
    ensures TopOf(Digits(octet, 8), 8) == octet
  {
    assert Pow2(8) == 256;
    NumberOfDigits(octet, 8);
    assert Digits(octet, 8) + Zeros(0) == Digits(octet, 8);
  }

  lemma TakeBits(bits: seq<bool>, cur: seq<bool>, rem: seq<bool>, n: nat)
    requires n <= |rem|
    ensures bits + cur + rem == bits + (cur + rem[..n]) + [] + rem[n..]
  {
  }

  class BaseNEncoder {
    const alphabet: seq<byte>
    /** The padding character, or -1 for none. */
    const padding: int
    const bitsPerChar: nat
    const outputBlockSize: nat
    const outBuf: array<byte>
    var bytePos: nat
    var bitPos: nat
    /** What was passed on to the attached filter. */
    var output: seq<byte>

    /** The message so far, its full digits, and the output before it. */
    ghost var message: Message

    ghost predicate Valid()
      reads this, outBuf
    {
      && Settings() && bytePos < outputBlockSize
      && 8 * message.pending == bitsPerChar * bytePos + bitPos
      && message.Consistent(bitsPerChar, bytePos, bitPos)
      && (bytePos > 0 ==> Packed(bitsPerChar, outBuf[..], bytePos, message.full, message.cur))
      && Below(message.full, |alphabet|)
      && output == message.before + Spell(message.full[..|message.full| - bytePos], alphabet)
    }

    ghost predicate Settings()
      reads this
    {
      && Alphabet(bitsPerChar, alphabet) && -1 <= padding < 256
      && outputBlockSize == BlockChars(bitsPerChar) == outBuf.Length
    }

    method PutOctet(octet: byte)
      requires Valid()
      modifies this`bytePos, this`bitPos, this`output, this`message, outBuf
      ensures Valid()
      ensures message.data == old(message.data) + [octet] && message.before == old(message.before)
    {
      hide Packed, Flat, Cut, Digits, TopOf, Spell, BlockChars, Low, ShiftRight, ShiftLeft, Or;
      PendingBelow(bitsPerChar, bytePos, bitPos, message.pending);
      if bytePos == 0 {
        forall i | 0 <= i < outBuf.Length {
          outBuf[i] := 0;
        }
        StartBlock(bitsPerChar, outBuf[..], message.full);
      }
      var b: nat, left: nat := octet, 8;
      ghost var full, cur, rem := message.full, message.cur, Digits(octet, 8);
      ghost var n: nat := |full| - bytePos;
      TopOctet(octet);
      assert Flat(message.data, 8) + Digits(octet, 8) == Flat(full, bitsPerChar) + cur + rem;
      while left > 0
        invariant message == old(message) && output == old(output) && n <= |message.full|
        invariant |rem| == left && 8 * message.pending + (8 - left) == bitsPerChar * bytePos + bitPos
        invariant Filling(b, left, full, cur, rem)
        invariant |full| - bytePos == n && full[..n] == message.full[..n]
        invariant Flat(message.data, 8) + Digits(octet, 8) == Flat(full, bitsPerChar) + cur + rem
      {
        Room(bitsPerChar, bytePos, bitPos, left, message.pending);
        b, left, full, cur, rem := Turn(b, left, full, cur, rem);
      }
      Room(bitsPerChar, bytePos, bitPos, 0, message.pending);
      EndOctet(octet, full, cur, n);
    }

    /** The end of a message: the last digit is filled up, then the last block. */
    method End()
      requires Valid()
      modifies this`bytePos, this`bitPos, this`output, this`message, outBuf
      ensures Valid() && message == Message(output, [], [], [], 0)
      ensures output == old(message.before) + EncodedText(bitsPerChar, alphabet, padding, old(message.data))
    {
      hide Packed, Spell, BlockChars, Repeat, Flat, Cut, EncodedText;
      ghost var before, data, n := message.before, message.data, |message.full| - bytePos;
      ghost var vs := CloseDigits();
      ghost var pos := bytePos;
      if padding != -1 && bytePos > 0 {
        FillUp();
      }
      EndText(bitsPerChar, alphabet, padding, data, before, n, vs, output, outBuf[..bytePos]);
      output := output + outBuf[..bytePos];
      bytePos, bitPos := 0, 0;
      message := Message(output, [], [], [], 0);
      NewMessage(bitsPerChar, alphabet, output);
    }

    /** The bits left over become a digit, and the last block becomes characters. */
    method CloseDigits() returns (ghost vs: seq<nat>)
      requires Valid()
      modifies this`bytePos, outBuf
      ensures bytePos <= outputBlockSize && (bytePos == 0 ==> old(bytePos) == 0)
      ensures vs == Cut(Flat(message.data, 8), bitsPerChar) && Below(vs, |alphabet|)
      ensures var n := |message.full| - old(bytePos);
              && 0 <= n && bytePos == |vs| - n && n % outputBlockSize == 0
              && Spell(message.full[..n], alphabet) == Spell(vs[..n], alphabet)
              && outBuf[..bytePos] == Spell(vs[n..], alphabet)
              && Spell(vs, alphabet) == Spell(vs[..n], alphabet) + Spell(vs[n..], alphabet)
    {
      hide Flat, Cut, TopOf, Spell, BlockChars, Pow2, Packed, BlockBits, Below;
      ghost var full, cur := message.full, message.cur;
      ghost var n: nat := |full| - bytePos;
      vs := full + (if cur == [] then [] else [TopOf(cur, bitsPerChar)]);
      CutFlat(full, bitsPerChar, cur);
      PendingBelow(bitsPerChar, bytePos, bitPos, message.pending);
      if bytePos > 0 {
        LastOfBlock(bitsPerChar, outBuf[..], bytePos, full, cur);
      }
      if bitPos > 0 {
        bytePos := bytePos + 1;
      }
      SplitText(full, vs[|full|..], n, alphabet);
      assert outBuf[..bytePos] == vs[n..];
      Translate(bytePos);
    }

    /** memset of the rest of the block. */
    method FillUp()
      requires Settings() && padding >= 0 && bytePos <= outputBlockSize
      modifies this`bytePos, outBuf
      ensures bytePos == outputBlockSize
      ensures outBuf[..bytePos] == old(outBuf[..bytePos]) + Repeat(padding, outputBlockSize - old(bytePos))
    {
      forall i | bytePos <= i < outBuf.Length {
        outBuf[i] := padding;
      }
      bytePos := outputBlockSize;
    }

    method Put2(begin: seq<byte>, messageEnd: bool)
      requires Valid()
      modifies this`bytePos, this`bitPos, this`output, this`message, outBuf
      ensures Valid()
      ensures !messageEnd ==> message.data == old(message.data) + begin && message.before == old(message.before)
      ensures messageEnd ==>
        && message.data == [] && output == message.before
        && output == old(message.before) + EncodedText(bitsPerChar, alphabet, padding, old(message.data) + begin)
    {
      hide EncodedText, Packed, Spell, Flat;
      ghost var data := message.data;
      for i := 0 to |begin|
        invariant Valid() && message.before == old(message.before) && message.data == data + begin[..i]
      {
        PutOctet(begin[i]);
        assert begin[..i] + [begin[i]] == begin[..i + 1];
      }
      assert begin[..|begin|] == begin;
      if messageEnd {
        End();
      }
    }

    constructor (letters: seq<byte>, log2base: nat, padWith: int)
      requires Alphabet(log2base, letters) && -1 <= padWith < 256
      ensures Valid() && message == Message([], [], [], [], 0) && output == []
      ensures alphabet == letters && bitsPerChar == log2base && padding == padWith && fresh(outBuf)
    {
      alphabet, bitsPerChar, padding := letters, log2base, padWith;
      var size := EncoderBlockSize(log2base);
      outputBlockSize := size;
      outBuf := new byte[size](_ => 0);
      bytePos, bitPos, output := 0, 0, [];
      message := Message([], [], [], [], 0);
      new;
      NewMessage(log2base, letters, []);
    }

    /** Inside the loop: the bits of the octet that are still to come are at the top of b. */
    ghost predicate Filling(b: nat, left: nat, full: seq<nat>, cur: seq<bool>, rem: seq<bool>)
      reads this, outBuf
    {
      && Settings() && |rem| == left <= 8 && (left > 0 ==> b == TopOf(rem, 8)) && |cur| == bitPos < bitsPerChar
      && Packed(bitsPerChar, outBuf[..], bytePos, full, cur) && Below(full, Pow2(bitsPerChar))
    }

    /** One turn of the inner loop. */
    method Turn(b: nat, left: nat, ghost full: seq<nat>, ghost cur: seq<bool>, ghost rem: seq<bool>)
      returns (b': nat, left': nat, ghost full': seq<nat>, ghost cur': seq<bool>, ghost rem': seq<bool>)
      requires left > 0 && bytePos < outputBlockSize && Filling(b, left, full, cur, rem)
      modifies this`bytePos, this`bitPos, outBuf
      ensures Filling(b', left', full', cur', rem') && left' < left
      ensures |full'| - bytePos == |full| - old(bytePos) && full <= full'
      ensures Flat(full', bitsPerChar) + cur' + rem' == Flat(full, bitsPerChar) + cur + rem
      ensures bitsPerChar * bytePos + bitPos == bitsPerChar * old(bytePos) + old(bitPos) + (left - left')
    {
      hide Packed, Flat, Digits, TopOf, Low, ShiftRight, ShiftLeft, Or, BlockChars, Number, Pow2;
      PackDigit(bitsPerChar, outBuf[..], bytePos, full, cur, rem);
      SmallDigit(bitsPerChar);
      var target := bitsPerChar - bitPos;
      ghost var bits := Flat(full, bitsPerChar);
      outBuf[bytePos] := Or(outBuf[bytePos], ShiftRight(b, 8 - target));
      if left >= target {
        bitPos := 0;
        bytePos := bytePos + 1;
        left' := left - target;
        b' := Low(ShiftLeft(b, target), 8);
        full' := full + [Number(cur + rem[..target])];
        TakeBits(bits, cur, rem, target);
        cur', rem' := [], rem[target..];
      } else {
        bitPos := bitPos + left;
        b', left' := b, 0;
        assert bits + cur + rem == bits + (cur + rem) + [];
        full', cur', rem' := full, cur + rem, [];
      }
    }

    /** A full block goes out. */
    method EndOctet(octet: byte, ghost full: seq<nat>, ghost cur: seq<bool>, ghost n: nat)
      requires Settings() && bytePos <= outputBlockSize && (bytePos == outputBlockSize ==> bitPos == 0)
      requires n == |full| - bytePos && n % outputBlockSize == 0 && n <= |message.full| &&
          full[..n] == message.full[..n]
      requires Below(full, Pow2(bitsPerChar)) && Below(message.full, Pow2(bitsPerChar))
      requires output == message.before + Spell(message.full[..n], alphabet)
      requires Packed(bitsPerChar, outBuf[..], bytePos, full, cur) && |cur| == bitPos < bitsPerChar
      requires 8 * message.pending + 8 == bitsPerChar * bytePos + bitPos
      requires Flat(message.data, 8) + Digits(octet, 8) == Flat(full, bitsPerChar) + cur
      modifies this`bytePos, this`bitPos, this`output, this`message, outBuf
      ensures Valid()
      ensures message.data == old(message.data) + [octet] && message.before == old(message.before)
    {
      hide Flat, Cut, Digits, TopOf, Spell;
      ghost var pending := message.pending + 1;
      if bytePos == outputBlockSize {
        Flush(full, n);
        pending := 0;
        assert full[..|full|] == full;
      }
      FlatLast(message.data, octet);
      message := Message(message.before, message.data + [octet], full, cur, pending);
    }

    method Flush(ghost full: seq<nat>, ghost n: nat)
      requires Settings() && bytePos == outputBlockSize && n == |full| - bytePos && n % outputBlockSize == 0
      requires Below(full, Pow2(bitsPerChar)) && Packed(bitsPerChar, outBuf[..], bytePos, full, [])
      modifies this`bytePos, this`bitPos, this`output, outBuf
      ensures bytePos == 0 && bitPos == 0 && |full| % outputBlockSize == 0
      ensures Below(full[..n], |alphabet|) && Below(full, |alphabet|)
      ensures old(output) == message.before + Spell(full[..n], alphabet) ==>
          output == message.before + Spell(full, alphabet)
    {
      hide TopOf, Spell;
      assert outBuf[..bytePos] == full[n..];
      Translate(bytePos);
      assert outBuf[..bytePos] == Spell(full[n..], alphabet);
      ghost var before := message.before;
      assert before + Spell(full[..n], alphabet) + Spell(full[n..], alphabet)
          == before + (Spell(full[..n], alphabet) + Spell(full[n..], alphabet));
      output := output + outBuf[..bytePos];
      SpellAppend(full[..n], full[n..], alphabet);
      assert full[..n] + full[n..] == full;
      NextBlock(n, outputBlockSize);
      bytePos, bitPos := 0, 0;
    }

    /** Digits to characters, in place. */
    method Translate(n: nat)
      requires Settings() && n <= outBuf.Length
      requires forall i :: 0 <= i < n ==> outBuf[i] < |alphabet|
      modifies outBuf
      ensures outBuf[..n] == Spell(old(outBuf[..n]), alphabet)
    {
      for i := 0 to n
        invariant forall j :: 0 <= j < i ==> outBuf[j] == alphabet[old(outBuf[j])]
        invariant forall j :: i <= j < n ==> outBuf[j] == old(outBuf[j])
      {
        outBuf[i] := alphabet[outBuf[i]];
      }
    }
  }

  /** Full digits, further bits, and how many octets of the message are still in the buffer. */
  datatype Message = Message(before: seq<byte>, data: seq<byte>, full: seq<nat>, cur: seq<bool>, pending: nat) {

    ghost predicate Consistent(k: nat, bytePos: nat, bitPos: nat)
      requires BitsPerChar(k)
    {
      && Flat(data, 8) == Flat(full, k) + cur && |cur| == bitPos < k && Below(full, Pow2(k))
      && bytePos <= |full| && (|full| - bytePos) % BlockChars(k) == 0
    }
  }

  // ---------- the decoder ----------

  /** Or-ing all bits of a digit below those that are there already, when there is room for them. */
  lemma FillOctet(k: nat, cur: seq<bool>, v: nat)
    requires BitsPerChar(k) && |cur| + k <= 8 && v < Pow2(k)
    ensures Low(Or(TopOf(cur, 8), ShiftLeft(v, 8 - |cur| - k)), 8) == TopOf(cur + Digits(v, k), 8)
  {
    hide Number, Or, ShiftLeft, Digits, Pow2;
    var d, m := Digits(v, k), 8 - |cur| - k;
    NumberOfDigits(v, k);
    TopOfIs(d, k + m);
    OrDigits(cur, d + Zeros(m));
    assert cur + (d + Zeros(m)) == cur + d + Zeros(m);
    LowFits(Number(cur + d + Zeros(m)), 8);
  }

  lemma LowFits(v: nat, n: nat)
    requires v < Pow2(n)
    ensures Low(v, n) == v
  {
    Arithmetic.DivModUnique(v, Pow2(n), 0, v);
  }

  /** Or-ing the upper bits of a digit below those that are there already, and putting the others in a new octet. */
  lemma {:induction false} SplitDigit(k: nat, cur: seq<bool>, v: nat)
    requires BitsPerChar(k) && |cur| <= 8 < |cur| + k && v < Pow2(k)
    ensures var d, t := Digits(v, k), 8 - |cur|;
            && Low(Or(TopOf(cur, 8), ShiftRight(v, k - t)), 8) == Number(cur + d[..t])
            && Low(Or(0, ShiftLeft(v, 8 - (k - t))), 8) == TopOf(d[t..], 8)
  {
    hide Number, Or, ShiftLeft, ShiftRight, Digits, Pow2, Low;
    var d, t := Digits(v, k), 8 - |cur|;
    NumberOfDigits(v, k);
    assert d == d[..t] + d[t..];
    ShiftDown(d[..t], d[t..]);
    OrDigits(cur, d[..t]);
    LowFits(Number(cur + d[..t]), 8);
    OrNothing(ShiftLeft(v, 8 - (k - t)));
    ShiftUp(d[..t], d[t..], 8 - (k - t));
  }

  lemma {:induction false} OrNothing(x: nat)
    ensures Or(0, x) == x
  {
    if x > 0 {
      OrNothing(x / 2);
    }
  }

  /** What the buffer is after one more digit. */
  lemma {:induction false} PackOctets(k: nat, buf: seq<nat>, pos: nat, full: seq<nat>, cur: seq<bool>, v: nat)
    requires BitsPerChar(k) && Packed(8, buf, pos, full, cur) && pos < |buf| && v < Pow2(k)
    ensures var newBitPos := |cur| + k;
            if newBitPos <= 8 then
              var after := buf[pos := Low(Or(buf[pos], ShiftLeft(v, 8 - newBitPos)), 8)];
              if newBitPos < 8 then Packed(8, after, pos, full, cur + Digits(v, k))
              else Packed(8, after, pos + 1, full + [Number(cur + Digits(v, k))], [])
            else
              pos + 1 < |buf| ==>
                var t := 8 - |cur|;
                Packed(8, buf[pos := Low(Or(buf[pos], ShiftRight(v, newBitPos - 8)), 8)]
                             [pos + 1 := Low(Or(buf[pos + 1], ShiftLeft(v, 16 - newBitPos)), 8)],
                       pos + 1, full + [Number(cur + Digits(v, k)[..t])], Digits(v, k)[t..])
  {
    hide Or, Low, ShiftRight, ShiftLeft, Number, Digits, Pow2;
    var newBitPos, d := |cur| + k, Digits(v, k);
    if newBitPos <= 8 {
      FillOctet(k, cur, v);
      NumberOfZeros(8);
      assert [] + Zeros(8) == Zeros(8) && cur + d + Zeros(0) == cur + d;
    } else {
      SplitDigit(k, cur, v);
    }
  }

  /** The bits of the digit go behind the others. */
  lemma {:induction false} FlatMore(full: seq<nat>, octet: seq<bool>, rest: seq<bool>, cur: seq<bool>, d: seq<bool>)
    requires |octet| == 8 && octet + rest == cur + d
    ensures Flat(full + [Number(octet)], 8) + rest == Flat(full, 8) + cur + d
  {
    DigitsOfNumber(octet);
    FlatLast(full, Number(octet));
    assert Flat(full, 8) + octet + rest == Flat(full, 8) + (octet + rest);
    assert Flat(full, 8) + cur + d == Flat(full, 8) + (cur + d);
  }

  /** Characters of one block at most wait in the buffer. */
  lemma OctetRoom(k: nat, bytePos: nat, bitPos: nat, pending: nat)
    requires BitsPerChar(k) && bitPos < 8 && 8 * bytePos + bitPos == k * pending && 8 * bytePos < BlockBits(k)
    ensures k * (pending + 1) == 8 * bytePos + bitPos + k <= BlockBits(k)
  {
    if k == 3 {
    } else if k == 5 {
    } else if k == 6 {
    } else if k == 7 {
    } else if k == 1 {
    } else if k == 2 {
    }
  }

  lemma NothingRead(lookup: seq<int>, k: nat)
    requires |lookup| == 256
    ensures Flat(Read([], lookup), k) == Flat([], 8) + []
  {
  }

  lemma FlatDigit(vs: seq<nat>, v: nat, k: nat)
    ensures Flat(vs + [v], k) == Flat(vs, k) + Digits(v, k)
  {
    assert (vs + [v])[..|vs|] == vs;
  }

  lemma StartOctets(buf: seq<nat>, full: seq<nat>)
    requires |buf| > 0 && Below(full, Pow2(8)) && forall i :: 0 <= i < |buf| ==> buf[i] == 0
    ensures Packed(8, buf, 0, full, [])
  {
    NumberOfZeros(8);
    assert [] + Zeros(8) == Zeros(8);
  }

  lemma LastOctets(buf: seq<nat>, pos: nat, full: seq<nat>, cur: seq<bool>)
    requires Packed(8, buf, pos, full, cur)
    ensures pos <= |full| && pos <= |buf| && buf[..pos] == full[|full| - pos..]
  {
  }

  lemma JoinOctets(before: seq<byte>, full: seq<byte>, n: nat)
    requires n <= |full|
    ensures before + full[..n] + full[n..] == before + full && full[..|full|] == full
  {
  }

  lemma Pow2Eight()
    ensures Pow2(8) == 256
  {
  }

  /** The digit as bits: they complete an octet or they do not. */
  lemma AddBits(full: seq<byte>, cur: seq<bool>, d: seq<bool>)
      returns (full': seq<byte>, cur': seq<bool>)
    requires |cur| < 8 && |d| < 8
    ensures Flat(full', 8) + cur' == Flat(full, 8) + cur + d
    ensures if |cur| + |d| < 8 then full' == full && cur' == cur + d
            else full' == full + [Number(cur + d[..8 - |cur|])] && cur' == d[8 - |cur|..]
  {
    if |cur| + |d| < 8 {
      full', cur' := full, cur + d;
      assert Flat(full, 8) + cur + d == Flat(full, 8) + (cur + d);
    } else {
      var octet := cur + d[..8 - |cur|];
      Pow2Eight();
      full', cur' := full + [Number(octet)], d[8 - |cur|..];
      assert octet + cur' == cur + d;
      FlatMore(full, octet, cur', cur, d);
    }
  }

  lemma DecodedIs(k: nat, lookup: seq<int>, text: seq<byte>, full: seq<byte>, cur: seq<bool>)
    requires Lookup(k, lookup) && |cur| < 8 && Flat(Read(text, lookup), k) == Flat(full, 8) + cur
    ensures DecodedOctets(k, lookup, text) == full
  {
    hide Flat, Read, Cut;
    var bits := Flat(Read(text, lookup), k);
    assert bits[..8 * (|bits| / 8)] == Flat(full, 8) == Flat(full, 8) + [];
    OctetsBelow(full);
    CutFlat(full, 8, []);
  }

  /** The first multiple of the bits of a character that 8 divides, in octets. */
  method DecoderBlockSize(k: nat) returns (size: nat)
    requires BitsPerChar(k)
    ensures 8 * size == BlockBits(k) && size > 0
  {
    hide BlockBits;
    var i := k;
    OctetStep(k, i, 1);
    ghost var n := 1;
    while i % 8 != 0
      invariant n > 0 && i == k * n <= BlockBits(k)
      invariant if i % 8 == 0 then i == BlockBits(k) else i + k <= BlockBits(k)
      decreases BlockBits(k) - i
    {
      i := i + k;
      n := n + 1;
      OctetStep(k, i, n);
    }
    size := i / 8;
  }

  lemma OctetStep(k: nat, i: nat, n: nat)
    requires BitsPerChar(k) && n > 0 && i == k * n && (i == k || i <= BlockBits(k))
    ensures 0 < i <= BlockBits(k) && if i % 8 == 0 then i == BlockBits(k) else i + k <= BlockBits(k)
  {
    if k == 3 {
    } else if k == 5 {
    } else if k == 6 {
    } else if k == 7 {
    } else if k == 1 {
    } else if k == 2 {
    }
  }

  /** The text so far, the output before it, whole octets, further bits, and how many characters are in the buffer. */
  datatype Reading = Reading(before: seq<byte>, text: seq<byte>, full: seq<byte>, cur: seq<bool>, pending: nat)

  class BaseNDecoder {
    const lookup: seq<int>
    const bitsPerChar: nat
    const outputBlockSize: nat
    const outBuf: array<byte>
    var bytePos: nat
    var bitPos: nat
    /** What was passed on to the attached filter. */
    var output: seq<byte>
    ghost var reading: Reading

    ghost predicate Settings()
      reads this
    {
      && Lookup(bitsPerChar, lookup)
      && outputBlockSize == outBuf.Length && 8 * outputBlockSize == BlockBits(bitsPerChar)
    }

    ghost predicate Valid()
      reads this, outBuf
    {
      && Settings() && bytePos < outputBlockSize && |reading.cur| == bitPos < 8 && bytePos <= |reading.full|
      && 8 * bytePos + bitPos == bitsPerChar * reading.pending
      && Flat(Read(reading.text, lookup), bitsPerChar) == Flat(reading.full, 8) + reading.cur
      && (bytePos > 0 || bitPos > 0 ==> Packed(8, outBuf[..], bytePos, reading.full, reading.cur))
      && output == reading.before + reading.full[..|reading.full| - bytePos]
    }

    constructor (table: seq<int>, log2base: nat)
      requires Lookup(log2base, table)
      ensures Valid() && reading == Reading([], [], [], [], 0) && output == []
      ensures lookup == table && bitsPerChar == log2base && fresh(outBuf)
    {
      lookup, bitsPerChar := table, log2base;
      var size := DecoderBlockSize(log2base);
      outputBlockSize := size;
      outBuf := new byte[size](_ => 0);
      bytePos, bitPos, output := 0, 0, [];
      reading := Reading([], [], [], [], 0);
    }

    method PutChar(c: byte)
      requires Valid()
      modifies this`bytePos, this`bitPos, this`output, this`reading, outBuf
      ensures Valid()
      ensures reading.text == old(reading.text) + [c] && reading.before == old(reading.before)
    {
      hide Packed, Flat, Read, Digits, Pow2;
      ReadLast(reading.text, c, lookup);
      var value := lookup[c];
      if !(0 <= value < 256) {
        reading := reading.(text := reading.text + [c]);
        return;
      }
      if bytePos == 0 && bitPos == 0 {
        forall i | 0 <= i < outBuf.Length {
          outBuf[i] := 0;
        }
        OctetsBelow(reading.full);
        StartOctets(outBuf[..], reading.full);
      }
      FlatDigit(Read(reading.text, lookup), value, bitsPerChar);
      AddDigit(c, value);
    }

    method AddDigit(c: byte, value: nat)
      requires Settings() && bytePos < outputBlockSize && |reading.cur| == bitPos < 8 && bytePos <= |reading.full|
      requires 8 * bytePos + bitPos == bitsPerChar * reading.pending && value < Pow2(bitsPerChar)
      requires Flat(Read(reading.text + [c], lookup), bitsPerChar)
            == Flat(reading.full, 8) + reading.cur + Digits(value, bitsPerChar)
      requires Packed(8, outBuf[..], bytePos, reading.full, reading.cur)
      requires output == reading.before + reading.full[..|reading.full| - bytePos]
      modifies this`bytePos, this`bitPos, this`output, this`reading, outBuf
      ensures Valid()
      ensures reading.text == old(reading.text) + [c] && reading.before == old(reading.before)
    {
      hide Packed, Flat, Read, Digits, Pow2, Low, Or, ShiftRight, ShiftLeft, Number;
      OctetRoom(bitsPerChar, bytePos, bitPos, reading.pending);
      ghost var n: nat := |reading.full| - bytePos;
      ghost var full, cur := Place(value);
      assert full[..n] == reading.full[..n];
      EndChar(c, full, cur, n);
    }

    /** The bits of one digit go into the buffer. */
    method Place(value: nat) returns (ghost full: seq<byte>, ghost cur: seq<bool>)
      requires Settings() && |reading.cur| == bitPos < 8 && value < Pow2(bitsPerChar)
      requires bytePos < outputBlockSize && 8 * bytePos + bitPos + bitsPerChar <= 8 * outputBlockSize
      requires Packed(8, outBuf[..], bytePos, reading.full, reading.cur)
      modifies this`bytePos, this`bitPos, outBuf
      ensures |cur| == bitPos < 8 && Packed(8, outBuf[..], bytePos, full, cur)
      ensures 8 * bytePos + bitPos == 8 * old(bytePos) + old(bitPos) + bitsPerChar
      ensures reading.full <= full && |full| - bytePos == |reading.full| - old(bytePos)
      ensures Flat(full, 8) + cur == Flat(reading.full, 8) + reading.cur + Digits(value, bitsPerChar)
    {
      hide Packed, Flat, Digits, Pow2, Low, Or, ShiftRight, ShiftLeft, Number;
      PackOctets(bitsPerChar, outBuf[..], bytePos, reading.full, reading.cur, value);
      Pow2Eight();
      var newBitPos := bitPos + bitsPerChar;
      ghost var buf: seq<nat> := outBuf[..];
      if newBitPos <= 8 {
        outBuf[bytePos] := Low(Or(outBuf[bytePos], ShiftLeft(value, 8 - newBitPos)), 8);
        assert outBuf[..] == buf[bytePos := outBuf[bytePos]];
      } else {
        outBuf[bytePos] := Low(Or(outBuf[bytePos], ShiftRight(value, newBitPos - 8)), 8);
        outBuf[bytePos + 1] := Low(Or(outBuf[bytePos + 1], ShiftLeft(value, 16 - newBitPos)), 8);
        assert outBuf[..] == buf[bytePos := outBuf[bytePos]][bytePos + 1 := outBuf[bytePos + 1]];
      }
      ghost var d := Digits(value, bitsPerChar);
      assert d[..|d|] == d && d[|d|..] == [];
      full, cur := AddBits(reading.full, reading.cur, d);
      bitPos := newBitPos;
      ghost var placed := outBuf[..];
      while bitPos >= 8
        invariant outBuf[..] == placed
        invariant bytePos <= old(bytePos) + 1 && bitPos + 8 * (bytePos - old(bytePos)) == newBitPos &&
            bytePos >= old(bytePos)
      {
        bitPos := bitPos - 8;
        bytePos := bytePos + 1;
      }
    }

    /** A full block goes out. */
    method EndChar(c: byte, ghost full: seq<byte>, ghost cur: seq<bool>, ghost n: nat)
      requires Settings() && bytePos <= outputBlockSize && |cur| == bitPos < 8 && n == |full| - bytePos
      requires 8 * bytePos + bitPos == bitsPerChar * (reading.pending + 1) &&
          (bytePos == outputBlockSize ==> bitPos == 0)
      requires Flat(Read(reading.text + [c], lookup), bitsPerChar) == Flat(full, 8) + cur
      requires Packed(8, outBuf[..], bytePos, full, cur)
      requires output == reading.before + full[..n]
      modifies this`bytePos, this`bitPos, this`output, this`reading
      ensures Valid()
      ensures reading.text == old(reading.text) + [c] && reading.before == old(reading.before)
    {
      hide Flat, Read, TopOf, Pow2;
      ghost var pending := reading.pending + 1;
      if bytePos == outputBlockSize {
        assert outBuf[..outputBlockSize] == full[n..];
        output := output + outBuf[..outputBlockSize];
        JoinOctets(reading.before, full, n);
        bytePos, bitPos, pending := 0, 0, 0;
      }
      reading := Reading(reading.before, reading.text + [c], full, cur, pending);
    }

    /** The end of a text: the whole octets go out, and bits left over are dropped. */
    method End()
      requires Valid()
      modifies this`bytePos, this`bitPos, this`output, this`reading
      ensures Valid() && reading == Reading(output, [], [], [], 0)
      ensures output == old(reading.before) + DecodedOctets(bitsPerChar, lookup, old(reading.text))
    {
      hide Flat, Read, Cut, TopOf, Pow2, Packed;
      ghost var full, before, n := reading.full, reading.before, |reading.full| - bytePos;
      DecodedIs(bitsPerChar, lookup, reading.text, full, reading.cur);
      if bytePos > 0 {
        LastOctets(outBuf[..], bytePos, full, reading.cur);
      }
      assert outBuf[..bytePos] == full[n..];
      output := output + outBuf[..bytePos];
      JoinOctets(before, full, n);
      bytePos, bitPos := 0, 0;
      reading := Reading(output, [], [], [], 0);
      NothingRead(lookup, bitsPerChar);
      assert output == output + reading.full[..0];
    }

    method Put2(begin: seq<byte>, messageEnd: bool)
      requires Valid()
      modifies this`bytePos, this`bitPos, this`output, this`reading, outBuf
      ensures Valid()
      ensures !messageEnd ==> reading.text == old(reading.text) + begin && reading.before == old(reading.before)
      ensures messageEnd ==>
        && reading.text == [] && output == reading.before
        && output == old(reading.before) + DecodedOctets(bitsPerChar, lookup, old(reading.text) + begin)
    {
      hide DecodedOctets, Packed, Flat, Read;
      ghost var text := reading.text;
      for i := 0 to |begin|
        invariant Valid() && reading.before == old(reading.before) && reading.text == text + begin[..i]
      {
        PutChar(begin[i]);
        assert begin[..i] + [begin[i]] == begin[..i + 1];
      }
      assert begin[..|begin|] == begin;
      if messageEnd {
        End();
      }
    }
  }

  // ---------- groups ----------

  class Grouper {
    const groupSize: nat
    const separator: seq<byte>
    const terminator: seq<byte>
    var counter: nat
    /** What was passed on to the attached filter. */
    var output: seq<byte>
    /** The message so far, and the output before it. */
    ghost var data: seq<byte>
    ghost var before: seq<byte>

    ghost predicate Valid()
      reads this
    {
      && output == before + Grouped(data, groupSize, separator)
      && (groupSize > 0 ==> Counts(counter, |data|, groupSize))
    }

    constructor (size: nat, between: seq<byte>, after: seq<byte>)
      ensures Valid() && data == [] && before == [] && output == []
      ensures groupSize == size && separator == between && terminator == after
    {
      groupSize, separator, terminator := size, between, after;
      counter, output, data, before := 0, [], [], [];
    }

    method Put2(begin: seq<byte>, messageEnd: bool)
      requires Valid()
      modifies this
      ensures Valid()
      ensures !messageEnd ==> data == old(data) + begin && before == old(before)
      ensures messageEnd ==>
        && data == [] && output == before
        && output == old(before) + (Grouped(old(data) + begin, groupSize, separator) + terminator)
    {
      hide Grouped, Counts;
      if groupSize > 0 {
        PutGroups(begin);
      } else {
        output := output + begin;
        data := data + begin;
        NoGroups(before, old(data), begin, separator);
      }
      if messageEnd {
        ghost var text := Grouped(data, groupSize, separator);
        assert before + text + terminator == before + (text + terminator);
        output := output + terminator;
        counter, before, data := 0, output, [];
        NothingGrouped(groupSize, separator, output);
      }
    }

    method PutGroups(begin: seq<byte>)
      requires Valid() && groupSize > 0
      modifies this`counter, this`output, this`data
      ensures Valid() && data == old(data) + begin
    {
      hide Grouped, Counts, StartsGroup;
      var position := 0;
      assert data == data + begin[..0];
      while position < |begin|
        invariant position <= |begin| && Valid() && data == old(data) + begin[..position]
      {
        CountsIs(counter, |data|, groupSize);
        var starts := StartsGroup(|data|, groupSize);
        if counter == groupSize {
          output := output + separator;
          counter := 0;
        }
        var len: nat := if |begin| - position < groupSize - counter then |begin| - position else groupSize - counter;
        ghost var piece := begin[position..position + len];
        GroupedPiece(data, piece, groupSize, separator);
        JoinPiece(before, Grouped(data, groupSize, separator), if starts then separator else [], piece);
        CountMore(|data|, len, groupSize);
        output := output + begin[position..position + len];
        data := data + piece;
        assert begin[..position] + piece == begin[..position + len];
        position := position + len;
        counter := counter + len;
      }
      assert begin[..|begin|] == begin;
    }
  }

  /** The counter: how many octets of the last group are out, all of them before the next one begins. */
  predicate Counts(counter: nat, n: nat, size: nat)
    requires size > 0
  {
    counter == if n > 0 && n % size == 0 then size else n % size
  }

  lemma CountsIs(counter: nat, n: nat, size: nat)
    requires size > 0 && Counts(counter, n, size)
    ensures counter == size <==> StartsGroup(n, size)
    ensures counter < size ==> counter == n % size
    ensures counter <= size && (counter == size ==> n % size == 0)
  {
  }

  lemma CountMore(n: nat, len: nat, size: nat)
    requires size > 0 && len > 0 && n % size + len <= size
    ensures Counts(n % size + len, n + len, size)
  {
    Arithmetic.DivMod(n, size);
    if n % size + len == size {
      Arithmetic.Distribute(n / size, 1, size);
      Arithmetic.DivModUnique(n + len, size, n / size + 1, 0);
    } else {
      Arithmetic.DivModUnique(n + len, size, n / size, n % size + len);
    }
  }

  lemma JoinPiece(before: seq<byte>, g: seq<byte>, s: seq<byte>, piece: seq<byte>)
    ensures before + (g + s + piece) == before + g + s + piece && before + g + [] == before + g
  {
  }

  lemma NoGroups(before: seq<byte>, data: seq<byte>, piece: seq<byte>, separator: seq<byte>)
    ensures before + Grouped(data + piece, 0, separator) == before + Grouped(data, 0, separator) + piece
  {
    if piece == [] {
      assert data + piece == data;
    } else {
      GroupedPiece(data, piece, 0, separator);
    }
  }

  lemma NothingGrouped(size: nat, separator: seq<byte>, output: seq<byte>)
    ensures output + Grouped([], size, separator) == output && (size > 0 ==> Counts(0, 0, size))
  {
  }

  // ---------- the wrapper that stores the private key ----------

  /** Encoder and grouper in a row, without line breaks. */
  method Encode(str: seq<byte>) returns (encoded: seq<byte>)
    ensures encoded == Rfc4648(str)
  {
    hide Grouped, EncodedText, Rfc4648;
    Base64IsRfc4648(str);
    var encoder := new BaseNEncoder(Base64Alphabet(), 6, '=' as int);
    encoder.Put2(str, true);
    assert [] + str == str && [] + Rfc4648(str) == Rfc4648(str);
    assert encoder.output == Rfc4648(str);
    var grouper := new Grouper(0, [], []);
    grouper.Put2(encoder.output, true);
    encoded := grouper.output;
    Ungrouped(Rfc4648(str));
    assert grouper.groupSize == 0;
  }

  lemma Ungrouped(data: seq<byte>)
    ensures [] + (Grouped([] + data, 0, []) + []) == data
  {
    NoGroups([], [], data, []);
    assert [] + data == data;
  }

  lemma Base64LookupIs()
    ensures Lookup(6, Base64Lookup())
  {
    Base64Matches();
  }

  method Decode(str: seq<byte>) returns (decoded: seq<byte>)
    ensures forall data :: str == Rfc4648(data) ==> decoded == data
  {
    hide Base64Lookup, Rfc4648, DecodedOctets, Lookup, Matches, Pow2, Skipped, Read;
    Base64LookupIs();
    var decoder := new BaseNDecoder(Base64Lookup(), 6);
    decoder.Put2(str, true);
    decoded := decoder.output;
    assert [] + str == str;
    forall data | str == Rfc4648(data)
      ensures decoded == data
    {
      Base64RoundTrip(data);
    }
  }
}
