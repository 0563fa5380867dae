/** The test vectors of section 10 of RFC 4648, and what a text in groups is. */
module BaseExamples {
  import Arithmetic
  import opened BaseText
  import opened BinaryDigits
  import opened Bytes

  /** The codes of some characters. */
  function Codes(text: string): (s: seq<nat>)
    ensures |s| == |text|
  {
    seq(|text|, i requires 0 <= i < |text| => text[i] as nat)
  }

  /** Table 1 of RFC 4648. */
  lemma Base64Table()
    ensures Base64Alphabet() ==
            Codes("ABCDEFGH") + Codes("IJKLMNOP") + Codes("QRSTUVWX") + Codes("YZabcdef") +
            Codes("ghijklmn") + Codes("opqrstuv") + Codes("wxyz0123") + Codes("456789+/")
  {
    EightChars(0, "ABCDEFGH");
    EightChars(8, "IJKLMNOP");
    EightChars(16, "QRSTUVWX");
    EightChars(24, "YZabcdef");
    EightChars(32, "ghijklmn");
    EightChars(40, "opqrstuv");
    EightChars(48, "wxyz0123");
    EightChars(56, "456789+/");
    hide Codes;
    var a := Base64Alphabet();
    assert a == a[0..8] + a[8..16] + a[16..24] + a[24..32] + a[32..40] + a[40..48] + a[48..56] + a[56..64];
  }

  lemma EightChars(from: nat, text: string)
    requires from + 8 <= 64 && |text| == 8
    requires Base64Char(from) == text[0] as nat && Base64Char(from + 1) == text[1] as nat
    requires Base64Char(from + 2) == text[2] as nat && Base64Char(from + 3) == text[3] as nat
    requires Base64Char(from + 4) == text[4] as nat && Base64Char(from + 5) == text[5] as nat
    requires Base64Char(from + 6) == text[6] as nat && Base64Char(from + 7) == text[7] as nat
    ensures Base64Alphabet()[from..from + 8] == Codes(text)
  {
    hide Base64Char;
  }

  lemma {:induction false} Base64Vectors()
    ensures Rfc4648([]) == []
    ensures Rfc4648([0x66]) == Codes("Zg==")
    ensures Rfc4648([0x66, 0x6f]) == Codes("Zm8=")
    ensures Rfc4648([0x66, 0x6f, 0x6f]) == Codes("Zm9v")
    ensures Rfc4648([0x66, 0x6f, 0x6f, 0x62, 0x61, 0x72]) == Codes("Zm9v") + Codes("YmFy")
  {
    var foobar: seq<byte> := [0x66, 0x6f, 0x6f, 0x62, 0x61, 0x72];
    ThreeMore(0x66, 0x6f, 0x6f, [], "Zm9v");
    ThreeMore(0x62, 0x61, 0x72, [], "YmFy");
    ThreeMore(0x66, 0x6f, 0x6f, [0x62, 0x61, 0x72], "Zm9v");
    assert foobar == [0x66, 0x6f, 0x6f] + [0x62, 0x61, 0x72];
  }

  lemma {:induction false} ThreeMore(a: byte, b: byte, c: byte, rest: seq<byte>, text: string)
    requires |text| == 4
    requires Base64Char(a / 4) == text[0] as nat && Base64Char(a % 4 * 16 + b / 16) == text[1] as nat
    requires Base64Char(b % 16 * 4 + c / 64) == text[2] as nat && Base64Char(c % 64) == text[3] as nat
    ensures Rfc4648([a, b, c] + rest) == Codes(text) + Rfc4648(rest)
  {
    hide Base64Char;
    assert ([a, b, c] + rest)[3..] == rest;
  }

  /** How many characters make whole octets, for each number of bits in a character. */
  lemma WholeBlocks()
    ensures BlockChars(1) == 8 && BlockChars(2) == 4 && BlockChars(3) == 8 && BlockChars(4) == 2
    ensures BlockChars(5) == 8 && BlockChars(6) == 4 && BlockChars(7) == 8
  {
  }

  /** A whole group, the separator, and the groups of what follows. */
  lemma {:induction false} FirstGroup(group: seq<byte>, rest: seq<byte>, size: nat, separator: seq<byte>)
    requires size > 0 && |group| == size && rest != []
    ensures Grouped(group + rest, size, separator) == group + separator + Grouped(rest, size, separator)
    decreases |rest|
  {
    hide Grouped, StartsGroup;
    OneGroup(group, size, separator);
    var init, last := rest[..|rest| - 1], rest[|rest| - 1];
    assert group + rest == group + init + [last];
    GroupedLast(group + init, last, size, separator);
    GroupedLast(init, last, size, separator);
    assert init + [last] == rest;
    StartsAfter(size, |init|);
    if init == [] {
      assert group + init == group;
      NothingGrouped(size, separator);
      assert group + separator + ([] + [] + [last]) == group + separator + [last];
    } else {
      FirstGroup(group, init, size, separator);
      var g, mark := Grouped(init, size, separator), if StartsGroup(|init|, size) then separator else [];
      assert group + separator + g + mark + [last] == group + separator + (g + mark + [last]);
    }
  }

  lemma NothingGrouped(size: nat, separator: seq<byte>)
    ensures Grouped([], size, separator) == [] && !StartsGroup(0, size)
  {
  }

  /** What fits into one group stays as it is. */
  lemma {:induction false} OneGroup(group: seq<byte>, size: nat, separator: seq<byte>)
    requires |group| <= size
    ensures Grouped(group, size, separator) == group
  {
    NothingGrouped(size, separator);
    if group != [] {
      hide Grouped, StartsGroup;
      GroupedPiece([], group, size, separator);
      assert [] + group == group && [] + [] + group == group;
    }
  }

  lemma GroupedLast(data: seq<byte>, last: byte, size: nat, separator: seq<byte>)
    ensures Grouped(data + [last], size, separator)
         == Grouped(data, size, separator) + (if StartsGroup(|data|, size) then separator else []) + [last]
  {
    assert (data + [last])[..|data|] == data;
  }

  lemma StartsAfter(size: nat, n: nat)
    requires size > 0
    ensures StartsGroup(size + n, size) <==> n == 0 || StartsGroup(n, size)
  {
    Arithmetic.DivMod(n, size);
    Arithmetic.DivModUnique(size + n, size, n / size + 1, n % size);
    if n == 0 {
      Arithmetic.DivModUnique(0, size, 0, 0);
    }
  }

  /** A group size of 0 leaves everything in one piece. */
  lemma {:induction false} NoGroups(data: seq<byte>, separator: seq<byte>)
    ensures Grouped(data, 0, separator) == data
  {
    NothingGrouped(0, separator);
    if data != [] {
      hide Grouped;
      GroupedPiece([], data, 0, separator);
      assert [] + data == data && [] + [] + data == data;
    }
  }
}
