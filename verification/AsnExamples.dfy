/** Lengths and elements written out. */
module AsnExamples {
  import opened Asn
  import opened OctetValues
  import opened Octets

  /** The bound of 64-bit lengths. */
  lemma SixtyFourBits()
    ensures Pow256(8) == 0x1_0000_0000_0000_0000
  {
    assert Pow256(4) == 0x1_0000_0000;
  }

  /** The short form, the example of section 8.1.3.5 of X.690, and a length of two octets, high octet first. */
  lemma {:induction false} LengthExamples()
    ensures 300 < Pow256(8)
    ensures LengthOctets(0) == [0] && LengthOctets(0x7f) == [0x7f]
    ensures LengthOctets(201) == [0x81, 0xc9] && LengthOctets(300) == [0x82, 0x01, 0x2c]
  {
    SixtyFourBits();
    OctetLiterals();
    hide Octet, Pow256;
    assert OctetCount(201) == 1 && OctetCount(300) == 2;
    assert BigEndian(0, 0) == [] && BigEndian(201, 1) == [0xc9];
    assert BigEndian(1, 1) == [1] && BigEndian(300, 2) == [1, 0x2c];
  }

  lemma OctetLiterals()
    ensures Octet(0) == 0 && Octet(0x7f) == 0x7f && Octet(0x81) == 0x81 && Octet(201) == 0xc9
    ensures Octet(0x82) == 0x82 && Octet(1) == 1 && Octet(0x2c) == 0x2c && Octet(3) == 3 && Octet(5) == 5
  {
  }

  lemma ValueLiterals()
    ensures Value(1) == 1 && Value(2) == 2 && Value(0x80) == 0x80
    ensures IsConstructed(0x30) && !IsConstructed(2)
  {
  }

  /** A sequence in a sequence, both of indefinite length, with the number 5 inside and an octet behind. */
  lemma {:induction false} NestedExample()
    ensures var s: seq<bv8> := [0x30, 0x80, 0x30, 0x80, 2, 1, 5, 0, 0, 0, 0, 7];
            && ParseElement(s).Parsed? && ParseElement(s).rest == [7] && Fits(ParseElement(s).value)
            && DefiniteForm(ParseElement(s).value) == [0x30, 5, 0x30, 3, 2, 1, 5]
  {
    var number := Whole(2, [5]);
    var inner := Parts(0x30, Cons(number, Nil));
    ValueLiterals();
    Forms();
    hide ParseElement, Fits, DefiniteForm, IsConstructed;
    var last: seq<bv8>, rest: seq<bv8> := [7], [0, 0, 7];
    var part: seq<bv8>, whole: seq<bv8> := [2, 1, 5], [0x30, 0x80, 2, 1, 5, 0, 0];
    var s: seq<bv8> := [0x30, 0x80, 0x30, 0x80, 2, 1, 5, 0, 0, 0, 0, 7];
    NumberParsed([0, 0] + rest);
    OneParsed(0x30, part, number, rest);
    assert [0x30, 0x80] + part + [0, 0] + rest == whole + ([0, 0] + last) && [0, 0] + last == rest;
    OneParsed(0x30, whole, inner, last);
    assert [0x30, 0x80] + whole + [0, 0] + last == s;
  }

  lemma {:induction false} NumberParsed(rest: seq<bv8>)
    ensures ParseElement([2, 1, 5] + rest) == Parsed(Whole(2, [5]), rest)
  {
    var s := [2, 1, 5] + rest;
    ValueLiterals();
    hide Value, ParseElements;
    assert s[1..] == [1, 5] + rest && s[1..][1..] == [5] + rest;
    assert ParseLength(s[1..]) == Definite(1, [5] + rest);
    assert ([5] + rest)[..1] == [5] && ([5] + rest)[1..] == rest;
  }

  /** An element of indefinite length with one part: the tag and 0x80, the part, and two zeros. */
  lemma {:induction false} OneParsed(tag: bv8, part: seq<bv8>, e: Element, rest: seq<bv8>)
    requires IsConstructed(tag) && |part| >= 2 && part[0] != 0
    requires ParseElement(part + ([0, 0] + rest)) == Parsed(e, [0, 0] + rest)
    ensures ParseElement([tag, 0x80] + part + [0, 0] + rest) == Parsed(Parts(tag, Cons(e, Nil)), rest)
  {
    var body := part + ([0, 0] + rest);
    OneListed(part, e, rest);
    hide ParseElement, ParseElements, IsConstructed;
    IndefiniteParsed(tag, body, Cons(e, Nil), rest);
    Regroup([tag, 0x80], part, [0, 0], rest);
  }

  lemma Regroup(a: seq<bv8>, b: seq<bv8>, c: seq<bv8>, d: seq<bv8>)
    ensures a + b + c + d == a + (b + (c + d))
  {
  }

  lemma {:induction false} IndefiniteParsed(tag: bv8, body: seq<bv8>, es: Elements, rest: seq<bv8>)
    requires IsConstructed(tag) && ParseElements(body) == Parsed(es, rest)
    ensures ParseElement([tag, 0x80] + body) == Parsed(Parts(tag, es), rest)
  {
    hide ParseLength, ParseElements, IsConstructed;
    IndefiniteLength(body);
    assert ([tag, 0x80] + body)[1..] == [0x80] + body;
  }

  lemma {:induction false} OneListed(part: seq<bv8>, e: Element, rest: seq<bv8>)
    requires |part| >= 2 && part[0] != 0
    requires ParseElement(part + ([0, 0] + rest)) == Parsed(e, [0, 0] + rest)
    ensures ParseElements(part + ([0, 0] + rest)) == Parsed(Cons(e, Nil), rest)
  {
    var body, end := part + ([0, 0] + rest), [0, 0] + rest;
    assert body[..2][0] == part[0];
    assert end[..2] == [0, 0] && end[2..] == rest;
    hide ParseElement;
    assert ParseElements(end) == Parsed(Nil, rest);
  }

  lemma {:induction false} Forms()
    ensures var e := Parts(0x30, Cons(Parts(0x30, Cons(Whole(2, [5]), Nil)), Nil));
            Fits(e) && DefiniteForm(e) == [0x30, 5, 0x30, 3, 2, 1, 5]
  {
    SixtyFourBits();
    OctetLiterals();
    hide Octet, Pow256;
    var number := Whole(2, [5]);
    assert DefiniteForm(number) == [2, 1, 5];
    assert DefiniteForms(Cons(number, Nil)) == [2, 1, 5];
    var inner := Parts(0x30, Cons(number, Nil));
    assert DefiniteForm(inner) == [0x30, 3, 2, 1, 5];
    assert DefiniteForms(Cons(inner, Nil)) == [0x30, 3, 2, 1, 5];
  }
}
