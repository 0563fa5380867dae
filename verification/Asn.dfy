/** Basic and distinguished encoding rules: lengths, and turning indefinite lengths into definite ones. */
module Asn {
  import Arithmetic
  import opened OctetValues
  import opened Octets

  // ---------- lengths: section 8.1.3 of X.690 ----------

  /** BytePrecision: how many octets a number needs. */
  function OctetCount(n: nat): (c: nat)
    ensures n < Pow256(c)
    ensures n > 0 ==> c > 0 && Pow256(c - 1) <= n
  {
    if n == 0 then 0 else 1 + OctetCount(n / 256)
  }

  lemma {:induction false} Pow256Monotone(a: nat, b: nat)
    requires a <= b
    ensures Pow256(a) <= Pow256(b)
  {
    if a < b {
      Pow256Monotone(a, b - 1);
    }
  }

  lemma OctetCountAtMost(n: nat, k: nat)
    requires n < Pow256(k)
    ensures OctetCount(n) <= k
  {
    var c := OctetCount(n);
    if c > 0 {
      var d: nat := c - 1;
      if d >= k {
        Pow256Monotone(k, d);
      }
    }
  }

  /** The shortest definite form. */
  function LengthOctets(n: nat): (s: seq<bv8>)
    requires n < Pow256(8)
    ensures s != []
  {
    if n <= 0x7f then [Octet(n)]
    else
      OctetCountAtMost(n, 8);
      [Octet(0x80 + OctetCount(n))] + BigEndian(n, OctetCount(n))
  }

  /** Octets that say the length n in some definite form; numbers of more than 64 bits are not accepted. */
  predicate IsLength(s: seq<bv8>, n: nat) {
    || (|s| == 1 && n == Value(s[0]) < 0x80)
    || (|s| >= 2 && Value(s[0]) == 0x80 + (|s| - 1) && n == FromBigEndian(s[1..]) < Pow256(8))
  }

  datatype LengthResult = NoLength | Indefinite(rest: seq<bv8>) | Definite(length: nat, rest: seq<bv8>)

  function ParseLength(s: seq<bv8>): (r: LengthResult)
    ensures !r.NoLength? ==> |r.rest| < |s|
  {
    if s == [] then NoLength
    else
      var first := Value(s[0]);
      if first < 0x80 then Definite(first, s[1..])
      else if first == 0x80 then Indefinite(s[1..])
      else if |s| - 1 < first - 0x80 then NoLength
      else
        var n := FromBigEndian(s[1..first - 0x7f]);
        if n < Pow256(8) then Definite(n, s[first - 0x7f..]) else NoLength
  }

  /** A definite length is read exactly where one is written, and then to its end. */
  lemma ParseLengthIff(l: seq<bv8>, n: nat, rest: seq<bv8>)
    ensures ParseLength(l + rest) == Definite(n, rest) <==> IsLength(l, n)
  {
    hide Value, FromBigEndian, Pow256;
    var s := l + rest;
    if IsLength(l, n) {
      assert s[1..] == l[1..] + rest;
      assert s[1..|l|] == l[1..] && s[|l|..] == rest;
    }
    if ParseLength(s) == Definite(n, rest) {
      var first := Value(s[0]);
      if first < 0x80 {
        assert |s[1..]| == |rest|;
      } else {
        assert |s[first - 0x7f..]| == |rest|;
        assert s[1..|l|] == l[1..];
      }
    }
  }

  /** Reading what DERLengthEncode wrote gives the length back, for every 64-bit length; no other form is shorter. */
  lemma LengthRoundTrip(n: nat, rest: seq<bv8>)
    requires n < Pow256(8)
    ensures ParseLength(LengthOctets(n) + rest) == Definite(n, rest)
    ensures forall l :: IsLength(l, n) ==> |LengthOctets(n)| <= |l|
  {
    hide Value, Octet, ParseLength, FromBigEndian, BigEndian, OctetCount, Pow256;
    LengthOctetsAre(n);
    ParseLengthIff(LengthOctets(n), n, rest);
    forall l | IsLength(l, n)
      ensures |LengthOctets(n)| <= |l|
    {
      if n > 0x7f {
        ValueBound(l[1..]);
        OctetCountAtMost(n, |l| - 1);
      }
    }
  }

  lemma LengthOctetsAre(n: nat)
    requires n < Pow256(8)
    ensures IsLength(LengthOctets(n), n)
  {
    hide Value, Octet, FromBigEndian, BigEndian, OctetCount, Pow256;
    if n <= 0x7f {
      ValueOfOctet(n);
    } else {
      var c := OctetCount(n);
      OctetCountAtMost(n, 8);
      ValueOfOctet(0x80 + c);
      ValueOfBigEndian(n, c);
      assert LengthOctets(n)[1..] == BigEndian(n, c);
    }
  }

  // ---------- queues ----------

  class ByteQueue {
    var data: seq<bv8>

    constructor ()
      ensures data == []
    {
      data := [];
    }

    method Get() returns (ok: bool, b: bv8)
      modifies this
      ensures ok == (old(data) != [])
      ensures if ok then b == old(data)[0] && data == old(data)[1..] else data == old(data)
    {
      ok, b := Peek();
      if ok {
        data := data[1..];
      }
    }

    method Peek() returns (ok: bool, b: bv8)
      ensures ok == (data != []) && (ok ==> b == data[0])
    {
      if data == [] {
        return false, 0;
      }
      return true, data[0];
    }

    method Put(b: bv8)
      modifies this
      ensures data == old(data) + [b]
    {
      data := data + [b];
    }

    /** Moves as many of n octets as there are. */
    method TransferTo(target: ByteQueue, n: nat) returns (moved: nat)
      requires target != this
      modifies this, target
      ensures moved == if n <= |old(data)| then n else |old(data)|
      ensures data == old(data)[moved..] && target.data == old(target.data) + old(data)[..moved]
    {
      moved := if n <= |data| then n else |data|;
      target.data := target.data + data[..moved];
      data := data[moved..];
    }
  }

  lemma NextDigit(v: nat, j: nat, k: nat)
    ensures v / Pow256(j) >= 0 && v / Pow256(j + 1) >= 0
    ensures BigEndian(v / Pow256(j), k + 1) == BigEndian(v / Pow256(j + 1), k) + [Octet(v / Pow256(j) % 256)]
  {
    hide Octet;
    Arithmetic.DivNonneg(v, Pow256(j));
    Arithmetic.DivDiv(v, Pow256(j), 256);
  }

  lemma NoDigits(v: nat, c: nat)
    requires v < Pow256(c)
    ensures v / Pow256(c) == 0 && BigEndian(0, 0) == []
  {
    Arithmetic.DivModUnique(v, Pow256(c), 0, v);
  }

  lemma WholeNumber(v: nat)
    ensures v / Pow256(0) == v
  {
  }

  /** Returns the number of octets as well as writing them. */
  method DERLengthEncode(bt: ByteQueue, length: nat) returns (i: nat)
    requires length < Pow256(8)
    modifies bt
    ensures bt.data == old(bt.data) + LengthOctets(length) && i == |LengthOctets(length)|
  {
    hide Octet, Pow256, OctetCount, BigEndian;
    i := 0;
    if length <= 0x7f {
      bt.Put(Octet(length));
      i := i + 1;
    } else {
      var c := OctetCount(length);
      OctetCountAtMost(length, 8);
      bt.Put(Octet(0x80 + c));
      i := i + 1;
      ghost var head := bt.data;
      NoDigits(length, c);
      for j := c downto 0
        invariant length / Pow256(j) >= 0
        invariant bt.data == head + BigEndian(length / Pow256(j), c - j) && i == 1 + (c - j)
      {
        NextDigit(length, j, c - j - 1);
        bt.Put(Octet(length / Pow256(j) % 256));
        i := i + 1;
      }
      WholeNumber(length);
    }
  }

  // ---------- elements ----------

  predicate IsConstructed(tag: bv8) {
    tag & 0x20 != 0
  }

  /** What DERReencode sees: an element of definite length is taken whole, one of indefinite length part by part. */
  datatype Element = Whole(tag: bv8, content: seq<bv8>) | Parts(tag: bv8, elements: Elements)
  datatype Elements = Nil | Cons(first: Element, others: Elements)

  const END_OF_CONTENTS: seq<bv8> := [0, 0]

  /** The octets s are the element e, each part in the form the code takes it for. */
  ghost predicate Ber(e: Element, s: seq<bv8>) {
    match e
    case Whole(tag, content) => IsDefinite(tag, content, s)
    case Parts(tag, elements) =>
      && IsConstructed(tag) && |s| >= 4 && s[..2] == [tag, 0x80] && s[|s| - 2..] == END_OF_CONTENTS
      && BerAll(elements, s[2..|s| - 2])
  }

  ghost predicate BerAll(es: Elements, s: seq<bv8>) {
    match es
    case Nil => s == []
    case Cons(first, others) =>
      exists k :: 0 < k <= |s| && s[..k] != END_OF_CONTENTS && Ber(first, s[..k]) && BerAll(others, s[k..])
  }

  predicate IsDefinite(tag: bv8, content: seq<bv8>, s: seq<bv8>) {
    && |s| > |content| && s[0] == tag && s[|s| - |content|..] == content
    && IsLength(s[1..|s| - |content|], |content|)
  }

  /** The octets s encode the element e, each constructed part in either form: section 8.1 of X.690. */
  ghost predicate Encodes(e: Element, s: seq<bv8>) {
    match e
    case Whole(tag, content) => IsDefinite(tag, content, s)
    case Parts(tag, elements) =>
      && IsConstructed(tag)
      && (|| (|s| >= 4 && s[..2] == [tag, 0x80] && s[|s| - 2..] == END_OF_CONTENTS &&
          EncodesAll(elements, s[2..|s| - 2]))
          || exists k :: 0 <= k <= |s| && IsDefinite(tag, s[k..], s) && EncodesAll(elements, s[k..]))
  }

  ghost predicate EncodesAll(es: Elements, s: seq<bv8>) {
    match es
    case Nil => s == []
    case Cons(first, others) => exists k :: 0 <= k <= |s| && Encodes(first, s[..k]) && EncodesAll(others, s[k..])
  }

  // ---------- parsing ----------

  datatype Parsed<T> = Malformed | Parsed(value: T, rest: seq<bv8>)

  function ParseElement(s: seq<bv8>): (p: Parsed<Element>)
    ensures p.Parsed? ==> |p.rest| < |s|
    decreases |s|, 0
  {
    if s == [] then Malformed
    else
      match ParseLength(s[1..])
      case NoLength => Malformed
      case Definite(n, rest) => if n <= |rest| then Parsed(Whole(s[0], rest[..n]), rest[n..]) else Malformed
      case Indefinite(rest) =>
        if !IsConstructed(s[0]) then Malformed
        else
          match ParseElements(rest)
          case Malformed => Malformed
          case Parsed(es, after) => Parsed(Parts(s[0], es), after)
  }

  /** Elements up to the end-of-contents octets, which are taken off too. */
  function ParseElements(s: seq<bv8>): (p: Parsed<Elements>)
    ensures p.Parsed? ==> |p.rest| < |s|
    decreases |s|, 1
  {
    if AtEnd(s) then Parsed(Nil, s[2..])
    else
      match ParseElement(s)
      case Malformed => Malformed
      case Parsed(e, rest) =>
        match ParseElements(rest)
        case Malformed => Malformed
        case Parsed(es, after) => Parsed(Cons(e, es), after)
  }

  predicate AtEnd(s: seq<bv8>) {
    |s| >= 2 && s[..2] == END_OF_CONTENTS
  }

  /** Parsing accepts exactly the encodings, and stops where they end. */
  lemma {:induction false} ParseElementComplete(e: Element, s: seq<bv8>, rest: seq<bv8>)
    requires Ber(e, s)
    ensures ParseElement(s + rest) == Parsed(e, rest)
    decreases e
  {
    hide IsLength, ParseLength;
    match e
    case Whole(tag, content) =>
      var l := s[1..|s| - |content|];
      ParseLengthIff(l, |content|, content + rest);
      assert (s + rest)[1..] == l + (content + rest);
      assert (content + rest)[..|content|] == content && (content + rest)[|content|..] == rest;
    case Parts(tag, elements) =>
      var body := s[2..|s| - 2];
      IndefiniteLength(body + END_OF_CONTENTS + rest);
      AfterTag(tag, s, rest);
      ParseElementsComplete(elements, body, rest);
  }

  lemma AfterTag(tag: bv8, s: seq<bv8>, rest: seq<bv8>)
    requires |s| >= 4 && s[..2] == [tag, 0x80] && s[|s| - 2..] == END_OF_CONTENTS
    ensures (s + rest)[1..] == [0x80] + (s[2..|s| - 2] + END_OF_CONTENTS + rest)
  {
    assert s == s[..2] + s[2..|s| - 2] + s[|s| - 2..];
    assert (s + rest)[1..] == s[1..] + rest && s[1..2] == s[..2][1..];
    assert s[1..] == s[1..2] + (s[2..|s| - 2] + s[|s| - 2..]);
  }

  lemma Associate(a: seq<bv8>, b: seq<bv8>, c: seq<bv8>, d: seq<bv8>)
    ensures a + (b + c + d) == a + b + c + d
  {
  }

  lemma SplitBody(body: seq<bv8>, k: nat, rest: seq<bv8>)
    requires k <= |body|
    ensures body + END_OF_CONTENTS + rest == body[..k] + (body[k..] + END_OF_CONTENTS + rest)
  {
    assert body == body[..k] + body[k..];
    Associate(body[..k], body[k..], END_OF_CONTENTS, rest);
  }

  lemma IndefiniteLength(s: seq<bv8>)
    ensures ParseLength([0x80] + s) == Indefinite(s)
  {
    assert ([0x80] + s)[1..] == s;
    assert Value(0x80) == 0x80;
  }

  lemma {:induction false} ParseElementsComplete(es: Elements, body: seq<bv8>, rest: seq<bv8>)
    requires BerAll(es, body)
    ensures ParseElements(body + END_OF_CONTENTS + rest) == Parsed(es, rest)
    decreases es
  {
    hide Ber, Value, FromBigEndian, ParseLength, IsDefinite, IsConstructed;
    var s := body + END_OF_CONTENTS + rest;
    match es
    case Nil =>
      assert s[..2] == END_OF_CONTENTS && s[2..] == rest;
    case Cons(first, others) =>
      var k :| 0 < k <= |body| && body[..k] != END_OF_CONTENTS && Ber(first, body[..k]) && BerAll(others, body[k..]);
      var tail := body[k..] + END_OF_CONTENTS + rest;
      SplitBody(body, k, rest);
      NotAtEnd(first, body[..k], tail);
      ParseElementComplete(first, body[..k], tail);
      ParseElementsComplete(others, body[k..], rest);
  }

  lemma NotAtEnd(e: Element, s: seq<bv8>, rest: seq<bv8>)
    requires Ber(e, s) && s != END_OF_CONTENTS
    ensures !AtEnd(s + rest)
  {
    assert Value(0) == 0 && !IsConstructed(0);
    hide Value;
    assert s + rest != [] && (s + rest)[0] == s[0];
    match e
    case Whole(tag, content) =>
      assert s[1..|s| - |content|][0] == s[1] == (s + rest)[1];
    case Parts(tag, elements) =>
  }

  lemma {:induction false} ParseElementSound(s: seq<bv8>) returns (used: seq<bv8>)
    requires ParseElement(s).Parsed?
    ensures s == used + ParseElement(s).rest && Ber(ParseElement(s).value, used)
    decreases |s|, 0
  {
    hide IsLength, ParseLength, Ber, IsDefinite, IsConstructed;
    var tag := s[0];
    assert s == [tag] + s[1..];
    var l := LengthEnds(s[1..]);
    match ParseLength(s[1..])
    case Definite(n, rest) =>
      ParseLengthIff(l, n, rest);
      WholeIs(tag, l, rest[..n]);
      used := [tag] + l + rest[..n];
      assert rest == rest[..n] + rest[n..];
      Associate([tag], l, rest[..n], rest[n..]);
      assert l + rest == l + rest[..n] + rest[n..];
    case Indefinite(rest) =>
      var after := ParseElements(rest).rest;
      var body := ParseElementsSound(rest);
      PartsIs(tag, ParseElements(rest).value, body);
      used := [tag, 0x80] + body + END_OF_CONTENTS;
      Associate([tag, 0x80], body, END_OF_CONTENTS, after);
      assert [tag] + ([0x80] + rest) == [tag, 0x80] + rest;
  }

  lemma {:induction false} ParseElementsSound(s: seq<bv8>) returns (body: seq<bv8>)
    requires ParseElements(s).Parsed?
    ensures s == body + END_OF_CONTENTS + ParseElements(s).rest && BerAll(ParseElements(s).value, body)
    decreases |s|, 1
  {
    hide IsLength, ParseLength, Ber, IsDefinite;
    if AtEnd(s) {
      body := [];
      assert s == END_OF_CONTENTS + s[2..];
    } else {
      var first := ParseElementSound(s);
      var p := ParseElement(s);
      var others := ParseElementsSound(p.rest);
      var rest := ParseElements(p.rest).rest;
      body := first + others;
      Associate(first, others, END_OF_CONTENTS, rest);
      StartsDifferently(first, p.rest);
      ConsIs(p.value, ParseElements(p.rest).value, first, others);
    }
  }

  lemma StartsDifferently(u: seq<bv8>, v: seq<bv8>)
    requires !AtEnd(u + v)
    ensures u != END_OF_CONTENTS
  {
    assert (END_OF_CONTENTS + v)[..2] == END_OF_CONTENTS;
  }

  /** What was read of a length. */
  lemma LengthEnds(s: seq<bv8>) returns (l: seq<bv8>)
    ensures ParseLength(s).Definite? ==> s == l + ParseLength(s).rest
    ensures ParseLength(s).Indefinite? ==> s == [0x80] + ParseLength(s).rest
  {
    var r := ParseLength(s);
    l := if r.Definite? then s[..|s| - |r.rest|] else [];
    if s != [] {
      OctetOfValue(s[0]);
    }
    assert Octet(0x80) == 0x80;
    hide Value, Octet, FromBigEndian, Pow256;
  }

  lemma WholeIs(tag: bv8, l: seq<bv8>, content: seq<bv8>)
    requires IsLength(l, |content|)
    ensures IsDefinite(tag, content, [tag] + l + content) && Ber(Whole(tag, content), [tag] + l + content)
  {
    hide IsLength;
    var s := [tag] + l + content;
    assert s[1..|s| - |content|] == l && s[|s| - |content|..] == content;
  }

  lemma PartsIs(tag: bv8, es: Elements, body: seq<bv8>)
    requires IsConstructed(tag) && BerAll(es, body)
    ensures Ber(Parts(tag, es), [tag, 0x80] + body + END_OF_CONTENTS)
  {
    hide BerAll;
    var s := [tag, 0x80] + body + END_OF_CONTENTS;
    assert s[..2] == [tag, 0x80] && s[2..|s| - 2] == body && s[|s| - 2..] == END_OF_CONTENTS;
  }

  lemma ConsIs(e: Element, es: Elements, u: seq<bv8>, v: seq<bv8>)
    requires Ber(e, u) && u != END_OF_CONTENTS && BerAll(es, v)
    ensures BerAll(Cons(e, es), u + v)
  {
    assert (u + v)[..|u|] == u && (u + v)[|u|..] == v;
  }

  // ---------- re-encoding ----------

  /** The encoding with definite lengths, the shortest ones. */
  function DefiniteForm(e: Element): (s: seq<bv8>)
    requires Fits(e)
    decreases e, 1
  {
    match e
    case Whole(tag, content) => [tag] + LengthOctets(|content|) + content
    case Parts(tag, elements) =>
      var content := DefiniteForms(elements);
      [tag] + LengthOctets(|content|) + content
  }

  function DefiniteForms(es: Elements): seq<bv8>
    requires FitAll(es)
    decreases es, 1
  {
    match es
    case Nil => []
    case Cons(first, others) => DefiniteForm(first) + DefiniteForms(others)
  }

  /** All lengths are below 2^64. */
  predicate Fits(e: Element)
    decreases e, 0
  {
    match e
    case Whole(tag, content) => |content| < Pow256(8)
    case Parts(tag, elements) => FitAll(elements) && |DefiniteForms(elements)| < Pow256(8)
  }

  predicate FitAll(es: Elements)
    decreases es, 0
  {
    match es
    case Nil => true
    case Cons(first, others) => Fits(first) && FitAll(others)
  }

  /** What was read and what is written encode the same element. */
  lemma {:induction false} BerEncodes(e: Element, s: seq<bv8>)
    requires Ber(e, s)
    ensures Encodes(e, s)
    decreases e
  {
    hide IsDefinite;
    match e
    case Whole(_, _) =>
    case Parts(_, elements) => BerAllEncodes(elements, s[2..|s| - 2]);
  }

  lemma {:induction false} BerAllEncodes(es: Elements, s: seq<bv8>)
    requires BerAll(es, s)
    ensures EncodesAll(es, s)
    decreases es
  {
    hide IsDefinite;
    match es
    case Nil =>
    case Cons(first, others) =>
      var k :| 0 < k <= |s| && s[..k] != END_OF_CONTENTS && Ber(first, s[..k]) && BerAll(others, s[k..]);
      BerEncodes(first, s[..k]);
      BerAllEncodes(others, s[k..]);
  }

  lemma {:induction false} DefiniteFormEncodes(e: Element)
    requires Fits(e) && Tagged(e)
    ensures Encodes(e, DefiniteForm(e))
    decreases e
  {
    hide LengthOctets, IsDefinite, IsLength;
    match e
    case Whole(tag, content) =>
      LengthOctetsAre(|content|);
      WholeIs(tag, LengthOctets(|content|), content);
    case Parts(tag, elements) =>
      var content := DefiniteForms(elements);
      DefiniteFormsEncode(elements);
      LengthOctetsAre(|content|);
      WholeIs(tag, LengthOctets(|content|), content);
      var s := DefiniteForm(e);
      assert s[|s| - |content|..] == content;
  }

  lemma {:induction false} DefiniteFormsEncode(es: Elements)
    requires FitAll(es) && TaggedAll(es)
    ensures EncodesAll(es, DefiniteForms(es))
    decreases es
  {
    match es
    case Nil =>
    case Cons(first, others) =>
      DefiniteFormEncodes(first);
      DefiniteFormsEncode(others);
      var u, v := DefiniteForm(first), DefiniteForms(others);
      assert (u + v)[..|u|] == u && (u + v)[|u|..] == v;
  }

  /** Only constructed elements have parts. */
  predicate Tagged(e: Element) {
    match e
    case Whole(_, _) => true
    case Parts(tag, elements) => IsConstructed(tag) && TaggedAll(elements)
  }

  predicate TaggedAll(es: Elements) {
    match es
    case Nil => true
    case Cons(first, others) => Tagged(first) && TaggedAll(others)
  }

  lemma {:induction false} BerTagged(e: Element, s: seq<bv8>)
    requires Ber(e, s)
    ensures Tagged(e)
    decreases e
  {
    match e
    case Whole(_, _) =>
    case Parts(_, elements) => BerAllTagged(elements, s[2..|s| - 2]);
  }

  lemma {:induction false} BerAllTagged(es: Elements, s: seq<bv8>)
    requires BerAll(es, s)
    ensures TaggedAll(es)
    decreases es
  {
    match es
    case Nil =>
    case Cons(first, others) =>
      var k :| 0 < k <= |s| && s[..k] != END_OF_CONTENTS && Ber(first, s[..k]) && BerAll(others, s[k..]);
      BerTagged(first, s[..k]);
      BerAllTagged(others, s[k..]);
  }

  /**
   What DERReencode promises: it takes one element off the input and puts out one of definite length,
   written in the shortest way, which encodes the same element.
   */
  lemma Reencoded(s: seq<bv8>)
    requires ParseElement(s).Parsed? && Fits(ParseElement(s).value)
    ensures var p := ParseElement(s);
            var used, output := s[..|s| - |p.rest|], DefiniteForm(p.value);
            && s == used + p.rest && Encodes(p.value, used) && Encodes(p.value, output)
            && exists content :: |content| < Pow256(8) && output == [s[0]] + LengthOctets(|content|) + content
  {
    hide Encodes, Fits, Ber, LengthOctets, Pow256, ParseElement;
    var p := ParseElement(s);
    var used := ParseElementSound(s);
    assert s[..|s| - |p.rest|] == used;
    BerEncodes(p.value, used);
    BerTagged(p.value, used);
    DefiniteFormEncodes(p.value);
    SameTag(s);
    OneLength(p.value);
  }

  // ---------- when the output is distinguished: section 10.1 of X.690 ----------

  /** One definite length, in the shortest form, and in a constructed element nothing but such elements. */
  predicate Distinguished(s: seq<bv8>)
    decreases |s|, 0
  {
    exists n :: 1 < n <= |s| && HeadEnds(s, n) && (IsConstructed(s[0]) ==> AllDistinguished(s[n..]))
  }

  predicate AllDistinguished(s: seq<bv8>)
    decreases |s|, 1
  {
    s == [] || exists k :: 0 < k <= |s| && Distinguished(s[..k]) && AllDistinguished(s[k..])
  }

  /** The first n octets of s are a tag and the shortest length of the others. */
  predicate HeadEnds(s: seq<bv8>, n: nat)
    requires 1 < n <= |s|
  {
    |s| - n < Pow256(8) && s[1..n] == LengthOctets(|s| - n)
  }

  /**
   Whether all that DERReencode copies is distinguished already. It copies the content of the elements of
   definite length, which matters where they are constructed.
   */
  predicate LeavesDistinguished(e: Element) {
    match e
    case Whole(tag, content) => IsConstructed(tag) ==> AllDistinguished(content)
    case Parts(_, elements) => AllLeaveDistinguished(elements)
  }

  predicate AllLeaveDistinguished(es: Elements) {
    match es
    case Nil => true
    case Cons(first, others) => LeavesDistinguished(first) && AllLeaveDistinguished(others)
  }

  /** Where an element ends can be told from its head, whatever follows. */
  lemma HeadTellsEnd(s: seq<bv8>, n: nat, more: seq<bv8>)
    requires 1 < n <= |s| && HeadEnds(s, n)
    ensures ParseLength((s + more)[1..]) == Definite(|s| - n, s[n..] + more)
  {
    hide LengthOctets, ParseLength;
    LengthRoundTrip(|s| - n, s[n..] + more);
    assert (s + more)[1..] == s[1..n] + (s[n..] + more);
  }

  lemma DistinguishedWhole(tag: bv8, content: seq<bv8>)
    requires |content| < Pow256(8)
    ensures var s := [tag] + LengthOctets(|content|) + content;
            && HeadEnds(s, |s| - |content|)
            && (Distinguished(s) <==> (IsConstructed(tag) ==> AllDistinguished(content)))
  {
    hide LengthOctets, ParseLength, AllDistinguished, Pow256;
    var s := [tag] + LengthOctets(|content|) + content;
    var m := |s| - |content|;
    assert s[1..m] == LengthOctets(|content|) && s[m..] == content;
    HeadTellsEnd(s, m, []);
    if Distinguished(s) {
      var n :| 1 < n <= |s| && HeadEnds(s, n) && (IsConstructed(s[0]) ==> AllDistinguished(s[n..]));
      HeadTellsEnd(s, n, []);
      assert n == m;
    }
  }

  /** Elements one behind the other can be split in one way only. */
  lemma DistinguishedCons(u: seq<bv8>, n: nat, v: seq<bv8>)
    requires 1 < n <= |u| && HeadEnds(u, n)
    ensures AllDistinguished(u + v) <==> Distinguished(u) && AllDistinguished(v)
  {
    hide HeadEnds, IsConstructed, ParseLength;
    var s := u + v;
    assert s[..|u|] == u && s[|u|..] == v;
    if AllDistinguished(s) {
      var k :| 0 < k <= |s| && Distinguished(s[..k]) && AllDistinguished(s[k..]);
      SameEnd(u, n, v, k);
    }
  }

  lemma SameEnd(u: seq<bv8>, n: nat, v: seq<bv8>, k: nat)
    requires 1 < n <= |u| && HeadEnds(u, n) && 0 < k <= |u + v| && Distinguished((u + v)[..k])
    ensures k == |u|
  {
    hide HeadEnds, IsConstructed, ParseLength, AllDistinguished;
    var s := u + v;
    var t := s[..k];
    var m :| 1 < m <= |t| && HeadEnds(t, m);
    HeadTellsEnd(u, n, v);
    HeadTellsEnd(t, m, s[k..]);
    assert t + s[k..] == s;
  }

  /**
   When DERReencode leads to DER throughout, for every element: if and only if what it copies was
   distinguished.
   */
  lemma {:induction false} DistinguishedForm(e: Element)
    requires Fits(e) && Tagged(e)
    ensures Distinguished(DefiniteForm(e)) <==> LeavesDistinguished(e)
    ensures exists n :: 1 < n <= |DefiniteForm(e)| && HeadEnds(DefiniteForm(e), n)
    decreases e
  {
    hide Distinguished, AllDistinguished, HeadEnds, LengthOctets, Pow256;
    match e
    case Whole(tag, content) =>
      DistinguishedWhole(tag, content);
    case Parts(tag, elements) =>
      DistinguishedForms(elements);
      DistinguishedWhole(tag, DefiniteForms(elements));
  }

  lemma {:induction false} DistinguishedForms(es: Elements)
    requires FitAll(es) && TaggedAll(es)
    ensures AllDistinguished(DefiniteForms(es)) <==> AllLeaveDistinguished(es)
    decreases es
  {
    hide Distinguished, HeadEnds, DefiniteForm, Fits, Tagged;
    match es
    case Nil =>
    case Cons(first, others) =>
      DistinguishedForm(first);
      DistinguishedForms(others);
      var n :| 1 < n <= |DefiniteForm(first)| && HeadEnds(DefiniteForm(first), n);
      DistinguishedCons(DefiniteForm(first), n, DefiniteForms(others));
  }

  /** The same for what is parsed: exactly these inputs are re-encoded by the distinguished rules. */
  lemma DistinguishedOutput(s: seq<bv8>)
    requires ParseElement(s).Parsed? && Fits(ParseElement(s).value)
    ensures var e := ParseElement(s).value; Distinguished(DefiniteForm(e)) <==> LeavesDistinguished(e)
  {
    hide Ber, Fits, ParseElement, Distinguished, LeavesDistinguished;
    var used := ParseElementSound(s);
    BerTagged(ParseElement(s).value, used);
    DistinguishedForm(ParseElement(s).value);
  }

  /** A failing input: a part of indefinite length, copied as it is inside an element of definite length. */
  lemma DefiniteContentIsKept()
    ensures var s: seq<bv8> := [0x30, 4, 0x30, 0x80, 0, 0];
            && ParseElement(s).Parsed? && ParseElement(s).rest == []
            && Fits(ParseElement(s).value) && DefiniteForm(ParseElement(s).value) == s
            && !Distinguished(DefiniteForm(ParseElement(s).value))
  {
    Pow256Monotone(1, 8);
    hide Pow256, Distinguished, AllDistinguished;
    var inner: seq<bv8> := [0x30, 0x80, 0, 0];
    var s: seq<bv8> := [0x30, 4, 0x30, 0x80, 0, 0];
    assert Value(4) == 4 && Octet(4) == 4;
    assert s[1..] == [4] + inner && ([4] + inner)[1..] == inner;
    assert inner[..4] == inner && inner[4..] == [];
    assert IsConstructed(0x30);
    assert ParseElement(s) == Parsed(Whole(0x30, inner), []);
    DistinguishedOutput(s);
    NotDistinguished(inner);
  }

  /** No distinguished element has an indefinite length. */
  lemma NotDistinguished(s: seq<bv8>)
    requires |s| >= 2 && s[1] == 0x80
    ensures !AllDistinguished(s)
  {
    hide LengthOctets, Pow256;
    forall k | 0 < k <= |s| && Distinguished(s[..k])
      ensures false
    {
      var t := s[..k];
      var n :| 1 < n <= |t| && HeadEnds(t, n);
      HeadTellsEnd(t, n, []);
      assert false;
    }
  }

  lemma SameTag(s: seq<bv8>)
    requires ParseElement(s).Parsed?
    ensures s != [] && ParseElement(s).value.tag == s[0]
  {
  }

  lemma OneLength(e: Element)
    requires Fits(e)
    ensures exists content :: |content| < Pow256(8) && DefiniteForm(e) == [e.tag] + LengthOctets(|content|) + content
  {
    hide LengthOctets, Pow256;
    var content := match e case Whole(_, content) => content case Parts(_, elements) => DefiniteForms(elements);
    assert DefiniteForm(e) == [e.tag] + LengthOctets(|content|) + content;
  }

  // ---------- the decoder and the encoder ----------

  class BERGeneralDecoder {
    /** The queue at the bottom: a decoder of indefinite length passes all reading on to the one it reads from. */
    const inQueue: ByteQueue
    var length: nat
    var definite: bool

    constructor (queue: ByteQueue)
      ensures inQueue == queue
    {
      inQueue := queue;
      length := 0;
      definite := true;
    }

    method Init(tag: bv8) returns (ok: bool)
      modifies this, inQueue
      ensures var s := old(inQueue.data);
              && ok == (s != [] && s[0] == tag && !ParseLength(s[1..]).NoLength?
                        && (ParseLength(s[1..]).Indefinite? ==> IsConstructed(tag)))
              && (ok ==> definite == ParseLength(s[1..]).Definite? && inQueue.data == ParseLength(s[1..]).rest)
              && (ok && definite ==> length == ParseLength(s[1..]).length)
      ensures |inQueue.data| <= |old(inQueue.data)|
    {
      hide ParseLength;
      var got, b := inQueue.Get();
      if !got || b != tag {
        return false;
      }
      ok, length, definite := BERLengthDecode(inQueue);
      if ok && !definite && !IsConstructed(tag) {
        ok := false;
      }
    }

    method EndReached() returns (end: bool)
      ensures end == if definite then length == 0 else AtEnd(inQueue.data)
    {
      if definite {
        return length == 0;
      }
      return |inQueue.data| >= 2 && inQueue.data[0] == 0 && inQueue.data[1] == 0;
    }

    method MessageEnd() returns (ok: bool)
      modifies inQueue
      ensures ok == if definite then length == 0 else AtEnd(old(inQueue.data))
      ensures ok ==> inQueue.data == if definite then old(inQueue.data) else old(inQueue.data)[2..]
      ensures |inQueue.data| <= |old(inQueue.data)|
    {
      if definite {
        return length == 0;
      }
      var got, b := inQueue.Get();
      var gotNext, next := inQueue.Get();
      ok := got && gotNext && b == 0 && next == 0;
    }

    /** TransferTo with what is left, which it counts down by what there was. */
    method TransferRest(target: ByteQueue)
      requires definite && target != inQueue
      modifies this`length, inQueue, target
      ensures length == if old(length) <= |old(inQueue.data)| then 0 else old(length) - |old(inQueue.data)|
      ensures length == 0 ==> target.data == old(target.data) + old(inQueue.data)[..old(length)]
      ensures length == 0 ==> inQueue.data == old(inQueue.data)[old(length)..]
      ensures |target.data| + |inQueue.data| == |old(target.data)| + |old(inQueue.data)|
    {
      var moved := inQueue.TransferTo(target, length);
      length := length - moved;
    }
  }

  /** The length octets at the front of the queue. A length of more than 64 bits is an error like a missing octet. */
  method BERLengthDecode(bt: ByteQueue) returns (ok: bool, length: nat, definite: bool)
    modifies bt
    ensures match ParseLength(old(bt.data))
            case NoLength => !ok
            case Indefinite(rest) => ok && !definite && bt.data == rest
            case Definite(n, rest) => ok && definite && length == n && bt.data == rest
    ensures |bt.data| <= |old(bt.data)|
  {
    hide Value, FromBigEndian, Pow256;
    length, definite := 0, true;
    ghost var s := bt.data;
    var got, b := bt.Get();
    if !got {
      return false, 0, true;
    }
    if Value(b) < 0x80 {
      return true, Value(b), true;
    }
    var lengthOctets: nat := Value(b) - 0x80;
    if lengthOctets == 0 {
      return true, 0, false;
    }
    ghost var all := lengthOctets;
    NoValue();
    assert s[1..1] == [];
    while lengthOctets != 0
      invariant lengthOctets <= all && 1 + all - lengthOctets <= |s| && bt.data == s[1 + all - lengthOctets..]
      invariant length == FromBigEndian(s[1..1 + all - lengthOctets]) < Pow256(8)
    {
      lengthOctets := lengthOctets - 1;
      ghost var read := 1 + all - lengthOctets;
      if length / Pow256(7) != 0 {
        TooLong(s, read, all, length);
        return false, 0, true;
      }
      got, b := bt.Get();
      if !got {
        return false, 0, true;
      }
      NextOctet(s, read, length);
      length := length * 256 + Value(b);
    }
    ok := true;
  }

  lemma NoValue()
    ensures FromBigEndian([]) == 0 < Pow256(8)
  {
  }

  lemma NextOctet(s: seq<bv8>, read: nat, length: nat)
    requires 2 <= read <= |s| && length == FromBigEndian(s[1..read - 1]) && length / Pow256(7) == 0
    ensures FromBigEndian(s[1..read]) == length * 256 + Value(s[read - 1]) < Pow256(8)
  {
    hide Value;
    var t := s[1..read];
    assert t[..|t| - 1] == s[1..read - 1];
    Arithmetic.DivMod(length, Pow256(7));
  }

  lemma TooLong(s: seq<bv8>, read: nat, all: nat, length: nat)
    requires 2 <= read <= all + 1 && read - 1 <= |s|
    requires s != [] && Value(s[0]) == 0x80 + all
    requires length == FromBigEndian(s[1..read - 1]) && length / Pow256(7) != 0
    ensures ParseLength(s) == NoLength
  {
    hide Value, FromBigEndian;
    if |s| > all {
      var a, b := s[1..read - 1], s[read - 1..all + 1];
      assert s[1..all + 1] == a + b;
      ValueOfAppend(a, b);
      Arithmetic.DivMod(length, Pow256(7));
      Arithmetic.DivNonneg(length, Pow256(7));
      Arithmetic.MulMonotone(1, length / Pow256(7), Pow256(7));
      Pow256Monotone(1, |b|);
      Arithmetic.MulMonotone(256, Pow256(|b|), length);
      assert length * Pow256(|b|) >= 256 * Pow256(7);
    }
  }

  class DERGeneralEncoder {
    const outQueue: ByteQueue
    const tag: bv8
    const content: ByteQueue

    constructor (queue: ByteQueue, t: bv8)
      ensures outQueue == queue && tag == t && fresh(content) && content.data == []
    {
      outQueue, tag := queue, t;
      content := new ByteQueue();
    }

    method MessageEnd()
      requires content != outQueue && |content.data| < Pow256(8)
      modifies outQueue, content
      ensures outQueue.data == old(outQueue.data) + ([tag] + LengthOctets(|old(content.data)|) + old(content.data))
    {
      hide LengthOctets, Pow256;
      var length := |content.data|;
      ghost var t, l, c := [tag], LengthOctets(length), content.data;
      outQueue.Put(tag);
      var _ := DERLengthEncode(outQueue, length);
      var _ := content.TransferTo(outQueue, length);
      assert old(outQueue.data) + t + l + c == old(outQueue.data) + (t + l + c);
    }
  }

  lemma AtMostNine(n: nat)
    requires n < Pow256(8)
    ensures |LengthOctets(n)| <= 9
  {
    OctetCountAtMost(n, 8);
  }

  /** Elements already taken, before those still to come. */
  function Prepend(done: Elements, p: Parsed<Elements>): Parsed<Elements> {
    match p
    case Malformed => Malformed
    case Parsed(es, rest) => Parsed(Append(done, es), rest)
  }

  function Append(es: Elements, others: Elements): Elements {
    match es
    case Nil => others
    case Cons(e, rest) => Cons(e, Append(rest, others))
  }

  lemma {:induction false} AppendLast(es: Elements, e: Element, others: Elements)
    ensures Append(Append(es, Cons(e, Nil)), others) == Append(es, Cons(e, others))
  {
    match es
    case Nil =>
    case Cons(_, rest) => AppendLast(rest, e, others);
  }

  lemma {:induction false} AppendNil(es: Elements)
    ensures Append(es, Nil) == es
  {
    match es
    case Nil =>
    case Cons(_, rest) => AppendNil(rest);
  }

  lemma {:induction false} DefiniteFormsLast(es: Elements, e: Element)
    requires FitAll(Append(es, Cons(e, Nil)))
    ensures FitAll(es) && Fits(e)
    ensures DefiniteForms(Append(es, Cons(e, Nil))) == DefiniteForms(es) + DefiniteForm(e)
  {
    hide DefiniteForm, Fits;
    match es
    case Nil =>
    case Cons(first, rest) =>
      DefiniteFormsLast(rest, e);
      assert DefiniteForm(first) + (DefiniteForms(rest) + DefiniteForm(e))
          == DefiniteForm(first) + DefiniteForms(rest) + DefiniteForm(e);
  }

  /** Failing, it still puts out what it had collected, as the destructors of the encoders do. */
  method DERReencode(source: ByteQueue, dest: ByteQueue) returns (ok: bool)
    requires source != dest && 5 * |source.data| < Pow256(8)
    modifies source, dest
    decreases |source.data|, 0
    ensures ok == ParseElement(old(source.data)).Parsed?
    ensures ok ==> var p := ParseElement(old(source.data));
                   source.data == p.rest && Fits(p.value) && dest.data == old(dest.data) + DefiniteForm(p.value)
    ensures |source.data| <= |old(source.data)|
    ensures |dest.data| <= |old(dest.data)| + 5 * (|old(source.data)| - |source.data|)
  {
    hide ParseLength, LengthOctets, Pow256;
    ghost var s := source.data;
    var peeked, tag := source.Peek();
    var decoder := new BERGeneralDecoder(source);
    ok := decoder.Init(tag);
    if !ok {
      return;
    }
    ghost var rest := source.data;
    var encoder := new DERGeneralEncoder(dest, tag);
    if decoder.definite {
      decoder.TransferRest(encoder.content);
    } else {
      ok := ReencodeParts(decoder, encoder.content);
    }
    if ok {
      ok := decoder.MessageEnd();
    }
    AtMostNine(|encoder.content.data|);
    encoder.MessageEnd();
  }

  /** The loop over the parts of an element of indefinite length. */
  method ReencodeParts(decoder: BERGeneralDecoder, dest: ByteQueue) returns (ok: bool)
    requires !decoder.definite && decoder.inQueue != dest && 5 * |decoder.inQueue.data| < Pow256(8) && dest.data == []
    modifies decoder.inQueue, dest
    decreases |decoder.inQueue.data|, 1
    ensures var p, s := ParseElements(old(decoder.inQueue.data)), decoder.inQueue.data;
            && ok == p.Parsed?
            && (ok ==> AtEnd(s) && s[2..] == p.rest && FitAll(p.value) && dest.data == DefiniteForms(p.value))
    ensures |decoder.inQueue.data| <= |old(decoder.inQueue.data)|
    ensures |dest.data| <= 5 * (|old(decoder.inQueue.data)| - |decoder.inQueue.data|)
  {
    hide ParseElement, Pow256, DefiniteForm;
    ghost var s, done := decoder.inQueue.data, Nil;
    while true
      invariant !decoder.definite && |decoder.inQueue.data| <= |s|
      invariant ParseElements(s) == Prepend(done, ParseElements(decoder.inQueue.data))
      invariant FitAll(done) && dest.data == DefiniteForms(done)
      invariant |dest.data| <= 5 * (|s| - |decoder.inQueue.data|)
      decreases |decoder.inQueue.data|
    {
      var end := decoder.EndReached();
      if end {
        AppendNil(done);
        return true;
      }
      ghost var p := ParseElement(decoder.inQueue.data);
      ok := DERReencode(decoder.inQueue, dest);
      if !ok {
        return;
      }
      OneMore(done, p.value, ParseElements(p.rest));
      done := Append(done, Cons(p.value, Nil));
    }
  }

  lemma OneMore(done: Elements, e: Element, p: Parsed<Elements>)
    requires FitAll(done) && Fits(e)
    ensures var more := Append(done, Cons(e, Nil));
            && FitAll(more) && DefiniteForms(more) == DefiniteForms(done) + DefiniteForm(e)
            && (p.Parsed? ==> Append(more, p.value) == Append(done, Cons(e, p.value)))
  {
    FitLast(done, e);
    DefiniteFormsLast(done, e);
    if p.Parsed? {
      AppendLast(done, e, p.value);
    }
  }

  lemma {:induction false} FitLast(es: Elements, e: Element)
    requires FitAll(es) && Fits(e)
    ensures FitAll(Append(es, Cons(e, Nil)))
  {
    match es
    case Nil =>
    case Cons(_, rest) => FitLast(rest, e);
  }
}
