/** Multi-base scalar multiplication by repeated division of the two largest exponents. */
module GeneralCascade {
  import opened AbelianGroup
  import opened Arithmetic
  import Cascade
  import SlidingWindow

  datatype Term<T> = Term(base: T, exponent: nat)

  /** The sum of exponent·base over all terms. */
  ghost function Total<T(!new)>(g: Group<T>, terms: seq<Term<T>>): T {
    if terms == [] then g.id
    else g.add(g.Mul(terms[0].exponent, terms[0].base), Total(g, terms[1..]))
  }

  function ExponentSum<T>(terms: seq<Term<T>>): nat {
    if terms == [] then 0 else terms[0].exponent + ExponentSum(terms[1..])
  }

  /** What the heap operations do to the order of the terms: some rearrangement. */
  ghost predicate Rearranged<T>(old_: seq<Term<T>>, terms: seq<Term<T>>) {
    multiset(terms) == multiset(old_)
  }

  /** After pop_heap the largest exponent is last, and the largest of the rest is first. */
  ghost predicate Popped<T>(terms: seq<Term<T>>) {
    |terms| >= 2
    && forall k :: 0 <= k < |terms| - 1 ==> terms[k].exponent <= terms[0].exponent <= terms[|terms| - 1].exponent
  }

  lemma {:induction false} TotalAt<T(!new)>(g: Group<T>, terms: seq<Term<T>>, k: nat)
    requires g.Laws() && k < |terms|
    ensures Total(g, terms) == g.add(g.Mul(terms[k].exponent, terms[k].base), Total(g, terms[..k] + terms[k + 1..]))
  {
    var rest := terms[..k] + terms[k + 1..];
    if k == 0 {
      assert rest == terms[1..];
    } else {
      TotalAt(g, terms[1..], k - 1);
      assert rest[0] == terms[0] && rest[1..] == terms[1..][..k - 1] + terms[1..][k..];
      var a, b := g.Mul(terms[0].exponent, terms[0].base), g.Mul(terms[k].exponent, terms[k].base);
      var t := Total(g, rest[1..]);
      assert g.Associates(a, b, t) && g.Associates(b, a, t) && g.Commutes(a, b);
    }
  }

  lemma {:induction false} TotalRearranged<T(!new)>(g: Group<T>, a: seq<Term<T>>, b: seq<Term<T>>)
    requires g.Laws() && Rearranged(a, b)
    ensures Total(g, a) == Total(g, b) && |a| == |b|
  {
    hide Rearranged;
    SameLength(a, b);
    if a != [] {
      var k := FindFirst(a, b);
      TotalAt(g, b, k);
      TotalRearranged(g, a[1..], b[..k] + b[k + 1..]);
    }
  }

  lemma RemoveAt<T>(a: seq<T>, k: nat)
    requires k < |a|
    ensures multiset(a[..k] + a[k + 1..]) == multiset(a) - multiset{a[k]}
  {
    assert a == a[..k] + [a[k]] + a[k + 1..];
  }

  /** Where the first term went; the others are rearranged around it. */
  lemma FindFirst<T>(a: seq<Term<T>>, b: seq<Term<T>>) returns (k: nat)
    requires Rearranged(a, b) && a != []
    ensures k < |b| && b[k] == a[0] && Rearranged(a[1..], b[..k] + b[k + 1..])
  {
    assert a[0] in multiset(b);
    k :| 0 <= k < |b| && b[k] == a[0];
    RemoveAt(a, 0);
    RemoveAt(b, k);
    assert a[..0] + a[1..] == a[1..];
  }

  lemma SameLength<T>(a: seq<Term<T>>, b: seq<Term<T>>)
    requires Rearranged(a, b)
    ensures |a| == |b|
  {
    assert |multiset(a)| == |a| && |multiset(b)| == |b|;
  }

  lemma {:induction false} ExponentSumAt<T>(terms: seq<Term<T>>, k: nat)
    requires k < |terms|
    ensures ExponentSum(terms) == terms[k].exponent + ExponentSum(terms[..k] + terms[k + 1..])
  {
    var rest := terms[..k] + terms[k + 1..];
    if k == 0 {
      assert rest == terms[1..];
    } else {
      ExponentSumAt(terms[1..], k - 1);
      assert rest[0] == terms[0] && rest[1..] == terms[1..][..k - 1] + terms[1..][k..];
    }
  }

  lemma {:induction false} ExponentSumRearranged<T>(a: seq<Term<T>>, b: seq<Term<T>>)
    requires Rearranged(a, b)
    ensures ExponentSum(a) == ExponentSum(b)
  {
    hide Rearranged;
    SameLength(a, b);
    if a != [] {
      var k := FindFirst(a, b);
      ExponentSumAt(b, k);
      ExponentSumRearranged(a[1..], b[..k] + b[k + 1..]);
    }
  }

  /** The first and the last term taken out of the sum. */
  lemma TotalEnds<T(!new)>(g: Group<T>, s: seq<Term<T>>)
    requires g.Laws() && |s| >= 2
    ensures var last := |s| - 1;
      Total(g, s) == g.add(g.add(g.Mul(s[0].exponent, s[0].base), g.Mul(s[last].exponent, s[last].base)),
          Total(g, s[1..last]))
  {
    var last := |s| - 1;
    TotalAt(g, s[1..], last - 1);
    assert s[1..][..last - 1] + s[1..][last..] == s[1..last];
    assert g.Associates(g.Mul(s[0].exponent, s[0].base), g.Mul(s[last].exponent, s[last].base), Total(g, s[1..last]));
  }

  lemma ExponentSumEnds<T>(s: seq<Term<T>>)
    requires |s| >= 2
    ensures var last := |s| - 1; ExponentSum(s) == s[0].exponent + s[last].exponent + ExponentSum(s[1..last])
  {
    var last := |s| - 1;
    ExponentSumAt(s[1..], last - 1);
    assert s[1..][..last - 1] + s[1..][last..] == s[1..last];
  }

  /** One division: q copies of the last base move into the first term. */
  function Divided<T(!new)>(g: Group<T>, s: seq<Term<T>>, multiple: T): seq<Term<T>>
    requires |s| >= 2 && s[0].exponent > 0
  {
    var last := |s| - 1;
    s[0 := Term(g.add(s[0].base, multiple), s[0].exponent)]
     [last := Term(s[last].base, s[last].exponent % s[0].exponent)]
  }

  lemma DivideKeepsTotal<T(!new)>(g: Group<T>, s: seq<Term<T>>, q: nat)
    requires g.Laws() && |s| >= 2 && 0 < s[0].exponent <= s[|s| - 1].exponent
    requires q == s[|s| - 1].exponent / s[0].exponent
    ensures Total(g, Divided(g, s, g.Mul(q, s[|s| - 1].base))) == Total(g, s)
    ensures ExponentSum(Divided(g, s, g.Mul(q, s[|s| - 1].base))) < ExponentSum(s)
  {
    var last := |s| - 1;
    var d, t, x, y := s[0].exponent, s[last].exponent, s[0].base, s[last].base;
    var s' := Divided(g, s, g.Mul(q, y));
    TotalEnds(g, s);
    TotalEnds(g, s');
    ExponentSumEnds(s);
    ExponentSumEnds(s');
    assert s'[1..last] == s[1..last];
    DivMod(t, d);
    g.MulDistributes(d, x, g.Mul(q, y));
    g.MulMul(d, q, y);
    g.MulAdd(d * q, t % d, y);
    assert g.Associates(g.Mul(d, x), g.Mul(d * q, y), g.Mul(t % d, y));
  }

  /** When the largest of the rest is zero, only the last term counts. */
  lemma {:induction false} TotalOfLast<T(!new)>(g: Group<T>, s: seq<Term<T>>)
    requires g.Laws() && |s| >= 1 && forall k :: 0 <= k < |s| - 1 ==> s[k].exponent == 0
    ensures Total(g, s) == g.Mul(s[|s| - 1].exponent, s[|s| - 1].base)
  {
    if |s| == 1 {
      assert g.HasUnit(g.Mul(s[0].exponent, s[0].base));
    } else {
      TotalOfLast(g, s[1..]);
      g.UnitLeft(Total(g, s[1..]));
    }
  }

  lemma {:induction false} SwapRearranges<T>(s: seq<Term<T>>, i: nat, j: nat)
    requires i < |s| && j < |s|
    ensures Rearranged(s, s[i := s[j]][j := s[i]])
  {
  }

  method IndexOfMax<T>(terms: array<Term<T>>, end: nat) returns (m: nat)
    requires 0 < end <= terms.Length
    ensures m < end && forall k :: 0 <= k < end ==> terms[k].exponent <= terms[m].exponent
  {
    m := 0;
    for i := 1 to end
      invariant m < i && forall k :: 0 <= k < i ==> terms[k].exponent <= terms[m].exponent
    {
      if terms[i].exponent > terms[m].exponent {
        m := i;
      }
    }
  }

  method Swap<T>(terms: array<Term<T>>, i: nat, j: nat)
    requires i < terms.Length && j < terms.Length
    modifies terms
    ensures terms[..] == old(terms[..])[i := old(terms[j])][j := old(terms[i])]
    ensures Rearranged(old(terms[..]), terms[..])
  {
    SwapRearranges(terms[..], i, j);
    terms[i], terms[j] := terms[j], terms[i];
    assert terms[..] == old(terms[..])[i := old(terms[j])][j := old(terms[i])];
  }

  /** What push_heap and pop_heap, or make_heap and pop_heap, do together; they may leave any such order. */
  method PopLargest<T>(terms: array<Term<T>>)
    requires terms.Length >= 2
    modifies terms
    ensures Rearranged(old(terms[..]), terms[..]) && Popped(terms[..])
  {
    var last := terms.Length - 1;
    var m := IndexOfMax(terms, terms.Length);
    Swap(terms, m, last);
    m := IndexOfMax(terms, last);
    Swap(terms, m, 0);
  }

  /** The terms are overwritten, as in the source, which works on the caller's range. */
  method GeneralCascadeMultiplication<T(0, !new)>(g: Group<T>, terms: array<Term<T>>) returns (r: T)
    requires g.Laws() && terms.Length >= 1
    modifies terms
    ensures r == old(Total(g, terms[..]))
  {
    hide ExponentSum;
    if terms.Length == 1 {
      TotalOfLast(g, terms[..]);
      r := SlidingWindow.ScalarMultiply(g, terms[0].base, terms[0].exponent);
    } else if terms.Length == 2 {
      TotalEnds(g, terms[..]);
      assert g.HasUnit(g.Pair(terms[0].exponent, terms[0].base, terms[1].exponent, terms[1].base));
      assert terms[..][1..1] == [];
      r := Cascade.CascadeScalarMultiply(g, terms[0].base, terms[0].exponent, terms[1].base, terms[1].exponent);
    } else {
      ghost var total := Total(g, terms[..]);
      var last := terms.Length - 1;
      PopLargest(terms);
      TotalRearranged(g, old(terms[..]), terms[..]);
      while terms[0].exponent != 0
        invariant Popped(terms[..]) && Total(g, terms[..]) == total
        decreases ExponentSum(terms[..])
      {
        ghost var before := terms[..];
        var t := terms[last].exponent;
        var q := t / terms[0].exponent;
        AtLeastOne(t, terms[0].exponent);
        DivideKeepsTotal(g, before, q);
        terms[last] := Term(terms[last].base, t % terms[0].exponent);
        if q == 1 {
          g.MulOne(terms[last].base);
          terms[0] := Term(g.add(terms[0].base, terms[last].base), terms[0].exponent);
        } else {
          var multiple := SlidingWindow.ScalarMultiply(g, terms[last].base, q);
          terms[0] := Term(g.add(terms[0].base, multiple), terms[0].exponent);
        }
        assert terms[..] == Divided(g, before, g.Mul(q, before[last].base));
        PopLargest(terms);
        TotalRearranged(g, Divided(g, before, g.Mul(q, before[last].base)), terms[..]);
        ExponentSumRearranged(Divided(g, before, g.Mul(q, before[last].base)), terms[..]);
      }
      TotalOfLast(g, terms[..]);
      r := SlidingWindow.ScalarMultiply(g, terms[last].base, terms[last].exponent);
    }
  }

  lemma AtLeastOne(t: nat, d: nat)
    requires 0 < d <= t
    ensures t / d >= 1
  {
    DivMod(t, d);
    if t / d < 1 {
      MulMonotone(t / d, 0, d);
    }
  }
}
