/** Simultaneous scalar multiplication of one base with signed sliding windows and buckets. */
module SlidingWindow {
  import opened AbelianGroup
  import opened Arithmetic
  import opened Bits

  const WORD_BITS: nat := 64

  /** The bits held by the words that store n. */
  function StoredBits(n: nat): (b: nat)
    ensures b >= BitCount(n)
  {
    (BitCount(n) + WORD_BITS - 1) / WORD_BITS * WORD_BITS
  }

  function DefaultWindowSize(expLen: nat): (w: nat)
    ensures 1 <= w <= 7
  {
    if expLen <= 17 then 1
    else if expLen <= 24 then 2
    else if expLen <= 70 then 3
    else if expLen <= 197 then 4
    else if expLen <= 539 then 5
    else if expLen <= 1434 then 6
    else 7
  }

  lemma ShiftByNothing(n: nat)
    ensures ShiftRight(n, 0) == n
  {
  }

  class WindowSlider {
    var exp: nat
    var windowModulus: nat
    var windowSize: nat
    var windowBegin: nat
    var expWindow: nat
    var fastNegate: bool
    var negateNext: bool
    var firstTime: bool
    var finished: bool

    ghost predicate Valid()
      reads this
    {
      && windowSize >= 1 && windowModulus == Pow2(windowSize)
      && (firstTime ==> !finished && windowBegin == 0)
      && (!firstTime && !finished ==> expWindow % 2 == 1 && expWindow < windowModulus && (negateNext ==> Unread() >= 2))
    }

    /** The signed digit of the current window. */
    ghost function Digit(): int
      reads this
    {
      if negateNext then -(expWindow as int) else expWindow as int
    }

    /** The part of the exponent above the current window. */
    ghost function Unread(): nat
      reads this
    {
      if firstTime then exp else ShiftRight(exp, windowSize)
    }

    /** The bit position at which the unread part starts. */
    ghost function UnreadBegin(): nat
      reads this
    {
      if firstTime then 0 else windowBegin + windowSize
    }

    /** The current digit and the unread part, in units of the window's first bit. */
    ghost function Pending(): int
      reads this
    {
      if finished then 0 else if firstTime then exp else Digit() + Unread() * windowModulus
    }

    constructor (expIn: nat, fastNegate: bool, windowSizeIn: nat)
      ensures Valid() && firstTime && exp == expIn && this.fastNegate == fastNegate
      ensures windowSize == if windowSizeIn == 0 then DefaultWindowSize(BitCount(expIn)) else windowSizeIn
    {
      exp := expIn;
      windowSize := if windowSizeIn == 0 then DefaultWindowSize(BitCount(expIn)) else windowSizeIn;
      windowModulus := Pow2(if windowSizeIn == 0 then DefaultWindowSize(BitCount(expIn)) else windowSizeIn);
      windowBegin, expWindow := 0, 0;
      this.fastNegate := fastNegate;
      negateNext, firstTime, finished := false, true, false;
    }

    /** The loop over zero bits: where the next one bit at or after `from` is, if there is one. */
    method SkipZeroBits(from: nat) returns (skipCount: nat, none: bool)
      ensures none <==> ShiftRight(exp, from) == 0
      ensures !none ==> skipCount >= from && ShiftRight(exp, skipCount) % 2 == 1
      ensures !none ==> ShiftRight(exp, skipCount) * Pow2(skipCount - from) == ShiftRight(exp, from)
    {
      var expLen := StoredBits(exp);
      skipCount := from;
      while GetBit(exp, skipCount) == 0
        invariant from <= skipCount
        invariant ShiftRight(exp, skipCount) * Pow2(skipCount - from) == ShiftRight(exp, from)
        decreases expLen - skipCount
      {
        if skipCount >= expLen {
          Pow2Monotone(BitCount(exp), skipCount);
          ShiftedOut(exp, skipCount);
          return skipCount, true;
        }
        NextBit(exp, skipCount);
        MulAssociates(ShiftRight(exp, skipCount + 1), 2, Pow2(skipCount - from));
        skipCount := skipCount + 1;
      }
      MulMonotone(1, ShiftRight(exp, skipCount), Pow2(skipCount - from));
      return skipCount, false;
    }

    /**
     Moves to the next odd signed digit. What was unread is now the digit and the rest, shifted by
     the zero bits that were skipped; nothing unread means that the slider is finished.
     */
    method FindNextWindow()
      requires Valid() && !finished
      modifies this
      ensures Valid() && !firstTime && windowSize == old(windowSize) && fastNegate == old(fastNegate)
      ensures finished <==> old(Unread()) == 0
      ensures !finished ==> windowBegin >= old(UnreadBegin())
      ensures !finished ==> Pending() * Pow2(windowBegin - old(UnreadBegin())) == old(Unread())
      ensures !finished ==> Pending() >= 1
    {
      hide Pow2, ShiftRight, GetBit;
      ShiftByNothing(exp);
      var from := if firstTime then 0 else windowSize;
      firstTime := false;
      var skipCount, none := SkipZeroBits(from);
      if none {
        finished := true;
        return;
      }
      exp := ShiftRight(exp, skipCount);
      windowBegin := windowBegin + skipCount;
      expWindow := exp % windowModulus;
      SplitWindow(exp, windowSize);
      if fastNegate && GetBit(exp, windowSize) == 1 {
        negateNext := true;
        expWindow := windowModulus - expWindow;
        exp := exp + windowModulus;
      } else {
        negateNext := false;
      }
    }
  }

  /** Splitting an odd number into its window and the rest keeps the window odd. */
  lemma SplitWindow(n: nat, w: nat)
    requires w >= 1 && n % 2 == 1
    ensures n == n % Pow2(w) + ShiftRight(n, w) * Pow2(w) && n % Pow2(w) % 2 == 1 && n % Pow2(w) < Pow2(w)
    ensures (Pow2(w) - n % Pow2(w)) % 2 == 1
    ensures ShiftRight(n + Pow2(w), w) == ShiftRight(n, w) + 1
    ensures (ShiftRight(n, w) + 1) * Pow2(w) == ShiftRight(n, w) * Pow2(w) + Pow2(w)
    ensures GetBit(n, w) == 1 ==> ShiftRight(n, w) >= 1
  {
    SplitOff(n, Pow2(w), Pow2(w - 1));
    SplitOn(n, w);
  }

  lemma SplitOff(n: nat, modulus: nat, half: nat)
    requires modulus >= 1 && modulus == 2 * half && n % 2 == 1
    ensures n == n % modulus + n / modulus * modulus && n % modulus % 2 == 1 && n % modulus < modulus
    ensures (modulus - n % modulus) % 2 == 1
  {
    DivMod(n, modulus);
    var q, r := n / modulus, n % modulus;
    MulAssociates(q, 2, half);
    OddRemainder(n, r, q * half);
    OddRemainder(modulus - r, r, half - r);
  }

  lemma SplitOn(n: nat, w: nat)
    ensures ShiftRight(n + Pow2(w), w) == ShiftRight(n, w) + 1
    ensures (ShiftRight(n, w) + 1) * Pow2(w) == ShiftRight(n, w) * Pow2(w) + Pow2(w)
    ensures GetBit(n, w) == 1 ==> ShiftRight(n, w) >= 1
  {
    hide Pow2;
    DivMod(n, Pow2(w));
    Distribute(n / Pow2(w), 1, Pow2(w));
    DivModUnique(n + Pow2(w), Pow2(w), n / Pow2(w) + 1, n % Pow2(w));
  }

  lemma OddRemainder(n: int, r: int, k: int)
    requires n == 2 * k + r
    ensures n % 2 == r % 2
  {
  }

  // ---------- buckets ----------

  /** Bucket k collects the windows with digit 2k+1. */
  ghost function Weighted(c: seq<int>, j: nat): int
    decreases |c| - j
  {
    if j >= |c| then 0 else (2 * j + 1) * c[j] + Weighted(c, j + 1)
  }

  ghost function Suffix(c: seq<int>, j: nat): int
    decreases |c| - j
  {
    if j >= |c| then 0 else c[j] + Suffix(c, j + 1)
  }

  ghost function SuffixSums(c: seq<int>, j: nat): int
    decreases |c| - j
  {
    if j >= |c| then 0 else Suffix(c, j) + SuffixSums(c, j + 1)
  }

  /** Adding up suffix sums counts each bucket as often as its digit says. */
  lemma {:induction false} SuffixSumsAreWeighted(c: seq<int>, j: nat)
    requires j < |c|
    ensures Weighted(c, j) == 2 * SuffixSums(c, j + 1) + (2 * j + 1) * Suffix(c, j)
    decreases |c| - j
  {
    if j + 1 < |c| {
      SuffixSumsAreWeighted(c, j + 1);
      Distribute(c[j], Suffix(c, j + 1), 2 * j + 1);
      Distribute(2 * j + 1, 2, Suffix(c, j + 1));
    }
  }

  lemma {:induction false} WeightedUpdate(c: seq<int>, j: nat, k: nat, v: int)
    requires j <= k < |c|
    ensures Weighted(c[k := c[k] + v], j) == Weighted(c, j) + (2 * k + 1) * v
    decreases k - j
  {
    var d := c[k := c[k] + v];
    if j == k {
      WeightedTail(c, d, j + 1);
      Distribute(c[k], v, 2 * k + 1);
    } else {
      WeightedUpdate(c, j + 1, k, v);
    }
  }

  lemma {:induction false} WeightedTail(c: seq<int>, d: seq<int>, j: nat)
    requires |c| == |d| && forall k :: j <= k < |c| ==> c[k] == d[k]
    ensures Weighted(c, j) == Weighted(d, j)
    decreases |c| - j
  {
    if j < |c| {
      WeightedTail(c, d, j + 1);
    }
  }

  lemma {:induction false} WeightedZero(n: nat, j: nat)
    ensures Weighted(seq(n, _ => 0), j) == 0
    decreases n - j
  {
    if j < n {
      WeightedZero(n, j + 1);
      assert (2 * j + 1) * 0 == 0;
    }
  }

  /** Each bucket holds the multiple of the base that c records. */
  ghost predicate Holds<T(!new)>(g: Group<T>, base: T, bucket: seq<T>, c: seq<int>) {
    |bucket| == |c| && forall k :: 0 <= k < |c| ==> bucket[k] == g.Mul(c[k], base)
  }

  /** The closing loop: runs down the buckets, turning them into suffix sums on the way. */
  method SumBuckets<T(!new)>(g: Group<T>, ghost base: T, start: seq<T>, ghost c: seq<int>) returns (r: T)
    requires g.Laws() && |start| > 0 && Holds(g, base, start, c)
    ensures r == g.Mul(Weighted(c, 0), base)
  {
    hide Weighted, Suffix, SuffixSums;
    var buckets := start;
    var last := |buckets| - 1;
    r := buckets[last];
    LastSuffix(c);
    WholeSum(g, base, c);
    if last > 0 {
      var j := last - 1;
      while j >= 1
        invariant 0 <= j < last && |buckets| == |start|
        invariant buckets[..j + 1] == start[..j + 1]
        invariant buckets[j + 1] == g.Mul(Suffix(c, j + 1), base)
        invariant r == g.Mul(SuffixSums(c, j + 1), base)
      {
        NextSuffix(g, base, c, j);
        assert buckets[..j + 1][j] == start[j];
        buckets := buckets[j := g.add(buckets[j], buckets[j + 1])];
        r := g.add(r, buckets[j]);
        assert buckets[..j] == start[..j];
        j := j - 1;
      }
      NextSuffix(g, base, c, 0);
      assert buckets[..1][0] == start[0];
      buckets := buckets[0 := g.add(buckets[0], buckets[1])];
      r := g.add(g.Double(r), buckets[0]);
    }
  }

  lemma LastSuffix(c: seq<int>)
    requires |c| > 0
    ensures var last := |c| - 1; Suffix(c, last) == c[last] == SuffixSums(c, last)
    ensures |c| == 1 ==> Weighted(c, 0) == c[0]
  {
    var last := |c| - 1;
    assert Suffix(c, |c|) == 0 && SuffixSums(c, |c|) == 0;
    assert |c| == 1 ==> Weighted(c, 1) == 0 && Weighted(c, 0) == (2 * 0 + 1) * c[0] + Weighted(c, 1);
  }

  lemma NextSuffix<T(!new)>(g: Group<T>, base: T, c: seq<int>, j: nat)
    requires g.Laws() && j < |c|
    ensures g.Mul(Suffix(c, j), base) == g.add(g.Mul(c[j], base), g.Mul(Suffix(c, j + 1), base))
    ensures g.Mul(SuffixSums(c, j), base) == g.add(g.Mul(SuffixSums(c, j + 1), base), g.Mul(Suffix(c, j), base))
  {
    g.MulAdd(c[j], Suffix(c, j + 1), base);
    g.MulAdd(SuffixSums(c, j + 1), Suffix(c, j), base);
  }

  lemma WholeSum<T(!new)>(g: Group<T>, base: T, c: seq<int>)
    requires g.Laws() && |c| > 0
    ensures g.Mul(Weighted(c, 0), base) == g.add(g.Double(g.Mul(SuffixSums(c, 1), base)), g.Mul(Suffix(c, 0), base))
  {
    hide Weighted, Suffix, SuffixSums;
    SuffixSumsAreWeighted(c, 0);
    g.MulAdd(SuffixSums(c, 1), SuffixSums(c, 1), base);
    g.MulAdd(2 * SuffixSums(c, 1), Suffix(c, 0), base);
  }

  // ---------- all sliders together ----------

  /** What the buckets hold and what the slider has left always make up the exponent. */
  ghost predicate Accounted(s: WindowSlider, c: seq<int>, e: nat, position: nat)
    reads s
  {
    && s.Valid() && !s.firstTime && |c| == Pow2(s.windowSize - 1)
    && (!s.finished ==> s.windowBegin >= position && s.Pending() >= 1)
    && Weighted(c, 0) + s.Pending() * Pow2(s.windowBegin) == e
  }

  /** The value of the current window moves from the slider to its bucket. */
  lemma MoveDigit(digit: int, unread: nat, w: nat, begin: nat, next: nat, pending': int)
    requires next >= begin + w && pending' * Pow2(next - (begin + w)) == unread
    ensures (digit + unread * Pow2(w)) * Pow2(begin) == digit * Pow2(begin) + pending' * Pow2(next)
  {
    Distribute(digit, unread * Pow2(w), Pow2(begin));
    MulAssociates(unread, Pow2(w), Pow2(begin));
    Pow2Add(w, begin);
    MulAssociates(pending', Pow2(next - (begin + w)), Pow2(begin + w));
    Pow2Add(next - (begin + w), begin + w);
  }

  lemma AddToBucket<T(!new)>(g: Group<T>, base: T, bucket: seq<T>, c: seq<int>, k: nat, v: int, multiple: T)
    requires g.Laws() && Holds(g, base, bucket, c) && k < |c| && multiple == g.Mul(v, base)
    ensures Holds(g, base, bucket[k := g.add(bucket[k], multiple)], c[k := c[k] + v])
    ensures Weighted(c[k := c[k] + v], 0) == Weighted(c, 0) + (2 * k + 1) * v
  {
    g.MulAdd(c[k], v, base);
    WeightedUpdate(c, 0, k, v);
  }

  lemma HalfWindow(window: nat, w: nat)
    requires w >= 1 && window < Pow2(w) && window % 2 == 1
    ensures window / 2 < Pow2(w - 1) && 2 * (window / 2) + 1 == window
  {
  }

  /** Takes the current window of one slider at its position and moves the slider on. */
  method Consume<T(!new)>(g: Group<T>, ghost base: T, s: WindowSlider, start: seq<T>, ghost c: seq<int>, ghost e: nat,
                          multiple: T, position: nat) returns (bucket: seq<T>, ghost d: seq<int>)
    requires g.Laws() && Accounted(s, c, e, position) && Holds(g, base, start, c)
    requires !s.finished && s.windowBegin == position && multiple == g.Mul(Pow2(position), base)
    modifies s
    ensures Accounted(s, d, e, position + 1) && Holds(g, base, bucket, d)
    ensures 0 <= s.Pending() < old(s.Pending())
  {
    hide Holds, Weighted, Pow2;
    UnreadIsLess(s);
    PutDigit(g, base, start, c, s.expWindow, s.negateNext, s.windowSize, multiple, position);
    var k := s.expWindow / 2;
    if s.negateNext {
      bucket := start[k := g.add(start[k], g.neg(multiple))];
    } else {
      bucket := start[k := g.add(start[k], multiple)];
    }
    d := c[k := c[k] + (if s.negateNext then -(Pow2(position) as int) else Pow2(position))];
    Advance(s, d, e, position);
  }

  /** A window in its bucket counts as its digit. */
  lemma PutDigit<T(!new)>(g: Group<T>, base: T, bucket: seq<T>, c: seq<int>, window: nat, negative: bool, w: nat,
                          multiple: T, position: nat)
    requires g.Laws() && Holds(g, base, bucket, c) && multiple == g.Mul(Pow2(position), base)
    requires w >= 1 && window < Pow2(w) && window % 2 == 1 && |c| == Pow2(w - 1)
    ensures |bucket| == |c| && window / 2 < |c|
    ensures
      var k, p := window / 2, Pow2(position);
      var d := c[k := c[k] + (if negative then -(p as int) else p)];
      && Holds(g, base, bucket[k := g.add(bucket[k], if negative then g.neg(multiple) else multiple)], d)
      && Weighted(d, 0) == Weighted(c, 0) + (if negative then -(window as int) else window) * p
  {
    HalfWindow(window, w);
    hide Pow2, Weighted, Holds;
    var k, p := window / 2, Pow2(position);
    assert |bucket| == |c| by { BucketsMatch(g, base, bucket, c); }
    if negative {
      g.MulNeg(p, base);
      AddToBucket(g, base, bucket, c, k, -(p as int), g.neg(multiple));
      NegatedProduct(window, p);
    } else {
      AddToBucket(g, base, bucket, c, k, p, multiple);
    }
  }

  lemma BucketsMatch<T(!new)>(g: Group<T>, base: T, bucket: seq<T>, c: seq<int>)
    requires Holds(g, base, bucket, c)
    ensures |bucket| == |c|
  {
  }

  lemma NegatedProduct(a: int, b: int)
    ensures a * -b == -a * b
  {
  }

  /** Once the digit is in its bucket, finding the next window keeps the account. */
  method Advance(s: WindowSlider, ghost d: seq<int>, ghost e: nat, ghost position: nat)
    requires s.Valid() && !s.firstTime && !s.finished && |d| == Pow2(s.windowSize - 1) && s.windowBegin == position
    requires Weighted(d, 0) - s.Digit() * Pow2(position) + s.Pending() * Pow2(position) == e
    requires s.Unread() < s.Pending()
    modifies s
    ensures Accounted(s, d, e, position + 1)
    ensures 0 <= s.Pending() < old(s.Pending())
  {
    ghost var digit, unread, w := s.Digit(), s.Unread(), s.windowSize;
    s.FindNextWindow();
    if s.finished {
      assert 0 * Pow2(w) == 0 && 0 * Pow2(s.windowBegin) == 0;
    } else {
      FactorIsLess(s.Pending(), Pow2(s.windowBegin - (position + w)), unread);
      MoveDigit(digit, unread, w, position, s.windowBegin, s.Pending());
    }
  }

  lemma FactorIsLess(a: int, b: int, product: int)
    requires a >= 0 && b >= 1 && a * b == product
    ensures a <= product
  {
    MulMonotone(1, b, a);
  }

  lemma UnreadIsLess(s: WindowSlider)
    requires s.Valid() && !s.firstTime && !s.finished
    ensures s.Unread() < s.Pending()
  {
    if s.Unread() > 0 {
      MulMonotone(2, s.windowModulus, s.Unread() - 1);
      Distribute(s.Unread() - 1, 1, s.windowModulus);
    }
  }

  ghost predicate Distinct(s: seq<WindowSlider>) {
    forall i, j :: 0 <= i < j < |s| ==> s[i] != s[j]
  }

  ghost predicate AllAccounted(s: seq<WindowSlider>, c: seq<seq<int>>, e: seq<nat>, position: nat)
    reads s
  {
    |s| == |c| == |e| && forall k :: 0 <= k < |s| ==> Accounted(s[k], c[k], e[k], position)
  }

  ghost predicate AllHold<T(!new)>(g: Group<T>, base: T, buckets: seq<seq<T>>, c: seq<seq<int>>) {
    |buckets| == |c| && forall k :: 0 <= k < |c| ==> Holds(g, base, buckets[k], c[k])
  }

  // What is left to do, for termination: the pending values, and how far the next window is.

  ghost function Pendings(s: seq<WindowSlider>): (r: seq<int>)
    reads s
    ensures |r| == |s| && forall k :: 0 <= k < |s| ==> r[k] == s[k].Pending()
  {
    seq(|s|, k requires 0 <= k < |s| reads s => s[k].Pending())
  }

  ghost function Begins(s: seq<WindowSlider>): (r: seq<nat>)
    reads s
    ensures |r| == |s| && forall k :: 0 <= k < |s| ==> r[k] == if s[k].finished then 0 else s[k].windowBegin
  {
    seq(|s|, k requires 0 <= k < |s| reads s => if s[k].finished then 0 else s[k].windowBegin)
  }

  ghost function Sum(s: seq<int>): int {
    if s == [] then 0 else s[0] + Sum(s[1..])
  }

  ghost function Max(s: seq<nat>): (m: nat)
    ensures forall k :: 0 <= k < |s| ==> s[k] <= m
  {
    if s == [] then 0 else if s[0] > Max(s[1..]) then s[0] else Max(s[1..])
  }

  ghost function Work(s: seq<WindowSlider>): int
    reads s
  {
    Sum(Pendings(s))
  }

  ghost function Farthest(s: seq<WindowSlider>): nat
    reads s
  {
    Max(Begins(s))
  }

  lemma {:induction false} SumLess(a: seq<int>, b: seq<int>)
    requires |a| == |b| && forall k :: 0 <= k < |a| ==> 0 <= a[k] <= b[k]
    ensures 0 <= Sum(a) <= Sum(b)
    ensures (exists k :: 0 <= k < |a| && a[k] < b[k]) ==> Sum(a) < Sum(b)
  {
    if a != [] {
      SumLess(a[1..], b[1..]);
      if k :| 0 <= k < |a| && a[k] < b[k] {
        if k > 0 {
          assert a[1..][k - 1] < b[1..][k - 1];
        }
      }
    }
  }

  /** One exponent's turn at a position. */
  method Visit<T(!new)>(g: Group<T>, ghost base: T, s: WindowSlider, start: seq<T>, ghost c: seq<int>, ghost e: nat,
                        multiple: T, position: nat) returns (bucket: seq<T>, ghost d: seq<int>)
    requires g.Laws() && Accounted(s, c, e, position) && Holds(g, base, start, c)
    requires multiple == g.Mul(Pow2(position), base)
    modifies s
    ensures Accounted(s, d, e, position + 1) && Holds(g, base, bucket, d)
    ensures 0 <= s.Pending() <= old(s.Pending())
    ensures unchanged(s) || s.Pending() < old(s.Pending())
  {
    if !s.finished && position == s.windowBegin {
      bucket, d := Consume(g, base, s, start, c, e, multiple, position);
    } else {
      bucket, d := start, c;
    }
  }

  /** One pass over the exponents: every window that begins here goes into its bucket. */
  method Sweep<T(!new)>(g: Group<T>, ghost base: T, exponents: seq<WindowSlider>, start: seq<seq<T>>,
                        ghost c: seq<seq<int>>, ghost e: seq<nat>, multiple: T, position: nat)
    returns (buckets: seq<seq<T>>, ghost d: seq<seq<int>>, notDone: bool, ghost moved: int)
    requires g.Laws() && Distinct(exponents) && AllAccounted(exponents, c, e, position) && AllHold(g, base, start, c)
    requires multiple == g.Mul(Pow2(position), base)
    modifies exponents
    ensures AllAccounted(exponents, d, e, position + 1) && AllHold(g, base, buckets, d)
    ensures notDone <==> exists k :: 0 <= k < |exponents| && !exponents[k].finished
    ensures forall k :: 0 <= k < |exponents| ==> 0 <= exponents[k].Pending() <= old(exponents[k].Pending())
    ensures if 0 <= moved < |exponents| then exponents[moved].Pending() < old(exponents[moved].Pending())
            else forall k :: 0 <= k < |exponents| ==> unchanged(exponents[k])
  {
    hide Accounted, Holds, Weighted, Pow2;
    buckets, d, notDone, moved := start, c, false, -1;
    for i := 0 to |exponents|
      invariant |d| == |exponents| && AllHold(g, base, buckets, d)
      invariant forall k :: 0 <= k < i ==> Accounted(exponents[k], d[k], e[k], position + 1)
      invariant forall k :: 0 <= k < i ==> 0 <= exponents[k].Pending() <= old(exponents[k].Pending())
      invariant forall k :: i <= k < |exponents| ==> unchanged(exponents[k]) && d[k] == c[k]
      invariant notDone <==> exists k :: 0 <= k < i && !exponents[k].finished
      invariant -1 <= moved < i
      invariant moved == -1 ==> forall k :: 0 <= k < i ==> unchanged(exponents[k])
      invariant moved != -1 ==> exponents[moved].Pending() < old(exponents[moved].Pending())
    {
      var bucket;
      ghost var coefficients, before := [], exponents[i].Pending();
      bucket, coefficients := Visit(g, base, exponents[i], buckets[i], d[i], e[i], multiple, position);
      buckets, d := buckets[i := bucket], d[i := coefficients];
      if exponents[i].Pending() < before {
        moved := i;
      }
      notDone := notDone || !exponents[i].finished;
    }
  }

  lemma Progress(p: seq<int>, p': seq<int>, b: seq<nat>, b': seq<nat>, moved: int)
    requires |p| == |p'| && forall k :: 0 <= k < |p| ==> 0 <= p'[k] <= p[k]
    requires b == b' || (0 <= moved < |p| && p'[moved] < p[moved])
    ensures 0 <= Sum(p') <= Sum(p) && (Sum(p') < Sum(p) || b == b')
  {
    SumLess(p', p);
  }

  /** The same pass, with its effect on what is left to do. */
  method SweepCloser<T(!new)>(g: Group<T>, ghost base: T, exponents: seq<WindowSlider>, start: seq<seq<T>>,
                              ghost c: seq<seq<int>>, ghost e: seq<nat>, multiple: T, position: nat)
    returns (buckets: seq<seq<T>>, ghost d: seq<seq<int>>, notDone: bool)
    requires g.Laws() && Distinct(exponents) && AllAccounted(exponents, c, e, position) && AllHold(g, base, start, c)
    requires multiple == g.Mul(Pow2(position), base)
    modifies exponents
    ensures AllAccounted(exponents, d, e, position + 1) && AllHold(g, base, buckets, d)
    ensures notDone <==> exists k :: 0 <= k < |exponents| && !exponents[k].finished
    ensures 0 <= Work(exponents) <= old(Work(exponents))
    ensures Work(exponents) < old(Work(exponents)) || Farthest(exponents) == old(Farthest(exponents))
  {
    hide Accounted, Holds;
    ghost var pendings, begins, moved := Pendings(exponents), Begins(exponents), 0;
    buckets, d, notDone, moved := Sweep(g, base, exponents, start, c, e, multiple, position);
    Progress(pendings, Pendings(exponents), begins, Begins(exponents), moved);
  }

  /** The bucket vectors and sliders before the first bit position. */
  method SetUp<T(!new)>(g: Group<T>, ghost base: T, exponents: seq<nat>)
    returns (sliders: seq<WindowSlider>, buckets: seq<seq<T>>, ghost c: seq<seq<int>>)
    requires g.Laws()
    ensures fresh(set s | s in sliders) && |sliders| == |exponents| && Distinct(sliders)
    ensures AllAccounted(sliders, c, exponents, 0) && AllHold(g, base, buckets, c)
  {
    sliders, buckets, c := [], [], [];
    for i := 0 to |exponents|
      invariant |sliders| == |buckets| == |c| == i
      invariant fresh(set s | s in sliders) && Distinct(sliders)
      invariant forall k :: 0 <= k < i ==>
          Accounted(sliders[k], c[k], exponents[k], 0) && Holds(g, base, buckets[k], c[k])
    {
      var slider := new WindowSlider(exponents[i], g.inversionIsFast, 0);
      slider.FindNextWindow();
      ghost var zeros := seq(Pow2(slider.windowSize - 1), _ => 0);
      WeightedZero(Pow2(slider.windowSize - 1), 0);
      var empty := seq(Pow2(slider.windowSize - 1), _ => g.id);
      assert Accounted(slider, zeros, exponents[i], 0);
      assert Holds(g, base, empty, zeros);
      sliders := sliders + [slider];
      buckets := buckets + [empty];
      c := c + [zeros];
    }
  }

  lemma SomeWindowAhead(s: seq<WindowSlider>, c: seq<seq<int>>, e: seq<nat>, position: nat)
    requires AllAccounted(s, c, e, position) && exists k :: 0 <= k < |s| && !s[k].finished
    ensures position <= Farthest(s)
  {
    var k :| 0 <= k < |s| && !s[k].finished;
    assert Accounted(s[k], c[k], e[k], position);
    assert Begins(s)[k] == s[k].windowBegin;
  }

  lemma NextPosition<T(!new)>(g: Group<T>, base: T, position: nat)
    requires g.Laws()
    ensures g.Double(g.Mul(Pow2(position), base)) == g.Mul(Pow2(position + 1), base)
  {
    g.MulAdd(Pow2(position), Pow2(position), base);
  }

  lemma FinishedAccounts(s: seq<WindowSlider>, c: seq<seq<int>>, e: seq<nat>, position: nat)
    requires AllAccounted(s, c, e, position) && forall k :: 0 <= k < |s| ==> s[k].finished
    ensures |c| == |e| && forall k :: 0 <= k < |c| ==> |c[k]| > 0 && Weighted(c[k], 0) == e[k]
  {
    forall k | 0 <= k < |c|
      ensures |c[k]| > 0 && Weighted(c[k], 0) == e[k]
    {
      assert Accounted(s[k], c[k], e[k], position);
      assert 0 * Pow2(s[k].windowBegin) == 0;
    }
  }

  /** The loop over bit positions, which ends with every exponent spread over its buckets. */
  method CollectWindows<T(!new)>(g: Group<T>, base: T, sliders: seq<WindowSlider>, start: seq<seq<T>>,
                                 ghost zeros: seq<seq<int>>, ghost exponents: seq<nat>)
    returns (buckets: seq<seq<T>>, ghost c: seq<seq<int>>)
    requires g.Laws() && Distinct(sliders)
    requires AllAccounted(sliders, zeros, exponents, 0) && AllHold(g, base, start, zeros)
    modifies sliders
    ensures |c| == |exponents| && AllHold(g, base, buckets, c)
    ensures forall k :: 0 <= k < |c| ==> |c[k]| > 0 && Weighted(c[k], 0) == exponents[k]
  {
    hide Accounted, Holds, Weighted, Work, Farthest, AllHold, AllAccounted, Distinct;
    buckets, c := start, zeros;
    var expBitPosition: nat := 0;
    var multiple := base;
    g.MulOne(base);
    var notDone := true;
    while notDone
      invariant AllAccounted(sliders, c, exponents, if notDone then expBitPosition else expBitPosition + 1)
      invariant AllHold(g, base, buckets, c)
      invariant multiple == g.Mul(Pow2(expBitPosition), base)
      invariant !notDone ==> forall k :: 0 <= k < |sliders| ==> sliders[k].finished
      decreases Work(sliders), notDone, Farthest(sliders) - expBitPosition
    {
      buckets, c, notDone := SweepCloser(g, base, sliders, buckets, c, exponents, multiple, expBitPosition);
      if notDone {
        SomeWindowAhead(sliders, c, exponents, expBitPosition + 1);
        NextPosition(g, base, expBitPosition);
        multiple := g.Double(multiple);
        expBitPosition := expBitPosition + 1;
      }
    }
    FinishedAccounts(sliders, c, exponents, expBitPosition + 1);
  }

  method SimultaneousMultiply<T(!new)>(g: Group<T>, results: array<T>, base: T, exponents: seq<nat>)
    requires g.Laws() && results.Length == |exponents|
    modifies results
    ensures forall k :: 0 <= k < |exponents| ==> results[k] == g.Mul(exponents[k], base)
  {
    hide Accounted, Weighted, Pow2;
    ghost var zeros, c;
    var sliders, buckets;
    sliders, buckets, zeros := SetUp(g, base, exponents);
    buckets, c := CollectWindows(g, base, sliders, buckets, zeros, exponents);
    for i := 0 to |exponents|
      invariant forall k :: 0 <= k < i ==> results[k] == g.Mul(exponents[k], base)
    {
      var r := SumBuckets(g, base, buckets[i], c[i]);
      results[i] := r;
    }
  }

  method ScalarMultiply<T(!new)>(g: Group<T>, base: T, exponent: nat) returns (r: T)
    requires g.Laws()
    ensures r == g.Mul(exponent, base)
  {
    var result := new T[1](_ => base);
    SimultaneousMultiply(g, result, base, [exponent]);
    r := result[0];
  }
}
