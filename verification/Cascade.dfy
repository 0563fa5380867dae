/** Two-base scalar multiplication with joint windows over a sparsely filled table. */
module Cascade {
  import opened AbelianGroup
  import opened Arithmetic
  import opened Bits

  datatype Slot<T> = Unfilled | Filled(value: T)

  // The table is kept row by row in one vector.

  function Row(k: nat, size: nat): nat
    requires size > 0
  {
    k / size
  }

  function Column(k: nat, size: nat): nat
    requires size > 0
  {
    k % size
  }

  /** Slot k holds column·x + row·y. */
  ghost predicate Entry<T(!new)>(g: Group<T>, slot: Slot<T>, size: nat, x: T, y: T, k: nat)
    requires size > 0
  {
    slot == Filled(g.Pair(Column(k, size), x, Row(k, size), y))
  }

  ghost predicate OddColumns<T(!new)>(g: Group<T>, table: seq<Slot<T>>, size: nat, x: T, y: T)
    requires size > 0
  {
    forall k: nat :: k < |table| && Column(k, size) % 2 == 1 ==> Entry(g, table[k], size, x, y, k)
  }

  ghost predicate OddRows<T(!new)>(g: Group<T>, table: seq<Slot<T>>, size: nat, x: T, y: T)
    requires size > 0
  {
    forall k: nat :: k < |table| && Row(k, size) % 2 == 1 ==> Entry(g, table[k], size, x, y, k)
  }

  lemma At(row: nat, column: nat, size: nat)
    requires column < size
    ensures Column(row * size + column, size) == column && Row(row * size + column, size) == row
  {
    DivModUnique(row * size + column, size, row, column);
  }

  lemma Small(size: nat)
    requires size > 0
    ensures forall k: nat :: k < size ==> Column(k, size) == k && Row(k, size) == 0
    ensures Column(size, size) == 0 && Row(size, size) == 1
    ensures Column(2 * size, size) == 0 && Row(2 * size, size) == 2
  {
    At(1, 0, size);
    At(2, 0, size);
  }

  lemma Move(k: nat, down: nat, right: nat, size: nat)
    requires size > 0 && Column(k, size) + right < size
    ensures Column(k + down * size + right, size) == Column(k, size) + right
    ensures Row(k + down * size + right, size) == Row(k, size) + down
  {
    DivMod(k, size);
    Distribute(k / size, down, size);
    DivModUnique(k + down * size + right, size, k / size + down, k % size + right);
  }

  /** Columns recur only after a whole row. */
  lemma NothingBetween(j: nat, size: nat)
    requires size > 0
    ensures forall k: nat :: j < k < j + size ==> Column(k, size) != Column(j, size)
  {
    forall k: nat | j < k < j + size && Column(k, size) == Column(j, size)
      ensures false
    {
      DivMod(j, size);
      DivMod(k, size);
      Distribute(k / size, -(j / size), size);
      Distribute(j / size, -(j / size), size);
      SmallMultiple(k / size - j / size, size);
    }
  }

  lemma AddEntries<T(!new)>(g: Group<T>, a: Slot<T>, b: Slot<T>, size: nat, x: T, y: T, i: nat, j: nat, k: nat)
    requires g.Laws() && size > 0
    requires Entry(g, a, size, x, y, i) && Entry(g, b, size, x, y, j)
    requires Column(k, size) == Column(i, size) + Column(j, size) && Row(k, size) == Row(i, size) + Row(j, size)
    ensures Entry(g, Filled(g.add(a.value, b.value)), size, x, y, k)
  {
    g.PairAdd(Column(i, size), Row(i, size), Column(j, size), Row(j, size), x, y);
  }

  lemma BaseEntries<T(!new)>(g: Group<T>, size: nat, x: T, y: T)
    requires g.Laws() && size > 1
    ensures Entry(g, Filled(x), size, x, y, 1) && Entry(g, Filled(y), size, x, y, size)
  {
    Small(size);
    g.PairUnits(x, y);
  }

  /** The window width that balances table size against the number of additions. */
  function WindowWidth(expLen: nat): (w: nat)
    ensures 1 <= w <= 3
  {
    if expLen <= 46 then 1 else if expLen <= 260 then 2 else 3
  }

  ghost predicate Sized<T>(table: seq<Slot<T>>, size: nat) {
    (size == 4 && |table| == 16) || (size == 8 && |table| == 64)
  }

  /** The four slots that the loops below add: x, 2·x, y and 2·y. */
  ghost predicate Basis<T(!new)>(g: Group<T>, table: seq<Slot<T>>, size: nat, x: T, y: T)
    requires Sized(table, size)
  {
    && Entry(g, table[1], size, x, y, 1)
    && Entry(g, table[2], size, x, y, 2)
    && Entry(g, table[size], size, x, y, size)
    && Entry(g, table[2 * size], size, x, y, 2 * size)
  }

  method FillFirstRow<T(!new)>(g: Group<T>, start: seq<Slot<T>>, size: nat, x: T, y: T) returns (table: seq<Slot<T>>)
    requires g.Laws() && Sized(start, size) && Basis(g, start, size, x, y)
    ensures Sized(table, size) && Basis(g, table, size, x, y)
    ensures forall k: nat :: k < size && k % 2 == 1 ==> Entry(g, table[k], size, x, y, k)
  {
    Small(size);
    table := start;
    var i := 3;
    while i < size
      invariant 3 <= i <= size + 1 && i % 2 == 1
      invariant Sized(table, size) && Basis(g, table, size, x, y)
      invariant forall k: nat :: k < i && k < size && k % 2 == 1 ==> Entry(g, table[k], size, x, y, k)
    {
      AddEntries(g, table[i - 2], table[2], size, x, y, i - 2, 2, i);
      table := table[i := Filled(g.add(table[i - 2].value, table[2].value))];
      i := i + 2;
    }
  }

  /** One pass of the inner loop over the odd columns: downwards, a row at a time. */
  method FillColumn<T(!new)>(g: Group<T>, start: seq<Slot<T>>, size: nat, x: T, y: T, i: nat)
      returns (table: seq<Slot<T>>)
    requires g.Laws() && Sized(start, size) && Basis(g, start, size, x, y)
    requires i < size && i % 2 == 1 && Entry(g, start[i], size, x, y, i)
    ensures Sized(table, size) && |table| == |start| && Basis(g, table, size, x, y)
    ensures forall k: nat :: k < |table| && Column(k, size) == i ==> Entry(g, table[k], size, x, y, k)
    ensures forall k: nat :: k < |table| && (Column(k, size) != i || k < size) ==> table[k] == start[k]
  {
    Small(size);
    Move(i, 1, 0, size);
    NothingBetween(i, size);
    table := start;
    var j := i + size;
    while j < |table|
      invariant size <= j && Column(j, size) == i
      invariant ColumnFilled(g, start, table, size, x, y, i, j)
    {
      FillBelow(g, start, table, size, x, y, i, j);
      table := table[j := Filled(g.add(table[j - size].value, y))];
      j := j + size;
    }
  }

  /** The slots of column i are filled up to j, and everything else is as at the start. */
  ghost predicate ColumnFilled<T(!new)>(g: Group<T>, start: seq<Slot<T>>, table: seq<Slot<T>>, size: nat, x: T, y: T,
                                        i: nat, j: nat)
    requires size > 0
  {
    && |table| == |start|
    && (forall k: nat :: k < |table| && (Column(k, size) != i || k < size) ==> table[k] == start[k])
    && (forall k: nat :: k < |table| && k < j && Column(k, size) == i ==> Entry(g, table[k], size, x, y, k))
  }

  lemma FillBelow<T(!new)>(g: Group<T>, start: seq<Slot<T>>, table: seq<Slot<T>>, size: nat, x: T, y: T, i: nat, j: nat)
    requires g.Laws() && size > 1 && size <= j < |table| && Column(j, size) == i
    requires ColumnFilled(g, start, table, size, x, y, i, j)
    ensures table[j - size].Filled? && Column(j + size, size) == i
    ensures ColumnFilled(g, start, table[j := Filled(g.add(table[j - size].value, y))], size, x, y, i, j + size)
  {
    NothingBetween(j, size);
    UpOne(j, size);
    Small(size);
    BaseEntries(g, size, x, y);
    AddEntries(g, table[j - size], Filled(y), size, x, y, j - size, size, j);
    Move(j, 1, 0, size);
  }

  lemma UpOne(j: nat, size: nat)
    requires 0 < size <= j
    ensures Column(j - size, size) == Column(j, size) && Row(j, size) == Row(j - size, size) + 1
  {
    Move(j - size, 1, 0, size);
  }

  method FillOddColumns<T(!new)>(g: Group<T>, start: seq<Slot<T>>, size: nat, x: T, y: T) returns (table: seq<Slot<T>>)
    requires g.Laws() && Sized(start, size) && Basis(g, start, size, x, y)
    requires forall k: nat :: k < size && k % 2 == 1 ==> Entry(g, start[k], size, x, y, k)
    ensures Sized(table, size) && |table| == |start| && Basis(g, table, size, x, y)
    ensures OddColumns(g, table, size, x, y)
  {
    Small(size);
    ColumnsInRange(size);
    table := start;
    var i := 1;
    while i < size
      invariant 1 <= i <= size + 1 && i % 2 == 1
      invariant Sized(table, size) && |table| == |start| && Basis(g, table, size, x, y)
      invariant forall k: nat :: k < size && k % 2 == 1 ==> Entry(g, table[k], size, x, y, k)
      invariant forall k: nat :: k < |table| && Column(k, size) % 2 == 1 && Column(k, size) < i ==>
          Entry(g, table[k], size, x, y, k)
    {
      table := FillColumn(g, table, size, x, y, i);
      i := i + 2;
    }
  }

  lemma ColumnsInRange(size: nat)
    requires size > 0
    ensures forall k: nat :: Column(k, size) < size
  {
  }

  /** From an odd row, the next odd row is two rows down. */
  lemma EveryOtherRow(i: nat, size: nat)
    requires size > 0 && Column(i, size) == 0 && Row(i, size) % 2 == 1
    ensures forall k: nat :: i < k < i + 2 * size ==> Column(k, size) != 0 || Row(k, size) % 2 == 0
    ensures Column(i + 2 * size, size) == 0 && Row(i + 2 * size, size) == Row(i, size) + 2
  {
    Move(i, 1, 0, size);
    Move(i, 2, 0, size);
    NothingBetween(i, size);
    NothingBetween(i + size, size);
  }

  lemma RowSpan(i: nat, size: nat)
    requires size > 0 && Column(i, size) == 0
    ensures forall k: nat :: i <= k < i + size ==> Column(k, size) == k - i && Row(k, size) == Row(i, size)
  {
    forall k: nat | i <= k < i + size
      ensures Column(k, size) == k - i && Row(k, size) == Row(i, size)
    {
      Move(i, 0, k - i, size);
    }
  }

  method FillFirstColumn<T(!new)>(g: Group<T>, start: seq<Slot<T>>, size: nat, x: T, y: T) returns (table: seq<Slot<T>>)
    requires g.Laws() && Sized(start, size) && Basis(g, start, size, x, y) && OddColumns(g, start, size, x, y)
    ensures Sized(table, size) && |table| == |start| && Basis(g, table, size, x, y) && OddColumns(g, table, size, x, y)
    ensures forall k: nat :: k < |table| && Column(k, size) == 0 && Row(k, size) % 2 == 1 ==>
        Entry(g, table[k], size, x, y, k)
  {
    Small(size);
    EveryOtherRow(size, size);
    table := start;
    var i := 3 * size;
    while i < |table|
      invariant 3 * size <= i && Column(i, size) == 0 && Row(i, size) % 2 == 1
      invariant FirstColumnFilled(g, start, table, size, x, y, i)
    {
      FillTwoBelow(g, start, table, size, x, y, i);
      table := table[i := Filled(g.add(table[i - 2 * size].value, table[2 * size].value))];
      i := i + 2 * size;
    }
  }

  /** The odd rows of column 0 are filled up to i, and everything else is as at the start. */
  ghost predicate FirstColumnFilled<T(!new)>(g: Group<T>, start: seq<Slot<T>>, table: seq<Slot<T>>, size: nat,
                                             x: T, y: T, i: nat)
    requires size > 0
  {
    && |table| == |start|
    && (forall k: nat :: k < |table| && (Column(k, size) != 0 || k < 3 * size) ==> table[k] == start[k])
    && (forall k: nat :: k < |table| && k < i && Column(k, size) == 0 && Row(k, size) % 2 == 1 ==>
          Entry(g, table[k], size, x, y, k))
  }

  lemma FillTwoBelow<T(!new)>(g: Group<T>, start: seq<Slot<T>>, table: seq<Slot<T>>, size: nat, x: T, y: T, i: nat)
    requires g.Laws() && Sized(start, size) && Basis(g, start, size, x, y)
    requires 3 * size <= i < |table| && Column(i, size) == 0 && Row(i, size) % 2 == 1
    requires FirstColumnFilled(g, start, table, size, x, y, i)
    ensures table[i - 2 * size].Filled? && table[2 * size].Filled?
    ensures Column(i + 2 * size, size) == 0 && Row(i + 2 * size, size) % 2 == 1
    ensures
      var value := g.add(table[i - 2 * size].value, table[2 * size].value);
      FirstColumnFilled(g, start, table[i := Filled(value)], size, x, y, i + 2 * size)
  {
    Small(size);
    UpTwo(i, size);
    AddEntries(g, table[i - 2 * size], table[2 * size], size, x, y, i - 2 * size, 2 * size, i);
    EveryOtherRow(i, size);
  }

  lemma UpTwo(j: nat, size: nat)
    requires 0 < size && 2 * size <= j
    ensures Column(j - 2 * size, size) == Column(j, size) && Row(j, size) == Row(j - 2 * size, size) + 2
  {
    Move(j - 2 * size, 2, 0, size);
  }

  /** The slots of the row at i are filled up to j, and everything else is as at the start. */
  ghost predicate RowFilled<T(!new)>(g: Group<T>, start: seq<Slot<T>>, table: seq<Slot<T>>, size: nat, x: T, y: T,
                                     i: nat, j: nat)
    requires size > 0
  {
    && |table| == |start| && OddColumns(g, table, size, x, y)
    && (forall k: nat :: i <= k < j && k < |table| ==> Entry(g, table[k], size, x, y, k))
    && (forall k: nat :: k < |table| && (k <= i || j <= k) ==> table[k] == start[k])
  }

  lemma FillNext<T(!new)>(g: Group<T>, start: seq<Slot<T>>, table: seq<Slot<T>>, size: nat, x: T, y: T, i: nat, j: nat,
                          done: nat)
    requires g.Laws() && size > 1 && size % 2 == 0 && Column(i, size) == 0
    requires i < j == i + 2 * done && j + 1 < i + size <= |table|
    requires RowFilled(g, start, table, size, x, y, i, j)
    ensures table[j - 1].Filled?
    ensures RowFilled(g, start, table[j := Filled(g.add(table[j - 1].value, x))], size, x, y, i, j + 2)
  {
    var t := table[j := Filled(g.add(table[j - 1].value, x))];
    Small(size);
    BaseEntries(g, size, x, y);
    Move(i, 0, j - 1 - i, size);
    Move(i, 0, j - i, size);
    Move(i, 0, j + 1 - i, size);
    AddEntries(g, table[j - 1], Filled(x), size, x, y, j - 1, 1, j);
    assert Entry(g, t[j + 1], size, x, y, j + 1);
  }

  /** The even columns of one odd row, each from its odd neighbour on the left. */
  method FillRow<T(!new)>(g: Group<T>, start: seq<Slot<T>>, size: nat, x: T, y: T, i: nat) returns (table: seq<Slot<T>>)
    requires g.Laws() && size >= 4 && size % 2 == 0 && OddColumns(g, start, size, x, y)
    requires Column(i, size) == 0 && i + size <= |start| && Entry(g, start[i], size, x, y, i)
    ensures RowFilled(g, start, table, size, x, y, i, i + size)
  {
    Move(i, 0, 1, size);
    table := start;
    var j := i + 2;
    ghost var half, done := size / 2, 1;
    while j < i + size
      invariant 1 <= done <= half && size == 2 * half && j == i + 2 * done
      invariant RowFilled(g, start, table, size, x, y, i, j)
    {
      FillNext(g, start, table, size, x, y, i, j, done);
      table := table[j := Filled(g.add(table[j - 1].value, x))];
      j := j + 2;
      done := done + 1;
    }
  }

  method FillOddRows<T(!new)>(g: Group<T>, start: seq<Slot<T>>, size: nat, x: T, y: T) returns (table: seq<Slot<T>>)
    requires g.Laws() && Sized(start, size) && OddColumns(g, start, size, x, y)
    requires forall k: nat :: k < |start| && Column(k, size) == 0 && Row(k, size) % 2 == 1 ==>
        Entry(g, start[k], size, x, y, k)
    ensures |table| == |start| && OddColumns(g, table, size, x, y) && OddRows(g, table, size, x, y)
  {
    Small(size);
    table := start;
    var i := size;
    while i < |table|
      invariant size <= i && Column(i, size) == 0 && Row(i, size) % 2 == 1 && (i % size == 0)
      invariant Sized(table, size) && |table| == |start| && OddColumns(g, table, size, x, y)
      invariant forall k: nat :: k < |table| && k < i && Row(k, size) % 2 == 1 ==> Entry(g, table[k], size, x, y, k)
      invariant forall k: nat :: k < |table| && i <= k && Column(k, size) == 0 && Row(k, size) % 2 == 1 ==>
          Entry(g, table[k], size, x, y, k)
    {
      table := FillRow(g, table, size, x, y, i);
      OddRowsBetween(i, size);
      i := i + 2 * size;
    }
  }

  /** Of the next two rows from an odd row, only the first is odd. */
  lemma OddRowsBetween(i: nat, size: nat)
    requires size > 0 && Column(i, size) == 0 && Row(i, size) % 2 == 1
    ensures forall k: nat :: i + size <= k < i + 2 * size ==> Row(k, size) % 2 == 0
    ensures Column(i + 2 * size, size) == 0 && Row(i + 2 * size, size) % 2 == 1
  {
    Move(i, 1, 0, size);
    Move(i, 2, 0, size);
    RowSpan(i + size, size);
  }

  /** The table is square and every slot with an odd row or an odd column is filled. */
  ghost predicate Complete<T(!new)>(g: Group<T>, table: seq<Slot<T>>, w: nat, x: T, y: T) {
    && |table| == Pow2(w) * Pow2(w)
    && OddColumns(g, table, Pow2(w), x, y)
    && OddRows(g, table, Pow2(w), x, y)
  }

  method FillTable<T(!new)>(g: Group<T>, x: T, y: T, w: nat) returns (table: seq<Slot<T>>)
    requires g.Laws() && 1 <= w <= 3
    ensures Complete(g, table, w, x, y)
  {
    var size := Pow2(w);
    assert w == 1 ==> size == 2;
    assert w == 2 ==> size == 4;
    assert w == 3 ==> size == 8;
    table := seq(size * size, _ => Unfilled);
    table := table[1 := Filled(x)][size := Filled(y)];
    BaseEntries(g, size, x, y);
    Small(size);
    if w == 1 {
      table := table[3 := Filled(g.add(x, y))];
      At(1, 1, 2);
      AddEntries(g, table[1], table[2], 2, x, y, 1, 2, 3);
    } else {
      table := table[2 := Filled(g.Double(x))][2 * size := Filled(g.Double(y))];
      AddEntries(g, table[1], table[1], size, x, y, 1, 1, 2);
      AddEntries(g, table[size], table[size], size, x, y, size, size, 2 * size);
      table := FillFirstRow(g, table, size, x, y);
      table := FillOddColumns(g, table, size, x, y);
      table := FillFirstColumn(g, table, size, x, y);
      table := FillOddRows(g, table, size, x, y);
    }
  }

  method DoubleTimes<T(!new)>(g: Group<T>, a: T, count: nat) returns (r: T)
    requires g.Laws()
    ensures r == g.Mul(Pow2(count), a)
  {
    r := a;
    g.MulOne(a);
    var left := count;
    while left > 0
      invariant 0 <= left <= count && r == g.Mul(Pow2(count - left), a)
    {
      g.MulAdd(Pow2(count - left), Pow2(count - left), a);
      r := g.Double(r);
      left := left - 1;
    }
  }

  /** What the windows have consumed so far: the digits of both exponents from position p up. */
  ghost function Consumed<T(!new)>(g: Group<T>, x: T, e1: nat, y: T, e2: nat, p: nat): T {
    g.Pair(ShiftRight(e1, p), x, ShiftRight(e2, p), y)
  }

  lemma MulPair<T(!new)>(g: Group<T>, n: nat, a: nat, x: T, b: nat, y: T)
    requires g.Laws()
    ensures g.Mul(n, g.Pair(a, x, b, y)) == g.Pair(a * n, x, b * n, y)
  {
    g.MulDistributes(n, g.Mul(a, x), g.Mul(b, y));
    g.MulMul(n, a, x);
    g.MulMul(n, b, y);
  }

  /** Doubling a, adding the window and doubling again shifts the whole window in. */
  lemma ShiftIn<T(!new)>(g: Group<T>, a1: nat, w1: nat, a2: nat, w2: nat, before: nat, after: nat, x: T, y: T)
    requires g.Laws()
    ensures g.Mul(Pow2(after), g.add(g.Mul(Pow2(before), g.Pair(a1, x, a2, y)), g.Pair(w1, x, w2, y)))
         == g.Pair(a1 * Pow2(before + after) + w1 * Pow2(after), x, a2 * Pow2(before + after) + w2 * Pow2(after), y)
  {
    var b, d := Pow2(before), Pow2(after);
    MulPair(g, b, a1, x, a2, y);
    g.PairAdd(a1 * b, a2 * b, w1, w2, x, y);
    MulPair(g, d, a1 * b + w1, x, a2 * b + w2, y);
    Pow2Add(before, after);
    Spread(d, b, a1, w1);
    Spread(d, b, a2, w2);
  }

  lemma Spread(d: nat, b: nat, a: nat, w: nat)
    ensures (a * b + w) * d == a * (b * d) + w * d
  {
    Distribute(a * b, w, d);
    MulAssociates(a, b, d);
  }

  /** Removes the common factors of two from a pair of windows; `removed` counts them. */
  method Halve(power1: nat, power2: nat, before: nat, ghost bound: nat)
      returns (p1: nat, p2: nat, squaresBefore: nat, squaresAfter: nat)
    requires power1 < Pow2(bound) && power2 < Pow2(bound) && bound <= before + 1
    ensures power1 == p1 * Pow2(squaresAfter) && power2 == p2 * Pow2(squaresAfter)
    ensures squaresBefore + squaresAfter == before
    ensures p1 <= power1 && p2 <= power2
    ensures (p1 == 0 && p2 == 0) || p1 % 2 == 1 || p2 % 2 == 1
    ensures power1 > 0 || power2 > 0 ==> p1 > 0 || p2 > 0
  {
    p1, p2, squaresBefore, squaresAfter := power1, power2, before, 0;
    while (p1 != 0 || p2 != 0) && p1 % 2 == 0 && p2 % 2 == 0
      invariant power1 == p1 * Pow2(squaresAfter) && power2 == p2 * Pow2(squaresAfter)
      invariant squaresBefore + squaresAfter == before && squaresAfter <= bound
      invariant p1 <= power1 && p2 <= power2
      invariant p1 < Pow2(bound - squaresAfter) && p2 < Pow2(bound - squaresAfter)
      invariant power1 > 0 || power2 > 0 ==> p1 > 0 || p2 > 0
      decreases p1 + p2
    {
      MulAssociates(p1 / 2, 2, Pow2(squaresAfter));
      MulAssociates(p2 / 2, 2, Pow2(squaresAfter));
      p1 := p1 / 2;
      p2 := p2 / 2;
      squaresBefore := squaresBefore - 1;
      squaresAfter := squaresAfter + 1;
    }
  }

  /** The window value v holds the digits of e from i up to p, or all of them before the first window. */
  ghost predicate Reading(e: nat, expLen: nat, firstTime: bool, p: nat, i: nat, v: nat) {
    if firstTime then
      p + 1 == expLen && i <= expLen && v < Pow2(expLen - i) && v == ShiftRight(e, i)
    else
      i <= p && v < Pow2(p - i) && v == ShiftRight(e, i) - ShiftRight(e, p) * Pow2(p - i)
  }

  /** Everything the loop over the digits knows once the digits from position i up have been read. */
  ghost predicate Progress<T(!new)>(g: Group<T>, x: T, e1: nat, y: T, e2: nat, expLen: nat, result: T, firstTime: bool,
                                    power1: nat, power2: nat, prevPosition: nat, i: nat)
  {
    && (e1 > 0 || e2 > 0)
    && Reading(e1, expLen, firstTime, prevPosition, i, power1)
    && Reading(e2, expLen, firstTime, prevPosition, i, power2)
    && (!firstTime ==> result == Consumed(g, x, e1, y, e2, prevPosition))
  }

  lemma Start<T(!new)>(g: Group<T>, x: T, e1: nat, y: T, e2: nat, expLen: nat, result: T)
    requires BitCount(e1) <= expLen && BitCount(e2) <= expLen && expLen > 0 && (e1 > 0 || e2 > 0)
    ensures Progress(g, x, e1, y, e2, expLen, result, true, 0, 0, expLen - 1, expLen)
  {
    ShiftRightBound(e1, expLen, expLen);
    ShiftRightBound(e2, expLen, expLen);
  }

  lemma ReadDigit(e: nat, expLen: nat, firstTime: bool, p: nat, i: nat, v: nat)
    requires Reading(e, expLen, firstTime, p, i + 1, v)
    ensures Reading(e, expLen, firstTime, p, i, 2 * v + GetBit(e, i))
  {
    NextBit(e, i);
    if !firstTime {
      MulAssociates(2, Pow2(p - i - 1), ShiftRight(e, p));
    }
  }

  lemma ReadDigits<T(!new)>(g: Group<T>, x: T, e1: nat, y: T, e2: nat, expLen: nat, result: T, firstTime: bool,
                            power1: nat, power2: nat, prevPosition: nat, i: nat)
    requires Progress(g, x, e1, y, e2, expLen, result, firstTime, power1, power2, prevPosition, i + 1)
    ensures Progress(g, x, e1, y, e2, expLen, result, firstTime, 2 * power1 + GetBit(e1, i),
                     2 * power2 + GetBit(e2, i), prevPosition, i)
  {
    ReadDigit(e1, expLen, firstTime, prevPosition, i, power1);
    ReadDigit(e2, expLen, firstTime, prevPosition, i, power2);
  }

  lemma Finish<T(!new)>(g: Group<T>, x: T, e1: nat, y: T, e2: nat, expLen: nat, result: T, p: nat)
    requires Progress(g, x, e1, y, e2, expLen, result, false, 0, 0, p, 0)
    ensures p == 0 ==> result == g.Pair(e1, x, e2, y)
  {
  }

  method CascadeScalarMultiply<T(0, !new)>(g: Group<T>, x: T, e1: nat, y: T, e2: nat) returns (result: T)
    requires g.Laws()
    ensures result == g.Pair(e1, x, e2, y)
  {
    var expLen := if BitCount(e1) > BitCount(e2) then BitCount(e1) else BitCount(e2);
    if expLen == 0 {
      g.PairUnits(x, y);
      return g.id;
    }
    var w := WindowWidth(expLen);
    var powerTable := FillTable(g, x, y, w);
    result := ReadWindows(g, x, e1, y, e2, expLen, powerTable, w);
  }

  /**
   The loop over digits: result holds the digits down to prevPosition, power1 and power2 the ones
   read since. The result starts out as a default element that must not be used.
   */
  method ReadWindows<T(0, !new)>(g: Group<T>, x: T, e1: nat, y: T, e2: nat, expLen: nat, powerTable: seq<Slot<T>>,
                                 w: nat) returns (result: T)
    requires g.Laws() && 1 <= w <= 3 && Complete(g, powerTable, w, x, y)
    requires BitCount(e1) <= expLen && BitCount(e2) <= expLen && expLen > 0 && (e1 > 0 || e2 > 0)
    ensures result == g.Pair(e1, x, e2, y)
  {
    var tableSize := Pow2(w);
    ghost var half := Pow2(w - 1);
    assert tableSize == 2 * half;
    result := *;
    Start(g, x, e1, y, e2, expLen, result);
    var power1: nat, power2: nat, prevPosition: nat := 0, 0, expLen - 1;
    var firstTime := true;
    for i := expLen downto 0
      invariant i == 0 ==> !firstTime && prevPosition == 0 && power1 == power2 == 0
      invariant power1 < half && power2 < half
      invariant Progress(g, x, e1, y, e2, expLen, result, firstTime, power1, power2, prevPosition, i)
    {
      ReadDigits(g, x, e1, y, e2, expLen, result, firstTime, power1, power2, prevPosition, i);
      power1 := 2 * power1 + GetBit(e1, i);
      power2 := 2 * power2 + GetBit(e2, i);
      if i == 0 || 2 * power1 >= tableSize || 2 * power2 >= tableSize {
        result := Flush(g, x, e1, y, e2, expLen, powerTable, w, result, firstTime, power1, power2, prevPosition, i);
        prevPosition := i;
        firstTime := false;
        power1, power2 := 0, 0;
      }
    }
    Finish(g, x, e1, y, e2, expLen, result, prevPosition);
  }

  /** One window: looks up the odd part of the window values and shifts it into the result. */
  method Flush<T(!new)>(g: Group<T>, x: T, e1: nat, y: T, e2: nat, ghost expLen: nat, powerTable: seq<Slot<T>>, w: nat,
                        start: T, firstTime: bool, power1: nat, power2: nat, prevPosition: nat, i: nat)
    returns (result: T)
    requires g.Laws() && 1 <= w <= 3 && Complete(g, powerTable, w, x, y)
    requires power1 < Pow2(w) && power2 < Pow2(w)
    requires i == 0 || power1 > 0 || power2 > 0
    requires Progress(g, x, e1, y, e2, expLen, start, firstTime, power1, power2, prevPosition, i)
    ensures Progress(g, x, e1, y, e2, expLen, result, false, 0, 0, i, i)
  {
    var p1, p2, squaresBefore, squaresAfter := Halve(power1, power2, prevPosition - i,
                                                     if firstTime then prevPosition + 1 - i else prevPosition - i);
    if firstTime {
      NonzeroWindow(g, x, e1, y, e2, expLen, start, power1, power2, prevPosition, i);
      result := FirstWindow(g, x, e1, y, e2, powerTable, w, p1, p2, squaresAfter, i);
    } else {
      ShiftsTo(e1, prevPosition, i, power1, p1, squaresAfter);
      ShiftsTo(e2, prevPosition, i, power2, p2, squaresAfter);
      result := NextWindow(g, x, e1, y, e2, powerTable, w, start, prevPosition, p1, p2, squaresBefore, squaresAfter, i);
    }
  }

  lemma NonzeroWindow<T(!new)>(g: Group<T>, x: T, e1: nat, y: T, e2: nat, expLen: nat, start: T, power1: nat,
                               power2: nat, p: nat, i: nat)
    requires Progress(g, x, e1, y, e2, expLen, start, true, power1, power2, p, i)
    requires i == 0 || power1 > 0 || power2 > 0
    ensures power1 > 0 || power2 > 0
  {
  }

  lemma ShiftsTo(e: nat, p: nat, i: nat, v: nat, odd: nat, after: nat)
    requires i <= p && v == ShiftRight(e, i) - ShiftRight(e, p) * Pow2(p - i) && v == odd * Pow2(after)
    ensures ShiftRight(e, i) == ShiftRight(e, p) * Pow2(p - i) + odd * Pow2(after)
  {
  }

  method FirstWindow<T(!new)>(g: Group<T>, x: T, ghost e1: nat, y: T, ghost e2: nat, powerTable: seq<Slot<T>>, w: nat,
                              p1: nat, p2: nat, squaresAfter: nat, ghost i: nat) returns (result: T)
    requires g.Laws() && 1 <= w <= 3 && Complete(g, powerTable, w, x, y)
    requires p1 < Pow2(w) && p2 < Pow2(w) && (p1 % 2 == 1 || p2 % 2 == 1)
    requires ShiftRight(e1, i) == p1 * Pow2(squaresAfter) && ShiftRight(e2, i) == p2 * Pow2(squaresAfter)
    ensures result == Consumed(g, x, e1, y, e2, i)
  {
    Lookup(g, powerTable, w, x, y, p1, p2);
    result := powerTable[p2 * Pow2(w) + p1].value;
    MulPair(g, Pow2(squaresAfter), p1, x, p2, y);
    result := DoubleTimes(g, result, squaresAfter);
  }

  method NextWindow<T(!new)>(g: Group<T>, x: T, ghost e1: nat, y: T, ghost e2: nat, powerTable: seq<Slot<T>>, w: nat,
                             start: T, ghost p: nat, p1: nat, p2: nat, squaresBefore: nat, squaresAfter: nat,
                             ghost i: nat)
    returns (result: T)
    requires g.Laws() && 1 <= w <= 3 && Complete(g, powerTable, w, x, y)
    requires p1 < Pow2(w) && p2 < Pow2(w) && (p1 % 2 == 1 || p2 % 2 == 1 || p1 == p2 == 0)
    requires start == Consumed(g, x, e1, y, e2, p) && i <= p && squaresBefore + squaresAfter == p - i
    requires ShiftRight(e1, i) == ShiftRight(e1, p) * Pow2(p - i) + p1 * Pow2(squaresAfter)
    requires ShiftRight(e2, i) == ShiftRight(e2, p) * Pow2(p - i) + p2 * Pow2(squaresAfter)
    ensures result == Consumed(g, x, e1, y, e2, i)
  {
    hide Complete, Pow2, ShiftRight;
    ShiftIn(g, ShiftRight(e1, p), p1, ShiftRight(e2, p), p2, squaresBefore, squaresAfter, x, y);
    result := DoubleTimes(g, start, squaresBefore);
    if p1 > 0 || p2 > 0 {
      Lookup(g, powerTable, w, x, y, p1, p2);
      result := g.add(result, powerTable[p2 * Pow2(w) + p1].value);
    } else {
      g.PairUnits(x, y);
      assert g.HasUnit(result);
    }
    result := DoubleTimes(g, result, squaresAfter);
  }

  /** The slot a window asks for is inside the table and was filled. */
  lemma Lookup<T(!new)>(g: Group<T>, table: seq<Slot<T>>, w: nat, x: T, y: T, p1: nat, p2: nat)
    requires 1 <= w <= 3 && Complete(g, table, w, x, y)
    requires p1 < Pow2(w) && p2 < Pow2(w) && (p1 % 2 == 1 || p2 % 2 == 1)
    ensures p2 * Pow2(w) + p1 < |table| && table[p2 * Pow2(w) + p1] == Filled(g.Pair(p1, x, p2, y))
  {
    var size := Pow2(w);
    var k := p2 * size + p1;
    MulMonotone(p2 + 1, size, size);
    Distribute(p2, 1, size);
    At(p2, p1, size);
    assert Entry(g, table[k], size, x, y, k);
  }
}
