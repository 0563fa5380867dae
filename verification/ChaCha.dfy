/** Operations on 32-bit words, by name, so that proofs about the rounds need not look inside them. */
module Words32 {

  function Plus(x: bv32, y: bv32): bv32 {
    x + y
  }

  function Xor(x: bv32, y: bv32): bv32 {
    x ^ y
  }

  /** Rotation to the left. */
  function Rotate(x: bv32, n: nat): bv32
    requires n <= 32
  {
    x.RotateLeft(n)
  }

  /** Octet k of a word in little-endian order. */
  function OctetOf(x: bv32, k: nat): bv8
    requires k < 4
  {
    if k == 0 then (x & 0xff) as bv8
    else if k == 1 then ((x >> 8) & 0xff) as bv8
    else if k == 2 then ((x >> 16) & 0xff) as bv8
    else (x >> 24) as bv8
  }

  /** The word that four octets make, low octet first. */
  function Join(b0: bv8, b1: bv8, b2: bv8, b3: bv8): bv32 {
    (b3 as bv32 << 24) | (b2 as bv32 << 16) | (b1 as bv32 << 8) | b0 as bv32
  }

  lemma JoinOctets(x: bv32)
    ensures Join(OctetOf(x, 0), OctetOf(x, 1), OctetOf(x, 2), OctetOf(x, 3)) == x
  {
    PartsOf(x);
  }

  lemma PartsOf(x: bv32)
    ensures ((x >> 24) as bv8 as bv32 << 24) | (((x >> 16) & 0xff) as bv8 as bv32 << 16)
            | (((x >> 8) & 0xff) as bv8 as bv32 << 8) | (x & 0xff) as bv8 as bv32 == x
  {
  }

  lemma OctetsOfJoin(b0: bv8, b1: bv8, b2: bv8, b3: bv8)
    ensures var x := Join(b0, b1, b2, b3);
            OctetOf(x, 0) == b0 && OctetOf(x, 1) == b1 && OctetOf(x, 2) == b2 && OctetOf(x, 3) == b3
  {
    PartsOfJoin(b0, b1, b2, b3);
  }

  lemma PartsOfJoin(b0: bv8, b1: bv8, b2: bv8, b3: bv8)
    ensures var x := (b3 as bv32 << 24) | (b2 as bv32 << 16) | (b1 as bv32 << 8) | b0 as bv32;
            && (x & 0xff) as bv8 == b0 && ((x >> 8) & 0xff) as bv8 == b1
            && ((x >> 16) & 0xff) as bv8 == b2 && (x >> 24) as bv8 == b3
  {
  }

  /** RotateLeft of the vector code by two shifts, as it is written for all widths. */
  function ByShifts(x: bv32, n: nat): bv32
    requires n in {7, 8, 12, 16}
  {
    if n == 7 then (x << 7) | (x >> 25)
    else if n == 8 then (x << 8) | (x >> 24)
    else if n == 12 then (x << 12) | (x >> 20)
    else (x << 16) | (x >> 16)
  }

  /** RotateLeft of the vector code by moving octets: octet 0 of the result is octet 3 of x, or octet 2, and so on. */
  function ByOctetMoves(x: bv32, n: nat): bv32
    requires n == 8 || n == 16
  {
    if n == 8 then ((x & 0xff) << 8) | ((x & 0xff00) << 8) | ((x & 0xff_0000) << 8) | (x >> 24)
    else ((x & 0xff) << 16) | ((x & 0xff00) << 16) | ((x & 0xff_0000) >> 16) | ((x & 0xff00_0000) >> 16)
  }

  /** One lane of RotateLeft; octets are moved where the processor can shuffle them. */
  function RotateLane(x: bv32, n: nat, shuffles: bool): bv32
    requires n in {7, 8, 12, 16}
  {
    if shuffles && (n == 8 || n == 16) then ByOctetMoves(x, n) else ByShifts(x, n)
  }

  lemma ShiftsRotate(x: bv32)
    ensures ByShifts(x, 7) == Rotate(x, 7) && ByShifts(x, 8) == Rotate(x, 8)
    ensures ByShifts(x, 12) == Rotate(x, 12) && ByShifts(x, 16) == Rotate(x, 16)
  {
  }

  lemma OctetMovesRotate(x: bv32)
    ensures ByOctetMoves(x, 8) == Rotate(x, 8) && ByOctetMoves(x, 16) == Rotate(x, 16)
  {
    MovesByOne(x);
    MovesByTwo(x);
  }

  lemma MovesByOne(x: bv32)
    ensures ((x & 0xff) << 8) | ((x & 0xff00) << 8) | ((x & 0xff_0000) << 8) | (x >> 24) == x.RotateLeft(8)
  {
  }

  lemma MovesByTwo(x: bv32)
    ensures ((x & 0xff) << 16) | ((x & 0xff00) << 16) | ((x & 0xff_0000) >> 16) | ((x & 0xff00_0000) >> 16)
         == x.RotateLeft(16)
  {
  }

  lemma LanesRotate(n: nat, shuffles: bool)
    requires n in {7, 8, 12, 16}
    ensures forall x :: RotateLane(x, n, shuffles) == Rotate(x, n)
  {
    forall x
      ensures RotateLane(x, n, shuffles) == Rotate(x, n)
    {
      hide Rotate, ByShifts, ByOctetMoves;
      ShiftsRotate(x);
      OctetMovesRotate(x);
    }
  }

  /** ++ctrLow, with the carry into ctrHigh: one more as a 64-bit number. */
  lemma CarryIntoHigh(low: bv32, high: bv32)
    ensures var h := if Plus(low, 1) == 0 then Plus(high, 1) else high;
            Wide(Plus(low, 1), h) == Wide(low, high) + 1
  {
  }

  function Wide(low: bv32, high: bv32): bv64 {
    (high as bv64 << 32) | low as bv64
  }

  predicate MultiBlockSafe(low: bv32, blocks: bv32) {
    0xffff_ffff - low > blocks
  }

  lemma SafeSum(low: bv32, k: bv32)
    requires MultiBlockSafe(low, 4) && 0 < k <= 4
    ensures Plus(low, k) != 0
  {
  }

  lemma SumNext(low: bv32, k: bv32)
    requires k <= 4
    ensures Plus(Plus(low, k), 1) == Plus(low, k + 1)
  {
  }

  function LowHalf(w: bv64): bv32 {
    (w & 0xffff_ffff) as bv32
  }

  function HighHalf(w: bv64): bv32 {
    (w >> 32) as bv32
  }

  /** The 64-bit lane of two words, plus k. */
  function WidePlus(low: bv32, high: bv32, k: bv32): bv64 {
    Wide(low, high) + k as bv64
  }

  /** A low word that stays clear of the top passes nothing on to the high word. */
  lemma NoCarry(low: bv32, high: bv32, k: bv32)
    requires k <= 3 && MultiBlockSafe(low, 4)
    ensures LowHalf(WidePlus(low, high, k)) == Plus(low, k) && HighHalf(WidePlus(low, high, k)) == high
  {
    NoCarryOut(low, high, k);
  }

  lemma WideHalves(low: bv32, high: bv32)
    ensures LowHalf(Wide(low, high)) == low && HighHalf(Wide(low, high)) == high
  {
    HalvesOut(low, high);
  }

  lemma HalvesOut(low: bv32, high: bv32)
    ensures var w := (high as bv64 << 32) | low as bv64;
            (w & 0xffff_ffff) as bv32 == low && (w >> 32) as bv32 == high
  {
  }

  lemma SafeEight(low: bv32)
    requires MultiBlockSafe(low, 8)
    ensures MultiBlockSafe(low, 4) && MultiBlockSafe(Plus(low, 4), 4) && Plus(Plus(low, 4), 4) == Plus(low, 8)
  {
    SafeFour(low);
    SafeAfterFour(low);
    FourAndFour(low);
    hide Plus, MultiBlockSafe;
  }

  lemma SafeFour(low: bv32)
    requires MultiBlockSafe(low, 8)
    ensures MultiBlockSafe(low, 4)
  {
  }

  lemma SafeAfterFour(low: bv32)
    requires MultiBlockSafe(low, 8)
    ensures MultiBlockSafe(Plus(low, 4), 4)
  {
  }

  lemma FourAndFour(low: bv32)
    ensures Plus(Plus(low, 4), 4) == Plus(low, 8)
  {
  }

  /** The eight-block kernel adds k to the low word, and one to the next if that is more than fits. */
  function CarryOf(low: bv32, k: bv32): bv32 {
    if 0xffff_ffff - low < k then 1 else 0
  }

  lemma NoCarryInEight(low: bv32, high: bv32, k: bv32)
    requires k <= 7 && MultiBlockSafe(low, 8)
    ensures Plus(high, CarryOf(low, k)) == high
  {
  }

  lemma FourAndOne(low: bv32)
    ensures Plus(Plus(low, 4), 1) == Plus(low, 5)
  {
  }

  lemma FourAndTwo(low: bv32)
    ensures Plus(Plus(low, 4), 2) == Plus(low, 6)
  {
  }

  lemma FourAndThree(low: bv32)
    ensures Plus(Plus(low, 4), 3) == Plus(low, 7)
  {
  }

  lemma PlusNothing(x: bv32)
    ensures Plus(x, 0) == x
  {
  }

  lemma NoCarryOut(low: bv32, high: bv32, k: bv32)
    requires k <= 3 && low < 0xffff_fffc
    ensures var w := ((high as bv64 << 32) | low as bv64) + k as bv64;
            (w & 0xffff_ffff) as bv32 == low + k && (w >> 32) as bv32 == high
  {
  }
}

/** The ChaCha key stream, one block at a time or several. */
module ChaCha {
  import opened Octets
  import opened Words32

  // ---------- the definition: section 2.3 of RFC 8439 ----------

  /** The sixteen words in four rows; words 12 and 13 are the counter. */
  datatype Row = Row(a: bv32, b: bv32, c: bv32, d: bv32)
  datatype State = State(r0: Row, r1: Row, r2: Row, r3: Row)
  datatype Quarter = Quarter(a: bv32, b: bv32, c: bv32, d: bv32)

  function QuarterRound(a0: bv32, b0: bv32, c0: bv32, d0: bv32): Quarter {
    var a1 := Plus(a0, b0);
    var d1 := Rotate(Xor(d0, a1), 16);
    var c1 := Plus(c0, d1);
    var b1 := Rotate(Xor(b0, c1), 12);
    var a2 := Plus(a1, b1);
    var d2 := Rotate(Xor(d1, a2), 8);
    var c2 := Plus(c1, d2);
    var b2 := Rotate(Xor(b1, c2), 7);
    Quarter(a2, b2, c2, d2)
  }

  /** Quarter rounds on (0, 4, 8, 12), (1, 5, 9, 13), (2, 6, 10, 14) and (3, 7, 11, 15). */
  function ColumnRound(s: State): State {
    var q0 := QuarterRound(s.r0.a, s.r1.a, s.r2.a, s.r3.a);
    var q1 := QuarterRound(s.r0.b, s.r1.b, s.r2.b, s.r3.b);
    var q2 := QuarterRound(s.r0.c, s.r1.c, s.r2.c, s.r3.c);
    var q3 := QuarterRound(s.r0.d, s.r1.d, s.r2.d, s.r3.d);
    State(Row(q0.a, q1.a, q2.a, q3.a), Row(q0.b, q1.b, q2.b, q3.b),
          Row(q0.c, q1.c, q2.c, q3.c), Row(q0.d, q1.d, q2.d, q3.d))
  }

  /** Quarter rounds on (0, 5, 10, 15), (1, 6, 11, 12), (2, 7, 8, 13) and (3, 4, 9, 14). */
  function DiagonalRound(s: State): State {
    var q0 := QuarterRound(s.r0.a, s.r1.b, s.r2.c, s.r3.d);
    var q1 := QuarterRound(s.r0.b, s.r1.c, s.r2.d, s.r3.a);
    var q2 := QuarterRound(s.r0.c, s.r1.d, s.r2.a, s.r3.b);
    var q3 := QuarterRound(s.r0.d, s.r1.a, s.r2.b, s.r3.c);
    State(Row(q0.a, q1.a, q2.a, q3.a), Row(q3.b, q0.b, q1.b, q2.b),
          Row(q2.c, q3.c, q0.c, q1.c), Row(q1.d, q2.d, q3.d, q0.d))
  }

  function DoubleRounds(s: State, n: nat): State {
    if n == 0 then s else DiagonalRound(ColumnRound(DoubleRounds(s, n - 1)))
  }

  function AddRows(x: Row, y: Row): Row {
    Row(Plus(x.a, y.a), Plus(x.b, y.b), Plus(x.c, y.c), Plus(x.d, y.d))
  }

  /** The words of one block: the rounds, and the state added again. */
  function Block(s: State, doubleRounds: nat): State {
    var t := DoubleRounds(s, doubleRounds);
    State(AddRows(t.r0, s.r0), AddRows(t.r1, s.r1), AddRows(t.r2, s.r2), AddRows(t.r3, s.r3))
  }

  function RowOctets(r: Row): (o: seq<bv8>)
    ensures |o| == 16
  {
    seq(16, k requires 0 <= k < 16 =>
      OctetOf(if k < 4 then r.a else if k < 8 then r.b else if k < 12 then r.c else r.d, k % 4))
  }

  function Serialize(s: State): (o: seq<bv8>)
    ensures |o| == 64
  {
    RowOctets(s.r0) + RowOctets(s.r1) + RowOctets(s.r2) + RowOctets(s.r3)
  }

  /** Word i of some octets. */
  function WordAt(o: seq<bv8>, i: nat): bv32
    requires 4 * i + 4 <= |o|
  {
    Join(o[4 * i], o[4 * i + 1], o[4 * i + 2], o[4 * i + 3])
  }

  lemma RowWords(r: Row)
    ensures var o := RowOctets(r);
            WordAt(o, 0) == r.a && WordAt(o, 1) == r.b && WordAt(o, 2) == r.c && WordAt(o, 3) == r.d
  {
    hide Join, OctetOf;
    JoinOctets(r.a);
    JoinOctets(r.b);
    JoinOctets(r.c);
    JoinOctets(r.d);
  }

  /** Octets that make the words of a row are its octets. */
  lemma RowOctetsUnique(r: Row, o: seq<bv8>)
    requires |o| == 16 && WordAt(o, 0) == r.a && WordAt(o, 1) == r.b && WordAt(o, 2) == r.c && WordAt(o, 3) == r.d
    ensures RowOctets(r) == o
  {
    hide Join, OctetOf;
    OctetsOfJoin(o[0], o[1], o[2], o[3]);
    OctetsOfJoin(o[4], o[5], o[6], o[7]);
    OctetsOfJoin(o[8], o[9], o[10], o[11]);
    OctetsOfJoin(o[12], o[13], o[14], o[15]);
  }

  function WordOf(r: Row, i: nat): bv32 {
    match i
    case 0 => r.a
    case 1 => r.b
    case 2 => r.c
    case _ => r.d
  }

  /** The sixteen words, row after row. */
  function Word(s: State, i: nat): bv32
    requires i < 16
  {
    WordOf(if i < 4 then s.r0 else if i < 8 then s.r1 else if i < 12 then s.r2 else s.r3, i % 4)
  }

  /** Each word leaves as four octets, the low one first. */
  lemma SerializedWords(s: State, i: nat)
    requires i < 16
    ensures WordAt(Serialize(s), i) == Word(s, i)
  {
    hide Join, RowOctets;
    var row := if i < 4 then s.r0 else if i < 8 then s.r1 else if i < 12 then s.r2 else s.r3;
    RowWords(row);
    assert Serialize(s)[4 * i..4 * i + 4] == RowOctets(row)[4 * (i % 4)..4 * (i % 4) + 4];
    SamePart(Serialize(s), i, RowOctets(row), i % 4);
  }

  lemma SamePart(o: seq<bv8>, i: nat, p: seq<bv8>, j: nat)
    requires 4 * i + 4 <= |o| && 4 * j + 4 <= |p| && o[4 * i..4 * i + 4] == p[4 * j..4 * j + 4]
    ensures WordAt(o, i) == WordAt(p, j)
  {
    hide Join;
    var q := o[4 * i..4 * i + 4];
    assert q[0] == o[4 * i] && q[1] == o[4 * i + 1] && q[2] == o[4 * i + 2] && q[3] == o[4 * i + 3];
    assert q[0] == p[4 * j] && q[1] == p[4 * j + 1] && q[2] == p[4 * j + 2] && q[3] == p[4 * j + 3];
  }

  /** In the stream, word i of block j. */
  lemma {:induction false} KeystreamWords(s: State, n: nat, doubleRounds: nat, wide: bool, j: nat, i: nat)
    requires j < n && i < 16
    ensures WordAt(Keystream(s, n, doubleRounds, wide), 16 * j + i)
         == Word(Block(Advance(s, j, wide), doubleRounds), i)
  {
    hide Join, Serialize, Block, Word, Advance;
    var last := Block(Advance(s, n - 1, wide), doubleRounds);
    if j == n - 1 {
      SerializedWords(last, i);
    } else {
      KeystreamWords(s, n - 1, doubleRounds, wide, j, i);
    }
  }

  /** The state for the next block. The counter is words 12 and 13, or in the IETF variants word 12 alone. */
  function Next(s: State, wide: bool): State {
    var low := Plus(s.r3.a, 1);
    s.(r3 := s.r3.(a := low, b := if wide && low == 0 then Plus(s.r3.b, 1) else s.r3.b))
  }

  function Advance(s: State, n: nat, wide: bool): State {
    if n == 0 then s else Next(Advance(s, n - 1, wide), wide)
  }

  /** The key stream of n blocks from state s on. */
  function Keystream(s: State, n: nat, doubleRounds: nat, wide: bool): (k: seq<bv8>)
    ensures |k| == 64 * n
  {
    if n == 0 then []
    else Keystream(s, n - 1, doubleRounds, wide) + Serialize(Block(Advance(s, n - 1, wide), doubleRounds))
  }

  lemma {:induction false} AdvanceAdd(s: State, m: nat, n: nat, wide: bool)
    ensures Advance(Advance(s, m, wide), n, wide) == Advance(s, m + n, wide)
  {
    hide Next;
    if n > 0 {
      AdvanceAdd(s, m, n - 1, wide);
    }
  }

  /** Streams from consecutive counters join to one. */
  lemma {:induction false} KeystreamAdd(s: State, m: nat, n: nat, doubleRounds: nat, wide: bool)
    ensures Keystream(s, m + n, doubleRounds, wide)
         == Keystream(s, m, doubleRounds, wide) + Keystream(Advance(s, m, wide), n, doubleRounds, wide)
  {
    hide Advance, Serialize, Block;
    if n == 0 {
      assert Keystream(s, m, doubleRounds, wide) + [] == Keystream(s, m, doubleRounds, wide);
    } else {
      KeystreamAdd(s, m, n - 1, doubleRounds, wide);
      AdvanceAdd(s, m, n - 1, wide);
      var x, y := Keystream(s, m, doubleRounds, wide), Keystream(Advance(s, m, wide), n - 1, doubleRounds, wide);
      var z := Serialize(Block(Advance(s, m + n - 1, wide), doubleRounds));
      assert (x + y) + z == x + (y + z);
    }
  }

  /** In the variant with the 64-bit counter it counts up as one number. */
  lemma CounterCounts(s: State)
    ensures Wide(Next(s, true).r3.a, Next(s, true).r3.b) == Wide(s.r3.a, s.r3.b) + 1
    ensures Next(s, true) == s.(r3 := s.r3.(a := Next(s, true).r3.a, b := Next(s, true).r3.b))
    ensures Next(s, false) == s.(r3 := s.r3.(a := s.r3.a + 1))
  {
    CarryIntoHigh(s.r3.a, s.r3.b);
    NarrowCounter(s);
    hide Wide, Plus;
  }

  lemma NarrowCounter(s: State)
    ensures Next(s, false) == s.(r3 := s.r3.(a := s.r3.a + 1))
  {
  }

  // ---------- batches ----------

  /** Below the top of word 12 advancing adds to it alone, in both variants. */
  lemma SafeAdvance(s: State, wide: bool)
    requires MultiBlockSafe(s.r3.a, 4)
    ensures Advance(s, 1, wide) == s.(r3 := s.r3.(a := Plus(s.r3.a, 1)))
    ensures Advance(s, 2, wide) == s.(r3 := s.r3.(a := Plus(s.r3.a, 2)))
    ensures Advance(s, 3, wide) == s.(r3 := s.r3.(a := Plus(s.r3.a, 3)))
    ensures Advance(s, 4, wide) == s.(r3 := s.r3.(a := Plus(s.r3.a, 4)))
  {
    hide Plus, MultiBlockSafe;
    SafeSum(s.r3.a, 1);
    SafeSum(s.r3.a, 2);
    SafeSum(s.r3.a, 3);
    SafeSum(s.r3.a, 4);
    SumNext(s.r3.a, 1);
    SumNext(s.r3.a, 2);
    SumNext(s.r3.a, 3);
    assert Advance(s, 0, wide) == s;
    assert Advance(s, 1, wide) == Next(s, wide);
    assert Advance(s, 2, wide) == Next(Advance(s, 1, wide), wide);
    assert Advance(s, 3, wide) == Next(Advance(s, 2, wide), wide);
    assert Advance(s, 4, wide) == Next(Advance(s, 3, wide), wide);
  }

  // ---------- the vector kernel ----------

  /** The same row of four blocks. */
  datatype Quad = Quad(x0: Row, x1: Row, x2: Row, x3: Row)

  function XorRows(x: Row, y: Row): Row {
    Row(Xor(x.a, y.a), Xor(x.b, y.b), Xor(x.c, y.c), Xor(x.d, y.d))
  }

  function RotateRow(x: Row, n: nat, shuffles: bool): Row
    requires n in {7, 8, 12, 16}
  {
    Row(RotateLane(x.a, n, shuffles), RotateLane(x.b, n, shuffles), RotateLane(x.c, n, shuffles),
        RotateLane(x.d, n, shuffles))
  }

  /** _mm_shuffle_epi32 with (0, 3, 2, 1), (1, 0, 3, 2) and (2, 1, 0, 3): lanes move down by one, two and three. */
  function Shuffle(x: Row, lanes: nat): Row
    requires 1 <= lanes <= 3
  {
    if lanes == 1 then Row(x.b, x.c, x.d, x.a)
    else if lanes == 2 then Row(x.c, x.d, x.a, x.b)
    else Row(x.d, x.a, x.b, x.c)
  }

  function AddQuads(x: Quad, y: Quad): Quad {
    Quad(AddRows(x.x0, y.x0), AddRows(x.x1, y.x1), AddRows(x.x2, y.x2), AddRows(x.x3, y.x3))
  }

  function XorQuads(x: Quad, y: Quad): Quad {
    Quad(XorRows(x.x0, y.x0), XorRows(x.x1, y.x1), XorRows(x.x2, y.x2), XorRows(x.x3, y.x3))
  }

  function RotateQuad(x: Quad, n: nat, shuffles: bool): Quad
    requires n in {7, 8, 12, 16}
  {
    Quad(RotateRow(x.x0, n, shuffles), RotateRow(x.x1, n, shuffles), RotateRow(x.x2, n, shuffles),
         RotateRow(x.x3, n, shuffles))
  }

  function ShuffleQuad(x: Quad, lanes: nat): Quad
    requires 1 <= lanes <= 3
  {
    Quad(Shuffle(x.x0, lanes), Shuffle(x.x1, lanes), Shuffle(x.x2, lanes), Shuffle(x.x3, lanes))
  }

  function BlockAt(r0: Quad, r1: Quad, r2: Quad, r3: Quad, i: nat): State
    requires i < 4
  {
    if i == 0 then State(r0.x0, r1.x0, r2.x0, r3.x0)
    else if i == 1 then State(r0.x1, r1.x1, r2.x1, r3.x1)
    else if i == 2 then State(r0.x2, r1.x2, r2.x2, r3.x2)
    else State(r0.x3, r1.x3, r2.x3, r3.x3)
  }

  /** The row operations of half the loop body, on one block. */
  function RowQuarter(s: State, shuffles: bool): State {
    var a1 := AddRows(s.r0, s.r1);
    var d1 := RotateRow(XorRows(s.r3, a1), 16, shuffles);
    var c1 := AddRows(s.r2, d1);
    var b1 := RotateRow(XorRows(s.r1, c1), 12, shuffles);
    var a2 := AddRows(a1, b1);
    var d2 := RotateRow(XorRows(d1, a2), 8, shuffles);
    var c2 := AddRows(c1, d2);
    var b2 := RotateRow(XorRows(b1, c2), 7, shuffles);
    State(a2, b2, c2, d2)
  }

  lemma RowsAreColumns(s: State, shuffles: bool)
    ensures RowQuarter(s, shuffles) == ColumnRound(s)
  {
    LanesRotate(16, shuffles);
    LanesRotate(12, shuffles);
    LanesRotate(8, shuffles);
    LanesRotate(7, shuffles);
    hide Plus, Xor, Rotate, RotateLane;
  }

  /** Half of the loop body: on whole rows a quarter round is done in all four columns at once. */
  method RowRound(s0: Quad, s1: Quad, s2: Quad, s3: Quad, shuffles: bool)
    returns (r0: Quad, r1: Quad, r2: Quad, r3: Quad)
    ensures forall i :: 0 <= i < 4 ==> BlockAt(r0, r1, r2, r3, i) == ColumnRound(BlockAt(s0, s1, s2, s3, i))
  {
    hide AddRows, XorRows, RotateRow, ColumnRound;
    RowsAreColumns(BlockAt(s0, s1, s2, s3, 0), shuffles);
    RowsAreColumns(BlockAt(s0, s1, s2, s3, 1), shuffles);
    RowsAreColumns(BlockAt(s0, s1, s2, s3, 2), shuffles);
    RowsAreColumns(BlockAt(s0, s1, s2, s3, 3), shuffles);
    r0, r1, r2, r3 := s0, s1, s2, s3;
    r0 := AddQuads(r0, r1);
    r3 := XorQuads(r3, r0);
    r3 := RotateQuad(r3, 16, shuffles);
    r2 := AddQuads(r2, r3);
    r1 := XorQuads(r1, r2);
    r1 := RotateQuad(r1, 12, shuffles);
    r0 := AddQuads(r0, r1);
    r3 := XorQuads(r3, r0);
    r3 := RotateQuad(r3, 8, shuffles);
    r2 := AddQuads(r2, r3);
    r1 := XorQuads(r1, r2);
    r1 := RotateQuad(r1, 7, shuffles);
  }

  function Shuffled(s: State, down: bool): State {
    State(s.r0, Shuffle(s.r1, if down then 1 else 3), Shuffle(s.r2, 2), Shuffle(s.r3, if down then 3 else 1))
  }

  /** Moving the lanes, working on columns, and moving them back is working on diagonals. */
  lemma ShuffledColumns(s: State)
    ensures Shuffled(ColumnRound(Shuffled(s, true)), false) == DiagonalRound(s)
  {
    hide QuarterRound;
  }

  method Shuffles(s1: Quad, s2: Quad, s3: Quad, down: bool) returns (r1: Quad, r2: Quad, r3: Quad)
    ensures forall r0, i :: 0 <= i < 4 ==> BlockAt(r0, r1, r2, r3, i) == Shuffled(BlockAt(r0, s1, s2, s3, i), down)
  {
    r1 := ShuffleQuad(s1, if down then 1 else 3);
    r2 := ShuffleQuad(s2, 2);
    r3 := ShuffleQuad(s3, if down then 3 else 1);
  }

  method VectorRounds(s0: Quad, s1: Quad, s2: Quad, s3: Quad, rounds: nat, shuffles: bool)
    returns (r0: Quad, r1: Quad, r2: Quad, r3: Quad)
    ensures forall j :: 0 <= j < 4 ==>
      BlockAt(r0, r1, r2, r3, j) == DoubleRounds(BlockAt(s0, s1, s2, s3, j), (rounds + 1) / 2)
  {
    hide ColumnRound, DiagonalRound, BlockAt, Shuffled;
    r0, r1, r2, r3 := s0, s1, s2, s3;
    var i: int := rounds;
    ghost var n := 0;
    while i > 0
      invariant i == rounds - 2 * n && i >= -1
      invariant forall j :: 0 <= j < 4 ==> BlockAt(r0, r1, r2, r3, j) == DoubleRounds(BlockAt(s0, s1, s2, s3, j), n)
      decreases i
    {
      r0, r1, r2, r3 := RowRound(r0, r1, r2, r3, shuffles);
      r1, r2, r3 := Shuffles(r1, r2, r3, true);
      r0, r1, r2, r3 := RowRound(r0, r1, r2, r3, shuffles);
      r1, r2, r3 := Shuffles(r1, r2, r3, false);
      i := i - 2;
      n := n + 1;
      forall j | 0 <= j < 4
        ensures BlockAt(r0, r1, r2, r3, j) == DoubleRounds(BlockAt(s0, s1, s2, s3, j), n)
      {
        ShuffledColumns(ColumnRound(DoubleRounds(BlockAt(s0, s1, s2, s3, j), n - 1)));
      }
    }
  }

  // ---------- writing the output ----------

  /** The stream itself, or added to the input. */
  function Mixed(added: bool, input: seq<bv8>, k: seq<bv8>): (o: seq<bv8>)
    requires added ==> |input| == |k|
    ensures |o| == |k|
  {
    if added then XorOctets(input, k) else k
  }

  /** The stream that went into some output: the output itself, or its difference from the input. */
  function Unmixed(added: bool, input: seq<bv8>, o: seq<bv8>): (k: seq<bv8>)
    requires added ==> |input| == |o|
    ensures |k| == |o|
  {
    if added then XorOctets(o, input) else o
  }

  /** The words of n blocks from s on, one block behind the other, each word as four octets with the low one first. */
  ghost predicate HoldsBlocks(k: seq<bv8>, s: State, n: nat, doubleRounds: nat, wide: bool) {
    |k| == 64 * n
    && forall j, i :: 0 <= j < n && 0 <= i < 16 ==>
      WordAt(k, 16 * j + i) == Word(Block(Advance(s, j, wide), doubleRounds), i)
  }

  /** The words of the stream, found in the output. */
  lemma MixedWords(s: State, n: nat, doubleRounds: nat, wide: bool, added: bool, input: seq<bv8>, o: seq<bv8>)
    requires |o| == 64 * n && (added ==> |input| == 64 * n)
    requires o == Mixed(added, input, Keystream(s, n, doubleRounds, wide))
    ensures HoldsBlocks(Unmixed(added, input, o), s, n, doubleRounds, wide)
  {
    hide WordAt, Word, Block, Advance, Keystream, XorOctet;
    var k := Keystream(s, n, doubleRounds, wide);
    if added {
      forall i | 0 <= i < |k|
        ensures XorOctets(o, input)[i] == k[i]
      {
        XorOctetLaws(k[i], input[i], 0);
        XorOctetLaws(input[i], k[i], 0);
      }
    }
    assert Unmixed(added, input, o) == k;
    forall j, i | 0 <= j < n && 0 <= i < 16
      ensures WordAt(k, 16 * j + i) == Word(Block(Advance(s, j, wide), doubleRounds), i)
    {
      KeystreamWords(s, n, doubleRounds, wide, j, i);
    }
  }

  /**
   The octets of a block to the output, from those of the input unless there is none. The two may be the same
   array.
   */
  method Store(output: array<bv8>, input: array?<bv8>, at: nat, octets: seq<bv8>)
    requires at + |octets| <= output.Length && (input != null ==> at + |octets| <= input.Length)
    modifies output
    ensures output[at..at + |octets|]
         == Mixed(input != null, if input != null then old(input[at..at + |octets|]) else [], octets)
    ensures forall j :: 0 <= j < at || at + |octets| <= j < output.Length ==> output[j] == old(output[j])
  {
    hide XorOctet;
    ghost var plain := if input != null then input[at..at + |octets|] else [];
    for k := 0 to |octets|
      invariant forall j :: 0 <= j < at || at + k <= j < output.Length ==> output[j] == old(output[j])
      invariant forall j :: at <= j < at + k ==> output[j] == Mixed(input != null, plain, octets)[j - at]
      invariant input != null ==> forall j :: at + k <= j < at + |octets| ==> input[j] == plain[j - at]
    {
      output[at + k] := if input != null then XorOctet(input[at + k], octets[k]) else octets[k];
    }
  }

  /** _mm_add_epi64: k is added to the lower 64-bit lane, and nothing to the upper one. */
  function AddLanes(r: Row, k: bv32): Row
    requires k <= 3
  {
    var w, v := WidePlus(r.a, r.b, k), Wide(r.c, r.d);
    Row(LowHalf(w), HighHalf(w), LowHalf(v), HighHalf(v))
  }

  lemma CounterRows(s: State, wide: bool)
    requires MultiBlockSafe(s.r3.a, 4)
    ensures s.(r3 := AddLanes(s.r3, 1)) == Advance(s, 1, wide)
    ensures s.(r3 := AddLanes(s.r3, 2)) == Advance(s, 2, wide)
    ensures s.(r3 := AddLanes(s.r3, 3)) == Advance(s, 3, wide)
  {
    hide AddLanes, Plus, MultiBlockSafe, Advance;
    AddLanesIs(s.r3, 1);
    AddLanesIs(s.r3, 2);
    AddLanesIs(s.r3, 3);
    SafeAdvance(s, wide);
  }

  lemma AddLanesIs(r: Row, k: bv32)
    requires k <= 3 && MultiBlockSafe(r.a, 4)
    ensures AddLanes(r, k) == r.(a := Plus(r.a, k))
  {
    hide Wide, WidePlus, LowHalf, HighHalf, Plus, MultiBlockSafe;
    NoCarry(r.a, r.b, k);
    WideHalves(r.c, r.d);
  }

  lemma FourBlocks(s: State, n: nat, wide: bool)
    ensures Keystream(s, 4, n, wide)
         == Serialize(Block(s, n)) + Serialize(Block(Advance(s, 1, wide), n))
          + Serialize(Block(Advance(s, 2, wide), n)) + Serialize(Block(Advance(s, 3, wide), n))
  {
    hide Block, Serialize, Next;
    assert Advance(s, 0, wide) == s && Keystream(s, 0, n, wide) == [];
    assert Keystream(s, 1, n, wide) == [] + Serialize(Block(s, n));
    assert Keystream(s, 2, n, wide) == Keystream(s, 1, n, wide) + Serialize(Block(Advance(s, 1, wide), n));
    assert Keystream(s, 3, n, wide) == Keystream(s, 2, n, wide) + Serialize(Block(Advance(s, 2, wide), n));
  }

  /** Four blocks that differ in their last row. */
  function BlocksOf(s: State, r3: Quad, n: nat): seq<bv8> {
    Serialize(Block(s.(r3 := r3.x0), n)) + Serialize(Block(s.(r3 := r3.x1), n))
      + Serialize(Block(s.(r3 := r3.x2), n)) + Serialize(Block(s.(r3 := r3.x3), n))
  }

  /** The four-block kernel. */
  method OperateSSE2(s: State, output: array<bv8>, input: array?<bv8>, at: nat, rounds: nat, shuffles: bool,
                     ghost wide: bool)
    requires MultiBlockSafe(s.r3.a, 4)
    requires at + 256 <= output.Length && (input != null ==> at + 256 <= input.Length)
    modifies output
    ensures output[at..at + 256] == Mixed(input != null, if input != null then old(input[at..at + 256]) else [],
                                          Keystream(s, 4, (rounds + 1) / 2, wide))
    ensures forall j :: 0 <= j < at || at + 256 <= j < output.Length ==> output[j] == old(output[j])
  {
    hide Keystream, Mixed, Serialize, Block, Advance, MultiBlockSafe, AddLanes, DoubleRounds;
    CounterRows(s, wide);
    FourBlocks(s, (rounds + 1) / 2, wide);
    var counters := Quad(s.r3, AddLanes(s.r3, 1), AddLanes(s.r3, 2), AddLanes(s.r3, 3));
    var octets := VectorBlocks(s, counters, rounds, shuffles);
    assert s.(r3 := s.r3) == s;
    Store(output, input, at, octets);
  }

  /** Rounds and feed-forward on four blocks at once. */
  method VectorBlocks(s: State, s3: Quad, rounds: nat, shuffles: bool) returns (octets: seq<bv8>)
    ensures octets == BlocksOf(s, s3, (rounds + 1) / 2)
  {
    hide AddRows, DoubleRounds, Serialize;
    var s0, s1, s2 := Quad(s.r0, s.r0, s.r0, s.r0), Quad(s.r1, s.r1, s.r1, s.r1), Quad(s.r2, s.r2, s.r2, s.r2);
    var r0, r1, r2, r3 := VectorRounds(s0, s1, s2, s3, rounds, shuffles);
    assert BlockAt(r0, r1, r2, r3, 0) == DoubleRounds(BlockAt(s0, s1, s2, s3, 0), (rounds + 1) / 2);
    assert BlockAt(r0, r1, r2, r3, 1) == DoubleRounds(BlockAt(s0, s1, s2, s3, 1), (rounds + 1) / 2);
    assert BlockAt(r0, r1, r2, r3, 2) == DoubleRounds(BlockAt(s0, s1, s2, s3, 2), (rounds + 1) / 2);
    assert BlockAt(r0, r1, r2, r3, 3) == DoubleRounds(BlockAt(s0, s1, s2, s3, 3), (rounds + 1) / 2);
    r0, r1, r2, r3 := AddQuads(r0, s0), AddQuads(r1, s1), AddQuads(r2, s2), AddQuads(r3, s3);
    octets := Serialize(BlockAt(r0, r1, r2, r3, 0)) + Serialize(BlockAt(r0, r1, r2, r3, 1))
            + Serialize(BlockAt(r0, r1, r2, r3, 2)) + Serialize(BlockAt(r0, r1, r2, r3, 3));
  }

  /** state3 and CTR added, for block k of the eight. */
  function CounterRow(r: Row, k: bv32): Row {
    AddRows(r, Row(k, CarryOf(r.a, k), 0, 0))
  }

  lemma CounterRowIs(r: Row, k: bv32)
    requires MultiBlockSafe(r.a, 8) && k <= 7
    ensures CounterRow(r, k) == r.(a := Plus(r.a, k))
  {
    hide Plus, CarryOf, MultiBlockSafe;
    NoCarryInEight(r.a, r.b, k);
    PlusNothing(r.c);
    PlusNothing(r.d);
  }

  /** The counters of one half of the vectors, from block k on. */
  function HalfCounters(r: Row, k: bv32): Quad
    requires k <= 4
  {
    Quad(CounterRow(r, k), CounterRow(r, k + 1), CounterRow(r, k + 2), CounterRow(r, k + 3))
  }

  /** The counters of the kernel are those of eight consecutive blocks. */
  lemma EightCounters(s: State, t: State, wide: bool)
    requires MultiBlockSafe(s.r3.a, 8) && t == Advance(s, 4, wide)
    ensures HalfCounters(s.r3, 0) == NextRows(s, wide) && HalfCounters(s.r3, 4) == NextRows(t, wide)
    ensures s.(r3 := t.r3) == t
  {
    hide Advance, CounterRow, MultiBlockSafe, Plus;
    SafeEight(s.r3.a);
    SafeAdvance(s, wide);
    SafeAdvance(t, wide);
    CounterRowIs(s.r3, 0);
    CounterRowIs(s.r3, 1);
    CounterRowIs(s.r3, 2);
    CounterRowIs(s.r3, 3);
    CounterRowIs(s.r3, 4);
    CounterRowIs(s.r3, 5);
    CounterRowIs(s.r3, 6);
    CounterRowIs(s.r3, 7);
    PlusNothing(s.r3.a);
    FourAndOne(s.r3.a);
    FourAndTwo(s.r3.a);
    FourAndThree(s.r3.a);
  }

  /** The last rows of four consecutive blocks. */
  function NextRows(s: State, wide: bool): Quad {
    Quad(s.r3, Advance(s, 1, wide).r3, Advance(s, 2, wide).r3, Advance(s, 3, wide).r3)
  }

  /** A safe counter changes the last row only. */
  lemma OnlyLastRow(s: State, wide: bool)
    requires MultiBlockSafe(s.r3.a, 4)
    ensures s.(r3 := s.r3) == s && s.(r3 := Advance(s, 1, wide).r3) == Advance(s, 1, wide)
    ensures s.(r3 := Advance(s, 2, wide).r3) == Advance(s, 2, wide)
    ensures s.(r3 := Advance(s, 3, wide).r3) == Advance(s, 3, wide)
  {
    hide Advance, Plus, MultiBlockSafe;
    SafeAdvance(s, wide);
  }

  /** The eight-block kernel: a vector holds two rows and works on each by itself, as two four-block kernels do. */
  method OperateAVX2(s: State, output: array<bv8>, input: array?<bv8>, at: nat, rounds: nat, ghost wide: bool)
    requires MultiBlockSafe(s.r3.a, 8)
    requires at + 512 <= output.Length && (input != null ==> at + 512 <= input.Length)
    modifies output
    ensures output[at..at + 512] == Mixed(input != null, if input != null then old(input[at..at + 512]) else [],
                                          Keystream(s, 8, (rounds + 1) / 2, wide))
    ensures forall j :: 0 <= j < at || at + 512 <= j < output.Length ==> output[j] == old(output[j])
  {
    hide Keystream, Mixed, Advance, MultiBlockSafe, HalfCounters, Plus, Block, Serialize;
    ghost var n, t := (rounds + 1) / 2, Advance(s, 4, wide);
    SafeEight(s.r3.a);
    SafeAdvance(s, wide);
    EightCounters(s, t, wide);
    OnlyLastRow(s, wide);
    OnlyLastRow(t, wide);
    FourBlocks(s, n, wide);
    FourBlocks(t, n, wide);
    KeystreamAdd(s, 4, 4, n, wide);
    var high := VectorBlocks(s, HalfCounters(s.r3, 0), rounds, true);
    var low := VectorBlocks(s, HalfCounters(s.r3, 4), rounds, true);
    assert low == BlocksOf(t, HalfCounters(s.r3, 4), n) by { SameButLast(s, t, HalfCounters(s.r3, 4), n); }
    Store(output, input, at, high + low);
  }

  lemma SameButLast(s: State, t: State, r3: Quad, n: nat)
    requires s.(r3 := t.r3) == t
    ensures BlocksOf(s, r3, n) == BlocksOf(t, r3, n)
  {
    hide Block, Serialize;
    assert s.(r3 := r3.x0) == t.(r3 := r3.x0) && s.(r3 := r3.x1) == t.(r3 := r3.x1);
    assert s.(r3 := r3.x2) == t.(r3 := r3.x2) && s.(r3 := r3.x3) == t.(r3 := r3.x3);
  }

  lemma MixedAppend(added: bool, plain: seq<bv8>, x: seq<bv8>, y: seq<bv8>)
    requires if added then |plain| == |x| + |y| else plain == []
    ensures Mixed(added, plain, x + y) == Mixed(added, if added then plain[..|x|] else [], x)
                                        + Mixed(added, if added then plain[|x|..] else [], y)
  {
    hide XorOctet;
  }

  /** The block of the loop without vectors, in sixteen variables. */
  method ScalarBlock(s: State, rounds: nat) returns (block: State)
    ensures block == Block(s, (rounds + 1) / 2)
  {
    hide QuarterRound, Plus;
    var x0, x1, x2, x3 := s.r0.a, s.r0.b, s.r0.c, s.r0.d;
    var x4, x5, x6, x7 := s.r1.a, s.r1.b, s.r1.c, s.r1.d;
    var x8, x9, x10, x11 := s.r2.a, s.r2.b, s.r2.c, s.r2.d;
    var x12, x13, x14, x15 := s.r3.a, s.r3.b, s.r3.c, s.r3.d;
    var i: int := rounds;
    ghost var n := 0;
    while i > 0
      invariant i == rounds - 2 * n && i >= -1
      invariant State(Row(x0, x1, x2, x3), Row(x4, x5, x6, x7), Row(x8, x9, x10, x11), Row(x12, x13, x14, x15))
             == DoubleRounds(s, n)
      decreases i
    {
      x0, x4, x8, x12 := MixQuarter(x0, x4, x8, x12);
      x1, x5, x9, x13 := MixQuarter(x1, x5, x9, x13);
      x2, x6, x10, x14 := MixQuarter(x2, x6, x10, x14);
      x3, x7, x11, x15 := MixQuarter(x3, x7, x11, x15);
      x0, x5, x10, x15 := MixQuarter(x0, x5, x10, x15);
      x1, x6, x11, x12 := MixQuarter(x1, x6, x11, x12);
      x2, x7, x8, x13 := MixQuarter(x2, x7, x8, x13);
      x3, x4, x9, x14 := MixQuarter(x3, x4, x9, x14);
      i := i - 2;
      n := n + 1;
    }
    block := State(AddRows(Row(x0, x1, x2, x3), s.r0), AddRows(Row(x4, x5, x6, x7), s.r1),
                   AddRows(Row(x8, x9, x10, x11), s.r2), AddRows(Row(x12, x13, x14, x15), s.r3));
  }

  /** CHACHA_QUARTER_ROUND */
  method MixQuarter(a0: bv32, b0: bv32, c0: bv32, d0: bv32) returns (a: bv32, b: bv32, c: bv32, d: bv32)
    ensures Quarter(a, b, c, d) == QuarterRound(a0, b0, c0, d0)
  {
    hide Plus, Xor, Rotate;
    a, b, c, d := a0, b0, c0, d0;
    a := Plus(a, b);
    d := Xor(d, a);
    d := Rotate(d, 16);
    c := Plus(c, d);
    b := Xor(b, c);
    b := Rotate(b, 12);
    a := Plus(a, b);
    d := Xor(d, a);
    d := Rotate(d, 8);
    c := Plus(c, d);
    b := Xor(b, c);
    b := Rotate(b, 7);
  }

  // ---------- the stream ----------

  /** What a call of OperateKeystream started from. */
  datatype Run = Run(start: State, doubleRounds: nat, wide: bool, added: bool, plain: seq<bv8>, before: seq<bv8>)

  ghost predicate Reached(run: Run, done: nat, total: nat, state: State, output: seq<bv8>, input: seq<bv8>) {
    && done <= total && |output| == |run.before| && 64 * total <= |output|
    && (if run.added then |run.plain| == 64 * total <= |input| else run.plain == [])
    && state == Advance(run.start, done, run.wide)
    && output[..64 * done] == Mixed(run.added, if run.added then run.plain[..64 * done] else [],
                                    Keystream(run.start, done, run.doubleRounds, run.wide))
    && output[64 * done..] == run.before[64 * done..]
    && (run.added ==> input[64 * done..64 * total] == run.plain[64 * done..])
  }

  /** The next m blocks were written behind the others. */
  ghost predicate Written(run: Run, done: nat, m: nat, state: State, output: seq<bv8>, input: seq<bv8>,
                          after: seq<bv8>, inputAfter: seq<bv8>)
    requires 64 * (done + m) <= |output| && (run.added ==> 64 * (done + m) <= |input|)
  {
    && |after| == |output| && |inputAfter| == |input|
    && after[64 * done..64 * (done + m)] ==
        Mixed(run.added, if run.added then input[64 * done..64 * (done + m)] else [],
                                                  Keystream(state, m, run.doubleRounds, run.wide))
    && after[..64 * done] == output[..64 * done] && after[64 * (done + m)..] == output[64 * (done + m)..]
    && (run.added ==> inputAfter[64 * (done + m)..] == input[64 * (done + m)..])
  }

  lemma Extend(run: Run, done: nat, m: nat, total: nat, state: State, output: seq<bv8>, input: seq<bv8>,
               after: seq<bv8>, inputAfter: seq<bv8>)
    requires Reached(run, done, total, state, output, input) && done + m <= total
    requires Written(run, done, m, state, output, input, after, inputAfter)
    ensures Reached(run, done + m, total, Advance(state, m, run.wide), after, inputAfter)
  {
    hide Advance, Keystream, Mixed;
    AdvanceAdd(run.start, done, m, run.wide);
    KeystreamAdd(run.start, done, m, run.doubleRounds, run.wide);
    var i, j := 64 * done, 64 * (done + m);
    var plain := if run.added then run.plain[..j] else [];
    MixedAppend(run.added, plain, Keystream(run.start, done, run.doubleRounds, run.wide),
                Keystream(state, m, run.doubleRounds, run.wide));
    assert after[..j] == after[..i] + after[i..j];
    assert output[j..] == output[i..][j - i..] && run.before[j..] == run.before[i..][j - i..];
    if run.added {
      InputSlices(input, run.plain, i, j);
      assert inputAfter[j..64 * total] == inputAfter[j..][..64 * total - j];
      assert input[j..64 * total] == input[j..][..64 * total - j];
    }
  }

  lemma InputSlices(input: seq<bv8>, plain: seq<bv8>, i: nat, j: nat)
    requires i <= j <= |plain| <= |input| && input[i..|plain|] == plain[i..]
    ensures input[i..j] == plain[..j][i..] && plain[..i] == plain[..j][..i] && input[j..|plain|] == plain[j..]
  {
    var rest := input[i..|plain|];
    SliceOfSlice(input, i, |plain|, 0, j - i);
    SliceOfSlice(input, i, |plain|, j - i, |rest|);
    SliceOfSlice(plain, i, |plain|, 0, j - i);
    SliceOfSlice(plain, i, |plain|, j - i, |rest|);
    assert plain[i..] == plain[i..|plain|] && plain[..j][i..] == plain[i..j] && plain[j..] == plain[j..|plain|];
  }

  lemma SliceOfSlice(s: seq<bv8>, i: nat, j: nat, a: nat, b: nat)
    requires i <= j <= |s| && a <= b <= j - i
    ensures s[i..j][a..b] == s[i + a..i + b]
  {
    var l, r := s[i..j][a..b], s[i + a..i + b];
    assert |l| == |r|;
    forall k | 0 <= k < |l|
      ensures l[k] == r[k]
    {
      assert l[k] == s[i..j][a + k];
    }
  }

  lemma StartRun(run: Run, total: nat, input: seq<bv8>)
    requires 64 * total <= |run.before|
    requires if run.added then 64 * total <= |input| && run.plain == input[..64 * total] else run.plain == []
    ensures Reached(run, 0, total, run.start, run.before, input)
  {
  }

  lemma EndRun(run: Run, total: nat, state: State, output: seq<bv8>, input: seq<bv8>)
    requires Reached(run, total, total, state, output, input)
    ensures state == Advance(run.start, total, run.wide)
    ensures 64 * total <= |output| == |run.before|
    ensures run.added ==> |run.plain| == 64 * total
    ensures output[..64 * total] == Mixed(run.added, run.plain, Keystream(run.start, total, run.doubleRounds, run.wide))
    ensures output[64 * total..] == run.before[64 * total..]
  {
    if run.added {
      assert run.plain[..64 * total] == run.plain;
    }
  }

  class Policy {
    const rounds: nat
    /**
     Whether a carry out of word 12 goes to word 13, as in ChaCha itself, or is dropped, as in ChaChaTLS and
     XChaCha20.
     */
    const wide: bool
    /** Whether the four-block kernel was compiled to rotate by moving octets where it can. */
    const shuffles: bool
    var state: State

    constructor (initial: State, r: nat, carries: bool, moves: bool)
      ensures state == initial && rounds == r && wide == carries && shuffles == moves
    {
      state, rounds, wide, shuffles := initial, r, carries, moves;
    }

    /**
     The next blocks of the stream, whichever vector units there are: eight and four at a time while that is safe,
     one at a time otherwise, coming back to the vectors after each single block.
     */
    method OperateKeystream(output: array<bv8>, input: array?<bv8>, iterationCount: nat, hasAVX2: bool, hasSSE2: bool)
      requires 64 * iterationCount <= output.Length && (input != null ==> 64 * iterationCount <= input.Length)
      modifies this, output
      ensures state == Advance(old(state), iterationCount, wide)
      ensures output[..64 * iterationCount]
           == Mixed(input != null, if input != null then old(input[..64 * iterationCount]) else [],
                    Keystream(old(state), iterationCount, (rounds + 1) / 2, wide))
      ensures output[64 * iterationCount..] == old(output[64 * iterationCount..])
      ensures HoldsBlocks(Unmixed(input != null, if input != null then old(input[..64 * iterationCount]) else [],
                                  output[..64 * iterationCount]),
                          old(state), iterationCount, (rounds + 1) / 2, wide)
    {
      hide Advance, Keystream, Mixed, Reached, HoldsBlocks, Unmixed;
      ghost var run := Run(state, (rounds + 1) / 2, wide, input != null,
                           if input != null then input[..64 * iterationCount] else [], output[..]);
      var left: nat := iterationCount;
      ghost var done := 0;
      StartRun(run, iterationCount, if input != null then input[..] else []);
      while true
        invariant done + left == iterationCount
        invariant Running(run, done, iterationCount, output, input)
        decreases left
      {
        if hasAVX2 {
          left := VectorLoop(output, input, left, true, run, iterationCount);
          done := iterationCount - left;
        }
        if hasSSE2 {
          left := VectorLoop(output, input, left, false, run, iterationCount);
          done := iterationCount - left;
        }
        if left != 0 {
          Single(output, input, iterationCount - left, run, iterationCount);
          done := done + 1;
        }
        if left == 0 {
          break;
        }
        left := left - 1;
      }
      EndRun(run, iterationCount, state, output[..], if input != null then input[..] else []);
      MixedWords(run.start, iterationCount, run.doubleRounds, wide, run.added, run.plain, output[..64 * iterationCount]);
    }

    ghost predicate Running(run: Run, done: nat, total: nat, output: array<bv8>, input: array?<bv8>)
      reads this, output, input
    {
      && run.doubleRounds == (rounds + 1) / 2 && run.wide == wide && run.added == (input != null)
      && Reached(run, done, total, state, output[..], if input != null then input[..] else [])
    }

    /** One of the vector loops. */
    method VectorLoop(output: array<bv8>, input: array?<bv8>, iterationCount: nat, eight: bool, ghost run: Run,
                      total: nat)
      returns (left: nat)
      requires iterationCount <= total && Running(run, total - iterationCount, total, output, input)
      modifies this, output
      ensures left <= iterationCount && Running(run, total - left, total, output, input)
    {
      hide Reached, MultiBlockSafe;
      left := iterationCount;
      while left >= (if eight then 8 else 4) && MultiBlockSafe(state.r3.a, if eight then 8 else 4)
        invariant left <= iterationCount && Running(run, total - left, total, output, input)
      {
        if eight {
          Eight(output, input, total - left, run, total);
          left := left - 8;
        } else {
          Four(output, input, total - left, run, total);
          left := left - 4;
        }
      }
    }

    method Four(output: array<bv8>, input: array?<bv8>, done: nat, ghost run: Run, ghost total: nat)
      requires done + 4 <= total && Running(run, done, total, output, input) && MultiBlockSafe(state.r3.a, 4)
      modifies this, output
      ensures Running(run, done + 4, total, output, input)
    {
      hide Advance, Keystream, Mixed, Plus, MultiBlockSafe;
      ghost var out, inp := output[..], if input != null then input[..] else [];
      OperateSSE2(state, output, input, 64 * done, rounds, shuffles, wide);
      ghost var out', inp' := output[..], if input != null then input[..] else [];
      SafeAdvance(state, wide);
      IsWritten(run, done, 4, state, out, inp, out', inp');
      Extend(run, done, 4, total, state, out, inp, out', inp');
      state := state.(r3 := state.r3.(a := Plus(state.r3.a, 4)));
    }

    method Eight(output: array<bv8>, input: array?<bv8>, done: nat, ghost run: Run, ghost total: nat)
      requires done + 8 <= total && Running(run, done, total, output, input) && MultiBlockSafe(state.r3.a, 8)
      modifies this, output
      ensures Running(run, done + 8, total, output, input)
    {
      hide Advance, Keystream, Mixed, Plus, MultiBlockSafe;
      ghost var out, inp := output[..], if input != null then input[..] else [];
      OperateAVX2(state, output, input, 64 * done, rounds, wide);
      ghost var out', inp' := output[..], if input != null then input[..] else [];
      EightAdvance(state, wide);
      IsWritten(run, done, 8, state, out, inp, out', inp');
      Extend(run, done, 8, total, state, out, inp, out', inp');
      state := state.(r3 := state.r3.(a := Plus(state.r3.a, 8)));
    }

    method Single(output: array<bv8>, input: array?<bv8>, done: nat, ghost run: Run, ghost total: nat)
      requires done + 1 <= total && Running(run, done, total, output, input)
      modifies this, output
      ensures Running(run, done + 1, total, output, input)
    {
      hide Keystream, Mixed, Plus, Block, Serialize;
      ghost var out, inp := output[..], if input != null then input[..] else [];
      var block := ScalarBlock(state, rounds);
      Store(output, input, 64 * done, Serialize(block));
      ghost var out', inp' := output[..], if input != null then input[..] else [];
      OneBlock(state, (rounds + 1) / 2, wide);
      IsWritten(run, done, 1, state, out, inp, out', inp');
      Extend(run, done, 1, total, state, out, inp, out', inp');
      var low := Plus(state.r3.a, 1);
      state := state.(r3 := state.r3.(a := low));
      if low == 0 && wide {
        state := state.(r3 := state.r3.(b := Plus(state.r3.b, 1)));
      }
    }
  }

  lemma OneBlock(s: State, n: nat, wide: bool)
    ensures Keystream(s, 1, n, wide) == Serialize(Block(s, n)) && Advance(s, 1, wide) == Next(s, wide)
  {
    hide Block, Serialize, Next;
    assert Advance(s, 0, wide) == s && Keystream(s, 0, n, wide) == [];
    assert Keystream(s, 1, n, wide) == [] + Serialize(Block(s, n));
  }

  lemma EightAdvance(s: State, wide: bool)
    requires MultiBlockSafe(s.r3.a, 8)
    ensures Advance(s, 8, wide) == s.(r3 := s.r3.(a := Plus(s.r3.a, 8)))
  {
    hide Plus, MultiBlockSafe, Advance;
    SafeEight(s.r3.a);
    SafeAdvance(s, wide);
    SafeAdvance(Advance(s, 4, wide), wide);
    AdvanceAdd(s, 4, 4, wide);
  }

  lemma IsWritten(run: Run, done: nat, m: nat, state: State, output: seq<bv8>, input: seq<bv8>,
                  after: seq<bv8>, inputAfter: seq<bv8>)
    requires 64 * (done + m) <= |output| == |after| && |input| == |inputAfter|
    requires run.added ==> 64 * (done + m) <= |input|
    requires after[64 * done..64 * done + 64 * m] ==
      Mixed(run.added, if run.added then input[64 * done..64 * done + 64 * m] else [],
            Keystream(state, m, run.doubleRounds, run.wide))
    requires forall j :: 0 <= j < 64 * done || 64 * done + 64 * m <= j < |output| ==> after[j] == output[j]
    requires run.added ==> inputAfter == input || (input == output && inputAfter == after)
    ensures Written(run, done, m, state, output, input, after, inputAfter)
  {
    hide Keystream, Mixed;
  }
}
