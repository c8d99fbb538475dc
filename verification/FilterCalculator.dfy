/**
 The CAN filter and mask that the calculator script derives from a range of identifiers. The script's
 integers are unbounded, so numbers are naturals and the bit operators are defined digit by digit.
 */
module FilterCalculator {
  const EXTENDED := 0x1FFF_FFFF
  const BASE_FORMAT := 0x7FF

  // ---------------------------------------------------------------- bit operators on naturals

  function And(x: nat, y: nat): (r: nat)
    ensures r <= x && r <= y
  {
    if x == 0 || y == 0 then 0 else 2 * And(x / 2, y / 2) + (if x % 2 == 1 && y % 2 == 1 then 1 else 0)
  }

  function Or(x: nat, y: nat): (r: nat)
    ensures r >= x && r >= y
  {
    if x == 0 && y == 0 then 0 else 2 * Or(x / 2, y / 2) + (if x % 2 == 1 || y % 2 == 1 then 1 else 0)
  }

  function Xor(x: nat, y: nat): nat {
    if x == 0 && y == 0 then 0 else 2 * Xor(x / 2, y / 2) + (if x % 2 != y % 2 then 1 else 0)
  }

  function Pow2(k: nat): (p: nat)
    ensures p > 0
  {
    if k == 0 then 1 else 2 * Pow2(k - 1)
  }

  // ---------------------------------------------------------------- the script

  /** `reduce(and_, range(start, end + 1))`. */
  function AndRange(start: nat, end: nat): nat
    requires start <= end
    decreases end
  {
    if start == end then start else And(AndRange(start, end - 1), end)
  }

  /** `reduce(or_, range(start, end + 1))`. */
  function OrRange(start: nat, end: nat): nat
    requires start <= end
    decreases end
  {
    if start == end then start else Or(OrRange(start, end - 1), end)
  }

  function Filter(start: nat, end: nat): nat
    requires start <= end
  {
    AndRange(start, end)
  }

  /** All the bits of the identifier format the range needs. */
  function FormatBits(start: nat, end: nat): nat
    requires start <= end
  {
    if OrRange(start, end) > BASE_FORMAT then EXTENDED else BASE_FORMAT
  }

  function Mask(start: nat, end: nat): nat
    requires start <= end
  {
    Xor(Xor(OrRange(start, end), Filter(start, end)), FormatBits(start, end))
  }

  predicate Accepted(filter: nat, mask: nat, id: nat) {
    And(id, mask) == filter
  }

  predicate AcceptsRange(filter: nat, mask: nat, start: nat, end: nat) {
    forall id | start <= id <= end :: Accepted(filter, mask, id)
  }

  /** An empty range makes reduce fail; a range whose identifiers are not all accepted fails an assertion. */
  datatype Outcome = Printed(filter: nat, mask: nat) | EmptyRange | AssertionFailed

  function Calculate(start: nat, end: nat): Outcome {
    if start > end then EmptyRange
    else if AcceptsRange(Filter(start, end), Mask(start, end), start, end) then
      Printed(Filter(start, end), Mask(start, end))
    else AssertionFailed
  }

  // ---------------------------------------------------------------- blocks

  /** `x >> k`. */
  function Shr(x: nat, k: nat): nat {
    if k == 0 then x else Shr(x / 2, k - 1)
  }

  /** `x << k`. */
  function Shl(x: nat, k: nat): nat {
    if k == 0 then x else 2 * Shl(x, k - 1)
  }

  /** `x` and `y` lie in the same aligned block of 2^k numbers. */
  predicate SameBlock(k: nat, x: nat, y: nat) {
    Shr(x, k) == Shr(y, k)
  }

  /** An aligned block is an interval of 2^k numbers that starts at a multiple of 2^k. */
  lemma {:induction false} BlockIsInterval(k: nat, x: nat, n: nat)
    ensures Shr(x, k) == n <==> Shl(n, k) <= x < Shl(n, k) + Shl(1, k)
  {
    if k > 0 { BlockIsInterval(k - 1, x / 2, n); }
  }

  /** How many low bits to drop until the two ends of a range agree. */
  function Level(start: nat, end: nat): (k: nat)
    requires start <= end
  {
    if start == end then 0 else 1 + Level(start / 2, end / 2)
  }

  /** The level is the least one whose blocks do not separate the ends of the range. */
  lemma {:induction false} LevelIsLeast(start: nat, end: nat, k: nat)
    requires start <= end
    ensures SameBlock(k, start, end) <==> k >= Level(start, end)
    decreases k
  {
    if start == end {
    } else if k > 0 {
      LevelIsLeast(start / 2, end / 2, k - 1);
    }
  }

  // ---------------------------------------------------------------- the folds

  lemma AndDouble(x: nat, y: nat)
    ensures And(2 * x, y) == 2 * And(x, y / 2)
  {}

  lemma OrDouble(x: nat, y: nat)
    ensures Or(2 * x + 1, y) == 2 * Or(x, y / 2) + 1
  {}

  lemma {:induction false} Idempotent(x: nat)
    ensures And(x, x) == x && Or(x, x) == x
  {
    if x > 0 { Idempotent(x / 2); }
  }

  /** The first number of the smallest block around the range. */
  function AndClosed(start: nat, end: nat): (r: nat)
    requires start <= end
  {
    if start == end then start else 2 * AndClosed(start / 2, end / 2)
  }

  /** The last number of the smallest block around the range. */
  function OrClosed(start: nat, end: nat): (r: nat)
    requires start <= end
  {
    if start == end then start else 2 * OrClosed(start / 2, end / 2) + 1
  }

  lemma {:induction false} EndIsInside(start: nat, end: nat)
    requires start <= end
    ensures And(AndClosed(start, end), end) == AndClosed(start, end)
    ensures Or(OrClosed(start, end), end) == OrClosed(start, end)
  {
    hide And, Or;
    if start == end {
      Idempotent(start);
    } else {
      EndIsInside(start / 2, end / 2);
      AndDouble(AndClosed(start / 2, end / 2), end);
      OrDouble(OrClosed(start / 2, end / 2), end);
    }
  }

  lemma ClosedOfOne(x: nat)
    ensures AndClosed(x, x) == x && OrClosed(x, x) == x
  {}

  lemma ClosedHalves(start: nat, end: nat)
    requires start < end
    ensures AndClosed(start, end) == 2 * AndClosed(start / 2, end / 2)
    ensures OrClosed(start, end) == 2 * OrClosed(start / 2, end / 2) + 1
  {}

  /** One more number in the fold is one more number in the range of the block. */
  lemma {:induction false} ClosedStep(start: nat, end: nat)
    requires start <= end
    ensures And(AndClosed(start, end), end + 1) == AndClosed(start, end + 1)
    ensures Or(OrClosed(start, end), end + 1) == OrClosed(start, end + 1)
    decreases end
  {
    hide And, Or, AndClosed, OrClosed;
    var s, e := start / 2, end / 2;
    if start < end {
      ClosedHalves(start, end);
      ClosedHalves(start, end + 1);
      AndDouble(AndClosed(s, e), end + 1);
      OrDouble(OrClosed(s, e), end + 1);
      if end % 2 == 0 { EndIsInside(s, e); } else { ClosedStep(s, e); }
    } else {
      ClosedOfOne(end);
      NextNumber(end);
    }
  }

  lemma {:induction false} NextNumber(x: nat)
    ensures And(x, x + 1) == AndClosed(x, x + 1) && Or(x, x + 1) == OrClosed(x, x + 1)
  {
    if x % 2 == 0 { Idempotent(x / 2); } else { NextNumber(x / 2); }
  }

  lemma {:induction false} FoldsClosed(start: nat, end: nat)
    requires start <= end
    ensures AndRange(start, end) == AndClosed(start, end)
    ensures OrRange(start, end) == OrClosed(start, end)
    decreases end
  {
    hide And, Or, AndClosed, OrClosed;
    if start < end {
      FoldsClosed(start, end - 1);
      ClosedStep(start, end - 1);
    } else {
      ClosedOfOne(start);
    }
  }

  /** The bits in which the numbers of a range differ: 2^k - 1 for the level k. */
  function Ones(k: nat): nat {
    if k == 0 then 0 else 2 * Ones(k - 1) + 1
  }

  lemma XorDouble(x: nat, y: nat)
    ensures Xor(2 * x + 1, 2 * y) == 2 * Xor(x, y) + 1
    ensures Xor(2 * x + 1, 2 * y + 1) == 2 * Xor(x, y)
  {}

  lemma {:induction false} XorSelf(x: nat)
    ensures Xor(x, x) == 0
  {
    if x > 0 { XorSelf(x / 2); }
  }

  lemma {:induction false} XorZero(x: nat)
    ensures Xor(0, x) == x && Xor(x, 0) == x
  {
    if x > 0 { XorZero(x / 2); }
  }

  lemma ShiftOnce(x: nat, k: nat)
    ensures Shl(Shr(x, k + 1), k + 1) == 2 * Shl(Shr(x / 2, k), k)
  {}

  lemma {:induction false} ClosedIsBlockStart(start: nat, end: nat)
    requires start <= end
    ensures AndClosed(start, end) == Shl(Shr(start, Level(start, end)), Level(start, end))
  {
    hide Shl, Shr;
    if start == end {
      ShiftByNothing(start);
    } else {
      ClosedIsBlockStart(start / 2, end / 2);
      ShiftOnce(start, Level(start / 2, end / 2));
    }
  }

  lemma ShiftByNothing(x: nat)
    ensures Shl(Shr(x, 0), 0) == x
  {}

  /** AND and OR over a range are the ends of its block; they differ in the low bits of the level. */
  lemma {:induction false} ClosedAreBlockEnds(start: nat, end: nat)
    requires start <= end
    ensures var k := Level(start, end);
      && OrClosed(start, end) == AndClosed(start, end) + Ones(k)
      && Xor(OrClosed(start, end), AndClosed(start, end)) == Ones(k)
  {
    hide Xor;
    if start == end {
      XorSelf(start);
    } else {
      var s, e := start / 2, end / 2;
      assert AndClosed(start, end) == 2 * AndClosed(s, e) && OrClosed(start, end) == 2 * OrClosed(s, e) + 1;
      assert Ones(Level(start, end)) == 2 * Ones(Level(s, e)) + 1;
      hide AndClosed, OrClosed, Ones, Level;
      ClosedAreBlockEnds(s, e);
      XorDouble(OrClosed(s, e), AndClosed(s, e));
    }
  }

  // ---------------------------------------------------------------- what a band mask selects

  lemma AndDigits(x: nat, y: nat)
    ensures And(x, y) == 2 * And(x / 2, y / 2) + (if x % 2 == 1 && y % 2 == 1 then 1 else 0)
  {}

  lemma Doubled(y: nat)
    ensures (2 * y) / 2 == y && (2 * y) % 2 == 0
    ensures (2 * y + 1) / 2 == y && (2 * y + 1) % 2 == 1
  {}

  lemma AndOdd(x: nat, y: nat)
    ensures And(x, 2 * y + 1) == 2 * And(x / 2, y) + x % 2
  {
    hide And;
    AndDigits(x, 2 * y + 1);
    Doubled(y);
  }

  lemma AndEven(x: nat, y: nat)
    ensures And(x, 2 * y) == 2 * And(x / 2, y)
  {
    hide And;
    AndDigits(x, 2 * y);
    Doubled(y);
  }

  /** With the low `k` bits removed from `w` ones, an identifier keeps its bits from `k` up to `w`. */
  lemma {:induction false} BandMask(id: nat, k: nat, w: nat)
    requires k <= w
    ensures And(id, Xor(Ones(k), Ones(w))) == Shl(Shr(And(id, Ones(w)), k), k)
    decreases w
  {
    hide And, Xor;
    if k > 0 {
      BandMask(id / 2, k - 1, w - 1);
      XorDouble(Ones(k - 1), Ones(w - 1));
      AndEven(id, Xor(Ones(k - 1), Ones(w - 1)));
      AndOdd(id, Ones(w - 1));
    } else {
      XorZero(Ones(w));
    }
  }

  lemma {:induction false} AndOnes(x: nat, w: nat)
    ensures And(x, Ones(w)) == x <==> x <= Ones(w)
  {
    hide And;
    AndZero(x);
    if w > 0 {
      AndOnes(x / 2, w - 1);
      AndOdd(x, Ones(w - 1));
    }
  }

  lemma AndZero(x: nat)
    ensures And(x, 0) == 0
  {}

  lemma {:induction false} ShlMonotone(x: nat, y: nat, k: nat)
    ensures Shl(x, k) == Shl(y, k) <==> x == y
    ensures x < y ==> Shl(x, k) < Shl(y, k)
  {
    if k > 0 { ShlMonotone(x, y, k - 1); }
  }

  lemma FormatIsOnes()
    ensures Ones(11) == BASE_FORMAT && Ones(29) == EXTENDED
  {
    assert Ones(8) == 0xFF;
    assert Ones(16) == 0xFFFF;
    assert Ones(24) == 0xFF_FFFF;
  }

  function Width(start: nat, end: nat): nat
    requires start <= end
  {
    if end > BASE_FORMAT then 29 else 11
  }

  lemma {:induction false} OnesMonotone(j: nat, k: nat)
    ensures Ones(j) <= Ones(k) <==> j <= k
  {
    if j > 0 && k > 0 { OnesMonotone(j - 1, k - 1); }
  }

  /** The block of a range that fits `w` bits fits them too. */
  lemma {:induction false} BlockFits(start: nat, end: nat, w: nat)
    requires start <= end
    ensures OrClosed(start, end) <= Ones(w) <==> end <= Ones(w)
    ensures end <= Ones(w) ==> Level(start, end) <= w
    decreases w
  {
    if start != end && w > 0 { BlockFits(start / 2, end / 2, w - 1); }
  }

  /** What the script computes, in closed form: the level decides the filter, the format the mask. */
  lemma ScriptClosed(start: nat, end: nat)
    requires start <= end
    ensures var k, w := Level(start, end), Width(start, end);
      && Filter(start, end) == Shl(Shr(start, k), k)
      && FormatBits(start, end) == Ones(w)
      && Mask(start, end) == Xor(Ones(k), Ones(w))
  {
    hide And, Or, Xor, AndClosed, OrClosed, Level, AndRange, OrRange;
    FoldsClosed(start, end);
    ClosedIsBlockStart(start, end);
    ClosedAreBlockEnds(start, end);
    FormatIsOnes();
    BlockFits(start, end, 11);
  }

  // ---------------------------------------------------------------- the theorems

  /** Two numbers in one block, scaled back. */
  lemma SameBlockScaled(x: nat, y: nat, k: nat)
    ensures Shl(Shr(x, k), k) == Shl(Shr(y, k), k) <==> SameBlock(k, x, y)
  {
    ShlMonotone(Shr(x, k), Shr(y, k), k);
  }

  /** Of any number, the synthesised filter looks only at the bits of its format, and there at the block. */
  lemma AcceptsByFormatBits(start: nat, end: nat, id: nat)
    requires start <= end <= EXTENDED
    ensures Accepted(Filter(start, end), Mask(start, end), id) <==>
      SameBlock(Level(start, end), start, And(id, FormatBits(start, end)))
  {
    hide And, Xor, Level, Shr, Shl, Filter, Mask, FormatBits;
    var k, w := Level(start, end), Width(start, end);
    ScriptClosed(start, end);
    FormatIsOnes();
    BlockFits(start, end, w);
    BandMask(id, k, w);
    SameBlockScaled(And(id, Ones(w)), start, k);
  }

  /**
   Of the identifiers of its format, the synthesised filter accepts exactly the smallest aligned
   power-of-two block that contains the range.
   */
  lemma AcceptsExactlyTheBlock(start: nat, end: nat, id: nat)
    requires start <= end <= EXTENDED && id <= FormatBits(start, end)
    ensures Accepted(Filter(start, end), Mask(start, end), id) <==> SameBlock(Level(start, end), start, id)
  {
    hide *;
    AcceptsByFormatBits(start, end, id);
    ScriptClosed(start, end);
    AndOnes(id, Width(start, end));
  }

  /** Masks only look at bits: halving the identifier halves the question. */
  lemma HalveAccepted(filter: nat, mask: nat, id: nat)
    ensures Accepted(filter, mask, id) <==>
      Accepted(filter / 2, mask / 2, id / 2) && filter % 2 == (if mask % 2 == 1 then id % 2 else 0)
  {
    AndOdd(id, mask / 2);
    AndEven(id, mask / 2);
  }

  /** A pair that accepts a range of two numbers or more ignores the lowest bit. */
  lemma HalveRange(filter: nat, mask: nat, start: nat, end: nat)
    requires start < end && AcceptsRange(filter, mask, start, end)
    ensures mask % 2 == 0 && filter % 2 == 0
    ensures AcceptsRange(filter / 2, mask / 2, start / 2, end / 2)
  {
    hide Accepted;
    HalveAccepted(filter, mask, start);
    HalveAccepted(filter, mask, start + 1);
    forall id | start / 2 <= id <= end / 2 ensures Accepted(filter / 2, mask / 2, id) {
      var whole := if 2 * id >= start then 2 * id else 2 * id + 1;
      HalveAccepted(filter, mask, whole);
    }
  }

  /**
   Optimality: whatever filter and mask accept the whole range accept every number of its smallest
   block, so no pair accepts fewer identifiers than the synthesised one.
   */
  lemma {:induction false} NoPairAcceptsLess(start: nat, end: nat, filter: nat, mask: nat, id: nat)
    requires start <= end && AcceptsRange(filter, mask, start, end)
    requires SameBlock(Level(start, end), start, id)
    ensures Accepted(filter, mask, id)
    decreases end
  {
    hide Accepted;
    if start < end {
      HalveRange(filter, mask, start, end);
      NoPairAcceptsLess(start / 2, end / 2, filter / 2, mask / 2, id / 2);
      HalveAccepted(filter, mask, id);
    }
  }

  /** The script's filter and mask against any other pair that accepts the range. */
  lemma SynthesisIsOptimal(start: nat, end: nat, filter: nat, mask: nat, id: nat)
    requires start <= end <= EXTENDED && id <= FormatBits(start, end)
    requires AcceptsRange(filter, mask, start, end)
    ensures Accepted(Filter(start, end), Mask(start, end), id) ==> Accepted(filter, mask, id)
  {
    hide Accepted, Filter, Mask, FormatBits, SameBlock;
    AcceptsExactlyTheBlock(start, end, id);
    if Accepted(Filter(start, end), Mask(start, end), id) {
      NoPairAcceptsLess(start, end, filter, mask, id);
    }
  }

  /** No pair that accepts the range rejects a 29-bit identifier that the script's pair accepts. */
  ghost predicate OptimalForAllFormats(start: nat, end: nat)
    requires start <= end
  {
    forall filter: nat, mask: nat, id: nat |
      AcceptsRange(filter, mask, start, end) && id <= EXTENDED && Accepted(Filter(start, end), Mask(start, end), id) ::
      Accepted(filter, mask, id)
  }

  lemma {:induction false} OneBitMore(x: nat, w: nat)
    ensures And(x + Ones(w) + 1, Ones(w)) == And(x, Ones(w))
  {
    hide And;
    AndZero(x);
    AndZero(x + 1);
    if w > 0 {
      OneBitMore(x / 2, w - 1);
      AndOdd(x, Ones(w - 1));
      AndOdd(x + Ones(w) + 1, Ones(w - 1));
    }
  }

  /** The mask over all 29 bits that ignores the low bits of the level also accepts the range. */
  lemma WideMaskAccepts(start: nat, end: nat, id: nat)
    requires start <= end <= EXTENDED && id <= EXTENDED
    ensures var k := Level(start, end);
      Accepted(Filter(start, end), Xor(Ones(k), Ones(29)), id) <==> SameBlock(k, start, id)
  {
    hide And, Xor, Level, Shr, Shl, Filter, Mask, FormatBits;
    var k := Level(start, end);
    ScriptClosed(start, end);
    FormatIsOnes();
    BlockFits(start, end, 29);
    BandMask(id, k, 29);
    AndOnes(id, 29);
    SameBlockScaled(id, start, k);
  }

  /** The base-format mask lets an extended identifier through that a wide mask rejects. */
  lemma BaseMaskIsNotOptimal(start: nat, end: nat)
    requires start <= end <= BASE_FORMAT
    ensures !OptimalForAllFormats(start, end)
  {
    hide And, Xor, Level, Shr, Shl, Filter, Mask, FormatBits, SameBlock, Accepted;
    var k, id := Level(start, end), start + 0x800;
    ScriptClosed(start, end);
    FormatIsOnes();
    BlockFits(start, end, 11);
    forall i | start <= i <= end ensures Accepted(Filter(start, end), Xor(Ones(k), Ones(29)), i) {
      WideMaskAccepts(start, end, i);
      RangeInBlock(start, end, i);
    }
    OneBitMore(start, 11);
    AndOnes(start, 11);
    AcceptsByFormatBits(start, end, id);
    RangeInBlock(start, end, start);
    WideMaskAccepts(start, end, id);
    BlocksDoNotCross(start, id, k, 11);
  }

  lemma ExtendedFormat(start: nat, end: nat)
    requires start <= end && end > BASE_FORMAT
    ensures FormatBits(start, end) == EXTENDED
  {
    hide FormatBits, Filter, Mask, Level, Shl, Shr, Xor;
    ScriptClosed(start, end);
    FormatIsOnes();
  }

  /** Measured against identifiers of both formats, the script is optimal exactly for extended ranges. */
  lemma OptimalExactlyForExtendedRanges(start: nat, end: nat)
    requires start <= end <= EXTENDED
    ensures OptimalForAllFormats(start, end) <==> end > BASE_FORMAT
  {
    if end <= BASE_FORMAT {
      BaseMaskIsNotOptimal(start, end);
    } else {
      hide Accepted, AcceptsRange, Filter, Mask, FormatBits, Level;
      ExtendedFormat(start, end);
      forall filter: nat, mask: nat, id: nat |
        AcceptsRange(filter, mask, start, end) && id <= EXTENDED && Accepted(Filter(start, end), Mask(start, end), id)
        ensures Accepted(filter, mask, id)
      {
        SynthesisIsOptimal(start, end, filter, mask, id);
      }
    }
  }

  lemma {:induction false} RangeInBlock(start: nat, end: nat, id: nat)
    requires start <= id <= end
    ensures SameBlock(Level(start, end), start, id)
    decreases end
  {
    if start < end { RangeInBlock(start / 2, end / 2, id / 2); }
  }

  lemma RangeFitsFormat(start: nat, end: nat)
    requires start <= end <= EXTENDED
    ensures end <= FormatBits(start, end)
  {
    hide Filter, Mask, Level;
    ScriptClosed(start, end);
    FormatIsOnes();
  }

  lemma {:induction false} BlocksDoNotCross(x: nat, y: nat, k: nat, w: nat)
    requires k <= w && x <= Ones(w) < y
    ensures !SameBlock(k, x, y)
    decreases k
  {
    if k > 0 { BlocksDoNotCross(x / 2, y / 2, k - 1, w - 1); }
  }

  /** A pair that accepts a range ignores every bit below its level. */
  lemma {:induction false} LowBitsIgnored(filter: nat, mask: nat, start: nat, end: nat)
    requires start <= end && AcceptsRange(filter, mask, start, end)
    ensures And(mask, Ones(Level(start, end))) == 0
    decreases end
  {
    hide And, AcceptsRange;
    if start < end {
      HalveRange(filter, mask, start, end);
      LowBitsIgnored(filter / 2, mask / 2, start / 2, end / 2);
      AndOdd(mask, Ones(Level(start / 2, end / 2)));
    } else {
      AndZero(mask);
    }
  }

  lemma {:induction false} BandNotEmpty(j: nat, k: nat)
    requires j < k
    ensures And(Xor(Ones(k), Ones(j)), Ones(k)) > 0
  {
    hide And, Xor;
    if j > 0 {
      BandNotEmpty(j - 1, k - 1);
      XorDouble(Ones(k - 1), Ones(j - 1));
      AndOdd(2 * Xor(Ones(k - 1), Ones(j - 1)), Ones(k - 1));
    } else {
      XorZero(Ones(k));
      Idempotent(Ones(k));
    }
  }

  /** A range above the extended format: its end, or the bits its numbers differ in, defeat the mask. */
  lemma LongRangeIsRejected(start: nat, end: nat)
    requires start <= end && end > EXTENDED
    ensures !AcceptsRange(Filter(start, end), Mask(start, end), start, end)
  {
    hide And, Xor, Level, Shr, Shl, Filter, Mask, FormatBits, AcceptsRange, SameBlock;
    var k := Level(start, end);
    ScriptClosed(start, end);
    FormatIsOnes();
    if k <= 29 {
      EndIsRejected(start, end);
    } else if AcceptsRange(Filter(start, end), Mask(start, end), start, end) {
      LowBitsIgnored(Filter(start, end), Mask(start, end), start, end);
      BandNotEmpty(29, k);
    }
  }

  lemma EndIsRejected(start: nat, end: nat)
    requires start <= end && end > EXTENDED && Level(start, end) <= 29
    ensures !AcceptsRange(Filter(start, end), Mask(start, end), start, end)
  {
    hide And, Xor, Level, Shr, Shl, Filter, Mask, FormatBits, SameBlock;
    var k := Level(start, end);
    ScriptClosed(start, end);
    FormatIsOnes();
    BandMask(end, k, 29);
    RangeInBlock(start, end, end);
    SameBlockScaled(start, end, k);
    SameBlockScaled(And(end, Ones(29)), end, k);
    BlocksDoNotCross(And(end, Ones(29)), end, k, 29);
    assert !Accepted(Filter(start, end), Mask(start, end), end);
  }

  /** The script prints a result exactly for the nonempty ranges of 29-bit identifiers. */
  lemma PrintsExactlyFor29Bits(start: nat, end: nat)
    ensures Calculate(start, end).Printed? <==> start <= end <= EXTENDED
    ensures Calculate(start, end).EmptyRange? <==> start > end
    ensures Calculate(start, end).Printed? ==> forall id: nat | id <= FormatBits(start, end) ::
      Accepted(Calculate(start, end).filter, Calculate(start, end).mask, id) <==> SameBlock(Level(start, end), start, id)
  {
    hide Accepted, Filter, Mask, FormatBits, SameBlock, Level;
    if start <= end {
      if end <= EXTENDED {
        RangeFitsFormat(start, end);
        forall id: nat | id <= FormatBits(start, end)
          ensures Accepted(Filter(start, end), Mask(start, end), id) <==> SameBlock(Level(start, end), start, id)
        {
          AcceptsExactlyTheBlock(start, end, id);
        }
        forall id | start <= id <= end ensures Accepted(Filter(start, end), Mask(start, end), id) {
          AcceptsExactlyTheBlock(start, end, id);
          RangeInBlock(start, end, id);
        }
      } else {
        LongRangeIsRejected(start, end);
      }
    }
  }
}
