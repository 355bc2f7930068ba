/**
The running statistic: largest, smallest, sum, sum of squares and number of the values
seen, in 64-bit words that are halved together whenever one of them would overflow.
*/
module Stats {
  import opened MachineWords

  const UINT64_MAX: Word := 0xFFFF_FFFF_FFFF_FFFF
  const AMSTAT_MAX_SSQ_VAL: Word := 0xFFFF_FFFF

  // What the words stand for

  /**
  True totals, halved at each overflow without rounding. Once squares cannot be added up
  any more the statistic is `saturated`.
  */
  datatype Totals = Totals(sum: real, num: real, ssq: real, saturated: bool, halvings: nat)

  ghost predicate TooLarge(t: Totals, v: Word) {
    t.saturated || v > AMSTAT_MAX_SSQ_VAL
  }

  ghost function Square(t: Totals, v: Word): int {
    if TooLarge(t, v) then 0 else v * v
  }

  /** A word would not hold its total with `v` added. */
  ghost predicate Overflows(t: Totals, v: Word) {
    || t.num.Floor == UINT64_MAX
    || t.sum.Floor + v >= TWO64
    || (!TooLarge(t, v) && t.ssq.Floor + v * v >= TWO64)
  }

  ghost function Added(t: Totals, v: Word): Totals {
    var share := if Overflows(t, v) then 2.0 else 1.0;
    var ssq := (t.ssq + Square(t, v) as real) / share;
    Totals((t.sum + v as real) / share, (t.num + 1.0) / share, ssq, TooLarge(t, v) || ssq.Floor == UINT64_MAX,
           if Overflows(t, v) then t.halvings + 1 else t.halvings)
  }

  ghost function Over(vals: seq<Word>): Totals {
    if vals == [] then Totals(0.0, 0.0, 0.0, false, 0) else Added(Over(vals[..|vals| - 1]), vals[|vals| - 1])
  }

  // The words

  datatype Words = Words(sum: int, ssq: int, num: int)

  ghost function Rounded(t: Totals): Words {
    Words(t.sum.Floor, if t.saturated then UINT64_MAX else t.ssq.Floor, t.num.Floor)
  }

  /** What adding to the words, or halving them, makes of them. */
  ghost function Accumulated(w: Words, v: Word, square: Word): Words {
    if w.num == UINT64_MAX || w.sum + v >= TWO64 || w.ssq + square >= TWO64 then
      Words((w.sum + v) / 2, if w.ssq == UINT64_MAX then UINT64_MAX else (w.ssq + square) / 2, (w.num + 1) / 2)
    else Words(w.sum + v, w.ssq + square, w.num + 1)
  }

  /** The words after the value `v`. */
  ghost function Updated(w: Words, v: Word): Words {
    if w.ssq == UINT64_MAX || v > AMSTAT_MAX_SSQ_VAL then Accumulated(w.(ssq := UINT64_MAX), v, 0)
    else
      SquareFits(v, AMSTAT_MAX_SSQ_VAL);
      Accumulated(w, v, v * v)
  }

  /** The totals fit, and a sum of squares at the top of its range counts as saturated. */
  ghost predicate Fits(t: Totals) {
    && 0 <= t.sum.Floor < TWO64 && 0 <= t.num.Floor < TWO64 && 0 <= t.ssq.Floor < TWO64
    && (!t.saturated ==> t.ssq.Floor != UINT64_MAX)
  }

  // Arithmetic

  /** The sum of two words has wrapped exactly if it comes out below the first. */
  lemma WrapTest(a: Word, b: Word)
    ensures (a + b) % TWO64 < a <==> a + b >= TWO64
  {
    if a + b >= TWO64 {
      assert a + b == TWO64 + (a + b - TWO64);
      assert (a + b) % TWO64 == a + b - TWO64;
    }
  }

  lemma SquareFits(v: nat, top: nat)
    requires v <= top
    ensures v * v <= top * top
  {
    assert top * top == v * v + (top - v) * (top + v);
  }

  function Quotient(a: Word, b: Word): (q: Word)
    requires b > 0
    ensures q * b <= a < q * b + b
  {
    assert (a / b) * b + a % b == a;
    a / b
  }

  /** Rounding down first costs nothing, neither for adding a whole number nor for halving after that. */
  lemma RoundsOnce(x: real, n: int)
    ensures ((x + n as real) / 1.0).Floor == x.Floor + n
    ensures ((x + n as real) / 2.0).Floor == (x.Floor + n) / 2
  {
    var k := (x.Floor + n) / 2;
    assert k as real <= (x + n as real) / 2.0 < k as real + 1.0;
  }

  /** The words go on being the totals rounded down. */
  lemma RoundedAdded(t: Totals, v: Word)
    requires Fits(t)
    ensures Fits(Added(t, v)) && Rounded(Added(t, v)) == Updated(Rounded(t), v)
    ensures Rounded(t).num > 0 || Rounded(t).sum == 0 == Rounded(t).ssq ==> Updated(Rounded(t), v).num > 0
  {
    SquareFits(v, v);
    if !TooLarge(t, v) {
      SquareFits(v, AMSTAT_MAX_SSQ_VAL);
    }
    RoundsOnce(t.sum, v);
    RoundsOnce(t.num, 1);
    RoundsOnce(t.ssq, Square(t, v));
  }

  /** The words are the true totals rounded down. */
  ghost predicate Tracks(vals: seq<Word>, w: Words) {
    && Fits(Over(vals)) && w == Rounded(Over(vals))
    && (if vals == [] then w == Words(0, 0, 0) else w.num > 0)
  }

  lemma TracksNext(vals: seq<Word>, w: Words, v: Word)
    requires Tracks(vals, w)
    ensures Tracks(vals + [v], Updated(w, v)) && Updated(w, v).num > 0
  {
    assert (vals + [v])[..|vals|] == vals;
    RoundedAdded(Over(vals), v);
  }

  ghost predicate Extremes(vals: seq<Word>, max: Word, min: Word) {
    && (vals == [] ==> max == 0 && min == UINT64_MAX)
    && (vals != [] ==> max in vals && min in vals)
    && (forall v :: v in vals ==> min <= v <= max)
  }

  lemma ExtremesNext(vals: seq<Word>, max: Word, min: Word, v: Word)
    requires Extremes(vals, max, min)
    ensures Extremes(vals + [v], Max(max, v), Min(min, v))
  {
    assert v in vals + [v];
  }

  class AmStat {
    var max: Word
    var min: Word
    var sum: Word
    var ssq: Word
    var avg: Word
    var num: Word
    /** All values since initialization. */
    ghost var vals: seq<Word>

    ghost predicate Valid()
      reads this
    {
      && Tracks(vals, Words(sum, ssq, num))
      && Extremes(vals, max, min)
      && avg == (if num == 0 then 0 else Quotient(sum, num))
    }

    constructor ()
      ensures Valid() && vals == []
    {
      min := UINT64_MAX;
      max := 0;
      sum := 0;
      num := 0;
      avg := 0;
      ssq := 0;
      vals := [];
    }

    method Upd(val: Word)
      requires Valid()
      modifies this
      ensures Valid() && vals == old(vals) + [val]
      ensures old(ssq) == UINT64_MAX ==> ssq == UINT64_MAX
      ensures EvenHalvings(vals) <==> old(EvenHalvings(vals)) && (num == old(num) + 1 || old(num) % 2 == 1)
    {
      TracksNext(vals, Words(sum, ssq, num), val);
      EvenNext(vals, Words(sum, ssq, num), val);
      ExtremesNext(vals, max, min, val);
      if max < val {
        max := val;
      }
      if min > val {
        min := val;
      }
      AddUp(val);
      vals := vals + [val];
      avg := Quotient(sum, num);
    }

    /**
    The average never lies below the smallest value. It does not lie above the largest as
    long as every count that was halved was even; after that by no more than the largest
    value shared out over the count, since rounding the count down is all that raises it.
    */
    lemma AverageInRange()
      requires Valid() && vals != []
      ensures min <= avg
      ensures EvenHalvings(vals) ==> avg <= max
      ensures (avg - max) * num <= max
    {
      AverageBetween(vals, Words(sum, ssq, num), max, min);
    }

    method AddUp(val: Word)
      modifies this`sum, this`ssq, this`num
      ensures Words(sum, ssq, num) == Updated(old(Words(sum, ssq, num)), val)
    {
      var square := 0;
      if ssq == UINT64_MAX || val > AMSTAT_MAX_SSQ_VAL {
        ssq := UINT64_MAX;
      } else {
        SquareFits(val, AMSTAT_MAX_SSQ_VAL);
        square := val * val;
      }
      Accumulate(val, square);
    }

    /** Adds to sum, sum of squares and number, or halves them all, in unsigned arithmetic. */
    method Accumulate(val: Word, square: Word)
      requires ssq == UINT64_MAX ==> square == 0
      modifies this`sum, this`ssq, this`num
      ensures Words(sum, ssq, num) == Accumulated(old(Words(sum, ssq, num)), val, square)
    {
      WrapTest(sum, val);
      WrapTest(ssq, square);
      if num == UINT64_MAX || (sum + val) % TWO64 < sum || (ssq + square) % TWO64 < ssq {
        sum := (sum + val) / 2;
        if ssq != UINT64_MAX {
          ssq := (ssq + square) / 2;
        }
        if num == UINT64_MAX {
          num := UINT64_MAX / 2 + 1;
        } else {
          num := num + 1;
          num := num / 2;
        }
      } else {
        sum := sum + val;
        ssq := ssq + square;
        num := num + 1;
      }
    }
  }

  // The average

  /** `x`, `n` times. */
  ghost function Times(n: nat, x: real): real {
    if n == 0 then 0.0 else Times(n - 1, x) + x
  }

  lemma {:induction false} TimesSum(n: nat, x: real, y: real)
    ensures Times(n, x + y) == Times(n, x) + Times(n, y)
  {
    if n > 0 {
      TimesSum(n - 1, x, y);
    }
  }

  lemma {:induction false} TimesWhole(n: nat, k: int)
    ensures Times(n, k as real) == (n * k) as real
  {
    if n > 0 {
      TimesWhole(n - 1, k);
      assert n * k == (n - 1) * k + k;
    }
  }

  lemma {:induction false} TimesUp(n: nat, x: real, y: real)
    requires x <= y
    ensures Times(n, x) <= Times(n, y)
  {
    if n > 0 {
      TimesUp(n - 1, x, y);
    }
  }

  /** The mean of the totals lies between `low` and `high`. */
  ghost predicate MeanBetween(t: Totals, low: nat, high: nat) {
    Times(low, t.num) <= t.sum <= Times(high, t.num)
  }

  /** One more value in the range keeps it there, whether or not the totals are halved. */
  lemma AddedBetween(t: Totals, v: Word, low: Word, high: Word)
    requires low <= v <= high && MeanBetween(t, low, high)
    ensures MeanBetween(Added(t, v), low, high)
  {
    SharedTimes(low, t.num, Overflows(t, v));
    SharedTimes(high, t.num, Overflows(t, v));
  }

  lemma SharedTimes(n: nat, x: real, halve: bool)
    ensures Times(n, (x + 1.0) / if halve then 2.0 else 1.0) == (Times(n, x) + n as real) / if halve then 2.0 else 1.0
  {
    TimesSum(n, x, 1.0);
    TimesWhole(n, 1);
    TimesSum(n, (x + 1.0) / 2.0, (x + 1.0) / 2.0);
  }

  /** Halved together again and again, the true sum and number keep their mean between the extremes. */
  lemma {:induction false} OverBetween(vals: seq<Word>, low: Word, high: Word)
    requires forall v :: v in vals ==> low <= v <= high
    ensures MeanBetween(Over(vals), low, high)
    decreases |vals|
  {
    if vals == [] {
      TimesWhole(low, 0);
      TimesWhole(high, 0);
    } else {
      var before, v := vals[..|vals| - 1], vals[|vals| - 1];
      assert v in vals && forall x :: x in before ==> x in vals;
      OverBetween(before, low, high);
      AddedBetween(Over(before), v, low, high);
    }
  }

  /** This value makes the words halve an odd count. */
  ghost predicate OddHalving(t: Totals, v: Word) {
    Overflows(t, v) && t.num.Floor % 2 == 0
  }

  /** Every count that was halved was even. */
  ghost predicate EvenHalvings(vals: seq<Word>)
    decreases |vals|
  {
    vals != [] ==>
      EvenHalvings(vals[..|vals| - 1]) && !OddHalving(Over(vals[..|vals| - 1]), vals[|vals| - 1])
  }

  ghost predicate Whole(x: real) {
    x == x.Floor as real
  }

  /** Half of a number and one is whole just if the number is, and odd. */
  lemma HalfWhole(x: real)
    ensures Whole((x + 1.0) / 2.0) <==> Whole(x) && x.Floor % 2 == 1
  {
    var half := (x + 1.0) / 2.0;
    if Whole(half) {
      assert x == (2 * half.Floor - 1) as real;
    }
    if Whole(x) && x.Floor % 2 == 1 {
      assert half == ((x.Floor + 1) / 2) as real;
    }
  }

  /** The number loses a fraction exactly when an odd count is halved, and never gets it back. */
  lemma {:induction false} WholeUntilOdd(vals: seq<Word>)
    ensures Whole(Over(vals).num) <==> EvenHalvings(vals)
    decreases |vals|
  {
    if vals != [] {
      var t := Over(vals[..|vals| - 1]);
      WholeUntilOdd(vals[..|vals| - 1]);
      HalfWhole(t.num);
      RoundsOnce(t.num, 1);
    }
  }

  /** A whole number below a real is below its floor. */
  lemma BelowFloor(n: int, x: real)
    requires n as real <= x
    ensures n <= x.Floor
  {
  }

  /**
  What rounding both totals down does to their mean: it loses nothing from below, and gains
  only by the fraction of the number from above.
  */
  lemma FloorsBetween(t: Totals, low: nat, high: nat)
    requires MeanBetween(t, low, high)
    ensures low * t.num.Floor <= t.sum.Floor
    ensures Whole(t.num) ==> t.sum.Floor <= high * t.num.Floor
    ensures t.sum.Floor <= high * (t.num.Floor + 1)
  {
    var n := t.num.Floor;
    TimesUp(low, n as real, t.num);
    TimesWhole(low, n);
    BelowFloor(low * n, t.sum);
    TimesUp(high, t.num, (n + 1) as real);
    TimesWhole(high, n + 1);
    TimesWhole(high, n);
  }

  lemma OneMoreTime(p: nat, q: nat, b: nat)
    requires p < q
    ensures p * b + b <= q * b
  {
    assert q * b == (p + 1) * b + (q - p - 1) * b;
  }

  lemma BelowQuotient(q: nat, b: Word, a: Word)
    requires b > 0 && q * b <= a
    ensures q <= Quotient(a, b)
  {
    if Quotient(a, b) < q {
      OneMoreTime(Quotient(a, b), q, b);
    }
  }

  /** Bounds on a product are bounds on the quotient. */
  lemma QuotientBetween(a: Word, b: Word, low: Word, high: Word)
    requires b > 0 && low * b <= a
    ensures low <= Quotient(a, b)
    ensures a <= high * b ==> Quotient(a, b) <= high
  {
    BelowQuotient(low, b, a);
    if high < Quotient(a, b) {
      OneMoreTime(high, Quotient(a, b), b);
    }
  }

  lemma Excess(a: Word, b: Word, high: Word)
    requires b > 0 && a <= high * (b + 1)
    ensures (Quotient(a, b) - high) * b <= high
  {
    var q := Quotient(a, b);
    assert (q - high) * b == q * b - high * b && high * (b + 1) == high * b + high;
  }

  lemma AverageBetween(vals: seq<Word>, w: Words, max: Word, min: Word)
    requires Tracks(vals, w) && Extremes(vals, max, min) && vals != []
    ensures min <= Quotient(w.sum, w.num)
    ensures EvenHalvings(vals) ==> Quotient(w.sum, w.num) <= max
    ensures (Quotient(w.sum, w.num) - max) * w.num <= max
  {
    OverBetween(vals, min, max);
    WholeUntilOdd(vals);
    FloorsBetween(Over(vals), min, max);
    QuotientBetween(w.sum, w.num, min, max);
    Excess(w.sum, w.num, max);
  }

  /** For one value seen again and again, the average lies above it exactly if the fraction lost to rounding weighs enough. */
  lemma SteadyAverage(vals: seq<Word>, w: Words, v: Word)
    requires Tracks(vals, w) && vals != [] && forall x :: x in vals ==> x == v
    ensures Quotient(w.sum, w.num) > v <==> Times(v, Over(vals).num - w.num as real) >= w.num as real
  {
    var num, sum := Over(vals).num, Over(vals).sum;
    OverBetween(vals, v, v);
    TimesSum(v, w.num as real, num - w.num as real);
    TimesWhole(v, w.num);
    assert sum == (v * w.num) as real + Times(v, num - w.num as real);
    assert (v + 1) * w.num == v * w.num + w.num;
    if Quotient(w.sum, w.num) > v {
      AtLeast(v + 1, w.num, w.sum);
    } else if sum >= ((v + 1) * w.num) as real {
      BelowFloor((v + 1) * w.num, sum);
      BelowQuotient(v + 1, w.num, w.sum);
    }
  }

  lemma AtLeast(q: nat, b: Word, a: Word)
    requires b > 0 && q <= Quotient(a, b)
    ensures q * b <= a
  {
    if q < Quotient(a, b) {
      OneMoreTime(q, Quotient(a, b), b);
    }
  }

  /** A value that leads to a halving is one after which the number is not just one more. */
  lemma EvenNext(vals: seq<Word>, w: Words, v: Word)
    requires Tracks(vals, w)
    ensures EvenHalvings(vals + [v]) <==>
      EvenHalvings(vals) && (Updated(w, v).num == w.num + 1 || w.num % 2 == 1)
  {
    assert (vals + [v])[..|vals|] == vals;
    RoundedAdded(Over(vals), v);
    RoundsOnce(Over(vals).num, 1);
  }

  /** The first odd count that can be halved, and what comes of it. */
  lemma AverageMayExceedMax()
    ensures var v: Word := TWO63 - 1;
      var w := Rounded(Over([v, v, v]));
      w.num > 0 && w.sum / w.num > v && !EvenHalvings([v, v, v])
  {
    var v: Word := TWO63 - 1;
    assert [v, v, v][..2] == [v, v] && [v, v][..1] == [v] && [v][..0] == [];
    RoundedAdded(Over([]), v);
    RoundedAdded(Over([v]), v);
    RoundedAdded(Over([v, v]), v);
  }
}
