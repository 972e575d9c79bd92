/** The score axis of the Pareto chart: the search for a round step, over exact reals. */
module Axis {
  import opened Decimal
  import opened Wrappers

  const MAX_TICKS := 6
  const MAX_LABEL := 6
  const MAX_DECIMALS := 20

  // ---- round steps ------------------------------------------------------------------

  function Mantissa(i: int): real {
    if i == 0 then 1.0 else if i == 1 then 2.0 else if i == 2 then 2.5 else 5.0
  }

  /** 1, 2, 2.5 or 5 times a power of ten. */
  function Step(k: int, i: int): (r: real)
    ensures r > 0.0
  {
    Mantissa(i) * Pow10(k)
  }

  /** The places a step needs. */
  function StepPlaces(k: int, i: int): nat {
    var d := -k + if i == 2 then 1 else 0;
    if d > 0 then d else 0
  }

  /** The round steps are one, two, two and a half and five times every power of ten. */
  lemma RoundStepsAre(step: real)
    ensures (exists k, i :: 0 <= i < 4 && step == Step(k, i)) <==>
            exists k :: step in {Pow10(k), 2.0 * Pow10(k), 2.5 * Pow10(k), 5.0 * Pow10(k)}
  {
    if k, i :| 0 <= i < 4 && step == Step(k, i) {
      assert step in {Pow10(k), 2.0 * Pow10(k), 2.5 * Pow10(k), 5.0 * Pow10(k)};
    }
    if k :| step in {Pow10(k), 2.0 * Pow10(k), 2.5 * Pow10(k), 5.0 * Pow10(k)} {
      assert step in {Step(k, 0), Step(k, 1), Step(k, 2), Step(k, 3)};
    }
  }

  /** (k, i) comes before (l, j) in search order. */
  predicate Earlier(k: int, i: int, l: int, j: int) { k < l || (k == l && i < j) }

  lemma StepOrder(k: int, i: int, l: int, j: int)
    requires 0 <= i < 4 && 0 <= j < 4 && Earlier(k, i, l, j)
    ensures Step(k, i) < Step(l, j)
  {
    if k < l {
      Pow10Next(k);
      Pow10Grows(k + 1, l);
      assert Step(k, i) <= 5.0 * Pow10(k);
      assert Pow10(l) <= Step(l, j);
    }
  }

  function BeforeK(k: int, i: int): int { if i > 0 then k else k - 1 }
  function BeforeI(i: int): int { if i > 0 then i - 1 else 3 }

  /** Neighbouring steps are at most a factor of two apart. */
  lemma StepRatio(k: int, i: int)
    requires 0 <= i < 4
    ensures Step(k, i) <= 2.0 * Step(BeforeK(k, i), BeforeI(i))
  {
    Pow10Next(k - 1);
  }

  /** A step is a whole number of units in its last place. */
  function StepUnits(k: int, i: int): nat {
    if i == 2 then (if k >= 1 then 25 * TenTo(k - 1) else 25)
    else (if i == 0 then 1 else if i == 1 then 2 else 5) * if k >= 0 then TenTo(k) else 1
  }

  lemma StepIsUnits(k: int, i: int)
    requires 0 <= i < 4
    ensures Step(k, i) == Places(StepUnits(k, i), StepPlaces(k, i))
  {
    if k >= 1 {
      TenToIsPow10(k - 1);
      TenToIsPow10(k);
    } else if k < 0 {
      PowInverse(-k);
      Pow10Next(-k);
      OneOver(Pow10(k), Pow10(-k), Mantissa(i));
    }
  }

  lemma OneOver(a: real, b: real, m: real)
    requires a * b == 1.0 && b > 0.0
    ensures m * a == m / b && m * a == (10.0 * m) / (10.0 * b)
  {
    assert (m * a) * b == m * (a * b);
  }

  lemma {:induction false} PowInverse(d: nat)
    ensures Pow10(0 - d) * Pow10(d) == 1.0
  {
    if d > 0 {
      PowInverse(d - 1);
      assert Pow10(0 - d) == Pow10(0 - (d - 1)) / 10.0;
      assert Pow10(d) == 10.0 * Pow10(d - 1);
    }
  }

  /** Multiples of a step are printed exactly with the step's places. */
  lemma MultipleIsUnits(m: int, k: int, i: int)
    requires 0 <= i < 4
    ensures Times(m, Step(k, i)) == Places(m * StepUnits(k, i), StepPlaces(k, i))
  {
    StepIsUnits(k, i);
    TimesPlaces(m, StepUnits(k, i), StepPlaces(k, i));
  }

  lemma TimesPlaces(m: int, u: int, d: nat)
    ensures Times(m, Places(u, d)) == Places(m * u, d)
  {
    var q, p := Places(u, d), Pow10(d);
    assert q * p == u as real;
    assert (m * u) as real == m as real * u as real;
    assert (m as real * q) * p == m as real * (q * p);
  }

  lemma StepRounds(k: int, i: int)
    requires 0 <= i < 4
    ensures RoundTo(Step(k, i), StepPlaces(k, i)) == Step(k, i)
  {
    StepIsUnits(k, i);
    UnitsExact(StepUnits(k, i), StepPlaces(k, i));
  }

  lemma MultipleRounds(m: int, k: int, i: int)
    requires 0 <= i < 4
    ensures RoundTo(Times(m, Step(k, i)), StepPlaces(k, i)) == Times(m, Step(k, i))
  {
    MultipleIsUnits(m, k, i);
    UnitsExact(m * StepUnits(k, i), StepPlaces(k, i));
  }

  lemma Tenfold(x: real, p: real, q: real)
    requires q == 10.0 * p
    ensures x * q == 10.0 * (x * p)
  {
  }

  lemma ScaledNext(x: real, d: nat)
    ensures Scaled(x, d + 1) == 10.0 * Scaled(x, d)
  {
    Pow10Next(d);
    Tenfold(x, Pow10(d), Pow10(d + 1));
  }

  lemma ScaledTimes(m: real, x: real, d: nat)
    ensures Scaled(m * x, d) == m * Scaled(x, d)
  {
    Regroup(m, x, Pow10(d));
  }

  lemma Regroup(a: real, b: real, c: real)
    ensures (a * b) * c == a * (b * c)
  {
  }

  lemma {:induction false} PowSum(k: int, d: nat)
    ensures Scaled(Pow10(k), d) == Pow10(k + d)
    decreases d
  {
    if d > 0 {
      PowSum(k, d - 1);
      ScaledNext(Pow10(k), d - 1);
      Pow10Next(k + d - 1);
    } else {
      Unscaled(Pow10(k));
    }
  }

  lemma Unscaled(x: real)
    ensures Scaled(x, 0) == x
  {
  }

  lemma ScaledStep(k: int, i: int, d: nat)
    ensures Scaled(Step(k, i), d) == Step(k + d, i)
  {
    PowSum(k, d);
    ScaledTimes(Mantissa(i), Pow10(k), d);
  }

  lemma SmallStepIsNotWhole(k: int, i: int)
    requires 0 <= i < 4 && (k < 0 || (k == 0 && i == 2))
    ensures 0.0 < Step(k, i) < 1.0 || Step(k, i) == 2.5
  {
    assert Pow10(-1) == 0.1 && Pow10(0) == 1.0;
    if k < 0 {
      Pow10Grows(k, -1);
    }
  }

  /** And no fewer places would do: with less, no number is the step. */
  lemma NoFewerPlaces(k: int, i: int, d: nat, n: int)
    requires 0 <= i < 4 && d < StepPlaces(k, i)
    ensures Places(n, d) != Step(k, i)
  {
    ScaledPlaces(n, d);
    ScaledStep(k, i, d);
    SmallStepIsNotWhole(k + d, i);
    NotWhole(n, Step(k + d, i));
  }

  lemma NotWhole(n: int, x: real)
    requires 0.0 < x < 1.0 || x == 2.5
    ensures n as real != x
  {
    assert n as real == 2.5 ==> n == 2 || n >= 3 || n <= 1;
  }

  // ---- the decade of a range ------------------------------------------------------------

  /** The exponent of the power of ten just below x. */
  function Decade(x: real): (k: int)
    requires x > 0.0
    ensures Pow10(k) <= x < Pow10(k + 1)
    decreases if x >= 10.0 then x.Floor else if x < 1.0 then (1.0 / x).Floor else 0
  {
    if x >= 10.0 then
      var k := Decade(x / 10.0);
      Pow10Next(k);
      Pow10Next(k + 1);
      k + 1
    else if x < 1.0 then
      InverseShrinks(x);
      var k := Decade(x * 10.0);
      Pow10Next(k - 1);
      Pow10Next(k);
      k - 1
    else 0
  }

  lemma InverseShrinks(x: real)
    requires 0.0 < x < 1.0
    ensures x * 10.0 < 1.0 ==> (1.0 / (x * 10.0)).Floor < (1.0 / x).Floor
    ensures 1.0 / x >= 1.0
  {
    var y := 1.0 / x;
    assert y * x == 1.0;
    assert y >= 1.0;
    var z := 1.0 / (x * 10.0);
    assert z * (x * 10.0) == 1.0;
    assert (z * 10.0) * x == 1.0;
    assert z * 10.0 == y;
  }

  // ---- ticks ----------------------------------------------------------------------------

  function Ceil(x: real): int { -((-x).Floor) }

  /** Rounding to nine places, as the code does before each ceiling. */
  function Snap(x: real): real { RoundTo(x, 9) }

  /** The m-th multiple of the step. */
  function Times(m: int, step: real): real { m as real * step }

  function CeilOver(x: real, step: real): int
    requires step > 0.0
  {
    Ceil(Snap(x / step))
  }

  function First(low: real, step: real): int
    requires step > 0.0
  {
    CeilOver(low, step)
  }

  /** The last tick, stepped up once when the rounded quotient fell short of the top. */
  function Last(high: real, step: real): int
    requires step > 0.0
  {
    var last := CeilOver(high, step);
    if Times(last, step) < high then last + 1 else last
  }

  function TickCount(low: real, high: real, step: real): int
    requires step > 0.0
  {
    Last(high, step) - First(low, step) + 1
  }

  lemma SnapCeil(x: real)
    ensures Ceil(Snap(x)) == Ceil(x) || Ceil(Snap(x)) == Ceil(x) - 1
    ensures Ceil(Snap(x)) == Ceil(x) - 1 ==> (Ceil(x) - 1) as real < x <= (Ceil(x) - 1) as real + 0.0000000005
  {
    var c := Ceil(x);
    UnitsMonotone(x, c as real, 9);
    IntegerUnits(c);
    IntegerUnits(c - 1);
    UnitsMonotone((c - 1) as real, x, 9);
    UnitsNear(x, 9);
    Nine();
    var u := Units(x, 9);
    assert Snap(x) == u as real / 1000000000.0;
    assert (c - 1) as real <= Snap(x) <= c as real;
    if Ceil(Snap(x)) == c - 1 {
      assert Snap(x) == (c - 1) as real;
    }
  }

  lemma Nine()
    ensures Pow10(9) == 1000000000.0
  {
    Pow10Next(0);
    Pow10Next(1);
    Pow10Next(2);
    Pow10Next(3);
    Pow10Next(4);
    Pow10Next(5);
    Pow10Next(6);
    Pow10Next(7);
    Pow10Next(8);
  }

  lemma IntegerUnits(n: int)
    ensures Units(n as real, 9) == n * 1000000000
  {
    Nine();
    assert Places(n * 1000000000, 9) == n as real;
    UnitsExact(n * 1000000000, 9);
  }

  predicate Covers(m: int, step: real, high: real) { Times(m, step) >= high }

  /** The single correction undoes whatever the rounding did: the top is the least multiple of
      the step at or above the highest score. */
  lemma LastIsLeastCover(high: real, step: real)
    requires step > 0.0
    ensures Last(high, step) == Ceil(high / step)
    ensures Covers(Last(high, step), step, high)
    ensures forall m :: Covers(m, step, high) ==> m >= Last(high, step)
  {
    SnapCeil(high / step);
    CeilCovers(high, step);
    var c := Ceil(high / step);
    forall m | Covers(m, step, high) ensures m >= c {
      if m < c {
        TimesOrder(m, c - 1, step);
      }
    }
  }

  /** The correction covers the highest score from any quotient off by at most 5e-10 before the
      ceiling, not just from the rounded one, and overshoots by at most one step. */
  lemma CorrectionCovers(high: real, step: real, quotient: real)
    requires step > 0.0 && -0.0000000005 <= quotient - high / step <= 0.0000000005
    ensures var last := if Covers(Ceil(quotient), step, high) then Ceil(quotient) else Ceil(quotient) + 1;
            && Covers(last, step, high)
            && Ceil(high / step) <= last <= Ceil(high / step) + 1
            && (last == Ceil(high / step) <==> Ceil(quotient) <= Ceil(high / step))
  {
    var least := Ceil(high / step);
    CeilBounds(high / step);
    CeilBounds(quotient);
    CeilCovers(high, step);
    TimesOrder(least, least + 1, step);
    if Covers(least - 1, step, high) {
      assert false;
    }
  }

  lemma TimesOrder(m: int, n: int, step: real)
    requires step > 0.0 && m <= n
    ensures Times(m, step) <= Times(n, step)
    ensures m < n ==> Times(m, step) < Times(n, step)
  {
    Stretch(m as real, n as real, step);
  }

  lemma TimesBelow(m: int, y: real, step: real)
    requires step > 0.0
    ensures (m as real) < y ==> Times(m, step) < y * step
    ensures m as real >= y ==> Times(m, step) >= y * step
  {
  }

  lemma CeilCovers(high: real, step: real)
    requires step > 0.0
    ensures Covers(Ceil(high / step), step, high) && !Covers(Ceil(high / step) - 1, step, high)
  {
    Quotient(high, step);
    CeilBounds(high / step);
    TimesBelow(Ceil(high / step), high / step, step);
    TimesBelow(Ceil(high / step) - 1, high / step, step);
  }

  lemma CeilBounds(x: real)
    ensures (Ceil(x) - 1) as real < x <= Ceil(x) as real
  {
  }

  lemma Quotient(a: real, s: real)
    requires s > 0.0
    ensures (a / s) * s == a
  {
  }

  lemma Stretch(a: real, b: real, s: real)
    requires a <= b && s > 0.0
    ensures a * s <= b * s
  {
  }

  lemma StretchStrict(a: real, b: real, s: real)
    requires a < b && s > 0.0
    ensures a * s < b * s
  {
  }

  // ---- how many ticks a step needs -----------------------------------------------------------

  lemma CountBounds(low: real, high: real, step: real)
    requires step > 0.0
    ensures (high - low) / step - 1.0 < (TickCount(low, high, step) - 1) as real < (high - low) / step + 2.0
  {
    LastIsLeastCover(high, step);
    SnapCeil(low / step);
    var x, y := low / step, high / step;
    DifferenceOver(high, low, step);
    assert (Ceil(x) - 1) as real < x <= Ceil(x) as real;
    assert (Ceil(y) - 1) as real < y <= Ceil(y) as real;
  }

  lemma DifferenceOver(a: real, b: real, s: real)
    requires s > 0.0
    ensures (a - b) / s == a / s - b / s
  {
  }

  lemma Enough(low: real, high: real, step: real)
    requires step > 0.0 && high - low <= 4.0 * step
    ensures TickCount(low, high, step) <= MAX_TICKS
  {
    CountBounds(low, high, step);
    var q := (high - low) / step;
    Quotient(high - low, step);
    if q > 4.0 {
      StretchStrict(4.0, q, step);
    }
  }

  lemma TooMany(low: real, high: real, step: real)
    requires step > 0.0 && high - low >= 7.0 * step
    ensures TickCount(low, high, step) > MAX_TICKS
  {
    CountBounds(low, high, step);
    var q := (high - low) / step;
    Quotient(high - low, step);
    if q < 7.0 {
      StretchStrict(q, 7.0, step);
    }
  }

  lemma MoreThanSix(low: real, high: real, step: real)
    requires step > 0.0 && TickCount(low, high, step) > MAX_TICKS
    ensures high - low > 4.0 * step
  {
    if high - low <= 4.0 * step {
      Enough(low, high, step);
    }
  }

  lemma AtLeastThree(low: real, high: real, step: real)
    requires step > 0.0 && high - low > 2.0 * step
    ensures TickCount(low, high, step) >= 3
  {
    CountBounds(low, high, step);
    var q := (high - low) / step;
    Quotient(high - low, step);
    if q <= 2.0 {
      Stretch(q, 2.0, step);
    }
  }

  /** Steps two decades below the range are far too small. */
  lemma SmallSteps(low: real, high: real, k: int, i: int)
    requires high > low && 0 <= i < 4 && k <= Decade(high - low) - 2
    ensures TickCount(low, high, Step(k, i)) > MAX_TICKS
  {
    var top := Decade(high - low);
    Pow10Grows(k, top - 2);
    Pow10Next(top - 2);
    Pow10Next(top - 1);
    assert Step(k, i) <= 5.0 * Pow10(k);
    TooMany(low, high, Step(k, i));
  }

  /** One step of the next decade is enough. */
  lemma LargeStep(low: real, high: real)
    requires high > low
    ensures TickCount(low, high, Step(Decade(high - low) + 1, 0)) <= MAX_TICKS
  {
    Enough(low, high, Step(Decade(high - low) + 1, 0));
  }

  // ---- the search ------------------------------------------------------------------------------

  datatype Nice = Nice(step: real, decimals: nat, first: int, last: int)

  ghost predicate IsRound(step: real, decimals: nat) {
    exists k, i :: 0 <= i < 4 && step == Step(k, i) && decimals == StepPlaces(k, i)
  }

  /** No round step at all, over every power of ten, is smaller and still needs at most six ticks. */
  ghost predicate Smallest(low: real, high: real, step: real) {
    forall k, i :: 0 <= i < 4 && TickCount(low, high, Step(k, i)) <= MAX_TICKS ==> step <= Step(k, i)
  }

  /** Everything before (k, i) in search order needs too many ticks. */
  ghost predicate AllTooSmall(low: real, high: real, k: int, i: int) {
    forall l, j :: 0 <= j < 4 && Earlier(l, j, k, i) ==> TickCount(low, high, Step(l, j)) > MAX_TICKS
  }

  lemma StartTooSmall(low: real, high: real)
    requires high > low
    ensures AllTooSmall(low, high, Decade(high - low) - 2, 0)
  {
    var start := Decade(high - low) - 2;
    forall l, j | 0 <= j < 4 && Earlier(l, j, start, 0) ensures TickCount(low, high, Step(l, j)) > MAX_TICKS {
      SmallSteps(low, high, l, j);
    }
  }

  lemma NextTooSmall(low: real, high: real, k: int, i: int)
    requires 0 <= i < 4 && AllTooSmall(low, high, k, i) && TickCount(low, high, Step(k, i)) > MAX_TICKS
    ensures AllTooSmall(low, high, k, i + 1)
    ensures i == 3 ==> AllTooSmall(low, high, k + 1, 0)
  {
    forall l, j | 0 <= j < 4 && (Earlier(l, j, k, i + 1) || (i == 3 && Earlier(l, j, k + 1, 0)))
      ensures TickCount(low, high, Step(l, j)) > MAX_TICKS
    {
      assert Earlier(l, j, k, i) || (l == k && j == i);
    }
  }

  lemma FoundSmallest(low: real, high: real, k: int, i: int)
    requires high > low && 0 <= i < 4 && AllTooSmall(low, high, k, i)
    requires TickCount(low, high, Step(k, i)) <= MAX_TICKS
    ensures Smallest(low, high, Step(k, i))
    ensures 3 <= TickCount(low, high, Step(k, i))
  {
    forall l, j | 0 <= j < 4 && TickCount(low, high, Step(l, j)) <= MAX_TICKS ensures Step(k, i) <= Step(l, j) {
      if l != k || j != i {
        assert !Earlier(l, j, k, i);
        StepOrder(k, i, l, j);
      }
    }
    var l, j := BeforeK(k, i), BeforeI(i);
    assert Earlier(l, j, k, i);
    MoreThanSix(low, high, Step(l, j));
    StepRatio(k, i);
    AtLeastThree(low, high, Step(k, i));
  }

  /** The smallest round step that needs at most six ticks, with its first and last tick. */
  ghost predicate IsNice(low: real, high: real, n: Nice) {
    && IsRound(n.step, n.decimals) && n.step > 0.0 && Smallest(low, high, n.step)
    && n.first == First(low, n.step) && n.last == Last(high, n.step)
    && 3 <= n.last - n.first + 1 <= MAX_TICKS
  }

  /** There is only one, so what is said of it below is said of the two scores. */
  lemma NiceIsUnique(low: real, high: real, a: Nice, b: Nice)
    requires IsNice(low, high, a) && IsNice(low, high, b)
    ensures a == b
  {
    var k, i :| 0 <= i < 4 && a.step == Step(k, i) && a.decimals == StepPlaces(k, i);
    var l, j :| 0 <= j < 4 && b.step == Step(l, j) && b.decimals == StepPlaces(l, j);
    assert TickCount(low, high, Step(k, i)) <= MAX_TICKS && TickCount(low, high, Step(l, j)) <= MAX_TICKS;
    if Earlier(k, i, l, j) {
      StepOrder(k, i, l, j);
    } else if Earlier(l, j, k, i) {
      StepOrder(l, j, k, i);
    }
  }

  /** The scores are apart by at least 10^-17. */
  predicate Apart(low: real, high: real) { low < high && Decade(high - low) >= -17 }

  /** The step needs three to six ticks, and every smaller round step more than six. */
  lemma SixTicks(low: real, high: real, n: Nice, step: real, decimals: nat)
    requires IsNice(low, high, n) && IsRound(step, decimals) && step < n.step
    ensures 3 <= n.last - n.first + 1 <= 6
    ensures Last(high, step) - First(low, step) + 1 > 6
  {
    var k, i :| 0 <= i < 4 && step == Step(k, i) && decimals == StepPlaces(k, i);
    assert TickCount(low, high, Step(k, i)) > MAX_TICKS;
  }

  /** In plain terms. */
  lemma ApartMeans(low: real, high: real)
    ensures Apart(low, high) <==> high - low >= Pow10(-17)
  {
    if low < high {
      RangeThreshold(high - low);
    }
  }

  method LastTick(high: real, step: real, decimals: nat) returns (last: int)
    requires step > 0.0
    requires RoundTo(Times(CeilOver(high, step), step), decimals) == Times(CeilOver(high, step), step)
    ensures last == Last(high, step)
  {
    last := CeilOver(high, step);
    if RoundTo(Times(last, step), decimals) < high {
      last := last + 1;
    }
  }

  /** One candidate: round it, count its ticks, keep it when they are few enough. */
  method TryStep(low: real, high: real, k: int, i: int, decimals: nat) returns (r: Option<Nice>)
    requires 0 <= i < 4 && decimals == StepPlaces(k, i)
    ensures r.Some? <==> TickCount(low, high, Step(k, i)) <= MAX_TICKS
    ensures r.Some? ==> r.value == Nice(Step(k, i), decimals, First(low, Step(k, i)), Last(high, Step(k, i)))
  {
    StepRounds(k, i);
    var step := RoundTo(Step(k, i), decimals);
    assert step == Step(k, i);
    var first := CeilOver(low, step);
    MultipleRounds(CeilOver(high, step), k, i);
    var last := LastTick(high, step, decimals);
    if last - first + 1 <= MAX_TICKS {
      return Some(Nice(step, decimals, first, last));
    }
    return None;
  }

  /** Finds a step exactly when the range is at least 10^-17. The step is then the smallest
      1/2/2.5/5 x 10^k of all that needs at most six ticks, at least three are drawn, and the
      last tick is the least multiple of the step at or above the highest score. */
  method NiceStep(low: real, high: real) returns (r: Option<Nice>)
    ensures r.Some? <==> Apart(low, high)
    ensures r.Some? ==> IsNice(low, high, r.value)
  {
    var range := high - low;
    if range <= 0.0 {
      return None;
    }
    var start := Decade(range) - 2;
    var exponent := start;
    StartTooSmall(low, high);
    while exponent <= start + 4
      invariant start <= exponent <= start + 5
      invariant AllTooSmall(low, high, exponent, 0)
      invariant exponent > start ==> start >= -19
    {
      var i := 0;
      while i < 4
        invariant 0 <= i <= 4
        invariant if i < 4 then AllTooSmall(low, high, exponent, i) else AllTooSmall(low, high, exponent + 1, 0)
        invariant exponent > start || i > 2 ==> start >= -19
      {
        var decimals := StepPlaces(exponent, i);
        if decimals > MAX_DECIMALS {
          return None;
        }
        var nice := TryStep(low, high, exponent, i, decimals);
        if nice.Some? {
          assert exponent > start by {
            SmallSteps(low, high, start, i);
          }
          FoundSmallest(low, high, exponent, i);
          return nice;
        }
        NextTooSmall(low, high, exponent, i);
        i := i + 1;
      }
      exponent := exponent + 1;
    }
    LargeStep(low, high);
    assert Earlier(start + 3, 0, exponent, 0);
    return None;
  }

  /** The threshold in plain terms. */
  lemma RangeThreshold(range: real)
    requires range > 0.0
    ensures Decade(range) >= -17 <==> range >= Pow10(-17)
  {
    if Decade(range) >= -17 {
      Pow10Grows(-17, Decade(range));
    } else {
      Pow10Grows(Decade(range) + 1, -17);
    }
  }
}
