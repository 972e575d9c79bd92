/** The drawn score axis: round ticks when they are safe to print, the two ends otherwise. */
module ScoreTicks {
  import opened Decimal
  import opened Axis
  import opened Sequences
  import opened Wrappers

  datatype Tick = Tick(position: real, value: real, text: string)

  datatype Scale = Scale(low: real, top: real, ticks: seq<Tick>)

  /** Linear placement of a value on the axis. */
  function Normalize(value: real, low: real, top: real): real {
    if low == top then 0.5 else (value - low) / (top - low)
  }

  /** The value at a position, the other way round. */
  function AtScale(t: real, low: real, top: real): real {
    if low == top then low else low + t * (top - low)
  }

  /** On an axis of one value everything is drawn in the middle, and the middle is that value. */
  lemma OneValueInTheMiddle(value: real, low: real, t: real)
    ensures Normalize(value, low, low) == 0.5 && AtScale(t, low, low) == low
  {
  }

  lemma QuotientOrder(a: real, b: real, r: real)
    requires r > 0.0
    ensures a < b <==> a / r < b / r
  {
    var p, q := a / r, b / r;
    assert p * r == a && q * r == b;
    if p < q {
      StretchStrict(p, q, r);
    } else {
      Stretch(q, p, r);
    }
  }

  lemma QuotientEnds(r: real)
    requires r > 0.0
    ensures 0.0 / r == 0.0 && r / r == 1.0
  {
  }

  lemma NormalizeOrder(a: real, b: real, low: real, top: real)
    requires low < top
    ensures a < b <==> Normalize(a, low, top) < Normalize(b, low, top)
  {
    QuotientOrder(a - low, b - low, top - low);
  }

  lemma NormalizeEnds(low: real, top: real)
    requires low < top
    ensures Normalize(low, low, top) == 0.0 && Normalize(top, low, top) == 1.0
  {
    QuotientEnds(top - low);
  }

  lemma NormalizeInside(a: real, low: real, top: real)
    requires low < top
    ensures low <= a <= top <==> 0.0 <= Normalize(a, low, top) <= 1.0
  {
    NormalizeEnds(low, top);
    NormalizeOrder(a, low, low, top);
    NormalizeOrder(top, a, low, top);
  }

  /** A tick whose label, read back, is exactly its value. */
  ghost predicate Exact(t: Tick) {
    Read(t.text).Some? && Places(Read(t.text).value.0, Read(t.text).value.1) == t.value
  }

  /** The label of the m-th multiple of the step, with the places the step needs. */
  function Label(n: Nice, m: int): string {
    Fixed(Units(Times(m, n.step), n.decimals), n.decimals)
  }

  /** The tick for the m-th multiple of the step. */
  ghost predicate TickAt(t: Tick, m: int, n: Nice, low: real, top: real) {
    t.value == Times(m, n.step) && t.position == Normalize(t.value, low, top) && t.text == Label(n, m)
  }

  /** One tick per multiple of the step, from the first to the last. */
  ghost predicate Drawn(s: Scale, low: real, n: Nice) {
    && IsRound(n.step, n.decimals) && s.low == low && s.top == Times(n.last, n.step)
    && |s.ticks| == n.last - n.first + 1
    && forall j {:trigger DrawnAt(s.ticks, n, s.low, s.top, j)} :: DrawnAt(s.ticks, n, s.low, s.top, j)
  }

  ghost predicate DrawnAt(ticks: seq<Tick>, n: Nice, low: real, top: real, j: int) {
    0 <= j < |ticks| ==> TickAt(ticks[j], n.first + j, n, low, top)
  }

  method DrawTick(low: real, top: real, n: Nice, k: int) returns (t: Tick)
    requires IsRound(n.step, n.decimals)
    ensures TickAt(t, k, n, low, top)
  {
    RoundMultiple(k, n.step, n.decimals);
    var value := RoundTo(Times(k, n.step), n.decimals);
    t := Tick(Normalize(value, low, top), value, Fixed(Units(value, n.decimals), n.decimals));
  }

  /** The label of a multiple of the step reads back as exactly that multiple. */
  lemma LabelExact(n: Nice, m: int)
    requires IsRound(n.step, n.decimals)
    ensures Read(Label(n, m)) == Some((Units(Times(m, n.step), n.decimals), n.decimals))
    ensures Places(Units(Times(m, n.step), n.decimals), n.decimals) == Times(m, n.step)
  {
    RoundMultiple(m, n.step, n.decimals);
    FixedReads(Units(Times(m, n.step), n.decimals), n.decimals);
  }

  lemma RoundMultiple(k: int, step: real, decimals: nat)
    requires IsRound(step, decimals)
    ensures RoundTo(Times(k, step), decimals) == Times(k, step)
    ensures Places(Units(Times(k, step), decimals), decimals) == Times(k, step)
  {
    var e, i :| 0 <= i < 4 && step == Step(e, i) && decimals == StepPlaces(e, i);
    MultipleRounds(k, e, i);
  }

  lemma DrawnNext(ticks: seq<Tick>, n: Nice, low: real, top: real, t: Tick)
    requires forall j {:trigger DrawnAt(ticks, n, low, top, j)} :: DrawnAt(ticks, n, low, top, j)
    requires TickAt(t, n.first + |ticks|, n, low, top)
    ensures forall j {:trigger DrawnAt(ticks + [t], n, low, top, j)} :: DrawnAt(ticks + [t], n, low, top, j)
  {
    forall j ensures DrawnAt(ticks + [t], n, low, top, j) {
      assert DrawnAt(ticks, n, low, top, j);
    }
  }

  /** Round ticks, when there is a round step. */
  method NiceAxis(low: real, high: real) returns (r: Option<Scale>, ghost n: Nice)
    ensures r.Some? <==> Apart(low, high)
    ensures r.Some? ==> IsNice(low, high, n) && Drawn(r.value, low, n) && r.value.top >= high
  {
    var nice := NiceStep(low, high);
    if nice.None? {
      return None, Nice(1.0, 0, 0, 0);
    }
    var found := nice.value;
    n := found;
    LastIsLeastCover(high, found.step);
    RoundMultiple(found.last, found.step, found.decimals);
    var top := RoundTo(Times(found.last, found.step), found.decimals);
    var ticks := [];
    var k := found.first;
    while k <= found.last
      invariant found.first <= k <= found.last + 1 && |ticks| == k - found.first
      invariant forall j {:trigger DrawnAt(ticks, found, low, top, j)} :: DrawnAt(ticks, found, low, top, j)
    {
      var t := DrawTick(low, top, found, k);
      DrawnNext(ticks, found, low, top, t);
      ticks := ticks + [t];
      k := k + 1;
    }
    r := Some(Scale(low, top, ticks));
  }

  predicate Fits(text: string) { |text| <= MAX_LABEL }

  predicate TickIsSafe(t: Tick) { Fits(t.text) && 0.0 <= t.position <= 1.0 }

  predicate IsSafe(s: Scale, high: real) {
    && s.top >= high && |s.ticks| >= 2
    && NoRepeats(seq(|s.ticks|, i requires 0 <= i < |s.ticks| => s.ticks[i].text))
    && forall t :: t in s.ticks ==> TickIsSafe(t)
  }

  /** The i-th tick's value, place and range. */
  lemma TickPlace(s: Scale, low: real, n: Nice, i: nat)
    requires Drawn(s, low, n) && n.step > 0.0 && low < s.top && i < |s.ticks|
    ensures s.ticks[i].value == Times(n.first + i, n.step)
    ensures s.ticks[i].position == Normalize(s.ticks[i].value, low, s.top)
    ensures Times(n.first, n.step) <= s.ticks[i].value <= s.top
  {
    assert DrawnAt(s.ticks, n, s.low, s.top, i);
    TimesOrder(n.first, n.first + i, n.step);
    TimesOrder(n.first + i, n.last, n.step);
  }

  lemma TickText(s: Scale, low: real, n: Nice, i: nat)
    requires Drawn(s, low, n) && i < |s.ticks|
    ensures s.ticks[i].text == Label(n, n.first + i)
  {
    assert DrawnAt(s.ticks, n, s.low, s.top, i);
  }

  lemma LabelledExactly(t: Tick, n: Nice, m: int)
    requires IsRound(n.step, n.decimals) && t.value == Times(m, n.step) && t.text == Label(n, m)
    ensures Exact(t)
  {
    LabelExact(n, m);
    var read := Read(t.text);
    assert read == Some((Units(Times(m, n.step), n.decimals), n.decimals));
  }

  lemma TickIsExact(s: Scale, low: real, n: Nice, i: nat)
    requires Drawn(s, low, n) && n.step > 0.0 && low < s.top && i < |s.ticks|
    ensures Exact(s.ticks[i])
  {
    TickPlace(s, low, n, i);
    TickText(s, low, n, i);
    LabelledExactly(s.ticks[i], n, n.first + i);
  }

  /** Ticks climb strictly and so do their positions. */
  lemma DrawnOrder(s: Scale, low: real, n: Nice, i: nat, j: nat)
    requires Drawn(s, low, n) && n.step > 0.0 && low < s.top && i < j < |s.ticks|
    ensures s.ticks[i].value < s.ticks[j].value
    ensures s.ticks[i].position < s.ticks[j].position
  {
    TickPlace(s, low, n, i);
    TickPlace(s, low, n, j);
    TimesOrder(n.first + i, n.first + j, n.step);
    NormalizeOrder(s.ticks[i].value, s.ticks[j].value, low, s.top);
  }

  /** Exact labels never repeat. */
  lemma ExactLabels(t: Tick, u: Tick)
    requires Exact(t) && Exact(u) && t.value != u.value
    ensures t.text != u.text
  {
  }

  lemma DrawnLabels(s: Scale, low: real, n: Nice, i: nat, j: nat)
    requires Drawn(s, low, n) && n.step > 0.0 && low < s.top && i < j < |s.ticks|
    ensures s.ticks[i].text != s.ticks[j].text
  {
    TickIsExact(s, low, n, i);
    TickIsExact(s, low, n, j);
    DrawnOrder(s, low, n, i, j);
    ExactLabels(s.ticks[i], s.ticks[j]);
  }

  lemma UniqueLabels(s: Scale, low: real, n: Nice)
    requires Drawn(s, low, n) && n.step > 0.0 && low < s.top
    ensures NoRepeats(seq(|s.ticks|, i requires 0 <= i < |s.ticks| => s.ticks[i].text))
  {
    forall i, j | 0 <= i < j < |s.ticks| ensures s.ticks[i].text != s.ticks[j].text {
      DrawnLabels(s, low, n, i, j);
    }
  }

  predicate LabelFits(n: Nice, m: int) { Fits(Label(n, m)) }

  ghost predicate LabelsFit(n: Nice) {
    forall m :: n.first <= m <= n.last ==> LabelFits(n, m)
  }

  ghost predicate TextsFit(s: Scale) {
    forall t :: t in s.ticks ==> Fits(t.text)
  }

  /** Six characters. */
  lemma LabelsFitMeans(n: Nice)
    ensures LabelsFit(n) <==> forall m :: n.first <= m <= n.last ==> |Label(n, m)| <= 6
  {
    assert forall m :: LabelFits(n, m) <==> |Label(n, m)| <= 6;
  }

  lemma TextFits(s: Scale, low: real, n: Nice, i: nat)
    requires Drawn(s, low, n) && i < |s.ticks|
    ensures Fits(s.ticks[i].text) <==> LabelFits(n, n.first + i)
  {
    TickText(s, low, n, i);
  }

  lemma TextsAreLabels(s: Scale, low: real, n: Nice)
    requires Drawn(s, low, n)
    ensures LabelsFit(n) <==> TextsFit(s)
  {
    forall i: nat | i < |s.ticks| ensures Fits(s.ticks[i].text) <==> LabelFits(n, n.first + i) {
      TextFits(s, low, n, i);
    }
    if TextsFit(s) {
      forall m | n.first <= m <= n.last ensures LabelFits(n, m) {
        assert s.ticks[m - n.first] in s.ticks;
      }
    }
  }

  /** A round axis is refused exactly when rounding put its first tick below the axis, or when
      some label is too long. */
  lemma SafeWhen(s: Scale, low: real, high: real, n: Nice)
    requires Drawn(s, low, n) && n.step > 0.0 && low < high <= s.top && |s.ticks| >= 3
    ensures IsSafe(s, high) <==> low <= Times(n.first, n.step) && LabelsFit(n)
  {
    UniqueLabels(s, low, n);
    TextsAreLabels(s, low, n);
    forall t | t in s.ticks
      ensures low <= Times(n.first, n.step) ==> 0.0 <= t.position <= 1.0
    {
      var j :| 0 <= j < |s.ticks| && s.ticks[j] == t;
      TickPlace(s, low, n, j);
      NormalizeInside(t.value, low, s.top);
    }
    assert s.ticks[0] in s.ticks;
    TickPlace(s, low, n, 0);
    NormalizeInside(s.ticks[0].value, low, s.top);
  }

  // ---- when the first tick falls below the axis ----------------------------------------------

  /** How far x lies above the integer below it. */
  function Excess(x: real): real { x - x.Floor as real }

  /** Above the integer below it, but by too little to survive nine decimals. */
  predicate RoundsAway(x: real) {
    0.0 < Excess(x) && (Excess(x) < 0.0000000005 || (Excess(x) == 0.0000000005 && x < 0.0))
  }

  lemma SnapDown(x: real)
    ensures Ceil(Snap(x)) as real < x <==> RoundsAway(x)
  {
    var f := x.Floor;
    SnapCeil(x);
    Nine();
    IntegerUnits(f);
    UnitsMonotone(f as real, x, 9);
    var y := Scaled(x, 9);
    assert y == 1000000000.0 * f as real + 1000000000.0 * Excess(x);
    assert Snap(x) == Units(x, 9) as real / 1000000000.0;
    if Excess(x) > 0.0 {
      assert Ceil(x) == f + 1;
      assert Units(x, 9) == f * 1000000000 <==> RoundsAway(x);
    }
  }

  /** The first tick lies below the axis exactly when the lowest score is a sliver above a
      multiple of the step: less than half a billionth of a step, or just that when negative. */
  lemma FirstBelowWhen(low: real, step: real)
    requires step > 0.0
    ensures Times(First(low, step), step) < low <==> RoundsAway(low / step)
  {
    SnapDown(low / step);
    Quotient(low, step);
    TimesBelow(First(low, step), low / step, step);
  }

  const SLIVER_LOW := -0.19999999992
  const SLIVER_HIGH := 0.8

  /** It happens: these two scores have a round step of 0.2, and its first tick lies below them. */
  lemma FirstTickCanFallBelow() returns (n: Nice)
    ensures Apart(SLIVER_LOW, SLIVER_HIGH) && IsNice(SLIVER_LOW, SLIVER_HIGH, n)
    ensures n == Nice(0.2, 1, -1, 4) && Times(n.first, n.step) < SLIVER_LOW
  {
    n := Nice(0.2, 1, -1, 4);
    DecadeAtLeast(SLIVER_HIGH - SLIVER_LOW);
    SliverStep();
    SliverTicks();
    SliverSmallest();
    FoundSmallest(SLIVER_LOW, SLIVER_HIGH, -1, 1);
  }

  lemma SliverStep()
    ensures Step(-1, 1) == 0.2 && Step(-1, 0) == 0.1 && IsRound(0.2, 1)
  {
    PowersAround();
    assert 0.2 == Step(-1, 1) && 1 == StepPlaces(-1, 1);
  }

  lemma SliverTicks()
    ensures First(SLIVER_LOW, 0.2) == -1 && Last(SLIVER_HIGH, 0.2) == 4
  {
    FirstOfSliver();
    LastIsLeastCover(SLIVER_HIGH, 0.2);
    assert SLIVER_HIGH / 0.2 == 4.0;
  }

  lemma SliverSmallest()
    ensures AllTooSmall(SLIVER_LOW, SLIVER_HIGH, -1, 1)
  {
    SliverStep();
    forall l, j | 0 <= j < 4 && Earlier(l, j, -1, 1)
      ensures TickCount(SLIVER_LOW, SLIVER_HIGH, Step(l, j)) > MAX_TICKS
    {
      if l < -1 {
        StepOrder(l, j, -1, 0);
      }
      TooMany(SLIVER_LOW, SLIVER_HIGH, Step(l, j));
    }
  }

  lemma PowersAround()
    ensures Pow10(-1) == 0.1 && Pow10(0) == 1.0
  {
  }

  lemma DecadeAtLeast(x: real)
    requires x >= 0.1
    ensures Decade(x) >= -1
  {
    PowersAround();
    if Decade(x) < -1 {
      Pow10Grows(Decade(x) + 1, -1);
    }
  }

  lemma FirstOfSliver()
    ensures First(SLIVER_LOW, 0.2) == -1
  {
    var x := SLIVER_LOW / 0.2;
    assert x == -0.9999999996;
    SnapDown(x);
    SnapCeil(x);
  }

  // ---- the fallback -----------------------------------------------------------------------

  /** `short` stands for the scientific form with a number of significant figures. */
  ghost predicate Differ(low: real, high: real, short: (real, nat) -> string, digits: nat) {
    short(low, digits) != short(high, digits)
  }

  /** The fewest figures from 2 to 17 that tell the ends apart, or 17. */
  ghost predicate FewestFigures(low: real, high: real, short: (real, nat) -> string, digits: nat) {
    && 2 <= digits <= 17
    && (forall d: nat :: 2 <= d < digits ==> !Differ(low, high, short, d))
    && (digits < 17 ==> Differ(low, high, short, digits))
  }

  /** The axis that names just its two ends. */
  ghost predicate NamesEnds(s: Scale, low: real, high: real, short: (real, nat) -> string) {
    exists digits: nat :: FewestFigures(low, high, short, digits) &&
      s == Scale(low, high, [Tick(0.0, low, short(low, digits)), Tick(1.0, high, short(high, digits))])
  }

  method EndpointAxis(low: real, high: real, short: (real, nat) -> string) returns (s: Scale)
    ensures NamesEnds(s, low, high, short)
  {
    var digits: nat := 2;
    var a, b := short(low, digits), short(high, digits);
    while digits < 17 && a == b
      invariant 2 <= digits <= 17 && a == short(low, digits) && b == short(high, digits)
      invariant forall d: nat :: 2 <= d < digits ==> !Differ(low, high, short, d)
      decreases 17 - digits
    {
      digits := digits + 1;
      a, b := short(low, digits), short(high, digits);
    }
    s := Scale(low, high, [Tick(0.0, low, a), Tick(1.0, high, b)]);
    assert FewestFigures(low, high, short, digits);
  }

  // ---- the axis that is drawn -----------------------------------------------------------------

  ghost predicate Climbs(s: Scale) {
    forall i, j :: 0 <= i < j < |s.ticks| ==> s.ticks[i].position < s.ticks[j].position
  }

  ghost predicate Placed(s: Scale) {
    forall t :: t in s.ticks ==> IsPlaced(t, s.low, s.top)
  }

  /** Inside the axis, at the height of its value. */
  ghost predicate IsPlaced(t: Tick, low: real, top: real) {
    0.0 <= t.position <= 1.0 && t.value == AtScale(t.position, low, top)
  }

  /** The axis is the round one of the smallest round step exactly when the scores are far
      enough apart, its first tick did not fall below the axis and its labels are short enough;
      otherwise it names the two ends, or the one score there is. Either way it runs from the
      floor to at least the highest score, every tick is drawn at its value inside the axis, and
      ticks climb; round labels are exact and distinct. */
  method BuildScoreTicks(low: real, high: real, short: (real, nat) -> string, brief: real -> string)
    returns (s: Scale, ghost round: bool, ghost n: Nice)
    ensures Apart(low, high) ==> IsNice(low, high, n)
    ensures round <==> Apart(low, high) && low <= Times(n.first, n.step) && LabelsFit(n)
    ensures round ==> Drawn(s, low, n)
    ensures round ==> 3 <= |s.ticks| <= 6
    ensures low == high ==> s == Scale(low, high, [Tick(0.5, low, brief(low))])
    ensures !round && low != high ==> NamesEnds(s, low, high, short)
    ensures s.low == low && s.top >= high
    ensures low < high ==> Climbs(s) && Placed(s) && |s.ticks| >= 2 && s.ticks[|s.ticks| - 1].position == 1.0
    ensures round ==>
      && TextsFit(s) && (forall t :: t in s.ticks ==> Exact(t))
      && forall i, j :: 0 <= i < j < |s.ticks| ==> s.ticks[i].text != s.ticks[j].text
  {
    round, n := false, Nice(1.0, 0, 0, 0);
    if low == high {
      s := Scale(low, high, [Tick(0.5, low, brief(low))]);
      return;
    }
    var axis;
    axis, n := NiceAxis(low, high);
    if axis.Some? {
      SafeWhen(axis.value, low, high, n);
      if IsSafe(axis.value, high) {
        round := true;
        s := axis.value;
        RoundAxis(s, low, high, n);
        return;
      }
    }
    s := EndpointAxis(low, high, short);
    EndsPlaced(s);
  }

  lemma RoundTick(s: Scale, low: real, n: Nice, j: nat)
    requires Drawn(s, low, n) && n.step > 0.0 && low < s.top && j < |s.ticks|
    requires 0.0 <= s.ticks[j].position <= 1.0
    ensures IsPlaced(s.ticks[j], low, s.top) && Exact(s.ticks[j])
  {
    TickPlace(s, low, n, j);
    TickIsExact(s, low, n, j);
    Denormalize(s.ticks[j].value, low, s.top);
  }

  lemma TopTick(s: Scale, low: real, n: Nice)
    requires Drawn(s, low, n) && n.step > 0.0 && low < s.top && |s.ticks| > 0
    ensures s.ticks[|s.ticks| - 1].position == 1.0
  {
    TickPlace(s, low, n, |s.ticks| - 1);
    NormalizeEnds(low, s.top);
  }

  lemma RoundOrder(s: Scale, low: real, n: Nice)
    requires Drawn(s, low, n) && n.step > 0.0 && low < s.top
    ensures Climbs(s)
    ensures forall i, j :: 0 <= i < j < |s.ticks| ==> s.ticks[i].text != s.ticks[j].text
  {
    forall i, j | 0 <= i < j < |s.ticks|
      ensures s.ticks[i].position < s.ticks[j].position && s.ticks[i].text != s.ticks[j].text
    {
      DrawnOrder(s, low, n, i, j);
      DrawnLabels(s, low, n, i, j);
    }
  }

  lemma RoundAxis(s: Scale, low: real, high: real, n: Nice)
    requires Drawn(s, low, n) && n.step > 0.0 && low < high <= s.top && |s.ticks| >= 3 && IsSafe(s, high)
    ensures Climbs(s) && Placed(s) && s.ticks[|s.ticks| - 1].position == 1.0
    ensures TextsFit(s) && forall t :: t in s.ticks ==> Exact(t)
    ensures forall i, j :: 0 <= i < j < |s.ticks| ==> s.ticks[i].text != s.ticks[j].text
  {
    RoundOrder(s, low, n);
    TopTick(s, low, n);
    forall t | t in s.ticks ensures Exact(t) && IsPlaced(t, s.low, s.top) && Fits(t.text) {
      assert TickIsSafe(t);
      var j :| 0 <= j < |s.ticks| && s.ticks[j] == t;
      RoundTick(s, low, n, j);
    }
  }

  lemma Denormalize(value: real, low: real, top: real)
    requires low < top
    ensures AtScale(Normalize(value, low, top), low, top) == value
  {
    Quotient(value - low, top - low);
  }

  lemma AtEnds(low: real, top: real)
    ensures AtScale(0.0, low, top) == low && AtScale(1.0, low, top) == top
  {
  }

  lemma EndsPlaced(s: Scale)
    requires |s.ticks| == 2
    requires s.ticks[0].position == 0.0 && s.ticks[0].value == s.low
    requires s.ticks[1].position == 1.0 && s.ticks[1].value == s.top
    ensures Climbs(s) && Placed(s)
  {
    AtEnds(s.low, s.top);
    forall t | t in s.ticks ensures IsPlaced(t, s.low, s.top) {
      assert t == s.ticks[0] || t == s.ticks[1];
    }
  }
}
