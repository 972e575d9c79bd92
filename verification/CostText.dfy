/** How costs are printed: rounding in pieces that never contradicts the order of costs, and
    cost-axis labels that are made more precise only when they would repeat. */
module CostText {
  import opened Decimal
  import opened Sequences
  import opened Wrappers

  // ---- thousands separators ------------------------------------------------------------

  function GroupDigits(s: string): string
    decreases |s|
  {
    if |s| <= 3 then s else GroupDigits(s[..|s| - 3]) + "," + s[|s| - 3..]
  }

  /** Commas in the part before the point. */
  function Group(s: string): string {
    GroupDigits(s[..PointAt(s)]) + s[PointAt(s)..]
  }

  function Ungroup(s: string): string {
    if s == "" then "" else (if s[0] == ',' then "" else [s[0]]) + Ungroup(s[1..])
  }

  predicate NoCommas(s: string) { forall i :: 0 <= i < |s| ==> s[i] != ',' }

  lemma {:induction false} UngroupPlain(s: string)
    requires NoCommas(s)
    ensures Ungroup(s) == s
  {
    if s != "" {
      UngroupPlain(s[1..]);
    }
  }

  lemma {:induction false} UngroupSplit(a: string, b: string)
    ensures Ungroup(a + b) == Ungroup(a) + Ungroup(b)
  {
    if a == "" {
      assert a + b == b;
    } else {
      assert (a + b)[1..] == a[1..] + b;
      UngroupSplit(a[1..], b);
    }
  }

  lemma {:induction false} GroupDigitsUngroups(s: string)
    requires NoCommas(s)
    ensures Ungroup(GroupDigits(s)) == s
    decreases |s|
  {
    if |s| <= 3 {
      UngroupPlain(s);
    } else {
      var head, tail := s[..|s| - 3], s[|s| - 3..];
      GroupDigitsUngroups(head);
      UngroupSplit(GroupDigits(head) + ",", tail);
      UngroupSplit(GroupDigits(head), ",");
      UngroupPlain(tail);
      assert Ungroup(",") == Ungroup("");
      assert head + tail == s;
    }
  }

  lemma JoinUngroups(head: string, tail: string)
    requires NoCommas(head) && NoCommas(tail)
    ensures Ungroup(GroupDigits(head) + tail) == head + tail
  {
    GroupDigitsUngroups(head);
    UngroupPlain(tail);
    UngroupSplit(GroupDigits(head), tail);
  }

  lemma GroupUngroups(s: string)
    requires NoCommas(s)
    ensures Ungroup(Group(s)) == s
  {
    var i := PointAt(s);
    assert s == s[..i] + s[i..];
    JoinUngroups(s[..i], s[i..]);
  }

  /** As many commas as full groups of three with a digit before them. */
  lemma {:induction false} GroupLength(s: string)
    ensures |GroupDigits(s)| == |s| + if s == "" then 0 else (|s| - 1) / 3
    decreases |s|
  {
    if |s| > 3 {
      GroupLength(s[..|s| - 3]);
    }
  }

  predicate CommaAt(s: string, j: nat)
    requires j < |s|
  {
    s[|s| - 1 - j] == ','
  }

  lemma LastFour(head: string, tail: string, j: nat)
    requires |tail| == 3 && NoCommas(tail) && j < |head + "," + tail|
    ensures CommaAt(head + "," + tail, j) <==> if j < 4 then j == 3 else CommaAt(head, j - 4)
  {
    var s := head + "," + tail;
    assert s[|head|] == ',' && forall i :: 0 <= i < 3 ==> s[|head| + 1 + i] == tail[i];
  }

  /** Counted from the right, every fourth character is a comma and nothing else is. */
  lemma {:induction false} CommasEveryThree(s: string, j: nat)
    requires NoCommas(s) && j < |GroupDigits(s)|
    ensures CommaAt(GroupDigits(s), j) <==> j % 4 == 3
    decreases |s|
  {
    if |s| > 3 {
      LastFour(GroupDigits(s[..|s| - 3]), s[|s| - 3..], j);
      if j >= 4 {
        CommasEveryThree(s[..|s| - 3], j - 4);
      }
    }
  }

  lemma FixedNoCommas(n: nat, d: nat)
    ensures NoCommas(Fixed(n, d))
  {
    if d > 0 {
      var s := WholePart(n, d) + "." + Fraction(n, d);
      forall i | 0 <= i < |s| ensures s[i] != ',' {
        assert s[i] == '.' || IsDigit(s[i]);
      }
    }
  }

  // ---- the printer ------------------------------------------------------------------------

  const CENT := 0.01
  const LEAST_SHOWN := 0.0001   // a hundredth of a cent; less is not spelled out

  const UNKNOWN := "—"
  const TINY := "<$0.0001"

  function FormatCost(cost: Option<real>): string {
    if cost.None? then UNKNOWN
    else
      var value := cost.value;
      if value == 0.0 then "$0.00"
      else if value >= CENT then "$" + Group(Fixed(Units(value, 2), 2))
      else if value >= LEAST_SHOWN then
        var four := Units(value, 4);
        if Places(four, 4) >= CENT then "$" + Fixed(Units(Places(four, 4), 2), 2) else "$" + Fixed(four, 4)
      else TINY
  }

  /** The displayed amount in dollars; "less than a hundredth of a cent" counts as half of one. */
  function Shown(value: real): real {
    if value == 0.0 then 0.0
    else if value >= CENT then RoundTo(value, 2)
    else if value >= LEAST_SHOWN then RoundTo(value, 4)
    else 0.00005
  }

  /** Reading a displayed cost back. */
  function ReadShown(s: string): Option<real> {
    if s == TINY then Some(0.00005)
    else if s == "" || s[0] != '$' then None
    else Dollars(Read(Ungroup(s[1..])))
  }

  function Dollars(r: Option<(int, nat)>): Option<real> {
    if r.None? then None else Some(Places(r.value.0, r.value.1))
  }

  lemma SmallPowers()
    ensures Pow10(2) == 100.0 && Pow10(4) == 10000.0 && Pow10(0) == 1.0
  {
    Pow10Next(0);
    Pow10Next(1);
    Pow10Next(2);
    Pow10Next(3);
  }

  lemma Thresholds()
    ensures Units(CENT, 2) == 1 && Units(CENT, 4) == 100 && Units(LEAST_SHOWN, 4) == 1
    ensures Places(1, 2) == CENT && Places(100, 4) == CENT && Places(1, 4) == LEAST_SHOWN && Places(0, 2) == 0.0
  {
    SmallPowers();
    assert Scaled(CENT, 2) == 1.0 && Scaled(CENT, 4) == 100.0 && Scaled(LEAST_SHOWN, 4) == 1.0;
  }

  lemma PlacesOrder(m: int, n: int, d: nat)
    ensures m < n <==> Places(m, d) < Places(n, d)
  {
    ScaledPlaces(m, d);
    ScaledPlaces(n, d);
    if Places(m, d) >= Places(n, d) {
      ScaledMonotone(Places(n, d), Places(m, d), Pow10(d));
    }
  }

  lemma RoundMonotone(v: real, w: real, d: nat)
    requires v <= w
    ensures RoundTo(v, d) <= RoundTo(w, d)
  {
    UnitsMonotone(v, w, d);
    PlacesOrder(Units(w, d), Units(v, d), d);
  }

  /** Between the two thresholds there are 1 to 100 units; 100 means it rounds up to a cent. */
  lemma MiddleUnits(value: real)
    requires LEAST_SHOWN <= value < CENT
    ensures 1 <= Units(value, 4) <= 100 && LEAST_SHOWN <= RoundTo(value, 4) <= CENT
    ensures Units(value, 4) < 100 <==> RoundTo(value, 4) < CENT
  {
    Thresholds();
    UnitsMonotone(LEAST_SHOWN, value, 4);
    UnitsMonotone(value, CENT, 4);
    RoundMonotone(LEAST_SHOWN, value, 4);
    RoundMonotone(value, CENT, 4);
    PlacesOrder(Units(value, 4), 100, 4);
  }

  lemma CentUnits(value: real)
    requires value >= CENT
    ensures Units(value, 2) >= 1 && RoundTo(value, 2) >= CENT
  {
    Thresholds();
    UnitsMonotone(CENT, value, 2);
    RoundMonotone(CENT, value, 2);
  }

  /** A middle amount prints with four places, except a full cent, which prints like one. */
  lemma MiddleText(value: real)
    requires LEAST_SHOWN <= value < CENT
    ensures FormatCost(Some(value)) ==
            if Units(value, 4) == 100 then "$" + Fixed(1, 2) else "$" + Fixed(Units(value, 4), 4)
  {
    MiddleUnits(value);
    Thresholds();
  }

  lemma OneCent()
    ensures Group(Fixed(1, 2)) == Fixed(1, 2)
  {
    assert Digits(1) == "1";
    assert Pad("1", 3) == Pad("01", 3) == Pad("001", 3) by {
      assert "0" + "1" == "01" && "0" + "01" == "001";
    }
    assert Fixed(1, 2) == "0.01";
    assert PointAt("0.01") == 1;
  }

  lemma ReadAfterDollar(rest: string)
    ensures ReadShown("$" + rest) == Dollars(Read(Ungroup(rest)))
  {
    var s := "$" + rest;
    assert s[0] == '$' && TINY[0] == '<' && s[1..] == rest;
  }

  lemma DollarsPlain(n: nat, d: nat)
    ensures ReadShown("$" + Fixed(n, d)) == Some(Places(n, d))
  {
    FixedNoCommas(n, d);
    UngroupPlain(Fixed(n, d));
    FixedReads(n, d);
    ReadAfterDollar(Fixed(n, d));
  }

  lemma DollarsGrouped(n: nat, d: nat)
    ensures ReadShown("$" + Group(Fixed(n, d))) == Some(Places(n, d))
  {
    FixedNoCommas(n, d);
    GroupUngroups(Fixed(n, d));
    FixedReads(n, d);
    ReadAfterDollar(Group(Fixed(n, d)));
  }

  lemma CentSays(value: real)
    requires value >= CENT
    ensures ReadShown(FormatCost(Some(value))) == Some(Shown(value))
  {
    CentUnits(value);
    assert FormatCost(Some(value)) == "$" + Group(Fixed(Units(value, 2), 2));
    DollarsGrouped(Units(value, 2), 2);
  }

  lemma MiddleSays(value: real)
    requires LEAST_SHOWN <= value < CENT
    ensures ReadShown(FormatCost(Some(value))) == Some(Shown(value))
  {
    MiddleText(value);
    MiddleUnits(value);
    Thresholds();
    if Units(value, 4) == 100 {
      DollarsPlain(1, 2);
    } else {
      DollarsPlain(Units(value, 4), 4);
    }
  }

  lemma ZeroText()
    ensures ReadShown("$0.00") == Some(0.0)
  {
    ZeroFixed();
    assert "$" + "0.00" == "$0.00";
    DollarsPlain(0, 2);
    Thresholds();
  }

  lemma ZeroFixed()
    ensures Fixed(0, 2) == "0.00"
  {
    assert Digits(0) == "0";
    assert Pad("0", 3) == Pad("00", 3) == Pad("000", 3) by {
      assert "0" + "0" == "00" && "0" + "00" == "000";
    }
  }

  /** The text of a cost says exactly its displayed amount, and an unknown cost says none. */
  lemma TextSaysShown(cost: Option<real>)
    ensures ReadShown(FormatCost(cost)) == if cost.None? then None else Some(Shown(cost.value))
  {
    if cost.Some? {
      var value := cost.value;
      if value == 0.0 {
        ZeroText();
      } else if value >= CENT {
        CentSays(value);
      } else if value >= LEAST_SHOWN {
        MiddleSays(value);
      }
    }
  }

  /** The displayed amounts keep the order of the costs, with one exception: a negative cost is
      displayed as a positive sliver, so it reads as more than a cost of zero. */
  lemma ShownKeepsOrder(v: real, w: real)
    requires v <= w
    ensures Shown(v) <= Shown(w) <==> !(v < 0.0 && w == 0.0)
  {
    if w >= CENT {
      CentUnits(w);
    } else if w >= LEAST_SHOWN {
      MiddleUnits(w);
    }
    if v >= CENT {
      RoundMonotone(v, w, 2);
    } else if v >= LEAST_SHOWN {
      MiddleUnits(v);
      RoundMonotone(v, w, 4);
    }
  }

  /** The text as a function of the displayed amount alone. */
  function AmountText(a: real): string {
    if a == 0.0 then "$0.00"
    else if a < LEAST_SHOWN then TINY
    else if a < CENT then "$" + Fixed(Units(a, 4), 4)
    else "$" + Group(Fixed(Units(a, 2), 2))
  }

  lemma TextByAmount(v: real)
    ensures FormatCost(Some(v)) == AmountText(Shown(v))
  {
    if v >= CENT {
      CentUnits(v);
      UnitsExact(Units(v, 2), 2);
    } else if v >= LEAST_SHOWN {
      MiddleAmount(v);
    }
  }

  lemma MiddleAmount(v: real)
    requires LEAST_SHOWN <= v < CENT
    ensures FormatCost(Some(v)) == AmountText(Shown(v))
  {
    MiddleUnits(v);
    MiddleText(v);
    UnitsExact(Units(v, 4), 4);
    if Units(v, 4) == 100 {
      Thresholds();
      OneCent();
    }
  }

  /** A displayed amount has one text: costs print identically exactly when they show the same amount. */
  lemma OneTextPerAmount(v: real, w: real)
    ensures FormatCost(Some(v)) == FormatCost(Some(w)) <==> Shown(v) == Shown(w)
  {
    TextSaysShown(Some(v));
    TextSaysShown(Some(w));
    TextByAmount(v);
    TextByAmount(w);
  }

  /** The displayed amount is off by at most half a displayed unit: half a cent from one cent
      on, half a hundredth of a cent below. */
  lemma ShownIsNear(v: real)
    requires v >= LEAST_SHOWN
    ensures v >= CENT ==> -0.005 <= Shown(v) - v <= 0.005
    ensures v < CENT ==> -0.00005 <= Shown(v) - v <= 0.00005
  {
    SmallPowers();
    UnitsNear(v, 2);
    UnitsNear(v, 4);
  }

  // ---- the text itself -------------------------------------------------------------------

  /** Unknown, free, and less than a hundredth of a cent. */
  lemma PlainTexts(value: real)
    ensures FormatCost(None) == "—" && FormatCost(Some(0.0)) == "$0.00"
    ensures value != 0.0 && value < 0.0001 ==> FormatCost(Some(value)) == "<$0.0001"
  {
  }

  lemma TwoDigits(n: nat)
    requires n >= 100
    ensures Digits(n) == Digits(n / 100) + [Digit(n / 10 % 10), Digit(n % 10)]
  {
    assert n / 10 >= 10 && n / 10 / 10 == n / 100;
    assert Digits(n) == Digits(n / 10) + [Digit(n % 10)];
    assert Digits(n / 10) == Digits(n / 10 / 10) + [Digit(n / 10 % 10)];
  }

  lemma PadTwo(n: nat)
    requires n < 100
    ensures Pad(Digits(n), 3) == "0" + [Digit(n / 10), Digit(n % 10)]
  {
    assert Digits(0) == "0";
    if n < 10 {
      var s := Digits(n);
      assert Digit(0) == '0';
      assert Pad(s, 3) == Pad("0" + s, 3) == Pad("0" + ("0" + s), 3);
      assert "0" + ("0" + s) == "0" + [Digit(n / 10), Digit(n % 10)];
    } else {
      var s := Digits(n);
      assert s == Digits(n / 10) + [Digit(n % 10)];
      assert Pad(s, 3) == Pad("0" + s, 3);
    }
  }

  /** Dollars, a point, and two digits for the cents. */
  lemma DollarsAndCents(n: nat)
    ensures WholePart(n, 2) == Digits(n / 100) && Fraction(n, 2) == [Digit(n / 10 % 10), Digit(n % 10)]
  {
    if n >= 100 {
      TwoDigits(n);
      assert |Digits(n)| >= 3;
    } else {
      PadTwo(n);
      assert Digits(0) == "0";
    }
  }

  /** Any cost from a cent on: its cents, rounded, with the dollars grouped by commas. */
  lemma CentText(value: real)
    requires value >= 0.01
    ensures var cents := Units(value, 2);
            && cents >= 1
            && FormatCost(Some(value)) ==
                 "$" + GroupDigits(Digits(cents / 100)) + "." + [Digit(cents / 10 % 10), Digit(cents % 10)]
  {
    CentUnits(value);
    var n: nat := Units(value, 2);
    DollarsAndCents(n);
    var s := WholePart(n, 2) + "." + Fraction(n, 2);
    PointUnique(WholePart(n, 2), Fraction(n, 2));
    assert s[..|WholePart(n, 2)|] == WholePart(n, 2) && s[|WholePart(n, 2)|..] == "." + Fraction(n, 2);
    Joined(GroupDigits(WholePart(n, 2)), Fraction(n, 2));
  }

  lemma Joined(a: string, b: string)
    ensures "$" + (a + ("." + b)) == "$" + a + "." + b
  {
  }

  lemma {:induction false} DigitsLength(n: nat, k: nat)
    requires k >= 1
    ensures |Digits(n)| > k <==> n >= TenTo(k)
    decreases k
  {
    if k > 1 && n >= 10 {
      DigitsLength(n / 10, k - 1);
    }
  }

  /** Commas are printed exactly from a thousand dollars on. */
  lemma CommasFromThousand(value: real)
    requires value >= 0.01
    ensures ',' in FormatCost(Some(value)) <==> Units(value, 2) >= 100000
    ensures value >= 1000.0 ==> ',' in FormatCost(Some(value))
  {
    CentText(value);
    CentUnits(value);
    var cents: nat := Units(value, 2);
    var dollars := Digits(cents / 100);
    DigitsLength(cents / 100, 3);
    assert TenTo(3) == 1000;
    GroupLength(dollars);
    if |dollars| > 3 {
      CommasEveryThree(dollars, 3);
      assert ',' in GroupDigits(dollars);
    } else {
      assert GroupDigits(dollars) == dollars;
    }
    if value >= 1000.0 {
      ThousandUnits();
      UnitsMonotone(1000.0, value, 2);
    }
  }

  lemma ThousandUnits()
    ensures Units(1000.0, 2) == 100000
  {
    SmallPowers();
    assert Scaled(1000.0, 2) == 100000.0;
  }

  // ---- cost-axis labels ---------------------------------------------------------------------

  function FixedCost(value: real, places: nat): string {
    "$" + Group(Fixed(Units(value, places), places))
  }

  /** A label reads back as the value rounded to its places. */
  lemma FixedCostReads(value: real, places: nat)
    requires value >= 0.0
    ensures FixedCost(value, places) != "" && FixedCost(value, places)[0] == '$'
    ensures ReadShown(FixedCost(value, places)) == Some(RoundTo(value, places))
  {
    UnitsMonotone(0.0, value, places);
    assert Units(0.0, places) == 0;
    DollarsGrouped(Units(value, places), places);
  }

  datatype Tick = Tick(position: real, value: real, text: string)

  function Labels(values: seq<real>, places: nat, fixed: (real, nat) -> string): seq<string> {
    seq(|values|, i requires 0 <= i < |values| => fixed(values[i], places))
  }

  /** Two different costs at the wire's six places have different six-place labels. */
  lemma SixPlacesDiffer(a: nat, b: nat)
    requires a != b
    ensures FixedCost(Places(a, 6), 6) != FixedCost(Places(b, 6), 6)
  {
    UnitsExact(a, 6);
    UnitsExact(b, 6);
    FixedNoCommas(a, 6);
    FixedNoCommas(b, 6);
    GroupUngroups(Fixed(a, 6));
    GroupUngroups(Fixed(b, 6));
    FixedReads(a, 6);
    FixedReads(b, 6);
    assert FixedCost(Places(a, 6), 6)[1..] == Group(Fixed(a, 6));
    assert FixedCost(Places(b, 6), 6)[1..] == Group(Fixed(b, 6));
  }

  const QUARTERS := [0.0, 0.25, 0.5, 0.75, 1.0]

  function Along(at: real -> real, positions: seq<real>): seq<real> {
    seq(|positions|, i requires 0 <= i < |positions| => at(positions[i]))
  }

  function MakeTicks(positions: seq<real>, values: seq<real>, labels: seq<string>): (ticks: seq<Tick>)
    requires |positions| == |values| == |labels|
    ensures |ticks| == |positions|
    ensures forall i :: 0 <= i < |ticks| ==> ticks[i] == Tick(positions[i], values[i], labels[i])
  {
    seq(|positions|, i requires 0 <= i < |positions| => Tick(positions[i], values[i], labels[i]))
  }

  /** The labels of these values repeat at this many places. */
  ghost predicate Repeats(values: seq<real>, places: nat, fixed: (real, nat) -> string) {
    !NoRepeats(Labels(values, places, fixed))
  }

  /** The fewest places from two to six at which no label repeats. */
  ghost predicate FewestPlaces(values: seq<real>, places: nat, fixed: (real, nat) -> string) {
    && 2 <= places <= 6 && !Repeats(values, places, fixed)
    && forall q: nat :: 2 <= q < places ==> Repeats(values, q, fixed)
  }

  ghost predicate AlwaysRepeats(values: seq<real>, fixed: (real, nat) -> string) {
    forall p: nat :: 2 <= p <= 6 ==> Repeats(values, p, fixed)
  }

  method MorePrecise(values: seq<real>, fixed: (real, nat) -> string)
    returns (labels: seq<string>, unique: bool, ghost places: nat)
    ensures |labels| == |values| && (unique <==> !AlwaysRepeats(values, fixed))
    ensures unique ==> FewestPlaces(values, places, fixed) && labels == Labels(values, places, fixed)
  {
    var p: nat := 2;
    labels, unique, places := Labels(values, 2, fixed), false, 0;
    while p <= 6
      invariant 2 <= p <= 7 && |labels| == |values| && !unique
      invariant forall q: nat :: 2 <= q < p ==> Repeats(values, q, fixed)
    {
      labels := Labels(values, p, fixed);
      if NoRepeats(labels) {
        assert !Repeats(values, p, fixed);
        return labels, true, p;
      }
      p := p + 1;
    }
  }

  /** The ends of the axis are two different amounts of the wire's six places. */
  ghost predicate WireEnds(low: real, high: real) {
    exists a: nat, b: nat :: a != b && low == Places(a, 6) && high == Places(b, 6)
  }

  lemma WireEndsDiffer(low: real, high: real)
    requires WireEnds(low, high)
    ensures FixedCost(low, 6) != FixedCost(high, 6)
  {
    var a: nat, b: nat :| a != b && low == Places(a, 6) && high == Places(b, 6);
    SixPlacesDiffer(a, b);
  }

  ghost predicate Named(ticks: seq<Tick>) {
    forall i, j :: 0 <= i < j < |ticks| ==> ticks[i].text != ticks[j].text
  }

  /** The table's own labels. */
  function Formatted(values: seq<real>, format: real -> string): seq<string> {
    seq(|values|, i requires 0 <= i < |values| => format(values[i]))
  }

  /** The two ends, at the wire's six places. */
  function EndTicks(at: real -> real): seq<Tick> {
    [Tick(0.0, at(0.0), FixedCost(at(0.0), 6)), Tick(1.0, at(1.0), FixedCost(at(1.0), 6))]
  }

  /** `at` places a position on the scale, linear or logarithmic; `format` is the table's own
      printer. The five quarters have the table's labels exactly when those are distinct, else
      those with the fewest places from two to six that are. Exactly when there are no such
      places the two ends stand alone. Ends at the wire's six places always get different labels. */
  method BuildCostTicks(low: real, high: real, at: real -> real, format: real -> string)
    returns (ticks: seq<Tick>, ghost places: nat)
    ensures low == high ==> ticks == [Tick(0.5, at(0.5), format(at(0.5)))]
    ensures low != high ==>
      var values := Along(at, QUARTERS);
      var table := Formatted(values, format);
      if NoRepeats(table) then ticks == MakeTicks(QUARTERS, values, table)
      else if AlwaysRepeats(values, FixedCost) then ticks == EndTicks(at)
      else FewestPlaces(values, places, FixedCost)
           && ticks == MakeTicks(QUARTERS, values, Labels(values, places, FixedCost))
    ensures |ticks| == 5 ==> Named(ticks) && forall i :: 0 <= i < 5 ==> ticks[i].position == 0.25 * i as real
    ensures low != high && WireEnds(at(0.0), at(1.0)) ==> Named(ticks)
  {
    var positions := if low == high then [0.5] else QUARTERS;
    var values := Along(at, positions);
    var labels := Formatted(values, format);
    places := 0;
    if !NoRepeats(labels) {
      var unique;
      labels, unique, places := MorePrecise(values, FixedCost);
      if !unique {
        if WireEnds(at(0.0), at(1.0)) {
          WireEndsDiffer(at(0.0), at(1.0));
        }
        return EndTicks(at), places;
      }
    }
    ticks := MakeTicks(positions, values, labels);
  }
}
