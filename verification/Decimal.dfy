/** Decimal notation: powers of ten, rounding to a number of places, and the printed form
    with exactly that many places, which parses back to the same number. */
module Decimal {
  import opened Wrappers

  // ---- powers of ten ----------------------------------------------------------------

  function Pow10(k: int): (r: real)
    ensures r > 0.0
    decreases if k < 0 then -k else k
  {
    if k == 0 then 1.0 else if k > 0 then 10.0 * Pow10(k - 1) else Pow10(k + 1) / 10.0
  }

  lemma Pow10Next(k: int)
    ensures Pow10(k + 1) == 10.0 * Pow10(k)
  {
  }

  lemma {:induction false} Pow10Grows(j: int, k: int)
    requires j <= k
    ensures Pow10(j) <= Pow10(k)
    decreases k - j
  {
    if j < k {
      Pow10Next(k - 1);
      Pow10Grows(j, k - 1);
    }
  }

  function TenTo(d: nat): (r: nat)
    ensures r > 0
  {
    if d == 0 then 1 else 10 * TenTo(d - 1)
  }

  lemma {:induction false} TenToIsPow10(d: nat)
    ensures TenTo(d) as real == Pow10(d)
  {
    if d > 0 {
      TenToIsPow10(d - 1);
    }
  }

  // ---- rounding ------------------------------------------------------------------------

  function Scaled(x: real, d: nat): real { x * Pow10(d) }

  /** The nearest integer, a tie going away from zero. */
  function Nearest(y: real): int {
    if y < 0.0 then -((-y + 0.5).Floor) else (y + 0.5).Floor
  }

  /** Halfway goes away from zero, on both sides alike. */
  lemma NearestTies(n: nat, y: real)
    ensures Nearest(n as real + 0.5) == n + 1
    ensures Nearest(-y) == -Nearest(y)
  {
  }

  /** n with n / 10^d closest to x. */
  function Units(x: real, d: nat): int { Nearest(Scaled(x, d)) }

  function Places(n: int, d: nat): real { n as real / Pow10(d) }

  function RoundTo(x: real, d: nat): real { Places(Units(x, d), d) }

  lemma ScaledPlaces(n: int, d: nat)
    ensures Scaled(Places(n, d), d) == n as real
  {
  }

  lemma NearestExact(n: int)
    ensures Nearest(n as real) == n
  {
  }

  lemma UnitsExact(n: int, d: nat)
    ensures Units(Places(n, d), d) == n
    ensures RoundTo(Places(n, d), d) == Places(n, d)
  {
    ScaledPlaces(n, d);
    NearestExact(n);
  }

  lemma UnitsNear(x: real, d: nat)
    ensures -0.5 <= Units(x, d) as real - Scaled(x, d) <= 0.5
  {
  }

  lemma UnitsMonotone(x: real, y: real, d: nat)
    requires x <= y
    ensures Units(x, d) <= Units(y, d)
  {
    ScaledMonotone(x, y, Pow10(d));
    NearestMonotone(Scaled(x, d), Scaled(y, d));
  }

  lemma ScaledMonotone(x: real, y: real, p: real)
    requires x <= y && p > 0.0
    ensures x * p <= y * p
  {
  }

  lemma NearestMonotone(x: real, y: real)
    requires x <= y
    ensures Nearest(x) <= Nearest(y)
  {
    if y < 0.0 {
      FloorMonotone(-y + 0.5, -x + 0.5);
    } else if x >= 0.0 {
      FloorMonotone(x + 0.5, y + 0.5);
    }
  }

  lemma FloorMonotone(a: real, b: real)
    requires a <= b
    ensures a.Floor <= b.Floor
  {
  }

  // ---- digits ----------------------------------------------------------------------------

  predicate IsDigit(c: char) { '0' <= c <= '9' }

  function Digit(n: nat): (c: char)
    requires n < 10
    ensures IsDigit(c)
  {
    '0' + n as char
  }

  function DigitValue(c: char): (n: nat)
    requires IsDigit(c)
    ensures n < 10
  {
    c as int - '0' as int
  }

  predicate AllDigits(s: string) { forall i :: 0 <= i < |s| ==> IsDigit(s[i]) }

  function Digits(n: nat): (s: string)
    ensures |s| > 0 && AllDigits(s)
  {
    if n < 10 then [Digit(n)] else Digits(n / 10) + [Digit(n % 10)]
  }

  function ReadDigits(s: string): nat
    requires AllDigits(s)
  {
    if s == "" then 0 else 10 * ReadDigits(s[..|s| - 1]) + DigitValue(s[|s| - 1])
  }

  lemma {:induction false} DigitsRead(n: nat)
    ensures ReadDigits(Digits(n)) == n
  {
    if n >= 10 {
      DigitsRead(n / 10);
      var s := Digits(n);
      assert s[..|s| - 1] == Digits(n / 10);
    } else {
      assert Digits(n)[..0] == "";
    }
  }

  /** Leading zeros up to a length. */
  function Pad(s: string, length: nat): (r: string)
    requires AllDigits(s)
    ensures AllDigits(r) && |r| == if |s| < length then length else |s|
    decreases length - |s|
  {
    if |s| >= length then s else Pad("0" + s, length)
  }

  lemma {:induction false} LeadingZero(s: string)
    requires AllDigits(s)
    ensures AllDigits("0" + s) && ReadDigits("0" + s) == ReadDigits(s)
  {
    if s == "" {
      assert ("0" + s)[..0] == "";
    } else {
      LeadingZero(s[..|s| - 1]);
      assert ("0" + s)[..|s|] == "0" + s[..|s| - 1];
    }
  }

  lemma {:induction false} PadRead(s: string, length: nat)
    requires AllDigits(s)
    ensures ReadDigits(Pad(s, length)) == ReadDigits(s)
    decreases length - |s|
  {
    if |s| < length {
      LeadingZero(s);
      PadRead("0" + s, length);
    }
  }

  // ---- the printed form ---------------------------------------------------------------------

  /** The digits of n with at least one before the last d. */
  function Spread(n: nat, d: nat): (p: string)
    ensures AllDigits(p) && |p| > d
  {
    Pad(Digits(n), d + 1)
  }

  function WholePart(n: nat, d: nat): (s: string)
    ensures AllDigits(s) && s != ""
  {
    var p := Spread(n, d);
    p[..|p| - d]
  }

  function Fraction(n: nat, d: nat): (s: string)
    ensures AllDigits(s) && |s| == d
  {
    var p := Spread(n, d);
    p[|p| - d..]
  }

  /** n / 10^d for n >= 0, with exactly d places. */
  function Plain(n: nat, d: nat): string {
    if d == 0 then Digits(n) else WholePart(n, d) + "." + Fraction(n, d)
  }

  function Fixed(n: int, d: nat): string {
    if n < 0 then "-" + Plain(-n, d) else Plain(n, d)
  }

  function PointAt(s: string): (i: nat)
    ensures i <= |s| && (i < |s| ==> s[i] == '.') && forall j :: 0 <= j < i ==> s[j] != '.'
  {
    if s == "" || s[0] == '.' then 0 else 1 + PointAt(s[1..])
  }

  /** Read digits with at most one point: the number is value.0 / 10^value.1. */
  function ReadPlain(s: string): Option<(nat, nat)> {
    var i := PointAt(s);
    var whole, places := s[..i], if i < |s| then s[i + 1..] else "";
    if AllDigits(whole + places) && whole != "" then Some((ReadDigits(whole + places), |places|)) else None
  }

  function Read(s: string): Option<(int, nat)> {
    var negative := s != "" && s[0] == '-';
    var r := ReadPlain(if negative then s[1..] else s);
    if r.None? then None
    else
      var n: int := r.value.0;
      var signed: int := if negative then -n else n;
      Some((signed, r.value.1))
  }

  lemma PointUnique(a: string, b: string)
    requires AllDigits(a)
    ensures PointAt(a + "." + b) == |a|
    ensures PointAt(a) == |a|
  {
    var s := a + "." + b;
    assert s[|a|] == '.';
    assert forall j :: 0 <= j < |a| ==> s[j] == a[j] && a[j] != '.';
  }

  lemma WholeReads(whole: string)
    requires AllDigits(whole) && whole != ""
    ensures ReadPlain(whole) == Some((ReadDigits(whole), 0))
  {
    PointUnique(whole, "");
    assert whole[..|whole|] + "" == whole;
  }

  lemma PointReads(whole: string, places: string)
    requires AllDigits(whole) && AllDigits(places) && whole != ""
    ensures AllDigits(whole + places)
    ensures ReadPlain(whole + "." + places) == Some((ReadDigits(whole + places), |places|))
  {
    PointUnique(whole, places);
    var s := whole + "." + places;
    assert s[..|whole|] == whole && s[|whole| + 1..] == places;
  }

  lemma PartsRead(n: nat, d: nat)
    ensures ReadDigits(WholePart(n, d) + Fraction(n, d)) == n
  {
    DigitsRead(n);
    PadRead(Digits(n), d + 1);
    assert WholePart(n, d) + Fraction(n, d) == Spread(n, d);
  }

  lemma PlainReads(n: nat, d: nat)
    ensures ReadPlain(Plain(n, d)) == Some((n, d))
  {
    if d == 0 {
      DigitsRead(n);
      WholeReads(Digits(n));
    } else {
      PointReads(WholePart(n, d), Fraction(n, d));
      PartsRead(n, d);
    }
  }

  lemma PlainStarts(n: nat, d: nat)
    ensures Plain(n, d) != "" && IsDigit(Plain(n, d)[0])
  {
  }

  /** A printed number reads back as itself, so different numbers print differently. */
  lemma FixedReads(n: int, d: nat)
    ensures Read(Fixed(n, d)) == Some((n, d))
  {
    PlainReads(if n < 0 then -n else n, d);
    PlainStarts(if n < 0 then -n else n, d);
    if n < 0 {
      assert Fixed(n, d)[1..] == Plain(-n, d);
    }
  }

  /** Only a negative number prints a minus: zero never does. */
  lemma MinusMeansNegative(n: int, d: nat)
    ensures Fixed(n, d) != "" && (Fixed(n, d)[0] == '-' <==> n < 0)
  {
    if n >= 0 {
      PlainStarts(n, d);
    }
  }

  /** Nothing is no number. */
  lemma EmptyIsNoNumber()
    ensures Read("").None? && ReadPlain("").None?
  {
  }
}
