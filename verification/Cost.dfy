/** Run costs on the leaderboard: their order with unknowns last, and their printed form. */
module Cost {
  import opened Decimal
  import Sorting
  import opened Wrappers

  // ---- costs -----------------------------------------------------------------------

  /** A board row; `raw` is the cost as it crosses the wire, if any. */
  datatype Row = Row(id: string, raw: Option<string>)

  function CostNumber(row: Row): Option<real> {
    if row.raw.None? || row.raw.value == "" then None
    else
      match Read(row.raw.value) case Some((n, d)) => Some(Places(n, d)) case None => None
  }

  /** The wire's fixed six places arrive exactly. */
  lemma WireCost(id: string, n: int)
    ensures CostNumber(Row(id, Some(Fixed(n, 6)))) == Some(Places(n, 6))
  {
    FixedReads(n, 6);
  }

  /** An absent, empty or unreadable cost is unknown, never zero. */
  lemma UnknownIsNotZero(id: string, raw: string)
    ensures CostNumber(Row(id, None)).None? && CostNumber(Row(id, Some(""))).None?
    ensures Read(raw).None? ==> CostNumber(Row(id, Some(raw))).None?
  {
  }

  // ---- the comparator -----------------------------------------------------------------

  /** Negative, zero or positive, as a sort callback wants it; `cost` reads a row's cost. */
  function Compare<R>(cost: R -> Option<real>, a: R, b: R, descending: bool): real {
    var av, bv := cost(a), cost(b);
    if av.None? && bv.None? then 0.0
    else if av.None? then 1.0
    else if bv.None? then -1.0
    else
      var res := av.value - bv.value;
      if descending then -res else res
  }

  function NotAfter<R>(cost: R -> Option<real>, descending: bool): (R, R) -> bool {
    (a: R, b: R) => Compare(cost, a, b, descending) <= 0.0
  }

  /** Either direction is a total preorder, and the comparator never contradicts itself. */
  lemma ComparatorIsPreorder<R>(cost: R -> Option<real>, s: seq<R>, descending: bool)
    ensures Sorting.PreorderOn(NotAfter(cost, descending), s)
    ensures forall a, b :: a in s && b in s ==> Compare(cost, a, b, descending) == -Compare(cost, b, a, descending)
  {
  }

  function Priced<R>(cost: R -> Option<real>, rows: seq<R>): seq<R> {
    if rows == [] then []
    else (if cost(rows[0]).Some? then [rows[0]] else []) + Priced(cost, rows[1..])
  }

  function Unpriced<R>(cost: R -> Option<real>, rows: seq<R>): seq<R> {
    if rows == [] then []
    else (if cost(rows[0]).None? then [rows[0]] else []) + Unpriced(cost, rows[1..])
  }

  ghost predicate AllPriced<R>(cost: R -> Option<real>, rows: seq<R>) {
    forall i :: 0 <= i < |rows| ==> cost(rows[i]).Some?
  }

  ghost predicate NonePriced<R>(cost: R -> Option<real>, rows: seq<R>) {
    forall i :: 0 <= i < |rows| ==> cost(rows[i]).None?
  }

  lemma {:induction false} SplitRows<R>(cost: R -> Option<real>, rows: seq<R>)
    ensures AllPriced(cost, Priced(cost, rows)) && NonePriced(cost, Unpriced(cost, rows))
  {
    if rows != [] {
      SplitRows(cost, rows[1..]);
    }
  }

  lemma {:induction false} InsertPriced<R>(cost: R -> Option<real>, descending: bool, x: R, a: seq<R>, u: seq<R>)
    requires cost(x).Some? && NonePriced(cost, u)
    ensures Sorting.Insert(NotAfter(cost, descending), x, a + u) == Sorting.Insert(NotAfter(cost, descending), x, a) + u
  {
    if a == [] {
      assert a + u == u;
    } else {
      assert (a + u)[1..] == a[1..] + u;
      InsertPriced(cost, descending, x, a[1..], u);
      assert [x] + (a + u) == [x] + a + u;
    }
  }

  lemma {:induction false} InsertUnpriced<R>(cost: R -> Option<real>, descending: bool, x: R, a: seq<R>, u: seq<R>)
    requires cost(x).None? && AllPriced(cost, a) && NonePriced(cost, u)
    ensures Sorting.Insert(NotAfter(cost, descending), x, a + u) == a + ([x] + u)
  {
    if a == [] {
      assert a + u == u;
    } else {
      assert (a + u)[1..] == a[1..] + u;
      InsertUnpriced(cost, descending, x, a[1..], u);
      assert [a[0]] + (a[1..] + ([x] + u)) == a + ([x] + u);
    }
  }

  lemma SortedPriced<R>(cost: R -> Option<real>, descending: bool, rows: seq<R>)
    requires AllPriced(cost, rows)
    ensures AllPriced(cost, Sorting.Sort(NotAfter(cost, descending), rows))
  {
    var le := NotAfter(cost, descending);
    ComparatorIsPreorder(cost, rows, descending);
    Sorting.SortFacts(le, rows);
    var s := Sorting.Sort(le, rows);
    forall i | 0 <= i < |s| ensures cost(s[i]).Some? {
      assert s[i] in multiset(s);
      assert s[i] in multiset(rows);
    }
  }

  /** Sorting, in either direction, leaves the unpriced rows last and in their original order. */
  lemma {:induction false} UnpricedLast<R>(cost: R -> Option<real>, descending: bool, rows: seq<R>)
    ensures Sorting.Sort(NotAfter(cost, descending), rows) ==
            Sorting.Sort(NotAfter(cost, descending), Priced(cost, rows)) + Unpriced(cost, rows)
  {
    if rows != [] {
      var le, x, rest := NotAfter(cost, descending), rows[0], rows[1..];
      UnpricedLast(cost, descending, rest);
      SplitRows(cost, rest);
      var p, u := Priced(cost, rest), Unpriced(cost, rest);
      if cost(x).Some? {
        InsertPriced(cost, descending, x, Sorting.Sort(le, p), u);
        assert ([x] + p)[1..] == p && [] + u == u;
      } else {
        SortedPriced(cost, descending, p);
        InsertUnpriced(cost, descending, x, Sorting.Sort(le, p), u);
        assert [] + p == p;
      }
    }
  }

  // ---- the two directions mirror each other ------------------------------------------------

  function Values<R>(cost: R -> Option<real>, rows: seq<R>): (vs: seq<real>)
    requires AllPriced(cost, rows)
    ensures |vs| == |rows| && forall i :: 0 <= i < |vs| ==> vs[i] == cost(rows[i]).value
  {
    seq(|rows|, i requires 0 <= i < |rows| => cost(rows[i]).value)
  }

  function Reverse(vs: seq<real>): seq<real> {
    if vs == [] then [] else Reverse(vs[1..]) + [vs[0]]
  }

  lemma {:induction false} ReverseFacts(vs: seq<real>)
    ensures multiset(Reverse(vs)) == multiset(vs) && |Reverse(vs)| == |vs|
    ensures forall i :: 0 <= i < |vs| ==> Reverse(vs)[i] == vs[|vs| - 1 - i]
  {
    if vs != [] {
      ReverseFacts(vs[1..]);
      assert vs == [vs[0]] + vs[1..];
    }
  }

  ghost predicate Climbing(vs: seq<real>) { forall i, j :: 0 <= i < j < |vs| ==> vs[i] <= vs[j] }

  lemma SameHead(a: seq<real>, b: seq<real>)
    requires Climbing(a) && Climbing(b) && multiset(a) == multiset(b) && a != []
    ensures b != [] && a[0] == b[0]
  {
    assert a[0] in multiset(b);
    var i :| 0 <= i < |b| && b[i] == a[0];
    assert b[0] in multiset(a);
    var j :| 0 <= j < |a| && a[j] == b[0];
  }

  /** An ascending list is determined by its contents. */
  lemma {:induction false} ClimbingUnique(a: seq<real>, b: seq<real>)
    requires Climbing(a) && Climbing(b) && multiset(a) == multiset(b)
    ensures a == b
  {
    assert |a| == |multiset(a)| == |multiset(b)| == |b|;
    if a != [] {
      SameHead(a, b);
      assert a == [a[0]] + a[1..] && b == [b[0]] + b[1..];
      assert multiset(a[1..]) == multiset(a) - multiset{a[0]};
      assert multiset(b[1..]) == multiset(b) - multiset{b[0]};
      ClimbingUnique(a[1..], b[1..]);
    }
  }

  function CostBag<R>(cost: R -> Option<real>, rows: seq<R>): multiset<real> {
    if rows == [] then multiset{}
    else (if cost(rows[0]).Some? then multiset{cost(rows[0]).value} else multiset{}) + CostBag(cost, rows[1..])
  }

  lemma {:induction false} InsertBag<R>(cost: R -> Option<real>, le: (R, R) -> bool, x: R, ys: seq<R>)
    ensures CostBag(cost, Sorting.Insert(le, x, ys)) == CostBag(cost, [x] + ys)
  {
    assert ([x] + ys)[1..] == ys;
    if ys != [] && !le(x, ys[0]) {
      InsertBag(cost, le, x, ys[1..]);
      assert ([x] + ys[1..])[1..] == ys[1..];
      assert ([ys[0]] + Sorting.Insert(le, x, ys[1..]))[1..] == Sorting.Insert(le, x, ys[1..]);
    }
  }

  lemma {:induction false} SortBag<R>(cost: R -> Option<real>, le: (R, R) -> bool, rows: seq<R>)
    ensures CostBag(cost, Sorting.Sort(le, rows)) == CostBag(cost, rows)
  {
    if rows != [] {
      SortBag(cost, le, rows[1..]);
      InsertBag(cost, le, rows[0], Sorting.Sort(le, rows[1..]));
      assert ([rows[0]] + Sorting.Sort(le, rows[1..]))[1..] == Sorting.Sort(le, rows[1..]);
    }
  }

  lemma {:induction false} ValuesBag<R>(cost: R -> Option<real>, rows: seq<R>)
    requires AllPriced(cost, rows)
    ensures multiset(Values(cost, rows)) == CostBag(cost, rows)
  {
    if rows != [] {
      ValuesBag(cost, rows[1..]);
      assert Values(cost, rows) == [cost(rows[0]).value] + Values(cost, rows[1..]);
    }
  }

  lemma SortedBag<R>(cost: R -> Option<real>, descending: bool, rows: seq<R>)
    requires AllPriced(cost, rows) && AllPriced(cost, Sorting.Sort(NotAfter(cost, descending), rows))
    ensures multiset(Values(cost, Sorting.Sort(NotAfter(cost, descending), rows))) == CostBag(cost, rows)
  {
    SortBag(cost, NotAfter(cost, descending), rows);
    ValuesBag(cost, Sorting.Sort(NotAfter(cost, descending), rows));
  }

  ghost predicate Falling(vs: seq<real>) { forall i, j :: 0 <= i < j < |vs| ==> vs[j] <= vs[i] }

  lemma ValuesOrder<R>(cost: R -> Option<real>, descending: bool, s: seq<R>)
    requires AllPriced(cost, s) && Sorting.Ordered(NotAfter(cost, descending), s)
    ensures if descending then Falling(Values(cost, s)) else Climbing(Values(cost, s))
  {
    forall i, j | 0 <= i < j < |s|
      ensures if descending then cost(s[j]).value <= cost(s[i]).value else cost(s[i]).value <= cost(s[j]).value
    {
      assert NotAfter(cost, descending)(s[i], s[j]);
    }
  }

  lemma MirrorValues(down: seq<real>, up: seq<real>)
    requires Falling(down) && Climbing(up) && multiset(down) == multiset(up)
    ensures down == Reverse(up)
  {
    ReverseFacts(down);
    ReverseFacts(up);
    ClimbingUnique(Reverse(down), up);
    forall i | 0 <= i < |down| ensures down[i] == Reverse(up)[i] {
      assert Reverse(down)[|down| - 1 - i] == down[i];
    }
  }

  lemma SortedOrder<R>(cost: R -> Option<real>, descending: bool, rows: seq<R>)
    ensures Sorting.Ordered(NotAfter(cost, descending), Sorting.Sort(NotAfter(cost, descending), rows))
  {
    ComparatorIsPreorder(cost, rows, descending);
    Sorting.SortFacts(NotAfter(cost, descending), rows);
  }

  /** The priced part of the descending board shows the ascending costs backwards. */
  lemma DirectionsMirror<R>(cost: R -> Option<real>, rows: seq<R>)
    requires AllPriced(cost, rows)
    ensures AllPriced(cost, Sorting.Sort(NotAfter(cost, true), rows))
    ensures AllPriced(cost, Sorting.Sort(NotAfter(cost, false), rows))
    ensures Values(cost, Sorting.Sort(NotAfter(cost, true), rows)) ==
            Reverse(Values(cost, Sorting.Sort(NotAfter(cost, false), rows)))
  {
    var down, up := Sorting.Sort(NotAfter(cost, true), rows), Sorting.Sort(NotAfter(cost, false), rows);
    SortedPriced(cost, true, rows);
    SortedPriced(cost, false, rows);
    SortedOrder(cost, true, rows);
    SortedOrder(cost, false, rows);
    SortedBag(cost, true, rows);
    SortedBag(cost, false, rows);
    ValuesOrder(cost, true, down);
    ValuesOrder(cost, false, up);
    MirrorValues(Values(cost, down), Values(cost, up));
  }

  /** The board itself: in both directions the priced rows come first, ordered by cost with ties
      in their original order, and the rows without a cost follow in their original order. */
  lemma BoardOrder(rows: seq<Row>, descending: bool, r: Row)
    ensures var le := NotAfter(CostNumber, descending);
            && Sorting.Sort(le, rows) == Sorting.Sort(le, Priced(CostNumber, rows)) + Unpriced(CostNumber, rows)
            && Sorting.Ordered(le, Sorting.Sort(le, rows))
            && Sorting.Ties(le, r, Sorting.Sort(le, rows)) == Sorting.Ties(le, r, rows)
  {
    UnpricedLast(CostNumber, descending, rows);
    ComparatorIsPreorder(CostNumber, rows, descending);
    ComparatorIsPreorder(CostNumber, [r] + rows, descending);
    Sorting.SortFacts(NotAfter(CostNumber, descending), rows);
    Sorting.SortStable(NotAfter(CostNumber, descending), rows, r);
  }
}
