/** Stable sorting by a total preorder, as the library sorts of both languages promise it. */
module Sorting {

  ghost predicate PreorderOn<T>(le: (T, T) -> bool, s: seq<T>) {
    && (forall x, y :: x in s && y in s ==> le(x, y) || le(y, x))
    && (forall x, y, z :: x in s && y in s && z in s && le(x, y) && le(y, z) ==> le(x, z))
  }

  function Insert<T>(le: (T, T) -> bool, x: T, ys: seq<T>): seq<T> {
    if ys == [] || le(x, ys[0]) then [x] + ys else [ys[0]] + Insert(le, x, ys[1..])
  }

  function Sort<T>(le: (T, T) -> bool, xs: seq<T>): seq<T> {
    if xs == [] then [] else Insert(le, xs[0], Sort(le, xs[1..]))
  }

  ghost predicate Ordered<T>(le: (T, T) -> bool, ys: seq<T>) {
    forall i, j :: 0 <= i < j < |ys| ==> le(ys[i], ys[j])
  }

  /** The elements tied with x, in order. */
  function Ties<T>(le: (T, T) -> bool, x: T, ys: seq<T>): seq<T> {
    if ys == [] then []
    else (if le(x, ys[0]) && le(ys[0], x) then [ys[0]] else []) + Ties(le, x, ys[1..])
  }

  lemma {:induction false} InsertPermutes<T>(le: (T, T) -> bool, x: T, ys: seq<T>)
    ensures multiset(Insert(le, x, ys)) == multiset(ys) + multiset{x}
  {
    if ys != [] && !le(x, ys[0]) {
      InsertPermutes(le, x, ys[1..]);
      assert ys == [ys[0]] + ys[1..];
    }
  }

  lemma {:induction false} InsertOrdered<T>(le: (T, T) -> bool, x: T, ys: seq<T>)
    requires PreorderOn(le, [x] + ys) && Ordered(le, ys)
    ensures Ordered(le, Insert(le, x, ys))
  {
    assert forall y :: y in [x] + ys <==> y == x || y in ys;
    if ys != [] && !le(x, ys[0]) {
      var rest := ys[1..];
      assert ys == [ys[0]] + rest;
      InsertOrdered(le, x, rest);
      InsertPermutes(le, x, rest);
      var r := Insert(le, x, rest);
      forall j | 0 <= j < |r| ensures le(ys[0], r[j]) {
        assert r[j] in multiset(rest) + multiset{x};
        if r[j] != x {
          var k :| 0 <= k < |rest| && rest[k] == r[j];
          assert le(ys[0], ys[k + 1]);
        }
      }
    } else if ys != [] {
      forall j | 0 <= j < |ys| ensures le(x, ys[j]) {
        assert j > 0 ==> le(ys[0], ys[j]);
        assert ys[0] in [x] + ys && ys[j] in [x] + ys;
      }
    }
  }

  lemma {:induction false} InsertTies<T>(le: (T, T) -> bool, x: T, ys: seq<T>, c: T)
    requires PreorderOn(le, [c, x] + ys)
    ensures Ties(le, c, Insert(le, x, ys)) == Ties(le, c, [x] + ys)
  {
    assert ([x] + ys)[1..] == ys;
    if ys != [] && !le(x, ys[0]) {
      var rest := ys[1..];
      assert forall y :: y in [c, x] + rest ==> y in [c, x] + ys;
      InsertTies(le, x, rest, c);
      assert ([ys[0]] + Insert(le, x, rest))[1..] == Insert(le, x, rest);
      assert ([x] + rest)[1..] == rest;
      assert c in [c, x] + ys && x in [c, x] + ys && ys[0] in [c, x] + ys;
    }
  }

  /** A sort permutes, orders, and keeps ties in their original order. */
  lemma {:induction false} SortFacts<T>(le: (T, T) -> bool, xs: seq<T>)
    requires PreorderOn(le, xs)
    ensures multiset(Sort(le, xs)) == multiset(xs)
    ensures Ordered(le, Sort(le, xs))
  {
    if xs != [] {
      assert xs == [xs[0]] + xs[1..];
      SortFacts(le, xs[1..]);
      var rest := Sort(le, xs[1..]);
      forall y | y in [xs[0]] + rest ensures y in xs {
        if y in rest {
          assert y in multiset(rest);
        }
      }
      InsertPermutes(le, xs[0], rest);
      InsertOrdered(le, xs[0], rest);
    }
  }

  lemma {:induction false} SortStable<T>(le: (T, T) -> bool, xs: seq<T>, c: T)
    requires PreorderOn(le, [c] + xs)
    ensures Ties(le, c, Sort(le, xs)) == Ties(le, c, xs)
  {
    if xs != [] {
      assert xs == [xs[0]] + xs[1..];
      assert forall y :: y in [c] + xs[1..] ==> y in [c] + xs;
      assert forall y :: y in xs ==> y in [c] + xs;
      assert forall y :: y in xs[1..] ==> y in xs;
      SortStable(le, xs[1..], c);
      SortFacts(le, xs[1..]);
      var rest := Sort(le, xs[1..]);
      forall y | y in [c, xs[0]] + rest ensures y in [c] + xs {
        if y in rest {
          assert y in multiset(rest);
        }
      }
      InsertTies(le, xs[0], rest, c);
      assert ([xs[0]] + rest)[1..] == rest;
    }
  }

  lemma {:induction false} TiesMember<T>(le: (T, T) -> bool, c: T, ys: seq<T>, x: T)
    ensures x in Ties(le, c, ys) <==> x in ys && le(c, x) && le(x, c)
  {
    if ys != [] {
      TiesMember(le, c, ys[1..], x);
      assert ys == [ys[0]] + ys[1..];
    }
  }

  /** In an ordered list the head is least. */
  lemma HeadLeast<T>(le: (T, T) -> bool, ys: seq<T>, x: T)
    requires PreorderOn(le, ys) && Ordered(le, ys) && x in ys
    ensures le(ys[0], x)
  {
    var i :| 0 <= i < |ys| && ys[i] == x;
    assert le(ys[0], ys[i]);
  }

  /** There is only one stable sort: order and tie lists determine the whole list. */
  lemma {:induction false} StableSortUnique<T>(le: (T, T) -> bool, a: seq<T>, b: seq<T>)
    requires PreorderOn(le, a + b) && Ordered(le, a) && Ordered(le, b)
    requires forall c :: c in a + b ==> Ties(le, c, a) == Ties(le, c, b)
    ensures a == b
  {
    if a != [] {
      var x := a[0];
      assert x in a + b;
      TiesMember(le, x, a, x);
      TiesMember(le, x, b, x);
      assert x in b;
      assert forall y :: y in a || y in b ==> y in a + b;
      var y := b[0];
      assert y in a + b;
      TiesMember(le, y, b, y);
      TiesMember(le, y, a, y);
      HeadLeast(le, b, x);
      HeadLeast(le, a, y);
      assert Ties(le, x, a)[0] == x && Ties(le, x, b)[0] == y;
      assert x == y;
      var a', b' := a[1..], b[1..];
      assert a == [x] + a' && b == [x] + b';
      assert forall z :: z in a' + b' ==> z in a + b;
      forall c | c in a' + b' ensures Ties(le, c, a') == Ties(le, c, b') {
        assert c in a + b;
        assert Ties(le, c, a) == Ties(le, c, b);
        var head := if le(c, x) && le(x, c) then [x] else [];
        assert Ties(le, c, a) == head + Ties(le, c, a') && Ties(le, c, b) == head + Ties(le, c, b');
        assert Ties(le, c, a') == (head + Ties(le, c, a'))[|head|..];
        assert Ties(le, c, b') == (head + Ties(le, c, b'))[|head|..];
      }
      StableSortUnique(le, a', b');
    }
  }
}
