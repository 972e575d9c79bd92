/** The guard that refuses a graph with a dependency cycle, before anything is scheduled:
    an iterative depth-first search with a grey and a black colour. */
module Acyclic {
  import opened Graph

  datatype Colour = Grey | Black

  ghost predicate ChildReaches<N>(g: Graph<N>, a: N, i: int, b: N)
    requires Closed(g) && a in g
  {
    0 <= i < |g[a]| && Reachable(g, g[a][i].1, b)
  }

  /** a reaches b along at least one edge */
  ghost predicate Precedes<N>(g: Graph<N>, a: N, b: N)
    requires Closed(g)
  {
    a in g && exists i :: ChildReaches(g, a, i, b)
  }

  ghost predicate Cyclic<N>(g: Graph<N>, root: N)
    requires Closed(g) && root in g
  {
    exists n :: n in g && Reachable(g, root, n) && Precedes(g, n, n)
  }

  lemma PrecedesChild<N>(g: Graph<N>, a: N, i: nat)
    requires Closed(g) && a in g && i < |g[a]|
    ensures Precedes(g, a, g[a][i].1)
  {
    ReachableSelf(g, g[a][i].1);
    assert ChildReaches(g, a, i, g[a][i].1);
  }

  lemma PrecedesTransitive<N>(g: Graph<N>, a: N, b: N, c: N)
    requires Closed(g) && Precedes(g, a, b) && Precedes(g, b, c)
    ensures Precedes(g, a, c)
  {
    var i :| ChildReaches(g, a, i, b);
    var j :| ChildReaches(g, b, j, c);
    ReachableStep(g, g[a][i].1, b, j);
    ReachableTransitive(g, g[a][i].1, g[b][j].1, c);
    assert ChildReaches(g, a, i, c);
  }

  // ---- a list in which every child comes before its parent ------------------

  ghost predicate ChildrenEarlier<N>(g: Graph<N>, order: seq<N>, k: int) {
    0 <= k < |order| ==>
      order[k] in g && forall i :: 0 <= i < |g[order[k]]| ==> g[order[k]][i].1 in order[..k]
  }

  /** A dependency order: distinct nodes, each after all its dependencies. */
  ghost predicate Topological<N>(g: Graph<N>, order: seq<N>) {
    && (forall i, j :: 0 <= i < j < |order| ==> order[i] != order[j])
    && (forall k :: 0 <= k < |order| ==> ChildrenEarlier(g, order, k))
  }

  lemma {:induction false} TopologicalWithin<N>(g: Graph<N>, order: seq<N>, k: nat, steps: nat)
    requires Closed(g) && Topological(g, order) && k < |order|
    requires order[k] in g
    ensures forall n :: n in Within(g, order[k], steps) ==> n in order[..k + 1]
  {
    if steps > 0 {
      TopologicalWithin(g, order, k, steps - 1);
      forall n | n in Within(g, order[k], steps) ensures n in order[..k + 1] {
        if n !in Within(g, order[k], steps - 1) {
          var m, i :| m in Within(g, order[k], steps - 1) && 0 <= i < |g[m]| && g[m][i].1 == n;
          var j :| 0 <= j < k + 1 && order[..k + 1][j] == m;
          assert ChildrenEarlier(g, order, j);
          assert n in order[..j];
        }
      }
    }
  }

  lemma TopologicalHasNoCycle<N>(g: Graph<N>, order: seq<N>, n: N)
    requires Closed(g) && Topological(g, order) && n in order
    ensures !Precedes(g, n, n)
  {
    if Precedes(g, n, n) {
      var k :| 0 <= k < |order| && order[k] == n;
      assert ChildrenEarlier(g, order, k);
      var i :| ChildReaches(g, n, i, n);
      var c := g[n][i].1;
      var j :| 0 <= j < k && order[..k][j] == c;
      var steps: nat :| n in Within(g, c, steps);
      assert ChildrenEarlier(g, order, j);
      TopologicalWithin(g, order, j, steps);
      assert false;
    }
  }

  // ---- the stack's invariant -------------------------------------------------

  type Frame<N> = (N, bool)

  predicate Coloured<N(==)>(state: map<N, Colour>, n: N, c: Colour) {
    n in state && state[n] == c
  }

  /** Every leaving entry below position j stands for an ancestor of entry j. */
  ghost predicate Ancestors<N>(g: Graph<N>, stack: seq<Frame<N>>, i: int, j: int)
    requires Closed(g)
  {
    0 <= i < j < |stack| && stack[i].1 ==> Precedes(g, stack[i].0, stack[j].0)
  }

  ghost predicate ChildDone<N>(g: Graph<N>, state: map<N, Colour>, stack: seq<Frame<N>>, i: int, k: int)
    requires 0 <= i < |stack| && stack[i].0 in g && 0 <= k < |g[stack[i].0]|
  {
    Coloured(state, g[stack[i].0][k].1, Black) || exists j :: i < j < |stack| && stack[j].0 == g[stack[i].0][k].1
  }

  /** A grey node's children are black or still above it on the stack. */
  ghost predicate ChildrenAhead<N>(g: Graph<N>, state: map<N, Colour>, stack: seq<Frame<N>>, i: int) {
    0 <= i < |stack| && stack[i].1 && stack[i].0 in g ==>
      forall k :: 0 <= k < |g[stack[i].0]| ==> ChildDone(g, state, stack, i, k)
  }

  ghost predicate OnStackOnce<N>(stack: seq<Frame<N>>, i: int, j: int) {
    0 <= i < j < |stack| && stack[i].1 && stack[j].1 ==> stack[i].0 != stack[j].0
  }

  ghost predicate Leaving<N>(stack: seq<Frame<N>>, n: N) {
    exists i :: 0 <= i < |stack| && stack[i] == (n, true)
  }

  /** Stack entries are reachable and lie on the path that led to them. */
  ghost predicate Paths<N>(g: Graph<N>, root: N, stack: seq<Frame<N>>) {
    && Closed(g) && root in g
    && (forall i :: 0 <= i < |stack| ==> stack[i].0 in g && Reachable(g, root, stack[i].0))
    && (forall i, j :: 0 <= i < j < |stack| ==> Ancestors(g, stack, i, j))
    && (forall i, j :: 0 <= i < j < |stack| ==> OnStackOnce(stack, i, j))
  }

  /** Grey is "on the stack as leaving"; black is "listed", children first. */
  ghost predicate Colours<N>(g: Graph<N>, state: map<N, Colour>, stack: seq<Frame<N>>, order: seq<N>) {
    && state.Keys <= g.Keys
    && (forall n {:trigger Coloured(state, n, Grey)} {:trigger Leaving(stack, n)} :: n in g ==>
          (Coloured(state, n, Grey) <==> Leaving(stack, n)))
    && (forall n {:trigger Coloured(state, n, Black)} {:trigger n in order} :: n in g ==>
          (Coloured(state, n, Black) <==> n in order))
    && (forall i :: 0 <= i < |order| ==> order[i] in g)
    && Topological(g, order)
  }

  ghost predicate Ahead<N>(g: Graph<N>, state: map<N, Colour>, stack: seq<Frame<N>>) {
    forall i :: 0 <= i < |stack| ==> ChildrenAhead(g, state, stack, i)
  }

  ghost predicate SearchInv<N>(g: Graph<N>, root: N, state: map<N, Colour>, stack: seq<Frame<N>>, order: seq<N>) {
    && Paths(g, root, stack) && Colours(g, state, stack, order) && Ahead(g, state, stack)
    && (Coloured(state, root, Black) || (|stack| > 0 && stack[0].0 == root))
  }

  // ---- each step keeps the invariant -----------------------------------------

  lemma PopKeepsPaths<N>(g: Graph<N>, root: N, stack: seq<Frame<N>>)
    requires Paths(g, root, stack) && |stack| > 0
    ensures Paths(g, root, stack[..|stack| - 1])
  {
    var rest := stack[..|stack| - 1];
    forall i, j | 0 <= i < j < |rest| ensures Ancestors(g, rest, i, j) && OnStackOnce(rest, i, j) {
      assert Ancestors(g, stack, i, j) && OnStackOnce(stack, i, j);
    }
  }

  /** Once the top entry's node is black, dropping the entry leaves no child forgotten. */
  lemma PopKeepsAhead<N>(g: Graph<N>, state: map<N, Colour>, state': map<N, Colour>, stack: seq<Frame<N>>)
    requires Ahead(g, state, stack) && |stack| > 0
    requires forall n :: n in g && Coloured(state, n, Black) ==> Coloured(state', n, Black)
    requires Closed(g) && Coloured(state', stack[|stack| - 1].0, Black)
    ensures Ahead(g, state', stack[..|stack| - 1])
  {
    var rest := stack[..|stack| - 1];
    forall i | 0 <= i < |rest| ensures ChildrenAhead(g, state', rest, i) {
      if rest[i].1 && rest[i].0 in g {
        assert ChildrenAhead(g, state, stack, i);
        forall k | 0 <= k < |g[rest[i].0]| ensures ChildDone(g, state', rest, i, k) {
          assert ChildDone(g, state, stack, i, k);
        }
      }
    }
  }

  lemma ListedLast<N>(g: Graph<N>, order: seq<N>, n: N)
    requires Topological(g, order) && n in g && n !in order
    requires forall i :: 0 <= i < |g[n]| ==> g[n][i].1 in order
    ensures Topological(g, order + [n])
  {
    var order' := order + [n];
    forall k | 0 <= k < |order'| ensures ChildrenEarlier(g, order', k) {
      assert order'[..k] == order[..k];
      if k < |order| {
        assert ChildrenEarlier(g, order, k);
      } else {
        assert order[..k] == order;
      }
    }
  }

  lemma LeaveKeepsColours<N>(g: Graph<N>, root: N, state: map<N, Colour>, stack: seq<Frame<N>>, order: seq<N>)
    requires SearchInv(g, root, state, stack, order) && |stack| > 0 && stack[|stack| - 1].1
    ensures Colours(g, state[stack[|stack| - 1].0 := Black], stack[..|stack| - 1], order + [stack[|stack| - 1].0])
  {
    var top := |stack| - 1;
    var n, rest := stack[top].0, stack[..top];
    var state', order' := state[n := Black], order + [n];
    assert Leaving(stack, n);
    assert Coloured(state, n, Grey) && !Coloured(state, n, Black) && n !in order;
    forall m | m in g ensures Coloured(state', m, Grey) <==> Leaving(rest, m) {
      assert Coloured(state, m, Grey) <==> Leaving(stack, m);
      if Leaving(rest, m) {
        var i :| 0 <= i < |rest| && rest[i] == (m, true);
        assert stack[i] == (m, true) && OnStackOnce(stack, i, top);
      }
      if m != n && Leaving(stack, m) {
        var i :| 0 <= i < |stack| && stack[i] == (m, true);
        assert rest[i] == (m, true);
      }
    }
    forall m | m in g ensures Coloured(state', m, Black) <==> m in order' {
      assert Coloured(state, m, Black) <==> m in order;
    }
    assert ChildrenAhead(g, state, stack, top);
    forall i | 0 <= i < |g[n]| ensures g[n][i].1 in order {
      assert ChildDone(g, state, stack, top, i);
    }
    ListedLast(g, order, n);
  }

  lemma SkipKeepsColours<N>(g: Graph<N>, state: map<N, Colour>, stack: seq<Frame<N>>, order: seq<N>)
    requires Colours(g, state, stack, order) && |stack| > 0 && !stack[|stack| - 1].1
    ensures Colours(g, state, stack[..|stack| - 1], order)
  {
    var rest := stack[..|stack| - 1];
    forall m | m in g ensures Coloured(state, m, Grey) <==> Leaving(rest, m) {
      assert Coloured(state, m, Grey) <==> Leaving(stack, m);
      if Leaving(stack, m) {
        var i :| 0 <= i < |stack| && stack[i] == (m, true);
        assert rest[i] == (m, true);
      }
    }
  }

  /** An empty stack means the root is listed, with everything it depends on before it. */
  lemma SearchedAll<N>(g: Graph<N>, root: N, state: map<N, Colour>, order: seq<N>)
    requires SearchInv(g, root, state, [], order)
    ensures root in order && !Cyclic(g, root)
    ensures Topological(g, order) && forall n :: n in order ==> n in g
  {
    assert root in order;
    if Cyclic(g, root) {
      var n :| n in g && Reachable(g, root, n) && Precedes(g, n, n);
      var k :| 0 <= k < |order| && order[k] == root;
      var steps: nat :| n in Within(g, root, steps);
      TopologicalWithin(g, order, k, steps);
      TopologicalHasNoCycle(g, order, n);
    }
  }

  /** The children still to be searched, as pushed above their parent. */
  ghost function Pushed<N>(g: Graph<N>, state: map<N, Colour>, kids: seq<Dep<N>>): seq<Frame<N>> {
    if kids == [] then []
    else
      var before, kid := Pushed(g, state, kids[..|kids| - 1]), kids[|kids| - 1].1;
      if Coloured(state, kid, Black) then before else before + [(kid, false)]
  }

  lemma {:induction false} PushedAreKids<N>(g: Graph<N>, state: map<N, Colour>, kids: seq<Dep<N>>, j: nat)
    requires j < |Pushed(g, state, kids)|
    ensures !Pushed(g, state, kids)[j].1 && exists k :: 0 <= k < |kids| && kids[k].1 == Pushed(g, state, kids)[j].0
  {
    var last := |kids| - 1;
    var before := Pushed(g, state, kids[..last]);
    if j < |before| {
      PushedAreKids(g, state, kids[..last], j);
      var k :| 0 <= k < last && kids[..last][k].1 == before[j].0;
      assert kids[k].1 == before[j].0;
    }
  }

  lemma {:induction false} KidsArePushed<N>(g: Graph<N>, state: map<N, Colour>, kids: seq<Dep<N>>, k: nat)
    requires k < |kids| && !Coloured(state, kids[k].1, Black)
    ensures (kids[k].1, false) in Pushed(g, state, kids)
  {
    var last := |kids| - 1;
    if k < last {
      KidsArePushed(g, state, kids[..last], k);
    }
  }

  lemma PushedHas<N>(g: Graph<N>, state: map<N, Colour>, kids: seq<Dep<N>>)
    ensures forall j :: 0 <= j < |Pushed(g, state, kids)| ==>
              !Pushed(g, state, kids)[j].1 && exists k :: 0 <= k < |kids| && kids[k].1 == Pushed(g, state, kids)[j].0
    ensures forall k :: 0 <= k < |kids| ==>
              Coloured(state, kids[k].1, Black) || (kids[k].1, false) in Pushed(g, state, kids)
  {
    forall j | 0 <= j < |Pushed(g, state, kids)|
      ensures !Pushed(g, state, kids)[j].1 && exists k :: 0 <= k < |kids| && kids[k].1 == Pushed(g, state, kids)[j].0
    {
      PushedAreKids(g, state, kids, j);
    }
    forall k | 0 <= k < |kids| && !Coloured(state, kids[k].1, Black)
      ensures (kids[k].1, false) in Pushed(g, state, kids)
    {
      KidsArePushed(g, state, kids, k);
    }
  }

  lemma EnterKeepsPaths<N>(g: Graph<N>, root: N, state: map<N, Colour>, stack: seq<Frame<N>>, order: seq<N>)
    requires SearchInv(g, root, state, stack, order) && |stack| > 0
    requires stack[|stack| - 1].0 !in state
    ensures var n := stack[|stack| - 1].0;
            Paths(g, root, stack[..|stack| - 1] + [(n, true)] + Pushed(g, state[n := Grey], g[n]))
  {
    var top := |stack| - 1;
    var n := stack[top].0;
    var kids := Pushed(g, state[n := Grey], g[n]);
    var stack' := stack[..top] + [(n, true)] + kids;
    PushedHas(g, state[n := Grey], g[n]);
    assert !Coloured(state, n, Grey) && !Leaving(stack, n);
    assert forall i :: 0 <= i < top ==> stack'[i] == stack[i] && stack[i] != (n, true);
    forall j | 0 <= j < |stack'|
      ensures stack'[j].0 in g && Reachable(g, root, stack'[j].0)
      ensures j > top ==> !stack'[j].1 && Precedes(g, n, stack'[j].0)
    {
      if j > top {
        assert stack'[j] == kids[j - top - 1];
        var k :| 0 <= k < |g[n]| && g[n][k].1 == stack'[j].0;
        PrecedesChild(g, n, k);
        ReachableStep(g, root, n, k);
      }
    }
    forall i, j | 0 <= i < j < |stack'| ensures Ancestors(g, stack', i, j) && OnStackOnce(stack', i, j) {
      if i < top {
        assert Ancestors(g, stack, i, if j < top then j else top);
        assert OnStackOnce(stack, i, if j < top then j else top);
        if stack'[i].1 && j > top {
          PrecedesTransitive(g, stack'[i].0, n, stack'[j].0);
        }
      }
    }
  }

  lemma EnterKeepsColours<N>(g: Graph<N>, root: N, state: map<N, Colour>, stack: seq<Frame<N>>, order: seq<N>)
    requires SearchInv(g, root, state, stack, order) && |stack| > 0
    requires stack[|stack| - 1].0 !in state
    ensures var n := stack[|stack| - 1].0;
            Colours(g, state[n := Grey], stack[..|stack| - 1] + [(n, true)] + Pushed(g, state[n := Grey], g[n]), order)
  {
    var top := |stack| - 1;
    var n := stack[top].0;
    var state' := state[n := Grey];
    var kids := Pushed(g, state', g[n]);
    var stack' := stack[..top] + [(n, true)] + kids;
    PushedHas(g, state', g[n]);
    assert !Coloured(state, n, Black);
    assert stack'[top] == (n, true);
    assert !Coloured(state, n, Grey) && !Leaving(stack, n);
    assert stack[top] != (n, true);
    assert forall i :: top < i < |stack'| ==> stack'[i] == kids[i - top - 1];
    forall m | m in g ensures Coloured(state', m, Grey) <==> Leaving(stack', m) {
      assert Coloured(state, m, Grey) <==> Leaving(stack, m);
      if Leaving(stack, m) {
        var i :| 0 <= i < |stack| && stack[i] == (m, true);
        assert stack'[i] == (m, true);
      }
      if m != n && Leaving(stack', m) {
        var i :| 0 <= i < |stack'| && stack'[i] == (m, true);
        assert stack[i] == (m, true);
      }
    }
    forall m | m in g ensures Coloured(state', m, Black) <==> m in order {
      assert Coloured(state, m, Black) <==> m in order;
    }
  }

  /** Entries below a replaced top keep their children black or above them. */
  lemma BelowKeepsAhead<N>(g: Graph<N>, state: map<N, Colour>, state': map<N, Colour>,
                           stack: seq<Frame<N>>, stack': seq<Frame<N>>, i: nat)
    requires Ahead(g, state, stack) && i < |stack| - 1 && |stack| <= |stack'|
    requires stack'[..|stack| - 1] == stack[..|stack| - 1] && stack'[|stack| - 1].0 == stack[|stack| - 1].0
    requires Closed(g) && forall n :: Coloured(state, n, Black) ==> Coloured(state', n, Black)
    ensures ChildrenAhead(g, state', stack', i)
  {
    var top := |stack| - 1;
    assert forall j :: 0 <= j <= top ==> stack'[j].0 == stack[j].0 by {
      assert forall j :: 0 <= j < top ==> stack'[j] == stack'[..top][j] && stack[j] == stack[..top][j];
    }
    assert stack'[i] == stack'[..top][i] && stack[i] == stack[..top][i];
    if stack'[i].1 && stack'[i].0 in g {
      assert ChildrenAhead(g, state, stack, i);
      forall k | 0 <= k < |g[stack'[i].0]| ensures ChildDone(g, state', stack', i, k) {
        assert ChildDone(g, state, stack, i, k);
        if !Coloured(state, g[stack[i].0][k].1, Black) {
          var j :| i < j < |stack| && stack[j].0 == g[stack[i].0][k].1;
          assert stack'[j].0 == stack[j].0;
        }
      }
    }
  }

  /** The entered node's children are black or were just pushed above it. */
  lemma EnteredAhead<N>(g: Graph<N>, state: map<N, Colour>, n: N, below: seq<Frame<N>>)
    requires n in g
    ensures ChildrenAhead(g, state, below + [(n, true)] + Pushed(g, state, g[n]), |below|)
  {
    var kids := Pushed(g, state, g[n]);
    var stack := below + [(n, true)] + kids;
    PushedHas(g, state, g[n]);
    forall k | 0 <= k < |g[n]| ensures ChildDone(g, state, stack, |below|, k) {
      if !Coloured(state, g[n][k].1, Black) {
        var j :| 0 <= j < |kids| && kids[j] == (g[n][k].1, false);
        assert stack[|below| + 1 + j] == kids[j];
      }
    }
  }

  lemma EnterKeepsAhead<N>(g: Graph<N>, state: map<N, Colour>, stack: seq<Frame<N>>)
    requires Closed(g) && Ahead(g, state, stack) && |stack| > 0
    requires stack[|stack| - 1].0 !in state && stack[|stack| - 1].0 in g
    ensures var n := stack[|stack| - 1].0;
            Ahead(g, state[n := Grey], stack[..|stack| - 1] + [(n, true)] + Pushed(g, state[n := Grey], g[n]))
  {
    var top := |stack| - 1;
    var n := stack[top].0;
    var state' := state[n := Grey];
    var kids := Pushed(g, state', g[n]);
    var stack' := stack[..top] + [(n, true)] + kids;
    forall i | 0 <= i < |stack'| ensures ChildrenAhead(g, state', stack', i) {
      if i < top {
        BelowKeepsAhead(g, state, state', stack, stack', i);
      } else if i == top {
        EnteredAhead(g, state', n, stack[..top]);
      } else {
        PushedHas(g, state', g[n]);
        assert stack'[i] == kids[i - top - 1];
      }
    }
  }

  lemma TopApart<N>(stack: seq<Frame<N>>)
    requires |stack| > 0
    ensures var top := stack[|stack| - 1]; stack == stack[..|stack| - 1] + [(top.0, top.1)]
  {
    var (n, leaving) := stack[|stack| - 1];
    assert stack[|stack| - 1] == (n, leaving);
  }

  lemma BeforeSearch<N>(g: Graph<N>, root: N)
    requires Closed(g) && root in g
    ensures SearchInv(g, root, map[], [(root, false)], [])
  {
    ReachableSelf(g, root);
  }

  lemma LeaveStep<N>(g: Graph<N>, root: N, state: map<N, Colour>, below: seq<Frame<N>>, n: N, order: seq<N>)
    requires SearchInv(g, root, state, below + [(n, true)], order)
    ensures SearchInv(g, root, state[n := Black], below, order + [n])
    ensures g.Keys - state[n := Black].Keys == g.Keys - state.Keys
  {
    var stack := below + [(n, true)];
    assert stack[..|stack| - 1] == below;
    assert Leaving(stack, n) by { assert stack[|stack| - 1] == (n, true); }
    assert Coloured(state, n, Grey);
    LeaveKeepsColours(g, root, state, stack, order);
    PopKeepsPaths(g, root, stack);
    PopKeepsAhead(g, state, state[n := Black], stack);
  }

  lemma SkipStep<N>(g: Graph<N>, root: N, state: map<N, Colour>, below: seq<Frame<N>>, n: N, order: seq<N>)
    requires SearchInv(g, root, state, below + [(n, false)], order) && Coloured(state, n, Black)
    ensures SearchInv(g, root, state, below, order)
  {
    var stack := below + [(n, false)];
    assert stack[..|stack| - 1] == below;
    PopKeepsPaths(g, root, stack);
    PopKeepsAhead(g, state, state, stack);
    SkipKeepsColours(g, state, stack, order);
  }

  lemma EnterStep<N>(g: Graph<N>, root: N, state: map<N, Colour>, below: seq<Frame<N>>, n: N, order: seq<N>)
    requires SearchInv(g, root, state, below + [(n, false)], order) && n !in state
    ensures n in g
    ensures var state' := state[n := Grey];
            SearchInv(g, root, state', below + [(n, true)] + Pushed(g, state', g[n]), order)
    ensures |g.Keys - state[n := Grey].Keys| < |g.Keys - state.Keys|
  {
    assert g.Keys - state[n := Grey].Keys == (g.Keys - state.Keys) - {n};
    var stack := below + [(n, false)];
    assert stack[..|stack| - 1] == below && stack[|stack| - 1] == (n, false);
    EnterKeepsPaths(g, root, state, stack, order);
    EnterKeepsColours(g, root, state, stack, order);
    EnterKeepsAhead(g, state, stack);
  }

  lemma GreyAgain<N>(g: Graph<N>, root: N, state: map<N, Colour>, below: seq<Frame<N>>, n: N, order: seq<N>)
    requires SearchInv(g, root, state, below + [(n, false)], order) && Coloured(state, n, Grey)
    ensures Cyclic(g, root)
  {
    var stack := below + [(n, false)];
    var top := |stack| - 1;
    assert stack[top] == (n, false);
    assert Leaving(stack, n);
    var i :| 0 <= i < |stack| && stack[i] == (n, true);
    assert i < top && Ancestors(g, stack, i, top);
    assert n in g && Reachable(g, root, n) && Precedes(g, n, n);
  }

  // ---- the search -------------------------------------------------------------

  method PushChildren<N(==)>(g: Graph<N>, node: N, state: map<N, Colour>, base: seq<Frame<N>>)
    returns (stack: seq<Frame<N>>)
    requires node in g
    ensures stack == base + Pushed(g, state, g[node])
  {
    stack := base;
    for i := 0 to |g[node]|
      invariant stack == base + Pushed(g, state, g[node][..i])
    {
      var dep := g[node][i].1;
      assert g[node][..i + 1][..i] == g[node][..i];
      if !(dep in state && state[dep] == Black) {
        stack := stack + [(dep, false)];
      }
    }
    assert g[node][..|g[node]|] == g[node];
  }

  /** Refuses exactly the graphs in which some node reachable from the root depends on itself.
      When it does not refuse, `order` lists everything reachable, dependencies first. */
  method CheckAcyclic<N(==)>(g: Graph<N>, root: N) returns (cyclic: bool, ghost order: seq<N>)
    requires Closed(g) && root in g
    ensures cyclic <==> Cyclic(g, root)
    ensures !cyclic ==> Topological(g, order) && root in order && forall n :: n in order ==> n in g
  {
    var state: map<N, Colour> := map[];
    var stack := [(root, false)];
    order := [];
    BeforeSearch(g, root);
    while |stack| > 0
      invariant SearchInv(g, root, state, stack, order)
      decreases |g.Keys - state.Keys|, |stack|
    {
      ghost var below := stack[..|stack| - 1];
      var (node, leaving) := stack[|stack| - 1];
      TopApart(stack);
      stack := stack[..|stack| - 1];
      if leaving {
        LeaveStep(g, root, state, below, node, order);
        order, state := order + [node], state[node := Black];
      } else if Coloured(state, node, Black) {
        SkipStep(g, root, state, below, node, order);
      } else if Coloured(state, node, Grey) {
        GreyAgain(g, root, state, below, node, order);
        return true, order;
      } else {
        EnterStep(g, root, state, below, node, order);
        state := state[node := Grey];
        stack := PushChildren(g, node, state, stack + [(node, true)]);
      }
    }
    SearchedAll(g, root, state, order);
    return false, order;
  }
}
