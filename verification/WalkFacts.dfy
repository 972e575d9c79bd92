/** What the reference traversal of module Graph visits and follows, on every finite
    graph: reachability, one edge per node and role, order of first visits, counts. */
module WalkFacts {
  import opened Graph
  import opened Sequences

  ghost function OwnEdge<N>(e: Edge<N>, n: N): seq<Edge<N>> { if e.parent == n then [e] else [] }

  /** The edges that leave n, in the order they occur. */
  ghost function ByParent<N>(es: seq<Edge<N>>, n: N): seq<Edge<N>> {
    if es == [] then [] else OwnEdge(es[0], n) + ByParent(es[1..], n)
  }

  ghost function OutDegrees<N>(g: Graph<N>, ns: seq<N>): nat
    requires forall i :: 0 <= i < |ns| ==> ns[i] in g
  {
    if ns == [] then 0 else OutDegrees(g, ns[..|ns| - 1]) + |g[ns[|ns| - 1]]|
  }

  ghost predicate IsChild<N>(g: Graph<N>, p: N, c: N) {
    p in g && exists i :: 0 <= i < |g[p]| && g[p][i].1 == c
  }

  /** The node at b was found through a node visited before it. */
  ghost predicate FoundBefore<N>(g: Graph<N>, ns: seq<N>, b: int) {
    0 < b < |ns| ==> exists a :: 0 <= a < b && IsChild(g, ns[a], ns[b])
  }

  /** While the node at a still has a child not visited by b, the node at b is found through
      a node at or after a: the walk goes deep before it goes wide. */
  ghost predicate DeepFirst<N>(g: Graph<N>, ns: seq<N>, a: int, b: int) {
    (0 <= a < b < |ns| && exists c :: c in g && IsChild(g, ns[a], c) && c !in ns[..b + 1]) ==>
      exists d :: a <= d < b && IsChild(g, ns[d], ns[b])
  }

  // ---- filters and positions -----------------------------------------------

  lemma Regroup<T>(x: seq<T>, y: seq<T>, z: seq<T>)
    ensures x + (y + z) == (x + y) + z
  {
  }

  lemma ByParentCons<N>(e: Edge<N>, es: seq<Edge<N>>, n: N)
    ensures ByParent([e] + es, n) == OwnEdge(e, n) + ByParent(es, n)
  {
    assert ([e] + es)[1..] == es;
  }

  lemma {:induction false} ByParentSplit<N>(a: seq<Edge<N>>, b: seq<Edge<N>>, n: N)
    ensures ByParent(a + b, n) == ByParent(a, n) + ByParent(b, n)
  {
    if a == [] {
      assert a + b == b;
    } else {
      var e, rest := a[0], a[1..];
      ByParentSplit(rest, b, n);
      assert a == [e] + rest;
      Regroup([e], rest, b);
      ByParentCons(e, rest + b, n);
      Regroup(OwnEdge(e, n), ByParent(rest, n), ByParent(b, n));
    }
  }

  lemma {:induction false} ByParentUniform<N>(es: seq<Edge<N>>, p: N, n: N)
    requires forall i :: 0 <= i < |es| ==> es[i].parent == p
    ensures ByParent(es, n) == if n == p then es else []
  {
    if es != [] {
      ByParentUniform(es[1..], p, n);
      assert es == [es[0]] + es[1..];
    }
  }

  lemma {:induction false} ByParentMember<N>(es: seq<Edge<N>>, n: N, e: Edge<N>)
    ensures e in ByParent(es, n) <==> e in es && e.parent == n
  {
    if es != [] {
      ByParentMember(es[1..], n, e);
      assert es == [es[0]] + es[1..];
    }
  }

  ghost function Position<N>(ns: seq<N>, n: N): (p: nat)
    ensures n in ns ==> p < |ns| && ns[p] == n
  {
    if ns == [] || ns[0] == n then 0 else 1 + Position(ns[1..], n)
  }

  lemma {:induction false} PositionStays<N>(ns: seq<N>, m: N, n: N)
    requires n in ns
    ensures Position(ns + [m], n) == Position(ns, n)
  {
    if ns[0] != n {
      assert (ns + [m])[1..] == ns[1..] + [m];
      PositionStays(ns[1..], m, n);
    }
  }

  lemma PositionUnique<N>(ns: seq<N>, i: nat)
    requires NoRepeats(ns) && i < |ns|
    ensures Position(ns, ns[i]) == i
  {
  }

  // ---- the invariant of the explicit stack ---------------------------------

  ghost predicate Accounted<N>(g: Graph<N>, es: seq<Edge<N>>, ns: seq<N>, n: N) {
    n in g ==> ByParent(es, n) == if n in ns then Out(g, n) else []
  }

  ghost predicate AllAccounted<N>(g: Graph<N>, es: seq<Edge<N>>, ns: seq<N>) {
    forall n {:trigger Accounted(g, es, ns, n)} :: n in g ==> Accounted(g, es, ns, n)
  }

  /** Every visited node's edges are either followed or pending, each once and in order. */
  ghost predicate Books<N>(g: Graph<N>, sink: N, work: seq<Edge<N>>, w: Walk<N>) {
    && InGraph(g, work, w) && sink in g
    && |w.nodes| > 0 && w.nodes[0] == sink
    && NoRepeats(w.nodes)
    && AllAccounted(g, w.edges + work, w.nodes)
    && (forall i :: 0 <= i < |w.edges| ==> w.edges[i].child in w.nodes)
    && (forall i :: 0 <= i < |w.edges| ==> w.edges[i].parent in w.nodes)
    && (forall i :: 0 <= i < |work| ==> work[i].parent in w.nodes)
    && |w.edges| + |work| == OutDegrees(g, w.nodes)
  }

  ghost predicate Pending<N>(ns: seq<N>, work: seq<Edge<N>>, i: int, j: int) {
    0 <= i < j < |work| ==> Position(ns, work[j].parent) <= Position(ns, work[i].parent)
  }

  /** The stack belongs to ever earlier nodes from its top down, and the order so far is deep first. */
  ghost predicate Order<N>(g: Graph<N>, work: seq<Edge<N>>, w: Walk<N>) {
    && (forall i, j :: 0 <= i < j < |work| ==> Pending(w.nodes, work, i, j))
    && (forall b :: 0 < b < |w.nodes| ==> FoundBefore(g, w.nodes, b))
    && (forall a, b :: 0 <= a < b < |w.nodes| ==> DeepFirst(g, w.nodes, a, b))
  }

  /** A followed or pending edge is one of its parent's own edges, and none is missing. */
  lemma EdgeOf<N>(g: Graph<N>, work: seq<Edge<N>>, w: Walk<N>, e: Edge<N>)
    requires e.parent in g && Accounted(g, w.edges + work, w.nodes, e.parent)
    ensures e in w.edges + work <==> e.parent in w.nodes && e in Out(g, e.parent)
  {
    ByParentMember(w.edges + work, e.parent, e);
  }

  lemma OutEdge<N>(g: Graph<N>, p: N, c: N)
    requires p in g
    ensures IsChild(g, p, c) <==> exists e :: e in Out(g, p) && e.child == c
  {
    if IsChild(g, p, c) {
      var i :| 0 <= i < |g[p]| && g[p][i].1 == c;
      assert Out(g, p)[i] in Out(g, p);
    }
  }

  // ---- one step keeps the invariant ----------------------------------------

  ghost function Visit<N>(w: Walk<N>, e: Edge<N>): Walk<N> {
    Walk(w.nodes + [e.child], w.edges + [e])
  }

  lemma SeenKeepsBooks<N>(g: Graph<N>, sink: N, work: seq<Edge<N>>, w: Walk<N>)
    requires Books(g, sink, work, w) && work != [] && work[0].child in w.nodes
    ensures Books(g, sink, work[1..], w.(edges := w.edges + [work[0]]))
  {
    assert (w.edges + [work[0]]) + work[1..] == w.edges + work;
  }

  lemma SeenKeepsOrder<N>(g: Graph<N>, work: seq<Edge<N>>, w: Walk<N>)
    requires Order(g, work, w) && work != []
    ensures Order(g, work[1..], w.(edges := w.edges + [work[0]]))
  {
    var rest := work[1..];
    forall i, j | 0 <= i < j < |rest| ensures Pending(w.nodes, rest, i, j) {
      assert Pending(w.nodes, work, i + 1, j + 1);
    }
  }

  lemma Around<T>(x: seq<T>, y: seq<T>, z: seq<T>)
    ensures x + z == [] ==> x + (y + z) == y
    ensures y == [] ==> x + (y + z) == x + z
  {
    if x + z == [] {
      assert |x + z| == |x| + |z|;
      assert y + z == y;
    } else if y == [] {
      assert y + z == z;
    }
  }

  /** Splicing a node's own edges in among the others changes the account of that node only. */
  lemma Spliced<N>(a: seq<Edge<N>>, out: seq<Edge<N>>, b: seq<Edge<N>>, p: N, n: N)
    requires forall i :: 0 <= i < |out| ==> out[i].parent == p
    requires n == p ==> ByParent(a + b, n) == []
    ensures ByParent(a + (out + b), n) == if n == p then out else ByParent(a + b, n)
  {
    ByParentSplit(a, b, n);
    ByParentSplit(a, out + b, n);
    ByParentSplit(out, b, n);
    ByParentUniform(out, p, n);
    Around(ByParent(a, n), ByParent(out, n), ByParent(b, n));
  }

  lemma NewAccounted<N>(g: Graph<N>, work: seq<Edge<N>>, w: Walk<N>, n: N)
    requires work != [] && work[0].child !in w.nodes && work[0].child in g && n in g
    requires Accounted(g, w.edges + work, w.nodes, n)
    ensures Accounted(g, Visit(w, work[0]).edges + (Out(g, work[0].child) + work[1..]),
                      Visit(w, work[0]).nodes, n)
  {
    var e := work[0];
    assert work == [e] + work[1..];
    Regroup(w.edges, [e], work[1..]);
    Spliced(w.edges + [e], Out(g, e.child), work[1..], e.child, n);
  }

  lemma NewAllAccounted<N>(g: Graph<N>, work: seq<Edge<N>>, w: Walk<N>)
    requires work != [] && work[0].child !in w.nodes && work[0].child in g
    requires AllAccounted(g, w.edges + work, w.nodes)
    ensures AllAccounted(g, Visit(w, work[0]).edges + (Out(g, work[0].child) + work[1..]), Visit(w, work[0]).nodes)
  {
    forall n | n in g
      ensures Accounted(g, Visit(w, work[0]).edges + (Out(g, work[0].child) + work[1..]), Visit(w, work[0]).nodes, n)
    {
      assert Accounted(g, w.edges + work, w.nodes, n);
      NewAccounted(g, work, w, n);
    }
  }

  lemma NewKeepsBooks<N>(g: Graph<N>, sink: N, work: seq<Edge<N>>, w: Walk<N>)
    requires Books(g, sink, work, w) && work != [] && work[0].child !in w.nodes
    ensures Books(g, sink, Out(g, work[0].child) + work[1..], Visit(w, work[0]))
  {
    var e, out, rest := work[0], Out(g, work[0].child), work[1..];
    var w' := Visit(w, e);
    NewAllAccounted(g, work, w);
    assert w'.nodes[|w.nodes|] == e.child;
    assert w'.nodes[..|w'.nodes| - 1] == w.nodes;
  }

  lemma NewPending<N>(g: Graph<N>, sink: N, work: seq<Edge<N>>, w: Walk<N>, i: int, j: int)
    requires Books(g, sink, work, w) && work != [] && work[0].child !in w.nodes
    requires forall i, j :: 0 <= i < j < |work| ==> Pending(w.nodes, work, i, j)
    ensures Pending(Visit(w, work[0]).nodes, Out(g, work[0].child) + work[1..], i, j)
  {
    var e, out, rest := work[0], Out(g, work[0].child), work[1..];
    var ns, all := w.nodes + [e.child], out + rest;
    if 0 <= i < j < |all| {
      if i < |out| {
        assert ns[|w.nodes|] == all[i].parent;
        PositionUnique(ns, |w.nodes|);
        assert all[j].parent in ns by {
          if j < |out| { assert all[j].parent == e.child; } else { assert all[j] == work[j - |out| + 1]; }
        }
      } else {
        var i', j' := i - |out| + 1, j - |out| + 1;
        assert all[i] == work[i'] && all[j] == work[j'];
        assert Pending(w.nodes, work, i', j');
        PositionStays(w.nodes, e.child, work[i'].parent);
        PositionStays(w.nodes, e.child, work[j'].parent);
      }
    }
  }

  /** An unvisited child's edge is still pending, so it is not above the top of the stack. */
  lemma PendingEdge<N>(g: Graph<N>, sink: N, work: seq<Edge<N>>, w: Walk<N>, a: nat, c: N)
    requires Books(g, sink, work, w) && work != []
    requires forall i, j :: 0 <= i < j < |work| ==> Pending(w.nodes, work, i, j)
    requires a < |w.nodes| && IsChild(g, w.nodes[a], c) && c !in w.nodes
    ensures a <= Position(w.nodes, work[0].parent)
  {
    OutEdge(g, w.nodes[a], c);
    var f :| f in Out(g, w.nodes[a]) && f.child == c;
    assert Accounted(g, w.edges + work, w.nodes, w.nodes[a]);
    EdgeOf(g, work, w, f);
    var j :| 0 <= j < |work| && work[j] == f;
    PositionUnique(w.nodes, a);
    if j > 0 {
      assert Pending(w.nodes, work, 0, j);
    }
  }

  lemma NewFound<N>(g: Graph<N>, sink: N, work: seq<Edge<N>>, w: Walk<N>)
    requires Books(g, sink, work, w) && work != []
    ensures IsChild(g, work[0].parent, work[0].child)
  {
    var e := work[0];
    assert Accounted(g, w.edges + work, w.nodes, e.parent);
    assert (w.edges + work)[|w.edges|] == e;
    EdgeOf(g, work, w, e);
    OutEdge(g, e.parent, e.child);
  }

  lemma NewDeepFirst<N>(g: Graph<N>, sink: N, work: seq<Edge<N>>, w: Walk<N>, a: nat)
    requires Books(g, sink, work, w) && work != []
    requires forall i, j :: 0 <= i < j < |work| ==> Pending(w.nodes, work, i, j)
    requires a < |w.nodes|
    ensures DeepFirst(g, Visit(w, work[0]).nodes, a, |w.nodes|)
    ensures FoundBefore(g, Visit(w, work[0]).nodes, |w.nodes|)
  {
    var e, b := work[0], |w.nodes|;
    var ns := w.nodes + [e.child];
    var d := Position(w.nodes, e.parent);
    NewFound(g, sink, work, w);
    assert IsChild(g, ns[d], ns[b]);
    if c :| c in g && IsChild(g, ns[a], c) && c !in ns[..b + 1] {
      assert ns[..b + 1] == ns;
      PendingEdge(g, sink, work, w, a, c);
    }
  }

  lemma OrderStays<N>(g: Graph<N>, ns: seq<N>, n: N, a: int, b: int)
    requires 0 <= a < b < |ns| && DeepFirst(g, ns, a, b) && FoundBefore(g, ns, b)
    ensures DeepFirst(g, ns + [n], a, b) && FoundBefore(g, ns + [n], b)
  {
    var ms := ns + [n];
    assert ms[..b + 1] == ns[..b + 1];
    assert ms[b] == ns[b] && forall d :: 0 <= d < b ==> ms[d] == ns[d];
    if c :| c in g && IsChild(g, ms[a], c) && c !in ms[..b + 1] {
      assert IsChild(g, ns[a], c) && c !in ns[..b + 1];
      var d :| a <= d < b && IsChild(g, ns[d], ns[b]);
      assert IsChild(g, ms[d], ms[b]);
    }
    var d :| 0 <= d < b && IsChild(g, ns[d], ns[b]);
    assert IsChild(g, ms[d], ms[b]);
  }

  lemma NewKeepsOrder<N>(g: Graph<N>, sink: N, work: seq<Edge<N>>, w: Walk<N>)
    requires Books(g, sink, work, w) && Order(g, work, w)
    requires work != [] && work[0].child !in w.nodes
    ensures Order(g, Out(g, work[0].child) + work[1..], Visit(w, work[0]))
  {
    var ns := Visit(w, work[0]).nodes;
    var all := Out(g, work[0].child) + work[1..];
    forall i, j | 0 <= i < j < |all| ensures Pending(ns, all, i, j) {
      NewPending(g, sink, work, w, i, j);
    }
    forall a, b | 0 <= a < b < |ns| ensures DeepFirst(g, ns, a, b) && FoundBefore(g, ns, b) {
      if b == |w.nodes| {
        NewDeepFirst(g, sink, work, w, a);
      } else {
        assert DeepFirst(g, w.nodes, a, b) && FoundBefore(g, w.nodes, b);
        OrderStays(g, w.nodes, work[0].child, a, b);
      }
    }
    forall b | 0 < b < |ns| ensures FoundBefore(g, ns, b) {
      assert DeepFirst(g, ns, 0, b);
    }
  }

  lemma {:induction false} ExploreKeeps<N>(g: Graph<N>, sink: N, work: seq<Edge<N>>, w: Walk<N>)
    requires Books(g, sink, work, w) && Order(g, work, w)
    ensures Books(g, sink, [], Explore(g, work, w)) && Order(g, [], Explore(g, work, w))
    decreases g.Keys - NodeSet(w.nodes), |work|
  {
    if work != [] {
      var e := work[0];
      if e.child in w.nodes {
        SeenKeepsBooks(g, sink, work, w);
        SeenKeepsOrder(g, work, w);
        ExploreKeeps(g, sink, work[1..], w.(edges := w.edges + [e]));
      } else {
        NewKeepsBooks(g, sink, work, w);
        NewKeepsOrder(g, sink, work, w);
        var w2 := Visit(w, e);
        assert e.child in NodeSet(w2.nodes) && NodeSet(w.nodes) <= NodeSet(w2.nodes);
        ExploreKeeps(g, sink, Out(g, e.child) + work[1..], w2);
      }
    }
  }

  lemma FirstBooks<N>(g: Graph<N>, sink: N)
    requires Closed(g) && sink in g
    ensures Books(g, sink, Out(g, sink), Walk([sink], []))
  {
    var out := Out(g, sink);
    forall n | n in g ensures Accounted(g, [] + out, [sink], n) {
      assert [] + out == out;
      ByParentUniform(out, sink, n);
    }
    assert [sink][..0] == [];
    assert OutDegrees(g, [sink]) == OutDegrees(g, [sink][..0]) + |g[sink]|;
  }

  lemma FirstOrder<N>(g: Graph<N>, sink: N)
    requires Closed(g) && sink in g
    ensures Order(g, Out(g, sink), Walk([sink], []))
  {
    var out := Out(g, sink);
    forall i, j | 0 <= i < j < |out| ensures Pending([sink], out, i, j) {}
  }

  lemma WalkInvariants<N>(g: Graph<N>, sink: N)
    requires Closed(g) && sink in g
    ensures Books(g, sink, [], WalkFrom(g, sink)) && Order(g, [], WalkFrom(g, sink))
  {
    FirstBooks(g, sink);
    FirstOrder(g, sink);
    ExploreKeeps(g, sink, Out(g, sink), Walk([sink], []));
  }

  // ---- the theorems --------------------------------------------------------

  lemma {:induction false} VisitedIsReachable<N>(g: Graph<N>, sink: N, ns: seq<N>, b: nat)
    requires Closed(g) && sink in g && b < |ns| && ns[0] == sink
    requires forall i :: 0 <= i < |ns| ==> ns[i] in g
    requires forall i :: 0 < i < |ns| ==> FoundBefore(g, ns, i)
    ensures Reachable(g, sink, ns[b])
  {
    if b == 0 {
      ReachableSelf(g, sink);
    } else {
      assert FoundBefore(g, ns, b);
      var a :| 0 <= a < b && IsChild(g, ns[a], ns[b]);
      VisitedIsReachable(g, sink, ns, a);
      var i :| 0 <= i < |g[ns[a]]| && g[ns[a]][i].1 == ns[b];
      ReachableStep(g, sink, ns[a], i);
    }
  }

  lemma VisitedIsClosed<N>(g: Graph<N>, sink: N, w: Walk<N>, n: N, i: nat)
    requires Books(g, sink, [], w) && n in w.nodes && n in g && i < |g[n]|
    ensures g[n][i].1 in w.nodes
  {
    var e := Out(g, n)[i];
    assert e in Out(g, n) && w.edges + [] == w.edges;
    assert Accounted(g, w.edges + [], w.nodes, n);
    EdgeOf(g, [], w, e);
  }

  lemma VisitedIsEverything<N>(g: Graph<N>, sink: N)
    requires Closed(g) && sink in g
    ensures NodeSet(WalkFrom(g, sink).nodes) == ReachableSet(g, sink)
  {
    WalkInvariants(g, sink);
    var w := WalkFrom(g, sink);
    var s := NodeSet(w.nodes);
    forall n, i | n in s && n in g && 0 <= i < |g[n]| ensures g[n][i].1 in s {
      VisitedIsClosed(g, sink, w, n, i);
    }
    forall n | n in ReachableSet(g, sink) ensures n in s {
      var k: nat :| n in Within(g, sink, k);
      ClosedSetHoldsWithin(g, sink, s, k);
    }
    forall n | n in s ensures n in ReachableSet(g, sink) {
      var b :| 0 <= b < |w.nodes| && w.nodes[b] == n;
      VisitedIsReachable(g, sink, w.nodes, b);
    }
  }

  /** The walk visits exactly the reachable nodes, each once, the sink first, every other
      node after one of its parents, and deep before wide. */
  lemma WalkVisits<N>(g: Graph<N>, sink: N)
    requires Closed(g) && sink in g
    ensures NodeSet(WalkFrom(g, sink).nodes) == ReachableSet(g, sink)
    ensures NoRepeats(WalkFrom(g, sink).nodes)
    ensures |WalkFrom(g, sink).nodes| > 0 && WalkFrom(g, sink).nodes[0] == sink
    ensures forall b :: 0 < b < |WalkFrom(g, sink).nodes| ==> FoundBefore(g, WalkFrom(g, sink).nodes, b)
    ensures forall a, b :: 0 <= a < b < |WalkFrom(g, sink).nodes| ==> DeepFirst(g, WalkFrom(g, sink).nodes, a, b)
  {
    WalkInvariants(g, sink);
    VisitedIsEverything(g, sink);
  }

  /** The followed edges, grouped by parent, are each reachable node's own edges in order and
      nothing else: one triple per reachable node and role. */
  lemma WalkFollows<N>(g: Graph<N>, sink: N, n: N)
    requires Closed(g) && sink in g
    ensures ByParent(WalkFrom(g, sink).edges, n) == if n in ReachableSet(g, sink) then Out(g, n) else []
    ensures |WalkFrom(g, sink).edges| == OutDegrees(g, WalkFrom(g, sink).nodes)
  {
    WalkInvariants(g, sink);
    VisitedIsEverything(g, sink);
    var w := WalkFrom(g, sink);
    assert w.edges + [] == w.edges;
    assert n in w.nodes <==> n in NodeSet(w.nodes);
    if n in g {
      assert Accounted(g, w.edges + [], w.nodes, n);
    } else if ByParent(w.edges, n) != [] {
      var e := ByParent(w.edges, n)[0];
      ByParentMember(w.edges, n, e);
      assert false;
    }
  }
}
