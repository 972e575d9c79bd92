/** The recording copy of a graph: one proxy object per node, wired like the original. */
module Tracing {
  import opened Graph
  import opened WalkFacts
  import opened Traversal

  class Traced<N> {
    const node: N
    var wired: seq<(string, Traced<N>)>

    constructor (node: N)
      ensures this.node == node && wired == []
    {
      this.node := node;
      wired := [];
    }
  }

  /** What was wrapped keeps its proxy. */
  ghost predicate Grows<N>(before: map<N, Traced<N>>, after: map<N, Traced<N>>) {
    forall n :: n in before ==> n in after && after[n] == before[n]
  }

  /** The first children, role by role, are the proxies of the node's first children. */
  ghost predicate WiredSoFar<N>(g: Graph<N>, wrapped: map<N, Traced<N>>, n: N, wired: seq<(string, Traced<N>)>) {
    && n in g && |wired| <= |g[n]|
    && forall i :: 0 <= i < |wired| ==>
         g[n][i].1 in wrapped && wired[i] == (g[n][i].0, wrapped[g[n][i].1])
  }

  ghost predicate WiredLike<N>(g: Graph<N>, wrapped: map<N, Traced<N>>, n: N, wired: seq<(string, Traced<N>)>) {
    n in g && |wired| == |g[n]| && WiredSoFar(g, wrapped, n, wired)
  }

  lemma WiringNext<N>(g: Graph<N>, before: map<N, Traced<N>>, after: map<N, Traced<N>>,
                      n: N, wired: seq<(string, Traced<N>)>)
    requires WiredSoFar(g, before, n, wired) && Grows(before, after)
    requires |wired| < |g[n]| && g[n][|wired|].1 in after
    ensures WiredSoFar(g, after, n, wired + [(g[n][|wired|].0, after[g[n][|wired|].1])])
  {
  }

  class Tracer<N(==)> {
    /** the proxy of each node met so far */
    var wrapped: map<N, Traced<N>>
    /** the same wrapping seen as a walk of the original graph */
    ghost var walk: Walk<N>

    constructor ()
      ensures wrapped == map[] && walk == Walk([], [])
    {
      wrapped, walk := map[], Walk([], []);
    }

    ghost predicate Valid(g: Graph<N>)
      reads this
    {
      && Closed(g) && wrapped.Keys == NodeSet(walk.nodes) && wrapped.Keys <= g.Keys
      && forall n :: n in wrapped ==> wrapped[n].node == n
    }

    /** All proxies are wired except those whose wrapping is still under way. */
    ghost predicate WiredExcept(g: Graph<N>, open: set<N>)
      reads this, wrapped.Values
    {
      forall n :: n in wrapped && n !in open ==> WiredLike(g, wrapped, n, wrapped[n].wired)
    }

    method Wrap(g: Graph<N>, node: N, ghost open: set<N>) returns (proxy: Traced<N>)
      requires Valid(g) && node in g && WiredExcept(g, open)
      modifies this
      ensures Valid(g) && WiredExcept(g, open)
      ensures node in wrapped && wrapped[node] == proxy
      ensures Grows(old(wrapped), wrapped)
      ensures forall n :: n in wrapped && n !in old(wrapped) ==> fresh(wrapped[n])
      ensures node in old(wrapped) ==> walk == old(walk)
      ensures node !in old(wrapped) ==>
        var w0 := Walk(old(walk.nodes) + [node], old(walk.edges));
        InGraph(g, Out(g, node), w0) && walk == Explore(g, Out(g, node), w0)
      decreases g.Keys - wrapped.Keys, 0
    {
      if node !in wrapped {
        proxy := new Traced(node);
        wrapped := wrapped[node := proxy];
        walk := walk.(nodes := walk.nodes + [node]);
        assert node in g.Keys - old(wrapped).Keys && node !in g.Keys - wrapped.Keys;
        var wired := WrapChildren(g, node, open + {node});
        proxy.wired := wired;
      }
      proxy := wrapped[node];
    }

    method WrapChildren(g: Graph<N>, node: N, ghost open: set<N>) returns (wired: seq<(string, Traced<N>)>)
      requires Valid(g) && node in g && WiredExcept(g, open)
      modifies this
      ensures Valid(g) && WiredExcept(g, open)
      ensures WiredLike(g, wrapped, node, wired)
      ensures Grows(old(wrapped), wrapped)
      ensures forall n :: n in wrapped && n !in old(wrapped) ==> fresh(wrapped[n])
      ensures InGraph(g, Out(g, node), old(walk)) && walk == Explore(g, Out(g, node), old(walk))
      decreases g.Keys - wrapped.Keys, 1
    {
      wired := [];
      ghost var w0 := walk;
      NoneExplored(g, node, w0);
      for i := 0 to |g[node]|
        invariant Valid(g) && WiredExcept(g, open)
        invariant Grows(old(wrapped), wrapped)
        invariant forall n :: n in wrapped && n !in old(wrapped) ==> fresh(wrapped[n])
        invariant Explored(g, node, i, w0, walk)
        invariant |wired| == i && WiredSoFar(g, wrapped, node, wired)
      {
        var (role, child) := g[node][i];
        ExploreNext(g, node, i, w0, walk);
        walk := walk.(edges := walk.edges + [Edge(node, role, child)]);
        ghost var before := wrapped;
        var kid := Wrap(g, child, open);
        WiringNext(g, before, wrapped, node, wired);
        wired := wired + [(role, kid)];
      }
      AllExplored(g, node, w0, walk);
    }
  }

  // ---- the copy is the original, up to renaming ------------------------------

  /** `copy` is what the proxies' wiring says; `of` names each node's proxy. */
  ghost predicate Isomorphic<N>(g: Graph<N>, roots: set<N>, copy: Graph<Traced<N>>, of: map<N, Traced<N>>) {
    && of.Keys == roots && copy.Keys == of.Values && roots <= g.Keys
    && (forall n :: n in of ==> of[n].node == n)
    && (forall n :: n in of ==> WiredLike(g, of, n, copy[of[n]]))
  }

  /** Wiring never leaves the copy. */
  lemma CopyIsClosed<N>(g: Graph<N>, roots: set<N>, copy: Graph<Traced<N>>, of: map<N, Traced<N>>)
    requires Isomorphic(g, roots, copy, of)
    ensures Closed(copy)
  {
    forall p, i | p in copy && 0 <= i < |copy[p]| ensures copy[p][i].1 in copy {
      var n :| n in of && of[n] == p;
      assert WiredLike(g, of, n, copy[of[n]]);
      assert copy[p][i] == (g[n][i].0, of[g[n][i].1]);
    }
  }

  /** Copy everything reachable from the sink: fresh proxies only, one per reachable node,
      distinct nodes with distinct proxies, and wiring that mirrors the original's. */
  method TraceGraph<N(==)>(g: Graph<N>, sink: N)
    returns (root: Traced<N>, wrapped: map<N, Traced<N>>, ghost copy: Graph<Traced<N>>)
    requires Closed(g) && sink in g
    ensures forall n :: n in wrapped ==> fresh(wrapped[n])
    ensures forall p :: p in copy ==> copy[p] == p.wired
    ensures Isomorphic(g, ReachableSet(g, sink), copy, wrapped) && Closed(copy)
    ensures sink in wrapped && root == wrapped[sink]
  {
    var t := new Tracer<N>();
    root := t.Wrap(g, sink, {});
    assert [] + [sink] == [sink];
    WalkVisits(g, sink);
    wrapped := t.wrapped;
    copy := map p | p in wrapped.Values :: p.wired;
    CopyIsClosed(g, ReachableSet(g, sink), copy, wrapped);
  }

  /** The node at the end of a path of roles, if the path exists. */
  ghost function Follow<N>(g: Graph<N>, n: N, path: seq<nat>): seq<N>
    requires Closed(g) && n in g
    ensures |Follow(g, n, path)| <= 1 && forall m :: m in Follow(g, n, path) ==> m in g
  {
    if path == [] then [n]
    else if path[0] < |g[n]| then Follow(g, g[n][path[0]].1, path[1..])
    else []
  }

  /** Two paths of the original meet exactly when the same two paths of the copy meet, so
      sharing is neither lost nor invented. */
  lemma {:induction false} PathsCorrespond<N>(g: Graph<N>, roots: set<N>, copy: Graph<Traced<N>>,
                                              of: map<N, Traced<N>>, n: N, path: seq<nat>)
    requires Closed(g) && Isomorphic(g, roots, copy, of) && n in of
    ensures Closed(copy)
    ensures |Follow(copy, of[n], path)| == |Follow(g, n, path)|
    ensures |Follow(g, n, path)| == 1 ==>
      Follow(g, n, path)[0] in of && Follow(copy, of[n], path)[0] == of[Follow(g, n, path)[0]]
  {
    CopyIsClosed(g, roots, copy, of);
    assert WiredLike(g, of, n, copy[of[n]]);
    if path != [] && path[0] < |g[n]| {
      assert copy[of[n]][path[0]] == (g[n][path[0]].0, of[g[n][path[0]].1]);
      PathsCorrespond(g, roots, copy, of, g[n][path[0]].1, path[1..]);
    }
  }

  lemma SharingPreserved<N>(g: Graph<N>, roots: set<N>, copy: Graph<Traced<N>>, of: map<N, Traced<N>>,
                            a: N, p: seq<nat>, b: N, q: seq<nat>)
    requires Closed(g) && Isomorphic(g, roots, copy, of) && a in of && b in of
    ensures Closed(copy)
    ensures Follow(g, a, p) == Follow(g, b, q) <==> Follow(copy, of[a], p) == Follow(copy, of[b], q)
  {
    PathsCorrespond(g, roots, copy, of, a, p);
    PathsCorrespond(g, roots, copy, of, b, q);
    var x, y := Follow(g, a, p), Follow(g, b, q);
    var x', y' := Follow(copy, of[a], p), Follow(copy, of[b], q);
    if |x| == 1 && |y| == 1 {
      assert x == [x[0]] && y == [y[0]] && x' == [x'[0]] && y' == [y'[0]];
      assert x'[0].node == x[0] && y'[0].node == y[0];
    }
  }
}
