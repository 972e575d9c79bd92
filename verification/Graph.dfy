/** Finite rooted graphs of labelled dependencies, as the url4 notebook helpers and
    the executor see them: nodes are compared by identity and each node lists its
    dependencies by role, in insertion order. Sharing and cycles are allowed. */
module Graph {

  /** role, child */
  type Dep<N> = (string, N)

  /** Every node with its ordered dependencies. */
  type Graph<N(==)> = map<N, seq<Dep<N>>>

  ghost predicate Closed<N>(g: Graph<N>) {
    forall n, i :: n in g && 0 <= i < |g[n]| ==> g[n][i].1 in g
  }

  /** Dependencies come from a mapping, so one node never repeats a role. */
  ghost predicate RolesDistinct<N>(g: Graph<N>) {
    forall n, i, j :: n in g && 0 <= i < j < |g[n]| ==> g[n][i].0 != g[n][j].0
  }

  // ---- reachability --------------------------------------------------------

  /** Nodes reached from `from` in at most `k` edges. */
  ghost function Within<N>(g: Graph<N>, from: N, k: nat): set<N>
    requires Closed(g) && from in g
    ensures Within(g, from, k) <= g.Keys
  {
    if k == 0 then {from}
    else
      var near := Within(g, from, k - 1);
      near + set n, i | n in near && 0 <= i < |g[n]| :: g[n][i].1
  }

  ghost predicate Reachable<N>(g: Graph<N>, from: N, to: N)
    requires Closed(g) && from in g
  {
    exists k: nat :: to in Within(g, from, k)
  }

  ghost function ReachableSet<N>(g: Graph<N>, from: N): set<N>
    requires Closed(g) && from in g
  {
    set n | n in g && Reachable(g, from, n)
  }

  lemma ReachableStep<N>(g: Graph<N>, from: N, n: N, i: nat)
    requires Closed(g) && from in g && n in g && i < |g[n]|
    requires Reachable(g, from, n)
    ensures Reachable(g, from, g[n][i].1)
  {
    var k: nat :| n in Within(g, from, k);
    assert g[n][i].1 in Within(g, from, k + 1);
  }

  lemma ReachableSelf<N>(g: Graph<N>, from: N)
    requires Closed(g) && from in g
    ensures Reachable(g, from, from)
  {
    assert from in Within(g, from, 0);
  }

  /** Any set that holds the start and is closed under dependencies holds everything reachable. */
  lemma {:induction false} ClosedSetHoldsWithin<N>(g: Graph<N>, from: N, s: set<N>, k: nat)
    requires Closed(g) && from in g && from in s
    requires forall n, i :: n in s && n in g && 0 <= i < |g[n]| ==> g[n][i].1 in s
    ensures Within(g, from, k) <= s
  {
    if k > 0 {
      ClosedSetHoldsWithin(g, from, s, k - 1);
    }
  }

  lemma {:induction false} ReachableTransitive<N>(g: Graph<N>, a: N, b: N, c: N)
    requires Closed(g) && a in g && b in g
    requires Reachable(g, a, b) && Reachable(g, b, c)
    ensures Reachable(g, a, c)
  {
    var k: nat :| c in Within(g, b, k);
    var s := ReachableSet(g, a);
    forall n, i | n in s && n in g && 0 <= i < |g[n]| ensures g[n][i].1 in s {
      ReachableStep(g, a, n, i);
    }
    ClosedSetHoldsWithin(g, b, s, k);
  }

  // ---- the reference traversal: an explicit stack of edges ------------------

  datatype Edge<N> = Edge(parent: N, role: string, child: N)

  /** What a walk has produced so far: first visits and followed edges, both in order. */
  datatype Walk<N> = Walk(nodes: seq<N>, edges: seq<Edge<N>>)

  ghost function NodeSet<N>(s: seq<N>): set<N> { set n | n in s }

  function Out<N>(g: Graph<N>, n: N): (r: seq<Edge<N>>)
    requires n in g
  {
    seq(|g[n]|, i requires 0 <= i < |g[n]| => Edge(n, g[n][i].0, g[n][i].1))
  }

  ghost predicate InGraph<N>(g: Graph<N>, work: seq<Edge<N>>, w: Walk<N>) {
    && Closed(g)
    && (forall i :: 0 <= i < |work| ==> work[i].child in g)
    && (forall i :: 0 <= i < |w.nodes| ==> w.nodes[i] in g)
  }

  /** Take the top edge; record it; when its child is new, visit the child and put the
      child's own edges on top. */
  ghost function Explore<N>(g: Graph<N>, work: seq<Edge<N>>, w: Walk<N>): (r: Walk<N>)
    requires InGraph(g, work, w)
    ensures InGraph(g, [], r)
    decreases g.Keys - NodeSet(w.nodes), |work|
  {
    if work == [] then w
    else
      var e := work[0];
      var w1 := w.(edges := w.edges + [e]);
      if e.child in w.nodes then Explore(g, work[1..], w1)
      else
        var w2 := w1.(nodes := w1.nodes + [e.child]);
        assert e.child in NodeSet(w2.nodes) && NodeSet(w.nodes) <= NodeSet(w2.nodes);
        Explore(g, Out(g, e.child) + work[1..], w2)
  }

  ghost function WalkFrom<N>(g: Graph<N>, sink: N): Walk<N>
    requires Closed(g) && sink in g
  {
    Explore(g, Out(g, sink), Walk([sink], []))
  }

  /** Work split in two is explored one part after the other. */
  lemma {:induction false} ExploreSplit<N>(g: Graph<N>, a: seq<Edge<N>>, b: seq<Edge<N>>, w: Walk<N>)
    requires InGraph(g, a + b, w)
    ensures InGraph(g, a, w) && InGraph(g, b, Explore(g, a, w))
    ensures Explore(g, a + b, w) == Explore(g, b, Explore(g, a, w))
    decreases g.Keys - NodeSet(w.nodes), |a|
  {
    forall i | 0 <= i < |a| ensures a[i].child in g { assert (a + b)[i] == a[i]; }
    forall i | 0 <= i < |b| ensures b[i].child in g { assert (a + b)[|a| + i] == b[i]; }
    if a == [] {
      assert a + b == b;
    } else {
      var e := a[0];
      var w1 := w.(edges := w.edges + [e]);
      assert (a + b)[1..] == a[1..] + b;
      if e.child in w.nodes {
        ExploreSplit(g, a[1..], b, w1);
      } else {
        var w2 := w1.(nodes := w1.nodes + [e.child]);
        assert e.child in NodeSet(w2.nodes) && NodeSet(w.nodes) <= NodeSet(w2.nodes);
        assert Out(g, e.child) + (a[1..] + b) == (Out(g, e.child) + a[1..]) + b;
        ExploreSplit(g, Out(g, e.child) + a[1..], b, w2);
      }
    }
  }
}
