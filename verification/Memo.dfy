/** The executor's per-run memo: one task per node, dropped again once every consumer that
    can ever ask for the node has been answered. */
module Memo {
  import opened Graph
  import opened Wrappers

  /** Task numbers by node, and how many consumers each counted node still has. */
  datatype Memo<N> = Memo(entries: map<N, nat>, pending: map<N, nat>)

  /** Look the node up, or enter the new task for it: one indivisible check and store. */
  function Claim<N(==)>(m: Memo<N>, n: N, next: nat): Memo<N> {
    if n in m.entries then m else m.(entries := m.entries[n := next])
  }

  function Spend<N(==)>(m: Memo<N>, n: N): Memo<N> {
    if n !in m.pending then m
    else if m.pending[n] > 1 then m.(pending := m.pending[n := m.pending[n] - 1])
    else Memo(m.entries - {n}, m.pending - {n})
  }

  // ---- consumers -------------------------------------------------------------

  /** The (parent, role number) edges into n that start at one of `parents`. */
  ghost function Consumers<N>(g: Graph<N>, parents: set<N>, n: N): set<(N, int)>
    requires parents <= g.Keys
  {
    set p, i | p in parents && 0 <= i < |g[p]| && g[p][i].1 == n :: (p, i)
  }

  /** The first k edges of p that lead to n. */
  ghost function FirstEdges<N>(g: Graph<N>, p: N, k: int, n: N): set<(N, int)>
    requires p in g && 0 <= k <= |g[p]|
  {
    set i | 0 <= i < k && g[p][i].1 == n :: (p, i)
  }

  lemma MoreParents<N>(g: Graph<N>, parents: set<N>, p: N, n: N)
    requires parents <= g.Keys && p in g && p !in parents
    ensures |Consumers(g, parents + {p}, n)| == |Consumers(g, parents, n)| + |FirstEdges(g, p, |g[p]|, n)|
  {
    var a, b := Consumers(g, parents, n), FirstEdges(g, p, |g[p]|, n);
    assert a !! b && Consumers(g, parents + {p}, n) == a + b;
  }

  lemma FirstEdgesAre<N>(g: Graph<N>, p: N, k: int, n: N, e: (N, int))
    requires p in g && 0 <= k <= |g[p]|
    ensures e in FirstEdges(g, p, k, n) <==> e.0 == p && 0 <= e.1 < k && g[p][e.1].1 == n
  {
    assert e == (e.0, e.1);
  }

  lemma NextEdge<N>(g: Graph<N>, p: N, k: nat, n: N)
    requires p in g && k < |g[p]|
    ensures |FirstEdges(g, p, k + 1, n)| == |FirstEdges(g, p, k, n)| + if g[p][k].1 == n then 1 else 0
  {
    var a, b := FirstEdges(g, p, k, n), FirstEdges(g, p, k + 1, n);
    var last := if g[p][k].1 == n then {(p, k)} else {};
    forall e: (N, int) ensures e in b <==> e in a + last {
      FirstEdgesAre(g, p, k, n, e);
      FirstEdgesAre(g, p, k + 1, n, e);
    }
    FirstEdgesAre(g, p, k, n, (p, k as int));
    assert b == a + last && a !! last;
  }

  /** `counts` holds the number of consumer edges of every node that has one, and nothing else. */
  ghost predicate Counts<N>(g: Graph<N>, counts: map<N, nat>, parents: set<N>, p: N, k: int, n: N)
    requires parents <= g.Keys && p in g && 0 <= k <= |g[p]|
  {
    var c := |Consumers(g, parents, n)| + |FirstEdges(g, p, k, n)|;
    (n in counts <==> c > 0) && (n in counts ==> counts[n] == c)
  }

  ghost predicate CountsAll<N>(g: Graph<N>, counts: map<N, nat>, parents: set<N>, p: N, k: int)
    requires parents <= g.Keys && p in g && 0 <= k <= |g[p]|
  {
    counts.Keys <= g.Keys
    && forall n {:trigger Counts(g, counts, parents, p, k, n)} :: n in g ==> Counts(g, counts, parents, p, k, n)
  }

  /** What `pending` must be when nothing has been consumed yet. */
  ghost predicate CountedFor<N>(g: Graph<N>, root: N, pending: map<N, nat>, n: N)
    requires Closed(g) && root in g
  {
    var c := |Consumers(g, ReachableSet(g, root), n)|;
    (n in pending <==> n != root && c > 0) && (n in pending ==> pending[n] == c)
  }

  ghost predicate Counted<N>(g: Graph<N>, root: N, pending: map<N, nat>)
    requires Closed(g) && root in g
  {
    pending.Keys <= g.Keys
    && forall n {:trigger CountedFor(g, root, pending, n)} :: n in g ==> CountedFor(g, root, pending, n)
  }

  lemma CountOne<N>(g: Graph<N>, counts: map<N, nat>, parents: set<N>, p: N, k: nat)
    requires parents <= g.Keys && p in g && k < |g[p]| && g[p][k].1 in g
    requires CountsAll(g, counts, parents, p, k)
    ensures var dep := g[p][k].1;
            CountsAll(g, counts[dep := (if dep in counts then counts[dep] else 0) + 1], parents, p, k + 1)
  {
    var dep := g[p][k].1;
    var counts' := counts[dep := (if dep in counts then counts[dep] else 0) + 1];
    forall n | n in g ensures Counts(g, counts', parents, p, k + 1, n) {
      assert Counts(g, counts, parents, p, k, n);
      NextEdge(g, p, k, n);
    }
  }

  lemma CountParent<N>(g: Graph<N>, counts: map<N, nat>, parents: set<N>, p: N, q: N)
    requires parents <= g.Keys && p in g && p !in parents && q in g
    requires CountsAll(g, counts, parents, p, |g[p]|)
    ensures CountsAll(g, counts, parents + {p}, q, 0)
  {
    forall n | n in g ensures Counts(g, counts, parents + {p}, q, 0, n) {
      assert Counts(g, counts, parents, p, |g[p]|, n);
      MoreParents(g, parents, p, n);
      assert FirstEdges(g, q, 0, n) == {};
    }
  }

  lemma CountsFrom<N>(g: Graph<N>, counts: map<N, nat>, parents: set<N>, p: N, q: N)
    requires parents <= g.Keys && p in g && q in g && CountsAll(g, counts, parents, p, 0)
    ensures CountsAll(g, counts, parents, q, 0)
  {
    forall n | n in g ensures Counts(g, counts, parents, q, 0, n) {
      assert Counts(g, counts, parents, p, 0, n);
      assert FirstEdges(g, p, 0, n) == {} == FirstEdges(g, q, 0, n);
    }
  }

  ghost predicate Searching<N>(g: Graph<N>, root: N, seen: set<N>, stack: seq<N>) {
    && Closed(g) && root in g && root in seen && seen <= g.Keys
    && (forall i, j :: 0 <= i < j < |stack| ==> stack[i] != stack[j])
    && (forall n :: n in stack ==> n in seen)
    && (forall n :: n in seen ==> Reachable(g, root, n))
  }

  ghost predicate DepsSeen<N>(g: Graph<N>, p: N, k: int, seen: set<N>) {
    p in g && 0 <= k <= |g[p]| ==> forall i :: 0 <= i < k ==> g[p][i].1 in seen
  }

  lemma SeenIsReachable<N>(g: Graph<N>, root: N, seen: set<N>)
    requires Searching(g, root, seen, [])
    requires forall p :: p in seen && p in g ==> DepsSeen(g, p, |g[p]|, seen)
    ensures seen == ReachableSet(g, root)
  {
    forall n, i | n in seen && n in g && 0 <= i < |g[n]| ensures g[n][i].1 in seen {
      assert DepsSeen(g, n, |g[n]|, seen);
    }
    forall n | n in ReachableSet(g, root) ensures n in seen {
      var k: nat :| n in Within(g, root, k);
      ClosedSetHoldsWithin(g, root, seen, k);
    }
  }

  /** Nodes seen are either done or waiting on the stack. */
  ghost predicate Frontier<N>(g: Graph<N>, seen: set<N>, done: set<N>, stack: seq<N>) {
    && done + NodeSet(stack) == seen && done !! NodeSet(stack)
    && forall p :: p in done ==> p in g && DepsSeen(g, p, |g[p]|, seen)
  }

  lemma Popped<N>(g: Graph<N>, root: N, seen: set<N>, done: set<N>, stack: seq<N>)
    requires Searching(g, root, seen, stack) && Frontier(g, seen, done, stack) && |stack| > 0
    ensures var p, rest := stack[|stack| - 1], stack[..|stack| - 1];
            && Searching(g, root, seen, rest) && p in g && p in seen && p !in done && p !in rest
            && done + {p} + NodeSet(rest) == seen && done !! NodeSet(rest)
  {
    assert stack == stack[..|stack| - 1] + [stack[|stack| - 1]];
  }

  lemma DoneOne<N>(g: Graph<N>, seen0: set<N>, stack0: seq<N>, done: set<N>, p: N, seen: set<N>, stack: seq<N>)
    requires p in g && p !in done && done + {p} + NodeSet(stack0) == seen0 && done !! NodeSet(stack0)
    requires forall q :: q in done ==> q in g && DepsSeen(g, q, |g[q]|, seen0)
    requires seen0 <= seen && p !in stack && NodeSet(stack) == seen - seen0 + NodeSet(stack0)
    requires DepsSeen(g, p, |g[p]|, seen)
    ensures Frontier(g, seen, done + {p}, stack)
  {
    forall q | q in done + {p} ensures q in g && DepsSeen(g, q, |g[q]|, seen) {
      assert q in done ==> DepsSeen(g, q, |g[q]|, seen0);
    }
  }

  lemma PushNew<N>(g: Graph<N>, root: N, seen: set<N>, stack: seq<N>, p: N, i: nat)
    requires Searching(g, root, seen, stack) && p in seen && i < |g[p]| && g[p][i].1 !in seen
    ensures var dep := g[p][i].1;
            Searching(g, root, seen + {dep}, stack + [dep]) && NodeSet(stack + [dep]) == NodeSet(stack) + {dep}
  {
    var dep := g[p][i].1;
    ReachableStep(g, root, p, i);
    forall n ensures n in stack + [dep] <==> n in stack || n == dep {
      assert (stack + [dep])[|stack|] == dep;
    }
  }

  /** Account for one popped node: every dependency is counted, new ones are pushed. */
  method CountNode<N(==)>(g: Graph<N>, ghost root: N, p: N, ghost done: set<N>,
                          counts0: map<N, nat>, seen0: set<N>, stack0: seq<N>)
    returns (counts: map<N, nat>, seen: set<N>, stack: seq<N>)
    requires Searching(g, root, seen0, stack0) && p in seen0 && p !in done && p !in stack0
    requires done + {p} + NodeSet(stack0) == seen0
    requires CountsAll(g, counts0, done, p, 0)
    ensures Searching(g, root, seen, stack) && seen0 <= seen
    ensures p !in stack && NodeSet(stack) == seen - seen0 + NodeSet(stack0)
    ensures DepsSeen(g, p, |g[p]|, seen)
    ensures CountsAll(g, counts, done, p, |g[p]|)
  {
    counts, seen, stack := counts0, seen0, stack0;
    for i := 0 to |g[p]|
      invariant Searching(g, root, seen, stack) && seen0 <= seen
      invariant p !in stack && NodeSet(stack) == seen - seen0 + NodeSet(stack0)
      invariant DepsSeen(g, p, i, seen)
      invariant CountsAll(g, counts, done, p, i)
    {
      var dep := g[p][i].1;
      CountOne(g, counts, done, p, i);
      counts := counts[dep := (if dep in counts then counts[dep] else 0) + 1];
      if dep !in seen {
        PushNew(g, root, seen, stack, p, i);
        seen, stack := seen + {dep}, stack + [dep];
      }
    }
  }

  lemma NothingCounted<N>(g: Graph<N>, root: N)
    requires root in g
    ensures CountsAll(g, map[], {}, root, 0)
  {
    forall n | n in g ensures Counts(g, map[], {}, root, 0, n) {
      assert Consumers(g, {}, n) == {} && FirstEdges(g, root, 0, n) == {};
    }
  }

  lemma RootUncounted<N>(g: Graph<N>, root: N, counts: map<N, nat>)
    requires Closed(g) && root in g && CountsAll(g, counts, ReachableSet(g, root), root, 0)
    ensures Counted(g, root, counts - {root})
  {
    forall n | n in g ensures CountedFor(g, root, counts - {root}, n) {
      assert Counts(g, counts, ReachableSet(g, root), root, 0, n);
      assert FirstEdges(g, root, 0, n) == {};
    }
  }

  method CountEdges<N(==)>(g: Graph<N>, root: N) returns (pending: map<N, nat>)
    requires Closed(g) && root in g
    ensures Counted(g, root, pending)
  {
    var seen, stack := {root}, [root];
    var counts: map<N, nat> := map[];
    ghost var done: set<N> := {};
    ReachableSelf(g, root);
    NothingCounted(g, root);
    while |stack| > 0
      invariant Searching(g, root, seen, stack) && Frontier(g, seen, done, stack)
      invariant done <= g.Keys && CountsAll(g, counts, done, root, 0)
      decreases |g.Keys - done|
    {
      var p, rest := stack[|stack| - 1], stack[..|stack| - 1];
      Popped(g, root, seen, done, stack);
      CountsFrom(g, counts, done, root, p);
      ghost var seen0 := seen;
      counts, seen, stack := CountNode(g, root, p, done, counts, seen, rest);
      DoneOne(g, seen0, rest, done, p, seen, stack);
      CountParent(g, counts, done, p, root);
      assert g.Keys - (done + {p}) == (g.Keys - done) - {p};
      done := done + {p};
    }
    assert done == seen;
    SeenIsReachable(g, root, seen);
    pending := counts - {root};
    RootUncounted(g, root, counts);
  }

  class RunMemo<N(==)> {
    var entries: map<N, nat>
    var pending: map<N, nat>
    const release: bool
    var root: Option<N>

    constructor (release: bool)
      ensures this.release == release && entries == map[] && pending == map[] && root == None
    {
      this.release := release;
      entries, pending, root := map[], map[], None;
    }

    ghost function State(): Memo<N>
      reads this
    {
      Memo(entries, pending)
    }

    /** A releasing memo answers for one root only; any other root is refused. */
    method Bind(r: N) returns (ok: bool)
      modifies this
      ensures ok <==> !release || old(root) == None || old(root) == Some(r)
      ensures State() == old(State())
      ensures root == if release && old(root) == None then Some(r) else old(root)
    {
      if !release {
        return true;
      }
      if root == None {
        root := Some(r);
        return true;
      }
      return root == Some(r);
    }

    /** Count, for every node reachable through dependencies, the edges that will ask for it. */
    method Count(g: Graph<N>, r: N)
      requires Closed(g) && r in g
      modifies this
      ensures entries == old(entries) && root == old(root)
      ensures !release ==> pending == old(pending)
      ensures release ==> Counted(g, r, pending)
    {
      if !release {
        return;
      }
      pending := CountEdges(g, r);
    }

    /** Which task to await for a node, and whether it is the newly scheduled one. */
    method Resolve(n: N, next: nat) returns (task: nat, scheduled: bool)
      modifies this
      ensures State() == Claim(old(State()), n, next)
      ensures scheduled <==> n !in old(entries)
      ensures n in entries && task == entries[n]
      ensures root == old(root)
    {
      scheduled := n !in entries;
      if scheduled {
        entries := entries[n := next];
      }
      task := entries[n];
    }

    /** One consumer has its result. The last one releases the entry, which must still be there. */
    method Consume(n: N)
      requires n in pending && pending[n] <= 1 ==> n in entries
      modifies this
      ensures State() == Spend(old(State()), n)
      ensures root == old(root)
    {
      if n !in pending {
        return;
      }
      if pending[n] > 1 {
        pending := pending[n := pending[n] - 1];
        return;
      }
      pending := pending - {n};
      entries := entries - {n};
    }
  }
}
