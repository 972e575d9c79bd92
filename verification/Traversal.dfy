/** The two recursive traversals of the notebook helpers: collecting a graph's nodes and
    edges, and printing it as an indented tree that marks shared nodes. */
module Traversal {
  import opened Graph
  import opened WalkFacts
  import opened Sequences

  /** From w0, the first i edges of n have been explored, which led to w. */
  ghost predicate Explored<N>(g: Graph<N>, n: N, i: int, w0: Walk<N>, w: Walk<N>) {
    n in g && 0 <= i <= |g[n]| && InGraph(g, Out(g, n)[..i], w0) && w == Explore(g, Out(g, n)[..i], w0)
  }

  lemma NoneExplored<N>(g: Graph<N>, n: N, w: Walk<N>)
    requires InGraph(g, [], w) && n in g
    ensures Explored(g, n, 0, w, w)
  {
  }

  lemma AllExplored<N>(g: Graph<N>, n: N, w0: Walk<N>, w: Walk<N>)
    requires n in g && Explored(g, n, |g[n]|, w0, w)
    ensures InGraph(g, Out(g, n), w0) && w == Explore(g, Out(g, n), w0)
  {
    assert Out(g, n)[..|g[n]|] == Out(g, n);
  }

  /** Following one more edge of n: nothing new, or a whole visit of the child. */
  lemma ExploreNext<N>(g: Graph<N>, n: N, i: nat, w0: Walk<N>, w: Walk<N>)
    requires n in g && i < |g[n]| && Explored(g, n, i, w0, w)
    ensures var e := Edge(n, g[n][i].0, g[n][i].1);
            var visit := Walk(w.nodes + [e.child], w.edges + [e]);
            && e.child in g && InGraph(g, Out(g, e.child), visit)
            && Explored(g, n, i + 1, w0,
                 if e.child in w.nodes then w.(edges := w.edges + [e]) else Explore(g, Out(g, e.child), visit))
  {
    var e := Edge(n, g[n][i].0, g[n][i].1);
    assert Out(g, n)[..i + 1] == Out(g, n)[..i] + [e];
    ExploreSplit(g, Out(g, n)[..i], [e], w0);
    assert [e][1..] == [] && Out(g, e.child) + [] == Out(g, e.child);
  }

  // ---- collecting ----------------------------------------------------------

  class Collector<N(==)> {
    var nodes: seq<N>
    var seen: set<N>
    var edges: seq<Edge<N>>

    constructor ()
      ensures nodes == [] && seen == {} && edges == []
    {
      nodes, seen, edges := [], {}, [];
    }

    method Dfs(g: Graph<N>, node: N)
      requires Closed(g) && node in g && node !in seen
      requires seen == NodeSet(nodes) && seen <= g.Keys
      modifies this
      ensures seen == NodeSet(nodes) && seen <= g.Keys && old(seen) <= seen
      ensures InGraph(g, Out(g, node), Walk(old(nodes) + [node], old(edges)))
      ensures Walk(nodes, edges) == Explore(g, Out(g, node), Walk(old(nodes) + [node], old(edges)))
      decreases g.Keys - seen
    {
      seen := seen + {node};
      nodes := nodes + [node];
      ghost var w0 := Walk(nodes, edges);
      NoneExplored(g, node, w0);
      for i := 0 to |g[node]|
        invariant seen == NodeSet(nodes) && seen <= g.Keys && old(seen) + {node} <= seen
        invariant Explored(g, node, i, w0, Walk(nodes, edges))
      {
        var (role, child) := g[node][i];
        ExploreNext(g, node, i, w0, Walk(nodes, edges));
        edges := edges + [Edge(node, role, child)];
        if child !in seen {
          Dfs(g, child);
        }
      }
      AllExplored(g, node, w0, Walk(nodes, edges));
    }
  }

  /** Every reachable node once, in depth-first preorder, and every edge of a reachable node once. */
  method Collect<N(==)>(g: Graph<N>, sink: N) returns (nodes: seq<N>, edges: seq<Edge<N>>)
    requires Closed(g) && sink in g
    ensures Walk(nodes, edges) == WalkFrom(g, sink)
    ensures NodeSet(nodes) == ReachableSet(g, sink) && NoRepeats(nodes)
    ensures |nodes| > 0 && nodes[0] == sink
    ensures forall b :: 0 < b < |nodes| ==> FoundBefore(g, nodes, b)
    ensures forall n :: n in g ==> ByParent(edges, n) == if n in nodes then Out(g, n) else []
  {
    var c := new Collector<N>();
    c.Dfs(g, sink);
    assert [] + [sink] == [sink];
    nodes, edges := c.nodes, c.edges;
    WalkVisits(g, sink);
    forall n | n in g ensures ByParent(edges, n) == if n in nodes then Out(g, n) else [] {
      WalkFollows(g, sink, n);
      assert n in nodes <==> n in NodeSet(nodes);
    }
  }

  // ---- printing ------------------------------------------------------------

  datatype Line<N> = Line(prefix: string, last: bool, role: string, node: N, shared: bool)

  function ChildPrefix(prefix: string, last: bool): string {
    prefix + if last then "   " else "│  "
  }

  /** The printed text of a line; `caption` stands for the node's type and parameters. */
  function Text<N>(line: Line<N>, caption: N -> string): string {
    line.prefix + (if line.last then "└─" else "├─") + " "
    + (if line.role != "" then line.role + ": " else "") + caption(line.node)
    + (if line.shared then MARK else "")
  }

  ghost function LineNodes<N>(ls: seq<Line<N>>): set<N> { set i | 0 <= i < |ls| :: ls[i].node }

  /** The indentation below the first line that shows n. */
  ghost function Rail<N>(ls: seq<Line<N>>, n: N): string {
    if ls == [] then ""
    else if ls[0].node == n then ChildPrefix(ls[0].prefix, ls[0].last)
    else Rail(ls[1..], n)
  }

  /** One line per edge: indented below the first line of its parent, closed by a corner when
      its role is the parent's last, and marked shared when an earlier line shows its node. */
  ghost function EdgeLine<N>(g: Graph<N>, ls: seq<Line<N>>, e: Edge<N>): Line<N> {
    Line(Rail(ls, e.parent),
         e.parent in g && |g[e.parent]| > 0 && g[e.parent][|g[e.parent]| - 1].0 == e.role,
         e.role, e.child, e.child in LineNodes(ls))
  }

  ghost function Render<N>(g: Graph<N>, sink: N, es: seq<Edge<N>>): seq<Line<N>> {
    if es == [] then [Line("", true, "", sink, false)]
    else
      var ls := Render(g, sink, es[..|es| - 1]);
      ls + [EdgeLine(g, ls, es[|es| - 1])]
  }

  lemma RenderNext<N>(g: Graph<N>, sink: N, es: seq<Edge<N>>, e: Edge<N>)
    ensures var ls := Render(g, sink, es); Render(g, sink, es + [e]) == ls + [EdgeLine(g, ls, e)]
  {
    assert (es + [e])[..|es + [e]| - 1] == es;
  }

  lemma {:induction false} RailAt<N>(ls: seq<Line<N>>, k: nat)
    requires k < |ls| && forall j :: 0 <= j < k ==> ls[j].node != ls[k].node
    ensures Rail(ls, ls[k].node) == ChildPrefix(ls[k].prefix, ls[k].last)
  {
    if k > 0 {
      RailAt(ls[1..], k - 1);
    }
  }

  /** Line `at` is the first to show n; the lines of n's children are indented by `prefix`. */
  ghost predicate FirstLine<N>(ls: seq<Line<N>>, n: N, prefix: string, at: nat) {
    && at < |ls| && ls[at].node == n && prefix == ChildPrefix(ls[at].prefix, ls[at].last)
    && forall j :: 0 <= j < at ==> ls[j].node != n
  }

  /** The line of n's i-th edge, once line `at` has been the first to show n. */
  lemma ChildLine<N>(g: Graph<N>, sink: N, es: seq<Edge<N>>, before: seq<Line<N>>, ls: seq<Line<N>>,
                     n: N, i: nat, prefix: string, at: nat)
    requires RolesDistinct(g) && n in g && i < |g[n]|
    requires before <= ls && ls == Render(g, sink, es) && FirstLine(before, n, prefix, at)
    ensures var (role, child) := g[n][i];
            ls + [Line(prefix, i == |g[n]| - 1, role, child, child in LineNodes(ls))] ==
            Render(g, sink, es + [Edge(n, role, child)])
  {
    RenderNext(g, sink, es, Edge(n, g[n][i].0, g[n][i].1));
    assert FirstLine(ls, n, prefix, at);
    RailAt(ls, at);
  }

  class TreePrinter<N(==)> {
    var seen: set<N>
    var lines: seq<Line<N>>
    ghost var walk: Walk<N>

    constructor ()
      ensures seen == {} && lines == [] && walk == Walk([], [])
    {
      seen, lines, walk := {}, [], Walk([], []);
    }

    ghost predicate Valid(g: Graph<N>)
      reads this
    {
      Closed(g) && seen == NodeSet(walk.nodes) && seen == LineNodes(lines) && seen <= g.Keys
    }

    /** Print the node's line and, the first time, its children below it. */
    method Visit(g: Graph<N>, node: N, prefix: string, last: bool, role: string, ghost sink: N)
      requires Valid(g) && RolesDistinct(g) && node in g
      requires lines + [Line(prefix, last, role, node, node in seen)] == Render(g, sink, walk.edges)
      modifies this
      ensures Valid(g) && old(seen) <= seen
      ensures old(lines) + [Line(prefix, last, role, node, node in old(seen))] <= lines
      ensures lines == Render(g, sink, walk.edges)
      ensures node in old(seen) ==> walk == old(walk)
      ensures node !in old(seen) ==>
        var w0 := Walk(old(walk.nodes) + [node], old(walk.edges));
        InGraph(g, Out(g, node), w0) && walk == Explore(g, Out(g, node), w0)
      decreases g.Keys - seen, 0
    {
      var line := Line(prefix, last, role, node, node in seen);
      ghost var before := lines;
      lines := lines + [line];
      AddLine(before, line);
      if node in seen {
        return;
      }
      assert forall j :: 0 <= j < |before| ==> before[j].node != node;
      seen := seen + {node};
      walk := walk.(nodes := walk.nodes + [node]);
      Children(g, node, ChildPrefix(prefix, last), sink, |before|);
    }

    /** Print every child of a node whose own line, line `at`, is the only one so far. */
    method Children(g: Graph<N>, node: N, childPrefix: string, ghost sink: N, ghost at: nat)
      requires Valid(g) && RolesDistinct(g) && node in g
      requires lines == Render(g, sink, walk.edges) && FirstLine(lines, node, childPrefix, at)
      modifies this
      ensures Valid(g) && old(seen) <= seen && old(lines) <= lines
      ensures lines == Render(g, sink, walk.edges)
      ensures InGraph(g, Out(g, node), old(walk)) && walk == Explore(g, Out(g, node), old(walk))
      decreases g.Keys - seen, 1
    {
      ghost var w0 := walk;
      NoneExplored(g, node, w0);
      for i := 0 to |g[node]|
        invariant Valid(g) && old(seen) <= seen
        invariant old(lines) <= lines && lines == Render(g, sink, walk.edges)
        invariant Explored(g, node, i, w0, walk)
      {
        var (role, child) := g[node][i];
        ExploreNext(g, node, i, w0, walk);
        ChildLine(g, sink, walk.edges, old(lines), lines, node, i, childPrefix, at);
        walk := walk.(edges := walk.edges + [Edge(node, role, child)]);
        Visit(g, child, childPrefix, i == |g[node]| - 1, role, sink);
      }
      AllExplored(g, node, w0, walk);
    }
  }

  // ---- what the printed lines say -------------------------------------------

  /** The nodes of the unmarked lines, in order. */
  ghost function Expanded<N>(ls: seq<Line<N>>): seq<N> {
    if ls == [] then []
    else Expanded(ls[..|ls| - 1]) + if ls[|ls| - 1].shared then [] else [ls[|ls| - 1].node]
  }

  ghost function SharedCount<N>(ls: seq<Line<N>>): nat {
    if ls == [] then 0
    else SharedCount(ls[..|ls| - 1]) + if ls[|ls| - 1].shared then 1 else 0
  }

  lemma {:induction false} ExpandedOrShared<N>(ls: seq<Line<N>>)
    ensures |Expanded(ls)| + SharedCount(ls) == |ls|
  {
    if ls != [] {
      ExpandedOrShared(ls[..|ls| - 1]);
    }
  }

  lemma AddLine<N>(ls: seq<Line<N>>, l: Line<N>)
    ensures Expanded(ls + [l]) == Expanded(ls) + if l.shared then [] else [l.node]
    ensures LineNodes(ls + [l]) == LineNodes(ls) + {l.node}
  {
    assert (ls + [l])[..|ls + [l]| - 1] == ls;
    assert (ls + [l])[|ls|] == l;
    forall n | n in LineNodes(ls) ensures n in LineNodes(ls + [l]) {
      var i :| 0 <= i < |ls| && ls[i].node == n;
      assert (ls + [l])[i] == ls[i];
    }
  }

  /** The printed lines so far show exactly the nodes visited so far, each unmarked once. */
  ghost predicate Shows<N>(g: Graph<N>, sink: N, w: Walk<N>) {
    var ls := Render(g, sink, w.edges);
    Expanded(ls) == w.nodes && LineNodes(ls) == NodeSet(w.nodes)
  }

  lemma OneLine<N>(line: Line<N>)
    requires !line.shared
    ensures Expanded([line]) == [line.node] && LineNodes([line]) == {line.node}
  {
    assert [line][..0] == [];
    assert [line][0] == line;
  }

  lemma FirstShows<N>(g: Graph<N>, sink: N)
    ensures Shows(g, sink, Walk([sink], []))
  {
    OneLine(Line("", true, "", sink, false));
    assert [sink][0] == sink;
  }

  lemma NextShows<N>(g: Graph<N>, sink: N, w: Walk<N>, e: Edge<N>)
    requires Shows(g, sink, w)
    ensures Shows(g, sink, Walk(if e.child in w.nodes then w.nodes else w.nodes + [e.child], w.edges + [e]))
  {
    var ls := Render(g, sink, w.edges);
    RenderNext(g, sink, w.edges, e);
    AddLine(ls, EdgeLine(g, ls, e));
    assert e.child in w.nodes <==> e.child in NodeSet(w.nodes);
    assert NodeSet(w.nodes + [e.child]) == NodeSet(w.nodes) + {e.child};
  }

  lemma {:induction false} RenderTracks<N>(g: Graph<N>, sink: N, work: seq<Edge<N>>, w: Walk<N>)
    requires InGraph(g, work, w) && Shows(g, sink, w)
    ensures Expanded(Render(g, sink, Explore(g, work, w).edges)) == Explore(g, work, w).nodes
    decreases g.Keys - NodeSet(w.nodes), |work|
  {
    if work != [] {
      var e := work[0];
      var w1 := w.(edges := w.edges + [e]);
      NextShows(g, sink, w, e);
      if e.child in w.nodes {
        RenderTracks(g, sink, work[1..], w1);
      } else {
        var w2 := w1.(nodes := w1.nodes + [e.child]);
        assert e.child in NodeSet(w2.nodes) && NodeSet(w.nodes) <= NodeSet(w2.nodes);
        RenderTracks(g, sink, Out(g, e.child) + work[1..], w2);
      }
    }
  }

  lemma {:induction false} RenderLength<N>(g: Graph<N>, sink: N, es: seq<Edge<N>>)
    ensures |Render(g, sink, es)| == 1 + |es|
  {
    if es != [] {
      RenderLength(g, sink, es[..|es| - 1]);
    }
  }

  /** One line for the sink and one per reachable edge; the unmarked lines show each reachable
      node exactly once, in preorder; the others are marked. */
  lemma RenderCounts<N>(g: Graph<N>, sink: N)
    requires Closed(g) && sink in g
    ensures var w := WalkFrom(g, sink);
            var ls := Render(g, sink, w.edges);
            && |ls| == 1 + OutDegrees(g, w.nodes)
            && Expanded(ls) == w.nodes
            && SharedCount(ls) == 1 + |w.edges| - |w.nodes|
  {
    var w := WalkFrom(g, sink);
    var ls := Render(g, sink, w.edges);
    FirstShows(g, sink);
    RenderTracks(g, sink, Out(g, sink), Walk([sink], []));
    RenderLength(g, sink, w.edges);
    ExpandedOrShared(ls);
    WalkFollows(g, sink, sink);
  }

  /** What the sink's line prints, and what a child's line prints: the indentation of its parent,
      a rail below a parent that has more siblings to come, a corner for the last child and a
      branch for the others, the role, and the mark of a node shown before. */
  lemma LineTexts<N>(sink: N, parent: Line<N>, role: string, node: N, last: bool, shared: bool, caption: N -> string)
    ensures Text(Line("", true, "", sink, false), caption) == "└─ " + caption(sink)
    ensures Text(Line(ChildPrefix(parent.prefix, parent.last), last, role, node, shared), caption) ==
            parent.prefix + (if parent.last then "   " else "│  ") + (if last then "└─ " else "├─ ")
            + (if role == "" then "" else role + ": ") + caption(node) + (if shared then "  ↑(shared)" else "")
  {
    assert "" + "└─" + " " == "└─ " && "├─" + " " == "├─ ";
  }

  /** The printed text of n's i-th edge: indented below the first line that shows n. */
  lemma EdgeText<N>(g: Graph<N>, sink: N, es: seq<Edge<N>>, n: N, i: nat, at: nat, caption: N -> string)
    requires RolesDistinct(g) && n in g && i < |g[n]|
    requires at < |Render(g, sink, es)| && Render(g, sink, es)[at].node == n
    requires forall j :: 0 <= j < at ==> Render(g, sink, es)[j].node != n
    ensures var ls, (role, child) := Render(g, sink, es), g[n][i];
            var next := Render(g, sink, es + [Edge(n, role, child)]);
            && |next| == |ls| + 1
            && Text(next[|ls|], caption) ==
                 ls[at].prefix + (if ls[at].last then "   " else "│  ") + (if i == |g[n]| - 1 then "└─ " else "├─ ")
                 + (if role == "" then "" else role + ": ") + caption(child)
                 + (if child in LineNodes(ls) then "  ↑(shared)" else "")
  {
    var ls := Render(g, sink, es);
    var (role, child) := g[n][i];
    ChildLine(g, sink, es, ls, ls, n, i, ChildPrefix(ls[at].prefix, ls[at].last), at);
    LineTexts(sink, ls[at], role, child, i == |g[n]| - 1, child in LineNodes(ls), caption);
  }

  /** The first line printed is the sink's, under a corner, without role or mark. */
  lemma {:induction false} FirstText<N>(g: Graph<N>, sink: N, es: seq<Edge<N>>, caption: N -> string)
    ensures |Render(g, sink, es)| > 0
    ensures Text(Render(g, sink, es)[0], caption) == "└─ " + caption(sink)
  {
    if es == [] {
      LineTexts(sink, Line("", true, "", sink, false), "", sink, true, false, caption);
    } else {
      FirstText(g, sink, es[..|es| - 1], caption);
    }
  }

  const MARK := "  ↑(shared)"

  /** A marked line says so at its end. */
  lemma MarkedText<N>(line: Line<N>, caption: N -> string)
    requires line.shared
    ensures |Text(line, caption)| >= |MARK| && Text(line, caption)[|Text(line, caption)| - |MARK|..] == MARK
  {
    var rest := Text(line.(shared := false), caption);
    assert Text(line, caption) == rest + MARK;
  }

  method PrintTree<N(==)>(g: Graph<N>, sink: N, caption: N -> string)
    returns (lines: seq<Line<N>>, printed: seq<string>)
    requires Closed(g) && RolesDistinct(g) && sink in g
    ensures lines == Render(g, sink, WalkFrom(g, sink).edges)
    ensures |printed| == |lines| && forall i :: 0 <= i < |lines| ==> printed[i] == Text(lines[i], caption)
    ensures |printed| > 0 && printed[0] == "└─ " + caption(sink)
    ensures |lines| == 1 + OutDegrees(g, WalkFrom(g, sink).nodes)
    ensures Expanded(lines) == WalkFrom(g, sink).nodes
    ensures SharedCount(lines) == |lines| - |WalkFrom(g, sink).nodes|
  {
    var p := new TreePrinter<N>();
    assert [] + [Line("", true, "", sink, false)] == [Line("", true, "", sink, false)];
    p.Visit(g, sink, "", true, "", sink);
    assert [] + [sink] == [sink];
    lines := p.lines;
    FirstText(g, sink, WalkFrom(g, sink).edges, caption);
    printed := seq(|lines|, i requires 0 <= i < |lines| => Text(lines[i], caption));
    RenderCounts(g, sink);
    ExpandedOrShared(lines);
  }
}
