/** The logical clock of the recording proxies and the completion ranks shown for a run. */
module CompletionRanks {
  import opened Graph
  import opened Executor
  import opened ExecutorRuns
  import opened Tracing
  import Sorting
  import opened Sequences

  // ---- stamps ------------------------------------------------------------------

  ghost predicate Started<N>(s: State<N>, t: int) {
    0 <= t < |s.tasks| && s.tasks[t].phase != Gathering
  }

  /** A started resolve was stamped before now and after the end of each of its dependencies. */
  ghost predicate StampOk<N>(g: Graph<N>, s: State<N>, t: int) {
    0 <= t < |s.tasks| ==>
      && (s.tasks[t].phase == Done <==> s.tasks[t].node in s.records)
      && (s.tasks[t].phase == Done ==> s.records[s.tasks[t].node].start == s.tasks[t].start)
      && (Started(s, t) ==>
            s.tasks[t].start < s.clock && s.tasks[t].node in g
            && forall i :: 0 <= i < |g[s.tasks[t].node]| ==> EndsBefore(s, g[s.tasks[t].node][i].1, s.tasks[t].start))
  }

  ghost predicate EndsBefore<N>(s: State<N>, n: N, time: nat) {
    n in s.records && s.records[n].end < time
  }

  ghost predicate RecordOk<N>(s: State<N>, n: N) {
    n in s.records ==> s.records[n].start < s.records[n].end < s.clock && DoneNode(s, n)
  }

  ghost predicate StartsDiffer<N>(s: State<N>, t: int, u: int) {
    t != u && Started(s, t) && Started(s, u) ==> s.tasks[t].start != s.tasks[u].start
  }

  ghost predicate EndsDiffer<N>(s: State<N>, n: N, m: N) {
    n != m && n in s.records && m in s.records ==> s.records[n].end != s.records[m].end
  }

  ghost predicate StartNotEnd<N>(s: State<N>, t: int, n: N) {
    Started(s, t) && n in s.records ==> s.tasks[t].start != s.records[n].end
  }

  ghost predicate Stamps<N>(g: Graph<N>, s: State<N>) {
    && s.records.Keys <= g.Keys
    && (forall t {:trigger StampOk(g, s, t)} :: StampOk(g, s, t))
    && (forall n {:trigger RecordOk(s, n)} :: n in g ==> RecordOk(s, n))
    && (forall t, u {:trigger StartsDiffer(s, t, u)} :: StartsDiffer(s, t, u))
    && (forall n, m {:trigger EndsDiffer(s, n, m)} :: n in g && m in g ==> EndsDiffer(s, n, m))
    && (forall t, n {:trigger StartNotEnd(s, t, n)} :: n in g ==> StartNotEnd(s, t, n))
  }

  lemma QuietStep<N>(g: Graph<N>, root: N, release: bool, s: State<N>, step: Step)
    requires Inv(g, root, release, s) && Enabled(g, s, step) && Stamps(g, s)
    requires step.Call? || step.Return? || (step.Finish? && !step.ok)
    ensures Stamps(g, Next(g, s, step))
  {
    var s' := Next(g, s, step);
    if step.Call? {
      QuietCall(g, root, release, s, step.task, step.role);
    }
    forall t ensures StampOk(g, s', t) {
      assert StampOk(g, s, t);
      if Started(s', t) {
        assert Started(s, t);
        forall i | 0 <= i < |g[s.tasks[t].node]| ensures EndsBefore(s', g[s.tasks[t].node][i].1, s.tasks[t].start) {
          assert EndsBefore(s, g[s.tasks[t].node][i].1, s.tasks[t].start);
        }
      }
    }
    forall n | n in g ensures RecordOk(s', n) {
      assert RecordOk(s, n);
      if n in s.records {
        var t :| 0 <= t < |s.tasks| && s.tasks[t].node == n && s.tasks[t].phase == Done;
        assert s'.tasks[t].node == n && s'.tasks[t].phase == Done;
      }
    }
    forall t, u ensures StartsDiffer(s', t, u) {
      assert StartsDiffer(s, t, u);
    }
    forall n, m | n in g && m in g ensures EndsDiffer(s', n, m) {
      assert EndsDiffer(s, n, m);
    }
    forall t, n | n in g ensures StartNotEnd(s', t, n) {
      assert StartNotEnd(s, t, n);
    }
  }

  /** A newly scheduled node has no record yet. */
  lemma QuietCall<N>(g: Graph<N>, root: N, release: bool, s: State<N>, t: nat, i: nat)
    requires Inv(g, root, release, s) && Enabled(g, s, Call(t, i)) && Stamps(g, s)
    ensures g[s.tasks[t].node][i].1 !in s.memo.entries ==> g[s.tasks[t].node][i].1 !in s.records
  {
    var dep := g[s.tasks[t].node][i].1;
    if dep !in s.memo.entries {
      FirstCall(g, root, release, s, t, i);
      assert dep in s.records ==> RecordOk(s, dep);
    }
  }

  lemma BeginStep<N>(g: Graph<N>, root: N, release: bool, s: State<N>, t: nat)
    requires Inv(g, root, release, s) && Enabled(g, s, Begin(t)) && Stamps(g, s)
    ensures Stamps(g, Next(g, s, Begin(t)))
  {
    var s' := Next(g, s, Begin(t));
    StepKeeps(g, root, release, s, Begin(t));
    AfterDependencies(g, root, release, s', t);
    forall i | 0 <= i < |g[s.tasks[t].node]| ensures EndsBefore(s', g[s.tasks[t].node][i].1, s.clock) {
      var d := s'.tasks[t].called[i];
      assert s.tasks[d].phase == Done;
      assert StampOk(g, s, d) && RecordOk(s, s.tasks[d].node);
    }
    forall u ensures StampOk(g, s', u) {
      assert StampOk(g, s, u);
      if Started(s', u) && u != t {
        assert Started(s, u);
        forall i | 0 <= i < |g[s.tasks[u].node]| ensures EndsBefore(s', g[s.tasks[u].node][i].1, s.tasks[u].start) {
          assert EndsBefore(s, g[s.tasks[u].node][i].1, s.tasks[u].start);
        }
      }
    }
    forall n | n in g ensures RecordOk(s', n) {
      assert RecordOk(s, n);
      if n in s.records {
        var u :| 0 <= u < |s.tasks| && s.tasks[u].node == n && s.tasks[u].phase == Done;
        assert s'.tasks[u].node == n && s'.tasks[u].phase == Done;
      }
    }
    forall u, v ensures StartsDiffer(s', u, v) {
      assert StartsDiffer(s, u, v) && StampOk(g, s, u) && StampOk(g, s, v);
    }
    forall n, m | n in g && m in g ensures EndsDiffer(s', n, m) {
      assert EndsDiffer(s, n, m);
    }
    forall u, n | n in g ensures StartNotEnd(s', u, n) {
      assert StartNotEnd(s, u, n) && RecordOk(s, n);
    }
  }

  lemma FinishStep<N>(g: Graph<N>, root: N, release: bool, s: State<N>, t: nat)
    requires Inv(g, root, release, s) && Enabled(g, s, Finish(t, true)) && Stamps(g, s)
    ensures Stamps(g, Next(g, s, Finish(t, true)))
  {
    var s' := Next(g, s, Finish(t, true));
    var n0 := s.tasks[t].node;
    assert StampOk(g, s, t);
    assert n0 !in s.records;
    forall u ensures StampOk(g, s', u) {
      assert StampOk(g, s, u);
      if Started(s', u) {
        assert Started(s, u);
        forall i | 0 <= i < |g[s.tasks[u].node]| ensures EndsBefore(s', g[s.tasks[u].node][i].1, s.tasks[u].start) {
          assert EndsBefore(s, g[s.tasks[u].node][i].1, s.tasks[u].start);
        }
      }
    }
    forall n | n in g ensures RecordOk(s', n) {
      assert RecordOk(s, n);
      if n == n0 {
        assert s'.tasks[t].node == n && s'.tasks[t].phase == Done;
      } else if n in s.records {
        var u :| 0 <= u < |s.tasks| && s.tasks[u].node == n && s.tasks[u].phase == Done;
        assert s'.tasks[u].node == n && s'.tasks[u].phase == Done;
      }
    }
    forall u, v ensures StartsDiffer(s', u, v) {
      assert StartsDiffer(s, u, v);
    }
    forall n, m | n in g && m in g ensures EndsDiffer(s', n, m) {
      assert EndsDiffer(s, n, m) && RecordOk(s, n) && RecordOk(s, m);
    }
    forall u, n | n in g ensures StartNotEnd(s', u, n) {
      assert StartNotEnd(s, u, n) && StampOk(g, s, u);
    }
  }

  lemma {:induction false} RunStamps<N>(g: Graph<N>, root: N, release: bool, s: State<N>, run: seq<Step>, s': State<N>)
    requires Inv(g, root, release, s) && Stamps(g, s) && Reaches(g, s, run, s')
    ensures Stamps(g, s')
    decreases |run|
  {
    if run != [] {
      var step := run[0];
      match step {
        case Call(_, _) => QuietStep(g, root, release, s, step);
        case Return(_, _) => QuietStep(g, root, release, s, step);
        case Begin(t) => BeginStep(g, root, release, s, t);
        case Finish(t, ok) =>
          if ok {
            FinishStep(g, root, release, s, t);
          } else {
            QuietStep(g, root, release, s, step);
          }
      }
      StepKeeps(g, root, release, s, step);
      RunStamps(g, root, release, Next(g, s, step), run[1..], s');
    }
  }

  // ---- ranks -------------------------------------------------------------------------

  function EndOf<N(==)>(records: map<N, Record>, n: N): nat {
    if n in records then records[n].end else 0
  }

  /** Number a list from 1; like building a dictionary, a later occurrence would win. */
  function Number<N(==)>(order: seq<N>): map<N, nat> {
    if order == [] then map[] else Number(order[..|order| - 1])[order[|order| - 1] := |order|]
  }

  /** Rank the recorded nodes, given in recording order, by completion. */
  function Steps<N(==)>(keys: seq<N>, records: map<N, Record>): map<N, nat> {
    Number(Sorting.Sort((a: N, b: N) => EndOf(records, a) <= EndOf(records, b), keys))
  }

  lemma {:induction false} NumberFacts<N>(order: seq<N>)
    requires NoRepeats(order)
    ensures Number(order).Keys == NodeSet(order)
    ensures forall i :: 0 <= i < |order| ==> Number(order)[order[i]] == i + 1
  {
    if order != [] {
      var init := order[..|order| - 1];
      NumberFacts(init);
      forall n ensures n in NodeSet(order) <==> n in NodeSet(init) || n == order[|order| - 1] {
        assert order == init + [order[|order| - 1]];
      }
      forall i | 0 <= i < |order| ensures order[i] in Number(order) && Number(order)[order[i]] == i + 1 {
        if i < |init| {
          assert init[i] == order[i];
        }
      }
    }
  }

  /** Only the counts matter for having no repeats. */
  lemma {:induction false} PermutationDistinct<N>(a: seq<N>, b: seq<N>)
    requires NoRepeats(a) && multiset(a) == multiset(b)
    ensures NoRepeats(b)
  {
    CountOnce(a);
    forall i, j | 0 <= i < j < |b| ensures b[i] != b[j] {
      assert b == b[..i] + [b[i]] + b[i + 1..j] + [b[j]] + b[j + 1..];
      assert multiset(b)[b[i]] <= 1;
    }
  }

  lemma {:induction false} CountOnce<N>(s: seq<N>)
    requires NoRepeats(s)
    ensures forall x :: multiset(s)[x] <= 1
  {
    if s != [] {
      CountOnce(s[1..]);
      assert s == [s[0]] + s[1..];
      assert s[0] !in s[1..];
      assert multiset(s[1..])[s[0]] == 0;
    }
  }

  lemma SortedKeys<N>(keys: seq<N>, records: map<N, Record>) returns (order: seq<N>)
    requires NoRepeats(keys)
    ensures Steps(keys, records) == Number(order)
    ensures NoRepeats(order) && |order| == |keys| && NodeSet(order) == NodeSet(keys)
    ensures forall i, j :: 0 <= i < j < |order| ==> EndOf(records, order[i]) <= EndOf(records, order[j])
  {
    var le := (a: N, b: N) => EndOf(records, a) <= EndOf(records, b);
    order := Sorting.Sort(le, keys);
    Sorting.SortFacts(le, keys);
    PermutationDistinct(keys, order);
    assert |order| == |multiset(order)| == |multiset(keys)| == |keys|;
    assert forall n :: n in order <==> n in multiset(order);
    assert forall n :: n in keys <==> n in multiset(keys);
  }

  ghost predicate Ranked<N>(steps: map<N, nat>, k: nat) {
    exists n :: n in steps && steps[n] == k
  }

  /** The ranks are a one-to-one numbering 1..n of the recorded nodes, by completion. */
  lemma StepsRank<N>(keys: seq<N>, records: map<N, Record>)
    requires NoRepeats(keys) && NodeSet(keys) == records.Keys
    ensures Steps(keys, records).Keys == records.Keys
    ensures forall k: nat :: Ranked(Steps(keys, records), k) <==> 1 <= k <= |records|
    ensures forall n, m :: n in records && m in records && n != m ==> Steps(keys, records)[n] != Steps(keys, records)[m]
    ensures forall n, m :: n in records && m in records && records[n].end < records[m].end ==>
              Steps(keys, records)[n] < Steps(keys, records)[m]
  {
    var order := SortedKeys(keys, records);
    var steps := Steps(keys, records);
    NumberFacts(order);
    OrderSize(order);
    assert |records| == |records.Keys|;
    forall n | n in records ensures n in order {
      assert n in NodeSet(order);
    }
    forall k: nat ensures Ranked(steps, k) <==> 1 <= k <= |records| {
      if 1 <= k <= |records| {
        assert order[k - 1] in NodeSet(order);
        assert order[k - 1] in steps && steps[order[k - 1]] == k;
      }
      if Ranked(steps, k) {
        var n :| n in steps && steps[n] == k;
        assert n in order;
      }
    }
    forall n, m | n in records && m in records
      ensures n != m ==> steps[n] != steps[m]
      ensures records[n].end < records[m].end ==> steps[n] < steps[m]
    {
      var i :| 0 <= i < |order| && order[i] == n;
      var j :| 0 <= j < |order| && order[j] == m;
      assert steps[n] == i + 1 && steps[m] == j + 1;
    }
  }

  lemma {:induction false} OrderSize<N>(order: seq<N>)
    requires NoRepeats(order)
    ensures |NodeSet(order)| == |order|
  {
    if order != [] {
      var init, last := order[..|order| - 1], order[|order| - 1];
      OrderSize(init);
      assert order == init + [last];
      assert NodeSet(order) == NodeSet(init) + {last};
    }
  }

  // ---- a whole traced run ----------------------------------------------------------------

  /** Every dependency of a recorded node was recorded too, and ended before the node began. */
  ghost predicate DependenciesFirst<N>(g: Graph<N>, records: map<N, Record>, n: N) {
    n in g && n in records ==> forall i :: 0 <= i < |g[n]| ==>
      g[n][i].1 in records && records[g[n][i].1].end < records[n].start < records[n].end
  }

  lemma RecordsFollowDependencies<N>(g: Graph<N>, root: N, release: bool, pending: map<N, nat>,
                                     run: seq<Step>, s: State<N>)
    requires Prepared(g, root, release, pending) && Reaches(g, Start(root, pending), run, s)
    ensures Stamps(g, s)
    ensures forall n :: n in g ==> DependenciesFirst(g, s.records, n)
    ensures Completed(s) ==> s.records.Keys == ReachableSet(g, root)
  {
    StartInv(g, root, release, pending);
    RunKeeps(g, root, release, Start(root, pending), run, s);
    RunStamps(g, root, release, Start(root, pending), run, s);
    forall n | n in g ensures DependenciesFirst(g, s.records, n) && (n in s.records ==> n in ReachableSet(g, root)) {
      assert RecordOk(s, n);
      if n in s.records {
        var t :| 0 <= t < |s.tasks| && s.tasks[t].node == n && s.tasks[t].phase == Done;
        assert StampOk(g, s, t) && TaskOk(g, root, s.tasks, t) && Started(s, t);
        forall i | 0 <= i < |g[n]| ensures g[n][i].1 in s.records && s.records[g[n][i].1].end < s.records[n].start {
          assert EndsBefore(s, g[n][i].1, s.tasks[t].start);
        }
      }
    }
    if Completed(s) {
      NothingLeft(g, root, release, pending, run, s);
      forall n | n in ReachableSet(g, root) ensures n in s.records {
        var t :| 0 <= t < |s.tasks| && s.tasks[t].node == n && s.tasks[t].phase == Done;
        assert StampOk(g, s, t);
      }
    }
  }

  /** The records as the helper keeps them: under the original node of each proxy. */
  ghost function ByOriginal<N>(of: map<N, Traced<N>>, records: map<Traced<N>, Record>): map<N, Record> {
    map n | n in of && of[n] in records :: records[of[n]]
  }

  /** Executing the recording copy of a graph, in any interleaving and with finished results
      released, records every node of the original graph exactly once, and the completion
      ranks number them 1..n with every dependency before its consumers. */
  lemma TracedRunRanks<N>(g: Graph<N>, sink: N, copy: Graph<Traced<N>>, of: map<N, Traced<N>>,
                          pending: map<Traced<N>, nat>, run: seq<Step>, s: State<Traced<N>>, keys: seq<N>)
    requires Closed(g) && sink in g && Isomorphic(g, ReachableSet(g, sink), copy, of) && sink in of
    requires Prepared(copy, of[sink], true, pending) && Reaches(copy, Start(of[sink], pending), run, s)
    requires Completed(s)
    requires NoRepeats(keys) && NodeSet(keys) == ByOriginal(of, s.records).Keys
    ensures ByOriginal(of, s.records).Keys == ReachableSet(g, sink)
    ensures Steps(keys, ByOriginal(of, s.records)).Keys == ReachableSet(g, sink)
    ensures forall n, i :: n in ReachableSet(g, sink) && n in g && 0 <= i < |g[n]| ==>
              g[n][i].1 in ReachableSet(g, sink)
              && Steps(keys, ByOriginal(of, s.records))[g[n][i].1] < Steps(keys, ByOriginal(of, s.records))[n]
  {
    var records := ByOriginal(of, s.records);
    RecordsFollowDependencies(copy, of[sink], true, pending, run, s);
    forall n | n in of ensures of[n] in s.records {
      assert n in ReachableSet(g, sink);
      CopyReaches(g, sink, copy, of, n);
    }
    assert records.Keys == of.Keys;
    StepsRank(keys, records);
    forall n, i | n in ReachableSet(g, sink) && n in g && 0 <= i < |g[n]|
      ensures g[n][i].1 in ReachableSet(g, sink)
      ensures records[g[n][i].1].end < records[n].end
    {
      ReachableStep(g, sink, n, i);
      assert WiredLike(g, of, n, copy[of[n]]);
      assert DependenciesFirst(copy, s.records, of[n]);
      assert copy[of[n]][i] == (g[n][i].0, of[g[n][i].1]);
    }
  }

  /** The copy reaches the proxy of everything the original reaches. */
  lemma CopyReaches<N>(g: Graph<N>, sink: N, copy: Graph<Traced<N>>, of: map<N, Traced<N>>, n: N)
    requires Closed(g) && sink in g && Isomorphic(g, ReachableSet(g, sink), copy, of) && sink in of
    requires n in ReachableSet(g, sink)
    ensures Closed(copy) && of[n] in ReachableSet(copy, of[sink])
  {
    CopyIsClosed(g, ReachableSet(g, sink), copy, of);
    var s := set m | m in of && of[m] in ReachableSet(copy, of[sink]);
    assert sink in s by {
      ReachableSelf(copy, of[sink]);
    }
    forall m, i | m in s && m in g && 0 <= i < |g[m]| ensures g[m][i].1 in s {
      assert WiredLike(g, of, m, copy[of[m]]);
      assert copy[of[m]][i] == (g[m][i].0, of[g[m][i].1]);
      ReachableStep(copy, of[sink], of[m], i);
    }
    var k: nat :| n in Within(g, sink, k);
    ClosedSetHoldsWithin(g, sink, s, k);
  }
}
