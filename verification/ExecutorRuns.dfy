/** What every run of the executor guarantees: one task per node, dependencies first, a
    release that nobody can observe, nothing left behind, no deadlock, and recorded
    completion ranks that follow the dependencies. */
module ExecutorRuns {
  import opened Graph
  import opened Memo
  import opened Executor
  import Acyclic

  // ---- once per node ------------------------------------------------------------

  /** However the run interleaves, no node ever gets a second task. */
  lemma ResolveOnce<N>(g: Graph<N>, root: N, release: bool, pending: map<N, nat>, run: seq<Step>, s: State<N>)
    requires Prepared(g, root, release, pending) && Reaches(g, Start(root, pending), run, s)
    ensures Distinct(s.tasks)
    ensures forall t :: 0 <= t < |s.tasks| ==> s.tasks[t].node in ReachableSet(g, root)
  {
    StartInv(g, root, release, pending);
    RunKeeps(g, root, release, Start(root, pending), run, s);
    forall t | 0 <= t < |s.tasks| ensures s.tasks[t].node in ReachableSet(g, root) {
      assert TaskOk(g, root, s.tasks, t);
    }
  }

  // ---- release is invisible --------------------------------------------------------

  /** Equal in everything but the memo's own books. */
  ghost predicate SameWork<N>(s: State<N>, u: State<N>) {
    s.tasks == u.tasks && s.clock == u.clock && s.records == u.records
  }

  lemma SameClaim<N>(g: Graph<N>, root: N, a: bool, b: bool, s: State<N>, u: State<N>, t: nat, i: nat)
    requires Inv(g, root, a, s) && Inv(g, root, b, u) && SameWork(s, u) && Enabled(g, s, Call(t, i))
    ensures var dep := g[s.tasks[t].node][i].1;
            && (dep in s.memo.entries <==> dep in u.memo.entries)
            && (dep in s.memo.entries ==> s.memo.entries[dep] == u.memo.entries[dep])
  {
    var dep := g[s.tasks[t].node][i].1;
    assert TaskOk(g, root, s.tasks, t);
    assert dep in g;
    assert EntryOk(root, a, s, dep) && EntryOk(root, b, u, dep);
    if dep !in s.memo.entries {
      FirstCall(g, root, a, s, t, i);
    }
    if dep !in u.memo.entries {
      FirstCall(g, root, b, u, t, i);
    }
  }

  lemma SameNext<N>(g: Graph<N>, root: N, a: bool, b: bool, s: State<N>, u: State<N>, step: Step)
    requires Inv(g, root, a, s) && Inv(g, root, b, u) && SameWork(s, u) && Enabled(g, s, step)
    ensures Enabled(g, u, step) && SameWork(Next(g, s, step), Next(g, u, step))
  {
    if step.Call? {
      SameClaim(g, root, a, b, s, u, step.task, step.role);
    }
  }

  /** Whatever one executor can do, the other can do step for step with the same work. */
  lemma {:induction false} SameRun<N>(g: Graph<N>, root: N, a: bool, b: bool, s: State<N>, u: State<N>,
                                      run: seq<Step>, s': State<N>) returns (u': State<N>)
    requires Inv(g, root, a, s) && Inv(g, root, b, u) && SameWork(s, u) && Reaches(g, s, run, s')
    ensures Reaches(g, u, run, u') && SameWork(s', u')
    decreases |run|
  {
    if run == [] {
      u' := u;
    } else {
      SameNext(g, root, a, b, s, u, run[0]);
      StepKeeps(g, root, a, s, run[0]);
      StepKeeps(g, root, b, u, run[0]);
      u' := SameRun(g, root, a, b, Next(g, s, run[0]), Next(g, u, run[0]), run[1..], s');
    }
  }

  /** Dropping finished results changes nothing a run computes: a releasing executor and one
      that keeps everything have the same runs, awaiting the same tasks at every call. */
  lemma ReleaseIsInvisible<N>(g: Graph<N>, root: N, pending: map<N, nat>, run: seq<Step>,
                              releasing: State<N>, keeping: State<N>)
    returns (kept: State<N>, released: State<N>)
    requires Closed(g) && root in g && Counted(g, root, pending)
    ensures Reaches(g, Start(root, pending), run, releasing) ==>
              Reaches(g, Start(root, map[]), run, kept) && SameWork(releasing, kept)
    ensures Reaches(g, Start(root, map[]), run, keeping) ==>
              Reaches(g, Start(root, pending), run, released) && SameWork(keeping, released)
  {
    StartInv(g, root, true, pending);
    StartInv(g, root, false, map[]);
    kept, released := releasing, keeping;
    if Reaches(g, Start(root, pending), run, releasing) {
      kept := SameRun(g, root, true, false, Start(root, pending), Start(root, map[]), run, releasing);
    }
    if Reaches(g, Start(root, map[]), run, keeping) {
      released := SameRun(g, root, false, true, Start(root, map[]), Start(root, pending), run, keeping);
    }
  }

  // ---- what stays memoised ---------------------------------------------------------

  /** Whatever is reached from the root, other than the root, has a reachable consumer. */
  lemma {:induction false} HasConsumer<N>(g: Graph<N>, root: N, n: N, k: nat) returns (p: N, i: nat)
    requires Closed(g) && root in g && n in Within(g, root, k) && n != root
    ensures p in ReachableSet(g, root) && i < |g[p]| && g[p][i].1 == n
  {
    if n in Within(g, root, k - 1) {
      p, i := HasConsumer(g, root, n, k - 1);
    } else {
      var q, j :| q in Within(g, root, k - 1) && 0 <= j < |g[q]| && g[q][j].1 == n;
      p, i := q, j;
    }
  }

  ghost predicate DoneNode<N>(s: State<N>, n: N) {
    exists t :: 0 <= t < |s.tasks| && s.tasks[t].node == n && s.tasks[t].phase == Done
  }

  lemma AnsweredIsDone<N>(g: Graph<N>, root: N, release: bool, s: State<N>, p: N, i: nat)
    requires Inv(g, root, release, s) && p in g && i < |g[p]| && Answered(s.tasks, p, i)
    ensures DoneNode(s, g[p][i].1)
  {
    var u :| 0 <= u < |s.tasks| && s.tasks[u].node == p && i in s.tasks[u].returned;
    assert TaskOk(g, root, s.tasks, u) && CallOk(g, s.tasks, u, i);
  }

  /** As long as a node's task is not done, some consumer edge of the node is unanswered. */
  lemma UnfinishedIsOwed<N>(g: Graph<N>, root: N, release: bool, s: State<N>, t: nat)
    requires Inv(g, root, release, s) && t < |s.tasks|
    requires s.tasks[t].phase != Done && s.tasks[t].node != root
    ensures Outstanding(g, root, s.tasks, s.tasks[t].node) != {}
  {
    var n := s.tasks[t].node;
    assert TaskOk(g, root, s.tasks, t);
    var k: nat :| n in Within(g, root, k);
    var p, i := HasConsumer(g, root, n, k);
    if Answered(s.tasks, p, i) {
      AnsweredIsDone(g, root, release, s, p, i);
      assert false;
    }
    var e := (p, i as int);
    assert e in Consumers(g, ReachableSet(g, root), n);
    assert e in Outstanding(g, root, s.tasks, n);
  }

  ghost predicate Memoised<N>(s: State<N>, t: nat)
    requires t < |s.tasks|
  {
    s.tasks[t].node in s.memo.entries && s.memo.entries[s.tasks[t].node] == t
  }

  /** In every reachable state a node's own result or task is in the memo exactly as long as the
      memo keeps everything, the node is the root, or some consumer is still unanswered. */
  lemma MemoisedExactly<N>(g: Graph<N>, root: N, release: bool, pending: map<N, nat>,
                           run: seq<Step>, s: State<N>, t: nat)
    requires Prepared(g, root, release, pending) && Reaches(g, Start(root, pending), run, s) && t < |s.tasks|
    ensures Memoised(s, t) <==>
              !release || s.tasks[t].node == root || Outstanding(g, root, s.tasks, s.tasks[t].node) != {}
  {
    StartInv(g, root, release, pending);
    RunKeeps(g, root, release, Start(root, pending), run, s);
    var n := s.tasks[t].node;
    assert TaskOk(g, root, s.tasks, t) && Kept(g, root, release, s, t);
    assert n in g && EntryOk(root, release, s, n) && PendingOk(g, root, release, s, n);
  }

  /** So the root is never released, and neither is anything unfinished: a failed or cancelled
      task stays where it is, whatever else the run does. */
  lemma UnfinishedStaysMemoised<N>(g: Graph<N>, root: N, release: bool, pending: map<N, nat>,
                                   run: seq<Step>, s: State<N>, t: nat)
    requires Prepared(g, root, release, pending) && Reaches(g, Start(root, pending), run, s) && t < |s.tasks|
    requires s.tasks[t].phase != Done || s.tasks[t].node == root
    ensures Memoised(s, t)
  {
    MemoisedExactly(g, root, release, pending, run, s, t);
    if s.tasks[t].node != root {
      StartInv(g, root, release, pending);
      RunKeeps(g, root, release, Start(root, pending), run, s);
      UnfinishedIsOwed(g, root, release, s, t);
    }
  }

  /** Only a result's arrival at a consumer spends a count, and only a finished task has one. */
  lemma OnlySuccessSpends<N>(g: Graph<N>, s: State<N>, step: Step)
    requires Enabled(g, s, step) && Next(g, s, step).memo.pending != s.memo.pending
    ensures step.Return? && s.tasks[s.tasks[step.task].called[step.role]].phase == Done
  {
  }

  // ---- a finished run ----------------------------------------------------------------

  ghost predicate Completed<N>(s: State<N>) {
    |s.tasks| > 0 && s.tasks[0].phase == Done
  }

  lemma DoneDependencies<N>(g: Graph<N>, root: N, release: bool, s: State<N>, n: N, i: nat)
    requires Inv(g, root, release, s) && n in g && DoneNode(s, n) && i < |g[n]|
    ensures DoneNode(s, g[n][i].1) && Answered(s.tasks, n, i)
  {
    var t :| 0 <= t < |s.tasks| && s.tasks[t].node == n && s.tasks[t].phase == Done;
    AfterDependencies(g, root, release, s, t);
    assert TaskOk(g, root, s.tasks, t);
  }

  /** When the root is done, every reachable node has run exactly one task to its end, and a
      releasing memo holds the root's result and nothing else. */
  lemma NothingLeft<N>(g: Graph<N>, root: N, release: bool, pending: map<N, nat>, run: seq<Step>, s: State<N>)
    requires Prepared(g, root, release, pending) && Reaches(g, Start(root, pending), run, s)
    requires Completed(s)
    ensures forall n :: n in ReachableSet(g, root) ==> DoneNode(s, n)
    ensures |s.tasks| == |ReachableSet(g, root)|
    ensures release ==> s.memo.entries.Keys == {root} && s.memo.pending == map[]
  {
    StartInv(g, root, release, pending);
    RunKeeps(g, root, release, Start(root, pending), run, s);
    var all := ReachableSet(g, root);
    var done := set n | n in all && DoneNode(s, n);
    assert root in done by {
      ReachableSelf(g, root);
    }
    forall n, i | n in done && n in g && 0 <= i < |g[n]| ensures g[n][i].1 in done {
      DoneDependencies(g, root, release, s, n, i);
      ReachableStep(g, root, n, i);
    }
    forall n | n in all ensures n in done {
      var k: nat :| n in Within(g, root, k);
      ClosedSetHoldsWithin(g, root, done, k);
    }
    TaskNodes(g, root, release, s);
    forall n | n in g ensures Outstanding(g, root, s.tasks, n) == {} {
      forall e: (N, int) | e in Consumers(g, all, n) ensures Answered(s.tasks, e.0, e.1) {
        DoneDependencies(g, root, release, s, e.0, e.1);
      }
    }
    forall n | n in g ensures n !in s.memo.pending && (release && n in s.memo.entries ==> n == root) {
      assert PendingOk(g, root, release, s, n) && EntryOk(root, release, s, n);
    }
    assert Kept(g, root, release, s, 0);
  }

  ghost function NodesOf<N>(tasks: seq<Task<N>>): set<N> { set t | 0 <= t < |tasks| :: tasks[t].node }

  lemma {:induction false} DistinctCount<N>(tasks: seq<Task<N>>)
    requires Distinct(tasks)
    ensures |NodesOf(tasks)| == |tasks|
  {
    if tasks != [] {
      var init, last := tasks[..|tasks| - 1], tasks[|tasks| - 1].node;
      DistinctCount(init);
      forall n ensures n in NodesOf(tasks) <==> n in NodesOf(init) || n == last {
        if n in NodesOf(tasks) {
          var t :| 0 <= t < |tasks| && tasks[t].node == n;
          assert t < |init| ==> init[t].node == n;
        }
        if n in NodesOf(init) {
          var t :| 0 <= t < |init| && init[t].node == n;
          assert tasks[t].node == n;
        }
      }
      assert NodesOf(tasks) == NodesOf(init) + {last};
      assert last !in NodesOf(init);
    }
  }

  lemma TaskNodes<N>(g: Graph<N>, root: N, release: bool, s: State<N>)
    requires Inv(g, root, release, s)
    requires forall n :: n in ReachableSet(g, root) ==> DoneNode(s, n)
    ensures |s.tasks| == |ReachableSet(g, root)|
  {
    DistinctCount(s.tasks);
    forall n | n in NodesOf(s.tasks) ensures n in ReachableSet(g, root) {
      var t :| 0 <= t < |s.tasks| && s.tasks[t].node == n;
      assert TaskOk(g, root, s.tasks, t);
    }
    forall n | n in ReachableSet(g, root) ensures n in NodesOf(s.tasks) {
      assert DoneNode(s, n);
    }
    assert NodesOf(s.tasks) == ReachableSet(g, root);
  }

  // ---- no deadlock, no endless run ------------------------------------------------------

  ghost predicate NoFailure<N>(s: State<N>) {
    forall t :: 0 <= t < |s.tasks| ==> s.tasks[t].phase != Failed
  }

  ghost predicate DoneUpTo<N>(s: State<N>, order: seq<N>, k: int)
    requires 0 <= k <= |order|
  {
    forall t :: 0 <= t < |s.tasks| && s.tasks[t].node in order[..k] ==> s.tasks[t].phase == Done
  }

  /** A task all of whose dependencies' tasks are done can move. */
  lemma TaskMoves<N>(g: Graph<N>, root: N, release: bool, s: State<N>, t: nat) returns (step: Step)
    requires Inv(g, root, release, s) && t < |s.tasks|
    requires s.tasks[t].phase == Gathering || s.tasks[t].phase == Resolving
    requires s.tasks[t].node in g
    requires forall i :: 0 <= i < |g[s.tasks[t].node]| ==>
               forall u :: 0 <= u < |s.tasks| && s.tasks[u].node == g[s.tasks[t].node][i].1 ==> s.tasks[u].phase == Done
    ensures Enabled(g, s, step) && (step.Finish? ==> step.ok)
  {
    assert TaskOk(g, root, s.tasks, t);
    var task := s.tasks[t];
    var deps := g[task.node];
    if task.phase == Resolving {
      step := Finish(t, true);
    } else if i: nat :| i < |deps| && i !in task.called {
      step := Call(t, i);
    } else if i: nat :| i < |deps| && i !in task.returned {
      assert CallOk(g, s.tasks, t, i);
      step := Return(t, i);
    } else {
      step := Begin(t);
    }
  }

  lemma {:induction false} SomethingMoves<N>(g: Graph<N>, root: N, release: bool, s: State<N>, order: seq<N>, k: nat)
    returns (step: Step)
    requires Inv(g, root, release, s) && NoFailure(s) && !Completed(s)
    requires Acyclic.Topological(g, order) && k <= |order| && DoneUpTo(s, order, k)
    requires forall n :: n in ReachableSet(g, root) ==> n in order
    ensures Enabled(g, s, step) && (step.Finish? ==> step.ok)
    decreases |order| - k
  {
    assert TaskOk(g, root, s.tasks, 0);
    assert s.tasks[0].node in order;
    assert order[..|order|] == order;
    if k == |order| {
    } else if t: nat :| t < |s.tasks| && s.tasks[t].node == order[k] && s.tasks[t].phase != Done {
      assert Acyclic.ChildrenEarlier(g, order, k);
      assert TaskOk(g, root, s.tasks, t);
      step := TaskMoves(g, root, release, s, t);
    } else {
      assert order[..k + 1] == order[..k] + [order[k]];
      step := SomethingMoves(g, root, release, s, order, k + 1);
    }
  }

  /** Work done so far: every step adds exactly one. */
  ghost function Effort<N>(tasks: seq<Task<N>>): nat {
    if tasks == [] then 0 else Effort(tasks[..|tasks| - 1]) + TaskEffort(tasks[|tasks| - 1])
  }

  ghost function TaskEffort<N>(task: Task<N>): nat {
    |task.called| + |task.returned| +
    match task.phase case Gathering => 0 case Resolving => 1 case Done => 2 case Failed => 2
  }

  lemma {:induction false} EffortUpdate<N>(tasks: seq<Task<N>>, t: nat, task: Task<N>)
    requires t < |tasks|
    ensures Effort(tasks[t := task]) == Effort(tasks) - TaskEffort(tasks[t]) + TaskEffort(task)
  {
    var n := |tasks| - 1;
    if t == n {
      assert tasks[t := task][..n] == tasks[..n];
    } else {
      assert tasks[t := task][..n] == tasks[..n][t := task];
      EffortUpdate(tasks[..n], t, task);
    }
  }

  lemma OneRoleMore(called: map<nat, nat>, i: nat, task: nat)
    requires i !in called
    ensures |called[i := task]| == |called| + 1
  {
    assert called[i := task].Keys == called.Keys + {i};
    assert |called[i := task]| == |called[i := task].Keys| && |called| == |called.Keys|;
  }

  lemma TaskEffortGrows<N>(g: Graph<N>, s: State<N>, step: Step)
    requires Enabled(g, s, step)
    ensures TaskEffort(Next(g, s, step).tasks[step.task]) == TaskEffort(s.tasks[step.task]) + 1
  {
    var task := s.tasks[step.task];
    if step.Call? {
      OneRoleMore(task.called, step.role, Next(g, s, step).tasks[step.task].called[step.role]);
    }
  }

  lemma FreshEffort<N>(tasks: seq<Task<N>>, n: N)
    ensures Effort(tasks + [NewTask(n)]) == Effort(tasks)
  {
    assert (tasks + [NewTask(n)])[..|tasks|] == tasks;
  }

  /** A step changes one task, and may add a new one at the end. */
  lemma NextTasks<N>(g: Graph<N>, s: State<N>, step: Step)
    requires Enabled(g, s, step)
    ensures var s', t := Next(g, s, step), step.task;
            && t < |s'.tasks|
            && var same := s.tasks[t := s'.tasks[t]];
               s'.tasks == same || (step.Call? && s'.tasks == same + [NewTask(g[s.tasks[t].node][step.role].1)])
  {
  }

  lemma EffortGrows<N>(g: Graph<N>, s: State<N>, step: Step)
    requires Enabled(g, s, step)
    ensures Effort(Next(g, s, step).tasks) == Effort(s.tasks) + 1
  {
    var t := step.task;
    var task := Next(g, s, step).tasks[t];
    NextTasks(g, s, step);
    TaskEffortGrows(g, s, step);
    EffortUpdate(s.tasks, t, task);
    if step.Call? {
      FreshEffort(s.tasks[t := task], g[s.tasks[t].node][step.role].1);
    }
  }

  lemma {:induction false} FewNumbers(s: set<nat>, k: nat)
    requires forall i :: i in s ==> i < k
    ensures |s| <= k
  {
    if k == 0 {
      assert s == {};
    } else {
      FewNumbers(s - {k - 1}, k - 1);
      assert |s| <= |s - {k - 1}| + 1;
    }
  }

  lemma TaskEffortBound<N>(g: Graph<N>, root: N, all: seq<Task<N>>, k: nat, degree: nat)
    requires Closed(g) && root in g && k < |all| && TaskOk(g, root, all, k)
    requires forall n :: n in g ==> |g[n]| <= degree
    ensures TaskEffort(all[k]) <= 2 * degree + 2
  {
    var task := all[k];
    forall i | i in task.called.Keys ensures i < |g[task.node]| {
      assert CallOk(g, all, k, i);
    }
    FewNumbers(task.called.Keys, |g[task.node]|);
    FewNumbers(task.returned, |g[task.node]|);
    assert |task.called| == |task.called.Keys|;
  }

  lemma OneMore(k: nat, c: nat)
    ensures k * c + c == (k + 1) * c
  {
  }

  lemma {:induction false} EffortBound<N>(g: Graph<N>, root: N, tasks: seq<Task<N>>, all: seq<Task<N>>, degree: nat)
    requires Closed(g) && root in g && tasks <= all
    requires forall t {:trigger TaskOk(g, root, all, t)} :: TaskOk(g, root, all, t)
    requires forall n :: n in g ==> |g[n]| <= degree
    ensures Effort(tasks) <= |tasks| * (2 * degree + 2)
  {
    if tasks != [] {
      var k := |tasks| - 1;
      EffortBound(g, root, tasks[..k], all, degree);
      assert TaskOk(g, root, all, k) && all[k] == tasks[k];
      TaskEffortBound(g, root, all, k, degree);
      OneMore(k, 2 * degree + 2);
    }
  }

  /** How long any run can be. */
  ghost function RunBound<N>(g: Graph<N>, root: N, degree: nat): nat
    requires Closed(g) && root in g
  {
    |ReachableSet(g, root)| * (2 * degree + 2)
  }

  lemma SubsetSmaller<T>(a: set<T>, b: set<T>)
    requires a <= b
    ensures |a| <= |b|
  {
    assert b == a + (b - a);
  }

  lemma EffortInBound<N>(g: Graph<N>, root: N, release: bool, s: State<N>, degree: nat)
    requires Inv(g, root, release, s) && forall n :: n in g ==> |g[n]| <= degree
    ensures Effort(s.tasks) <= RunBound(g, root, degree)
  {
    EffortBound(g, root, s.tasks, s.tasks, degree);
    DistinctCount(s.tasks);
    forall n | n in NodesOf(s.tasks) ensures n in ReachableSet(g, root) {
      var t :| 0 <= t < |s.tasks| && s.tasks[t].node == n;
      assert TaskOk(g, root, s.tasks, t);
    }
    SubsetSmaller(NodesOf(s.tasks), ReachableSet(g, root));
    Scale(|s.tasks|, |ReachableSet(g, root)|, 2 * degree + 2);
  }

  lemma Scale(a: nat, b: nat, c: nat)
    requires a <= b
    ensures a * c <= b * c
  {
  }

  lemma {:induction false} RunEffort<N>(g: Graph<N>, s: State<N>, run: seq<Step>, s': State<N>)
    requires Reaches(g, s, run, s')
    ensures Effort(s'.tasks) == Effort(s.tasks) + |run|
    decreases |run|
  {
    if run != [] {
      EffortGrows(g, s, run[0]);
      RunEffort(g, Next(g, s, run[0]), run[1..], s');
    }
  }

  /** No run is longer than a bound fixed by the graph. */
  lemma RunsAreFinite<N>(g: Graph<N>, root: N, release: bool, pending: map<N, nat>, run: seq<Step>, s: State<N>,
                         degree: nat)
    requires Prepared(g, root, release, pending) && Reaches(g, Start(root, pending), run, s)
    requires forall n :: n in g ==> |g[n]| <= degree
    ensures |run| <= RunBound(g, root, degree)
  {
    StartInv(g, root, release, pending);
    RunKeeps(g, root, release, Start(root, pending), run, s);
    RunEffort(g, Start(root, pending), run, s);
    EffortInBound(g, root, release, s, degree);
  }

  lemma {:induction false} FinishFrom<N>(g: Graph<N>, root: N, release: bool, s: State<N>, order: seq<N>, degree: nat)
    returns (run: seq<Step>, s': State<N>)
    requires Inv(g, root, release, s) && NoFailure(s)
    requires Acyclic.Topological(g, order) && forall n :: n in ReachableSet(g, root) ==> n in order
    requires forall n :: n in g ==> |g[n]| <= degree
    ensures Reaches(g, s, run, s') && Completed(s') && NoFailure(s')
    decreases RunBound(g, root, degree) - Effort(s.tasks)
  {
    EffortInBound(g, root, release, s, degree);
    if Completed(s) {
      run, s' := [], s;
    } else {
      var step := SomethingMoves(g, root, release, s, order, 0);
      var n := Next(g, s, step);
      StepKeeps(g, root, release, s, step);
      EffortGrows(g, s, step);
      EffortInBound(g, root, release, n, degree);
      var rest;
      rest, s' := FinishFrom(g, root, release, n, order, degree);
      run := [step] + rest;
      assert run[1..] == rest;
    }
  }

  /** On a graph the cycle guard lets through, a run without failures is never stuck: it can
      always be continued until the root has its result. */
  lemma NeverStuck<N>(g: Graph<N>, root: N, release: bool, pending: map<N, nat>, run: seq<Step>, s: State<N>,
                      order: seq<N>, degree: nat)
    returns (rest: seq<Step>, s': State<N>)
    requires Prepared(g, root, release, pending) && Reaches(g, Start(root, pending), run, s) && NoFailure(s)
    requires Acyclic.Topological(g, order) && root in order
    requires forall n :: n in g ==> |g[n]| <= degree
    ensures Reaches(g, s, rest, s') && Completed(s') && NoFailure(s')
  {
    StartInv(g, root, release, pending);
    RunKeeps(g, root, release, Start(root, pending), run, s);
    var k :| 0 <= k < |order| && order[k] == root;
    forall n | n in ReachableSet(g, root) ensures n in order {
      var steps: nat :| n in Within(g, root, steps);
      Acyclic.TopologicalWithin(g, order, k, steps);
    }
    rest, s' := FinishFrom(g, root, release, s, order, degree);
  }
}
