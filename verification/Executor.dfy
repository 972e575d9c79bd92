/** Runs of the dataflow executor: one evaluation task per node, created on demand, each
    awaiting its dependencies, with the memo of module Memo and the logical clock of the
    recording proxies. A run is any interleaving of the steps below. */
module Executor {
  import opened Graph
  import opened Memo

  datatype Phase = Gathering | Resolving | Done | Failed

  /** `called` maps a role number to the number of its awaited task; `returned` holds the roles
      whose result has arrived. */
  datatype Task<N> = Task(node: N, called: map<nat, nat>, returned: set<nat>, phase: Phase, start: nat)

  datatype Record = Record(start: nat, end: nat)

  datatype State<N> = State(tasks: seq<Task<N>>, memo: Memo<N>, clock: nat, records: map<N, Record>)

  datatype Step =
    | Call(task: nat, role: nat)     // a gathered dependency asks the memo for its node
    | Return(task: nat, role: nat)   // the awaited task's result reaches its consumer
    | Begin(task: nat)               // every input is there: the node's own resolve starts
    | Finish(task: nat, ok: bool)    // the resolve ends, well or badly

  function NewTask<N>(n: N): Task<N> { Task(n, map[], {}, Gathering, 0) }

  ghost function Start<N>(root: N, pending: map<N, nat>): State<N> {
    State([NewTask(root)], Memo(map[root := 0], pending), 0, map[])
  }

  ghost predicate HasTask<N>(g: Graph<N>, s: State<N>, t: nat) {
    t < |s.tasks| && s.tasks[t].node in g
  }

  ghost predicate Enabled<N>(g: Graph<N>, s: State<N>, step: Step) {
    && HasTask(g, s, step.task)
    && var task, deps := s.tasks[step.task], g[s.tasks[step.task].node];
    match step
      case Call(_, i) => task.phase == Gathering && i < |deps| && i !in task.called
      case Return(_, i) =>
        && task.phase == Gathering && i < |deps| && i in task.called && i !in task.returned
        && task.called[i] < |s.tasks| && s.tasks[task.called[i]].phase == Done
      case Begin(_) => task.phase == Gathering && forall i: nat :: i < |deps| ==> i in task.returned
      case Finish(_, _) => task.phase == Resolving
  }

  ghost function Next<N>(g: Graph<N>, s: State<N>, step: Step): State<N>
    requires Enabled(g, s, step)
  {
    var t := step.task;
    var task := s.tasks[t];
    match step
      case Call(_, i) =>
        var dep := g[task.node][i].1;
        var memo := Claim(s.memo, dep, |s.tasks|);
        var tasks := s.tasks[t := task.(called := task.called[i := memo.entries[dep]])];
        s.(memo := memo, tasks := if dep in s.memo.entries then tasks else tasks + [NewTask(dep)])
      case Return(_, i) =>
        s.(memo := Spend(s.memo, g[task.node][i].1), tasks := s.tasks[t := task.(returned := task.returned + {i})])
      case Begin(_) =>
        s.(clock := s.clock + 1, tasks := s.tasks[t := task.(phase := Resolving, start := s.clock)])
      case Finish(_, ok) =>
        if ok then
          State(s.tasks[t := task.(phase := Done)], s.memo, s.clock + 1,
                s.records[task.node := Record(task.start, s.clock)])
        else s.(tasks := s.tasks[t := task.(phase := Failed)])
  }

  ghost predicate Reaches<N>(g: Graph<N>, s: State<N>, run: seq<Step>, s': State<N>)
    decreases |run|
  {
    if run == [] then s == s'
    else Enabled(g, s, run[0]) && Reaches(g, Next(g, s, run[0]), run[1..], s')
  }

  /** The memo was counted for this root, or does not release at all. */
  ghost predicate Prepared<N>(g: Graph<N>, root: N, release: bool, pending: map<N, nat>) {
    && Closed(g) && root in g
    && if release then Counted(g, root, pending) else pending == map[]
  }

  // ---- what is still owed ------------------------------------------------------

  ghost predicate Answered<N>(tasks: seq<Task<N>>, p: N, i: int) {
    exists t :: 0 <= t < |tasks| && tasks[t].node == p && i in tasks[t].returned
  }

  /** Consumer edges of n whose result has not arrived yet. */
  ghost function Outstanding<N>(g: Graph<N>, root: N, tasks: seq<Task<N>>, n: N): set<(N, int)>
    requires Closed(g) && root in g
  {
    set e | e in Consumers(g, ReachableSet(g, root), n) && !Answered(tasks, e.0, e.1)
  }

  ghost predicate Distinct<N>(tasks: seq<Task<N>>) {
    forall t, u :: 0 <= t < u < |tasks| ==> tasks[t].node != tasks[u].node
  }

  ghost predicate CallOk<N>(g: Graph<N>, tasks: seq<Task<N>>, t: int, i: nat)
    requires 0 <= t < |tasks| && tasks[t].node in g
  {
    i in tasks[t].called ==>
      && i < |g[tasks[t].node]|
      && tasks[t].called[i] < |tasks|
      && tasks[tasks[t].called[i]].node == g[tasks[t].node][i].1
      && (i in tasks[t].returned ==> tasks[tasks[t].called[i]].phase == Done)
  }

  ghost predicate TaskOk<N>(g: Graph<N>, root: N, tasks: seq<Task<N>>, t: int)
    requires Closed(g) && root in g
  {
    0 <= t < |tasks| ==>
      && tasks[t].node in ReachableSet(g, root)
      && tasks[t].returned <= tasks[t].called.Keys
      && (forall i: nat {:trigger CallOk(g, tasks, t, i)} :: CallOk(g, tasks, t, i))
      && (tasks[t].phase != Gathering ==> forall i: nat :: i < |g[tasks[t].node]| ==> i in tasks[t].returned)
  }

  /** A counted node is pending exactly while something is outstanding, and by how much. */
  ghost predicate PendingOk<N>(g: Graph<N>, root: N, release: bool, s: State<N>, n: N)
    requires Closed(g) && root in g
  {
    var owed := Outstanding(g, root, s.tasks, n);
    && (n in s.memo.pending <==> release && n != root && owed != {})
    && (n in s.memo.pending ==> s.memo.pending[n] == |owed|)
  }

  /** An entry names the node's own task, and a releasing memo keeps it only while it is owed. */
  ghost predicate EntryOk<N>(root: N, release: bool, s: State<N>, n: N) {
    n in s.memo.entries ==>
      && s.memo.entries[n] < |s.tasks| && s.tasks[s.memo.entries[n]].node == n
      && (release && n != root ==> n in s.memo.pending)
  }

  /** A task's entry is gone only when nobody can ask for it any more. */
  ghost predicate Kept<N>(g: Graph<N>, root: N, release: bool, s: State<N>, t: int)
    requires Closed(g) && root in g
  {
    0 <= t < |s.tasks| ==>
      var n := s.tasks[t].node;
      n in s.memo.entries || (release && n != root && Outstanding(g, root, s.tasks, n) == {})
  }

  ghost predicate Inv<N>(g: Graph<N>, root: N, release: bool, s: State<N>) {
    && Closed(g) && root in g
    && |s.tasks| > 0 && s.tasks[0].node == root
    && Distinct(s.tasks)
    && s.memo.entries.Keys <= g.Keys && s.memo.pending.Keys <= g.Keys
    && (forall t {:trigger TaskOk(g, root, s.tasks, t)} :: TaskOk(g, root, s.tasks, t))
    && (forall n {:trigger PendingOk(g, root, release, s, n)} :: n in g ==> PendingOk(g, root, release, s, n))
    && (forall n {:trigger EntryOk(root, release, s, n)} :: n in g ==> EntryOk(root, release, s, n))
    && (forall t {:trigger Kept(g, root, release, s, t)} :: Kept(g, root, release, s, t))
  }

  // ---- the start ----------------------------------------------------------------

  lemma StartInv<N>(g: Graph<N>, root: N, release: bool, pending: map<N, nat>)
    requires Prepared(g, root, release, pending)
    ensures Inv(g, root, release, Start(root, pending))
  {
    var s := Start(root, pending);
    ReachableSelf(g, root);
    forall n | n in g ensures PendingOk(g, root, release, s, n) {
      assert release ==> CountedFor(g, root, pending, n);
      assert Outstanding(g, root, s.tasks, n) == Consumers(g, ReachableSet(g, root), n);
    }
  }

  // ---- outstanding edges under each step -----------------------------------------

  /** Same tasks as far as answers go; extra tasks have no answers yet. */
  ghost predicate SameAnswers<N>(a: seq<Task<N>>, b: seq<Task<N>>) {
    && |a| <= |b|
    && (forall t :: 0 <= t < |a| ==> b[t].node == a[t].node && b[t].returned == a[t].returned)
    && (forall t :: |a| <= t < |b| ==> b[t].returned == {})
  }

  lemma SameOutstanding<N>(g: Graph<N>, root: N, a: seq<Task<N>>, b: seq<Task<N>>, n: N)
    requires Closed(g) && root in g && SameAnswers(a, b)
    ensures Outstanding(g, root, a, n) == Outstanding(g, root, b, n)
  {
    forall e: (N, int) | e in Consumers(g, ReachableSet(g, root), n)
      ensures Answered(a, e.0, e.1) <==> Answered(b, e.0, e.1)
    {
      if Answered(a, e.0, e.1) {
        var t :| 0 <= t < |a| && a[t].node == e.0 && e.1 in a[t].returned;
        assert b[t].node == e.0 && e.1 in b[t].returned;
      }
      if Answered(b, e.0, e.1) {
        var t :| 0 <= t < |b| && b[t].node == e.0 && e.1 in b[t].returned;
        assert a[t].node == e.0 && e.1 in a[t].returned;
      }
    }
  }

  lemma OneAnswered<N>(g: Graph<N>, root: N, a: seq<Task<N>>, t: nat, i: nat, n: N)
    requires Closed(g) && root in g && t < |a|
    ensures var b := a[t := a[t].(returned := a[t].returned + {i})];
            Outstanding(g, root, b, n) == Outstanding(g, root, a, n) - {(a[t].node, i as int)}
  {
    var b := a[t := a[t].(returned := a[t].returned + {i})];
    forall e: (N, int) | e in Consumers(g, ReachableSet(g, root), n)
      ensures Answered(b, e.0, e.1) <==> Answered(a, e.0, e.1) || e == (a[t].node, i as int)
    {
      if Answered(a, e.0, e.1) {
        var u :| 0 <= u < |a| && a[u].node == e.0 && e.1 in a[u].returned;
        assert b[u].node == e.0 && e.1 in b[u].returned;
      }
      if Answered(b, e.0, e.1) {
        var u :| 0 <= u < |b| && b[u].node == e.0 && e.1 in b[u].returned;
        assert a[u].node == e.0;
      }
      assert b[t].node == a[t].node && i in b[t].returned;
    }
  }

  /** An edge not answered by its parent's only task is outstanding. */
  lemma Owed<N>(g: Graph<N>, root: N, release: bool, s: State<N>, t: nat, i: nat)
    requires Inv(g, root, release, s) && t < |s.tasks|
    requires s.tasks[t].node in g && i < |g[s.tasks[t].node]| && i !in s.tasks[t].returned
    ensures var n := g[s.tasks[t].node][i].1;
            n in g && (s.tasks[t].node, i as int) in Outstanding(g, root, s.tasks, n)
  {
    assert TaskOk(g, root, s.tasks, t);
    var p := s.tasks[t].node;
    forall u | 0 <= u < |s.tasks| && s.tasks[u].node == p ensures u == t {}
  }

  lemma AfterDependencies<N>(g: Graph<N>, root: N, release: bool, s: State<N>, t: nat)
    requires Inv(g, root, release, s) && t < |s.tasks| && s.tasks[t].phase != Gathering
    ensures s.tasks[t].node in g
    ensures forall i: nat :: i < |g[s.tasks[t].node]| ==>
              i in s.tasks[t].called && s.tasks[t].called[i] < |s.tasks|
              && s.tasks[s.tasks[t].called[i]].node == g[s.tasks[t].node][i].1
              && s.tasks[s.tasks[t].called[i]].phase == Done
  {
    assert TaskOk(g, root, s.tasks, t);
    forall i: nat | i < |g[s.tasks[t].node]|
      ensures i in s.tasks[t].called && s.tasks[t].called[i] < |s.tasks|
      ensures s.tasks[s.tasks[t].called[i]].node == g[s.tasks[t].node][i].1
      ensures s.tasks[s.tasks[t].called[i]].phase == Done
    {
      assert i in s.tasks[t].returned;
      assert CallOk(g, s.tasks, t, i);
    }
  }

  // ---- every step keeps the invariant ---------------------------------------------

  /** A call for a node without an entry is the first call for it: the node has no task. */
  lemma FirstCall<N>(g: Graph<N>, root: N, release: bool, s: State<N>, t: nat, i: nat)
    requires Inv(g, root, release, s) && Enabled(g, s, Call(t, i))
    requires g[s.tasks[t].node][i].1 !in s.memo.entries
    ensures forall u :: 0 <= u < |s.tasks| ==> s.tasks[u].node != g[s.tasks[t].node][i].1
  {
    assert TaskOk(g, root, s.tasks, t);
    Owed(g, root, release, s, t, i);
    forall u | 0 <= u < |s.tasks| ensures s.tasks[u].node != g[s.tasks[t].node][i].1 {
      assert Kept(g, root, release, s, u);
    }
  }

  lemma CallTasks<N>(g: Graph<N>, root: N, release: bool, s: State<N>, t: nat, i: nat, u: int)
    requires Inv(g, root, release, s) && Enabled(g, s, Call(t, i))
    ensures TaskOk(g, root, Next(g, s, Call(t, i)).tasks, u)
  {
    var s' := Next(g, s, Call(t, i));
    var dep := g[s.tasks[t].node][i].1;
    assert TaskOk(g, root, s.tasks, t);
    ReachableStep(g, root, s.tasks[t].node, i);
    assert EntryOk(root, release, s, dep);
    if 0 <= u < |s.tasks| {
      assert TaskOk(g, root, s.tasks, u);
      forall k: nat ensures CallOk(g, s'.tasks, u, k) {
        assert CallOk(g, s.tasks, u, k);
      }
    } else if 0 <= u < |s'.tasks| {
      forall k: nat ensures CallOk(g, s'.tasks, u, k) {}
    }
  }

  lemma CallMemo<N>(g: Graph<N>, root: N, release: bool, s: State<N>, t: nat, i: nat, n: N)
    requires Inv(g, root, release, s) && Enabled(g, s, Call(t, i)) && n in g
    ensures PendingOk(g, root, release, Next(g, s, Call(t, i)), n)
    ensures EntryOk(root, release, Next(g, s, Call(t, i)), n)
  {
    assert TaskOk(g, root, s.tasks, t);
    Owed(g, root, release, s, t, i);
    assert PendingOk(g, root, release, s, n) && EntryOk(root, release, s, n);
    SameOutstanding(g, root, s.tasks, Next(g, s, Call(t, i)).tasks, n);
  }

  lemma CallKept<N>(g: Graph<N>, root: N, release: bool, s: State<N>, t: nat, i: nat, u: int)
    requires Inv(g, root, release, s) && Enabled(g, s, Call(t, i))
    ensures Kept(g, root, release, Next(g, s, Call(t, i)), u)
  {
    assert Kept(g, root, release, s, u);
    if 0 <= u < |s.tasks| {
      SameOutstanding(g, root, s.tasks, Next(g, s, Call(t, i)).tasks, s.tasks[u].node);
    }
  }

  lemma CallKeeps<N>(g: Graph<N>, root: N, release: bool, s: State<N>, t: nat, i: nat)
    requires Inv(g, root, release, s) && Enabled(g, s, Call(t, i))
    ensures Inv(g, root, release, Next(g, s, Call(t, i)))
  {
    var s' := Next(g, s, Call(t, i));
    var dep := g[s.tasks[t].node][i].1;
    assert TaskOk(g, root, s.tasks, t);
    assert dep in g;
    if dep !in s.memo.entries {
      FirstCall(g, root, release, s, t, i);
    }
    assert Distinct(s'.tasks);
    forall u ensures TaskOk(g, root, s'.tasks, u) && Kept(g, root, release, s', u) {
      CallTasks(g, root, release, s, t, i, u);
      CallKept(g, root, release, s, t, i, u);
    }
    forall n | n in g ensures PendingOk(g, root, release, s', n) && EntryOk(root, release, s', n) {
      CallMemo(g, root, release, s, t, i, n);
    }
  }

  /** The entry a last consumer releases is still there. */
  lemma SpendFindsEntry<N>(g: Graph<N>, root: N, release: bool, s: State<N>, t: nat, i: nat)
    requires Inv(g, root, release, s) && Enabled(g, s, Return(t, i))
    ensures var n := g[s.tasks[t].node][i].1;
            && (s.tasks[t].node, i as int) in Outstanding(g, root, s.tasks, n)
            && n in s.memo.entries && s.memo.entries[n] == s.tasks[t].called[i]
            && (n in s.memo.pending <==> release && n != root)
  {
    var n := g[s.tasks[t].node][i].1;
    assert TaskOk(g, root, s.tasks, t);
    assert CallOk(g, s.tasks, t, i);
    Owed(g, root, release, s, t, i);
    assert Kept(g, root, release, s, s.tasks[t].called[i]);
    assert EntryOk(root, release, s, n) && PendingOk(g, root, release, s, n);
  }

  lemma ReturnTasks<N>(g: Graph<N>, root: N, release: bool, s: State<N>, t: nat, i: nat, u: int)
    requires Inv(g, root, release, s) && Enabled(g, s, Return(t, i))
    ensures TaskOk(g, root, Next(g, s, Return(t, i)).tasks, u)
  {
    var s' := Next(g, s, Return(t, i));
    assert TaskOk(g, root, s.tasks, u);
    if 0 <= u < |s.tasks| {
      forall k: nat ensures CallOk(g, s'.tasks, u, k) {
        assert CallOk(g, s.tasks, u, k);
      }
    }
  }

  lemma OneLess<T>(s: set<T>, e: T)
    requires e in s
    ensures |s - {e}| == |s| - 1 && (s - {e} == {} <==> |s| == 1)
  {
  }

  lemma SpendCounts<N>(m: Memo<N>, d: N, n: N, counted: bool, owed: set<(N, int)>, e: (N, int))
    requires n in m.pending <==> counted && owed != {}
    requires n in m.pending ==> m.pending[n] == |owed|
    requires n == d <==> e in owed
    ensures n in Spend(m, d).pending <==> counted && owed - {e} != {}
    ensures n in Spend(m, d).pending ==> Spend(m, d).pending[n] == |owed - {e}|
  {
    if n == d {
      OneLess(owed, e);
    } else {
      assert owed - {e} == owed;
    }
  }

  lemma ReturnPending<N>(g: Graph<N>, root: N, release: bool, s: State<N>, t: nat, i: nat, n: N)
    requires Inv(g, root, release, s) && Enabled(g, s, Return(t, i)) && n in g
    ensures PendingOk(g, root, release, Next(g, s, Return(t, i)), n)
  {
    var d, edge := g[s.tasks[t].node][i].1, (s.tasks[t].node, i as int);
    var owed := Outstanding(g, root, s.tasks, n);
    assert n == d <==> edge in owed by {
      SpendFindsEntry(g, root, release, s, t, i);
    }
    assert PendingOk(g, root, release, s, n);
    OneAnswered(g, root, s.tasks, t, i, n);
    SpendCounts(s.memo, d, n, release && n != root, owed, edge);
  }

  lemma SpendEntries<N>(m: Memo<N>, d: N, n: N)
    ensures n in Spend(m, d).entries <==> n in m.entries && (n == d && n in m.pending ==> n in Spend(m, d).pending)
    ensures n in Spend(m, d).entries ==> Spend(m, d).entries[n] == m.entries[n]
    ensures n != d ==> (n in Spend(m, d).pending <==> n in m.pending)
    ensures n !in m.pending ==> n !in Spend(m, d).pending
  {
  }

  lemma ReturnEntry<N>(g: Graph<N>, root: N, release: bool, s: State<N>, t: nat, i: nat, n: N)
    requires Inv(g, root, release, s) && Enabled(g, s, Return(t, i)) && n in g
    ensures EntryOk(root, release, Next(g, s, Return(t, i)), n)
  {
    SpendEntries(s.memo, g[s.tasks[t].node][i].1, n);
    assert EntryOk(root, release, s, n);
  }

  lemma ReturnKept<N>(g: Graph<N>, root: N, release: bool, s: State<N>, t: nat, i: nat, u: int)
    requires Inv(g, root, release, s) && Enabled(g, s, Return(t, i))
    ensures Kept(g, root, release, Next(g, s, Return(t, i)), u)
  {
    assert Kept(g, root, release, s, u) && TaskOk(g, root, s.tasks, u);
    if 0 <= u < |s.tasks| {
      SpendFindsEntry(g, root, release, s, t, i);
      var n := s.tasks[u].node;
      OneAnswered(g, root, s.tasks, t, i, n);
      ReturnPending(g, root, release, s, t, i, n);
      SpendEntries(s.memo, g[s.tasks[t].node][i].1, n);
    }
  }

  lemma ReturnKeeps<N>(g: Graph<N>, root: N, release: bool, s: State<N>, t: nat, i: nat)
    requires Inv(g, root, release, s) && Enabled(g, s, Return(t, i))
    ensures Inv(g, root, release, Next(g, s, Return(t, i)))
  {
    var s' := Next(g, s, Return(t, i));
    forall u ensures TaskOk(g, root, s'.tasks, u) && Kept(g, root, release, s', u) {
      ReturnTasks(g, root, release, s, t, i, u);
      ReturnKept(g, root, release, s, t, i, u);
    }
    forall n | n in g ensures PendingOk(g, root, release, s', n) && EntryOk(root, release, s', n) {
      ReturnPending(g, root, release, s, t, i, n);
      ReturnEntry(g, root, release, s, t, i, n);
    }
  }

  lemma ResolveTasks<N>(g: Graph<N>, root: N, release: bool, s: State<N>, step: Step, u: int)
    requires Inv(g, root, release, s) && Enabled(g, s, step) && (step.Begin? || step.Finish?)
    ensures TaskOk(g, root, Next(g, s, step).tasks, u)
  {
    var s' := Next(g, s, step);
    assert TaskOk(g, root, s.tasks, u);
    if 0 <= u < |s.tasks| {
      forall k: nat ensures CallOk(g, s'.tasks, u, k) {
        assert CallOk(g, s.tasks, u, k);
      }
    }
  }

  lemma ResolveKeeps<N>(g: Graph<N>, root: N, release: bool, s: State<N>, step: Step)
    requires Inv(g, root, release, s) && Enabled(g, s, step) && (step.Begin? || step.Finish?)
    ensures Inv(g, root, release, Next(g, s, step))
  {
    var s' := Next(g, s, step);
    forall u ensures TaskOk(g, root, s'.tasks, u) {
      ResolveTasks(g, root, release, s, step, u);
    }
    forall n | n in g ensures PendingOk(g, root, release, s', n) && EntryOk(root, release, s', n) {
      assert PendingOk(g, root, release, s, n) && EntryOk(root, release, s, n);
      SameOutstanding(g, root, s.tasks, s'.tasks, n);
    }
    forall u ensures Kept(g, root, release, s', u) {
      assert Kept(g, root, release, s, u);
      if 0 <= u < |s.tasks| {
        SameOutstanding(g, root, s.tasks, s'.tasks, s.tasks[u].node);
      }
    }
  }

  lemma StepKeeps<N>(g: Graph<N>, root: N, release: bool, s: State<N>, step: Step)
    requires Inv(g, root, release, s) && Enabled(g, s, step)
    ensures Inv(g, root, release, Next(g, s, step))
  {
    match step
    case Call(t, i) => CallKeeps(g, root, release, s, t, i);
    case Return(t, i) => ReturnKeeps(g, root, release, s, t, i);
    case Begin(_) => ResolveKeeps(g, root, release, s, step);
    case Finish(_, _) => ResolveKeeps(g, root, release, s, step);
  }

  lemma {:induction false} RunKeeps<N>(g: Graph<N>, root: N, release: bool, s: State<N>, run: seq<Step>, s': State<N>)
    requires Inv(g, root, release, s) && Reaches(g, s, run, s')
    ensures Inv(g, root, release, s')
    decreases |run|
  {
    if run != [] {
      StepKeeps(g, root, release, s, run[0]);
      RunKeeps(g, root, release, Next(g, s, run[0]), run[1..], s');
    }
  }
}
