/** Concurrent requests at one gate: every interleaving of their brackets, refusals and
    exceptions included, and how many requests any stretch of time can count. */
module IngestionRuns {
  import opened Wrappers
  import opened Ingestion

  /** One turn of the event loop. `TurnAway` is a bridge request answered before it asks for a
      place, as one of foreign origin is; an events request always asks. */
  datatype Step =
    | Enter(now: real)
    | TurnAway(status: nat)
    | Answer(id: nat, status: nat)   // the work returns, or raises what the handler catches
    | Escape(id: nat)                // the work raises something else, or is cancelled
    | Finally(id: nat)
    | Shutdown

  /** Which requests a gate stands before: the events handler's, whose final statuses are
      counted, or the bridge's control requests, which are not. */
  datatype Kind = Events | Controls

  /** `log` holds every admission decision with its time. */
  datatype Service = Service(
    kind: Kind,
    gate: Gate,
    calls: seq<Call>,
    counters: map<nat, nat>,
    log: seq<(real, Outcome)>)

  ghost predicate At(s: Service, id: nat, working: bool) {
    id < |s.calls| && if working then s.calls[id].phase.Working? else s.calls[id].phase.Ending?
  }

  ghost predicate Possible(s: Service, e: Step) {
    match e
    case Enter(now) => s.gate.window <= now && (s.log == [] || s.log[|s.log| - 1].0 <= now)
    case TurnAway(_) => s.kind.Controls?
    case Answer(id, _) => At(s, id, true)
    case Escape(id) => At(s, id, true)
    case Finally(id) => At(s, id, false)
    case Shutdown => true
  }

  ghost function After(s: Service, l: Limits, e: Step): Service
    requires Possible(s, e)
  {
    match e
    case Enter(now) =>
      var outcome := EnterOutcome(s.gate, l, now);
      s.(gate := EnterGate(s.gate, l, now), calls := s.calls + [Entered(outcome)], log := s.log + [(now, outcome)])
    case TurnAway(status) => s.(calls := s.calls + [Call(false, Ending(Some(status)))])
    case Answer(id, status) => s.(calls := s.calls[id := s.calls[id].(phase := Ending(Some(status)))])
    case Escape(id) => s.(calls := s.calls[id := s.calls[id].(phase := Ending(None))])
    case Finally(id) =>
      var call := s.calls[id];
      s.(gate := Released(s.gate, call),
         counters := if s.kind.Events? then Bumped(s.counters, call.phase.response) else s.counters,
         calls := s.calls[id := call.(phase := Over(call.phase.response))])
    case Shutdown => s.(gate := s.gate.(draining := true))
  }

  ghost predicate Reaches(s: Service, l: Limits, run: seq<Step>, s': Service)
    decreases |run|
  {
    if run == [] then s == s' else Possible(s, run[0]) && Reaches(After(s, l, run[0]), l, run[1..], s')
  }

  ghost function Start(kind: Kind, enabled: bool, now: real): Service {
    Service(kind, Gate(enabled, false, now, 0, 0), [], map[], [])
  }

  // ---- places and statuses ------------------------------------------------------------

  predicate Holds(call: Call) { call.admitted && !call.phase.Over? }

  /** The requests whose flag is set and whose final clause has not run. */
  ghost function Holding(calls: seq<Call>): set<int> {
    set i | 0 <= i < |calls| && Holds(calls[i])
  }

  /** The finished requests that ended with this response. */
  ghost function EndedWith(calls: seq<Call>, status: nat): set<int> {
    set i | 0 <= i < |calls| && calls[i].phase == Over(Some(status))
  }

  lemma CallAdded(calls: seq<Call>, call: Call, status: nat)
    requires !call.phase.Over?
    ensures |Holding(calls + [call])| == |Holding(calls)| + if call.admitted then 1 else 0
    ensures EndedWith(calls + [call], status) == EndedWith(calls, status)
  {
    var more := if call.admitted then {|calls| as int} else {};
    assert Holding(calls + [call]) == Holding(calls) + more;
  }

  lemma CallMoved(calls: seq<Call>, id: nat, phase: Phase, status: nat)
    requires id < |calls| && calls[id].phase.Working? && phase.Ending?
    ensures Holding(calls[id := calls[id].(phase := phase)]) == Holding(calls)
    ensures EndedWith(calls[id := calls[id].(phase := phase)], status) == EndedWith(calls, status)
  {
  }

  lemma CallOver(calls: seq<Call>, id: nat, status: nat)
    requires id < |calls| && calls[id].phase.Ending?
    ensures var after := calls[id := calls[id].(phase := Over(calls[id].phase.response))];
            && |Holding(after)| == |Holding(calls)| - (if calls[id].admitted then 1 else 0)
            && |EndedWith(after, status)| ==
                 |EndedWith(calls, status)| + if calls[id].phase.response == Some(status) then 1 else 0
  {
    var after := calls[id := calls[id].(phase := Over(calls[id].phase.response))];
    assert Holding(after) == Holding(calls) - {id as int};
    var more := if calls[id].phase.response == Some(status) then {id as int} else {};
    assert EndedWith(after, status) == EndedWith(calls, status) + more;
  }

  ghost predicate Balanced(s: Service, l: Limits, status: nat) {
    && s.gate.inflight == |Holding(s.calls)| <= l.maxInflight
    && Tally(s.counters, status) == if s.kind.Events? then |EndedWith(s.calls, status)| else 0
  }

  lemma StepBalances(s: Service, l: Limits, e: Step, status: nat)
    requires Balanced(s, l, status) && Possible(s, e)
    ensures Balanced(After(s, l, e), l, status)
  {
    match e
    case Enter(now) => CallAdded(s.calls, Entered(EnterOutcome(s.gate, l, now)), status);
    case TurnAway(code) => CallAdded(s.calls, Call(false, Ending(Some(code))), status);
    case Answer(id, code) => CallMoved(s.calls, id, Ending(Some(code)), status);
    case Escape(id) => CallMoved(s.calls, id, Ending(None), status);
    case Finally(id) => CallOver(s.calls, id, status);
    case Shutdown =>
  }

  lemma {:induction false} RunBalances(s: Service, l: Limits, run: seq<Step>, s': Service, status: nat)
    requires Balanced(s, l, status) && Reaches(s, l, run, s')
    ensures Balanced(s', l, status)
    decreases |run|
  {
    if run != [] {
      StepBalances(s, l, run[0], status);
      RunBalances(After(s, l, run[0]), l, run[1..], s', status);
    }
  }

  /** In every interleaving, refusals, caught and escaping exceptions included, the counter is
      the number of requests whose own flag is set and whose final clause has not run. It stays
      within its bound, and when all are over it is back at zero. */
  lemma InflightIsOpen(kind: Kind, enabled: bool, now: real, l: Limits, run: seq<Step>, s: Service)
    requires Reaches(Start(kind, enabled, now), l, run, s)
    ensures s.gate.inflight == |Holding(s.calls)| && 0 <= s.gate.inflight <= l.maxInflight
    ensures (forall i :: 0 <= i < |s.calls| ==> s.calls[i].phase.Over?) ==> s.gate.inflight == 0
  {
    RunBalances(Start(kind, enabled, now), l, run, s, 0);
    if forall i :: 0 <= i < |s.calls| ==> s.calls[i].phase.Over? {
      assert Holding(s.calls) == {};
    }
  }

  /** Every status counter of the events handler is the number of its finished requests that
      ended with that response; one whose exception escaped is in none of them. */
  lemma StatusesAreResponses(enabled: bool, now: real, l: Limits, run: seq<Step>, s: Service, status: nat)
    requires Reaches(Start(Events, enabled, now), l, run, s)
    ensures Tally(s.counters, status) == |EndedWith(s.calls, status)|
    ensures forall i :: 0 <= i < |s.calls| && s.calls[i].phase == Over(None) ==> i !in EndedWith(s.calls, status)
  {
    RunBalances(Start(Events, enabled, now), l, run, s, status);
    KindStays(Start(Events, enabled, now), l, run, s);
  }

  /** Control requests, turned away or not, are never counted. */
  lemma ControlsCountNothing(enabled: bool, now: real, l: Limits, run: seq<Step>, s: Service)
    requires Reaches(Start(Controls, enabled, now), l, run, s)
    ensures s.counters == map[]
  {
    KindStays(Start(Controls, enabled, now), l, run, s);
  }

  lemma {:induction false} KindStays(s: Service, l: Limits, run: seq<Step>, s': Service)
    requires Reaches(s, l, run, s')
    ensures s'.kind == s.kind && (s.kind.Controls? ==> s'.counters == s.counters)
    decreases |run|
  {
    if run != [] {
      KindStays(After(s, l, run[0]), l, run[1..], s');
    }
  }

  /** Nothing after the first `calls` requests and `decisions` decisions was admitted. */
  ghost predicate NoneSince(s: Service, calls: nat, decisions: nat) {
    && calls <= |s.calls| && decisions <= |s.log|
    && (forall i :: calls <= i < |s.calls| ==> !s.calls[i].admitted)
    && (forall i :: decisions <= i < |s.log| ==> s.log[i].1 != Admitted)
  }

  lemma {:induction false} DrainingRun(s: Service, l: Limits, run: seq<Step>, s': Service, calls: nat, decisions: nat)
    requires s.gate.draining && Reaches(s, l, run, s') && NoneSince(s, calls, decisions)
    ensures s'.gate.draining && NoneSince(s', calls, decisions)
    decreases |run|
  {
    if run != [] {
      DrainingRun(After(s, l, run[0]), l, run[1..], s', calls, decisions);
    }
  }

  /** Once draining, no request is admitted any more: not one of the later decisions admits,
      and not one of the later requests ever has its flag set. */
  lemma DrainingAdmitsNothing(s: Service, l: Limits, run: seq<Step>, s': Service)
    requires s.gate.draining && Reaches(s, l, run, s')
    ensures |s.log| <= |s'.log| && forall i :: |s.log| <= i < |s'.log| ==> s'.log[i].1 != Admitted
    ensures |s.calls| <= |s'.calls| && forall i :: |s.calls| <= i < |s'.calls| ==> !s'.calls[i].admitted
  {
    DrainingRun(s, l, run, s', |s.calls|, |s.log|);
  }

  // ---- the rate over any interval -----------------------------------------------------------

  /** Counted requests with a time in [from, to). */
  ghost function CountIn(log: seq<(real, Outcome)>, from: real, to: real): nat {
    if log == [] then 0
    else
      var last := log[|log| - 1];
      CountIn(log[..|log| - 1], from, to) + if Counted(last.1) && from <= last.0 < to then 1 else 0
  }

  lemma LogGrows(log: seq<(real, Outcome)>, entry: (real, Outcome), from: real, to: real)
    ensures CountIn(log + [entry], from, to) ==
            CountIn(log, from, to) + if Counted(entry.1) && from <= entry.0 < to then 1 else 0
  {
    assert (log + [entry])[..|log + [entry]| - 1] == log;
  }

  /** The end of k minutes that start at `from`. */
  function Minutes(from: real, k: nat): real { from + 60.0 * k as real }

  /** `full` windows have closed since the interval began, each holding at most `rate`
      counted requests, and each one starting at least a minute after the one before. */
  ghost predicate Windows(s: Service, l: Limits, from: real, count: nat, full: nat) {
    && (full == 0 || s.gate.window > Minutes(from - 60.0, full))
    && count <= full * l.rate + if s.gate.window > from - 60.0 then s.gate.requests else 0
  }

  ghost predicate RateInv(s: Service, l: Limits, from: real, k: nat, full: nat) {
    var count := CountIn(s.log, from, Minutes(from, k));
    0 <= s.gate.requests <= l.rate && count <= (k + 1) * l.rate && Windows(s, l, from, count, full)
  }

  lemma OneMore(k: nat, rate: nat)
    ensures (k + 1) * rate == k * rate + rate
  {
  }

  lemma Fewer(a: nat, b: nat, rate: nat)
    requires a <= b
    ensures a * rate <= b * rate
  {
  }

  /** Fewer than k + 1 minutes fit between the windows' starts. */
  lemma FewWindows(full: nat, k: nat, window: real, from: real, rate: nat, requests: int)
    requires full == 0 || window > Minutes(from - 60.0, full)
    requires window < Minutes(from, k) && requests <= rate
    ensures full * rate + requests <= (k + 1) * rate
  {
    assert full <= k;
    Fewer(full, k, rate);
    OneMore(k, rate);
  }

  lemma RateStep(s: Service, l: Limits, e: Step, from: real, k: nat, full: nat) returns (full': nat)
    requires Possible(s, e) && RateInv(s, l, from, k, full)
    ensures RateInv(After(s, l, e), l, from, k, full')
  {
    full' := full;
    if e.Enter? {
      var outcome := EnterOutcome(s.gate, l, e.now);
      var n := After(s, l, e);
      LogGrows(s.log, (e.now, outcome), from, Minutes(from, k));
      if outcome != Unavailable {
        if e.now - s.gate.window >= 60.0 && s.gate.window > from - 60.0 {
          full' := full + 1;
          OneMore(full, l.rate);
        }
        if Counted(outcome) && from <= e.now < Minutes(from, k) {
          FewWindows(full', k, n.gate.window, from, l.rate, n.gate.requests);
        }
      }
    }
  }

  lemma {:induction false} RateRun(s: Service, l: Limits, run: seq<Step>, s': Service, from: real, k: nat, full: nat)
    requires RateInv(s, l, from, k, full) && Reaches(s, l, run, s')
    ensures CountIn(s'.log, from, Minutes(from, k)) <= (k + 1) * l.rate
    ensures 0 <= s'.gate.requests <= l.rate
    decreases |run|
  {
    if run != [] {
      var full' := RateStep(s, l, run[0], from, k, full);
      RateRun(After(s, l, run[0]), l, run[1..], s', from, k, full');
    }
  }

  /** With a clock that never runs backwards, k minutes never see more than k + 1 times the
      rate counted, wherever the interval starts. */
  lemma RateBound(kind: Kind, enabled: bool, now: real, l: Limits, run: seq<Step>, s: Service, from: real, k: nat)
    requires Reaches(Start(kind, enabled, now), l, run, s)
    ensures CountIn(s.log, from, Minutes(from, k)) <= (k + 1) * l.rate
  {
    RateRun(Start(kind, enabled, now), l, run, s, from, k, 0);
  }

  // ---- when the rate itself is kept -------------------------------------------------------------

  /** Nothing of an earlier window is left to use after `from`. */
  ghost predicate Calm(g: Gate, l: Limits, from: real) {
    !g.enabled || g.draining || g.requests >= l.rate || g.window + 60.0 <= from || g.window >= from
  }

  ghost predicate AllBefore(log: seq<(real, Outcome)>, from: real) {
    forall i :: 0 <= i < |log| ==> log[i].0 < from
  }

  ghost predicate NotBefore(run: seq<Step>, from: real) {
    forall i :: 0 <= i < |run| && run[i].Enter? ==> from <= run[i].now
  }

  /** What can happen from `from` on. */
  ghost predicate Continues(s: Service, l: Limits, from: real, run: seq<Step>, s': Service) {
    Reaches(s, l, run, s') && NotBefore(run, from)
  }

  lemma {:induction false} NoneEarlier(log: seq<(real, Outcome)>, from: real, to: real)
    requires AllBefore(log, from)
    ensures CountIn(log, from, to) == 0
  {
    if log != [] {
      NoneEarlier(log[..|log| - 1], from, to);
    }
  }

  /** `windows` windows began at or after `from`; before the first, nothing can be counted. */
  ghost predicate CalmInv(s: Service, l: Limits, from: real, k: nat, windows: nat) {
    var count := CountIn(s.log, from, Minutes(from, k));
    && 0 <= s.gate.requests <= l.rate && count <= k * l.rate
    && if s.gate.window >= from then
         && windows >= 1 && s.gate.window >= Minutes(from, windows - 1)
         && count <= (windows - 1) * l.rate + s.gate.requests
       else
         windows == 0 && count == 0 && Calm(s.gate, l, from)
  }

  lemma OpenedFit(windows: nat, k: nat, window: real, from: real, rate: nat, requests: int)
    requires windows >= 1 && Minutes(from, windows - 1) <= window < Minutes(from, k) && requests <= rate
    ensures (windows - 1) * rate + requests <= k * rate
  {
    assert windows <= k;
    Fewer(windows, k, rate);
    OneMore(windows - 1, rate);
  }

  lemma CalmStep(s: Service, l: Limits, e: Step, from: real, k: nat, windows: nat) returns (windows': nat)
    requires Possible(s, e) && CalmInv(s, l, from, k, windows) && (e.Enter? ==> from <= e.now)
    ensures CalmInv(After(s, l, e), l, from, k, windows')
  {
    windows' := windows;
    if e.Enter? {
      var outcome := EnterOutcome(s.gate, l, e.now);
      var n := After(s, l, e);
      LogGrows(s.log, (e.now, outcome), from, Minutes(from, k));
      if outcome != Unavailable && e.now - s.gate.window >= 60.0 {
        windows' := windows + 1;
        if windows >= 1 {
          OneMore(windows - 1, l.rate);
        }
      }
      if Counted(outcome) && e.now < Minutes(from, k) {
        OpenedFit(windows', k, n.gate.window, from, l.rate, n.gate.requests);
      }
    }
  }

  lemma {:induction false} CalmRun(s: Service, l: Limits, from: real, k: nat, windows: nat, run: seq<Step>, s': Service)
    requires CalmInv(s, l, from, k, windows) && Continues(s, l, from, run, s')
    ensures CountIn(s'.log, from, Minutes(from, k)) <= k * l.rate
    decreases |run|
  {
    if run != [] {
      var windows' := CalmStep(s, l, run[0], from, k, windows);
      assert forall i :: 0 <= i < |run[1..]| ==> run[1..][i] == run[i + 1];
      CalmRun(After(s, l, run[0]), l, from, k, windows', run[1..], s');
    }
  }

  // ---- bursts ------------------------------------------------------------------------------------

  lemma {:induction false} Chain(s: Service, l: Limits, a: seq<Step>, m: Service, b: seq<Step>, s': Service)
    requires Reaches(s, l, a, m) && Reaches(m, l, b, s')
    ensures Reaches(s, l, a + b, s')
    decreases |a|
  {
    if a == [] {
      assert a + b == b;
    } else {
      assert (a + b)[1..] == a[1..] + b;
      Chain(After(s, l, a[0]), l, a[1..], m, b, s');
    }
  }

  /** Open for arrivals at t. */
  ghost predicate Open(s: Service, t: real) {
    s.gate.enabled && !s.gate.draining && Possible(s, Enter(t))
  }

  /** n requests at once, as long as the window has room for them, are all counted. */
  lemma {:induction false} Burst(s: Service, l: Limits, t: real, n: nat, from: real, to: real)
    returns (run: seq<Step>, s': Service)
    requires Open(s, t) && t - s.gate.window < 60.0 && 0 <= s.gate.requests && s.gate.requests + n <= l.rate
    requires from <= t < to
    ensures Continues(s, l, t, run, s') && Open(s', t)
    ensures s'.gate.window == s.gate.window && s'.gate.requests == s.gate.requests + n
    ensures CountIn(s'.log, from, to) == CountIn(s.log, from, to) + n
    decreases n
  {
    if n == 0 {
      run, s' := [], s;
    } else {
      var outcome := EnterOutcome(s.gate, l, t);
      var m := After(s, l, Enter(t));
      LogGrows(s.log, (t, outcome), from, to);
      var rest;
      rest, s' := Burst(m, l, t, n - 1, from, to);
      run := [Enter(t)] + rest;
      assert run[1..] == rest;
    }
  }

  /** A burst that opens a new window and fills it. */
  lemma FillWindow(s: Service, l: Limits, t: real, from: real, to: real) returns (run: seq<Step>, s': Service)
    requires Open(s, t) && t - s.gate.window >= 60.0 && l.rate >= 1 && from <= t < to
    ensures Continues(s, l, t, run, s') && Open(s', t)
    ensures s'.gate.window == t && CountIn(s'.log, from, to) == CountIn(s.log, from, to) + l.rate
  {
    var outcome := EnterOutcome(s.gate, l, t);
    var m := After(s, l, Enter(t));
    LogGrows(s.log, (t, outcome), from, to);
    var rest;
    rest, s' := Burst(m, l, t, l.rate - 1, from, to);
    run := [Enter(t)] + rest;
    assert run[1..] == rest;
  }

  /** k windows in a row, a minute apart, all filled. */
  lemma {:induction false} FillWindows(s: Service, l: Limits, t: real, k: nat, from: real, to: real)
    returns (run: seq<Step>, s': Service)
    requires Open(s, t) && t - s.gate.window >= 60.0 && l.rate >= 1
    requires from <= t && Minutes(t, k) - 60.0 < to
    ensures Continues(s, l, t, run, s')
    ensures CountIn(s'.log, from, to) == CountIn(s.log, from, to) + k * l.rate
    decreases k
  {
    if k == 0 {
      run, s' := [], s;
    } else {
      var first, m := FillWindow(s, l, t, from, to);
      var rest;
      rest, s' := FillWindows(m, l, t + 60.0, k - 1, from, to);
      run := first + rest;
      Chain(s, l, first, m, rest, s');
      OneMore(k - 1, l.rate);
    }
  }

  /** From a gate that is not calm: first what the old window has left, then k full windows. */
  lemma Restless(s: Service, l: Limits, from: real, k: nat) returns (run: seq<Step>, s': Service)
    requires !Calm(s.gate, l, from) && AllBefore(s.log, from) && 0 <= s.gate.requests && k >= 1
    ensures Continues(s, l, from, run, s')
    ensures CountIn(s'.log, from, Minutes(from, k)) == l.rate - s.gate.requests + k * l.rate
  {
    var to := Minutes(from, k);
    var first, m := Burst(s, l, from, l.rate - s.gate.requests, from, to);
    var rest;
    rest, s' := FillWindows(m, l, s.gate.window + 60.0, k, from, to);
    run := first + rest;
    Chain(s, l, first, m, rest, s');
    NoneEarlier(s.log, from, to);
  }

  /** The exact condition. From a given instant on, any number of minutes stays within its rate
      whatever happens, if and only if the gate is calm at that instant. */
  lemma RateKeptWhenCalm(kind: Kind, enabled: bool, now: real, l: Limits, before: seq<Step>, s: Service,
                         from: real, k: nat)
    requires Reaches(Start(kind, enabled, now), l, before, s) && AllBefore(s.log, from) && k >= 1
    ensures Calm(s.gate, l, from) <==>
            forall run, s' :: Continues(s, l, from, run, s') ==> CountIn(s'.log, from, Minutes(from, k)) <= k * l.rate
  {
    RateRun(Start(kind, enabled, now), l, before, s, from, k, 0);
    NoneEarlier(s.log, from, Minutes(from, k));
    if Calm(s.gate, l, from) {
      forall run, s' | Continues(s, l, from, run, s') ensures CountIn(s'.log, from, Minutes(from, k)) <= k * l.rate {
        CalmRun(s, l, from, k, if s.gate.window >= from then 1 else 0, run, s');
      }
    } else {
      var run, s' := Restless(s, l, from, k);
      assert Continues(s, l, from, run, s');
    }
  }

  /** The bound of RateBound is reached, for every rate and every number of minutes. */
  lemma BoundIsReached(l: Limits, k: nat) returns (from: real, run: seq<Step>, s: Service)
    requires l.rate >= 1 && k >= 1
    ensures Reaches(Start(Events, true, 0.0), l, run, s)
    ensures CountIn(s.log, from, Minutes(from, k)) == (k + 1) * l.rate
  {
    from := 59.0;
    run, s := Restless(Start(Events, true, 0.0), l, from, k);
    OneMore(k, l.rate);
  }
}
