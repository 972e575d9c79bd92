/** When a request is admitted, told from what happened before it. */
module Admission {
  import opened Ingestion
  import opened IngestionRuns
  import opened Wrappers

  /** The window that was open after these decisions: a decision a minute or more after a window
      began begins the next one. */
  ghost function WindowAfter(start: real, log: seq<(real, Outcome)>): real {
    if log == [] then start
    else
      var w, t := WindowAfter(start, log[..|log| - 1]), log[|log| - 1].0;
      if t - w >= 60.0 then t else w
  }

  /** The window a decision at `now` falls into. */
  ghost function WindowAt(start: real, log: seq<(real, Outcome)>, now: real): real {
    var w := WindowAfter(start, log);
    if now - w >= 60.0 then now else w
  }

  /** Requests counted at or after an instant: those that were admitted or found no place. */
  ghost function CountedSince(log: seq<(real, Outcome)>, from: real): nat {
    if log == [] then 0
    else
      var last := log[|log| - 1];
      CountedSince(log[..|log| - 1], from) + if last.1 in {Admitted, Busy} && from <= last.0 then 1 else 0
  }

  lemma OneMoreDecision(start: real, log: seq<(real, Outcome)>, entry: (real, Outcome), from: real)
    ensures WindowAfter(start, log + [entry]) == WindowAt(start, log, entry.0)
    ensures CountedSince(log + [entry], from) ==
            CountedSince(log, from) + if entry.1 in {Admitted, Busy} && from <= entry.0 then 1 else 0
  {
    assert (log + [entry])[..|log + [entry]| - 1] == log;
  }

  lemma {:induction false} NoneSoLate(log: seq<(real, Outcome)>, from: real)
    requires forall i :: 0 <= i < |log| ==> log[i].0 < from
    ensures CountedSince(log, from) == 0
  {
    if log != [] {
      NoneSoLate(log[..|log| - 1], from);
    }
  }

  /** Decisions come in order of time, none before the service began. */
  ghost predicate Timed(start: real, s: Service) {
    && (forall i :: 0 <= i < |s.log| ==> start <= s.log[i].0)
    && (forall i, j :: 0 <= i < j < |s.log| ==> s.log[i].0 <= s.log[j].0)
    && (forall i :: 0 <= i < |s.log| && s.log[i].0 - s.gate.window >= 60.0 ==> Closed(s.gate))
  }

  ghost predicate Closed(g: Gate) { !g.enabled || g.draining }

  /** While the gate is open, its fields say what the log says. */
  ghost predicate Told(start: real, s: Service) {
    && Timed(start, s) && start <= s.gate.window
    && (!Closed(s.gate) ==>
          s.gate.window == WindowAfter(start, s.log) && s.gate.requests == CountedSince(s.log, s.gate.window))
  }

  lemma EnterTimed(start: real, s: Service, l: Limits, now: real)
    requires Told(start, s) && Possible(s, Enter(now))
    ensures Timed(start, After(s, l, Enter(now))) && start <= After(s, l, Enter(now)).gate.window
  {
    var n := After(s, l, Enter(now));
    forall i | 0 <= i < |n.log| ensures start <= n.log[i].0 <= now {
      assert i < |s.log| ==> n.log[i] == s.log[i] && s.log[i].0 <= s.log[|s.log| - 1].0;
    }
    forall i, j | 0 <= i < j < |n.log| ensures n.log[i].0 <= n.log[j].0 {
      assert j < |s.log| ==> s.log[i].0 <= s.log[j].0;
    }
  }

  lemma EnterTold(start: real, s: Service, l: Limits, now: real)
    requires Told(start, s) && Possible(s, Enter(now))
    ensures Told(start, After(s, l, Enter(now)))
  {
    var outcome := EnterOutcome(s.gate, l, now);
    var n := After(s, l, Enter(now));
    EnterTimed(start, s, l, now);
    if !Closed(s.gate) {
      OneMoreDecision(start, s.log, (now, outcome), n.gate.window);
      if now - s.gate.window >= 60.0 {
        NoneSoLate(s.log, now);
      }
    }
  }

  lemma {:induction false} RunTold(start: real, s: Service, l: Limits, run: seq<Step>, s': Service)
    requires Told(start, s) && Reaches(s, l, run, s')
    ensures Told(start, s') && s'.gate.enabled == s.gate.enabled
    ensures s'.gate.draining <==> s.gate.draining || Shutdown in run
    decreases |run|
  {
    if run != [] {
      if run[0].Enter? {
        EnterTold(start, s, l, run[0].now);
      }
      RunTold(start, After(s, l, run[0]), l, run[1..], s');
      assert run == [run[0]] + run[1..];
    }
  }

  /** The exact conditions of every decision, over every run and in terms of what happened: the
      service is enabled and was not told to drain; fewer than `rate` requests were counted in
      the window the decision falls into; fewer than the allowed number hold a place. */
  lemma DecidedExactly(kind: Kind, enabled: bool, start: real, l: Limits, run: seq<Step>, s: Service, now: real)
    requires Reaches(Start(kind, enabled, start), l, run, s) && Possible(s, Enter(now))
    ensures var s' := After(s, l, Enter(now));
            var used := CountedSince(s.log, WindowAt(start, s.log, now));
            && |s'.log| == |s.log| + 1 && |s'.calls| == |s.calls| + 1
            && s'.log[|s.log|] == (now,
                 if !enabled || Shutdown in run then Unavailable
                 else if used >= l.rate then RateLimited
                 else if |Holding(s.calls)| >= l.maxInflight then Busy
                 else Admitted)
            && (s'.calls[|s.calls|].admitted <==> s'.log[|s.log|].1 == Admitted)
            && |Holding(s'.calls)| == |Holding(s.calls)| + if s'.log[|s.log|].1 == Admitted then 1 else 0
  {
    RunTold(start, Start(kind, enabled, start), l, run, s);
    InflightIsOpen(kind, enabled, start, l, run, s);
    InflightAfter(kind, enabled, start, l, run, s, now);
    if !Closed(s.gate) && now - s.gate.window >= 60.0 {
      NoneSoLate(s.log, now);
    }
  }

  lemma InflightAfter(kind: Kind, enabled: bool, start: real, l: Limits, run: seq<Step>, s: Service, now: real)
    requires Reaches(Start(kind, enabled, start), l, run, s) && Possible(s, Enter(now))
    ensures |Holding(After(s, l, Enter(now)).calls)| ==
            |Holding(s.calls)| + if EnterOutcome(s.gate, l, now) == Admitted then 1 else 0
  {
    CallAdded(s.calls, Entered(EnterOutcome(s.gate, l, now)), 0);
  }

  /** A service that has just started and has a place and a rate admits its first request. */
  lemma FirstIsAdmitted(kind: Kind, start: real, l: Limits, now: real)
    requires l.rate > 0 && l.maxInflight > 0 && start <= now
    ensures After(Start(kind, true, start), l, Enter(now)).calls == [Call(true, Working)]
  {
    var s := Start(kind, true, start);
    assert Reaches(s, l, [], s) && Holding(s.calls) == {};
    DecidedExactly(kind, true, start, l, [], s, now);
  }

  // ---- statuses ------------------------------------------------------------------------------

  /** 202 means the whole batch was taken upstream; only 429 and 503 invite another try, and they
      are every refusal at the gate and every delivery that may work later. */
  lemma StatusesMean(w: Work, o: Outcome)
    requires w.Rejected? ==> w.status !in {202, 429, 503}
    ensures WorkStatus(w) == Some(202) <==> w == Forwarded
    ensures WorkStatus(w) in {Some(429), Some(503)} <==> w == DeliveryUnavailable || w == TimedOut
    ensures WorkStatus(w).None? <==> w == Escaped
    ensures RefusalStatus(o) in {429, 503} && (RefusalStatus(o) == 429 <==> o == RateLimited)
    ensures WorkStatus(EventTooLarge) == Some(413) && WorkStatus(InvalidPayload) == Some(422)
    ensures WorkStatus(Malformed) == Some(400) && WorkStatus(UpstreamRejected) == Some(502)
    ensures WorkStatus(Disconnected) == Some(499) && (w.Rejected? ==> WorkStatus(w) == Some(w.status))
  {
  }
}
