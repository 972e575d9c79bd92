/** Admission without a queue: a fixed-window rate limit and a bound on requests in flight,
    and the bracket every events request runs in. */
module Ingestion {
  import opened Wrappers

  datatype Outcome = Admitted | Unavailable | RateLimited | Busy

  datatype Gate = Gate(enabled: bool, draining: bool, window: real, requests: int, inflight: int)

  datatype Limits = Limits(rate: nat, maxInflight: nat)

  /** One admission decision at time `now`: which outcome, and the gate afterwards. A request
      refused as busy has already been counted. */
  function EnterOutcome(g: Gate, l: Limits, now: real): Outcome {
    var requests := if now - g.window >= 60.0 then 0 else g.requests;
    if !g.enabled || g.draining then Unavailable
    else if requests >= l.rate then RateLimited
    else if g.inflight >= l.maxInflight then Busy
    else Admitted
  }

  function EnterGate(g: Gate, l: Limits, now: real): Gate {
    var outcome := EnterOutcome(g, l, now);
    if outcome == Unavailable then g
    else
      var newWindow := now - g.window >= 60.0;
      var requests := if newWindow then 0 else g.requests;
      g.(window := if newWindow then now else g.window,
         requests := if outcome == RateLimited then requests else requests + 1,
         inflight := if outcome == Admitted then g.inflight + 1 else g.inflight)
  }

  predicate Counted(o: Outcome) { o == Admitted || o == Busy }

  // ---- one request -----------------------------------------------------------------

  /** Where a request is: at work inside the bracket; on its way out with a response, or with
      an exception that nothing here catches; past the final clause, with what came out. */
  datatype Phase = Working | Ending(response: Option<nat>) | Over(response: Option<nat>)

  /** `admitted` is the request's own flag, which its final clause looks at. */
  datatype Call = Call(admitted: bool, phase: Phase)

  function RefusalStatus(o: Outcome): nat {
    if o == RateLimited then 429 else 503
  }

  function Entered(o: Outcome): Call {
    if o == Admitted then Call(true, Working) else Call(false, Ending(Some(RefusalStatus(o))))
  }

  function Released(g: Gate, call: Call): Gate {
    if call.admitted then g.(inflight := g.inflight - 1) else g
  }

  function Tally(counters: map<nat, nat>, status: nat): nat {
    if status in counters then counters[status] else 0
  }

  function Bumped(counters: map<nat, nat>, response: Option<nat>): map<nat, nat> {
    if response.Some? then counters[response.value := Tally(counters, response.value) + 1] else counters
  }

  /** How the work on an admitted request ended. An escaping exception, such as a cancellation,
      is none the handler knows. */
  datatype Work =
    | Forwarded | EventTooLarge | InvalidPayload | Malformed | UpstreamRejected
    | DeliveryUnavailable | TimedOut | Rejected(status: nat) | Disconnected | Escaped

  function WorkStatus(w: Work): Option<nat> {
    match w
    case Forwarded => Some(202)
    case EventTooLarge => Some(413)
    case InvalidPayload => Some(422)
    case Malformed => Some(400)
    case UpstreamRejected => Some(502)
    case DeliveryUnavailable => Some(503)
    case TimedOut => Some(503)
    case Rejected(status) => Some(status)
    case Disconnected => Some(499)
    case Escaped => None
  }

  // ---- the service -------------------------------------------------------------------

  class Ingestion {
    const limits: Limits
    const enabled: bool
    var draining: bool
    var window: real
    var requests: int
    var inflight: int
    var counters: map<nat, nat>

    constructor (enabled: bool, limits: Limits, now: real)
      ensures this.limits == limits
      ensures State() == Gate(enabled, false, now, 0, 0) && counters == map[]
    {
      this.enabled, this.limits := enabled, limits;
      draining, inflight := false, 0;
      window, requests := now, 0;
      counters := map[];
    }

    function State(): Gate
      reads this
    {
      Gate(enabled, draining, window, requests, inflight)
    }

    method Enter(now: real) returns (outcome: Outcome)
      modifies this
      ensures counters == old(counters)
      ensures outcome == EnterOutcome(old(State()), limits, now)
      ensures State() == EnterGate(old(State()), limits, now)
    {
      if !enabled || draining {
        return Unavailable;
      }
      if now - window >= 60.0 {
        window, requests := now, 0;
      }
      if requests >= limits.rate {
        return RateLimited;
      }
      requests := requests + 1;
      if inflight >= limits.maxInflight {
        return Busy;
      }
      inflight := inflight + 1;
      return Admitted;
    }

    method Leave()
      modifies this
      ensures counters == old(counters)
      ensures State() == old(State()).(inflight := old(inflight) - 1)
    {
      inflight := inflight - 1;
    }

    /** The start of the bracket: a refusal is caught and has its response already. */
    method TryEnter(now: real) returns (call: Call)
      modifies this
      ensures counters == old(counters)
      ensures call == Entered(EnterOutcome(old(State()), limits, now))
      ensures State() == EnterGate(old(State()), limits, now)
    {
      var admitted := false;
      var outcome := Enter(now);
      if outcome != Admitted {
        return Call(admitted, Ending(Some(RefusalStatus(outcome))));
      }
      admitted := true;
      return Call(admitted, Working);
    }

    /** The end of the bracket: whatever was admitted leaves; only a response is counted. */
    method Finally(call: Call) returns (over: Call)
      requires call.phase.Ending?
      modifies this
      ensures over == Call(call.admitted, Over(call.phase.response))
      ensures State() == Released(old(State()), call)
      ensures counters == Bumped(old(counters), call.phase.response)
    {
      if call.admitted {
        Leave();
      }
      if call.phase.response.Some? {
        var status := call.phase.response.value;
        counters := counters[status := Tally(counters, status) + 1];
      }
      return Call(call.admitted, Over(call.phase.response));
    }

    /** The end of the bridge's own bracket around its control requests: it gives the place back
        and counts nothing. */
    method Depart(call: Call) returns (over: Call)
      requires call.phase.Ending?
      modifies this
      ensures over == Call(call.admitted, Over(call.phase.response))
      ensures State() == Released(old(State()), call) && counters == old(counters)
    {
      if call.admitted {
        Leave();
      }
      return Call(call.admitted, Over(call.phase.response));
    }

    /** One events request from start to end, with nothing else in between. */
    method HandleEvents(now: real, work: Work) returns (status: Option<nat>)
      modifies this
      ensures var outcome := EnterOutcome(old(State()), limits, now);
              && status == (if outcome == Admitted then WorkStatus(work) else Some(RefusalStatus(outcome)))
              && State() == EnterGate(old(State()), limits, now).(inflight := old(inflight))
              && counters == Bumped(old(counters), status)
    {
      var call := TryEnter(now);
      if call.phase.Working? {
        call := call.(phase := Ending(WorkStatus(work)));
      }
      call := Finally(call);
      return call.phase.response;
    }

    method Drain()
      modifies this
      ensures counters == old(counters)
      ensures State() == old(State()).(draining := true)
    {
      draining := true;
    }
  }
}
