/** The bridge frame's message handler: one active request at a time, a decline that
    supersedes it, and generation numbers that silence whatever comes back late. */
module Frame {
  import opened Wrappers

  datatype Command = QueryState | Accept | Enroll | Decline | Id | Events

  datatype Kind = Result | Unavailable | Busy

  /** A posted reply: the number of the message it answers, and what it says. */
  type Reply = (nat, Kind)

  /** `owner` gives the message each generation serves; `running` the generations whose
      request has not come back; `aborted` those whose controller has fired. */
  datatype State = State(
    active: Option<nat>,
    generation: nat,
    received: nat,
    owner: map<nat, nat>,
    running: set<nat>,
    aborted: set<nat>,
    replies: seq<Reply>)

  datatype Step =
    | Receive(command: Command)
    | Timeout(gen: nat)
    | Settle(gen: nat, ok: bool)   // the request came back with a result, or threw

  const IDLE := State(None, 0, 0, map[], {}, {}, [])

  predicate Refuses(s: State, command: Command) { s.active.Some? && command != Decline }

  function OnReceive(s: State, command: Command): State {
    if Refuses(s, command) then s.(received := s.received + 1, replies := s.replies + [(s.received, Busy)])
    else
      var current := s.generation + 1;
      s.(active := Some(current), generation := current, received := s.received + 1,
         owner := s.owner[current := s.received], running := s.running + {current},
         aborted := s.aborted + if s.active.Some? then {s.active.value} else {})
  }

  function Outcome(s: State, gen: nat, ok: bool): Option<Kind> {
    if gen != s.generation then None
    else if !ok then Some(Unavailable)
    else if gen in s.aborted then None
    else Some(Result)
  }

  function OnSettle(s: State, gen: nat, ok: bool): State
    requires gen in s.owner
  {
    var said := Outcome(s, gen, ok);
    s.(running := s.running - {gen},
       active := if gen == s.generation then None else s.active,
       replies := s.replies + if said.Some? then [(s.owner[gen], said.value)] else [])
  }

  /** A message is refused exactly when something is active and it is no decline, and then only
      a busy reply is posted. Otherwise it becomes the newest generation, unanswered so far, and
      whatever was active is aborted. */
  lemma ReceiveDecides(s: State, command: Command)
    ensures var s' := OnReceive(s, command);
            if s.active.Some? && command != Decline then
              s' == s.(received := s.received + 1, replies := s.replies + [(s.received, Busy)])
            else
              && s'.active == Some(s'.generation) && s'.generation == s.generation + 1
              && s'.generation in s'.running && s'.owner[s'.generation] == s.received
              && s'.replies == s.replies && (s.active.Some? ==> s.active.value in s'.aborted)
  {
  }

  /** A returning request clears the way exactly when it is the newest; an older one only ends. */
  lemma SettleClears(s: State, gen: nat, ok: bool)
    requires gen in s.owner
    ensures var s' := OnSettle(s, gen, ok);
            && gen !in s'.running && s'.generation == s.generation
            && (gen == s.generation ==> s'.active.None?)
            && (gen != s.generation ==> s'.active == s.active && s'.replies == s.replies)
  {
    assert s.replies + [] == s.replies;
  }

  class Handler {
    var active: Option<nat>
    var generation: nat
    ghost var received: nat
    var owner: map<nat, nat>
    ghost var running: set<nat>
    var aborted: set<nat>
    var replies: seq<Reply>

    constructor ()
      ensures Value() == IDLE
    {
      active, generation, received, owner, running, aborted, replies := None, 0, 0, map[], {}, {}, [];
    }

    ghost function Value(): State
      reads this
    {
      State(active, generation, received, owner, running, aborted, replies)
    }

    /** Up to the first await: refuse as busy, or supersede and become the newest generation. */
    method Receive(command: Command, message: nat) returns (current: Option<nat>)
      requires message == received
      modifies this
      ensures Value() == OnReceive(old(Value()), command)
      ensures current == if Refuses(old(Value()), command) then None else Some(old(generation) + 1)
    {
      received := received + 1;
      if active.Some? && command != Decline {
        replies := replies + [(message, Busy)];
        return None;
      }
      if active.Some? {
        aborted := aborted + {active.value};
      }
      generation := generation + 1;
      active := Some(generation);
      owner, running := owner[generation := message], running + {generation};
      return Some(generation);
    }

    /** After the await: reply only as the newest generation, then clear the way. */
    method Settle(current: nat, ok: bool)
      requires current in owner
      modifies this
      ensures Value() == OnSettle(old(Value()), current, ok)
    {
      if ok {
        if current == generation && current !in aborted {
          replies := replies + [(owner[current], Result)];
        }
      } else if current == generation {
        replies := replies + [(owner[current], Unavailable)];
      }
      running := running - {current};
      if current == generation {
        active := None;
      }
    }
  }

  // ---- runs ------------------------------------------------------------------------

  ghost predicate Possible(s: State, e: Step) {
    match e
    case Receive(_) => true
    case Timeout(gen) => gen in s.running
    case Settle(gen, _) => gen in s.running && gen in s.owner
  }

  ghost function Next(s: State, e: Step): State
    requires Possible(s, e)
  {
    match e
    case Receive(command) => OnReceive(s, command)
    case Timeout(gen) => s.(aborted := s.aborted + {gen})
    case Settle(gen, ok) => OnSettle(s, gen, ok)
  }

  ghost predicate Reaches(s: State, run: seq<Step>, s': State)
    decreases |run|
  {
    if run == [] then s == s' else Possible(s, run[0]) && Reaches(Next(s, run[0]), run[1..], s')
  }

  /** How many replies answer message m. */
  ghost function Answers(replies: seq<Reply>, m: nat): nat {
    if replies == [] then 0
    else Answers(replies[..|replies| - 1], m) + if replies[|replies| - 1].0 == m then 1 else 0
  }

  lemma AnswersAdd(replies: seq<Reply>, r: Reply, m: nat)
    ensures Answers(replies + [r], m) == Answers(replies, m) + if r.0 == m then 1 else 0
  {
    assert (replies + [r])[..|replies + [r]| - 1] == replies;
  }

  ghost predicate Owned(s: State, m: nat) {
    exists g :: g in s.owner && s.owner[g] == m
  }

  ghost predicate GenOk(s: State, g: nat) {
    && (g in s.owner <==> 1 <= g <= s.generation)
    && (g in s.running ==> g in s.owner)
    && (g in s.owner ==> s.owner[g] < s.received)
    && (g in s.running ==> Answers(s.replies, s.owner[g]) == 0)
    && (g in s.owner ==> Answers(s.replies, s.owner[g]) <= 1)
    && (g in s.running && g != s.generation ==> g in s.aborted)
  }

  ghost predicate OwnersDiffer(s: State, g: nat, h: nat) {
    g in s.owner && h in s.owner && g != h ==> s.owner[g] != s.owner[h]
  }

  /** Every message so far was accepted, or refused with one busy reply; later ones have none. */
  ghost predicate MessageOk(s: State, m: nat) {
    && (m >= s.received ==> Answers(s.replies, m) == 0 && (m, Busy) !in s.replies)
    && (m < s.received && !Owned(s, m) ==> Answers(s.replies, m) == 1 && (m, Busy) in s.replies)
    && (Owned(s, m) ==> (m, Busy) !in s.replies)
  }

  ghost predicate Inv(s: State) {
    && s.active == (if s.generation in s.running then Some(s.generation) else None)
    && (forall g {:trigger GenOk(s, g)} :: GenOk(s, g))
    && (forall g, h {:trigger OwnersDiffer(s, g, h)} :: OwnersDiffer(s, g, h))
    && (forall m {:trigger MessageOk(s, m)} :: MessageOk(s, m))
  }

  lemma ReceiveKeeps(s: State, command: Command)
    requires Inv(s)
    ensures Inv(OnReceive(s, command))
  {
    var s' := OnReceive(s, command);
    assert GenOk(s, s.generation) && GenOk(s, s.generation + 1) && MessageOk(s, s.received);
    forall g ensures GenOk(s', g) {
      assert GenOk(s, g);
      AnswersAdd(s.replies, (s.received, Busy), if g in s.owner then s.owner[g] else 0);
    }
    forall g, h ensures OwnersDiffer(s', g, h) {
      assert OwnersDiffer(s, g, h) && GenOk(s, g) && GenOk(s, h);
    }
    forall m ensures MessageOk(s', m) {
      assert MessageOk(s, m);
      AnswersAdd(s.replies, (s.received, Busy), m);
      OwnedAfter(s, command, m);
    }
  }

  lemma OwnedAfter(s: State, command: Command, m: nat)
    requires Inv(s)
    ensures Owned(OnReceive(s, command), m) <==> Owned(s, m) || (!Refuses(s, command) && m == s.received)
    ensures Owned(s, m) ==> m < s.received
  {
    var s' := OnReceive(s, command);
    assert GenOk(s, s.generation + 1);
    if Owned(s, m) {
      var g :| g in s.owner && s.owner[g] == m;
      assert GenOk(s, g);
      assert g in s'.owner && s'.owner[g] == m;
    }
    if !Refuses(s, command) && m == s.received {
      assert s'.owner[s.generation + 1] == m;
    }
    if Owned(s', m) {
      var g :| g in s'.owner && s'.owner[g] == m;
      assert g in s.owner ==> s.owner[g] == m || !Refuses(s, command);
    }
  }

  lemma SettleKeeps(s: State, gen: nat, ok: bool)
    requires Inv(s) && gen in s.running && gen in s.owner
    ensures Inv(OnSettle(s, gen, ok))
  {
    var s' := OnSettle(s, gen, ok);
    var said := Outcome(s, gen, ok);
    assert GenOk(s, gen) && s.replies + [] == s.replies;
    forall g ensures GenOk(s', g) {
      assert GenOk(s, g) && OwnersDiffer(s, g, gen);
      if said.Some? && g in s.owner {
        AnswersAdd(s.replies, (s.owner[gen], said.value), s.owner[g]);
      }
    }
    forall g, h ensures OwnersDiffer(s', g, h) {
      assert OwnersDiffer(s, g, h);
    }
    forall m ensures MessageOk(s', m) {
      assert MessageOk(s, m) && (Owned(s', m) <==> Owned(s, m));
      if said.Some? {
        AnswersAdd(s.replies, (s.owner[gen], said.value), m);
        assert Owned(s, s.owner[gen]);
      }
    }
  }

  lemma TimeoutKeeps(s: State, gen: nat)
    requires Inv(s) && gen in s.running
    ensures Inv(s.(aborted := s.aborted + {gen}))
  {
    var s' := s.(aborted := s.aborted + {gen});
    forall g ensures GenOk(s', g) { assert GenOk(s, g); }
    forall g, h ensures OwnersDiffer(s', g, h) { assert OwnersDiffer(s, g, h); }
    forall m ensures MessageOk(s', m) { assert MessageOk(s, m) && (Owned(s', m) <==> Owned(s, m)); }
  }

  lemma {:induction false} RunKeeps(s: State, run: seq<Step>, s': State)
    requires Inv(s) && Reaches(s, run, s')
    ensures Inv(s')
    decreases |run|
  {
    if run != [] {
      match run[0] {
        case Receive(command) => ReceiveKeeps(s, command);
        case Timeout(gen) => TimeoutKeeps(s, gen);
        case Settle(gen, ok) => SettleKeeps(s, gen, ok);
      }
      RunKeeps(Next(s, run[0]), run[1..], s');
    }
  }

  // ---- the theorems ---------------------------------------------------------------------

  /** `active` is set exactly while the newest accepted message is unfinished. */
  lemma ActiveIsNewest(run: seq<Step>, s: State)
    requires Reaches(IDLE, run, s)
    ensures s.active.Some? <==> s.generation in s.running
    ensures s.active.Some? ==> s.active.value == s.generation
    ensures forall g :: g in s.running && g != s.generation ==> g in s.aborted
  {
    RunKeeps(IDLE, run, s);
    forall g | g in s.running && g != s.generation ensures g in s.aborted {
      assert GenOk(s, g);
    }
  }

  /** Every message gets at most one reply; a message refused as busy gets exactly one, the
      busy reply, and an accepted one never gets that. */
  lemma OneReplyEach(run: seq<Step>, s: State, m: nat)
    requires Reaches(IDLE, run, s) && m < s.received
    ensures Answers(s.replies, m) <= 1
    ensures !Owned(s, m) ==> Answers(s.replies, m) == 1 && (m, Busy) in s.replies
    ensures Owned(s, m) ==> (m, Busy) !in s.replies
  {
    RunKeeps(IDLE, run, s);
    assert MessageOk(s, m);
    if Owned(s, m) {
      var g :| g in s.owner && s.owner[g] == m;
      assert GenOk(s, g);
    }
  }

  lemma {:induction false} SilentRun(s: State, run: seq<Step>, s': State, g: nat)
    requires Inv(s) && Reaches(s, run, s') && g in s.owner && g < s.generation
    ensures g in s'.owner && s'.owner[g] == s.owner[g]
    ensures Answers(s'.replies, s.owner[g]) == Answers(s.replies, s.owner[g])
    decreases |run|
  {
    if run != [] {
      var e := run[0];
      assert GenOk(s, g) && GenOk(s, s.generation + 1);
      match e {
        case Receive(command) =>
          ReceiveKeeps(s, command);
          AnswersAdd(s.replies, (s.received, Busy), s.owner[g]);
        case Timeout(gen) => TimeoutKeeps(s, gen);
        case Settle(gen, ok) =>
          SettleKeeps(s, gen, ok);
          var said := Outcome(s, gen, ok);
          assert OwnersDiffer(s, g, gen) && s.replies + [] == s.replies;
          if said.Some? {
            AnswersAdd(s.replies, (s.owner[gen], said.value), s.owner[g]);
          }
      }
      SilentRun(Next(s, e), run[1..], s', g);
    }
  }

  /** A message superseded while unfinished was superseded by a decline, its request is
      aborted, and it gets no reply, then or ever. */
  lemma SupersededIsSilent(run: seq<Step>, s: State, command: Command, rest: seq<Step>, s': State)
    requires Reaches(IDLE, run, s) && s.active.Some? && !Refuses(s, command)
    requires Reaches(OnReceive(s, command), rest, s')
    ensures command == Decline && s.generation in s.owner && s.generation in OnReceive(s, command).aborted
    ensures Answers(s'.replies, s.owner[s.generation]) == 0
  {
    RunKeeps(IDLE, run, s);
    assert GenOk(s, s.generation) && GenOk(s, s.generation + 1);
    ReceiveKeeps(s, command);
    SilentRun(OnReceive(s, command), rest, s', s.generation);
  }

  /** What a returning request posts: its result if it is the newest, succeeded and was not
      aborted meanwhile; that it is unavailable if it is the newest and failed; else nothing. */
  lemma SettlePosts(run: seq<Step>, s: State, gen: nat, ok: bool)
    requires Reaches(IDLE, run, s) && gen in s.running && gen in s.owner
    ensures var s' := OnSettle(s, gen, ok);
            && s.replies <= s'.replies
            && ((s.owner[gen], Result) in s'.replies[|s.replies|..] <==>
                  gen == s.generation && ok && gen !in s.aborted)
            && ((s.owner[gen], Unavailable) in s'.replies[|s.replies|..] <==> gen == s.generation && !ok)
            && |s'.replies| <= |s.replies| + 1
  {
    var posted := OnSettle(s, gen, ok).replies[|s.replies|..];
    assert OnSettle(s, gen, ok).replies == s.replies + posted;
  }

  /** When a running request comes back it is answered if and only if it is still the newest
      and did not succeed only after its controller had fired. */
  lemma SettledIsAnswered(run: seq<Step>, s: State, gen: nat, ok: bool)
    requires Reaches(IDLE, run, s) && gen in s.running && gen in s.owner
    ensures Answers(OnSettle(s, gen, ok).replies, s.owner[gen]) ==
            if gen == s.generation && !(ok && gen in s.aborted) then 1 else 0
  {
    RunKeeps(IDLE, run, s);
    assert GenOk(s, gen) && s.replies + [] == s.replies;
    var said := Outcome(s, gen, ok);
    if said.Some? {
      AnswersAdd(s.replies, (s.owner[gen], said.value), s.owner[gen]);
    }
  }
}
