/** One browser, many frames, several replicas: requests carry a snapshot of the shared
    cookie jar, answers come back late, in any order, or never. */
module BridgeRuns {
  import opened Json
  import opened Bridge
  import opened Wrappers

  /** `under` is the last explicit decision the browser had applied when the request left. */
  datatype Request = Request(path: string, data: Json, cookies: Cookies, under: Option<string>)

  datatype Forward = Forward(id: nat, request: Request, batch: seq<Json>)

  /** `held` collects every identity the jar ever held, `minted` every identity a server issued. */
  datatype State = State(
    jar: Cookies,
    requests: map<nat, Request>,
    replies: map<nat, Reply>,
    next: nat,
    held: set<string>,
    minted: set<string>,
    decided: Option<string>,
    forwarded: seq<Forward>)

  /** `mint` is the identifier a server would issue; `refused` stands for rate limits, timeouts
      and every other failure without cookies; `batch` is what survives batch validation. */
  datatype Step =
    | Send(path: string, data: Json)
    | Serve(id: nat, mint: string, refused: bool, batch: seq<Json>)
    | Apply(id: nat)
    | Lose(id: nat)

  const PATHS := {CONSENT_PATH, ENROLL_PATH, ID_PATH, REVOKE_PATH, EVENTS_PATH}

  ghost function JarIds(jar: Cookies): set<string> {
    if IDENTITY in jar then {jar[IDENTITY]} else {}
  }

  ghost function Start(jar: Cookies): State {
    State(jar, map[], map[], 0, JarIds(jar), {}, None, [])
  }

  ghost predicate Enabled(s: State, step: Step) {
    match step
    case Send(path, data) => path in PATHS
    case Serve(id, mint, refused, batch) =>
      && id in s.requests
      && IsUuid4(mint) && mint !in s.minted && mint !in s.held
      && forall e :: e in batch ==> HasEvents(s.requests[id].data) && e in s.requests[id].data.fields["events"].items
    case Apply(id) => id in s.replies
    case Lose(id) => id in s.requests || id in s.replies
  }

  ghost predicate Forwards(r: Request, refused: bool) {
    r.path == EVENTS_PATH && !refused && MayForward(r.cookies, r.data)
  }

  ghost function Answer(r: Request, mint: string, refused: bool, maxAge: int): Reply {
    if refused then Refuse(503, "unavailable")
    else if r.path == EVENTS_PATH then
      if Choice(r.cookies) != ACCEPTED || Identity(r.cookies).None? then Refuse(403, "consent_required")
      else if !BoundBatch(r.data, Identity(r.cookies).value) then Refuse(422, "invalid_payload")
      else Reply(202, Delivered, [])
    else Control(r.path, r.cookies, r.data, mint, maxAge)
  }

  ghost function Next(s: State, step: Step, maxAge: int): State
    requires Enabled(s, step)
  {
    match step
    case Send(path, data) =>
      s.(requests := s.requests[s.next := Request(path, data, Attached(s.jar, path), s.decided)], next := s.next + 1)
    case Serve(id, mint, refused, batch) =>
      var r := s.requests[id];
      var s1 := s.(requests := s.requests - {id}, replies := s.replies[id := Answer(r, mint, refused, maxAge)],
                   minted := s.minted + {mint});
      if Forwards(r, refused) then s1.(forwarded := s1.forwarded + [Forward(id, r, batch)]) else s1
    case Apply(id) =>
      var reply := s.replies[id];
      var jar := StoreAll(s.jar, reply.cookies);
      s.(jar := jar, replies := s.replies - {id}, held := s.held + JarIds(jar),
         decided := if reply.body.Explicit? then Some(reply.body.choice) else s.decided)
    case Lose(id) => s.(requests := s.requests - {id}, replies := s.replies - {id})
  }

  ghost predicate Reaches(s: State, run: seq<Step>, maxAge: int, s': State)
    decreases |run|
  {
    if run == [] then s == s'
    else Enabled(s, run[0]) && Reaches(Next(s, run[0], maxAge), run[1..], maxAge, s')
  }

  // ---- the shapes of answers ---------------------------------------------------------

  /** What an answer does to each cookie. */
  ghost predicate Shape(r: Reply, maxAge: int) {
    match r.body
    case Explicit(choice) =>
      && choice in {ACCEPTED, DECLINED}
      && (r.cookies == [Cookie(CONSENT, "1." + choice, maxAge), OptoutFor(choice, maxAge), Cookie(IDENTITY, "", 0)]
          || (choice == ACCEPTED && r.cookies == [Cookie(CONSENT, "1." + choice, maxAge), OptoutFor(choice, maxAge)]))
    case Issued(_, id) =>
      || r.cookies == [Cookie(CONSENT, "1.accepted", maxAge)]
      || r.cookies == [Cookie(IDENTITY, id, maxAge), Cookie(CONSENT, "1.accepted", maxAge)]
    case Enrolled => r.cookies == [Cookie(CONSENT, "1.accepted", maxAge)]
    case Revoked(_) => r.cookies == [Cookie(IDENTITY, "", 0)]
    case Current(_) => r.cookies == []
    case Failure(_) => r.cookies == []
    case Delivered => r.cookies == []
  }

  ghost function OptoutFor(choice: string, maxAge: int): SetCookie {
    if choice == DECLINED then Cookie(OPTOUT, "1", maxAge) else Cookie(OPTOUT, "", 0)
  }

  /** The identities an answer would put into the jar: at most one, and newly minted. */
  ghost function Brings(r: Reply): set<string> {
    if r.body.Issued? && |r.cookies| == 2 then {r.body.id} else {}
  }

  lemma AnswerShape(r: Request, mint: string, refused: bool, maxAge: int)
    ensures Shape(Answer(r, mint, refused, maxAge), maxAge)
    ensures Brings(Answer(r, mint, refused, maxAge)) <= {mint}
  {
  }

  lemma StoreOne(jar: Cookies, a: SetCookie)
    ensures StoreAll(jar, [a]) == Store(jar, a)
  {
    assert [a][1..] == [];
  }

  lemma StoreTwo(jar: Cookies, a: SetCookie, b: SetCookie)
    ensures StoreAll(jar, [a, b]) == Store(Store(jar, a), b)
  {
    assert [a, b][1..] == [b];
    StoreOne(Store(jar, a), b);
  }

  lemma StoreThree(jar: Cookies, a: SetCookie, b: SetCookie, c: SetCookie)
    ensures StoreAll(jar, [a, b, c]) == Store(Store(Store(jar, a), b), c)
  {
    assert [a, b, c][1..] == [b, c];
    StoreTwo(Store(jar, a), b, c);
  }

  /** Storing an answer's cookies, in order, comes down to one update per cookie. */
  lemma Stored(jar: Cookies, r: Reply, maxAge: int)
    requires Shape(r, maxAge) && maxAge > 0
    ensures var after := StoreAll(jar, r.cookies);
            match r.body
            case Explicit(choice) =>
              && CONSENT in after && after[CONSENT] == "1." + choice
              && (OPTOUT in after <==> choice == DECLINED) && (OPTOUT in after ==> after[OPTOUT] == "1")
              && (choice == DECLINED ==> IDENTITY !in after)
              && JarIds(after) <= JarIds(jar)
            case Issued(_, id) =>
              && CONSENT in after && after[CONSENT] == "1.accepted"
              && (OPTOUT in after <==> OPTOUT in jar) && (OPTOUT in jar ==> after[OPTOUT] == jar[OPTOUT])
              && JarIds(after) <= JarIds(jar) + Brings(r)
            case Enrolled =>
              && CONSENT in after && after[CONSENT] == "1.accepted"
              && (OPTOUT in after <==> OPTOUT in jar) && (OPTOUT in jar ==> after[OPTOUT] == jar[OPTOUT])
              && JarIds(after) == JarIds(jar)
            case _ =>
              && (CONSENT in after <==> CONSENT in jar) && (CONSENT in jar ==> after[CONSENT] == jar[CONSENT])
              && (OPTOUT in after <==> OPTOUT in jar) && (OPTOUT in jar ==> after[OPTOUT] == jar[OPTOUT])
              && JarIds(after) <= JarIds(jar)
  {
    if |r.cookies| == 1 {
      StoreOne(jar, r.cookies[0]);
      assert r.cookies == [r.cookies[0]];
    } else if |r.cookies| == 2 {
      StoreTwo(jar, r.cookies[0], r.cookies[1]);
      assert r.cookies == [r.cookies[0], r.cookies[1]];
    } else if |r.cookies| == 3 {
      StoreThree(jar, r.cookies[0], r.cookies[1], r.cookies[2]);
      assert r.cookies == [r.cookies[0], r.cookies[1], r.cookies[2]];
    }
  }

  // ---- identities ------------------------------------------------------------------------

  ghost predicate ReplyOk(s: State, id: nat, maxAge: int) {
    id in s.replies ==>
      && id < s.next && id !in s.requests
      && Shape(s.replies[id], maxAge)
      && Brings(s.replies[id]) <= s.minted && Brings(s.replies[id]) !! s.held
  }

  ghost predicate BringDifferent(s: State, i: nat, j: nat) {
    i in s.replies && j in s.replies && i != j ==> Brings(s.replies[i]) !! Brings(s.replies[j])
  }

  ghost predicate RequestOk(s: State, id: nat) {
    id in s.requests ==> id < s.next && s.requests[id].path in PATHS && JarIds(s.requests[id].cookies) <= s.held
  }

  /** Identities in waiting answers are minted, pairwise different, and new to the jar. */
  ghost predicate Inv(s: State, maxAge: int) {
    && JarIds(s.jar) <= s.held
    && (forall id {:trigger ReplyOk(s, id, maxAge)} :: ReplyOk(s, id, maxAge))
    && (forall i, j {:trigger BringDifferent(s, i, j)} :: BringDifferent(s, i, j))
    && (forall id {:trigger RequestOk(s, id)} :: RequestOk(s, id))
  }

  lemma AttachedIds(jar: Cookies, path: string)
    ensures JarIds(Attached(jar, path)) <= JarIds(jar)
  {
  }

  lemma StepKeeps(s: State, step: Step, maxAge: int)
    requires Inv(s, maxAge) && maxAge > 0 && Enabled(s, step)
    ensures Inv(Next(s, step, maxAge), maxAge)
  {
    var s' := Next(s, step, maxAge);
    match step {
      case Send(path, _) => AttachedIds(s.jar, path);
      case Serve(id, mint, refused, _) =>
        assert RequestOk(s, id);
        AnswerShape(s.requests[id], mint, refused, maxAge);
      case Apply(id) =>
        assert ReplyOk(s, id, maxAge);
        Stored(s.jar, s.replies[id], maxAge);
        assert JarIds(s'.jar) <= JarIds(s.jar) + Brings(s.replies[id]);
      case Lose(id) =>
    }
    forall i ensures ReplyOk(s', i, maxAge) && RequestOk(s', i) {
      assert ReplyOk(s, i, maxAge) && RequestOk(s, i);
      if step.Apply? {
        assert BringDifferent(s, i, step.id);
      }
    }
    forall i, j ensures BringDifferent(s', i, j) {
      assert BringDifferent(s, i, j) && ReplyOk(s, i, maxAge) && ReplyOk(s, j, maxAge);
    }
  }

  lemma {:induction false} RunKeeps(s: State, run: seq<Step>, maxAge: int, s': State)
    requires Inv(s, maxAge) && maxAge > 0 && Reaches(s, run, maxAge, s')
    ensures Inv(s', maxAge)
    decreases |run|
  {
    if run != [] {
      StepKeeps(s, run[0], maxAge);
      RunKeeps(Next(s, run[0], maxAge), run[1..], maxAge, s');
    }
  }

  // ---- what has left the jar stays out -----------------------------------------------------

  ghost predicate LateRequest(retired: set<string>, cut: nat, s: State, id: nat) {
    id in s.requests && id >= cut ==> JarIds(s.requests[id].cookies) !! retired
  }

  ghost predicate LateForward(retired: set<string>, cut: nat, s: State, i: int) {
    0 <= i < |s.forwarded| && s.forwarded[i].id >= cut ==>
      forall e, x :: e in s.forwarded[i].batch && x in retired ==> !Field(e, "persistent_id", x)
  }

  /** Identities the jar once held and holds no more appear in nothing sent from now on. */
  ghost predicate Gone(retired: set<string>, cut: nat, s: State) {
    && retired <= s.held && JarIds(s.jar) !! retired && cut <= s.next
    && (forall id {:trigger LateRequest(retired, cut, s, id)} :: LateRequest(retired, cut, s, id))
    && (forall i {:trigger LateForward(retired, cut, s, i)} :: LateForward(retired, cut, s, i))
  }

  lemma ForwardBound(r: Request, refused: bool, batch: seq<Json>, retired: set<string>)
    requires Forwards(r, refused) && JarIds(r.cookies) !! retired
    requires forall e :: e in batch ==> e in r.data.fields["events"].items
    ensures forall e, x :: e in batch && x in retired ==> !Field(e, "persistent_id", x)
  {
    var id := Identity(r.cookies).value;
    forall e, x | e in batch && x in retired ensures !Field(e, "persistent_id", x) {
      assert BoundEvent(e, id);
      assert id in JarIds(r.cookies);
    }
  }

  lemma GoneStep(retired: set<string>, cut: nat, s: State, step: Step, maxAge: int)
    requires Inv(s, maxAge) && maxAge > 0 && Enabled(s, step) && Gone(retired, cut, s)
    ensures Gone(retired, cut, Next(s, step, maxAge))
  {
    var s' := Next(s, step, maxAge);
    match step {
      case Send(path, _) => AttachedIds(s.jar, path);
      case Serve(id, mint, refused, batch) =>
        assert LateRequest(retired, cut, s, id);
        if Forwards(s.requests[id], refused) && id >= cut {
          ForwardBound(s.requests[id], refused, batch, retired);
        }
      case Apply(id) =>
        assert ReplyOk(s, id, maxAge);
        Stored(s.jar, s.replies[id], maxAge);
        assert JarIds(s'.jar) <= JarIds(s.jar) + Brings(s.replies[id]);
      case Lose(id) =>
    }
    forall id ensures LateRequest(retired, cut, s', id) {
      assert LateRequest(retired, cut, s, id);
    }
    forall i ensures LateForward(retired, cut, s', i) {
      assert LateForward(retired, cut, s, i);
    }
  }

  lemma {:induction false} GoneRun(retired: set<string>, cut: nat, s: State, run: seq<Step>, maxAge: int, s': State)
    requires Inv(s, maxAge) && maxAge > 0 && Gone(retired, cut, s) && Reaches(s, run, maxAge, s')
    ensures Gone(retired, cut, s')
    decreases |run|
  {
    if run != [] {
      StepKeeps(s, run[0], maxAge);
      GoneStep(retired, cut, s, run[0], maxAge);
      GoneRun(retired, cut, Next(s, run[0], maxAge), run[1..], maxAge, s');
    }
  }

  /** From a state on, whatever the jar held before and holds no more is gone. */
  lemma StartGone(retired: set<string>, s: State, maxAge: int)
    requires Inv(s, maxAge) && retired <= s.held && JarIds(s.jar) !! retired
    requires forall i :: 0 <= i < |s.forwarded| ==> s.forwarded[i].id < s.next
    ensures Gone(retired, s.next, s)
  {
    forall id ensures LateRequest(retired, s.next, s, id) {
      assert RequestOk(s, id);
    }
  }

  lemma {:induction false} ForwardIds(s: State, run: seq<Step>, maxAge: int, s': State)
    requires Inv(s, maxAge) && maxAge > 0 && Reaches(s, run, maxAge, s')
    requires forall i :: 0 <= i < |s.forwarded| ==> s.forwarded[i].id < s.next
    ensures forall i :: 0 <= i < |s'.forwarded| ==> s'.forwarded[i].id < s'.next
    decreases |run|
  {
    if run != [] {
      if run[0].Serve? {
        assert RequestOk(s, run[0].id);
      }
      StepKeeps(s, run[0], maxAge);
      ForwardIds(Next(s, run[0], maxAge), run[1..], maxAge, s');
    }
  }

  lemma {:induction false} HeldGrows(s: State, run: seq<Step>, maxAge: int, s': State)
    requires Reaches(s, run, maxAge, s')
    ensures s.held <= s'.held && s.next <= s'.next && s.forwarded <= s'.forwarded
    decreases |run|
  {
    if run != [] {
      HeldGrows(Next(s, run[0], maxAge), run[1..], maxAge, s');
    }
  }

  /** In every interleaving, an identity that has left the jar never comes back. */
  lemma IdentityNeverReturns(jar: Cookies, maxAge: int, run1: seq<Step>, s1: State,
                             run2: seq<Step>, s2: State, run3: seq<Step>, s3: State, id: string)
    requires maxAge > 0 && Reaches(Start(jar), run1, maxAge, s1)
    requires Reaches(s1, run2, maxAge, s2) && Reaches(s2, run3, maxAge, s3)
    requires id in JarIds(s1.jar) && id !in JarIds(s2.jar)
    ensures id !in JarIds(s3.jar)
  {
    RunKeeps(Start(jar), run1, maxAge, s1);
    RunKeeps(s1, run2, maxAge, s2);
    ForwardIds(Start(jar), run1, maxAge, s1);
    ForwardIds(s1, run2, maxAge, s2);
    HeldGrows(s1, run2, maxAge, s2);
    StartGone({id}, s2, maxAge);
    GoneRun({id}, s2.next, s2, run3, maxAge, s3);
  }

  /** Once a decline has been applied, nothing sent later is passed on with an event that
      carries any identity the jar held before. */
  lemma DeclineRetiresIdentities(jar: Cookies, maxAge: int, run1: seq<Step>, s1: State, id: nat,
                                 run2: seq<Step>, s2: State, i: nat, e: Json, x: string)
    requires maxAge > 0 && Reaches(Start(jar), run1, maxAge, s1)
    requires Enabled(s1, Apply(id)) && s1.replies[id].body == Explicit(DECLINED)
    requires Reaches(Next(s1, Apply(id), maxAge), run2, maxAge, s2)
    requires i < |s2.forwarded| && s2.forwarded[i].id >= s1.next
    requires e in s2.forwarded[i].batch && x in s1.held
    ensures !Field(e, "persistent_id", x)
  {
    var after := Next(s1, Apply(id), maxAge);
    RunKeeps(Start(jar), run1, maxAge, s1);
    ForwardIds(Start(jar), run1, maxAge, s1);
    StepKeeps(s1, Apply(id), maxAge);
    assert ReplyOk(s1, id, maxAge);
    Stored(s1.jar, s1.replies[id], maxAge);
    StartGone(after.held, after, maxAge);
    GoneRun(after.held, after.next, after, run2, maxAge, s2);
    assert LateForward(after.held, after.next, s2, i);
  }

  // ---- the consent cookies are one register ---------------------------------------------------

  /** What the jar shows is the last applied explicit decision; before the first one it shows
      what it showed at the start, or a default acceptance if nothing was marked then. */
  ghost predicate Register(jar0: Cookies, s: State) {
    match s.decided
    case Some(choice) =>
      && choice in {ACCEPTED, DECLINED}
      && (OPTOUT in s.jar <==> choice == DECLINED) && (OPTOUT in s.jar ==> s.jar[OPTOUT] == "1")
      && (choice == ACCEPTED ==> CONSENT in s.jar && s.jar[CONSENT] == "1.accepted")
    case None =>
      && (OPTOUT in s.jar <==> OPTOUT in jar0) && (OPTOUT in jar0 ==> s.jar[OPTOUT] == jar0[OPTOUT])
      && (|| (CONSENT in s.jar && s.jar[CONSENT] == "1.accepted")
          || ((CONSENT in s.jar <==> CONSENT in jar0) && (CONSENT in jar0 ==> s.jar[CONSENT] == jar0[CONSENT])))
  }

  lemma RegisterStep(jar0: Cookies, s: State, step: Step, maxAge: int)
    requires Inv(s, maxAge) && maxAge > 0 && Enabled(s, step) && Register(jar0, s)
    ensures Register(jar0, Next(s, step, maxAge))
  {
    if step.Apply? {
      assert ReplyOk(s, step.id, maxAge);
      Stored(s.jar, s.replies[step.id], maxAge);
      assert "1." + ACCEPTED == "1.accepted";
    }
  }

  lemma {:induction false} RegisterRun(jar0: Cookies, s: State, run: seq<Step>, maxAge: int, s': State)
    requires Inv(s, maxAge) && maxAge > 0 && Register(jar0, s) && Reaches(s, run, maxAge, s')
    ensures Register(jar0, s')
    decreases |run|
  {
    if run != [] {
      StepKeeps(s, run[0], maxAge);
      RegisterStep(jar0, s, run[0], maxAge);
      RegisterRun(jar0, Next(s, run[0], maxAge), run[1..], maxAge, s');
    }
  }

  lemma RegisterShows(jar0: Cookies, s: State)
    requires Register(jar0, s)
    ensures s.decided.Some? ==> Choice(s.jar) == s.decided.value
    ensures s.decided.None? ==> Choice(s.jar) == Choice(jar0) || (OPTOUT !in jar0 && Choice(s.jar) == ACCEPTED)
  {
    assert "1.accepted"[2..] == ACCEPTED;
  }

  /** In every interleaving of late enrolments, identity reads, revocations and decisions, the
      shown choice is the last applied explicit decision. Before any, it is the choice the jar
      started with, or a default acceptance when the jar started without an opt-out marker. */
  lemma ConsentIsARegister(jar0: Cookies, maxAge: int, run: seq<Step>, s: State)
    requires maxAge > 0 && Reaches(Start(jar0), run, maxAge, s)
    ensures s.decided.Some? ==> Choice(s.jar) == s.decided.value
    ensures s.decided.None? ==> Choice(s.jar) == Choice(jar0) || (OPTOUT !in jar0 && Choice(s.jar) == ACCEPTED)
    ensures s.decided.None? && jar0 == map[] ==> Choice(s.jar) != DECLINED
  {
    RegisterRun(jar0, Start(jar0), run, maxAge, s);
    RegisterShows(jar0, s);
  }

  // ---- a declined browser sends nothing through -------------------------------------------------

  ghost predicate Honest(r: Request) {
    r.under == Some(DECLINED) ==> Choice(r.cookies) == DECLINED
  }

  ghost predicate AllHonest(s: State) {
    && (forall id :: id in s.requests ==> Honest(s.requests[id]))
    && (forall i :: 0 <= i < |s.forwarded| ==>
          Honest(s.forwarded[i].request) && Choice(s.forwarded[i].request.cookies) == ACCEPTED)
  }

  lemma {:induction false} HonestRun(jar0: Cookies, s: State, run: seq<Step>, maxAge: int, s': State)
    requires Inv(s, maxAge) && maxAge > 0 && Register(jar0, s) && AllHonest(s) && Reaches(s, run, maxAge, s')
    ensures AllHonest(s')
    decreases |run|
  {
    if run != [] {
      if run[0].Send? {
        RegisterShows(jar0, s);
        Scopes(s.jar, run[0].path);
      }
      StepKeeps(s, run[0], maxAge);
      RegisterStep(jar0, s, run[0], maxAge);
      HonestRun(jar0, Next(s, run[0], maxAge), run[1..], maxAge, s');
    }
  }

  /** No event is ever passed on from a request sent while the last applied decision was a decline. */
  lemma DeclinedSendsNothing(jar0: Cookies, maxAge: int, run: seq<Step>, s: State, i: nat)
    requires maxAge > 0 && Reaches(Start(jar0), run, maxAge, s) && i < |s.forwarded|
    ensures s.forwarded[i].request.under != Some(DECLINED)
  {
    HonestRun(jar0, Start(jar0), run, maxAge, s);
  }
}
