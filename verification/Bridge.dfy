/** The consent bridge's server side: what each endpoint answers and which cookies it sets. */
module Bridge {
  import opened Json
  import opened Wrappers

  // ---- cookies -------------------------------------------------------------------

  datatype CookieName = CONSENT | OPTOUT | IDENTITY

  /** Cookies by name; every name has one path, so a store needs no path of its own. */
  type Cookies = map<CookieName, string>

  datatype SetCookie = SetCookie(name: CookieName, value: string, path: string, maxAge: int)

  function CookiePath(name: CookieName): string {
    if name == IDENTITY then "/bridge/id" else "/bridge"
  }

  /** Section 5.1.4 of RFC 6265. */
  predicate PathMatch(request: string, cookie: string) {
    || request == cookie
    || (cookie != "" && cookie < request && (cookie[|cookie| - 1] == '/' || request[|cookie|] == '/'))
  }

  /** The cookies a browser attaches to a request, section 5.4 of RFC 6265. */
  function Attached(jar: Cookies, path: string): Cookies {
    map name | name in jar && PathMatch(path, CookiePath(name)) :: jar[name]
  }

  /** Section 5.3 of RFC 6265: a new cookie replaces the old one; a non-positive Max-Age removes it. */
  function Store(jar: Cookies, c: SetCookie): Cookies {
    if c.maxAge <= 0 then jar - {c.name} else jar[c.name := c.value]
  }

  function StoreAll(jar: Cookies, cs: seq<SetCookie>): Cookies
    decreases |cs|
  {
    if cs == [] then jar else StoreAll(Store(jar, cs[0]), cs[1..])
  }

  // ---- reading a request ------------------------------------------------------------

  const ACCEPTED := "accepted"
  const DECLINED := "declined"
  const UNKNOWN := "unknown"

  function Choice(cookies: Cookies): string {
    if OPTOUT in cookies then
      if cookies[OPTOUT] == "1" then DECLINED else UNKNOWN
    else if CONSENT in cookies && (cookies[CONSENT] == "1.accepted" || cookies[CONSENT] == "1.declined") then
      cookies[CONSENT][2..]
    else UNKNOWN
  }

  predicate IsHex(c: char) { '0' <= c <= '9' || 'a' <= c <= 'f' }

  predicate IsUuid4(s: string) {
    && |s| == 36
    && s[8] == '-' && s[13] == '-' && s[18] == '-' && s[23] == '-'
    && s[14] == '4' && s[19] in "89ab"
    && forall i :: 0 <= i < 36 && i != 8 && i != 13 && i != 18 && i != 23 ==> IsHex(s[i])
  }

  function Identity(cookies: Cookies): Option<string> {
    if IDENTITY in cookies && IsUuid4(cookies[IDENTITY]) then Some(cookies[IDENTITY]) else None
  }

  // ---- answers -------------------------------------------------------------------------

  datatype Body =
    | Failure(code: string)
    | Current(choice: string)                 // the choice as the request carried it
    | Explicit(choice: string)                // an explicit decision, echoed
    | Enrolled                                // the disclosed default
    | Issued(choice: string, id: string)      // the browser identity
    | Revoked(choice: string)
    | Delivered                               // a batch was passed on

  datatype Reply = Reply(status: nat, body: Body, cookies: seq<SetCookie>)

  function Refuse(status: nat, code: string): Reply { Reply(status, Failure(code), []) }

  function Cookie(name: CookieName, value: string, age: int): SetCookie {
    SetCookie(name, value, CookiePath(name), age)
  }

  predicate IsChoice(data: Json) {
    && data.Obj? && data.fields.Keys == {"choice", "consent_version"}
    && data.fields["choice"] in [Str(ACCEPTED), Str(DECLINED)]
    && data.fields["consent_version"] == Str("1")
  }

  function SetConsent(data: Json, previous: string, maxAge: int): Reply {
    if !IsChoice(data) then Refuse(422, "invalid_payload")
    else
      var choice := data.fields["choice"].s;
      var declined := choice == DECLINED;
      Reply(200, Explicit(choice),
            [Cookie(CONSENT, "1." + choice, maxAge),
             Cookie(OPTOUT, if declined then "1" else "", if declined then maxAge else 0)]
            + if declined || previous != ACCEPTED then [Cookie(IDENTITY, "", 0)] else [])
  }

  function Enroll(cookies: Cookies, data: Json, maxAge: int): Reply {
    if data != Obj(map["consent_version" := Str("1")]) then Refuse(422, "invalid_payload")
    else if CONSENT in cookies || OPTOUT in cookies then Reply(200, Current(Choice(cookies)), [])
    else Reply(200, Enrolled, [Cookie(CONSENT, "1.accepted", maxAge)])
  }

  function Revoke(cookies: Cookies): Reply {
    if Choice(cookies) != DECLINED then Refuse(409, "decline_first")
    else Reply(200, Revoked(Choice(cookies)), [Cookie(IDENTITY, "", 0)])
  }

  /** `mint` is the identifier the server would mint now. */
  function ReadIdentity(cookies: Cookies, mint: string, maxAge: int): Reply {
    if Choice(cookies) != ACCEPTED then Refuse(403, "consent_required")
    else
      var existing := Identity(cookies);
      var value := if existing.Some? then existing.value else mint;
      Reply(200, Issued(Choice(cookies), value),
            (if existing.None? then [Cookie(IDENTITY, value, maxAge)] else [])
            + [Cookie(CONSENT, "1.accepted", maxAge)])
  }

  const CONSENT_PATH := "/bridge/consent"
  const ENROLL_PATH := "/bridge/consent/enroll"
  const ID_PATH := "/bridge/id"
  const REVOKE_PATH := "/bridge/id/revoke"
  const EVENTS_PATH := "/bridge/id/events"

  /** The answer to a control request. */
  function Control(path: string, cookies: Cookies, data: Json, mint: string, maxAge: int): Reply {
    if path == CONSENT_PATH then SetConsent(data, Choice(cookies), maxAge)
    else if path == ENROLL_PATH then Enroll(cookies, data, maxAge)
    else if data != Obj(map[]) then Refuse(422, "invalid_payload")
    else if path == REVOKE_PATH then Revoke(cookies)
    else ReadIdentity(cookies, mint, maxAge)
  }

  // ---- event batches --------------------------------------------------------------------

  predicate Field(event: Json, key: string, value: string) {
    event.Obj? && key in event.fields && event.fields[key] == Str(value)
  }

  predicate BoundEvent(event: Json, id: string) {
    && Field(event, "origin", "colab") && Field(event, "surface", "python_sdk")
    && Field(event, "id_scope", "browser") && Field(event, "persistent_id", id)
  }

  predicate HasEvents(data: Json) {
    data.Obj? && "events" in data.fields && data.fields["events"].Arr?
  }

  /** Every event of the batch belongs to the browser identity the request itself carried. */
  predicate BoundBatch(data: Json, id: string) {
    HasEvents(data) && forall e :: e in data.fields["events"].items ==> BoundEvent(e, id)
  }

  /** An events request is passed on only under an accepted choice and a well-formed identity,
      and only when all its events carry that identity. */
  predicate MayForward(cookies: Cookies, data: Json) {
    Choice(cookies) == ACCEPTED && Identity(cookies).Some? && BoundBatch(data, Identity(cookies).value)
  }

  // ---- the handlers, as they build their responses ------------------------------------------

  class Response {
    var status: nat
    var body: Body
    var headers: seq<SetCookie>

    constructor (status: nat, body: Body)
      ensures this.status == status && this.body == body && headers == []
    {
      this.status, this.body, this.headers := status, body, [];
    }

    ghost function Value(): Reply
      reads this
    {
      Reply(status, body, headers)
    }

    method AddCookie(name: CookieName, value: string, age: int)
      modifies this`headers
      ensures headers == old(headers) + [Cookie(name, value, age)]
    {
      var path := if name == IDENTITY then "/bridge/id" else "/bridge";
      headers := headers + [SetCookie(name, value, path, age)];
    }
  }

  class Handlers {
    const maxAge: int

    constructor (maxAge: int)
      ensures this.maxAge == maxAge
    {
      this.maxAge := maxAge;
    }

    method HandleSetConsent(data: Json, previous: string) returns (r: Response)
      ensures fresh(r) && r.Value() == SetConsent(data, previous, maxAge)
    {
      if !IsChoice(data) {
        r := new Response(422, Failure("invalid_payload"));
        return;
      }
      var choice := data.fields["choice"].s;
      r := new Response(200, Explicit(choice));
      r.AddCookie(CONSENT, "1." + choice, maxAge);
      var declined := choice == DECLINED;
      r.AddCookie(OPTOUT, if declined then "1" else "", if declined then maxAge else 0);
      if declined || previous != ACCEPTED {
        r.AddCookie(IDENTITY, "", 0);
      }
    }

    method HandleEnroll(cookies: Cookies, data: Json) returns (r: Response)
      ensures fresh(r) && r.Value() == Enroll(cookies, data, maxAge)
    {
      if data != Obj(map["consent_version" := Str("1")]) {
        r := new Response(422, Failure("invalid_payload"));
      } else if CONSENT in cookies || OPTOUT in cookies {
        r := new Response(200, Current(Choice(cookies)));
      } else {
        r := new Response(200, Enrolled);
        r.AddCookie(CONSENT, "1.accepted", maxAge);
      }
    }

    method HandleControl(path: string, cookies: Cookies, data: Json, mint: string) returns (r: Response)
      ensures fresh(r) && r.Value() == Control(path, cookies, data, mint, maxAge)
    {
      if path == CONSENT_PATH {
        r := HandleSetConsent(data, Choice(cookies));
        return;
      }
      if path == ENROLL_PATH {
        r := HandleEnroll(cookies, data);
        return;
      }
      if data != Obj(map[]) {
        r := new Response(422, Failure("invalid_payload"));
        return;
      }
      if path == REVOKE_PATH {
        if Choice(cookies) != DECLINED {
          r := new Response(409, Failure("decline_first"));
          return;
        }
        r := new Response(200, Revoked(Choice(cookies)));
        r.AddCookie(IDENTITY, "", 0);
        return;
      }
      if Choice(cookies) != ACCEPTED {
        r := new Response(403, Failure("consent_required"));
        return;
      }
      var existing := Identity(cookies);
      var value := if existing.Some? then existing.value else mint;
      r := new Response(200, Issued(Choice(cookies), value));
      if existing.None? {
        r.AddCookie(IDENTITY, value, maxAge);
      }
      r.AddCookie(CONSENT, "1.accepted", maxAge);
    }
  }

  /** Reject a batch with any event that is not bound to this browser. */
  method BindBrowser(data: Json, id: string) returns (ok: bool)
    ensures ok <==> BoundBatch(data, id)
  {
    if !HasEvents(data) {
      return false;
    }
    var events := data.fields["events"].items;
    for i := 0 to |events|
      invariant forall j :: 0 <= j < i ==> BoundEvent(events[j], id)
    {
      if !BoundEvent(events[i], id) {
        return false;
      }
    }
    return true;
  }

  // ---- which endpoint sees which cookie --------------------------------------------------------

  /** The two consent cookies go to every endpoint; the identity only to those below /bridge/id. */
  lemma Scopes(jar: Cookies, path: string)
    requires path in {CONSENT_PATH, ENROLL_PATH, ID_PATH, REVOKE_PATH, EVENTS_PATH}
    ensures Choice(Attached(jar, path)) == Choice(jar)
    ensures CONSENT in Attached(jar, path) <==> CONSENT in jar
    ensures OPTOUT in Attached(jar, path) <==> OPTOUT in jar
    ensures IDENTITY in Attached(jar, path) <==> IDENTITY in jar && path in {ID_PATH, REVOKE_PATH, EVENTS_PATH}
    ensures Identity(Attached(jar, path)).Some? ==> Identity(Attached(jar, path)) == Identity(jar)
  {
    assert PathMatch(path, "/bridge") by {
      assert path[|"/bridge"|] == '/' && "/bridge" == path[..7];
    }
    assert PathMatch(path, "/bridge/id") <==> path in {ID_PATH, REVOKE_PATH, EVENTS_PATH} by {
      if path in {CONSENT_PATH, ENROLL_PATH} {
        assert path[8] == 'c' && "/bridge/id"[8] == 'i';
      } else {
        assert path[..10] == "/bridge/id";
      }
    }
  }
}
