/** The bridge's vocabulary spelled out: what the cookies say, which identifiers, decisions and
    batches count, and what becomes of an events request. */
module BridgeMeanings {
  import opened Bridge
  import opened BridgeRuns
  import opened Json
  import opened Wrappers

  // ---- cookies ----------------------------------------------------------------------

  /** The opt-out marker decides alone where there is one; else the consent cookie does. */
  lemma ChoiceMeans(cookies: Cookies)
    ensures Choice(cookies) == "accepted" <==>
              OPTOUT !in cookies && CONSENT in cookies && cookies[CONSENT] == "1.accepted"
    ensures Choice(cookies) == "declined" <==>
              if OPTOUT in cookies then cookies[OPTOUT] == "1"
              else CONSENT in cookies && cookies[CONSENT] == "1.declined"
    ensures Choice(cookies) in {"accepted", "declined", "unknown"}
  {
    assert "1.accepted"[2..] == "accepted" && "1.declined"[2..] == "declined";
    assert "accepted"[0] == 'a' && "declined"[0] == 'd' && "unknown"[0] == 'u';
  }

  /** A cookie's path matches what equals it or continues it at a slash. */
  lemma PathMatchMeans(cookie: string, rest: string)
    requires cookie != ""
    ensures PathMatch(cookie + rest, cookie) <==> rest == "" || cookie[|cookie| - 1] == '/' || rest[0] == '/'
  {
    if rest == "" {
      assert cookie + rest == cookie;
    } else {
      assert cookie < cookie + rest && (cookie + rest)[|cookie|] == rest[0];
    }
  }

  predicate Hex(s: string) { forall i :: 0 <= i < |s| ==> s[i] in "0123456789abcdef" }

  lemma HexDigits(c: char)
    ensures IsHex(c) <==> c in "0123456789abcdef"
  {
    var digits := "0123456789abcdef";
    if '0' <= c <= '9' {
      assert digits[c as int - '0' as int] == c;
    }
    if 'a' <= c <= 'f' {
      assert digits[10 + c as int - 'a' as int] == c;
    }
  }

  /** Five groups of lower-case hexadecimal digits, the third starting with a 4 and the fourth
      with 8, 9, a or b, are a well-formed identity. */
  lemma UuidAccepted(a: string, b: string, c: string, v: char, d: string, e: string)
    requires |a| == 8 && |b| == 4 && |c| == 3 && |d| == 3 && |e| == 12 && v in "89ab"
    requires Hex(a) && Hex(b) && Hex(c) && Hex(d) && Hex(e)
    ensures IsUuid4(a + "-" + b + "-4" + c + "-" + [v] + d + "-" + e)
  {
    var s := a + "-" + b + "-4" + c + "-" + [v] + d + "-" + e;
    forall i | 0 <= i < 36 && i != 8 && i != 13 && i != 18 && i != 23 ensures IsHex(s[i]) {
      HexDigits(s[i]);
    }
  }

  /** And nothing else is. */
  lemma UuidParts(s: string) returns (a: string, b: string, c: string, v: char, d: string, e: string)
    requires IsUuid4(s)
    ensures |a| == 8 && |b| == 4 && |c| == 3 && |d| == 3 && |e| == 12 && v in "89ab"
    ensures Hex(a) && Hex(b) && Hex(c) && Hex(d) && Hex(e)
    ensures s == a + "-" + b + "-4" + c + "-" + [v] + d + "-" + e
  {
    a, b, c, v, d, e := s[..8], s[9..13], s[15..18], s[19], s[20..23], s[24..];
    forall i | 0 <= i < 36 && i != 8 && i != 13 && i != 18 && i != 23 ensures s[i] in "0123456789abcdef" {
      HexDigits(s[i]);
    }
  }

  /** The identity a request shows is its identity cookie, if that is well formed. */
  lemma IdentityMeans(cookies: Cookies, id: string)
    ensures Identity(cookies) == Some(id) <==> IDENTITY in cookies && cookies[IDENTITY] == id && IsUuid4(id)
  {
  }

  // ---- decisions -------------------------------------------------------------------------

  /** There are exactly two well-formed decisions. */
  lemma DecisionsAre(data: Json)
    ensures IsChoice(data) <==>
              || data == Obj(map["choice" := Str("accepted"), "consent_version" := Str("1")])
              || data == Obj(map["choice" := Str("declined"), "consent_version" := Str("1")])
  {
    if IsChoice(data) {
      assert data.fields == map["choice" := data.fields["choice"], "consent_version" := data.fields["consent_version"]];
    }
  }

  /** Which refusals a control request can meet, and with which status. */
  lemma ControlStatuses(cookies: Cookies, data: Json, mint: string, maxAge: int)
    ensures Control("/bridge/consent", cookies, data, mint, maxAge).status == if IsChoice(data) then 200 else 422
    ensures Control("/bridge/consent/enroll", cookies, data, mint, maxAge).status ==
            if data == Obj(map["consent_version" := Str("1")]) then 200 else 422
    ensures Control("/bridge/id/revoke", cookies, data, mint, maxAge).status ==
            if data != Obj(map[]) then 422 else if Choice(cookies) == "declined" then 200 else 409
    ensures Control("/bridge/id", cookies, data, mint, maxAge).status ==
            if data != Obj(map[]) then 422 else if Choice(cookies) == "accepted" then 200 else 403
  {
    assert |"/bridge/consent"| == 15 && |"/bridge/consent/enroll"| == 22;
    assert |"/bridge/id"| == 10 && |"/bridge/id/revoke"| == 17;
  }

  /** And the reason each refusal gives. */
  lemma ControlReasons(path: string, cookies: Cookies, data: Json, mint: string, maxAge: int)
    ensures var r := Control(path, cookies, data, mint, maxAge);
            && (r.status == 422 ==> r.body == Failure("invalid_payload"))
            && (r.status == 409 ==> r.body == Failure("decline_first"))
            && (r.status == 403 ==> r.body == Failure("consent_required"))
            && r.status in {200, 403, 409, 422} && (r.status != 200 ==> r.cookies == [])
  {
  }

  // ---- batches ---------------------------------------------------------------------------------

  /** An event of the notebook's own kind, carrying this identity: writing the four values into
      it changes nothing. */
  ghost predicate Genuine(e: Json, id: string) {
    e.Obj? && e.fields == e.fields["origin" := Str("colab")]["surface" := Str("python_sdk")]
                                  ["id_scope" := Str("browser")]["persistent_id" := Str(id)]
  }

  ghost predicate GenuineBatch(data: Json, id: string) {
    && data.Obj? && "events" in data.fields && data.fields["events"].Arr?
    && forall e :: e in data.fields["events"].items ==> Genuine(e, id)
  }

  lemma KeysApart()
    ensures "origin" != "surface" && "origin" != "id_scope" && "origin" != "persistent_id"
    ensures "surface" != "id_scope" && "surface" != "persistent_id" && "id_scope" != "persistent_id"
  {
    assert |"origin"| == 6 && |"surface"| == 7 && |"id_scope"| == 8 && |"persistent_id"| == 13;
  }

  /** Whatever else an event says, with the four values it passes. */
  lemma FourValuesPass(fields: map<string, Json>, id: string)
    ensures BoundEvent(Obj(fields["origin" := Str("colab")]["surface" := Str("python_sdk")]
                                 ["id_scope" := Str("browser")]["persistent_id" := Str(id)]), id)
  {
    KeysApart();
  }

  /** Without one of them, or with another in its place, neither it nor its batch does. */
  lemma AnyOtherFails(e: Json, id: string, key: string, value: string)
    requires (key, value) in
               {("origin", "colab"), ("surface", "python_sdk"), ("id_scope", "browser"), ("persistent_id", id)}
    requires e.Obj? ==> key !in e.fields || e.fields[key] != Str(value)
    ensures !BoundEvent(e, id)
    ensures forall data :: HasEvents(data) && e in data.fields["events"].items ==> !BoundBatch(data, id)
  {
    KeysApart();
  }

  lemma EventBoundExactly(e: Json, id: string)
    ensures BoundEvent(e, id) <==> Genuine(e, id)
  {
    KeysApart();
    if e.Obj? {
      FourValuesPass(e.fields, id);
      if BoundEvent(e, id) {
        assert e.fields == e.fields["origin" := Str("colab")];
        assert e.fields == e.fields["surface" := Str("python_sdk")];
        assert e.fields == e.fields["id_scope" := Str("browser")];
        assert e.fields == e.fields["persistent_id" := Str(id)];
      }
    }
  }

  lemma BatchBoundExactly(data: Json, id: string)
    ensures BoundBatch(data, id) <==> GenuineBatch(data, id)
  {
    if HasEvents(data) {
      forall e | e in data.fields["events"].items ensures BoundEvent(e, id) <==> Genuine(e, id) {
        EventBoundExactly(e, id);
      }
    }
  }

  // ---- what becomes of an events request --------------------------------------------------------

  /** The request shows acceptance and a well-formed identity. */
  ghost predicate Consents(cookies: Cookies) {
    && OPTOUT !in cookies && CONSENT in cookies && cookies[CONSENT] == "1.accepted"
    && IDENTITY in cookies && IsUuid4(cookies[IDENTITY])
  }

  /** Serving an events request that is not turned away for other reasons: it is passed on, once
      and with a 202, exactly when it shows acceptance and a well-formed identity and all its
      events are genuine ones of that identity. Otherwise nothing is passed on, and the answer
      says whether consent or the batch was the trouble. */
  lemma ServedEvents(s: State, id: nat, mint: string, batch: seq<Json>, maxAge: int)
    requires Enabled(s, Serve(id, mint, false, batch)) && s.requests[id].path == "/bridge/id/events"
    ensures var r, s' := s.requests[id], Next(s, Serve(id, mint, false, batch), maxAge);
            && id in s'.replies && s'.replies[id].cookies == []
            && if !Consents(r.cookies) then s'.replies[id].status == 403 && s'.forwarded == s.forwarded
               else if !GenuineBatch(r.data, r.cookies[IDENTITY]) then
                 s'.replies[id].status == 422 && s'.forwarded == s.forwarded
               else s'.replies[id].status == 202 && s'.forwarded == s.forwarded + [Forward(id, r, batch)]
  {
    var r := s.requests[id];
    ChoiceMeans(r.cookies);
    if Consents(r.cookies) {
      BatchBoundExactly(r.data, r.cookies[IDENTITY]);
    }
  }

  /** A request turned away for other reasons, or to any other endpoint, passes nothing on. */
  lemma OthersForwardNothing(s: State, id: nat, mint: string, refused: bool, batch: seq<Json>, maxAge: int)
    requires Enabled(s, Serve(id, mint, refused, batch)) && (refused || s.requests[id].path != "/bridge/id/events")
    ensures Next(s, Serve(id, mint, refused, batch), maxAge).forwarded == s.forwarded
  {
  }
}
