/** What each answer of the consent bridge means for a browser that applies it at once. */
module BridgeAnswers {
  import opened Bridge
  import opened BridgeRuns
  import opened Json

  lemma DecisionStored(jar: Cookies, choice: string, drop: bool, maxAge: int)
    requires maxAge > 0 && choice in {ACCEPTED, DECLINED}
    ensures var cookies := [Cookie(CONSENT, "1." + choice, maxAge), OptoutFor(choice, maxAge)]
                           + if drop then [Cookie(IDENTITY, "", 0)] else [];
            var after := StoreAll(jar, cookies);
            && Choice(after) == choice
            && (IDENTITY in after <==> IDENTITY in jar && !drop)
            && (IDENTITY in after ==> after[IDENTITY] == jar[IDENTITY])
  {
    var a, b, c := Cookie(CONSENT, "1." + choice, maxAge), OptoutFor(choice, maxAge), Cookie(IDENTITY, "", 0);
    StoreTwo(jar, a, b);
    StoreThree(jar, a, b, c);
    assert [a, b] + [c] == [a, b, c] && [a, b] + [] == [a, b];
    assert "1." + ACCEPTED == "1.accepted" && "1.accepted"[2..] == ACCEPTED;
  }

  /** A well-formed decision, applied, is what the browser shows. It keeps the identity only
      when it accepts and the request already showed acceptance; anything else changes nothing. */
  lemma DecisionTakesEffect(jar: Cookies, data: Json, previous: string, maxAge: int)
    requires maxAge > 0
    ensures var r := SetConsent(data, previous, maxAge);
            var after := StoreAll(jar, r.cookies);
            if IsChoice(data) then
              && Choice(after) == data.fields["choice"].s
              && (IDENTITY in after <==> IDENTITY in jar && Choice(after) == ACCEPTED && previous == ACCEPTED)
              && (IDENTITY in after ==> after[IDENTITY] == jar[IDENTITY])
            else r.status == 422 && after == jar
  {
    if IsChoice(data) {
      var choice := data.fields["choice"].s;
      DecisionStored(jar, choice, choice == DECLINED || previous != ACCEPTED, maxAge);
    }
  }

  /** The disclosed default never overrides: a browser that shows either consent cookie, readable
      or not, keeps its whole jar, and one that shows neither is enrolled. */
  lemma EnrollNeverOverrides(jar: Cookies, data: Json, maxAge: int)
    requires maxAge > 0
    ensures var after := StoreAll(jar, Enroll(Attached(jar, ENROLL_PATH), data, maxAge).cookies);
            if CONSENT in jar || OPTOUT in jar || data != Obj(map["consent_version" := Str("1")]) then after == jar
            else Choice(after) == ACCEPTED && after - {CONSENT} == jar
  {
    Scopes(jar, ENROLL_PATH);
    StoreOne(jar, Cookie(CONSENT, "1.accepted", maxAge));
    assert "1.accepted"[2..] == ACCEPTED;
  }

  /** An identity is issued only under acceptance: the one the request carried, which is then
      not set again, or else the minted one. */
  lemma IdentityIssued(cookies: Cookies, data: Json, mint: string, maxAge: int)
    ensures var r := Control(ID_PATH, cookies, data, mint, maxAge);
            && (r.body.Issued? <==> data == Obj(map[]) && Choice(cookies) == ACCEPTED)
            && (r.body.Issued? ==>
                  if Identity(cookies).Some? then
                    r.body.id == Identity(cookies).value && forall c :: c in r.cookies ==> c.name != IDENTITY
                  else r.body.id == mint && Cookie(IDENTITY, mint, maxAge) in r.cookies)
            && (!r.body.Issued? ==> r.cookies == [])
  {
    assert ID_PATH[8] == 'i' && CONSENT_PATH[8] == 'c' && ENROLL_PATH[8] == 'c';
    assert |ID_PATH| != |REVOKE_PATH|;
    if Identity(cookies).None? {
      var minted := Cookie(IDENTITY, mint, maxAge);
      assert ([minted] + [Cookie(CONSENT, "1.accepted", maxAge)])[0] == minted;
    }
  }

  /** An identity is revoked only after a decline. */
  lemma RevokedAfterDecline(cookies: Cookies, data: Json, mint: string, maxAge: int)
    ensures var r := Control(REVOKE_PATH, cookies, data, mint, maxAge);
            && (r.body.Revoked? <==> data == Obj(map[]) && Choice(cookies) == DECLINED)
            && r.cookies == if r.body.Revoked? then [Cookie(IDENTITY, "", 0)] else []
  {
    assert REVOKE_PATH[8] == 'i' && CONSENT_PATH[8] == 'c' && ENROLL_PATH[8] == 'c';
  }
}
