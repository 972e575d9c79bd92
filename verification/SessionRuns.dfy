/** What every sequence of session operations keeps. */
module SessionRuns {
  import opened Json
  import opened Session
  import opened Wrappers

  datatype Op =
    | DoInit(v: Vault, r: Reply)
    | DoSetServerUrl(url: Option<string>, v: Vault, r: Reply)
    | DoLogin(c: Credentials, persist: bool, allowPlaintext: bool, v: Vault, r: Reply)
    | DoGetJwt(now: int, later: int, v: Vault, r: Reply)
    | DoEnsure(v: Vault, r: Reply)
    | DoLogout
    | DoNotifyExpired(message: string)
    | DoSetGatewayUrl(gateway: string)

  function Apply(s: State, op: Op): State {
    match op
    case DoInit(v, r) => AfterInit(s, v, r)
    case DoSetServerUrl(url, v, r) => AfterSetServerUrl(s, url, v, r)
    case DoLogin(c, persist, allow, v, r) => AfterLogin(s, c, persist, allow, v, r)
    case DoGetJwt(now, later, v, r) => AfterGetJwt(s, now, later, v, r).0
    case DoEnsure(v, r) => AfterEnsure(s, v, r).0
    case DoLogout => AfterLogout(s)
    case DoNotifyExpired(message) => Dropped(s, message)
    case DoSetGatewayUrl(gateway) => AfterSetGatewayUrl(s, gateway)
  }

  function Run(s: State, ops: seq<Op>): State
    decreases |ops|
  {
    if ops == [] then s else Run(Apply(s, ops[0]), ops[1..])
  }

  // ---- the invariant ------------------------------------------------------------------

  ghost predicate OneForm(c: Settings) { !(Encrypted in c && Plaintext in c) }

  /** Token and expiry come and go together; never both password forms; and the session
      believes in a stored plaintext password only while there is one. */
  ghost predicate Inv(s: State) {
    && (s.jwt.Some? <==> s.jwtExpiresAt.Some?)
    && OneForm(s.settings)
    && (s.storedInPlaintext ==> Plaintext in s.settings)
  }

  /** The step keeps the invariant and writes no password in the clear where none was. */
  ghost predicate Quiet(s: State, s': State) {
    Inv(s') && (Plaintext in s'.settings ==> Plaintext in s.settings)
  }

  lemma ClearKeeps(s: State)
    requires Inv(s)
    ensures Quiet(s, AfterClear(s))
  {
  }

  lemma SaveKeeps(s: State, c: Credentials, allow: bool, v: Vault)
    requires Inv(s)
    ensures Inv(AfterSave(s, c, allow, v))
    ensures !allow ==> Plaintext !in AfterSave(s, c, allow, v).settings
  {
  }

  lemma LoginKeeps(s: State, c: Credentials, persist: bool, allow: bool, v: Vault, r: Reply)
    requires Inv(s)
    ensures Inv(AfterLogin(s, c, persist, allow, v, r))
    ensures !(persist && allow) ==> Quiet(s, AfterLogin(s, c, persist, allow, v, r))
  {
    if LoginProblem(s, persist, allow, v, r).None? {
      var s1 := s.(jwt := r.token, jwtExpiresAt := r.expiresAt, credentials := Some(c),
                   credentialsPersisted := persist, lastError := None);
      if persist {
        SaveKeeps(s1, c, allow, v);
      } else {
        ClearKeeps(s1);
      }
    }
  }

  /** A silent login may write plaintext only over plaintext. */
  lemma SilentKeeps(s: State, c: Credentials, v: Vault, r: Reply)
    requires Inv(s)
    ensures Quiet(s, AfterSilent(s, c, v, r))
  {
    LoginKeeps(s, c, s.credentialsPersisted, s.storedInPlaintext, v, r);
  }

  lemma RememberedKeeps(s: State, v: Vault)
    requires Inv(s)
    ensures Quiet(s, Remembered(s, v))
  {
    ClearKeeps(s.(initialized := true, lastError := Some(UNREADABLE)));
  }

  lemma InitKeeps(s: State, v: Vault, r: Reply)
    requires Inv(s)
    ensures Quiet(s, AfterInit(s, v, r))
  {
    var s1 := Remembered(s, v);
    RememberedKeeps(s, v);
    if s1.credentials.Some? {
      SilentKeeps(s1, s1.credentials.value, v, r);
    }
  }

  lemma GetJwtKeeps(s: State, now: int, later: int, v: Vault, r: Reply)
    requires Inv(s)
    ensures Quiet(s, AfterGetJwt(s, now, later, v, r).0)
  {
    if s.credentials.Some? {
      SilentKeeps(WithoutJwt(s), s.credentials.value, v, r);
    }
  }

  lemma SetServerUrlKeeps(s: State, url: Option<string>, v: Vault, r: Reply)
    requires Inv(s)
    ensures Quiet(s, AfterSetServerUrl(s, url, v, r))
  {
    if s.credentials.Some? {
      SilentKeeps(WithoutJwt(s.(serverUrl := url)), s.credentials.value, v, r);
    }
  }

  /** The user asked to sign in, to save the password, and allowed plaintext. */
  predicate AllowsPlaintext(op: Op) { op.DoLogin? && op.persist && op.allowPlaintext }

  lemma ApplyKeeps(s: State, op: Op)
    requires Inv(s)
    ensures Inv(Apply(s, op))
    ensures !AllowsPlaintext(op) ==> Quiet(s, Apply(s, op))
  {
    match op
    case DoInit(v, r) => InitKeeps(s, v, r);
    case DoSetServerUrl(url, v, r) => SetServerUrlKeeps(s, url, v, r);
    case DoLogin(c, persist, allow, v, r) => LoginKeeps(s, c, persist, allow, v, r);
    case DoGetJwt(now, later, v, r) => GetJwtKeeps(s, now, later, v, r);
    case DoEnsure(v, r) =>
      if s.credentials.Some? {
        SilentKeeps(s, s.credentials.value, v, r);
      }
    case DoLogout => ClearKeeps(WithoutJwt(s).(credentials := None, credentialsPersisted := false, lastError := None));
    case DoNotifyExpired(_) =>
    case DoSetGatewayUrl(_) =>
  }

  lemma {:induction false} RunKeeps(s: State, ops: seq<Op>)
    requires Inv(s)
    ensures Inv(Run(s, ops))
    decreases |ops|
  {
    if ops != [] {
      ApplyKeeps(s, ops[0]);
      RunKeeps(Apply(s, ops[0]), ops[1..]);
    }
  }

  // ---- the theorems ---------------------------------------------------------------------

  /** Over any sequence of operations on a fresh service. */
  lemma SessionInvariant(settings: Settings, ops: seq<Op>)
    requires OneForm(settings)
    ensures var s := Run(Fresh(settings), ops);
            && (s.jwt.Some? <==> s.jwtExpiresAt.Some?)
            && !(Encrypted in s.settings && Plaintext in s.settings)
            && (s.storedInPlaintext ==> Plaintext in s.settings)
  {
    RunKeeps(Fresh(settings), ops);
  }

  lemma {:induction false} NoNewPlaintext(s: State, ops: seq<Op>)
    requires Inv(s) && forall i :: 0 <= i < |ops| ==> !AllowsPlaintext(ops[i])
    ensures Plaintext in Run(s, ops).settings ==> Plaintext in s.settings
    decreases |ops|
  {
    if ops != [] {
      ApplyKeeps(s, ops[0]);
      assert forall i :: 0 <= i < |ops[1..]| ==> ops[1..][i] == ops[i + 1];
      NoNewPlaintext(Apply(s, ops[0]), ops[1..]);
    }
  }

  /** A password is never written in the clear unless it already was, or the user signed in
      and allowed it: no refresh, restart or reconnection does it silently. */
  lemma PlaintextOnlyWhenAllowed(settings: Settings, ops: seq<Op>)
    requires Plaintext !in settings
    requires forall i :: 0 <= i < |ops| ==> !AllowsPlaintext(ops[i])
    ensures Plaintext !in Run(Fresh(settings), ops).settings
  {
    NoNewPlaintext(Fresh(settings), ops);
  }

  /** Decryption undoes encryption, and ciphertexts are not empty. */
  ghost predicate Faithful(v: Vault) {
    forall p :: v.encrypt(p).Some? ==> v.encrypt(p).value != "" && v.decrypt(v.encrypt(p).value) == Some(p)
  }

  /** A service started later reads back exactly what was saved: the credentials if the
      password could be encrypted, or was allowed in the clear and is not empty; else nothing. */
  lemma SavedIsLoaded(s: State, c: Credentials, allowPlaintext: bool, v: Vault)
    requires Faithful(v)
    ensures var saved := AfterSave(s, c, allowPlaintext, v);
            var encrypted := v.available && v.encrypt(c.password).Some?;
            AfterLoad(Fresh(saved.settings), v).1 ==
              if c.username != "" && (encrypted || (allowPlaintext && c.password != "")) then Some(c) else None
  {
    var saved := AfterSave(s, c, allowPlaintext, v);
    assert saved.settings[Username] == Str(c.username);
  }

  /** A refreshed token is handed out only while it is good for another half minute, and
      when none is handed out none is kept, unless the login brought one too close to expiry
      to a session that had none. */
  lemma HandedOutIsValid(s: State, now: int, later: int, v: Vault, r: Reply)
    requires Inv(s)
    ensures var (s', token) := AfterGetJwt(s, now, later, v, r);
            if token.Some? then
              && s'.jwt == token
              && ValidJwt(s', if ValidJwt(s, now, REFRESH_BUFFER) then now else later, REFRESH_BUFFER)
            else
              || s'.jwt.None?
              || (s.jwt.None? && s'.jwtExpiresAt == r.expiresAt && r.expiresAt.value <= later + REFRESH_BUFFER)
  {
  }

  /** The other way to a token does not look at its expiry: what a login on demand hands out is
      good for another half minute exactly when the login's answer was. */
  lemma EnsuredIsAsAnswered(s: State, later: int, v: Vault, r: Reply)
    ensures var (s', token) := AfterEnsure(s, v, r);
            token.Some? ==>
              && s'.jwt == token && r.Answer? && r.expiresAt.Some?
              && (ValidJwt(s', later, REFRESH_BUFFER) <==> r.expiresAt.value > later + REFRESH_BUFFER)
  {
  }

  /** The state allows a silent login: credentials, a server, and a way to keep the password as
      it is kept now. */
  predicate CanLogin(s: State, v: Vault) {
    && s.credentials.Some? && NonEmpty(s.serverUrl)
    && (s.credentialsPersisted && !s.storedInPlaintext ==> v.available)
  }

  /** So an expired token can be handed out: in every state in which a login can succeed, some
      answer of the server makes it so. */
  lemma ExpiredTokenHandedOut(s: State, later: int, v: Vault) returns (r: Reply)
    requires CanLogin(s, v)
    ensures var (s', token) := AfterEnsure(s, v, r); token.Some? && !ValidJwt(s', later, 0)
  {
    r := Answer(Some("token"), Some(later));
    assert |"token"| == 5;
    EnsuredIsAsAnswered(s, later, v, r);
  }

  /** The exact condition: no answer of the server makes a login on demand hand out an expired
      token if and only if the state does not allow a login at all. */
  lemma NeverExpiredWhen(s: State, later: int, v: Vault)
    ensures !CanLogin(s, v) <==>
            forall r :: AfterEnsure(s, v, r).1.Some? ==> ValidJwt(AfterEnsure(s, v, r).0, later, 0)
  {
    if CanLogin(s, v) {
      var r := ExpiredTokenHandedOut(s, later, v);
    } else {
      forall r ensures AfterEnsure(s, v, r).1.None? {}
    }
  }

  /** Signing in, saving and restarting: a new service on the saved settings, once it knows a
      server that answers well, holds that answer's token and the credentials, and still keeps
      the password in the form it had. */
  lemma RestartSignsIn(s: State, c: Credentials, allowPlaintext: bool, v: Vault, url: string, r: Reply)
    requires Faithful(v) && c.username != "" && url != ""
    requires (v.available && v.encrypt(c.password).Some?) || (allowPlaintext && c.password != "")
    requires r.Answer? && NonEmpty(r.token) && r.expiresAt.Some?
    ensures var saved := AfterSave(s, c, allowPlaintext, v).settings;
            var started := AfterInit(Fresh(saved).(serverUrl := Some(url)), v, r);
            && started.jwt == r.token && started.jwtExpiresAt == r.expiresAt
            && started.credentials == Some(c) && started.credentialsPersisted
            && (Plaintext in started.settings <==> Plaintext in saved)
            && (Encrypted in started.settings <==> Encrypted in saved)
  {
    var saved := AfterSave(s, c, allowPlaintext, v).settings;
    var empty := Fresh(saved).(serverUrl := Some(url));
    RestartRemembers(s, c, allowPlaintext, v, url);
    SavedAgain(Remembered(empty, v), c, v, r);
  }

  lemma RestartRemembers(s: State, c: Credentials, allowPlaintext: bool, v: Vault, url: string)
    requires Faithful(v) && c.username != ""
    requires (v.available && v.encrypt(c.password).Some?) || (allowPlaintext && c.password != "")
    ensures var saved := AfterSave(s, c, allowPlaintext, v).settings;
            var s1 := Remembered(Fresh(saved).(serverUrl := Some(url)), v);
            && s1.credentials == Some(c) && s1.credentialsPersisted && s1.settings == saved
            && s1.serverUrl == Some(url)
            && (s1.storedInPlaintext <==> Plaintext in saved) && (Encrypted in saved <==> Plaintext !in saved)
            && (Encrypted in saved <==> v.available && v.encrypt(c.password).Some?)
  {
    var saved := AfterSave(s, c, allowPlaintext, v).settings;
    assert saved[Username] == Str(c.username);
  }

  lemma SavedAgain(s: State, c: Credentials, v: Vault, r: Reply)
    requires s.credentialsPersisted && NonEmpty(s.serverUrl)
    requires s.storedInPlaintext <==> !(v.available && v.encrypt(c.password).Some?)
    requires r.Answer? && NonEmpty(r.token) && r.expiresAt.Some?
    ensures var s' := AfterSilent(s, c, v, r);
            && s'.jwt == r.token && s'.jwtExpiresAt == r.expiresAt && s'.credentials == Some(c)
            && s'.credentialsPersisted
            && (Plaintext in s'.settings <==> s.storedInPlaintext)
            && (Encrypted in s'.settings <==> !s.storedInPlaintext)
  {
  }

  /** Nothing is signed in, and nothing is remembered or stored to sign in with. */
  ghost predicate Forgotten(s: State) {
    && s.credentials.None? && s.jwt.None?
    && Username !in s.settings && Encrypted !in s.settings && Plaintext !in s.settings
  }

  lemma {:induction false} StaysForgotten(s: State, ops: seq<Op>)
    requires Forgotten(s) && forall i :: 0 <= i < |ops| ==> !ops[i].DoLogin?
    ensures Forgotten(Run(s, ops))
    decreases |ops|
  {
    if ops != [] {
      assert Forgotten(Apply(s, ops[0]));
      assert forall i :: 0 <= i < |ops[1..]| ==> ops[1..][i] == ops[i + 1];
      StaysForgotten(Apply(s, ops[0]), ops[1..]);
    }
  }

  /** After signing out, nothing short of a new sign-in brings a session back: not a refresh,
      not a new server, not a restart of the service on the same settings. */
  lemma LogoutForgets(s: State, ops: seq<Op>, restarted: seq<Op>)
    requires forall i :: 0 <= i < |ops| ==> !ops[i].DoLogin?
    requires forall i :: 0 <= i < |restarted| ==> !restarted[i].DoLogin?
    ensures var later := Run(AfterLogout(s), ops);
            && later.jwt.None? && later.credentials.None?
            && Run(Fresh(later.settings), restarted).jwt.None?
            && Run(Fresh(later.settings), restarted).credentials.None?
  {
    StaysForgotten(AfterLogout(s), ops);
    StaysForgotten(Fresh(Run(AfterLogout(s), ops).settings), restarted);
  }
}
