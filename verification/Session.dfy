/** The desktop's gateway session: a short-lived token, credentials kept in memory, and
    their persisted form in the base plugin's settings. */
module Session {
  import opened Json
  import opened Wrappers

  datatype Credentials = Credentials(username: string, password: string)

  /** The base plugin's settings; the session owns the first four keys. */
  datatype Key = Username | Encrypted | Plaintext | Storage | GatewayUrl | Mode | Other(name: string)

  type Settings = map<Key, Json>

  /** The operating system's safe storage as it is now; None stands for a call that throws. */
  datatype Vault = Vault(available: bool, encrypt: string -> Option<string>, decrypt: string -> Option<string>)

  /** What the login request came back with. */
  datatype Reply =
    | NetworkError(message: string)
    | HttpError(message: string)
    | Answer(token: Option<string>, expiresAt: Option<int>)

  datatype State = State(
    serverUrl: Option<string>,
    jwt: Option<string>,
    jwtExpiresAt: Option<int>,
    credentials: Option<Credentials>,
    credentialsPersisted: bool,
    storedInPlaintext: bool,
    initialized: bool,
    lastError: Option<string>,
    settings: Settings)

  const REFRESH_BUFFER := 30000

  function Fresh(settings: Settings): State {
    State(None, None, None, None, false, false, false, None, settings)
  }

  /** A non-empty text, if the key holds one. */
  function Text(c: Settings, key: Key): Option<string> {
    if key in c && c[key].Str? && c[key].s != "" then Some(c[key].s) else None
  }

  predicate NonEmpty(text: Option<string>) { text.Some? && text.value != "" }

  predicate ValidJwt(s: State, now: int, buffer: int) {
    s.jwt.Some? && s.jwtExpiresAt.Some? && s.jwtExpiresAt.value > now + buffer
  }

  // ---- persisted credentials --------------------------------------------------------------

  function AfterClear(s: State): State {
    s.(settings := s.settings - {Username, Encrypted, Plaintext, Storage}, storedInPlaintext := false)
  }

  function AfterSave(s: State, c: Credentials, allowPlaintext: bool, v: Vault): State {
    var base := s.settings[Username := Str(c.username)] - {Encrypted, Plaintext, Storage};
    var cipher := if v.available then v.encrypt(c.password) else None;
    if cipher.Some? then
      s.(settings := base[Encrypted := Str(cipher.value)][Storage := Str("safeStorage")], storedInPlaintext := false)
    else if !allowPlaintext then
      s.(settings := base, credentialsPersisted := false, storedInPlaintext := false)
    else
      s.(settings := base[Plaintext := Str(c.password)][Storage := Str("plaintext")], storedInPlaintext := true)
  }

  const UNREADABLE := "Stored AIGateway credentials could not be decrypted"

  /** What is stored, and the state after looking: unreadable credentials are dropped. */
  function AfterLoad(s: State, v: Vault): (State, Option<Credentials>) {
    var username, encrypted := Text(s.settings, Username), Text(s.settings, Encrypted);
    var plain := Text(s.settings, Plaintext);
    if username.None? then (s, None)
    else if encrypted.Some? then
      var password := v.decrypt(encrypted.value);
      if password.Some? then (s.(storedInPlaintext := false), Some(Credentials(username.value, password.value)))
      else (AfterClear(s.(lastError := Some(UNREADABLE))), None)
    else if plain.None? then (s, None)
    else (s.(storedInPlaintext := true), Some(Credentials(username.value, plain.value)))
  }

  // ---- operations ----------------------------------------------------------------------------

  function WithoutJwt(s: State): State { s.(jwt := None, jwtExpiresAt := None) }

  /** A failed login and an expiry leave the same state: no token, and the reason. */
  function Dropped(s: State, message: string): State { WithoutJwt(s).(lastError := Some(message)) }

  const NO_SERVER := "SF server is not running. Start the Desktop server and try again."
  const NO_ENCRYPTION :=
    "OS-provided encryption is unavailable. Uncheck \"Save password\" to sign in for this Desktop "
    + "session only, or allow plaintext storage."
  const INVALID_SESSION := "Gateway login returned an invalid session"
  const EXPIRED := "AIGateway session expired"
  const LOGIN_REQUIRED := "AIGateway login required"

  /** Why a login cannot succeed, if it cannot. */
  function LoginProblem(s: State, persist: bool, allowPlaintext: bool, v: Vault, r: Reply): Option<string> {
    if !NonEmpty(s.serverUrl) then Some(NO_SERVER)
    else if persist && !v.available && !allowPlaintext then Some(NO_ENCRYPTION)
    else if !r.Answer? then Some(r.message)
    else if !NonEmpty(r.token) || r.expiresAt.None? then Some(INVALID_SESSION)
    else None
  }

  function AfterLogin(s: State, c: Credentials, persist: bool, allowPlaintext: bool, v: Vault, r: Reply): State {
    var problem := LoginProblem(s, persist, allowPlaintext, v, r);
    if problem.Some? then Dropped(s, problem.value)
    else
      var s1 := s.(jwt := r.token, jwtExpiresAt := r.expiresAt, credentials := Some(c),
                   credentialsPersisted := persist, lastError := None);
      if persist then AfterSave(s1, c, allowPlaintext, v) else AfterClear(s1)
  }

  /** A login the user did not ask for: it keeps to what was already persisted, and how. */
  function AfterSilent(s: State, c: Credentials, v: Vault, r: Reply): State {
    AfterLogin(s, c, s.credentialsPersisted, s.storedInPlaintext, v, r)
  }

  predicate SilentWorks(s: State, v: Vault, r: Reply) {
    LoginProblem(s, s.credentialsPersisted, s.storedInPlaintext, v, r).None?
  }

  function Remembered(s: State, v: Vault): State {
    var (s1, c) := AfterLoad(s.(initialized := true), v);
    s1.(credentials := c, credentialsPersisted := c.Some?)
  }

  function AfterInit(s: State, v: Vault, r: Reply): State {
    if s.initialized then s
    else
      var s1 := Remembered(s, v);
      if NonEmpty(s1.serverUrl) && s1.credentials.Some? then AfterSilent(s1, s1.credentials.value, v, r) else s1
  }

  function AfterSetServerUrl(s: State, url: Option<string>, v: Vault, r: Reply): State {
    if s.serverUrl == url then s
    else
      var s1 := WithoutJwt(s.(serverUrl := url));
      if s1.initialized && NonEmpty(url) && s1.credentials.Some? then AfterSilent(s1, s1.credentials.value, v, r)
      else s1
  }

  /** `now` is read before and `later` after the silent login. */
  function AfterGetJwt(s: State, now: int, later: int, v: Vault, r: Reply): (State, Option<string>) {
    if ValidJwt(s, now, REFRESH_BUFFER) then (s, s.jwt)
    else
      var s1 := WithoutJwt(s);
      var s2 := if s1.credentials.Some? then AfterSilent(s1, s1.credentials.value, v, r) else s1;
      if s1.credentials.Some? && SilentWorks(s1, v, r) && ValidJwt(s2, later, REFRESH_BUFFER) then (s2, s2.jwt)
      else (if s.jwt.Some? then Dropped(s2, EXPIRED) else s2, None)
  }

  function AfterEnsure(s: State, v: Vault, r: Reply): (State, Option<string>) {
    if s.credentials.None? then (Dropped(s, LOGIN_REQUIRED), None)
    else
      var s1 := AfterSilent(s, s.credentials.value, v, r);
      (s1, if SilentWorks(s, v, r) then s1.jwt else None)
  }

  function AfterLogout(s: State): State {
    AfterClear(WithoutJwt(s).(credentials := None, credentialsPersisted := false, lastError := None))
  }

  function AfterSetGatewayUrl(s: State, url: string): State {
    WithoutJwt(s.(settings := s.settings[GatewayUrl := Str(url)][Mode := Str("external")]))
  }

  // ---- the service -----------------------------------------------------------------------------

  class Service {
    var serverUrl: Option<string>
    var jwt: Option<string>
    var jwtExpiresAt: Option<int>
    var credentials: Option<Credentials>
    var credentialsPersisted: bool
    var storedInPlaintext: bool
    var initialized: bool
    var lastError: Option<string>
    var settings: Settings

    constructor (settings: Settings)
      ensures Now() == Fresh(settings)
    {
      serverUrl, jwt, jwtExpiresAt, credentials := None, None, None, None;
      credentialsPersisted, storedInPlaintext, initialized, lastError := false, false, false, None;
      this.settings := settings;
    }

    ghost function Now(): State
      reads this
    {
      State(serverUrl, jwt, jwtExpiresAt, credentials, credentialsPersisted, storedInPlaintext, initialized,
            lastError, settings)
    }

    method Init(v: Vault, r: Reply)
      modifies this
      ensures Now() == AfterInit(old(Now()), v, r)
    {
      if initialized {
        return;
      }
      initialized := true;
      credentials := LoadCredentials(v);
      credentialsPersisted := credentials.Some?;
      if NonEmpty(serverUrl) && credentials.Some? {
        var _ := Login(credentials.value, credentialsPersisted, storedInPlaintext, v, r);
      }
    }

    method SetServerUrl(url: Option<string>, v: Vault, r: Reply)
      modifies this
      ensures Now() == AfterSetServerUrl(old(Now()), url, v, r)
    {
      if serverUrl == url {
        return;
      }
      serverUrl := url;
      ClearJwtOnly();
      if initialized && NonEmpty(serverUrl) && credentials.Some? {
        var _ := Login(credentials.value, credentialsPersisted, storedInPlaintext, v, r);
      }
    }

    method HasValidJwt(now: int, buffer: int) returns (valid: bool)
      ensures valid <==> ValidJwt(Now(), now, buffer)
    {
      if jwt.None? || jwtExpiresAt.None? {
        return false;
      }
      return jwtExpiresAt.value > now + buffer;
    }

    method GetJwt(now: int, later: int, v: Vault, r: Reply) returns (token: Option<string>)
      modifies this
      ensures (Now(), token) == AfterGetJwt(old(Now()), now, later, v, r)
    {
      var valid := HasValidJwt(now, REFRESH_BUFFER);
      if valid {
        return jwt;
      }
      var hadJwt := jwt.Some?;
      ClearJwtOnly();
      if credentials.Some? {
        var ok := Login(credentials.value, credentialsPersisted, storedInPlaintext, v, r);
        valid := HasValidJwt(later, REFRESH_BUFFER);
        if ok && valid {
          return jwt;
        }
      }
      if hadJwt {
        NotifyExpired(EXPIRED);
      }
      return None;
    }

    method EnsureLoggedIn(v: Vault, r: Reply) returns (token: Option<string>)
      modifies this
      ensures (Now(), token) == AfterEnsure(old(Now()), v, r)
    {
      if credentials.None? {
        NotifyExpired(LOGIN_REQUIRED);
        return None;
      }
      var ok := Login(credentials.value, credentialsPersisted, storedInPlaintext, v, r);
      if ok {
        return jwt;
      }
      NotifyExpired(lastError.value);
      return None;
    }

    method Login(c: Credentials, persist: bool, allowPlaintext: bool, v: Vault, r: Reply) returns (ok: bool)
      modifies this
      ensures Now() == AfterLogin(old(Now()), c, persist, allowPlaintext, v, r)
      ensures ok <==> LoginProblem(old(Now()), persist, allowPlaintext, v, r).None?
    {
      if !NonEmpty(serverUrl) {
        NotifyExpired(NO_SERVER);
        return false;
      }
      if persist && !v.available && !allowPlaintext {
        NotifyExpired(NO_ENCRYPTION);
        return false;
      }
      if !r.Answer? {
        NotifyExpired(r.message);
        return false;
      }
      if !NonEmpty(r.token) || r.expiresAt.None? {
        NotifyExpired(INVALID_SESSION);
        return false;
      }
      jwt, jwtExpiresAt, credentials := r.token, r.expiresAt, Some(c);
      credentialsPersisted, lastError := persist, None;
      if persist {
        SaveCredentials(c, allowPlaintext, v);
      } else {
        ClearPersistedCredentials();
      }
      return true;
    }

    method Logout()
      modifies this
      ensures Now() == AfterLogout(old(Now()))
    {
      ClearJwtOnly();
      credentials, credentialsPersisted, lastError := None, false, None;
      ClearPersistedCredentials();
    }

    method SetGatewayUrl(url: string)
      modifies this
      ensures Now() == AfterSetGatewayUrl(old(Now()), url)
    {
      settings := settings[GatewayUrl := Str(url)];
      settings := settings[Mode := Str("external")];
      ClearJwtOnly();
    }

    method ClearJwtOnly()
      modifies this`jwt, this`jwtExpiresAt
      ensures Now() == WithoutJwt(old(Now()))
    {
      jwt, jwtExpiresAt := None, None;
    }

    /** Also what a failed login does. */
    method NotifyExpired(message: string)
      modifies this`jwt, this`jwtExpiresAt, this`lastError
      ensures Now() == Dropped(old(Now()), message)
    {
      ClearJwtOnly();
      lastError := Some(message);
    }

    method LoadCredentials(v: Vault) returns (c: Option<Credentials>)
      modifies this`settings, this`storedInPlaintext, this`lastError
      ensures (Now(), c) == AfterLoad(old(Now()), v)
    {
      var username := Text(settings, Username);
      if username.None? {
        return None;
      }
      var encrypted := Text(settings, Encrypted);
      if encrypted.Some? {
        storedInPlaintext := false;
        var password := v.decrypt(encrypted.value);
        if password.Some? {
          return Some(Credentials(username.value, password.value));
        }
        lastError := Some(UNREADABLE);
        ClearPersistedCredentials();
        return None;
      }
      var plain := Text(settings, Plaintext);
      if plain.None? {
        return None;
      }
      storedInPlaintext := true;
      return Some(Credentials(username.value, plain.value));
    }

    method SaveCredentials(c: Credentials, allowPlaintext: bool, v: Vault)
      modifies this`settings, this`storedInPlaintext, this`credentialsPersisted
      ensures Now() == AfterSave(old(Now()), c, allowPlaintext, v)
    {
      var base := settings[Username := Str(c.username)];
      base := base - {Encrypted, Plaintext, Storage};
      if v.available {
        var cipher := v.encrypt(c.password);
        if cipher.Some? {
          base := base[Encrypted := Str(cipher.value)];
          base := base[Storage := Str("safeStorage")];
          storedInPlaintext := false;
          settings := base;
          return;
        }
        if !allowPlaintext {
          settings, credentialsPersisted, storedInPlaintext := base, false, false;
          return;
        }
      }
      if !allowPlaintext {
        settings, credentialsPersisted, storedInPlaintext := base, false, false;
        return;
      }
      base := base[Plaintext := Str(c.password)];
      base := base[Storage := Str("plaintext")];
      storedInPlaintext := true;
      settings := base;
    }

    method ClearPersistedCredentials()
      modifies this`settings, this`storedInPlaintext
      ensures Now() == AfterClear(old(Now()))
    {
      settings := settings - {Username, Encrypted, Plaintext, Storage};
      storedInPlaintext := false;
    }
  }
}
