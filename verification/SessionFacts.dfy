/** What single session operations do to the state and the stored settings. */
module SessionFacts {
  import opened Json
  import opened Session
  import opened Wrappers

  predicate Encrypts(c: Credentials, v: Vault) { v.available && v.encrypt(c.password).Some? }

  /** The server answered with a token and an expiry. */
  predicate BringsToken(r: Reply) { r.Answer? && r.token.Some? && r.token.value != "" && r.expiresAt.Some? }

  /** There are credentials and a server, and the password can be kept as it is kept now. */
  predicate Ready(s: State, v: Vault) {
    && s.credentials.Some? && s.serverUrl.Some? && s.serverUrl.value != ""
    && (s.credentialsPersisted && !s.storedInPlaintext ==> v.available)
  }

  /** After saving, the password is stored as ciphertext exactly when encryption works, in the
      clear exactly when it does not and that was allowed, and the flags say which; every
      setting that is not the session's stays. */
  lemma SaveForms(s: State, c: Credentials, allowPlaintext: bool, v: Vault, key: Key)
    ensures var s' := AfterSave(s, c, allowPlaintext, v);
            && (Encrypted in s'.settings <==> Encrypts(c, v))
            && (Plaintext in s'.settings <==> !Encrypts(c, v) && allowPlaintext)
            && (s'.storedInPlaintext <==> Plaintext in s'.settings)
            && (Storage in s'.settings <==> Encrypts(c, v) || allowPlaintext)
            && (Storage in s'.settings ==>
                  s'.settings[Storage] == Str(if Encrypts(c, v) then "safeStorage" else "plaintext"))
            && (s'.credentialsPersisted <==> s.credentialsPersisted && (Encrypts(c, v) || allowPlaintext))
            && s'.jwt == s.jwt && s'.jwtExpiresAt == s.jwtExpiresAt && s'.credentials == s.credentials
            && (key !in {Username, Encrypted, Plaintext, Storage} ==>
                  (key in s'.settings <==> key in s.settings)
                  && (key in s.settings ==> s'.settings[key] == s.settings[key]))
  {
  }

  /** Credentials are found exactly when a name and a readable password form are stored, the
      ciphertext deciding if there is one; a ciphertext that cannot be read is removed. */
  lemma LoadFinds(s: State, v: Vault)
    ensures var (s', c) := AfterLoad(s, v);
            var name, cipher := Text(s.settings, Username), Text(s.settings, Encrypted);
            var plain := Text(s.settings, Plaintext);
            && (c.Some? <==> name.Some? && if cipher.Some? then v.decrypt(cipher.value).Some? else plain.Some?)
            && (c.Some? ==> c.value.username == name.value && s'.settings == s.settings
                            && (s'.storedInPlaintext <==> cipher.None?))
            && (name.Some? && cipher.Some? && c.None? ==>
                  Username !in s'.settings && Encrypted !in s'.settings && Plaintext !in s'.settings)
  {
  }

  /** A login succeeds exactly when the server is known, the password may be kept as asked, and
      the answer is a token with an expiry. Then that token is held; otherwise none is, the
      reason is kept, and nothing that was stored or remembered changes. */
  lemma LoginOutcome(s: State, c: Credentials, persist: bool, allowPlaintext: bool, v: Vault, r: Reply)
    ensures var s' := AfterLogin(s, c, persist, allowPlaintext, v, r);
            if && NonEmpty(s.serverUrl) && (persist ==> v.available || allowPlaintext)
               && r.Answer? && NonEmpty(r.token) && r.expiresAt.Some?
            then
              && s'.jwt == r.token && s'.jwtExpiresAt == r.expiresAt
              && s'.credentials == Some(c) && s'.lastError.None?
            else
              && s'.jwt.None? && s'.jwtExpiresAt.None? && s'.lastError.Some?
              && s'.credentials == s.credentials && s'.settings == s.settings
  {
  }

  /** The reason a failed login leaves: the first that applies. */
  lemma LoginReasons(s: State, c: Credentials, persist: bool, allowPlaintext: bool, v: Vault, r: Reply)
    ensures AfterLogin(s, c, persist, allowPlaintext, v, r).lastError ==
            if s.serverUrl.None? || s.serverUrl.value == "" then Some(NO_SERVER)
            else if persist && !v.available && !allowPlaintext then Some(NO_ENCRYPTION)
            else if r.NetworkError? || r.HttpError? then Some(r.message)
            else if BringsToken(r) then None
            else Some(INVALID_SESSION)
  {
  }

  /** What these say. */
  lemma ReasonTexts()
    ensures NO_SERVER == "SF server is not running. Start the Desktop server and try again."
    ensures INVALID_SESSION == "Gateway login returned an invalid session"
    ensures NO_ENCRYPTION ==
            "OS-provided encryption is unavailable. Uncheck \"Save password\" to sign in for this Desktop "
            + "session only, or allow plaintext storage."
  {
  }

  /** The reasons of the other operations. */
  lemma OtherReasons(s: State, now: int, later: int, v: Vault, r: Reply)
    ensures s.credentials.None? ==> AfterEnsure(s, v, r).0.lastError == Some("AIGateway login required")
    ensures s.jwt.Some? && AfterGetJwt(s, now, later, v, r).1.None? ==>
              AfterGetJwt(s, now, later, v, r).0.lastError == Some("AIGateway session expired")
    ensures Text(s.settings, Username).Some? && Text(s.settings, Encrypted).Some? && AfterLoad(s, v).1.None? ==>
              AfterLoad(s, v).0.lastError == Some("Stored AIGateway credentials could not be decrypted")
  {
  }

  /** A service before its first start knows nothing. */
  lemma FreshKnowsNothing(settings: Settings)
    ensures var s := Fresh(settings);
            && s.serverUrl.None? && s.jwt.None? && s.jwtExpiresAt.None? && s.credentials.None? && s.lastError.None?
            && !s.credentialsPersisted && !s.storedInPlaintext && !s.initialized && s.settings == settings
  {
  }

  /** Signing out removes every key of the session and no other. */
  lemma LogoutClears(s: State, key: Key)
    ensures var s' := AfterLogout(s);
            && s'.jwt.None? && s'.credentials.None? && s'.lastError.None?
            && !s'.credentialsPersisted && !s'.storedInPlaintext
            && (key in s'.settings <==> key in s.settings && key !in {Username, Encrypted, Plaintext, Storage})
            && (key in s'.settings ==> s'.settings[key] == s.settings[key])
  {
  }

  lemma LoginKeepsStart(s: State, c: Credentials, v: Vault, r: Reply)
    ensures AfterSilent(s, c, v, r).initialized == s.initialized
  {
  }

  lemma RememberedStarts(s: State, v: Vault)
    ensures Remembered(s, v).initialized
  {
  }

  /** Only the first start looks at what is stored: the second changes nothing. */
  lemma InitOnce(s: State, v: Vault, r: Reply, v': Vault, r': Reply)
    ensures AfterInit(AfterInit(s, v, r), v', r') == AfterInit(s, v, r)
  {
    var s1 := Remembered(s, v);
    RememberedStarts(s, v);
    if s1.credentials.Some? {
      LoginKeepsStart(s1, s1.credentials.value, v, r);
    }
    assert AfterInit(s, v, r).initialized;
  }

  /** Exactly when a refresh hands out a token, and which: the held one while it is good for
      another half minute; else the answer's, if a silent login could be made and brought one
      that is good for that long afterwards. */
  lemma GetJwtHandsOut(s: State, now: int, later: int, v: Vault, r: Reply)
    ensures var (s', token) := AfterGetJwt(s, now, later, v, r);
            if s.jwt.Some? && s.jwtExpiresAt.Some? && s.jwtExpiresAt.value > now + 30000 then
              token == s.jwt && s' == s
            else if Ready(s, v) && BringsToken(r) && r.expiresAt.value > later + 30000 then
              token == r.token && s'.jwt == r.token && s'.jwtExpiresAt == r.expiresAt
            else token.None?
  {
  }

  /** And what is left when none is: no token, but for one the login brought too close to its end
      to a session that had none; what is stored is what the login kept, or as it was. */
  lemma GetJwtLeaves(s: State, now: int, later: int, v: Vault, r: Reply)
    requires AfterGetJwt(s, now, later, v, r).1.None?
    ensures var s' := AfterGetJwt(s, now, later, v, r).0;
            && s'.jwt == (if s.jwt.None? && Ready(s, v) && BringsToken(r) then r.token else None)
            && s'.credentials == s.credentials
            && if Ready(s, v) && BringsToken(r) then
                 && (Username in s'.settings <==> s.credentialsPersisted)
                 && (Plaintext in s'.settings <==>
                       s.credentialsPersisted && s.storedInPlaintext && !Encrypts(s.credentials.value, v))
               else s'.settings == s.settings
  {
    if s.credentials.Some? && Ready(s, v) && BringsToken(r) {
      LoginStores(WithoutJwt(s), s.credentials.value, s.credentialsPersisted, s.storedInPlaintext, v, r);
    }
  }

  /** A login on demand hands out the answer's token, exactly when it could be made and brought one. */
  lemma EnsureHandsOut(s: State, v: Vault, r: Reply)
    ensures var (s', token) := AfterEnsure(s, v, r);
            && s'.jwt == token
            && token == if Ready(s, v) && BringsToken(r) then r.token else None
  {
  }

  /** The same server changes nothing. A new one costs the token, and gets one of its own exactly
      when the service has started, a silent login can be made there, and it brings one. */
  lemma ServerChange(s: State, url: Option<string>, v: Vault, r: Reply)
    ensures var s' := AfterSetServerUrl(s, url, v, r);
            && s'.serverUrl == url
            && if s.serverUrl == url then s' == s
               else if s.initialized && Ready(s.(serverUrl := url), v) && BringsToken(r) then
                 s'.jwt == r.token && s'.jwtExpiresAt == r.expiresAt
               else s'.jwt.None? && s'.jwtExpiresAt.None?
  {
  }

  /** A first start that finds credentials, and knows a server, signs in exactly when the stored
      form can be kept and the answer brings a token; one that does not leaves the token alone. */
  lemma FirstStart(s: State, v: Vault, r: Reply)
    requires !s.initialized
    ensures var found, s' := AfterLoad(s, v).1, AfterInit(s, v, r);
            var cipher := Text(s.settings, Encrypted);
            && s'.initialized && s'.credentials == found
            && if found.None? || s.serverUrl.None? || s.serverUrl.value == "" then
                 s'.jwt == s.jwt && s'.credentialsPersisted == found.Some?
               else if (cipher.Some? ==> v.available) && BringsToken(r) then s'.jwt == r.token
               else s'.jwt.None?
  {
    var s1 := Remembered(s, v);
    RememberedForms(s, v);
    if s1.credentials.Some? {
      LoginOutcome(s1, s1.credentials.value, s1.credentialsPersisted, s1.storedInPlaintext, v, r);
      LoginKeepsStart(s1, s1.credentials.value, v, r);
    }
  }

  lemma RememberedForms(s: State, v: Vault)
    ensures var found, s1 := AfterLoad(s, v).1, Remembered(s, v);
            && s1.initialized && s1.credentials == found && (s1.credentialsPersisted <==> found.Some?)
            && s1.jwt == s.jwt && s1.serverUrl == s.serverUrl
            && (found.Some? ==> (s1.storedInPlaintext <==> Text(s.settings, Encrypted).None?))
  {
  }

  /** A login that is not to be kept removes what was stored; one that is keeps the password in
      the form its storage allows, and the memory says what was achieved. */
  lemma LoginStores(s: State, c: Credentials, persist: bool, allowPlaintext: bool, v: Vault, r: Reply)
    requires s.serverUrl.Some? && s.serverUrl.value != "" && BringsToken(r)
    requires persist ==> v.available || allowPlaintext
    ensures var s' := AfterLogin(s, c, persist, allowPlaintext, v, r);
            && (Username in s'.settings <==> persist)
            && (Encrypted in s'.settings <==> persist && Encrypts(c, v))
            && (Plaintext in s'.settings <==> persist && !Encrypts(c, v) && allowPlaintext)
            && (s'.credentialsPersisted <==> persist && (Encrypts(c, v) || allowPlaintext))
            && (s'.storedInPlaintext <==> Plaintext in s'.settings)
  {
  }

  /** A new gateway costs the token of the old one; what is remembered and stored to sign in
      with stays, and so does every setting but the gateway's two. */
  lemma GatewayChange(s: State, url: string, key: Key)
    ensures var s' := AfterSetGatewayUrl(s, url);
            && s'.jwt.None? && s'.jwtExpiresAt.None? && s'.credentials == s.credentials
            && GatewayUrl in s'.settings && s'.settings[GatewayUrl] == Str(url)
            && Mode in s'.settings && s'.settings[Mode] == Str("external")
            && (key != GatewayUrl && key != Mode ==>
                  (key in s'.settings <==> key in s.settings)
                  && (key in s.settings ==> s'.settings[key] == s.settings[key]))
  {
  }
}
