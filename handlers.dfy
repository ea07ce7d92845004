/**
 * `AppState` and the HTTP handlers of nextgen/src/main.rs that read or change
 * it. The shared state sits behind a mutex in the firmware; here it is one
 * object, and each handler runs to completion before the next starts.
 * Everything a handler takes from the outside world (the clock, random
 * bytes, the key derivation, SHA-256, refused NVS writes) arrives in `Env`.
 */
module Handlers {
  import opened Wrappers
  import opened Rust
  import opened Crypto
  import opened Session
  import opened Account
  import opened Persistence
  import opened Firmware
  import opened Http
  import opened Auth

  /** Minimum byte length of a trimmed password at provisioning. */
  const MinPasswordLen: nat := 8

  datatype WifiStatus = WifiStatus(mode: string, ssid: string, connected: bool, rssi: Option<int>, ip: Option<string>)
  datatype RelayStatus = RelayStatus(state: string, lastChange: Option<string>)

  /** `WifiStatus::default`: the device's own access point. */
  const DefaultWifiStatus: WifiStatus := WifiStatus("AP", "Solar-Heater", false, None, Some("192.168.4.1"))
  /** `RelayStatus::default`. */
  const DefaultRelayStatus: RelayStatus := RelayStatus("off", None)

  /**
   * The outside world as one request sees it: seconds on the system clock,
   * the same instant as RFC 3339 text, the bytes `OsRng` hands out for a salt
   * and for a token, PBKDF2, SHA-256, and the NVS steps the flash refuses.
   */
  datatype Env = Env(
    now: int,
    clockText: string,
    salt: Salt,
    random: Bytes32,
    kdf: Kdf,
    sha: Sha256,
    nvsFailures: set<nat>)

  /** The fields of `AppState` this model keeps, as a value. */
  datatype AppSnapshot = AppSnapshot(
    wifi: WifiStatus,
    relay: RelayStatus,
    firmware: Option<FirmwareInfo>,
    credentials: CredentialsData,
    provisioned: bool)

  /** Only a provisioned device ever holds a session. */
  predicate SessionNeedsProvisioning(s: AppSnapshot) {
    !s.provisioned ==> s.credentials.token.None?
  }

  /** `load_persistent_state` panics on a salt text `hex_decode` cannot slice. */
  predicate LoadDoesNotPanic(m: Entries) {
    Load(m) != Err(SaltDecodePanic)
  }

  /**
   * `AppState::default`: the stored account if there is one, otherwise (nothing
   * stored, or the record unreadable) admin/admin under a fresh salt, unprovisioned.
   */
  function BootState(m: Entries, salt: Salt, kdf: Kdf): (s: AppSnapshot)
    requires LoadDoesNotPanic(m)
    ensures SessionNeedsProvisioning(s) && s.credentials.token.None?
    ensures s.wifi == DefaultWifiStatus && s.relay == DefaultRelayStatus && s.firmware.None?
    ensures s.provisioned <==> Load(m).Ok? && Load(m).value.Some?
    ensures s.provisioned ==> s.credentials == Load(m).value.value.credentials
    ensures !s.provisioned ==> s.credentials == NewCredentials(DefaultUsername, DefaultPassword, salt, kdf)
  {
    match Load(m)
    case Ok(Some(p)) => AppSnapshot(DefaultWifiStatus, DefaultRelayStatus, None, p.credentials, p.provisioned)
    case _ => AppSnapshot(DefaultWifiStatus, DefaultRelayStatus, None,
                NewCredentials(DefaultUsername, DefaultPassword, salt, kdf), false)
  }

  /** The user name `handle_post_provisioning` keeps: the trimmed request value, or "admin" when there is none. */
  function ProvisioningUsername(username: Option<string>): (name: string)
    ensures name != []
    ensures username.Some? && Trim(username.value) != [] ==> name == Trim(username.value)
    ensures username.None? || Trim(username.value) == [] ==> name == DefaultUsername
  {
    if username.Some? && Trim(username.value) != [] then Trim(username.value) else DefaultUsername
  }

  /** `handle_get_provisioning`: the user name is disclosed only once provisioned. */
  function ProvisioningStatus(s: AppSnapshot): (r: Response)
    ensures r.status == 200 && r.body.ProvisioningStatusBody? && r.body.provisioned == s.provisioned
    ensures r.body.shownUsername.Some? <==> s.provisioned
    ensures s.provisioned ==> r.body.shownUsername == Some(s.credentials.username)
  {
    RespondJson(200, ProvisioningStatusBody(s.provisioned, if s.provisioned then Some(s.credentials.username) else None))
  }

  /**
   * `handle_post_provisioning`: refused once provisioned (409) or for a short
   * password (400); otherwise the new account is stored and, if that worked, a
   * session is opened. A failed store rolls the state back (500).
   */
  function Provision(s: AppSnapshot, m: Entries, username: Option<string>, password: string, env: Env)
    : (r: (AppSnapshot, Entries, Response))
    ensures s.provisioned ==> r == (s, m, RespondError(409, "Already provisioned"))
    ensures !s.provisioned && Utf8Len(Trim(password)) < MinPasswordLen ==> r.0 == s && r.1 == m && r.2.status == 400
    ensures r.2.status == 200 <==>
      !s.provisioned && Utf8Len(Trim(password)) >= MinPasswordLen
      && PersistEffect(m, NewCredentials(ProvisioningUsername(username), password, env.salt, env.kdf), true, env.nvsFailures).1
    ensures r.2.status != 200 ==> r.0 == s
    ensures !s.provisioned && Utf8Len(Trim(password)) >= MinPasswordLen ==>
      var created := NewCredentials(ProvisioningUsername(username), password, env.salt, env.kdf);
      r.1 == PersistEffect(m, created, true, env.nvsFailures).0
      && (!PersistEffect(m, created, true, env.nvsFailures).1 ==> r.2 == RespondError(500, "Failed to persist credentials"))
      && (PersistEffect(m, created, true, env.nvsFailures).1 ==>
            r.0 == s.(credentials := Issued(created, env.random, env.now), provisioned := true))
    ensures r.2.status == 200 ==>
      r.0.provisioned && r.0.credentials.username == ProvisioningUsername(username)
      && PasswordMatches(r.0.credentials, password, env.kdf)
      && r.2.body == ProvisionedBody(GenerateToken(env.random), ProvisioningUsername(username), IdleTimeoutSeconds)
      && Validate(r.0.credentials, GenerateToken(env.random), env.now).1 == Authorized
    ensures SessionNeedsProvisioning(s) ==> SessionNeedsProvisioning(r.0)
  {
    if s.provisioned then (s, m, RespondError(409, "Already provisioned"))
    else
      var name := ProvisioningUsername(username);
      if Utf8Len(Trim(password)) < MinPasswordLen then
        (s, m, RespondError(400, "Password must be at least 8 characters"))
      else
        var created := NewCredentials(name, password, env.salt, env.kdf);
        var (stored, ok) := PersistEffect(m, created, true, env.nvsFailures);
        if !ok then (s, stored, RespondError(500, "Failed to persist credentials"))
        else
          var issued := Issued(created, env.random, env.now);
          (s.(credentials := issued, provisioned := true), stored,
           RespondJson(200, ProvisionedBody(GenerateToken(env.random), name, IdleTimeoutSeconds)))
  }

  /**
   * `handle_login`: 423 until provisioned; 401 unless both the user name and
   * the password match; otherwise a new session replaces the old one.
   */
  function Login(s: AppSnapshot, username: string, password: string, env: Env): (r: (AppSnapshot, Response))
    ensures r.1.status == 200 <==>
      s.provisioned && username == s.credentials.username && PasswordMatches(s.credentials, password, env.kdf)
    ensures !s.provisioned ==> r == (s, RespondError(423, "Provisioning required"))
    ensures s.provisioned && r.1.status != 200 ==> r == (s, RespondError(401, "Invalid credentials"))
    ensures r.1.status == 200 ==>
      r.0 == s.(credentials := Issued(s.credentials, env.random, env.now))
      && r.1.body == TokenBody(GenerateToken(env.random), IdleTimeoutSeconds)
    ensures SessionNeedsProvisioning(s) ==> SessionNeedsProvisioning(r.0)
  {
    if !s.provisioned then (s, RespondError(423, "Provisioning required"))
    else if username != s.credentials.username then (s, RespondError(401, "Invalid credentials"))
    else if !ConstantTimeEquals(DerivePasswordHash(env.kdf, password, s.credentials.salt), s.credentials.passwordHash) then
      (s, RespondError(401, "Invalid credentials"))
    else
      (s.(credentials := Issued(s.credentials, env.random, env.now)),
       RespondJson(200, TokenBody(GenerateToken(env.random), IdleTimeoutSeconds)))
  }

  /**
   * `authorize`: no header is Missing; a header without a usable bearer token is
   * Invalid; otherwise the token is validated, which may touch or drop the session.
   */
  function Authorization(s: AppSnapshot, header: Option<string>, now: int): (r: (AppSnapshot, Result<(), AuthorizationFailure>))
    ensures r.1.Ok? <==>
      header.Some? && ExtractBearerToken(header.value).Some?
      && Validate(s.credentials, ExtractBearerToken(header.value).value, now).1 == Authorized
    ensures r.1 == Err(AuthorizationFailure.Expired) <==>
      header.Some? && ExtractBearerToken(header.value).Some?
      && Validate(s.credentials, ExtractBearerToken(header.value).value, now).1 == TokenValidation.Expired
    ensures r.1 == Err(Missing) <==> header.None?
    ensures r.0 == s.(credentials := r.0.credentials)
    ensures r.0.credentials.username == s.credentials.username
      && r.0.credentials.passwordHash == s.credentials.passwordHash
      && r.0.credentials.salt == s.credentials.salt
    ensures r.0.credentials.token.Some? ==> s.credentials.token.Some?
    ensures header.None? || ExtractBearerToken(header.value).None? ==> r.0 == s
    ensures header.Some? && ExtractBearerToken(header.value).Some? ==>
      r.0 == s.(credentials := Validate(s.credentials, ExtractBearerToken(header.value).value, now).0)
  {
    match header
    case None => (s, Err(Missing))
    case Some(value) =>
      match ExtractBearerToken(value)
      case None => (s, Err(AuthorizationFailure.Invalid))
      case Some(token) =>
        var (c, outcome) := Validate(s.credentials, token, now);
        (s.(credentials := c),
         match outcome
         case Authorized => Ok(())
         case Expired => Err(AuthorizationFailure.Expired)
         case Invalid => Err(AuthorizationFailure.Invalid))
  }

  /** `handle_logout`: an authorized caller ends the session (204). */
  function Logout(s: AppSnapshot, header: Option<string>, now: int): (r: (AppSnapshot, Response))
    ensures r.1.status == 204 <==> Authorization(s, header, now).1.Ok?
    ensures r.1.status == 204 ==> r.0 == s.(credentials := s.credentials.(token := None))
    ensures r.1.status != 204 ==>
      r == (Authorization(s, header, now).0, RespondUnauthorized(Authorization(s, header, now).1.error))
  {
    var (authorized, outcome) := Authorization(s, header, now);
    if outcome.Err? then (authorized, RespondUnauthorized(outcome.error))
    else (authorized.(credentials := authorized.credentials.(token := None)), RespondEmpty(204))
  }

  /** `handle_relay`: "on" and "off" switch the relay and stamp the time; anything else is 400. */
  function SetRelay(s: AppSnapshot, state: string, env: Env): (r: (AppSnapshot, Response))
    ensures r.1.status == 200 <==> state == "on" || state == "off"
    ensures r.1.status == 200 ==>
      r.0 == s.(relay := RelayStatus(state, Some(env.clockText)))
      && r.1.body == RelayBody(state, Some(env.clockText))
    ensures r.1.status != 200 ==> r.0 == s && r.1.status == 400
    ensures r.1.headers == []
  {
    if state == "on" || state == "off" then
      var relay := RelayStatus(state, Some(env.clockText));
      (s.(relay := relay), RespondJson(200, RelayBody(relay.state, relay.lastChange)))
    else
      (s, RespondError(400, "Relay state must be 'on' or 'off'"))
  }

  /**
   * `handle_wifi_save`: a blank SSID is 400; otherwise the status switches to
   * station mode on that SSID (kept untrimmed), not yet connected.
   */
  function SaveWifi(s: AppSnapshot, ssid: string): (r: (AppSnapshot, Response))
    ensures r.1.status == 200 <==> Trim(ssid) != []
    ensures r.1.status == 200 ==> r.0 == s.(wifi := WifiStatus("STA", ssid, false, None, None))
    ensures r.1.status != 200 ==> r.0 == s && r.1 == RespondError(400, "SSID cannot be empty")
    ensures r.1.headers == []
  {
    if Trim(ssid) == [] then (s, RespondError(400, "SSID cannot be empty"))
    else (s.(wifi := WifiStatus("STA", ssid, false, None, None)), RespondJson(200, FlagBody("saved")))
  }

  /**
   * `handle_password_change`: a blank new password is 400, a wrong current one
   * 401; otherwise new salt and hash, the session ends, and the record is
   * stored. A failed store restores the old credentials (500).
   */
  function ChangePassword(s: AppSnapshot, m: Entries, current: string, newPassword: string, env: Env)
    : (r: (AppSnapshot, Entries, Response))
    ensures Trim(newPassword) == [] ==> r == (s, m, RespondError(400, "New password cannot be empty"))
    ensures Trim(newPassword) != [] && !PasswordMatches(s.credentials, current, env.kdf) ==>
      r == (s, m, RespondError(401, "Current password incorrect"))
    ensures r.2.status == 200 <==>
      Trim(newPassword) != [] && PasswordMatches(s.credentials, current, env.kdf)
      && PersistEffect(m, WithNewPassword(s.credentials, newPassword, env.salt, env.kdf).(token := None),
                       s.provisioned, env.nvsFailures).1
    ensures r.2.status != 200 ==> r.0 == s
    ensures Trim(newPassword) != [] && PasswordMatches(s.credentials, current, env.kdf) ==>
      var changed := WithNewPassword(s.credentials, newPassword, env.salt, env.kdf).(token := None);
      r.1 == PersistEffect(m, changed, s.provisioned, env.nvsFailures).0
      && (!PersistEffect(m, changed, s.provisioned, env.nvsFailures).1 ==>
            r.2 == RespondError(500, "Failed to persist credentials"))
    ensures r.2.status == 200 ==>
      r.0 == s.(credentials := WithNewPassword(s.credentials, newPassword, env.salt, env.kdf).(token := None))
    ensures SessionNeedsProvisioning(s) ==> SessionNeedsProvisioning(r.0)
    ensures r.2.headers == []
  {
    if Trim(newPassword) == [] then (s, m, RespondError(400, "New password cannot be empty"))
    else if !ConstantTimeEquals(DerivePasswordHash(env.kdf, current, s.credentials.salt), s.credentials.passwordHash) then
      (s, m, RespondError(401, "Current password incorrect"))
    else
      var changed := WithNewPassword(s.credentials, newPassword, env.salt, env.kdf).(token := None);
      var (stored, ok) := PersistEffect(m, changed, s.provisioned, env.nvsFailures);
      if !ok then (s, stored, RespondError(500, "Failed to persist credentials"))
      else (s.(credentials := changed), stored, RespondJson(200, FlagBody("changed")))
  }

  /**
   * `handle_factory_reset`: the stored record is cleared; if that worked the
   * whole state is rebuilt as at boot, which now finds nothing stored.
   */
  function FactoryReset(s: AppSnapshot, m: Entries, env: Env): (r: (AppSnapshot, Entries, Response))
    ensures r.1 == ClearEffect(m, env.nvsFailures).0
    ensures r.2.status == 200 <==> ClearEffect(m, env.nvsFailures).1
    ensures r.2.status != 200 ==> r.0 == s && r.2 == RespondError(500, "Failed to clear persisted credentials")
    ensures r.2.status == 200 ==>
      r.0 == AppSnapshot(DefaultWifiStatus, DefaultRelayStatus, None,
                         NewCredentials(DefaultUsername, DefaultPassword, env.salt, env.kdf), false)
    ensures SessionNeedsProvisioning(s) ==> SessionNeedsProvisioning(r.0)
    ensures r.2.headers == []
  {
    var (cleared, ok) := ClearEffect(m, env.nvsFailures);
    if !ok then (s, cleared, RespondError(500, "Failed to clear persisted credentials"))
    else
      LoadAfterClear(m, env.nvsFailures);
      (BootState(cleared, env.salt, env.kdf), cleared, RespondJson(200, FlagBody("reset")))
  }

  /**
   * `handle_firmware_upload`: only application/octet-stream is taken; a body of
   * 1 byte to 2 MiB is hashed and recorded, anything else is 400.
   */
  function UploadFirmware(s: AppSnapshot, contentType: Option<string>, chunks: seq<seq<byte>>, env: Env)
    : (r: (AppSnapshot, Response))
    ensures !IsOctetStream(contentType) ==> r.0 == s && r.1.status == 400
    ensures r.1.status == 200 <==> IsOctetStream(contentType) && 0 < |Payload(chunks)| <= MaxFirmwareSize
    ensures r.1.status == 200 ==>
      var whole := Payload(chunks);
      var info := BuildFirmwareMetadata(|whole|, env.sha(whole), env.clockText);
      r.0 == s.(firmware := Some(info)) && r.1.body == FirmwareBody(info)
    ensures r.1.status != 200 ==> r.0 == s && r.1.status == 400
    ensures r.1.headers == []
  {
    UploadOutcome(chunks, env.sha, env.clockText);
    if !IsOctetStream(contentType) then
      (s, RespondError(400, "Firmware upload requires Content-Type: application/octet-stream"))
    else
      match UploadFrom([], chunks, env.sha, env.clockText)
      case Err(e) => (s, RespondError(400, e.Message()))
      case Ok(info) => (s.(firmware := Some(info)), RespondJson(200, FirmwareBody(info)))
  }

  /** The requests `start_http_server` only lets through after `authorize`. */
  datatype ProtectedRequest =
    | RelayRequest(state: string)
    | WifiSaveRequest(ssid: string)
    | FactoryResetRequest
    | PasswordChangeRequest(current: string, newPassword: string)
    | FirmwareUploadRequest(contentType: Option<string>, chunks: seq<seq<byte>>)

  /** What an authorized protected request does; no handler adds headers of its own. */
  function Dispatch(s: AppSnapshot, m: Entries, request: ProtectedRequest, env: Env): (r: (AppSnapshot, Entries, Response))
    ensures r.2.headers == []
    ensures SessionNeedsProvisioning(s) ==> SessionNeedsProvisioning(r.0)
    ensures request.RelayRequest? || request.WifiSaveRequest? || request.FirmwareUploadRequest? ==> r.1 == m
  {
    match request
    case RelayRequest(state) =>
      var (t, resp) := SetRelay(s, state, env); (t, m, resp)
    case WifiSaveRequest(ssid) =>
      var (t, resp) := SaveWifi(s, ssid); (t, m, resp)
    case FactoryResetRequest => FactoryReset(s, m, env)
    case PasswordChangeRequest(current, newPassword) => ChangePassword(s, m, current, newPassword, env)
    case FirmwareUploadRequest(contentType, chunks) =>
      var (t, resp) := UploadFirmware(s, contentType, chunks, env); (t, m, resp)
  }

  /**
   * A protected route: `authorize` first; a failure is answered by
   * `respond_unauthorized` and is the only answer carrying a WWW-Authenticate
   * header, and a success runs the route's handler on the touched session.
   */
  function Protected(s: AppSnapshot, m: Entries, header: Option<string>, request: ProtectedRequest, env: Env)
    : (r: (AppSnapshot, Entries, Response))
    ensures Authorization(s, header, env.now).1.Err? ==>
      r == (Authorization(s, header, env.now).0, m, RespondUnauthorized(Authorization(s, header, env.now).1.error))
    ensures Authorization(s, header, env.now).1.Ok? ==>
      r == Dispatch(Authorization(s, header, env.now).0, m, request, env)
    ensures Authorization(s, header, env.now).1.Err? <==> r.2.headers != []
    ensures SessionNeedsProvisioning(s) ==> SessionNeedsProvisioning(r.0)
  {
    var (authorized, outcome) := Authorization(s, header, env.now);
    if outcome.Err? then (authorized, m, RespondUnauthorized(outcome.error))
    else Dispatch(authorized, m, request, env)
  }

  /** A freshly provisioned account logs in with the same name and password. */
  lemma ProvisionedAccountCanLogIn(s: AppSnapshot, m: Entries, username: Option<string>, password: string, env: Env, later: Env)
    requires Provision(s, m, username, password, env).2.status == 200
    requires later.kdf == env.kdf
    ensures Login(Provision(s, m, username, password, env).0, ProvisioningUsername(username), password, later).1.status == 200
  {
  }

  /** ... and with no password the key derivation tells apart from it. */
  lemma ProvisionedAccountRejectsOtherPasswords(
    s: AppSnapshot, m: Entries, username: Option<string>, password: string, env: Env, other: string, later: Env)
    requires Provision(s, m, username, password, env).2.status == 200
    requires later.kdf == env.kdf && env.kdf(other, env.salt) != env.kdf(password, env.salt)
    ensures Login(Provision(s, m, username, password, env).0, ProvisioningUsername(username), other, later)
      == (Provision(s, m, username, password, env).0, RespondError(401, "Invalid credentials"))
  {
    HashTextsAgreeIffKeysAgree(env.kdf, other, password, env.salt);
  }

  /** "Bearer" and a token of hex digits is a header `extract_bearer_token` accepts. */
  lemma BearerHeaderCarriesToken(random: Bytes32)
    ensures ExtractBearerToken("Bearer " + GenerateToken(random)) == Some(GenerateToken(random))
  {
    var token := GenerateToken(random);
    assert "Bearer" + " " + token == "Bearer " + token;
    assert !IsWhitespace(token[0]) && !IsWhitespace(token[|token| - 1]) by {
      assert token == Hex.HexEncode(random);
      assert Hex.IsLowerHexDigit(token[0]) && Hex.IsLowerHexDigit(token[63]);
    }
    assert EqIgnoreAsciiCase("Bearer", "bearer") by {
      assert AsciiLower('B') == 'b';
    }
    BearerTokenRoundTrip("Bearer", token);
  }

  /** The token handed out at provisioning authorizes requests for as long as it is used within the idle timeout. */
  lemma ProvisionedTokenAuthorizes(s: AppSnapshot, m: Entries, username: Option<string>, password: string, env: Env, now: int)
    requires Provision(s, m, username, password, env).2.status == 200
    requires env.now <= now < env.now + IdleTimeoutSeconds
    ensures Authorization(Provision(s, m, username, password, env).0,
                          Some("Bearer " + GenerateToken(env.random)), now).1.Ok?
  {
    BearerHeaderCarriesToken(env.random);
  }

  /** After provisioning, a reboot finds the same account, without its session, if the user name fits the read buffer. */
  lemma RebootKeepsProvisionedAccount(s: AppSnapshot, m: Entries, username: Option<string>, password: string, env: Env, salt: Salt)
    requires Provision(s, m, username, password, env).2.status == 200
    requires Utf8Len(ProvisioningUsername(username)) < MaxNvsStrLen
    ensures LoadDoesNotPanic(Provision(s, m, username, password, env).1)
    ensures var booted := BootState(Provision(s, m, username, password, env).1, salt, env.kdf);
      booted.provisioned
      && booted.credentials == Provision(s, m, username, password, env).0.credentials.(token := None)
  {
    var created := NewCredentials(ProvisioningUsername(username), password, env.salt, env.kdf);
    HexEncodeFitsBuffer(env.kdf(password, env.salt));
    LoadAfterPersist(m, created, env.nvsFailures);
  }

  /**
   * A user name of 128 bytes or more is accepted and stored, but after a reboot
   * the device is unprovisioned again under admin/admin.
   */
  lemma LongUsernameForgottenOnReboot(s: AppSnapshot, m: Entries, username: Option<string>, password: string, env: Env, salt: Salt)
    requires Provision(s, m, username, password, env).2.status == 200
    requires Utf8Len(ProvisioningUsername(username)) >= MaxNvsStrLen
    ensures LoadDoesNotPanic(Provision(s, m, username, password, env).1)
    ensures var booted := BootState(Provision(s, m, username, password, env).1, salt, env.kdf);
      !booted.provisioned && booted.credentials.username == DefaultUsername
  {
    var created := NewCredentials(ProvisioningUsername(username), password, env.salt, env.kdf);
    LongUsernameIsNotReloaded(m, created, env.nvsFailures);
  }

  /** An unprovisioned device holds no session, so every protected request is refused and changes nothing. */
  lemma UnprovisionedDeviceRefusesProtectedRequests(
    s: AppSnapshot, m: Entries, header: Option<string>, request: ProtectedRequest, env: Env)
    requires SessionNeedsProvisioning(s) && !s.provisioned
    ensures Protected(s, m, header, request, env) == (s, m, RespondUnauthorized(Authorization(s, header, env.now).1.error))
  {
  }

  /** After a logout no header authorizes until the next login. */
  lemma LogoutEndsSession(s: AppSnapshot, header: Option<string>, now: int, next: Option<string>, later: int)
    requires Logout(s, header, now).1.status == 204
    ensures Authorization(Logout(s, header, now).0, next, later).1.Err?
  {
  }

  /** A new login revokes the session a previous login opened. */
  lemma LoginRevokesPreviousSession(s: AppSnapshot, username: string, password: string, env: Env, later: int)
    requires Login(s, username, password, env).1.status == 200
    requires s.credentials.token.Some? && s.credentials.token.value.value != GenerateToken(env.random)
    ensures Validate(Login(s, username, password, env).0.credentials, s.credentials.token.value.value, later).1 == TokenValidation.Invalid
  {
  }

  /**
   * A password change that went through ends the session and from then on
   * accepts the new password and exactly the passwords the key derivation
   * cannot tell from it.
   */
  lemma PasswordChangeSwapsPassword(
    s: AppSnapshot, m: Entries, current: string, newPassword: string, env: Env,
    candidate: string, header: Option<string>, later: int)
    requires ChangePassword(s, m, current, newPassword, env).2.status == 200
    ensures var after := ChangePassword(s, m, current, newPassword, env).0;
      Authorization(after, header, later).1.Err?
      && PasswordMatches(after.credentials, newPassword, env.kdf)
      && (PasswordMatches(after.credentials, candidate, env.kdf)
          <==> env.kdf(candidate, env.salt) == env.kdf(newPassword, env.salt))
  {
    NewPasswordIsTheOneAccepted(s.credentials, newPassword, env.salt, env.kdf, candidate);
  }

  /**
   * After a factory reset nothing is stored, the device reports itself
   * unprovisioned, refuses logins, and can be provisioned again.
   */
  lemma FactoryResetReopensProvisioning(
    s: AppSnapshot, m: Entries, env: Env, username: Option<string>, password: string, next: Env)
    requires FactoryReset(s, m, env).2.status == 200
    ensures var (after, stored, _) := FactoryReset(s, m, env);
      Load(stored) == Ok(None)
      && !ProvisioningStatus(after).body.provisioned
      && Login(after, DefaultUsername, DefaultPassword, next).1.status == 423
      && Provision(after, stored, username, password, next).2.status != 409
  {
  }
}
