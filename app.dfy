/**
 * The shared `AppState` of nextgen/src/main.rs as an object whose handler
 * methods update it in place. Each method is proved to have exactly the effect
 * the matching function of module `Handlers` describes.
 */
module App {
  import opened Wrappers
  import opened Rust
  import opened Crypto
  import opened Session
  import opened Account
  import opened Persistence
  import opened Firmware
  import opened Http
  import opened Auth
  import opened Handlers

  class AppState {
    var wifi: WifiStatus
    var relay: RelayStatus
    var firmware: Option<FirmwareInfo>
    var credentials: Credentials
    var provisioned: bool

    function Snapshot(): AppSnapshot
      reads this, credentials
    {
      AppSnapshot(wifi, relay, firmware, credentials.Data(), provisioned)
    }

    predicate Valid()
      reads this, credentials
    {
      SessionNeedsProvisioning(Snapshot())
    }

    /** `AppState::default`, run once at start-up; `salt` serves the default account. */
    constructor Boot(nvs: NvsStore, salt: Salt, kdf: Kdf)
      requires LoadDoesNotPanic(nvs.entries)
      ensures Snapshot() == BootState(nvs.entries, salt, kdf)
      ensures Valid()
    {
      wifi := DefaultWifiStatus;
      relay := DefaultRelayStatus;
      firmware := None;
      credentials := new Credentials.Default(salt, kdf);
      provisioned := false;
      new;
      Reload(nvs, salt, kdf);
    }

    /** Every field as `AppState::default` sets it. */
    method Reload(nvs: NvsStore, salt: Salt, kdf: Kdf)
      requires LoadDoesNotPanic(nvs.entries)
      modifies this
      ensures Snapshot() == BootState(nvs.entries, salt, kdf)
      ensures Valid()
    {
      wifi := DefaultWifiStatus;
      relay := DefaultRelayStatus;
      firmware := None;
      var loaded := Load(nvs.entries);
      if loaded.Ok? && loaded.value.Some? {
        credentials := new Credentials.FromData(loaded.value.value.credentials);
        provisioned := loaded.value.value.provisioned;
      } else {
        credentials := new Credentials.Default(salt, kdf);
        provisioned := false;
      }
    }

    /** `handle_get_provisioning`. */
    method HandleGetProvisioning() returns (r: Response)
      ensures r == ProvisioningStatus(Snapshot())
    {
      var shown := if provisioned then Some(credentials.username) else None;
      r := RespondJson(200, ProvisioningStatusBody(provisioned, shown));
    }

    /** `handle_post_provisioning`. */
    method HandlePostProvisioning(nvs: NvsStore, username: Option<string>, password: string, env: Env)
      returns (r: Response)
      requires Valid()
      modifies this, credentials, nvs
      ensures (Snapshot(), nvs.entries, r) == Provision(old(Snapshot()), old(nvs.entries), username, password, env)
      ensures Valid()
    {
      if provisioned {
        return RespondError(409, "Already provisioned");
      }
      var name := ProvisioningUsername(username);
      if Utf8Len(Trim(password)) < MinPasswordLen {
        return RespondError(400, "Password must be at least 8 characters");
      }
      ghost var before := Snapshot();
      ghost var created := NewCredentials(name, password, env.salt, env.kdf);
      var previousCredentials := credentials.Clone();
      var previousProvisioned := provisioned;
      credentials := new Credentials.WithPassword(name, password, env.salt, env.kdf);
      provisioned := true;
      var persisted := nvs.Persist(credentials.Data(), provisioned, env.nvsFailures);
      if persisted.Err? {
        credentials.Restore(previousCredentials.Data());
        provisioned := previousProvisioned;
        assert Snapshot() == before;
        return RespondError(500, "Failed to persist credentials");
      }
      var token := credentials.IssueToken(env.random, env.now);
      assert credentials.Data() == Issued(created, env.random, env.now);
      assert Snapshot() == before.(credentials := Issued(created, env.random, env.now), provisioned := true);
      r := RespondJson(200, ProvisionedBody(token, name, IdleTimeoutSeconds));
    }

    /** `handle_login`. */
    method HandleLogin(username: string, password: string, env: Env) returns (r: Response)
      requires Valid()
      modifies credentials
      ensures (Snapshot(), r) == Login(old(Snapshot()), username, password, env)
      ensures Valid()
    {
      if !provisioned {
        return RespondError(423, "Provisioning required");
      }
      if username != credentials.username {
        return RespondError(401, "Invalid credentials");
      }
      if !credentials.VerifyPassword(password, env.kdf) {
        return RespondError(401, "Invalid credentials");
      }
      var token := credentials.IssueToken(env.random, env.now);
      r := RespondJson(200, TokenBody(token, IdleTimeoutSeconds));
    }

    /** `authorize`; `header` is the request's Authorization header. */
    method Authorize(header: Option<string>, now: int) returns (r: Result<(), AuthorizationFailure>)
      requires Valid()
      modifies credentials
      ensures (Snapshot(), r) == Authorization(old(Snapshot()), header, now)
      ensures Valid()
    {
      if header.None? {
        return Err(Missing);
      }
      var token := ExtractBearerToken(header.value);
      if token.None? {
        return Err(AuthorizationFailure.Invalid);
      }
      var outcome := credentials.ValidateToken(token.value, now);
      match outcome
      case Authorized => r := Ok(());
      case Expired => r := Err(AuthorizationFailure.Expired);
      case Invalid => r := Err(AuthorizationFailure.Invalid);
    }

    /** `handle_logout`. */
    method HandleLogout(header: Option<string>, now: int) returns (r: Response)
      requires Valid()
      modifies credentials
      ensures (Snapshot(), r) == Logout(old(Snapshot()), header, now)
      ensures Valid()
    {
      var authorized := Authorize(header, now);
      if authorized.Err? {
        return RespondUnauthorized(authorized.error);
      }
      credentials.InvalidateToken();
      r := RespondEmpty(204);
    }

    /** `handle_relay`. */
    method HandleRelay(state: string, env: Env) returns (r: Response)
      requires Valid()
      modifies this
      ensures (Snapshot(), r) == SetRelay(old(Snapshot()), state, env)
      ensures Valid()
    {
      if state == "on" || state == "off" {
        relay := RelayStatus(state, Some(env.clockText));
        r := RespondJson(200, RelayBody(relay.state, relay.lastChange));
      } else {
        r := RespondError(400, "Relay state must be 'on' or 'off'");
      }
    }

    /** `handle_wifi_save`. */
    method HandleWifiSave(ssid: string) returns (r: Response)
      requires Valid()
      modifies this
      ensures (Snapshot(), r) == SaveWifi(old(Snapshot()), ssid)
      ensures Valid()
    {
      if Trim(ssid) == [] {
        return RespondError(400, "SSID cannot be empty");
      }
      wifi := WifiStatus("STA", ssid, false, None, None);
      r := RespondJson(200, FlagBody("saved"));
    }

    /** `handle_password_change`. */
    method HandlePasswordChange(nvs: NvsStore, current: string, newPassword: string, env: Env)
      returns (r: Response)
      requires Valid()
      modifies this, credentials, nvs
      ensures (Snapshot(), nvs.entries, r) == ChangePassword(old(Snapshot()), old(nvs.entries), current, newPassword, env)
      ensures Valid()
    {
      if Trim(newPassword) == [] {
        return RespondError(400, "New password cannot be empty");
      }
      if !credentials.VerifyPassword(current, env.kdf) {
        return RespondError(401, "Current password incorrect");
      }
      var previous := credentials.Clone();
      credentials.SetPassword(newPassword, env.salt, env.kdf);
      credentials.InvalidateToken();
      var persisted := nvs.Persist(credentials.Data(), provisioned, env.nvsFailures);
      if persisted.Err? {
        credentials.Restore(previous.Data());
        return RespondError(500, "Failed to persist credentials");
      }
      r := RespondJson(200, FlagBody("changed"));
    }

    /** `handle_factory_reset`. */
    method HandleFactoryReset(nvs: NvsStore, env: Env) returns (r: Response)
      requires Valid()
      modifies this, nvs
      ensures (Snapshot(), nvs.entries, r) == FactoryReset(old(Snapshot()), old(nvs.entries), env)
      ensures Valid()
    {
      var cleared := nvs.Clear(env.nvsFailures);
      if cleared.Err? {
        return RespondError(500, "Failed to clear persisted credentials");
      }
      LoadAfterClear(old(nvs.entries), env.nvsFailures);
      Reload(nvs, env.salt, env.kdf);
      r := RespondJson(200, FlagBody("reset"));
    }

    /** `handle_firmware_upload`; `chunks` are the successive reads of the body. */
    method HandleFirmwareUpload(contentType: Option<string>, chunks: seq<seq<byte>>, env: Env) returns (r: Response)
      requires Valid()
      modifies this
      ensures (Snapshot(), r) == UploadFirmware(old(Snapshot()), contentType, chunks, env)
      ensures Valid()
    {
      if !IsOctetStream(contentType) {
        return RespondError(400, "Firmware upload requires Content-Type: application/octet-stream");
      }
      var outcome := ReceiveUpload(chunks, env.sha, env.clockText);
      match outcome
      case Err(e) =>
        r := RespondError(400, e.Message());
      case Ok(info) =>
        firmware := Some(info);
        r := RespondJson(200, FirmwareBody(info));
    }

    /** A route registered behind `authorize` in `start_http_server`. */
    method HandleProtected(nvs: NvsStore, header: Option<string>, request: ProtectedRequest, env: Env)
      returns (r: Response)
      requires Valid()
      modifies this, credentials, nvs
      ensures (Snapshot(), nvs.entries, r) == Protected(old(Snapshot()), old(nvs.entries), header, request, env)
      ensures Valid()
    {
      var authorized := Authorize(header, env.now);
      if authorized.Err? {
        return RespondUnauthorized(authorized.error);
      }
      match request
      case RelayRequest(state) =>
        r := HandleRelay(state, env);
      case WifiSaveRequest(ssid) =>
        r := HandleWifiSave(ssid);
      case FactoryResetRequest =>
        r := HandleFactoryReset(nvs, env);
      case PasswordChangeRequest(current, newPassword) =>
        r := HandlePasswordChange(nvs, current, newPassword, env);
      case FirmwareUploadRequest(contentType, chunks) =>
        r := HandleFirmwareUpload(contentType, chunks, env);
    }
  }
}
