# Solar-heater controller: accounts, sessions, persistence and handlers

This project models in Dafny the security core of the second-generation
firmware of an ESP32 solar-heater controller (`nextgen/`), together with its
Wi-Fi status owner and the relay command of the first-generation web server.

- **Credentials.** There is one account. Its password is stored as the hex
  text of a salted key derivation. The account holds one bearer session that
  expires after 15 minutes without use (`Account`, `Session`, `Crypto`, `Hex`).
- **Persistence.** The account and a "provisioned" flag live in the
  non-volatile store (NVS) as four entries. A write can be refused at any
  step. The module models what the next boot reads back (`Persistence`).
- **Authorization.** `Authorization: Bearer <token>` headers are parsed and
  checked. The three kinds of 401 answer are modelled (`Auth`).
- **HTTP handlers.** These cover provisioning, login, logout, relay, Wi-Fi
  save, password change, factory reset and firmware upload. Each handler is a
  function on a snapshot of the shared state (`Handlers`). It is also a method
  of an `AppState` object that changes that state in place and is proved equal
  to the function (`App`).
- **Firmware upload checks.** These are the content type, the size limits and
  the chunked read loop (`Firmware`).
- **Wi-Fi state.** This is the Wi-Fi state machine with its scan cache, and
  the validation of a station configuration (`Wifi`).
- **Relay query parameter.** This is `extract_relay_param` of the first web
  server and its on/off/400 branch (`Relay`).

The outside world arrives as parameters:
- the clock, as whole seconds plus the same instant as RFC 3339 text;
- the random bytes of salts and tokens;
- PBKDF2-HMAC-SHA256 (section 5.2 of RFC 8018) as a function `Kdf`;
- SHA-256 as a function `Sha256`;
- the set of NVS steps the flash refuses.

Rust strings are Dafny strings. Their byte length is computed as UTF-8
(`Rust.Utf8Len`), and `trim`, `split`, `find` and `eq_ignore_ascii_case`
follow the Rust library.

The model follows the code, including where the code falls short of what a
credential store like this one should guarantee:

- A half-written record should never load as valid credentials. The code
  writes user, hash, salt and flag one after the other. When the second write
  fails, the new user name stands beside the old hash and salt, and the next
  boot accepts that mixed record (`Persistence.PartialPersistMixesRecords`).
  The handlers do roll back their in-memory change on a failed store
  (`Handlers.Provision`, `Handlers.ChangePassword`), but the flash is not
  rolled back.
- Malformed stored data should not stop the device from booting. A salt of
  the wrong length does fall back to the default account
  (`Persistence.SaltOfWrongLengthIsRefused`). `hex_decode` panics when its
  slicing reaches an odd last character, or cuts inside a multi-byte
  character, before any pair has failed to parse; a pair that does not parse
  stops `collect` first with an error. An odd-length text made only of
  lower-case hex digits is the panicking case `Hex.OddLengthPanics` proves.
  Boot is modelled only for stores where no panic can happen
  (`Handlers.LoadDoesNotPanic`).
- A user name of 128 bytes or more is accepted and stored but cannot be read
  back through the 128-byte buffer. After a reboot the device is unprovisioned
  again (`Handlers.LongUsernameForgottenOnReboot`).
- The comment on `mark_error` says it returns to access-point mode. The code
  only records the error. After a failed join the device stays in station mode
  with no access point (`Wifi.FailedJoinKeepsStationMode`).
- `hex_decode` uses `u8::from_str_radix`, which takes a leading `+`, so
  "+a" decodes like "0a" (`Hex.PlusSignedPairDecodes`).

## Model

| member | source | states |
|---|---|---|
| Rust.Utf8Len | nextgen/src/main.rs:256 | the UTF-8 byte length that `str::len` reports is at least the number of characters, and equals it for ASCII text |
| Rust.Utf8LenAppend | nextgen/src/main.rs:256 | byte length is additive over concatenation |
| Rust.Trim | nextgen/src/main.rs:686-695 | the trimmed text neither starts nor ends with whitespace, and text without surrounding whitespace is its own trim |
| Rust.TrimIsEmptyIffBlank | nextgen/src/main.rs:384 | `trim().is_empty()` holds exactly when every character is whitespace |
| Rust.TrimSliceAt | nextgen/src/main.rs:686-695 | the trimmed text is the slice of the input that starts after the leading whitespace (a borrowed `&str`) |
| Rust.IndexOf | nextgen/src/main.rs:687-689 | `find`/`split_once` on a char cut at the first occurrence: the position holds the char and no earlier one does |
| Rust.IndexOfAfterPrefix | src/webserver.rs:72 | the first occurrence of a char after a prefix without it is at the prefix's length |
| Rust.SplitWithoutSeparator | nextgen/src/main.rs:430-439 | text without the separator splits into itself alone |
| Rust.SplitJoin | src/webserver.rs:73 | `split` loses nothing: no piece holds the separator and the pieces joined with it give the input back |
| Rust.SplitCons | nextgen/src/main.rs:430-439 | the text before the first separator is the first piece, and the rest is split on its own |
| Rust.SplitPartIsSlice | src/webserver.rs:73 | every piece `split` yields is a slice of the input, the first one at offset 0 |
| Hex.HexEncode | nextgen/src/main.rs:29-31 | the text has two characters per byte, all lower-case hex digits |
| Hex.DigitValue | nextgen/src/main.rs:36 | a digit has a value below 16 exactly for 0-9, a-f and A-F |
| Hex.HexDecode | nextgen/src/main.rs:33-38 | a successful decode read an ASCII text of exactly two characters per byte |
| Hex.HexRoundTrip | nextgen/src/main.rs:29-38 | decoding the encoding of any byte string gives it back |
| Hex.HexEncodeInjective | nextgen/src/main.rs:29-31 | different byte strings have different hex texts |
| Hex.PlusSignedPairDecodes | nextgen/src/main.rs:36 | "+a" decodes to the byte 10, as "0a" does |
| Hex.OddLengthPanics | nextgen/src/main.rs:33-38 | an odd-length text made only of lower-case hex digits ends in the slicing panic at its last character |
| Crypto.DerivePasswordHash | nextgen/src/main.rs:593-597 | the stored hash is 64 hex characters that decode to the derived 32-byte key |
| Crypto.HashTextsAgreeIffKeysAgree | nextgen/src/main.rs:593-597 | two passwords get the same hash text exactly when the key derivation gives them the same key |
| Crypto.GenerateToken | nextgen/src/main.rs:587-591 | a token is 64 hex characters that decode to the 32 random bytes |
| Crypto.DistinctDrawsGiveDistinctTokens | nextgen/src/main.rs:587-591 | different random bytes give different tokens |
| Crypto.ConstantTimeEquals | nextgen/src/main.rs:599-605 | the result is true exactly when the two texts are equal |
| Session.NewSession | nextgen/src/main.rs:842-848 | a new session is issued and last seen at the current time |
| Session.IsExpired | nextgen/src/main.rs:850-855 | a session has expired exactly when at least 900 s have passed since its last use; a clock behind the last use never expires it |
| Session.Touch | nextgen/src/main.rs:857-859 | after a touch the session stays valid for the next 900 s and expires at 900 s; value and issue time are kept |
| Session.ExpiryIgnoresIssueTime | nextgen/src/main.rs:850-855 | expiry does not depend on the issue time |
| Session.ExpiryIsMonotone | nextgen/src/main.rs:850-855 | an expired session stays expired as time goes on |
| Account.NewCredentials | nextgen/src/main.rs:922-931 | a new account has the given name and salt, no session, and accepts its password |
| Account.WithNewPassword | nextgen/src/main.rs:938-941 | a password change keeps the name and session, takes the new salt and accepts the new password |
| Account.Validate | nextgen/src/main.rs:954-970 | Authorized exactly for the live token used within the timeout (session touched); Expired exactly for the live token after it (session dropped); otherwise Invalid with nothing changed |
| Account.Issued | nextgen/src/main.rs:943-948 | the new session is issued and last seen at `now`; its token is Authorized until 900 s of idleness after `now` and Expired from then on, every other candidate is Invalid, and name, hash and salt are kept |
| Account.NewPasswordIsTheOneAccepted | nextgen/src/main.rs:933-941 | after a password change exactly the passwords the key derivation cannot tell from the new one are accepted |
| Account.ReissueRevokesPrevious | nextgen/src/main.rs:943-948 | a second issued token revokes the first |
| Account.ExpiredSessionIsConsumed | nextgen/src/main.rs:960-962 | after an Expired answer no candidate validates any more |
| Account.ActivityKeepsSessionAlive | nextgen/src/main.rs:963-966 | a session used within 900 s of its last use is still Authorized |
| Account.IdleSessionExpires | nextgen/src/main.rs:960-962 | a session left idle 900 s after its last use is Expired |
| Account.Credentials.WithPassword | nextgen/src/main.rs:922-931 | the object holds the new account |
| Account.Credentials.Default | nextgen/src/main.rs:915-919 | the object holds admin/admin under the given salt |
| Account.Credentials.FromData | nextgen/src/main.rs:654-660 | the object holds exactly the record rebuilt from the stored values |
| Account.Credentials.Clone | nextgen/src/main.rs:805-811 | the copy is a fresh object with the same fields |
| Account.Credentials.Restore | nextgen/src/main.rs:266 | all fields are overwritten with the saved ones, as in the rollbacks of provisioning (line 266) and of a password change (line 509) |
| Account.Credentials.VerifyPassword | nextgen/src/main.rs:933-936 | the password is accepted exactly when it hashes to the stored text |
| Account.Credentials.SetPassword | nextgen/src/main.rs:938-941 | the new state is `WithNewPassword` of the old one |
| Account.Credentials.IssueToken | nextgen/src/main.rs:943-948 | returns the hex token and the new state is `Issued` of the old one |
| Account.Credentials.InvalidateToken | nextgen/src/main.rs:950-952 | only the session is removed |
| Account.Credentials.ValidateToken | nextgen/src/main.rs:954-970 | the outcome and the new state are those of `Validate` |
| Account.ExpireAfterIdleTimeout | nextgen/src/main.rs:1053-1068 | a session last used more than 900 s ago is reported Expired and removed |
| Account.TouchOnActivity | nextgen/src/main.rs:1070-1087 | a use 60 s after issue is Authorized and moves the last use forward |
| Persistence.ReadNvsStr | nextgen/src/main.rs:607-614 | a stored text fails to read exactly when its bytes and terminator exceed 128; a missing key is None |
| Persistence.DecodeRecord | nextgen/src/main.rs:641-662 | a record loads only when the salt text decodes to exactly 16 bytes; a bad digit and a slicing panic are told apart |
| Persistence.Load | nextgen/src/main.rs:616-663 | without the flag nothing is loaded; then user, hash and salt are read in that order: the first missing one means nothing is loaded and the first one too long for the buffer is that read's error; with all three read, the outcome is `DecodeRecord` of them; a loaded record is provisioned, has no session, and matches the stored user, hash and salt |
| Persistence.SaltOfWrongLengthIsRefused | nextgen/src/main.rs:647-650 | a readable record whose salt decodes to other than 16 bytes is refused with the salt-length error |
| Persistence.PersistEffect | nextgen/src/main.rs:665-674 | success exactly when no step fails; only the four record keys change; a failed first write changes nothing |
| Persistence.ClearEffect | nextgen/src/main.rs:676-684 | success exactly when the flag write and commit succeed; the flag is then 0; only the four record keys change |
| Persistence.HexEncodeFitsBuffer | nextgen/src/main.rs:665-674 | the hex text of any byte string is ASCII, so its byte length is twice the byte count |
| Persistence.LoadAfterPersist | nextgen/src/main.rs:616-674 | a successful persist is loaded back as the same account without its session, if user name and hash fit the buffer |
| Persistence.LongUsernameIsNotReloaded | nextgen/src/main.rs:607-633 | a persisted user name of 128 bytes or more makes the next load fail |
| Persistence.PartialPersistMixesRecords | nextgen/src/main.rs:616-674 | a persist that fails after the user write leaves a record the next load accepts with the new name and the old hash and salt |
| Persistence.LoadAfterClear | nextgen/src/main.rs:616-684 | after a clear that wrote the flag nothing is loaded, whatever removals failed |
| Persistence.ClearWithoutFlagStillForgetsUser | nextgen/src/main.rs:616-684 | a clear that removed the user name leaves nothing to load even if the flag write failed |
| Persistence.NvsStore.Persist | nextgen/src/main.rs:665-674 | the new entries and the success flag are those of `PersistEffect` |
| Persistence.NvsStore.Clear | nextgen/src/main.rs:676-684 | the new entries and the success flag are those of `ClearEffect` |
| Firmware.FirmwareValidationError.Message | nextgen/src/main.rs:703-716 | the message text of each validation error |
| Firmware.EnforceFirmwareConstraints | nextgen/src/main.rs:411-419 | a size is accepted exactly when it is 1 byte to 2 MiB; 0 is Empty and a larger size is TooLarge with that size |
| Firmware.FirmwareConstraintsEnforceLimits | nextgen/src/main.rs:1089-1103 | 0 is Empty, 2 MiB + 1 is TooLarge and 2 MiB is accepted |
| Firmware.BuildFirmwareMetadata | nextgen/src/main.rs:421-428 | the metadata holds the size, the digest as 64 hex characters that decode to it, the upload time, and is not staged |
| Firmware.IsOctetStream | nextgen/src/main.rs:430-439 | accepted only with a header whose media type before ';', trimmed, is application/octet-stream in any ASCII case |
| Firmware.OctetStreamIgnoresParameters | nextgen/src/main.rs:430-439 | parameters after ';' never change the verdict |
| Firmware.OctetStreamIsAccepted | nextgen/src/main.rs:430-439 | any media type that trims to application/octet-stream in any ASCII case is accepted, alone or followed by parameters |
| Firmware.OtherMediaTypeIsRefused | nextgen/src/main.rs:430-439 | a media type whose trimmed text is not as long as application/octet-stream is refused, with or without parameters |
| Firmware.OtherContentTypesAreRefused | nextgen/src/main.rs:430-439 | no header, and application/json, are refused |
| Firmware.Payload | nextgen/src/main.rs:454-461 | a body whose reads are all empty is empty |
| Firmware.UploadFromMeaning | nextgen/src/main.rs:454-476 | the read loop from a partial payload ends with the metadata of the whole body, Empty, or TooLarge above the limit |
| Firmware.UploadOutcome | nextgen/src/main.rs:441-492 | an upload gives the metadata of the whole body when it is 1 byte to 2 MiB, Empty for no body, and TooLarge with a size above the limit otherwise |
| Firmware.ReceiveUpload | nextgen/src/main.rs:450-479 | the loop with its running total returns what `UploadFrom` specifies |
| Http.RespondError | nextgen/src/main.rs:536-545 | the status and message as plain text, with no extra header |
| Http.RespondJson | nextgen/src/main.rs:516-534 | the status and body as JSON, with no extra header |
| Http.RespondEmpty | nextgen/src/main.rs:547-550 | the status with no body and no content type |
| Auth.ExtractBearerToken | nextgen/src/main.rs:686-695 | a token exactly when the header has a space, the trimmed text before it is "bearer" in any case, and the trimmed text after it is not empty; the token is that text |
| Auth.BearerSchemeIsTrimmed | nextgen/src/main.rs:688-690 | a scheme spelled "bearer" holds no space and no surrounding whitespace |
| Auth.BearerTokenRoundTrip | nextgen/src/main.rs:686-695 | "bearer" in any case, a space and a token without surrounding whitespace give the token back |
| Auth.LeadingSpaceIsRefused | nextgen/src/main.rs:686-695 | a header that starts with a space is refused |
| Auth.TokenPartIsSlice | nextgen/src/main.rs:687-693 | the text after the first space, trimmed, is a slice of the header |
| Auth.ExtractedTokenIsSlice | nextgen/src/main.rs:686-695 | the token returned is a slice of the header (a borrowed `&str`) |
| Auth.RespondUnauthorized | nextgen/src/main.rs:731-751 | always 401 plain text; the X-Session-Expired header and the expired WWW-Authenticate text appear exactly for an expired session |
| Handlers.BootState | nextgen/src/main.rs:973-1009 | boot uses the stored account when one loads, else admin/admin unprovisioned; no session; default Wi-Fi and relay status |
| Handlers.ProvisioningUsername | nextgen/src/main.rs:248-254 | the trimmed requested name, or "admin" when none or blank is given; never empty |
| Handlers.ProvisioningStatus | nextgen/src/main.rs:228-237 | 200 with the provisioned flag; the user name only once provisioned |
| Handlers.Provision | nextgen/src/main.rs:239-278 | 409 once provisioned; 400 for a trimmed password under 8 bytes; 200 exactly when the store succeeds, with the new account accepting the password and an Authorized token; the new store is what the persist wrote; a failed store answers 500 "Failed to persist credentials"; on 200 only the credentials (the new account with its session) and the flag change; the state is unchanged otherwise |
| Handlers.Login | nextgen/src/main.rs:280-303 | 423 until provisioned; 200 exactly for the stored name and a matching password, with a new session; 401 with nothing changed otherwise |
| Handlers.Authorization | nextgen/src/main.rs:718-729 | Missing exactly without a header; success and Expired exactly as `Validate` says for the extracted token; the new credentials are those `Validate` leaves (session touched on success, dropped when expired); no header or no usable bearer token leaves the state unchanged |
| Handlers.Logout | nextgen/src/main.rs:305-312 | 204 exactly when authorized, and the session is removed; otherwise the 401 answer of the failure |
| Handlers.SetRelay | nextgen/src/main.rs:326-339 | 200 exactly for "on" or "off", recording the state and the time; 400 with nothing changed otherwise |
| Handlers.SaveWifi | nextgen/src/main.rs:380-394 | 200 exactly for an SSID that is not blank, switching the status to station mode on it, not connected; 400 otherwise |
| Handlers.ChangePassword | nextgen/src/main.rs:494-514 | 400 for a blank new password; 401 for a wrong current one; 200 exactly when the store succeeds, with the new password and no session; the new store is what the persist wrote; a failed store answers 500 "Failed to persist credentials"; state unchanged otherwise |
| Handlers.FactoryReset | nextgen/src/main.rs:401-409 | the store is cleared; on success the state is the boot state of an empty store, otherwise 500 with the state unchanged |
| Handlers.UploadFirmware | nextgen/src/main.rs:441-492 | 200 exactly for an octet-stream body of 1 byte to 2 MiB, recording its metadata; 400 with nothing changed otherwise |
| Handlers.Dispatch | nextgen/src/main.rs:129-204 | no handler adds headers; relay, Wi-Fi and firmware leave the store alone; no session appears on an unprovisioned device |
| Handlers.Protected | nextgen/src/main.rs:129-204 | an authorization failure is answered by its 401 with the store unchanged, and only such answers carry headers; an authorized request is handled by its route's handler on the state `authorize` leaves, with the session touched |
| Handlers.ProvisionedAccountCanLogIn | nextgen/src/main.rs:239-303 | a freshly provisioned account logs in with its name and password |
| Handlers.ProvisionedAccountRejectsOtherPasswords | nextgen/src/main.rs:239-303 | and refuses every password the key derivation tells apart from it, with nothing changed |
| Handlers.BearerHeaderCarriesToken | nextgen/src/main.rs:587-591 | "Bearer " followed by a generated token is accepted and gives the token |
| Handlers.ProvisionedTokenAuthorizes | nextgen/src/main.rs:239-278 | the token returned by provisioning authorizes requests within 900 s |
| Handlers.RebootKeepsProvisionedAccount | nextgen/src/main.rs:973-1009 | after provisioning, a reboot finds the same account without its session when the name fits the buffer |
| Handlers.LongUsernameForgottenOnReboot | nextgen/src/main.rs:607-633 | after provisioning a name of 128 bytes or more, a reboot comes up unprovisioned as admin |
| Handlers.UnprovisionedDeviceRefusesProtectedRequests | nextgen/src/main.rs:718-729 | an unprovisioned device answers every protected request with 401 and changes nothing |
| Handlers.LogoutEndsSession | nextgen/src/main.rs:305-312 | after a logout no header authorizes |
| Handlers.LoginRevokesPreviousSession | nextgen/src/main.rs:280-303 | a new login revokes the previous session's token |
| Handlers.PasswordChangeSwapsPassword | nextgen/src/main.rs:494-514 | after a password change no header authorizes, and exactly the new password (up to the key derivation) is accepted |
| Handlers.FactoryResetReopensProvisioning | nextgen/src/main.rs:401-409 | after a reset nothing is stored, the device reports unprovisioned, login is 423 and provisioning is open again |
| App.AppState.Boot | nextgen/src/main.rs:973-1009 | the new object's state is `BootState` of the store, in which only a provisioned device can hold a session (`Valid`) |
| App.AppState.Reload | nextgen/src/main.rs:973-1009 | every field is reset as at boot, which leaves the state `Valid` |
| App.AppState.HandleGetProvisioning | nextgen/src/main.rs:228-237 | the answer is `ProvisioningStatus` of the state |
| App.AppState.HandlePostProvisioning | nextgen/src/main.rs:239-278 | new state, store and answer are those of `Provision`; the state stays `Valid` |
| App.AppState.HandleLogin | nextgen/src/main.rs:280-303 | new state and answer are those of `Login`; the state stays `Valid` |
| App.AppState.Authorize | nextgen/src/main.rs:718-729 | new state and outcome are those of `Authorization`; the state stays `Valid` |
| App.AppState.HandleLogout | nextgen/src/main.rs:305-312 | new state and answer are those of `Logout`; the state stays `Valid` |
| App.AppState.HandleRelay | nextgen/src/main.rs:326-339 | new state and answer are those of `SetRelay`; the state stays `Valid` |
| App.AppState.HandleWifiSave | nextgen/src/main.rs:380-394 | new state and answer are those of `SaveWifi`; the state stays `Valid` |
| App.AppState.HandlePasswordChange | nextgen/src/main.rs:494-514 | new state, store and answer are those of `ChangePassword`; the state stays `Valid` |
| App.AppState.HandleFactoryReset | nextgen/src/main.rs:401-409 | new state, store and answer are those of `FactoryReset`; the state stays `Valid` |
| App.AppState.HandleFirmwareUpload | nextgen/src/main.rs:441-492 | new state and answer are those of `UploadFirmware`; the state stays `Valid` |
| App.AppState.HandleProtected | nextgen/src/main.rs:129-204 | new state, store and answer are those of `Protected`; the state stays `Valid` |
| Wifi.WifiController.constructor | nextgen/src/wifi.rs:108-138 | starts in access-point mode with the default access point and the two cached networks |
| Wifi.WifiController.Snapshot | nextgen/src/wifi.rs:141-143 | returns the current status |
| Wifi.WifiController.BeginStaAttempt | nextgen/src/wifi.rs:146-156 | station mode, connecting to the SSID with no address or signal, access point off; the snapshot stays consistent |
| Wifi.WifiController.MarkStaConnected | nextgen/src/wifi.rs:158-167 | station mode, idle, connected to the SSID with its signal and address; the access point is unchanged |
| Wifi.WifiController.EnableCaptiveAp | nextgen/src/wifi.rs:169-184 | access-point mode with an empty station; the previous (or default) access point, renamed if an SSID is given |
| Wifi.WifiController.MarkError | nextgen/src/wifi.rs:186-191 | only the error state and the disconnected flag change |
| Wifi.WifiController.ScanNetworks | nextgen/src/wifi.rs:193-209 | a successful scan replaces and returns the cache; a failed one returns the cache unchanged |
| Wifi.FailedJoinKeepsStationMode | nextgen/src/wifi.rs:146-191 | a join that fails right after it began leaves station mode with no access point |
| Wifi.ScanWithoutHardware | nextgen/src/wifi.rs:108-126 | off the device every scan returns the two initial networks |
| Wifi.FailedScanServesLastResults | nextgen/src/wifi.rs:193-209 | after a successful scan, a failed one returns its results |
| Wifi.ToHeapless | nextgen/src/wifi.rs:353-359 | the text is taken exactly when its bytes fit the capacity, else the capacity error |
| Wifi.BuildClientConfig | nextgen/src/wifi.rs:329-351 | accepted exactly when the SSID fits 32 bytes and the password 64; the SSID is checked first; no authentication exactly without a password or with an empty one |
| Wifi.ClientConfigBoundaries | nextgen/src/wifi.rs:329-359 | a 32-byte SSID and a 64-byte password are accepted; 33 and 65 bytes are refused |
| Relay.SegmentValue | src/webserver.rs:73-79 | a segment has a value only when the text before its first '=' is exactly "relay"; the value is everything after that '=' |
| Relay.FindRelay | src/webserver.rs:73-80 | no value exactly when no segment has one |
| Relay.ExtractRelayParam | src/webserver.rs:71-81 | nothing without a '?' |
| Relay.FindRelayFirstMatch | src/webserver.rs:73-80 | the value comes from the first segment that has one |
| Relay.OnlyQueryIsExamined | src/webserver.rs:71-72 | only the text after the first '?' is looked at |
| Relay.RelaySegmentValue | src/webserver.rs:74-76 | "relay=" followed by anything yields that text, which may be empty or hold more '=' |
| Relay.OtherKeysDoNotMatch | src/webserver.rs:76 | a key other than exactly "relay" never matches |
| Relay.BareRelayIsSkipped | src/webserver.rs:74-77 | a "relay" segment without '=' is skipped |
| Relay.FirstRelayWins | src/webserver.rs:73-80 | the first relay segment wins over later ones |
| Relay.SegmentValueIsSlice | src/webserver.rs:74-76 | the value is a slice of its segment |
| Relay.QueryValueIsSlice | src/webserver.rs:72-80 | the value is a slice of the query text |
| Relay.ValueIsSliceOfUri | src/webserver.rs:71-81 | the value is a slice of the URI (a borrowed `&str`) |
| Relay.RelayState.HandleRoot | src/webserver.rs:20-48 | "on" and "off" set the relay; another value is 400 with the relay unchanged; no value leaves it; reading a cell never created panics |

## Left out

- HTTP routing, JSON request parsing and its 400 "Invalid … payload" answers are not modelled. Handlers take the parsed fields, and response serialisation is taken never to fail.
- `parse_json` (nextgen/src/main.rs:556-565) reads the body into a `Vec` created empty, so it reads nothing and parses an empty slice. As written, every JSON-bodied route (provisioning, login, relay, Wi-Fi save, password change) therefore answers 400, and the modelled handlers are not reached on the device. The model describes the handlers as they would act on a parsed body.
- Static asset serving and the remaining authorized routes are not modelled beyond their authorization gate (`Handlers.Protected`). `/api/status` and `/api/probes` report the probe readings, which hold `f32` temperatures, and the uptime clock. `/api/defaults` GET returns, and POST overwrites, the relay defaults (a default-state text and two `u16` thresholds) without checking them. `/api/wifi/scan` answers two fixed networks. `/api/admin/reboot` only logs a message and answers `{"rebooting": true}`; it restarts nothing. None of them reads or changes the credentials, the session or the store.
- PBKDF2, SHA-256 and the OS random source are parameters, so their internals are not modelled. The timing behaviour of `constant_time_equals` is not modelled either; only its result is.
- `SystemTime` is whole seconds and `now_rfc3339` is a given text, so sub-second time and the date formatting are not modelled.
- The mutex around the shared state is not modelled, and neither is the `Lazy` initialisation. Each handler runs to completion before the next starts.
- NVS read errors other than the 128-byte buffer limit are not modelled, and neither are I/O errors of the request body reader. The 4096-byte read buffer only bounds each chunk, and chunks are given as a sequence.
- Handlers.BootState: requires `LoadDoesNotPanic`, so boot is modelled only for stores whose salt text does not make `hex_decode` panic. The panic itself is exhibited by `Hex.OddLengthPanics` and `Persistence.DecodeRecord`.
- App.AppState.Boot: requires `LoadDoesNotPanic`, for the same reason as `Handlers.BootState`.
- App.AppState.Reload: requires `LoadDoesNotPanic`, for the same reason as `Handlers.BootState`.
- Wi-Fi radio driving is not modelled: `initialize`, `schedule_sta_connect` and `connect_sta` call into the ESP-IDF driver. A hardware scan result is a parameter of `ScanNetworks`.
- Wifi.BuildClientConfig: the `bssid` field and the other driver defaults are not modelled.
- src/webserver.rs:10 imports `RELAY_STATE` from the crate root, but its definition is not among the repository's sources. Its use with `get_or_init(|| Mutex::new(false))` (src/webserver.rs:41) shows a cell created once, and the model keeps it as an optional value.
- Relay.RelayState.HandleRoot: the sensor JSON of the answer (`build_sensors_json`, the internal temperature) is not modelled. Those are floating-point sensor readings.
- build.rs and the first-generation src/main.rs (sensor polling, relay GPIO) are not modelled.
