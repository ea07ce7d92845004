/**
 * The credential record kept in the "controller" namespace of the ESP32's
 * non-volatile storage (NVS), nextgen/src/main.rs. The flash partition is a
 * map from key to typed value; a write that the hardware refuses is modelled by
 * naming the failing steps in a set passed to the writing method.
 */
module Persistence {
  import opened Wrappers
  import opened Rust
  import opened Hex
  import opened Crypto
  import opened Account

  const UserKey: string := "user"
  const HashKey: string := "pwd_hash"
  const SaltKey: string := "pwd_salt"
  const ProvisionedKey: string := "prov"

  /** `MAX_NVS_STR_LEN`: size of the buffer `get_str` reads into, terminator included. */
  const MaxNvsStrLen: nat := 128

  datatype Value = U8(b: byte) | Str(s: string)
  type Entries = map<string, Value>

  /** `PersistentState`: what survives a reboot. */
  datatype PersistentState = PersistentState(credentials: CredentialsData, provisioned: bool)

  /**
   * Why `load_persistent_state` gives up. `SaltDecodePanic` stands for the
   * panic `hex_decode` raises when a two-byte slice of the salt text runs
   * past its end or off a character boundary before any pair fails to parse.
   */
  datatype LoadError = ReadFailed(key: string) | InvalidSaltEncoding | InvalidSaltLength | SaltDecodePanic

  /** A failed `set_*`, `remove` or `commit`, by step number. */
  datatype NvsError = WriteFailed(step: nat)

  predicate Stores(m: Entries, key: string, v: Value) {
    key in m && m[key] == v
  }

  /** `get_u8(prov)` gives a non-zero byte; absent (or stored with another type) reads as false. */
  predicate Provisioned(m: Entries) {
    ProvisionedKey in m && m[ProvisionedKey].U8? && m[ProvisionedKey].b != 0
  }

  /**
   * `read_nvs_str`: a text that does not fit the 128-byte buffer together with
   * its terminator is an error; a missing key (or one stored with another type)
   * is `None`.
   */
  function ReadNvsStr(m: Entries, key: string): (r: Result<Option<string>, LoadError>)
    ensures r.Err? <==> key in m && m[key].Str? && Utf8Len(m[key].s) + 1 > MaxNvsStrLen
    ensures r.Err? ==> r.error == ReadFailed(key)
    ensures r.Ok? && r.value.Some? <==>
      key in m && m[key].Str? && Utf8Len(m[key].s) < MaxNvsStrLen
    ensures r.Ok? && r.value.Some? ==> m[key] == Str(r.value.value)
  {
    if key in m && m[key].Str? then
      if Utf8Len(m[key].s) + 1 > MaxNvsStrLen then Err(ReadFailed(key)) else Ok(Some(m[key].s))
    else
      Ok(None)
  }

  /** The record as rebuilt from the hex text of the salt. */
  function DecodeRecord(username: string, passwordHash: string, saltText: string): (r: Result<Option<PersistentState>, LoadError>)
    ensures r.Ok? ==> r.value.Some?
    ensures r.Ok? ==> HexDecode(saltText) == Ok(r.value.value.credentials.salt)
    ensures r.Ok? ==> r.value.value == PersistentState(r.value.value.credentials, true)
    ensures r.Ok? ==>
      r.value.value.credentials.username == username
      && r.value.value.credentials.passwordHash == passwordHash
      && r.value.value.credentials.token.None?
    ensures r == Err(InvalidSaltEncoding) <==> HexDecode(saltText) == Err(InvalidDigit)
    ensures r == Err(SaltDecodePanic) <==> HexDecode(saltText) == Err(SlicePanic)
    ensures HexDecode(saltText).Ok? && |HexDecode(saltText).value| != SaltLen ==> r == Err(InvalidSaltLength)
  {
    match HexDecode(saltText)
    case Err(InvalidDigit) => Err(InvalidSaltEncoding)
    case Err(SlicePanic) => Err(SaltDecodePanic)
    case Ok(bytes) =>
      if |bytes| != SaltLen then Err(InvalidSaltLength)
      else Ok(Some(PersistentState(CredentialsData(username, passwordHash, bytes, None), true)))
  }

  /**
   * `load_persistent_state`: nothing unless the provisioned flag is set; then
   * user name, hash and salt in that order, any of them missing meaning
   * nothing is stored, an unreadable one an error.
   */
  function Load(m: Entries): (r: Result<Option<PersistentState>, LoadError>)
    ensures !Provisioned(m) ==> r == Ok(None)
    ensures Provisioned(m) && UserKey !in m ==> r == Ok(None)
    ensures Provisioned(m) ==>
      (ReadNvsStr(m, UserKey) == Ok(None) ==> r == Ok(None))
      && (ReadNvsStr(m, UserKey).Err? ==> r == Err(ReadFailed(UserKey)))
    ensures Provisioned(m) && ReadNvsStr(m, UserKey).Ok? && ReadNvsStr(m, UserKey).value.Some? ==>
      (ReadNvsStr(m, HashKey) == Ok(None) ==> r == Ok(None))
      && (ReadNvsStr(m, HashKey).Err? ==> r == Err(ReadFailed(HashKey)))
    ensures (Provisioned(m) && ReadNvsStr(m, UserKey).Ok? && ReadNvsStr(m, UserKey).value.Some?
             && ReadNvsStr(m, HashKey).Ok? && ReadNvsStr(m, HashKey).value.Some?) ==>
      (ReadNvsStr(m, SaltKey) == Ok(None) ==> r == Ok(None))
      && (ReadNvsStr(m, SaltKey).Err? ==> r == Err(ReadFailed(SaltKey)))
      && (ReadNvsStr(m, SaltKey).Ok? && ReadNvsStr(m, SaltKey).value.Some? ==>
          r == DecodeRecord(m[UserKey].s, m[HashKey].s, m[SaltKey].s))
    ensures r.Ok? && r.value.Some? ==>
      var c := r.value.value.credentials;
      r.value.value.provisioned && c.token.None?
      && Stores(m, UserKey, Str(c.username))
      && Stores(m, HashKey, Str(c.passwordHash))
      && SaltKey in m && m[SaltKey].Str? && HexDecode(m[SaltKey].s) == Ok(c.salt)
  {
    if !Provisioned(m) then Ok(None)
    else
      match ReadNvsStr(m, UserKey)
      case Err(e) => Err(e)
      case Ok(None) => Ok(None)
      case Ok(Some(username)) =>
        match ReadNvsStr(m, HashKey)
        case Err(e) => Err(e)
        case Ok(None) => Ok(None)
        case Ok(Some(passwordHash)) =>
          match ReadNvsStr(m, SaltKey)
          case Err(e) => Err(e)
          case Ok(None) => Ok(None)
          case Ok(Some(saltText)) => DecodeRecord(username, passwordHash, saltText)
  }

  /** A stored salt that decodes to other than 16 bytes is refused, and boot falls back to the default account. */
  lemma SaltOfWrongLengthIsRefused(m: Entries)
    requires Provisioned(m)
    requires UserKey in m && m[UserKey].Str? && Utf8Len(m[UserKey].s) < MaxNvsStrLen
    requires HashKey in m && m[HashKey].Str? && Utf8Len(m[HashKey].s) < MaxNvsStrLen
    requires SaltKey in m && m[SaltKey].Str? && Utf8Len(m[SaltKey].s) < MaxNvsStrLen
    requires HexDecode(m[SaltKey].s).Ok? && |HexDecode(m[SaltKey].s).value| != SaltLen
    ensures Load(m) == Err(InvalidSaltLength)
  {
  }

  /**
   * Effect of `persist_credentials_state` on the entries and whether it reports
   * success. Steps 0 to 3 set user, hash, salt (as hex) and the flag; step 4
   * commits. The first failing step ends the call; earlier writes stay.
   */
  function PersistEffect(m: Entries, c: CredentialsData, provisioned: bool, fail: set<nat>): (r: (Entries, bool))
    ensures r.1 <==> 0 !in fail && 1 !in fail && 2 !in fail && 3 !in fail && 4 !in fail
    ensures forall k :: k != UserKey && k != HashKey && k != SaltKey && k != ProvisionedKey ==>
      (k in r.0 <==> k in m) && (k in m ==> r.0[k] == m[k])
    ensures 0 in fail ==> r.0 == m
  {
    if 0 in fail then (m, false) else
    var m1 := m[UserKey := Str(c.username)];
    if 1 in fail then (m1, false) else
    var m2 := m1[HashKey := Str(c.passwordHash)];
    if 2 in fail then (m2, false) else
    var m3 := m2[SaltKey := Str(HexEncode(c.salt))];
    if 3 in fail then (m3, false) else
    var m4 := m3[ProvisionedKey := U8(if provisioned then 1 else 0)];
    (m4, 4 !in fail)
  }

  /**
   * Effect of `clear_persistent_credentials`: steps 0 to 2 remove user, hash and
   * salt, their failures ignored; step 3 sets the flag to 0; step 4 commits.
   */
  function ClearEffect(m: Entries, fail: set<nat>): (r: (Entries, bool))
    ensures r.1 <==> 3 !in fail && 4 !in fail
    ensures 3 !in fail ==> Stores(r.0, ProvisionedKey, U8(0))
    ensures 0 !in fail ==> UserKey !in r.0
    ensures forall k :: k != UserKey && k != HashKey && k != SaltKey && k != ProvisionedKey ==>
      (k in r.0 <==> k in m) && (k in m ==> r.0[k] == m[k])
  {
    var m1 := if 0 in fail then m else m - {UserKey};
    var m2 := if 1 in fail then m1 else m1 - {HashKey};
    var m3 := if 2 in fail then m2 else m2 - {SaltKey};
    if 3 in fail then (m3, false) else (m3[ProvisionedKey := U8(0)], 4 !in fail)
  }

  lemma HexEncodeFitsBuffer(bytes: seq<byte>)
    ensures Utf8Len(HexEncode(bytes)) == 2 * |bytes|
  {
    var s := HexEncode(bytes);
    assert forall i :: 0 <= i < |s| ==> s[i] as int < 0x80 by {
      forall i | 0 <= i < |s| ensures s[i] as int < 0x80 {
        assert IsLowerHexDigit(s[i]);
      }
    }
  }

  /**
   * A persist that went through is read back by the next boot, session aside,
   * as long as user name and hash fit the read buffer.
   */
  lemma LoadAfterPersist(m: Entries, c: CredentialsData, fail: set<nat>)
    requires PersistEffect(m, c, true, fail).1
    requires Utf8Len(c.username) < MaxNvsStrLen && Utf8Len(c.passwordHash) < MaxNvsStrLen
    ensures Load(PersistEffect(m, c, true, fail).0) == Ok(Some(PersistentState(c.(token := None), true)))
  {
    HexEncodeFitsBuffer(c.salt);
    HexRoundTrip(c.salt);
  }

  /**
   * A user name of 128 bytes or more is stored but cannot be read back: the
   * next boot fails to load and falls back to the default account.
   */
  lemma LongUsernameIsNotReloaded(m: Entries, c: CredentialsData, fail: set<nat>)
    requires PersistEffect(m, c, true, fail).1
    requires Utf8Len(c.username) >= MaxNvsStrLen
    ensures Load(PersistEffect(m, c, true, fail).0) == Err(ReadFailed(UserKey))
  {
  }

  /**
   * A persist whose second write fails leaves the new user name beside the
   * old hash and salt, and the next boot accepts that mixed record.
   */
  lemma PartialPersistMixesRecords(m: Entries, stored: CredentialsData, c: CredentialsData, fail: set<nat>)
    requires Load(m) == Ok(Some(PersistentState(stored, true)))
    requires 0 !in fail && 1 in fail
    requires Utf8Len(c.username) < MaxNvsStrLen
    ensures Load(PersistEffect(m, c, true, fail).0) == Ok(Some(PersistentState(stored.(username := c.username), true)))
  {
    var m1 := PersistEffect(m, c, true, fail).0;
    assert m1 == m[UserKey := Str(c.username)];
    assert Provisioned(m1);
    assert ReadNvsStr(m1, UserKey) == Ok(Some(c.username));
    assert ReadNvsStr(m1, HashKey) == ReadNvsStr(m, HashKey);
    assert ReadNvsStr(m1, SaltKey) == ReadNvsStr(m, SaltKey);
  }

  /** Once the flag has been cleared, the next boot finds nothing, whatever removals failed. */
  lemma LoadAfterClear(m: Entries, fail: set<nat>)
    requires 3 !in fail
    ensures Load(ClearEffect(m, fail).0) == Ok(None)
  {
  }

  /**
   * A clear whose flag write fails, but whose removal of the user name went
   * through, still leaves nothing to load.
   */
  lemma ClearWithoutFlagStillForgetsUser(m: Entries, fail: set<nat>)
    requires 0 !in fail
    ensures Load(ClearEffect(m, fail).0) == Ok(None)
  {
  }

  /** The device's NVS namespace. */
  class NvsStore {
    var entries: Entries

    constructor (initial: Entries)
      ensures entries == initial
    {
      entries := initial;
    }

    /** `persist_credentials_state`; the steps in `fail` are refused by the flash. */
    method Persist(c: CredentialsData, provisioned: bool, fail: set<nat>) returns (r: Result<(), NvsError>)
      modifies this
      ensures (entries, r.Ok?) == PersistEffect(old(entries), c, provisioned, fail)
    {
      if 0 in fail { return Err(WriteFailed(0)); }
      entries := entries[UserKey := Str(c.username)];
      if 1 in fail { return Err(WriteFailed(1)); }
      entries := entries[HashKey := Str(c.passwordHash)];
      var saltHex := HexEncode(c.salt);
      if 2 in fail { return Err(WriteFailed(2)); }
      entries := entries[SaltKey := Str(saltHex)];
      if 3 in fail { return Err(WriteFailed(3)); }
      entries := entries[ProvisionedKey := U8(if provisioned then 1 else 0)];
      if 4 in fail { return Err(WriteFailed(4)); }
      r := Ok(());
    }

    /** `clear_persistent_credentials`; the steps in `fail` are refused by the flash. */
    method Clear(fail: set<nat>) returns (r: Result<(), NvsError>)
      modifies this
      ensures (entries, r.Ok?) == ClearEffect(old(entries), fail)
    {
      if 0 !in fail { entries := entries - {UserKey}; }
      if 1 !in fail { entries := entries - {HashKey}; }
      if 2 !in fail { entries := entries - {SaltKey}; }
      if 3 in fail { return Err(WriteFailed(3)); }
      entries := entries[ProvisionedKey := U8(0)];
      if 4 in fail { return Err(WriteFailed(4)); }
      r := Ok(());
    }
  }
}
