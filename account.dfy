/**
 * `Credentials` of nextgen/src/main.rs: the single account of the device, its
 * salted password hash and its one bearer session.
 */
module Account {
  import opened Wrappers
  import opened Rust
  import opened Crypto
  import opened Session

  /** The value of a `Credentials` record. */
  datatype CredentialsData = CredentialsData(
    username: string,
    passwordHash: string,
    salt: Salt,
    token: Option<SessionToken>)

  /** The account the device falls back to while unprovisioned. */
  const DefaultUsername: string := "admin"
  const DefaultPassword: string := "admin"

  /** Reference meaning of a password check: the candidate hashes to the stored text. */
  predicate PasswordMatches(c: CredentialsData, candidate: string, kdf: Kdf)
  {
    DerivePasswordHash(kdf, candidate, c.salt) == c.passwordHash
  }

  /** `Credentials::with_password`: a new account with no session. */
  function NewCredentials(username: string, password: string, salt: Salt, kdf: Kdf): (c: CredentialsData)
    ensures c.username == username && c.salt == salt && c.token.None?
    ensures PasswordMatches(c, password, kdf)
  {
    CredentialsData(username, DerivePasswordHash(kdf, password, salt), salt, None)
  }

  /** `Credentials::set_password`: new salt and hash; the name and the session stay. */
  function WithNewPassword(c: CredentialsData, password: string, salt: Salt, kdf: Kdf): (r: CredentialsData)
    ensures r.username == c.username && r.token == c.token && r.salt == salt
    ensures PasswordMatches(r, password, kdf)
  {
    c.(salt := salt, passwordHash := DerivePasswordHash(kdf, password, salt))
  }

  /**
   * `Credentials::validate_token` on values: a candidate other than the live
   * session's value is Invalid and changes nothing; the right value is Expired
   * (and the session dropped) once idle for the timeout, else Authorized (and
   * the session touched).
   */
  function Validate(c: CredentialsData, candidate: string, now: int): (r: (CredentialsData, TokenValidation))
    ensures r.1 == Authorized <==>
      c.token.Some? && c.token.value.value == candidate && !IsExpired(c.token.value, now)
    ensures r.1 == Expired <==>
      c.token.Some? && c.token.value.value == candidate && IsExpired(c.token.value, now)
    ensures r.1 == Authorized ==> r.0 == c.(token := Some(Touch(c.token.value, now)))
    ensures r.1 == Expired ==> r.0 == c.(token := None)
    ensures r.1 == Invalid ==> r.0 == c
  {
    match c.token
    case None => (c, Invalid)
    case Some(session) =>
      if !ConstantTimeEquals(session.value, candidate) then (c, Invalid)
      else if IsExpired(session, now) then (c.(token := None), Expired)
      else (c.(token := Some(Touch(session, now))), Authorized)
  }

  /** `Credentials::issue_token` on values: a new session replaces any previous one. */
  function Issued(c: CredentialsData, random: Bytes32, now: int): (r: CredentialsData)
    ensures r.username == c.username && r.passwordHash == c.passwordHash && r.salt == c.salt
    ensures r.token.Some? && r.token.value.issuedAt == now && r.token.value.lastSeen == now
    ensures forall later :: (Validate(r, GenerateToken(random), later).1
                             == if later - now >= IdleTimeoutSeconds then Expired else Authorized)
    ensures forall candidate, later {:trigger Validate(r, candidate, later)} ::
      candidate != GenerateToken(random) ==> Validate(r, candidate, later).1 == Invalid
  {
    c.(token := Some(NewSession(GenerateToken(random), now)))
  }

  /** After a new password is set, exactly the passwords the key derivation cannot tell from it are accepted. */
  lemma NewPasswordIsTheOneAccepted(c: CredentialsData, password: string, salt: Salt, kdf: Kdf, candidate: string)
    ensures PasswordMatches(WithNewPassword(c, password, salt, kdf), candidate, kdf)
      <==> kdf(candidate, salt) == kdf(password, salt)
  {
    HashTextsAgreeIffKeysAgree(kdf, candidate, password, salt);
  }

  /** Issuing a token revokes the one issued before it. */
  lemma ReissueRevokesPrevious(c: CredentialsData, first: Bytes32, second: Bytes32, t1: int, t2: int, now: int)
    requires first != second
    ensures Validate(Issued(Issued(c, first, t1), second, t2), GenerateToken(first), now).1 == Invalid
  {
    DistinctDrawsGiveDistinctTokens(first, second);
  }

  /** An expired session is gone: nothing validates against what is left. */
  lemma ExpiredSessionIsConsumed(c: CredentialsData, candidate: string, now: int, next: string, later: int)
    requires Validate(c, candidate, now).1 == Expired
    ensures Validate(Validate(c, candidate, now).0, next, later) == (Validate(c, candidate, now).0, Invalid)
  {
  }

  /** Use within the idle timeout keeps a session alive, however old it is. */
  lemma ActivityKeepsSessionAlive(c: CredentialsData, candidate: string, t1: int, t2: int)
    requires Validate(c, candidate, t1).1 == Authorized
    requires t1 <= t2 < t1 + IdleTimeoutSeconds
    ensures Validate(Validate(c, candidate, t1).0, candidate, t2).1 == Authorized
  {
  }

  /** A session left idle for the timeout after its last use expires. */
  lemma IdleSessionExpires(c: CredentialsData, candidate: string, t1: int, t2: int)
    requires Validate(c, candidate, t1).1 == Authorized
    requires t2 >= t1 + IdleTimeoutSeconds
    ensures Validate(Validate(c, candidate, t1).0, candidate, t2).1 == Expired
  {
  }

  class Credentials {
    var username: string
    var passwordHash: string
    var salt: Salt
    var token: Option<SessionToken>

    function Data(): CredentialsData
      reads this
    {
      CredentialsData(username, passwordHash, salt, token)
    }

    /** `Credentials::with_password`; `salt` stands for `generate_salt()`. */
    constructor WithPassword(username: string, password: string, salt: Salt, kdf: Kdf)
      ensures Data() == NewCredentials(username, password, salt, kdf)
    {
      this.username := username;
      this.passwordHash := DerivePasswordHash(kdf, password, salt);
      this.salt := salt;
      this.token := None;
    }

    /** `Credentials::default`: admin/admin under a fresh salt. */
    constructor Default(salt: Salt, kdf: Kdf)
      ensures Data() == NewCredentials(DefaultUsername, DefaultPassword, salt, kdf)
    {
      this.username := DefaultUsername;
      this.passwordHash := DerivePasswordHash(kdf, DefaultPassword, salt);
      this.salt := salt;
      this.token := None;
    }

    /** A record rebuilt from stored values (`load_persistent_state`). */
    constructor FromData(d: CredentialsData)
      ensures Data() == d
    {
      username := d.username;
      passwordHash := d.passwordHash;
      salt := d.salt;
      token := d.token;
    }

    /** `Clone::clone`, used to keep a copy for rollback. */
    method Clone() returns (copy: Credentials)
      ensures fresh(copy) && copy.Data() == Data()
    {
      copy := new Credentials.FromData(Data());
    }

    /** Overwrite every field with those of `other` (`state.credentials = previous`). */
    method Restore(other: CredentialsData)
      modifies this
      ensures Data() == other
    {
      username := other.username;
      passwordHash := other.passwordHash;
      salt := other.salt;
      token := other.token;
    }

    /** `Credentials::verify_password`, comparing hash texts with `constant_time_equals`. */
    function VerifyPassword(candidate: string, kdf: Kdf): (r: bool)
      reads this
      ensures r <==> PasswordMatches(Data(), candidate, kdf)
    {
      ConstantTimeEquals(DerivePasswordHash(kdf, candidate, salt), passwordHash)
    }

    /** `Credentials::set_password`; `newSalt` stands for `generate_salt()`. */
    method SetPassword(newPassword: string, newSalt: Salt, kdf: Kdf)
      modifies this
      ensures Data() == WithNewPassword(old(Data()), newPassword, newSalt, kdf)
    {
      salt := newSalt;
      passwordHash := DerivePasswordHash(kdf, newPassword, salt);
    }

    /** `Credentials::issue_token`; `random` stands for the token's random bytes. */
    method IssueToken(random: Bytes32, now: int) returns (value: string)
      modifies this
      ensures value == GenerateToken(random)
      ensures Data() == Issued(old(Data()), random, now)
    {
      value := GenerateToken(random);
      token := Some(NewSession(value, now));
    }

    /** `Credentials::invalidate_token`. */
    method InvalidateToken()
      modifies this
      ensures Data() == old(Data()).(token := None)
    {
      token := None;
    }

    /** `Credentials::validate_token`. */
    method ValidateToken(candidate: string, now: int) returns (result: TokenValidation)
      modifies this
      ensures (Data(), result) == Validate(old(Data()), candidate, now)
    {
      match token
      case None =>
        result := Invalid;
      case Some(session) =>
        if !ConstantTimeEquals(session.value, candidate) {
          return Invalid;
        }
        if IsExpired(session, now) {
          InvalidateToken();
          result := Expired;
        } else {
          token := Some(Touch(session, now));
          result := Authorized;
        }
    }
  }

  /**
   * The `session_tokens_expire_after_idle_timeout` scenario: a session whose
   * last use lies more than the timeout in the past is reported Expired and
   * removed.
   */
  method ExpireAfterIdleTimeout(kdf: Kdf, salt: Salt, random: Bytes32, now: int)
    returns (result: TokenValidation, remaining: Option<SessionToken>)
    ensures result == Expired && remaining.None?
  {
    var credentials := new Credentials.WithPassword("tester", "password123", salt, kdf);
    var value := credentials.IssueToken(random, now);
    var session := credentials.token.value;
    credentials.token := Some(session.(lastSeen := session.lastSeen - (IdleTimeoutSeconds + 1)));
    result := credentials.ValidateToken(value, now);
    remaining := credentials.token;
  }

  /**
   * The `session_tokens_touch_on_activity` scenario: a use 60 seconds after
   * issue is Authorized and moves the last use to the probe time.
   */
  method TouchOnActivity(kdf: Kdf, salt: Salt, random: Bytes32, now: int)
    returns (result: TokenValidation, remaining: Option<SessionToken>)
    ensures result == Authorized
    ensures remaining.Some? && remaining.value.lastSeen >= now + 60
  {
    var credentials := new Credentials.WithPassword("tester", "password123", salt, kdf);
    var value := credentials.IssueToken(random, now);
    var probeTime := now + 60;
    result := credentials.ValidateToken(value, probeTime);
    remaining := credentials.token;
  }
}
