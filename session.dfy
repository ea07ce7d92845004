/** `SessionToken` of nextgen/src/main.rs: one bearer session with a sliding idle timeout. */
module Session {

  /** `SESSION_IDLE_TIMEOUT`, in seconds. */
  const IdleTimeoutSeconds: int := 15 * 60

  /** Times are whole seconds on the system clock. */
  datatype SessionToken = SessionToken(value: string, issuedAt: int, lastSeen: int)

  /** Outcome of `Credentials::validate_token`. */
  datatype TokenValidation = Authorized | Expired | Invalid

  /** `SessionToken::new`: issued and last seen now. */
  function NewSession(value: string, now: int): (t: SessionToken)
    ensures t.value == value && t.issuedAt == now && t.lastSeen == now
  {
    SessionToken(value, now, now)
  }

  /**
   * `SessionToken::is_expired`: idle for at least the timeout since it was last
   * seen. A clock that reads earlier than `lastSeen` makes `duration_since`
   * fail, which counts as not expired.
   */
  function IsExpired(t: SessionToken, now: int): (r: bool)
    ensures r <==> now - t.lastSeen >= IdleTimeoutSeconds
  {
    if now >= t.lastSeen then now - t.lastSeen >= IdleTimeoutSeconds else false
  }

  /** `SessionToken::touch`: the idle clock restarts at `now`; value and issue time stay. */
  function Touch(t: SessionToken, now: int): (r: SessionToken)
    ensures r.value == t.value && r.issuedAt == t.issuedAt
    ensures forall later :: now <= later < now + IdleTimeoutSeconds ==> !IsExpired(r, later)
    ensures IsExpired(r, now + IdleTimeoutSeconds)
  {
    t.(lastSeen := now)
  }

  /** Expiry is measured from the last use, never from issuance. */
  lemma ExpiryIgnoresIssueTime(t: SessionToken, issuedAt: int, now: int)
    ensures IsExpired(t, now) == IsExpired(t.(issuedAt := issuedAt), now)
  {
  }

  /** Once expired, a session stays expired as the clock moves on. */
  lemma ExpiryIsMonotone(t: SessionToken, now: int, later: int)
    requires IsExpired(t, now) && now <= later
    ensures IsExpired(t, later)
  {
  }
}
