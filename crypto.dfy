/**
 * The cryptographic building blocks of nextgen/src/main.rs. PBKDF2-HMAC-SHA256
 * (section 5.2 of RFC 8018) and the operating system's random source are not
 * modelled: the key derivation is a parameter of type `Kdf`, and random bytes
 * are passed in by the caller.
 */
module Crypto {
  import opened Wrappers
  import opened Rust
  import opened Hex

  const SaltLen: nat := 16
  const TokenLen: nat := 32
  /** Iteration count the firmware asks PBKDF2 for; it only matters inside `Kdf`. */
  const Pbkdf2Iterations: nat := 100000

  type Salt = s: seq<byte> | |s| == SaltLen witness seq(16, _ => 0)
  type Bytes32 = s: seq<byte> | |s| == 32 witness seq(32, _ => 0)

  /**
   * PBKDF2-HMAC-SHA256 of a password (as UTF-8) under a salt, with
   * `Pbkdf2Iterations` rounds and a 32-byte output. Deterministic, otherwise
   * unconstrained.
   */
  type Kdf = (string, Salt) -> Bytes32

  /** `derive_password_hash`: the hex text of the 32-byte derived key. */
  function DerivePasswordHash(kdf: Kdf, password: string, salt: Salt): (h: string)
    ensures |h| == 64
    ensures HexDecode(h) == Ok(kdf(password, salt))
  {
    HexRoundTrip(kdf(password, salt));
    HexEncode(kdf(password, salt))
  }

  /** Two passwords get the same hash text exactly when the key derivation agrees on them. */
  lemma HashTextsAgreeIffKeysAgree(kdf: Kdf, p: string, q: string, salt: Salt)
    ensures DerivePasswordHash(kdf, p, salt) == DerivePasswordHash(kdf, q, salt)
      <==> kdf(p, salt) == kdf(q, salt)
  {
    if DerivePasswordHash(kdf, p, salt) == DerivePasswordHash(kdf, q, salt) {
      HexEncodeInjective(kdf(p, salt), kdf(q, salt));
    }
  }

  /** `generate_token`: the hex text of `TokenLen` random bytes. */
  function GenerateToken(random: Bytes32): (t: string)
    ensures |t| == 64
    ensures HexDecode(t) == Ok(random)
  {
    HexRoundTrip(random);
    HexEncode(random)
  }

  /** Tokens drawn from different random bytes differ. */
  lemma DistinctDrawsGiveDistinctTokens(a: Bytes32, b: Bytes32)
    requires a != b
    ensures GenerateToken(a) != GenerateToken(b)
  {
    if GenerateToken(a) == GenerateToken(b) {
      HexEncodeInjective(a, b);
    }
  }

  /**
   * `constant_time_equals`: different byte lengths give false at once;
   * otherwise every position is compared (`subtle::ConstantTimeEq`). Only the
   * boolean result is modelled, not the timing.
   */
  function ConstantTimeEquals(left: string, right: string): (r: bool)
    ensures r <==> left == right
  {
    if Utf8Len(left) != Utf8Len(right) then
      false
    else
      |left| == |right| && forall i :: 0 <= i < |left| ==> left[i] == right[i]
  }
}
