/**
 * Salted password hashing (server/utils.py). The stored credential is the
 * 64-character hexadecimal SHA-256 digest of `password ++ salt`, followed
 * by the salt itself. SHA-256 is not modelled: it is the parameter `sha`,
 * any function that yields 64 hexadecimal characters. The random source
 * behind `secrets.choice` is the parameter `roll`.
 */
module Credentials {
  import opened Results

  /** `SALT_LENGTH` in server/config.py. */
  const SALT_LENGTH: nat := 8

  /** Python's `string.hexdigits`. */
  const HEXDIGITS: string := "0123456789abcdefABCDEF"

  const DIGEST_LENGTH: nat := 64

  predicate IsHex(s: string) {
    forall i :: 0 <= i < |s| ==> s[i] in HEXDIGITS
  }

  /** What `sha256(...).hexdigest()` returns: 64 hexadecimal characters. */
  type Digest = s: string | |s| == DIGEST_LENGTH && IsHex(s)
    witness seq(DIGEST_LENGTH, _ => '0')

  /** The SHA-256 hex digest of a UTF-8 string, left uninterpreted. */
  type Hasher = string -> Digest

  /** A source of random choices: the `i`-th draw of `secrets.choice`. */
  type Roll = nat -> nat

  /**
   * `secure_hex_string(length)`: `length` characters, each drawn from
   * `string.hexdigits`.
   */
  function SecureHexString(length: nat, roll: Roll): (r: string)
    ensures |r| == length
    ensures IsHex(r)
  {
    seq(length, i requires 0 <= i => HEXDIGITS[roll(i) % |HEXDIGITS|])
  }

  /**
   * `hash_password(password, salt=salt)`: the digest of `password + salt`
   * followed by the salt; a missing salt is replaced by a fresh
   * `SALT_LENGTH`-character hexadecimal string drawn from `roll`.
   */
  function HashPassword(sha: Hasher, password: string, salt: Option<string>, roll: Roll): (r: string)
    ensures salt.Some? ==> |r| == DIGEST_LENGTH + |salt.value| && r[DIGEST_LENGTH..] == salt.value
    ensures salt.None? ==> |r| == DIGEST_LENGTH + SALT_LENGTH && IsHex(r)
    ensures IsHex(r[..DIGEST_LENGTH])
    ensures r[..DIGEST_LENGTH] == sha(password + r[DIGEST_LENGTH..])
  {
    var s := if salt.Some? then salt.value else SecureHexString(SALT_LENGTH, roll);
    sha(password + s) + s
  }

  /**
   * `hashed[-SALT_LENGTH:]`: the last `SALT_LENGTH` characters, or the
   * whole string when it is shorter than that.
   */
  function SaltOf(hashed: string): (salt: string)
    ensures |salt| == if |hashed| < SALT_LENGTH then |hashed| else SALT_LENGTH
    ensures salt == hashed[|hashed| - |salt|..]
  {
    if |hashed| < SALT_LENGTH then hashed else hashed[|hashed| - SALT_LENGTH..]
  }

  /** No randomness is consulted when an explicit salt is passed. */
  function NoRoll(i: nat): nat { 0 }

  /**
   * `check_password(password, hashed=hashed)`: re-hash the password with
   * the salt found at the end of `hashed` and compare whole strings. It is
   * never true for a string of the wrong length.
   */
  function CheckPassword(sha: Hasher, password: string, hashed: string): (ok: bool)
    ensures ok ==> |hashed| == DIGEST_LENGTH + SALT_LENGTH
    ensures ok ==> hashed[..DIGEST_LENGTH] == sha(password + hashed[DIGEST_LENGTH..])
  {
    hashed == HashPassword(sha, password, Some(SaltOf(hashed)), NoRoll)
  }

  /** Hashing with any salt of `SALT_LENGTH` characters checks back. */
  lemma {:induction false} CheckAfterHash(sha: Hasher, password: string, salt: string)
    requires |salt| == SALT_LENGTH
    ensures CheckPassword(sha, password, HashPassword(sha, password, Some(salt), NoRoll))
  {
    var h := HashPassword(sha, password, Some(salt), NoRoll);
    assert SaltOf(h) == salt;
  }

  /** With no salt given, the stored hash is 72 hexadecimal characters and checks back. */
  lemma {:induction false} CheckAfterFreshHash(sha: Hasher, password: string, roll: Roll)
    ensures var h := HashPassword(sha, password, None, roll);
      |h| == DIGEST_LENGTH + SALT_LENGTH && IsHex(h) && CheckPassword(sha, password, h)
  {
    var salt := SecureHexString(SALT_LENGTH, roll);
    var h := HashPassword(sha, password, None, roll);
    assert h == HashPassword(sha, password, Some(salt), NoRoll);
    CheckAfterHash(sha, password, salt);
  }

  /**
   * `check_password` accepts exactly the strings that `hash_password`
   * can produce for that password with some salt of `SALT_LENGTH`
   * characters.
   */
  lemma {:induction false} CheckPasswordExactly(sha: Hasher, password: string, hashed: string)
    ensures CheckPassword(sha, password, hashed) <==>
      exists salt :: |salt| == SALT_LENGTH && hashed == HashPassword(sha, password, Some(salt), NoRoll)
  {
    if CheckPassword(sha, password, hashed) {
      assert |SaltOf(hashed)| == SALT_LENGTH;
    }
    if exists salt :: |salt| == SALT_LENGTH && hashed == HashPassword(sha, password, Some(salt), NoRoll) {
      var salt :| |salt| == SALT_LENGTH && hashed == HashPassword(sha, password, Some(salt), NoRoll);
      CheckAfterHash(sha, password, salt);
    }
  }

  /**
   * A different password passes the check only through a digest
   * collision: `sha(other + salt) == sha(password + salt)`.
   */
  lemma {:induction false} OnlyCollisionsPass(sha: Hasher, password: string, other: string, salt: string)
    requires |salt| == SALT_LENGTH
    requires CheckPassword(sha, other, HashPassword(sha, password, Some(salt), NoRoll))
    ensures sha(other + salt) == sha(password + salt)
  {
    var h := HashPassword(sha, password, Some(salt), NoRoll);
    assert h[DIGEST_LENGTH..] == salt;
  }
}
