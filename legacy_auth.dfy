/**
 * The older copy of the password helpers (server/auth.py). It reuses
 * `secure_hex_string` from server/utils.py and repeats the hashing and
 * checking logic.
 */
module LegacyAuth {
  import opened Results
  import Credentials

  /** `hash_password` of server/auth.py: digest of `password + salt`, then the salt. */
  function HashPassword(sha: Credentials.Hasher, password: string, salt: Option<string>, roll: Credentials.Roll): (r: string)
    ensures r == Credentials.HashPassword(sha, password, salt, roll)
    ensures salt.Some? ==> r[Credentials.DIGEST_LENGTH..] == salt.value
    ensures salt.None? ==> |r| == Credentials.DIGEST_LENGTH + Credentials.SALT_LENGTH
  {
    match salt
    case Some(s) => sha(password + s) + s
    case None =>
      var s := Credentials.SecureHexString(Credentials.SALT_LENGTH, roll);
      sha(password + s) + s
  }

  /** `check_password` of server/auth.py: compare against a re-hash with the trailing salt. */
  function CheckPassword(sha: Credentials.Hasher, password: string, hashed: string): (ok: bool)
    ensures ok ==> |hashed| == Credentials.DIGEST_LENGTH + Credentials.SALT_LENGTH
    ensures ok == Credentials.CheckPassword(sha, password, hashed)
  {
    var salt := if |hashed| < Credentials.SALT_LENGTH then hashed
                else hashed[|hashed| - Credentials.SALT_LENGTH..];
    hashed == HashPassword(sha, password, Some(salt), Credentials.NoRoll)
  }

  /** Hashing without a salt and checking back with the same password succeeds. */
  lemma {:induction false} CheckAfterFreshHash(sha: Credentials.Hasher, password: string, roll: Credentials.Roll)
    ensures CheckPassword(sha, password, HashPassword(sha, password, None, roll))
  {
    Credentials.CheckAfterFreshHash(sha, password, roll);
  }
}
