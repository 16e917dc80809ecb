/**
 * Administrator authentication (server/v1/models/auth.py) and the
 * administrator password update (server/v1/routes/admin/password.py). The
 * administrator's credentials are two rows of the `config` table:
 * `admin_username` and `admin_hashed_password`.
 */
module AdminAuth {
  import opened Results
  import Credentials

  const ADMIN_USERNAME_KEY: string := "admin_username"
  const ADMIN_PASSWORD_KEY: string := "admin_hashed_password"

  /** `verify_admin`'s failure code for a wrong username or a wrong password alike. */
  const INVALID_ADMIN: int := 203

  /** `admin_password`'s failure code. */
  const ADMIN_PASSWORD_REFUSED: int := 401

  /** A config row is accepted by the loop body of `verify_admin`. */
  predicate RowAccepts(sha: Credentials.Hasher, row: (string, string), username: string, password: string) {
    if row.0 == ADMIN_USERNAME_KEY then username == row.1
    else Credentials.CheckPassword(sha, password, row.1)
  }

  /** The loop of `verify_admin` over the fetched rows: the first refusing row yields 203. */
  function CheckRows(sha: Credentials.Hasher, rows: seq<(string, string)>, username: string, password: string)
    : (r: Option<Result<()>>)
    ensures r.None? <==> forall i :: 0 <= i < |rows| ==> RowAccepts(sha, rows[i], username, password)
    ensures r.Some? ==> r.value == Fail(INVALID_ADMIN)
  {
    if rows == [] then None
    else if !RowAccepts(sha, rows[0], username, password) then Some(Fail(INVALID_ADMIN))
    else
      var r := CheckRows(sha, rows[1..], username, password);
      assert forall i :: 1 <= i < |rows| ==> rows[i] == rows[1..][i - 1];
      r
  }

  /**
   * `Authorization.verify_admin`: raises unless exactly two config rows
   * come back; otherwise None when every row accepts the credentials, and
   * code 203 at the first that does not.
   */
  function VerifyAdmin(sha: Credentials.Hasher, rows: seq<(string, string)>, username: string, password: string)
    : (r: Outcome<Option<Result<()>>>)
    ensures r.Raised? <==> |rows| != 2
    ensures r.Returned? ==> (r.value.None? <==> forall i :: 0 <= i < 2 ==> RowAccepts(sha, rows[i], username, password))
    ensures r.Returned? && r.value.Some? ==> r.value.value == Fail(INVALID_ADMIN)
  {
    if |rows| != 2 then Raised("RuntimeError") else Returned(CheckRows(sha, rows, username, password))
  }

  /**
   * With the two config rows, in whichever order the database returns
   * them, verification succeeds exactly when the username matches and the
   * password checks against the stored hash; a wrong username and a wrong
   * password both give 203.
   */
  lemma {:induction false} VerifyAdminDecides(sha: Credentials.Hasher, adminUsername: string, adminHash: string,
                                              username: string, password: string, swapped: bool)
    ensures var rows := if swapped then [(ADMIN_PASSWORD_KEY, adminHash), (ADMIN_USERNAME_KEY, adminUsername)]
                        else [(ADMIN_USERNAME_KEY, adminUsername), (ADMIN_PASSWORD_KEY, adminHash)];
      VerifyAdmin(sha, rows, username, password) ==
        if username == adminUsername && Credentials.CheckPassword(sha, password, adminHash)
        then Returned(None) else Returned(Some(Fail(INVALID_ADMIN)))
  {
    var rows := if swapped then [(ADMIN_PASSWORD_KEY, adminHash), (ADMIN_USERNAME_KEY, adminUsername)]
                else [(ADMIN_USERNAME_KEY, adminUsername), (ADMIN_PASSWORD_KEY, adminHash)];
    assert ADMIN_PASSWORD_KEY != ADMIN_USERNAME_KEY by { assert ADMIN_PASSWORD_KEY[6] != ADMIN_USERNAME_KEY[6]; }
    assert RowAccepts(sha, (ADMIN_USERNAME_KEY, adminUsername), username, password) == (username == adminUsername);
    assert RowAccepts(sha, (ADMIN_PASSWORD_KEY, adminHash), username, password) ==
      Credentials.CheckPassword(sha, password, adminHash);
    var accepted := username == adminUsername && Credentials.CheckPassword(sha, password, adminHash);
    assert accepted <==> forall i :: 0 <= i < 2 ==> RowAccepts(sha, rows[i], username, password) by {
      if !accepted {
        assert !RowAccepts(sha, rows[0], username, password) || !RowAccepts(sha, rows[1], username, password);
      }
    }
  }

  /** The administrator's two rows of the `config` table. */
  class AdminConfig {
    var adminUsername: string
    var adminHashedPassword: string

    constructor (adminUsername: string, adminHashedPassword: string)
      ensures this.adminUsername == adminUsername && this.adminHashedPassword == adminHashedPassword
    {
      this.adminUsername := adminUsername;
      this.adminHashedPassword := adminHashedPassword;
    }

    /** `SELECT * FROM config WHERE name = 'admin_username' OR name = 'admin_hashed_password'`. */
    function Rows(): (rows: seq<(string, string)>)
      reads this
      ensures |rows| == 2
    {
      [(ADMIN_USERNAME_KEY, adminUsername), (ADMIN_PASSWORD_KEY, adminHashedPassword)]
    }

    /**
     * `admin_password`: when the username and old password verify, the
     * stored hash becomes `hash_password(new_password)` (no check on the new
     * password) and the answer is 204 with no body; otherwise 400 with code
     * 401 and nothing changes. The username row is never written.
     */
    method AdminPassword(sha: Credentials.Hasher, roll: Credentials.Roll,
                         username: string, oldPassword: string, newPassword: string)
      returns (status: int, r: Option<Result<()>>)
      modifies this`adminHashedPassword
      ensures var verified := username == old(adminUsername) &&
                              Credentials.CheckPassword(sha, oldPassword, old(adminHashedPassword));
        (verified ==> status == 204 && r.None? &&
                      adminHashedPassword == Credentials.HashPassword(sha, newPassword, None, roll)) &&
        (!verified ==> status == 400 && r == Some(Fail(ADMIN_PASSWORD_REFUSED)) &&
                       adminHashedPassword == old(adminHashedPassword))
    {
      VerifyAdminDecides(sha, adminUsername, adminHashedPassword, username, oldPassword, false);
      var verify := VerifyAdmin(sha, Rows(), username, oldPassword);
      if verify == Returned(None) {
        adminHashedPassword := Credentials.HashPassword(sha, newPassword, None, roll);
        return 204, None;
      }
      return 400, Some(Fail(ADMIN_PASSWORD_REFUSED));
    }
  }

  /** After the update, the administrator signs in with the new password. */
  lemma {:induction false} NewAdminPasswordVerifies(sha: Credentials.Hasher, roll: Credentials.Roll,
                                                    adminUsername: string, newPassword: string)
    ensures VerifyAdmin(sha, [(ADMIN_USERNAME_KEY, adminUsername),
                              (ADMIN_PASSWORD_KEY, Credentials.HashPassword(sha, newPassword, None, roll))],
                        adminUsername, newPassword) == Returned(None)
  {
    Credentials.CheckAfterFreshHash(sha, newPassword, roll);
    VerifyAdminDecides(sha, adminUsername, Credentials.HashPassword(sha, newPassword, None, roll),
                       adminUsername, newPassword, false);
  }
}
