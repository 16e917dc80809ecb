/**
 * The authorization gates in front of the resident update operations
 * (server/v1/routes/api/residents/update.py,
 * server/v1/routes/residents/update.py and
 * server/v1/routes/residents/update_authorization.py). `Resident.authorize`
 * and `Resident.from_token` are represented by their outcome: the id of
 * the authenticated resident, or the `Result` the dependency produced.
 */
module Routes {
  import opened Results
  import opened Accounts
  import Credentials
  import AdminAuth
  import Residents
  import Info
  import Validators

  const HTTP_OK: int := 200
  const HTTP_BAD_REQUEST: int := 400

  /** Code of `_resolve_id` when a resident targets someone else. */
  const PERMISSION_DENIED: int := 301
  /** Code of the resident routes when the caller may not touch the target. */
  const UNAUTHORIZED: int := 402

  /** The result of `_resolve_id`: the id to update, or the Result to answer with. */
  datatype Resolved = Target(id: int) | Refused(result: Result<()>)

  /** A response body with its HTTP status. */
  datatype Response<+T> = Response(status: int, body: Result<T>)

  /**
   * `_resolve_id`: a caller authenticated as a resident may only name its
   * own id (301 otherwise) and the admin check is then not consulted; any
   * other caller must pass `verify_admin` with the header credentials.
   */
  function ResolveId(id: int, authenticated: Option<int>, sha: Credentials.Hasher,
                     config: seq<(string, string)>, username: string, password: string): (r: Outcome<Resolved>)
    ensures r.Raised? <==> authenticated.None? && |config| != 2
    ensures r.Returned? && r.value.Target? ==> r.value.id == id
    ensures r.Returned? && r.value.Target? <==>
      authenticated == Some(id) || (authenticated.None? && AdminAuth.VerifyAdmin(sha, config, username, password) == Returned(None))
    ensures r.Returned? && r.value.Refused? ==> r.value.result.data.None?
    ensures authenticated.Some? && authenticated.value != id ==> r == Returned(Refused(Fail(PERMISSION_DENIED)))
    ensures authenticated.None? && r.Returned? && r.value.Refused? ==> r.value.result == Fail(AdminAuth.INVALID_ADMIN)
  {
    match authenticated
    case Some(self) => if self == id then Returned(Target(id)) else Returned(Refused(Fail(PERMISSION_DENIED)))
    case None =>
      match AdminAuth.VerifyAdmin(sha, config, username, password)
      case Raised(e) => Raised(e)
      case Returned(None) => Returned(Target(id))
      case Returned(Some(failure)) => Returned(Refused(failure))
  }

  /**
   * A target is only resolved for the resident itself, or for a caller
   * holding the administrator's username and a password that checks
   * against the stored hash (in whichever order the two config rows come).
   */
  lemma {:induction false} ResolveIdAdmits(id: int, authenticated: Option<int>, sha: Credentials.Hasher,
                                           adminUsername: string, adminHash: string, username: string,
                                           password: string, swapped: bool)
    ensures var config := if swapped
      then [(AdminAuth.ADMIN_PASSWORD_KEY, adminHash), (AdminAuth.ADMIN_USERNAME_KEY, adminUsername)]
      else [(AdminAuth.ADMIN_USERNAME_KEY, adminUsername), (AdminAuth.ADMIN_PASSWORD_KEY, adminHash)]; ResolveId(id, authenticated, sha, config, username, password) == Returned(Target(id)) <==>
      authenticated == Some(id) ||
      (authenticated.None? && username == adminUsername && Credentials.CheckPassword(sha, password, adminHash))
  {
    AdminAuth.VerifyAdminDecides(sha, adminUsername, adminHash, username, password, swapped);
  }

  /**
   * `residents_update` on the API router: a refused resolution is answered
   * with status 400 and no update; otherwise `Resident.update` runs on the
   * resolved id, and a result without data is answered with status 400.
   */
  method ApiResidentsUpdate(id: int, authenticated: Option<int>, sha: Credentials.Hasher,
                            config: seq<(string, string)>, username: string, password: string,
                            info: Info.PersonalInfo, reply: Option<AccountRow>)
    returns (call: Option<Residents.UpdateCall>, r: Outcome<Response<Account>>)
    modifies info`email
    ensures ResolveId(id, authenticated, sha, config, username, password).Raised? ==> r.Raised? && call.None?
    ensures var resolved := ResolveId(id, authenticated, sha, config, username, password);
      (resolved == Returned(Target(id)) ==> info.email == Info.Normalize(old(info.email))) &&
      (resolved != Returned(Target(id)) ==> info.email == old(info.email) && call.None?)
    ensures call.Some? <==> ResolveId(id, authenticated, sha, config, username, password) == Returned(Target(id)) &&
                            Info.InfoFailure(info.name, info.room, info.phone, info.email).None?
    ensures call.Some? ==> call.value.id == id
    ensures r.Returned? ==> (r.value.status == HTTP_BAD_REQUEST <==> r.value.body.data.None?)
    ensures r.Returned? ==> r.value.status == HTTP_OK || r.value.status == HTTP_BAD_REQUEST
    ensures authenticated.Some? && authenticated.value != id ==>
      call.None? && r == Returned(Response(HTTP_BAD_REQUEST, Fail(PERMISSION_DENIED))) && info.email == old(info.email)
  {
    var resolved := ResolveId(id, authenticated, sha, config, username, password);
    if resolved.Raised? {
      return None, Raised(resolved.exception);
    }
    if resolved.value.Refused? {
      return None, Returned(Response(HTTP_BAD_REQUEST, Fail(resolved.value.result.code)));
    }
    var result;
    call, result := Residents.Update(resolved.value.id, info, reply);
    if result.Raised? {
      return call, Raised(result.exception);
    }
    var status := if result.value.data.None? then HTTP_BAD_REQUEST else HTTP_OK;
    r := Returned(Response(status, result.value));
  }

  /**
   * `residents_update` on the resident router: the caller's token must
   * name a resident (the `from_token` result carries data) whose id is the
   * requested one; otherwise status 400 with code 402 and nothing happens.
   */
  method ResidentsUpdate(session: Result<Account>, id: int, info: Info.PersonalInfo, reply: Option<AccountRow>)
    returns (call: Option<Residents.UpdateCall>, r: Outcome<Response<Account>>)
    modifies info`email
    ensures session.data.None? || session.data.value.id != id ==>
      call.None? && r == Returned(Response(HTTP_BAD_REQUEST, Fail(UNAUTHORIZED))) && info.email == old(info.email)
    ensures session.data.Some? && session.data.value.id == id ==>
      info.email == Info.Normalize(old(info.email)) &&
      (call.Some? <==> Info.InfoFailure(info.name, info.room, info.phone, info.email).None?)
    ensures call.Some? ==> session.data.Some? && call.value.id == id == session.data.value.id
    ensures r.Returned? ==> (r.value.status == HTTP_BAD_REQUEST <==> r.value.body.data.None?)
  {
    if session.data.None? || session.data.value.id != id {
      return None, Returned(Response(HTTP_BAD_REQUEST, Fail(UNAUTHORIZED)));
    }
    var result;
    call, result := Residents.Update(id, info, reply);
    if result.Raised? {
      return call, Raised(result.exception);
    }
    var status := if result.value.data.None? then HTTP_BAD_REQUEST else HTTP_OK;
    r := Returned(Response(status, result.value));
  }

  /**
   * `residents_update_authorization`: the caller's token must name a
   * resident and the old password must check against that resident's
   * stored hash (402 otherwise, nothing changes); then
   * `update_authorization` runs for that resident with the new username
   * and password, and a result without data is answered with status 400.
   */
  function ResidentsUpdateAuthorization(sha: Credentials.Hasher, roll: Credentials.Roll, session: Result<Account>,
                                        newUsername: string, oldPassword: string, newPassword: string,
                                        reply: Option<AccountRow>)
    : (r: (Option<Residents.AuthorizationCall>, Outcome<Response<Account>>))
    ensures session.data.None? || !Credentials.CheckPassword(sha, oldPassword, session.data.value.hashedPassword) ==>
      r == (None, Returned(Response(HTTP_BAD_REQUEST, Fail(UNAUTHORIZED))))
    ensures r.0.Some? <==> session.data.Some? && Credentials.CheckPassword(sha, oldPassword, session.data.value.hashedPassword) &&
                           Validators.ValidUsername(newUsername) && Validators.ValidPassword(newPassword)
    ensures r.0.Some? ==> session.data.Some? && r.0.value.id == session.data.value.id
    ensures r.0.Some? ==> Credentials.CheckPassword(sha, oldPassword, session.data.value.hashedPassword)
    ensures r.0.Some? ==> r.0.value.username == newUsername && Credentials.CheckPassword(sha, newPassword, r.0.value.hashedPassword)
    ensures r.1.Returned? ==> (r.1.value.status == HTTP_BAD_REQUEST <==> r.1.value.body.data.None?)
  {
    if session.data.None? || !Credentials.CheckPassword(sha, oldPassword, session.data.value.hashedPassword) then
      (None, Returned(Response(HTTP_BAD_REQUEST, Fail(UNAUTHORIZED))))
    else
      var (call, result) := Residents.UpdateAuthorization(sha, roll, session.data.value.id, newUsername, newPassword, reply);
      match result
      case Raised(e) => (call, Raised(e))
      case Returned(res) => (call, Returned(Response(if res.data.None? then HTTP_BAD_REQUEST else HTTP_OK, res)))
  }
}
