/**
 * Residents in the v1 `accounts` table (server/v1/models/residents.py): an
 * approved account. Listing, sign-in, token resolution and the two update
 * operations. The stored procedures `UpdateResidentAuthorization`,
 * `UpdateResident` and `DeleteResidents` are not visible: the model records
 * the call each operation issues and takes the row the procedure returns as
 * an input.
 */
module Residents {
  import opened Results
  import opened Validators
  import opened Listing
  import opened Accounts
  import Credentials
  import Snowflakes
  import Info

  const INVALID_USERNAME: int := 105
  const INVALID_PASSWORD: int := 106
  const AUTHORIZATION_NOT_UPDATED: int := 107
  const INVALID_TOKEN: int := 201
  const RESIDENT_NOT_UPDATED: int := 301

  /** The rows `query` and `count` select: approved, with `build_sql_condition`'s filter. */
  predicate ResidentMatches(f: Filter, row: AccountRow) {
    row.approved && FilterMatches(f, false, row)
  }

  /** `build_sql_condition(...)` followed by `where.append("approved = 1")`. */
  method ResidentCondition(f: Filter) returns (r: Option<(seq<Clause>, seq<Param>)>)
    ensures r.None? <==> !FilterValid(f)
    ensures r.Some? ==> forall row :: Holds(r.value.0, r.value.1, row) <==> ResidentMatches(f, row)
  {
    var packed := BuildSqlCondition(f);
    if packed.None? {
      return None;
    }
    var (clauses, params) := packed.value;
    forall row
      ensures Holds(clauses + [ApprovedIs(true)], params + [], row) <==> ResidentMatches(f, row)
    {
      HoldsAppend(clauses, params, [ApprovedIs(true)], [], row);
    }
    assert params + [] == params;
    return Some((clauses + [ApprovedIs(true)], params));
  }

  /** The page `query` lists, before the rows are converted to models. */
  function ResidentPage(rows: map<int, AccountRow>, f: Filter, orderBy: string, ascending: bool, offset: nat)
    : (page: seq<AccountRow>)
    ensures |page| <= PAGE_SIZE
    ensures forall row :: row in page ==> row in rows.Values && row.approved && FilterMatches(f, false, row)
    ensures Ordered(page, row => OrderKey(OrderColumn(orderBy), row), ascending)
  {
    Listing.Query(Rows(rows), row => ResidentMatches(f, row), row => OrderKey(OrderColumn(orderBy), row), ascending, offset)
  }

  /**
   * `Resident.query`: an invalid filter gives `[]`; a negative offset makes
   * the database raise; otherwise one page of approved rows ordered by
   * `order_by` (unknown columns fall back to `id`).
   */
  method Query(table: AccountsTable, f: Filter, orderBy: string, ascending: bool, offset: int)
    returns (r: Outcome<seq<Account>>)
    ensures !FilterValid(f) ==> r == Returned([])
    ensures FilterValid(f) && offset < 0 ==> r.Raised?
    ensures FilterValid(f) && offset >= 0 ==> r == FromRows(ResidentPage(table.rows, f, orderBy, ascending, offset))
  {
    var condition := ResidentCondition(f);
    if condition.None? {
      return Returned([]);
    }
    var (clauses, params) := condition.value;
    var column := OrderColumn(orderBy);
    if offset < 0 {
      return Raised("ProgrammingError");
    }
    QueryCongruent(Rows(table.rows), row => Holds(clauses, params, row), row => ResidentMatches(f, row),
                   row => OrderKey(column, row), ascending, offset);
    var page := Listing.Query(Rows(table.rows), row => Holds(clauses, params, row),
                              row => OrderKey(column, row), ascending, offset);
    r := FromRows(page);
  }

  /** `Resident.count`: the number of approved rows the filter selects, 0 for an invalid filter. */
  method Count(table: AccountsTable, f: Filter) returns (n: nat)
    ensures n == if FilterValid(f) then Listing.Count(Rows(table.rows), row => ResidentMatches(f, row)) else 0
  {
    var condition := ResidentCondition(f);
    if condition.None? {
      return 0;
    }
    var (clauses, params) := condition.value;
    QueryCongruent(Rows(table.rows), row => Holds(clauses, params, row), row => ResidentMatches(f, row),
                   row => OrderKey("id", row), true, 0);
    n := Listing.Count(Rows(table.rows), row => Holds(clauses, params, row));
  }

  /** Looking a resident up by id lists that row alone when it is approved, else nothing. */
  lemma {:induction false} PageById(rows: map<int, AccountRow>, id: int)
    requires KeysAreIds(rows)
    ensures ResidentPage(rows, Filter(Some(id), None, None, None), "id", true, 0) ==
      if id in rows && rows[id].approved then [rows[id]] else []
  {
    var f := Filter(Some(id), None, None, None);
    SelectSingleKey(rows, id, row => ResidentMatches(f, row));
    var selected := Select(Rows(rows), row => ResidentMatches(f, row));
    var key := row => OrderKey(OrderColumn("id"), row);
    if id in rows && rows[id].approved {
      QuerySingle(Rows(rows), row => ResidentMatches(f, row), key, true, rows[id]);
    } else {
      QueryNone(Rows(rows), row => ResidentMatches(f, row), key, true, 0);
    }
  }

  /* ---------- sign-in ---------- */

  /** A bearer token, identified by the snowflake it was issued for. */
  datatype Token = Token(id: int)

  /** The first account read from a page is the page's first row. */
  lemma FirstResident(page: seq<AccountRow>, residents: seq<Account>)
    requires FromRows(page) == Returned(residents) && |residents| > 0
    ensures page[0] in page && page[0].id == residents[0].id && page[0].hashedPassword == residents[0].hashedPassword
  {
    assert FromRow(page[0]) == Some(residents[0]);
  }

  /**
   * `create_token`: list residents with `query(username=...)`, take the
   * first (lowest id), and issue a token for it when the password checks.
   * The username filter is `build_sql_condition`'s substring match.
   */
  function TokenDecision(sha: Credentials.Hasher, rows: map<int, AccountRow>, f: Filter, password: string)
    : (r: Outcome<Option<Token>>)
    ensures !FilterValid(f) ==> r == Returned(None)
    ensures r.Returned? && r.value.Some? ==>
      exists row :: row in rows.Values && row.id == r.value.value.id && row.approved && FilterMatches(f, false, row) &&
                     Credentials.CheckPassword(sha, password, row.hashedPassword)
  {
    if !FilterValid(f) then Returned(None)
    else
      var page := ResidentPage(rows, f, "id", true, 0);
      match FromRows(page)
      case Raised(e) => Raised(e)
      case Returned(residents) =>
        if |residents| == 0 then Returned(None)
        else if !Credentials.CheckPassword(sha, password, residents[0].hashedPassword) then Returned(None)
        else
          FirstResident(page, residents);
          Returned(Some(Token(residents[0].id)))
  }

  /** `Resident.create_token` as written. */
  method CreateToken(table: AccountsTable, sha: Credentials.Hasher, username: string, password: string)
    returns (r: Outcome<Option<Token>>)
    ensures r == TokenDecision(sha, table.rows, Filter(None, None, None, Some(username)), password)
  {
    var f := Filter(None, None, None, Some(username));
    var residents := Query(table, f, "id", true, 0);
    if residents.Raised? {
      return Raised(residents.exception);
    }
    if |residents.value| == 0 {
      return Returned(None);
    }
    var resident := residents.value[0];
    if !Credentials.CheckPassword(sha, password, resident.hashedPassword) {
      return Returned(None);
    }
    return Returned(Some(Token(resident.id)));
  }

  /** A token names an approved resident whose hash the password checks against. */
  lemma {:induction false} TokenSound(sha: Credentials.Hasher, rows: map<int, AccountRow>, f: Filter, password: string, t: Token)
    requires KeysAreIds(rows)
    requires TokenDecision(sha, rows, f, password) == Returned(Some(t))
    ensures t.id in rows && rows[t.id].approved && FilterMatches(f, false, rows[t.id])
    ensures Credentials.CheckPassword(sha, password, rows[t.id].hashedPassword)
  {
    var row :| row in rows.Values && row.id == t.id && row.approved && FilterMatches(f, false, row) &&
               Credentials.CheckPassword(sha, password, row.hashedPassword);
    var k :| k in rows && rows[k] == row;
  }

  /**
   * As written, signing in with a proper substring of a resident's
   * username and that resident's password yields the resident's token.
   */
  lemma {:induction false} SubstringSignIn(sha: Credentials.Hasher, id: int, password: string, salt: string,
                                           phone: string)
    requires |salt| == Credentials.SALT_LENGTH
    ensures var row := AccountRow(id, "resident", 1, None, Some(phone), None, "alice",
                                  Credentials.HashPassword(sha, password, Some(salt), Credentials.NoRoll), true);
      TokenDecision(sha, map[id := row], Filter(None, None, None, Some("ali")), password) == Returned(Some(Token(id)))
  {
    var row := AccountRow(id, "resident", 1, None, Some(phone), None, "alice",
                          Credentials.HashPassword(sha, password, Some(salt), Credentials.NoRoll), true);
    var rows := map[id := row];
    var f := Filter(None, None, None, Some("ali"));
    assert OccursAt("alice", "ali", 0);
    assert ResidentMatches(f, row);
    SelectSingleKey(rows, id, r => ResidentMatches(f, r));
    QuerySingle(Rows(rows), r => ResidentMatches(f, r), r => OrderKey(OrderColumn("id"), r), true, row);
    Credentials.CheckAfterHash(sha, password, salt);
  }

  /** The rows an exact-username sign-in selects. */
  predicate ExactResident(username: string, row: AccountRow) {
    row.approved && row.username == username
  }

  /**
   * Sign-in as evidently intended: the resident whose username equals the
   * given one, if the password checks against its hash.
   */
  function TokenDecisionExact(sha: Credentials.Hasher, rows: map<int, AccountRow>, username: string, password: string)
    : (r: Outcome<Option<Token>>)
    ensures !ValidUsername(username) ==> r == Returned(None)
    ensures r.Returned? && r.value.Some? ==>
      exists row :: row in rows.Values && row.id == r.value.value.id && row.approved && row.username == username &&
                     Credentials.CheckPassword(sha, password, row.hashedPassword)
  {
    if !ValidUsername(username) then Returned(None)
    else
      var page := Listing.Query(Rows(rows), row => ExactResident(username, row), row => OrderKey("id", row), true, 0);
      match FromRows(page)
      case Raised(e) => Raised(e)
      case Returned(residents) =>
        if |residents| == 0 then Returned(None)
        else if !Credentials.CheckPassword(sha, password, residents[0].hashedPassword) then Returned(None)
        else
          FirstResident(page, residents);
          Returned(Some(Token(residents[0].id)))
  }

  /**
   * With unique usernames, exact sign-in issues a token exactly for the
   * approved resident holding that username, when the password checks.
   */
  lemma {:induction false} ExactSignIn(sha: Credentials.Hasher, rows: map<int, AccountRow>, username: string,
                                       password: string, id: int)
    requires KeysAreIds(rows) && UsernamesUnique(rows)
    requires ValidUsername(username) && id in rows && rows[id].username == username && rows[id].approved
    requires rows[id].phone.Some?
    ensures TokenDecisionExact(sha, rows, username, password) ==
      if Credentials.CheckPassword(sha, password, rows[id].hashedPassword) then Returned(Some(Token(id)))
      else Returned(None)
  {
    SelectSingleKey(rows, id, row => ExactResident(username, row));
    QuerySingle(Rows(rows), row => ExactResident(username, row), row => OrderKey("id", row), true, rows[id]);
  }

  /** Exact sign-in never issues a token for a resident with a different username. */
  lemma {:induction false} ExactSignInSound(sha: Credentials.Hasher, rows: map<int, AccountRow>, username: string,
                                            password: string, t: Token)
    requires KeysAreIds(rows)
    requires TokenDecisionExact(sha, rows, username, password) == Returned(Some(t))
    ensures t.id in rows && rows[t.id].approved && rows[t.id].username == username
    ensures Credentials.CheckPassword(sha, password, rows[t.id].hashedPassword)
  {
    var row :| row in rows.Values && row.id == t.id && row.approved && row.username == username &&
               Credentials.CheckPassword(sha, password, row.hashedPassword);
    var k :| k in rows && rows[k] == row;
  }

  /**
   * `Resident.from_token`: `decoded` is the snowflake id carried by a token
   * that decodes and has not expired (None otherwise). The resident is
   * returned only when exactly one approved row has that id; every failure,
   * including an exception while listing, gives code 201.
   */
  method FromToken(table: AccountsTable, decoded: Option<int>) returns (r: Result<Account>)
    requires KeysAreIds(table.rows)
    ensures r.data.Some? <==> decoded.Some? && decoded.value in table.rows &&
                              table.rows[decoded.value].approved && table.rows[decoded.value].phone.Some?
    ensures r.data.Some? ==> r.code == 0 && FromRow(table.rows[decoded.value]) == Some(r.data.value)
    ensures r.data.None? ==> r == Fail(INVALID_TOKEN)
  {
    if decoded.None? {
      return Fail(INVALID_TOKEN);
    }
    var id := decoded.value;
    PageById(table.rows, id);
    var residents := Query(table, Filter(Some(id), None, None, None), "id", true, 0);
    if residents.Returned? && |residents.value| == 1 {
      return Ok(residents.value[0]);
    }
    return Fail(INVALID_TOKEN);
  }

  /* ---------- updates ---------- */

  /** `EXECUTE UpdateResidentAuthorization @Id, @Username, @HashedPassword`. */
  datatype AuthorizationCall = UpdateResidentAuthorization(id: int, username: string, hashedPassword: string)

  /**
   * `Resident.update_authorization`: 105 for an invalid username, then 106
   * for an invalid password; otherwise the procedure is called with the id,
   * the new username and `hash_password(password)`, and a missing result
   * row gives 107.
   */
  function UpdateAuthorization(sha: Credentials.Hasher, roll: Credentials.Roll, id: int, username: string,
                               password: string, reply: Option<AccountRow>)
    : (r: (Option<AuthorizationCall>, Outcome<Result<Account>>))
    ensures r.0.None? <==> !ValidUsername(username) || !ValidPassword(password)
    ensures !ValidUsername(username) ==> r.1 == Returned(Fail(INVALID_USERNAME))
    ensures ValidUsername(username) && !ValidPassword(password) ==> r.1 == Returned(Fail(INVALID_PASSWORD))
    ensures r.0.Some? ==> r.0.value.id == id && r.0.value.username == username &&
                          Credentials.CheckPassword(sha, password, r.0.value.hashedPassword)
    ensures r.0.Some? && reply.None? ==> r.1 == Returned(Fail(AUTHORIZATION_NOT_UPDATED))
    ensures r.0.Some? && reply.Some? ==>
      r.1 == match FromRow(reply.value) case None => Raised("ValidationError") case Some(a) => Returned(Ok(a))
  {
    if !ValidUsername(username) then (None, Returned(Fail(INVALID_USERNAME)))
    else if !ValidPassword(password) then (None, Returned(Fail(INVALID_PASSWORD)))
    else
      var hashed := Credentials.HashPassword(sha, password, None, roll);
      Credentials.CheckAfterFreshHash(sha, password, roll);
      var call := UpdateResidentAuthorization(id, username, hashed);
      match reply
      case None => (Some(call), Returned(Fail(AUTHORIZATION_NOT_UPDATED)))
      case Some(row) =>
        (Some(call), match FromRow(row) case None => Raised("ValidationError") case Some(a) => Returned(Ok(a)))
  }

  /** `EXECUTE UpdateResident @Id, @Name, @Room, @Birthday, @Phone, @Email`. */
  datatype UpdateCall = UpdateResident(id: int, name: string, room: int, birthday: Option<Info.Date>,
                                       phone: string, email: Option<string>)

  /**
   * `Resident.update`: `validate_info`'s failure is returned unchanged and
   * no procedure is called; otherwise `UpdateResident` is called with the
   * id and the (normalised) fields, and a missing result row gives 301.
   */
  method Update(id: int, info: Info.PersonalInfo, reply: Option<AccountRow>)
    returns (call: Option<UpdateCall>, r: Outcome<Result<Account>>)
    modifies info`email
    ensures info.email == Info.Normalize(old(info.email))
    ensures var failure := Info.InfoFailure(info.name, info.room, info.phone, info.email);
      (failure.Some? ==> call.None? && r == Returned(Fail(failure.value))) &&
      (failure.None? ==> call == Some(UpdateResident(id, info.name, info.room, info.birthday, info.phone, info.email))) &&
      (failure.None? && reply.None? ==> r == Returned(Fail(RESIDENT_NOT_UPDATED))) &&
      (failure.None? && reply.Some? ==>
        r == match FromRow(reply.value) case None => Raised("ValidationError") case Some(a) => Returned(Ok(a)))
  {
    var result := info.ValidateInfo();
    if result.Some? {
      return None, Returned(Fail(result.value.code));
    }
    call := Some(UpdateResident(id, info.name, info.room, info.birthday, info.phone, info.email));
    if reply.None? {
      return call, Returned(Fail(RESIDENT_NOT_UPDATED));
    }
    var account := FromRow(reply.value);
    if account.None? {
      return call, Raised("ValidationError");
    }
    return call, Returned(Ok(account.value));
  }

  /* ---------- delete_many ---------- */

  /** `s * n` for a string. */
  function Repeat(s: string, n: nat): (r: string)
    ensures |r| == n * |s|
    ensures n > 0 ==> r[..|s|] == s
  {
    if n == 0 then "" else s + Repeat(s, n - 1)
  }

  /** `[s] * n`. */
  function Copies(s: string, n: nat): (r: seq<string>)
    ensures |r| == n
  {
    if n == 0 then [] else [s] + Copies(s, n - 1)
  }

  /** `sep.join(parts)` over a list of strings. */
  function JoinWith(sep: string, parts: seq<string>): string {
    if |parts| == 0 then "" else if |parts| == 1 then parts[0] else parts[0] + sep + JoinWith(sep, parts[1..])
  }

  /** `sep.join(s)` over a string: Python iterates a string character by character. */
  function JoinChars(sep: string, s: string): (r: string)
    ensures |s| >= 2 ==> |r| > |sep| && r[0] == s[0] && r[1..1 + |sep|] == sep
  {
    if |s| <= 1 then s else [s[0]] + sep + JoinChars(sep, s[1..])
  }

  /** A T-SQL list of one-column row values, each bound to one marker: `(?)`, `(?), (?)`, ... */
  predicate RowList(t: string)
    decreases |t|
  {
    t == "(?)" || (|t| > 5 && t[..5] == "(?), " && RowList(t[5..]))
  }

  /** The number of `?` markers in a statement. */
  function Markers(t: string): nat {
    if |t| == 0 then 0 else (if t[0] == '?' then 1 else 0) + Markers(t[1..])
  }

  lemma {:induction false} MarkersAppend(a: string, b: string)
    ensures Markers(a + b) == Markers(a) + Markers(b)
  {
    if |a| > 0 {
      assert (a + b)[1..] == a[1..] + b;
      MarkersAppend(a[1..], b);
    } else {
      assert a + b == b;
    }
  }

  /** The row list `delete_many` evidently means: `", ".join(["(?)"] * n)`. */
  function IdArray(n: nat): string {
    JoinWith(", ", Copies("(?)", n))
  }

  /** The row list `delete_many` builds: `", ".join("(?)" * n)`, joining the characters of one long string. */
  function IdArrayAsWritten(n: nat): string {
    JoinChars(", ", Repeat("(?)", n))
  }

  /** For two or more ids the intended list is one row, a comma, and the list for the rest. */
  lemma IdArrayStep(n: nat)
    requires n >= 2
    ensures IdArray(n) == "(?), " + IdArray(n - 1)
  {
    assert Copies("(?)", n)[1..] == Copies("(?)", n - 1);
  }

  /** For one or more ids the intended list is well formed. */
  lemma {:induction false} IdArrayRows(n: nat)
    requires n >= 1
    ensures RowList(IdArray(n))
  {
    if n == 1 {
      assert Copies("(?)", 1) == ["(?)"];
    } else {
      IdArrayRows(n - 1);
      IdArrayStep(n);
      assert IdArray(n)[5..] == IdArray(n - 1);
    }
  }

  /** The intended list holds one marker per id. */
  lemma {:induction false} IdArrayMarkers(n: nat)
    ensures Markers(IdArray(n)) == n
  {
    if n == 0 {
    } else if n == 1 {
      assert Copies("(?)", 1) == ["(?)"];
      assert Markers("(?)") == 1 by {
        assert "(?)"[1..] == "?)" && "?)"[1..] == ")" && ")"[1..] == "";
      }
    } else {
      IdArrayMarkers(n - 1);
      IdArrayStep(n);
      MarkersAppend("(?), ", IdArray(n - 1));
      assert Markers("(?), ") == 1 by {
        assert "(?), "[1..] == "?), " && "?), "[1..] == "), " && "), "[1..] == ", " && ", "[1..] == " " && " "[1..] == "";
      }
    }
  }

  /** A row list starts with `(?`. */
  lemma RowListStart(t: string)
    requires RowList(t)
    ensures |t| >= 3 && t[1] == '?'
  {
    if t != "(?)" {
      assert t[..5][1] == '?';
    }
  }

  /** For one or more ids the list as written is not a row list: it starts `(, `. */
  lemma IdArrayAsWrittenMalformed(n: nat)
    requires n >= 1
    ensures IdArrayAsWritten(n)[..3] == "(, "
    ensures !RowList(IdArrayAsWritten(n))
  {
    var chars := Repeat("(?)", n);
    assert chars[0] == chars[..3][0] == '(';
    var t := IdArrayAsWritten(n);
    assert t[1..3] == ", ";
    assert t[..3] == [t[0]] + t[1..3];
    if RowList(t) {
      RowListStart(t);
    }
  }

  /**
   * The batch `DECLARE @Id BIGINTARRAY; INSERT INTO @Id VALUES <list>;
   * EXECUTE DeleteResidents @Id = @Id` with `ids` bound: it parses only when
   * the list is a row list with one marker per id, and then runs
   * `DeleteResidents` with the ids; otherwise the server rejects it.
   */
  function DeleteBatch(list: string, ids: seq<int>): Outcome<Option<seq<int>>> {
    if RowList(list) && Markers(list) == |ids| then Returned(Some(ids)) else Raised("ProgrammingError")
  }

  function Ids(objects: seq<Snowflakes.Snowflake>): (ids: seq<int>)
    ensures |ids| == |objects| && forall i :: 0 <= i < |objects| ==> ids[i] == objects[i].id
  {
    seq(|objects|, i requires 0 <= i < |objects| => objects[i].id)
  }

  /**
   * `Resident.delete_many` as written: nothing for an empty list; for any
   * other list the batch holds `INSERT INTO @Id VALUES (, ?, ), ...`, which
   * does not parse, so it raises before `DeleteResidents` runs.
   */
  function DeleteManyAsWritten(objects: seq<Snowflakes.Snowflake>): (r: Outcome<Option<seq<int>>>)
    ensures |objects| == 0 ==> r == Returned(None)
    ensures |objects| > 0 ==> r == Raised("ProgrammingError")
  {
    if |objects| == 0 then Returned(None)
    else
      IdArrayAsWrittenMalformed(|objects|);
      DeleteBatch(IdArrayAsWritten(|objects|), Ids(objects))
  }

  /**
   * `Resident.delete_many` with the row list it evidently means: nothing
   * for an empty list; otherwise the batch parses, binds one id per marker,
   * and `DeleteResidents` runs once with the listed ids, in order.
   */
  function DeleteMany(objects: seq<Snowflakes.Snowflake>): (r: Outcome<Option<seq<int>>>)
    ensures |objects| == 0 ==> r == Returned(None)
    ensures |objects| > 0 ==>
              r.Returned? && r.value.Some? && |r.value.value| == |objects| &&
              forall i :: 0 <= i < |objects| ==> r.value.value[i] == objects[i].id
  {
    if |objects| == 0 then Returned(None)
    else
      IdArrayRows(|objects|);
      IdArrayMarkers(|objects|);
      DeleteBatch(IdArray(|objects|), Ids(objects))
  }

  /** Deleting one resident: the intended batch passes its id, the one as written raises. */
  lemma DeleteOneDiffers(o: Snowflakes.Snowflake)
    ensures IdArrayAsWritten(1) == "(, ?, )"
    ensures DeleteMany([o]) == Returned(Some([o.id]))
    ensures DeleteManyAsWritten([o]) == Raised("ProgrammingError")
  {
    assert Repeat("(?)", 1) == "(?)";
    assert JoinChars(", ", "?)") == "?, )";
    assert Ids([o]) == [o.id];
  }
}
