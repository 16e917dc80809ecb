/**
 * Registration requests in the v1 `accounts` table
 * (server/v1/models/reg_request.py). A request is a row with
 * `approved = 0`; accepting it flips the flag, rejecting it deletes it.
 */
module RegRequests {
  import opened Results
  import opened Validators
  import opened Listing
  import opened Accounts
  import Credentials
  import Snowflakes
  import Info

  /** Result codes of `create`. */
  const INVALID_NAME: int := 101
  const INVALID_ROOM: int := 102
  const INVALID_PHONE: int := 103
  const INVALID_EMAIL: int := 104
  const INVALID_USERNAME: int := 105
  const INVALID_PASSWORD: int := 106
  const USERNAME_TAKEN: int := 107

  /**
   * The validation ladder of `create` (on the normalised phone and email):
   * the code of the first failing check, or None when all pass. Absent
   * phone and email are not checked.
   */
  function CreateFailure(name: string, room: int, phone: Option<string>, email: Option<string>,
                         username: string, password: string): (code: Option<int>)
    ensures code.None? <==>
      ValidName(name) && ValidRoom(room) && (phone.None? || ValidPhone(phone.value)) &&
      (email.None? || ValidEmail(email.value)) && ValidUsername(username) && ValidPassword(password)
    ensures code.Some? ==> INVALID_NAME <= code.value <= INVALID_PASSWORD
    ensures code == Some(INVALID_NAME) <==> !ValidName(name)
    ensures code == Some(INVALID_ROOM) <==> ValidName(name) && !ValidRoom(room)
    ensures code == Some(INVALID_PHONE) <==>
      ValidName(name) && ValidRoom(room) && phone.Some? && !ValidPhone(phone.value)
    ensures code == Some(INVALID_EMAIL) <==>
      ValidName(name) && ValidRoom(room) && (phone.None? || ValidPhone(phone.value)) &&
      email.Some? && !ValidEmail(email.value)
    ensures code == Some(INVALID_USERNAME) <==>
      ValidName(name) && ValidRoom(room) && (phone.None? || ValidPhone(phone.value)) &&
      (email.None? || ValidEmail(email.value)) && !ValidUsername(username)
    ensures code == Some(INVALID_PASSWORD) <==>
      ValidName(name) && ValidRoom(room) && (phone.None? || ValidPhone(phone.value)) &&
      (email.None? || ValidEmail(email.value)) && ValidUsername(username) && !ValidPassword(password)
  {
    if !ValidName(name) then Some(INVALID_NAME)
    else if !ValidRoom(room) then Some(INVALID_ROOM)
    else if phone.Some? && !ValidPhone(phone.value) then Some(INVALID_PHONE)
    else if email.Some? && !ValidEmail(email.value) then Some(INVALID_EMAIL)
    else if !ValidUsername(username) then Some(INVALID_USERNAME)
    else if !ValidPassword(password) then Some(INVALID_PASSWORD)
    else None
  }

  /**
   * What `create` does to the table and what it returns. `now` and
   * `random` feed `generate_id()`, `sha` and `roll` feed
   * `hash_password(password)`.
   */
  function CreateEffect(rows: map<int, AccountRow>, sha: Credentials.Hasher, roll: Credentials.Roll,
                        now: int, random: nat, name: string, room: int, birthday: Option<Info.Date>,
                        phone: Option<string>, email: Option<string>, username: string, password: string)
    : (map<int, AccountRow>, Outcome<Result<Account>>)
  {
    var phone', email' := Info.Normalize(phone), Info.Normalize(email);
    var failure := CreateFailure(name, room, phone', email', username, password);
    if failure.Some? then (rows, Returned(Fail(failure.value)))
    else if UsernameTaken(rows, username) then (rows, Returned(Fail(USERNAME_TAKEN)))
    else
      var id := Snowflakes.GenerateId(now, random);
      if id in rows then (rows, Raised("IntegrityError"))
      else
        var row := AccountRow(id, name, room, birthday, phone', email', username,
                              Credentials.HashPassword(sha, password, None, roll), false);
        (rows[id := row], match FromRow(row) case None => Raised("ValidationError") case Some(a) => Returned(Ok(a)))
  }

  /**
   * `RegisterRequest.create`: normalise an empty phone or email to None,
   * run the ladder 101-106, then insert a pending row only if no account
   * (pending or approved) has the username, else 107.
   */
  method Create(table: AccountsTable, sha: Credentials.Hasher, roll: Credentials.Roll, now: int, random: nat,
                name: string, room: int, birthday: Option<Info.Date>, phone: Option<string>,
                email: Option<string>, username: string, password: string)
    returns (r: Outcome<Result<Account>>)
    modifies table
    requires table.Valid()
    ensures table.Valid()
    ensures (table.rows, r) ==
      CreateEffect(old(table.rows), sha, roll, now, random, name, room, birthday, phone, email, username, password)
  {
    CreateKeepsTableValid(table.rows, sha, roll, now, random, name, room, birthday, phone, email, username, password);
    var phone' := Info.Normalize(phone);
    var email' := Info.Normalize(email);

    if !ValidName(name) {
      return Returned(Fail(INVALID_NAME));
    }
    if !ValidRoom(room) {
      return Returned(Fail(INVALID_ROOM));
    }
    if phone'.Some? && !ValidPhone(phone'.value) {
      return Returned(Fail(INVALID_PHONE));
    }
    if email'.Some? && !ValidEmail(email'.value) {
      return Returned(Fail(INVALID_EMAIL));
    }
    if !ValidUsername(username) {
      return Returned(Fail(INVALID_USERNAME));
    }
    if !ValidPassword(password) {
      return Returned(Fail(INVALID_PASSWORD));
    }

    var id := Snowflakes.GenerateId(now, random);
    var hashed := Credentials.HashPassword(sha, password, None, roll);

    // IF NOT EXISTS (SELECT 1 FROM accounts WHERE username = @Username) INSERT ...
    if UsernameTaken(table.rows, username) {
      // no result set: fetchone raises ProgrammingError, which is swallowed
      return Returned(Fail(USERNAME_TAKEN));
    }
    if id in table.rows {
      return Raised("IntegrityError");
    }
    var row := AccountRow(id, name, room, birthday, phone', email', username, hashed, false);
    table.rows := table.rows[id := row];
    var account := FromRow(row);
    if account.None? {
      return Raised("ValidationError");
    }
    return Returned(Ok(account.value));
  }

  /** A failed validation or a taken username leaves the table unchanged and reports the code. */
  lemma {:induction false} CreateRejects(rows: map<int, AccountRow>, sha: Credentials.Hasher, roll: Credentials.Roll,
                                         now: int, random: nat, name: string, room: int, birthday: Option<Info.Date>,
                                         phone: Option<string>, email: Option<string>, username: string, password: string)
    requires CreateFailure(name, room, Info.Normalize(phone), Info.Normalize(email), username, password).Some? ||
             UsernameTaken(rows, username)
    ensures var (rows', r) := CreateEffect(rows, sha, roll, now, random, name, room, birthday, phone, email, username, password);
      rows' == rows && r.Returned? && r.value.data.None? &&
      r.value.code == (if CreateFailure(name, room, Info.Normalize(phone), Info.Normalize(email), username, password).Some?
                       then CreateFailure(name, room, Info.Normalize(phone), Info.Normalize(email), username, password).value
                       else USERNAME_TAKEN)
  {
  }

  /**
   * A valid request for a free username and a fresh id adds exactly one
   * pending row under that id holding the given name, room and birthday,
   * the normalised phone and email, the username and a hash that verifies
   * against the password; that row is returned, converted, unless its phone
   * is absent, in which case converting it fails.
   */
  lemma {:induction false} CreateInserts(rows: map<int, AccountRow>, sha: Credentials.Hasher, roll: Credentials.Roll,
                                         now: int, random: nat, name: string, room: int, birthday: Option<Info.Date>,
                                         phone: Option<string>, email: Option<string>, username: string, password: string)
    requires CreateFailure(name, room, Info.Normalize(phone), Info.Normalize(email), username, password).None?
    requires !UsernameTaken(rows, username)
    requires Snowflakes.GenerateId(now, random) !in rows
    ensures var (rows', r) := CreateEffect(rows, sha, roll, now, random, name, room, birthday, phone, email, username, password);
      var id := Snowflakes.GenerateId(now, random);
      rows'.Keys == rows.Keys + {id} &&
      (forall k :: k in rows ==> rows'[k] == rows[k]) &&
      rows'[id] == AccountRow(id, name, room, birthday, Info.Normalize(phone), Info.Normalize(email), username,
                              rows'[id].hashedPassword, false) &&
      Credentials.CheckPassword(sha, password, rows'[id].hashedPassword) &&
      (r.Returned? <==> Info.Normalize(phone).Some?) &&
      (r.Returned? ==> r.value.code == 0 && r.value.data.Some? && Some(r.value.data.value) == FromRow(rows'[id]))
  {
    Credentials.CheckAfterFreshHash(sha, password, roll);
  }

  /** `create` keeps ids as keys and usernames unique across the whole table. */
  lemma {:induction false} CreateKeepsTableValid(rows: map<int, AccountRow>, sha: Credentials.Hasher, roll: Credentials.Roll,
                                                 now: int, random: nat, name: string, room: int, birthday: Option<Info.Date>,
                                                 phone: Option<string>, email: Option<string>, username: string, password: string)
    requires KeysAreIds(rows) && UsernamesUnique(rows)
    ensures var rows' := CreateEffect(rows, sha, roll, now, random, name, room, birthday, phone, email, username, password).0;
      KeysAreIds(rows') && UsernamesUnique(rows')
  {
    var (rows', _) := CreateEffect(rows, sha, roll, now, random, name, room, birthday, phone, email, username, password);
    if rows' != rows {
      var id := Snowflakes.GenerateId(now, random);
      assert !UsernameTaken(rows, username) && id !in rows;
      assert rows'.Keys == rows.Keys + {id} && rows'[id].id == id && rows'[id].username == username;
      assert forall k :: k in rows ==> rows'[k] == rows[k];
    }
  }

  /** The id of a created request decodes to the instant it was created. */
  lemma {:induction false} CreatedAtIsNow(now: int, random: nat)
    ensures Snowflakes.SnowflakeTime(Snowflakes.GenerateId(now, random)) == Snowflakes.EPOCH_MS + now
  {
    Snowflakes.SnowflakeTimeOfGenerated(now, random);
  }

  /* ---------- accept and reject ---------- */

  function Ids(objects: seq<Snowflakes.Snowflake>): set<int> {
    set o | o in objects :: o.id
  }

  /** `UPDATE accounts SET approved = 1 WHERE id IN (...) AND approved = 0`. */
  function Approve(rows: map<int, AccountRow>, ids: set<int>): (rows': map<int, AccountRow>)
    ensures rows'.Keys == rows.Keys
  {
    map id | id in rows :: if id in ids && !rows[id].approved then rows[id].(approved := true) else rows[id]
  }

  /** `DELETE FROM accounts WHERE id IN (...) AND approved = 0`. */
  function Reject(rows: map<int, AccountRow>, ids: set<int>): (rows': map<int, AccountRow>)
    ensures rows'.Keys <= rows.Keys
  {
    map id | id in rows && !(id in ids && !rows[id].approved) :: rows[id]
  }

  /**
   * `accept_many` with the table name it evidently intends: an empty list
   * does nothing; otherwise listed pending requests become residents.
   */
  method AcceptMany(table: AccountsTable, objects: seq<Snowflakes.Snowflake>)
    modifies table
    requires table.Valid()
    ensures table.Valid()
    ensures table.rows == Approve(old(table.rows), Ids(objects))
  {
    if |objects| == 0 {
      assert Ids(objects) == {};
      assert table.rows == Approve(table.rows, {});
      return;
    }
    table.rows := Approve(table.rows, Ids(objects));
  }

  /**
   * `accept_many` as written: the UPDATE names table `acounts`, which does
   * not exist, so any non-empty call raises and approves nothing.
   */
  function AcceptManyAsWritten(rows: map<int, AccountRow>, objects: seq<Snowflakes.Snowflake>)
    : (result: (map<int, AccountRow>, Outcome<()>))
    ensures result.0 == rows
    ensures result.1.Raised? <==> |objects| > 0
  {
    if |objects| == 0 then (rows, Returned(())) else (rows, Raised("ProgrammingError"))
  }

  /** A listed pending request stays pending as written, but is approved by the intended update. */
  lemma {:induction false} AcceptManyTypoApprovesNothing(rows: map<int, AccountRow>, objects: seq<Snowflakes.Snowflake>, i: int)
    requires 0 <= i < |objects| && objects[i].id in rows && !rows[objects[i].id].approved
    ensures !AcceptManyAsWritten(rows, objects).0[objects[i].id].approved
    ensures Approve(rows, Ids(objects))[objects[i].id].approved
  {
    assert objects[i].id in Ids(objects);
  }

  /**
   * `reject_many`: an empty list does nothing; otherwise listed pending
   * requests are deleted.
   */
  method RejectMany(table: AccountsTable, objects: seq<Snowflakes.Snowflake>)
    modifies table
    requires table.Valid()
    ensures table.Valid()
    ensures table.rows == Reject(old(table.rows), Ids(objects))
  {
    if |objects| == 0 {
      assert Ids(objects) == {};
      assert table.rows == Reject(table.rows, {});
      return;
    }
    table.rows := Reject(table.rows, Ids(objects));
  }

  /**
   * Accepting changes only listed pending rows, only in their flag, keeps
   * every id, and is idempotent.
   */
  lemma {:induction false} ApproveProperties(rows: map<int, AccountRow>, ids: set<int>)
    ensures forall id :: id in rows ==>
      Approve(rows, ids)[id] == (if id in ids then rows[id].(approved := true) else rows[id])
    ensures Approve(Approve(rows, ids), ids) == Approve(rows, ids)
    ensures Approve(rows, {}) == rows
    ensures KeysAreIds(rows) ==> KeysAreIds(Approve(rows, ids))
    ensures UsernamesUnique(rows) ==> UsernamesUnique(Approve(rows, ids))
  {
    var once := Approve(rows, ids);
    forall id | id in rows
      ensures Approve(once, ids)[id] == once[id]
    {
    }
  }

  /**
   * Rejecting removes exactly the listed pending rows: approved residents
   * and unlisted rows survive unchanged, and rejecting twice is rejecting
   * once.
   */
  lemma {:induction false} RejectProperties(rows: map<int, AccountRow>, ids: set<int>)
    ensures forall id :: id in rows ==>
      (id in Reject(rows, ids) <==> rows[id].approved || id !in ids)
    ensures forall id :: id in Reject(rows, ids) ==> Reject(rows, ids)[id] == rows[id]
    ensures Reject(Reject(rows, ids), ids) == Reject(rows, ids)
    ensures Reject(rows, {}) == rows
    ensures KeysAreIds(rows) ==> KeysAreIds(Reject(rows, ids))
    ensures UsernamesUnique(rows) ==> UsernamesUnique(Reject(rows, ids))
  {
  }

  /* ---------- count and query ---------- */

  /** The rows `count` and `query` select: pending, with the filter's username exact. */
  predicate PendingMatches(f: Filter, row: AccountRow) {
    !row.approved && FilterMatches(f, true, row)
  }

  /**
   * The WHERE list of `count` and `query`: `approved = 0`, then id, name,
   * room and an exact username; None when a supplied name, room or
   * username is invalid.
   */
  method PendingCondition(f: Filter) returns (r: Option<(seq<Clause>, seq<Param>)>)
    ensures r.None? <==> !FilterValid(f)
    ensures r.Some? ==> |r.value.0| == Supplied(f) + 1 && r.value.0[0] == ApprovedIs(false)
    ensures r.Some? ==> forall row :: Holds(r.value.0, r.value.1, row) <==> PendingMatches(f, row)
  {
    var clauses: seq<Clause> := [ApprovedIs(false)];
    var params: seq<Param> := [];

    if f.id.Some? {
      clauses := clauses + [IdEquals];
      params := params + [IntParam(f.id.value)];
    }
    assert clauses == [ApprovedIs(false)] + Conditions(f, true, 1).0 && params == Conditions(f, true, 1).1;

    if f.name.Some? {
      if !ValidName(f.name.value) {
        return None;
      }
      clauses := clauses + [NameContains];
      params := params + [TextParam(f.name.value)];
    }
    assert clauses == [ApprovedIs(false)] + Conditions(f, true, 2).0 && params == Conditions(f, true, 2).1;

    if f.room.Some? {
      if !ValidRoom(f.room.value) {
        return None;
      }
      clauses := clauses + [RoomEquals];
      params := params + [IntParam(f.room.value)];
    }
    assert clauses == [ApprovedIs(false)] + Conditions(f, true, 3).0 && params == Conditions(f, true, 3).1;

    if f.username.Some? {
      if !ValidUsername(f.username.value) {
        return None;
      }
      clauses := clauses + [UsernameEquals];
      params := params + [TextParam(f.username.value)];
    }
    assert clauses == [ApprovedIs(false)] + Conditions(f, true, 4).0 && params == Conditions(f, true, 4).1;

    PendingSelects(f);
    return Some((clauses, params));
  }

  /** `approved = 0` in front of the filter's own conditions selects the pending rows the filter describes. */
  lemma PendingSelects(f: Filter)
    ensures var clauses := [ApprovedIs(false)] + Conditions(f, true, 4).0;
      |clauses| == Supplied(f) + 1 && clauses[0] == ApprovedIs(false) &&
      forall row :: Holds(clauses, Conditions(f, true, 4).1, row) <==> PendingMatches(f, row)
  {
    ConditionsSelect(f, true);
    forall row
      ensures Holds([ApprovedIs(false)] + Conditions(f, true, 4).0, Conditions(f, true, 4).1, row) <==> PendingMatches(f, row)
    {
      HoldsAppend([ApprovedIs(false)], [], Conditions(f, true, 4).0, Conditions(f, true, 4).1, row);
      assert [] + Conditions(f, true, 4).1 == Conditions(f, true, 4).1;
    }
  }

  /** `RegisterRequest.count`: the number of pending rows the filter selects, 0 for an invalid filter. */
  method Count(table: AccountsTable, f: Filter) returns (n: nat)
    ensures n == if FilterValid(f) then Listing.Count(Rows(table.rows), row => PendingMatches(f, row)) else 0
  {
    var condition := PendingCondition(f);
    if condition.None? {
      return 0;
    }
    var (clauses, params) := condition.value;
    QueryCongruent(Rows(table.rows), row => Holds(clauses, params, row), row => PendingMatches(f, row),
                   row => OrderKey("id", row), true, 0);
    n := Listing.Count(Rows(table.rows), row => Holds(clauses, params, row));
  }

  /** The page `query` lists, before the rows are converted to models. */
  function PendingPage(rows: map<int, AccountRow>, f: Filter, orderBy: string, ascending: bool, offset: nat): (page: seq<AccountRow>)
    ensures |page| <= PAGE_SIZE
    ensures forall row :: row in page ==> row in rows.Values && !row.approved && FilterMatches(f, true, row)
    ensures Ordered(page, row => OrderKey(OrderColumn(orderBy), row), ascending)
  {
    Listing.Query(Rows(rows), row => PendingMatches(f, row), row => OrderKey(OrderColumn(orderBy), row), ascending, offset)
  }

  /**
   * `RegisterRequest.query`: an invalid filter gives `[]`; a negative
   * offset makes the database raise; otherwise one page of pending rows
   * ordered by `order_by` (unknown columns fall back to `id`).
   */
  method Query(table: AccountsTable, f: Filter, orderBy: string, ascending: bool, offset: int)
    returns (r: Outcome<seq<Account>>)
    ensures !FilterValid(f) ==> r == Returned([])
    ensures FilterValid(f) && offset < 0 ==> r.Raised?
    ensures FilterValid(f) && offset >= 0 ==> r == FromRows(PendingPage(table.rows, f, orderBy, ascending, offset))
  {
    var condition := PendingCondition(f);
    if condition.None? {
      return Returned([]);
    }
    var (clauses, params) := condition.value;
    var column := OrderColumn(orderBy);
    if offset < 0 {
      return Raised("ProgrammingError");
    }
    QueryCongruent(Rows(table.rows), row => Holds(clauses, params, row), row => PendingMatches(f, row),
                   row => OrderKey(column, row), ascending, offset);
    var page := Listing.Query(Rows(table.rows), row => Holds(clauses, params, row),
                              row => OrderKey(column, row), ascending, offset);
    r := FromRows(page);
  }
}
