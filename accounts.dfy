/**
 * The v1 `accounts` table and the WHERE-clause builder shared by resident
 * queries (server/v1/models/accounts.py). Pending registration requests and
 * approved residents live in the same table and differ only in the
 * `approved` flag.
 */
module Accounts {
  import opened Results
  import opened Validators
  import opened Listing
  import Info

  /** A row of `accounts`; NULL columns are None. */
  datatype AccountRow = AccountRow(
    id: int,
    name: string,
    room: int,
    birthday: Option<Info.Date>,
    phone: Option<string>,
    email: Option<string>,
    username: string,
    hashedPassword: string,
    approved: bool)

  /**
   * `Account` (`PublicInfo` plus `HashedAuthorization`). Its `phone` is a
   * required `str` field: pydantic refuses None for it.
   */
  datatype Account = Account(
    id: int,
    name: string,
    room: int,
    birthday: Option<Info.Date>,
    phone: string,
    email: Option<string>,
    username: string,
    hashedPassword: string)

  /**
   * `Account.from_row`: copies the eight columns; constructing the model
   * fails when the row's phone is NULL.
   */
  function FromRow(row: AccountRow): (r: Option<Account>)
    ensures r.None? <==> row.phone.None?
    ensures r.Some? ==>
      var a := r.value;
      a.id == row.id && a.name == row.name && a.room == row.room && a.birthday == row.birthday &&
      Some(a.phone) == row.phone && a.email == row.email && a.username == row.username &&
      a.hashedPassword == row.hashedPassword
  {
    match row.phone
    case None => None
    case Some(phone) =>
      Some(Account(row.id, row.name, row.room, row.birthday, phone, row.email, row.username, row.hashedPassword))
  }

  /**
   * `[cls.from_row(row) for row in rows]`: the converted rows, or the
   * validation error of the first row that cannot be converted.
   */
  function FromRows(rows: seq<AccountRow>): (r: Outcome<seq<Account>>)
    ensures r.Returned? <==> forall i :: 0 <= i < |rows| ==> rows[i].phone.Some?
    ensures r.Returned? ==> |r.value| == |rows|
    ensures r.Returned? ==> forall i :: 0 <= i < |rows| ==> FromRow(rows[i]) == Some(r.value[i])
  {
    if rows == [] then Returned([])
    else
      match FromRow(rows[0])
      case None => Raised("ValidationError")
      case Some(a) =>
        match FromRows(rows[1..])
        case Raised(e) => Raised(e)
        case Returned(rest) => Returned([a] + rest)
  }

  /* ---------- WHERE clauses ---------- */

  /** The optional filters of `build_sql_condition`, `count` and `query`. */
  datatype Filter = Filter(id: Option<int>, name: Option<string>, room: Option<int>, username: Option<string>)

  /** One WHERE condition, as the SQL text appended to `where`. */
  datatype Clause =
    | IdEquals          // "id = ?"
    | NameContains      // "CHARINDEX(?, name) > 0"
    | RoomEquals        // "room = ?"
    | UsernameContains  // "CHARINDEX(?, username) > 0"
    | UsernameEquals    // "username = ?"
    | ApprovedIs(flag: bool)  // "approved = 0" / "approved = 1", no placeholder

  /** A value appended to `params`, bound to the next `?`. */
  datatype Param = IntParam(n: int) | TextParam(s: string)

  function Arity(c: Clause): nat {
    if c.ApprovedIs? then 0 else 1
  }

  function ParamCount(clauses: seq<Clause>): nat {
    if clauses == [] then 0 else Arity(clauses[0]) + ParamCount(clauses[1..])
  }

  /** Whether a placeholder condition holds for `row` with `param` bound to its `?`. */
  predicate ClauseHolds(c: Clause, param: Param, row: AccountRow) {
    match c
    case IdEquals => param == IntParam(row.id)
    case NameContains => param.TextParam? && Contains(row.name, param.s)
    case RoomEquals => param == IntParam(row.room)
    case UsernameContains => param.TextParam? && Contains(row.username, param.s)
    case UsernameEquals => param == TextParam(row.username)
    case ApprovedIs(flag) => row.approved == flag
  }

  /**
   * `WHERE c1 AND c2 AND ...` with the parameters bound to the
   * placeholders from left to right.
   */
  predicate Holds(clauses: seq<Clause>, params: seq<Param>, row: AccountRow)
    decreases |clauses|
  {
    if clauses == [] then true
    else if clauses[0].ApprovedIs? then row.approved == clauses[0].flag && Holds(clauses[1..], params, row)
    else |params| > 0 && ClauseHolds(clauses[0], params[0], row) && Holds(clauses[1..], params[1..], row)
  }

  /** Conditions built separately can be joined with AND when each binds its own parameters. */
  lemma {:induction false} HoldsAppend(c1: seq<Clause>, p1: seq<Param>, c2: seq<Clause>, p2: seq<Param>, row: AccountRow)
    requires ParamCount(c1) == |p1|
    ensures Holds(c1 + c2, p1 + p2, row) == (Holds(c1, p1, row) && Holds(c2, p2, row))
    decreases |c1|
  {
    if c1 == [] {
      assert c1 + c2 == c2 && p1 + p2 == p2;
    } else {
      assert (c1 + c2)[0] == c1[0];
      assert (c1 + c2)[1..] == c1[1..] + c2;
      if c1[0].ApprovedIs? {
        HoldsAppend(c1[1..], p1, c2, p2, row);
      } else {
        assert (p1 + p2)[0] == p1[0];
        assert (p1 + p2)[1..] == p1[1..] + p2;
        HoldsAppend(c1[1..], p1[1..], c2, p2, row);
      }
    }
  }

  lemma {:induction false} ParamCountAppend(c1: seq<Clause>, c2: seq<Clause>)
    ensures ParamCount(c1 + c2) == ParamCount(c1) + ParamCount(c2)
    decreases |c1|
  {
    if c1 == [] {
      assert c1 + c2 == c2;
    } else {
      assert (c1 + c2)[1..] == c1[1..] + c2;
      ParamCountAppend(c1[1..], c2);
    }
  }

  /** A filter is usable when every supplied name, room and username passes its validator. */
  predicate FilterValid(f: Filter) {
    (f.name.None? || ValidName(f.name.value)) &&
    (f.room.None? || ValidRoom(f.room.value)) &&
    (f.username.None? || ValidUsername(f.username.value))
  }

  function Supplied(f: Filter): nat {
    SuppliedUpTo(f, 4)
  }

  /**
   * What a filter selects: id and room exact, name as a substring, and
   * username as a substring (`build_sql_condition`) or exactly (the
   * registration-request queries, `exactUsername`).
   */
  predicate FilterMatches(f: Filter, exactUsername: bool, row: AccountRow) {
    (f.id.None? || row.id == f.id.value) &&
    (f.name.None? || Contains(row.name, f.name.value)) &&
    (f.room.None? || row.room == f.room.value) &&
    (f.username.None? ||
      (if exactUsername then row.username == f.username.value else Contains(row.username, f.username.value)))
  }

  /** Position of a clause in the fixed order id, name, room, username. */
  function Rank(c: Clause): int {
    match c
    case IdEquals => 0
    case NameContains => 1
    case RoomEquals => 2
    case UsernameContains => 3
    case UsernameEquals => 3
    case ApprovedIs(_) => 4
  }

  predicate Ranked(clauses: seq<Clause>) {
    forall i, j :: 0 <= i < j < |clauses| ==> Rank(clauses[i]) < Rank(clauses[j])
  }

  /* The builder handles the filters one field at a time: 0 id, 1 name, 2 room, 3 username. */

  predicate FieldSupplied(f: Filter, k: nat) {
    if k == 0 then f.id.Some? else if k == 1 then f.name.Some?
    else if k == 2 then f.room.Some? else f.username.Some?
  }

  predicate FieldMatches(f: Filter, exact: bool, k: nat, row: AccountRow) {
    if k == 0 then f.id.None? || row.id == f.id.value
    else if k == 1 then f.name.None? || Contains(row.name, f.name.value)
    else if k == 2 then f.room.None? || row.room == f.room.value
    else if exact then f.username.None? || row.username == f.username.value
    else f.username.None? || Contains(row.username, f.username.value)
  }

  predicate MatchesUpTo(f: Filter, exact: bool, k: nat, row: AccountRow) {
    k == 0 || (MatchesUpTo(f, exact, k - 1, row) && FieldMatches(f, exact, k - 1, row))
  }

  function SuppliedUpTo(f: Filter, k: nat): nat {
    if k == 0 then 0 else SuppliedUpTo(f, k - 1) + (if FieldSupplied(f, k - 1) then 1 else 0)
  }

  /** The clauses and parameters built so far cover exactly the fields before `k`. */
  ghost predicate Built(f: Filter, exact: bool, k: nat, clauses: seq<Clause>, params: seq<Param>) {
    |clauses| == |params| == ParamCount(clauses) == SuppliedUpTo(f, k) &&
    Ranked(clauses) &&
    (forall c :: c in clauses ==> Rank(c) < k && !c.ApprovedIs? && (c.UsernameEquals? ==> exact) && (c.UsernameContains? ==> !exact)) &&
    (forall row :: Holds(clauses, params, row) <==> MatchesUpTo(f, exact, k, row))
  }

  /** Appending the clause of a supplied field. */
  lemma {:induction false} BuildStep(f: Filter, exact: bool, k: nat, clauses: seq<Clause>, params: seq<Param>, c: Clause, p: Param)
    requires Built(f, exact, k, clauses, params)
    requires FieldSupplied(f, k) && Rank(c) == k && !c.ApprovedIs? && (c.UsernameEquals? ==> exact) && (c.UsernameContains? ==> !exact)
    requires forall row :: ClauseHolds(c, p, row) <==> FieldMatches(f, exact, k, row)
    ensures Built(f, exact, k + 1, clauses + [c], params + [p])
  {
    ParamCountAppend(clauses, [c]);
    forall row
      ensures Holds(clauses + [c], params + [p], row) <==> MatchesUpTo(f, exact, k + 1, row)
    {
      HoldsAppend(clauses, params, [c], [p], row);
    }
  }

  /** Skipping a field that was not supplied. */
  lemma {:induction false} SkipStep(f: Filter, exact: bool, k: nat, clauses: seq<Clause>, params: seq<Param>)
    requires Built(f, exact, k, clauses, params) && !FieldSupplied(f, k)
    ensures Built(f, exact, k + 1, clauses, params)
  {
  }

  /** The clause for field `k` with its parameter, when that field is supplied. */
  function FieldClause(exact: bool, k: nat): Clause {
    if k == 0 then IdEquals else if k == 1 then NameContains
    else if k == 2 then RoomEquals else if exact then UsernameEquals else UsernameContains
  }

  function FieldParam(f: Filter, k: nat): Param
    requires FieldSupplied(f, k)
  {
    if k == 0 then IntParam(f.id.value) else if k == 1 then TextParam(f.name.value)
    else if k == 2 then IntParam(f.room.value) else TextParam(f.username.value)
  }

  /** One step of the builder: append the field's clause if supplied, else nothing. */
  lemma {:induction false} FieldStep(f: Filter, exact: bool, k: nat, clauses: seq<Clause>, params: seq<Param>)
    requires k < 4 && Built(f, exact, k, clauses, params)
    ensures FieldSupplied(f, k) ==> Built(f, exact, k + 1, clauses + [FieldClause(exact, k)], params + [FieldParam(f, k)])
    ensures !FieldSupplied(f, k) ==> Built(f, exact, k + 1, clauses, params)
  {
    if FieldSupplied(f, k) {
      BuildStep(f, exact, k, clauses, params, FieldClause(exact, k), FieldParam(f, k));
    } else {
      SkipStep(f, exact, k, clauses, params);
    }
  }

  /** After the four fields, the condition is exactly `MatchesFilter`. */
  lemma {:induction false} BuiltAll(f: Filter, exact: bool, clauses: seq<Clause>, params: seq<Param>)
    requires Built(f, exact, 4, clauses, params)
    ensures |clauses| == |params| == Supplied(f) == ParamCount(clauses)
    ensures Ranked(clauses)
    ensures forall c :: c in clauses ==> !c.ApprovedIs? && (c.UsernameEquals? ==> exact) && (c.UsernameContains? ==> !exact)
    ensures forall row :: Holds(clauses, params, row) <==> FilterMatches(f, exact, row)
  {
    forall row
      ensures MatchesUpTo(f, exact, 4, row) <==> FilterMatches(f, exact, row)
    {
      assert MatchesUpTo(f, exact, 4, row) == (MatchesUpTo(f, exact, 3, row) && FieldMatches(f, exact, 3, row));
      assert MatchesUpTo(f, exact, 3, row) == (MatchesUpTo(f, exact, 2, row) && FieldMatches(f, exact, 2, row));
      assert MatchesUpTo(f, exact, 2, row) == (MatchesUpTo(f, exact, 1, row) && FieldMatches(f, exact, 1, row));
      assert MatchesUpTo(f, exact, 1, row) == FieldMatches(f, exact, 0, row);
    }
  }

  /** The clauses and parameters for the fields before `k`, as the builder appends them. */
  function Conditions(f: Filter, exact: bool, k: nat): (seq<Clause>, seq<Param>)
    requires k <= 4
  {
    if k == 0 then ([], [])
    else
      var (clauses, params) := Conditions(f, exact, k - 1);
      if FieldSupplied(f, k - 1) then (clauses + [FieldClause(exact, k - 1)], params + [FieldParam(f, k - 1)])
      else (clauses, params)
  }

  /**
   * The conditions for all four fields select exactly what the filter
   * describes, with one parameter per clause, in the fixed field order.
   */
  lemma {:induction false} ConditionsSelect(f: Filter, exact: bool)
    ensures var (clauses, params) := Conditions(f, exact, 4);
      |clauses| == |params| == Supplied(f) == ParamCount(clauses) &&
      Ranked(clauses) &&
      (forall c :: c in clauses ==> !c.ApprovedIs? && (c.UsernameEquals? ==> exact) && (c.UsernameContains? ==> !exact)) &&
      (forall row :: Holds(clauses, params, row) <==> FilterMatches(f, exact, row))
  {
    ConditionsBuilt(f, exact, 4);
    BuiltAll(f, exact, Conditions(f, exact, 4).0, Conditions(f, exact, 4).1);
  }

  lemma {:induction false} ConditionsBuilt(f: Filter, exact: bool, k: nat)
    requires k <= 4
    ensures Built(f, exact, k, Conditions(f, exact, k).0, Conditions(f, exact, k).1)
  {
    if k > 0 {
      ConditionsBuilt(f, exact, k - 1);
      FieldStep(f, exact, k - 1, Conditions(f, exact, k - 1).0, Conditions(f, exact, k - 1).1);
    }
  }

  /**
   * `Account.build_sql_condition`: None exactly when a supplied name, room
   * or username is invalid (id is never validated); otherwise one clause and
   * one parameter per supplied filter, in the order id, name, room,
   * username, selecting exactly the rows `MatchesFilter` accepts.
   */
  method BuildSqlCondition(f: Filter) returns (r: Option<(seq<Clause>, seq<Param>)>)
    ensures r.None? <==> !FilterValid(f)
    ensures r.Some? ==> |r.value.0| == |r.value.1| == Supplied(f) == ParamCount(r.value.0)
    ensures r.Some? ==> Ranked(r.value.0)
    ensures r.Some? ==> forall c :: c in r.value.0 ==> !c.ApprovedIs? && !c.UsernameEquals?
    ensures r.Some? ==> forall row :: Holds(r.value.0, r.value.1, row) <==> FilterMatches(f, false, row)
  {
    var clauses: seq<Clause> := [];
    var params: seq<Param> := [];

    if f.id.Some? {
      clauses := clauses + [IdEquals];
      params := params + [IntParam(f.id.value)];
    }
    assert (clauses, params) == Conditions(f, false, 1);

    if f.name.Some? {
      if !ValidName(f.name.value) {
        return None;
      }
      clauses := clauses + [NameContains];
      params := params + [TextParam(f.name.value)];
    }
    assert (clauses, params) == Conditions(f, false, 2);

    if f.room.Some? {
      if !ValidRoom(f.room.value) {
        return None;
      }
      clauses := clauses + [RoomEquals];
      params := params + [IntParam(f.room.value)];
    }
    assert (clauses, params) == Conditions(f, false, 3);

    if f.username.Some? {
      if !ValidUsername(f.username.value) {
        return None;
      }
      clauses := clauses + [UsernameContains];
      params := params + [TextParam(f.username.value)];
    }
    assert (clauses, params) == Conditions(f, false, 4);

    ConditionsSelect(f, false);
    return Some((clauses, params));
  }

  /** With no filter supplied the condition is empty. */
  lemma NoFilterNoClauses()
    ensures Supplied(Filter(None, None, None, None)) == 0
    ensures FilterValid(Filter(None, None, None, None))
  {
  }

  /* ---------- the table ---------- */

  predicate KeysAreIds(rows: map<int, AccountRow>) {
    forall id :: id in rows ==> rows[id].id == id
  }

  predicate UsernamesUnique(rows: map<int, AccountRow>) {
    forall a, b :: a in rows && b in rows && rows[a].username == rows[b].username ==> a == b
  }

  predicate UsernameTaken(rows: map<int, AccountRow>, username: string) {
    exists id :: id in rows && rows[id].username == username
  }

  /** The `accounts` table, keyed by its primary key `id`. */
  class AccountsTable {
    var rows: map<int, AccountRow>

    ghost predicate Valid()
      reads this
    {
      KeysAreIds(rows) && UsernamesUnique(rows)
    }

    constructor ()
      ensures rows == map[] && Valid()
    {
      rows := map[];
    }
  }

  /** The columns `query` accepts for `order_by`; anything else falls back to `id`. */
  function OrderColumn(orderBy: string): (column: string)
    ensures column in {"id", "name", "room", "username"}
    ensures orderBy in {"id", "name", "room", "username"} ==> column == orderBy
    ensures orderBy !in {"id", "name", "room", "username"} ==> column == "id"
  {
    if orderBy in {"id", "name", "room", "username"} then orderBy else "id"
  }

  /** The value `ORDER BY column` compares. */
  function OrderKey(column: string, row: AccountRow): SortKey {
    if column == "name" then TextKey(row.name)
    else if column == "room" then IntKey(row.room)
    else if column == "username" then TextKey(row.username)
    else IntKey(row.id)
  }
}
