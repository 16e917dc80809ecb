/**
 * Fees (server/v1/models/fee.py): a fee charged to every room, with a base
 * range and per-area, per-motorbike and per-car surcharges, stored in
 * integer hundredths; its validated creation and its listing.
 */
module Fees {
  import opened Results
  import opened Validators
  import opened Listing
  import Accounts
  import Snowflakes
  import Info

  const INVALID_FEE_NAME: int := 601
  const INVALID_FEE_BOUNDS: int := 602
  const INVALID_FEE_PER_AREA: int := 603
  const INVALID_FEE_PER_MOTORBIKE: int := 604
  const INVALID_FEE_PER_CAR: int := 605

  /** A row of the `fee` table: amounts in hundredths, `flags` a TINYINT. */
  datatype FeeRow = FeeRow(id: int, name: string, lower: int, upper: int, perArea: int, perMotorbike: int,
                           perCar: int, deadline: Info.Date, description: string, flags: int)

  /** `Fee`: the row with its amounts back in units. */
  datatype Fee = Fee(id: int, name: string, lower: real, upper: real, perArea: real, perMotorbike: real,
                     perCar: real, deadline: Info.Date, description: string, flags: int)

  /** `Fee.from_row`: every amount divided by 100, the rest copied. */
  function FromRow(row: FeeRow): (f: Fee)
    ensures f.id == row.id && f.name == row.name && f.deadline == row.deadline
    ensures f.description == row.description && f.flags == row.flags
    ensures f.lower * 100.0 == row.lower as real && f.upper * 100.0 == row.upper as real
    ensures f.perArea * 100.0 == row.perArea as real && f.perMotorbike * 100.0 == row.perMotorbike as real
    ensures f.perCar * 100.0 == row.perCar as real
  {
    Fee(row.id, row.name, row.lower as real / 100.0, row.upper as real / 100.0, row.perArea as real / 100.0,
        row.perMotorbike as real / 100.0, row.perCar as real / 100.0, row.deadline, row.description, row.flags)
  }

  /**
   * The ladder of `Fee.create`: name 601, bounds 602, per area 603, per
   * motorbike 604, per car 605; the first failing check decides.
   */
  function FeeFailure(name: string, lower: real, upper: real, perArea: real, perMotorbike: real, perCar: real)
    : (code: Option<int>)
    ensures code.None? <==> ValidFeeName(name) && ValidFeeBounds(lower, upper) && ValidFeePerUnit(perArea) &&
                            ValidFeePerUnit(perMotorbike) && ValidFeePerUnit(perCar)
    ensures code == Some(INVALID_FEE_NAME) <==> !ValidFeeName(name)
    ensures code == Some(INVALID_FEE_BOUNDS) <==> ValidFeeName(name) && !ValidFeeBounds(lower, upper)
    ensures code == Some(INVALID_FEE_PER_AREA) <==>
      ValidFeeName(name) && ValidFeeBounds(lower, upper) && !ValidFeePerUnit(perArea)
    ensures code == Some(INVALID_FEE_PER_MOTORBIKE) <==>
      ValidFeeName(name) && ValidFeeBounds(lower, upper) && ValidFeePerUnit(perArea) && !ValidFeePerUnit(perMotorbike)
    ensures code == Some(INVALID_FEE_PER_CAR) <==>
      ValidFeeName(name) && ValidFeeBounds(lower, upper) && ValidFeePerUnit(perArea) &&
      ValidFeePerUnit(perMotorbike) && !ValidFeePerUnit(perCar)
  {
    if !ValidFeeName(name) then Some(INVALID_FEE_NAME)
    else if !ValidFeeBounds(lower, upper) then Some(INVALID_FEE_BOUNDS)
    else if !ValidFeePerUnit(perArea) then Some(INVALID_FEE_PER_AREA)
    else if !ValidFeePerUnit(perMotorbike) then Some(INVALID_FEE_PER_MOTORBIKE)
    else if !ValidFeePerUnit(perCar) then Some(INVALID_FEE_PER_CAR)
    else None
  }

  /** The largest value of an `INT` column. */
  const INT_MAX: int := 0x7FFF_FFFF

  /** Every amount that passes its validator fits the `INT` columns once in hundredths. */
  lemma {:induction false} ValidAmountsFit(lower: real, upper: real, perUnit: real)
    requires ValidFeeBounds(lower, upper) && ValidFeePerUnit(perUnit)
    ensures 0 <= Hundredths(lower) < INT_MAX && 0 <= Hundredths(upper) < INT_MAX
    ensures -INT_MAX < Hundredths(perUnit) < INT_MAX
  {
    assert 100.0 * FEE_LIMIT < INT_MAX as real;
  }

  /**
   * What `Fee.create` does to the `fee` table and returns. `now` and
   * `random` feed `generate_id()`; a flags value outside the TINYINT range
   * or an id already in use makes the insert raise.
   */
  function CreateEffect(rows: map<int, FeeRow>, now: int, random: nat, name: string, lower: real, upper: real,
                        perArea: real, perMotorbike: real, perCar: real, deadline: Info.Date,
                        description: string, flags: int)
    : (map<int, FeeRow>, Outcome<Result<Fee>>)
  {
    var failure := FeeFailure(name, lower, upper, perArea, perMotorbike, perCar);
    if failure.Some? then (rows, Returned(Fail(failure.value)))
    else
      var id := Snowflakes.GenerateId(now, random);
      if !(0 <= flags <= 255) then (rows, Raised("DataError"))
      else if id in rows then (rows, Raised("IntegrityError"))
      else
        var row := FeeRow(id, name, Hundredths(lower), Hundredths(upper), Hundredths(perArea), Hundredths(perMotorbike),
                          Hundredths(perCar), deadline, description, flags);
        (rows[id := row], Returned(Ok(FromRow(row))))
  }

  /** The `fee` table, keyed by id. */
  class FeesTable {
    var rows: map<int, FeeRow>

    ghost predicate Valid()
      reads this
    {
      forall k :: k in rows ==> rows[k].id == k
    }

    constructor ()
      ensures rows == map[] && Valid()
    {
      rows := map[];
    }

    /** `Fee.create`: the ladder 601-605, then an insert under a fresh id. */
    method Create(now: int, random: nat, name: string, lower: real, upper: real, perArea: real,
                  perMotorbike: real, perCar: real, deadline: Info.Date, description: string, flags: int)
      returns (r: Outcome<Result<Fee>>)
      requires Valid()
      modifies this
      ensures Valid()
      ensures (rows, r) ==
        CreateEffect(old(rows), now, random, name, lower, upper, perArea, perMotorbike, perCar, deadline, description, flags)
    {
      if !ValidFeeName(name) {
        return Returned(Fail(INVALID_FEE_NAME));
      }
      if !ValidFeeBounds(lower, upper) {
        return Returned(Fail(INVALID_FEE_BOUNDS));
      }
      if !ValidFeePerUnit(perArea) {
        return Returned(Fail(INVALID_FEE_PER_AREA));
      }
      if !ValidFeePerUnit(perMotorbike) {
        return Returned(Fail(INVALID_FEE_PER_MOTORBIKE));
      }
      if !ValidFeePerUnit(perCar) {
        return Returned(Fail(INVALID_FEE_PER_CAR));
      }
      var id := Snowflakes.GenerateId(now, random);
      if !(0 <= flags <= 255) {
        return Raised("DataError");
      }
      if id in rows {
        return Raised("IntegrityError");
      }
      var row := FeeRow(id, name, Hundredths(lower), Hundredths(upper), Hundredths(perArea), Hundredths(perMotorbike),
                        Hundredths(perCar), deadline, description, flags);
      rows := rows[id := row];
      r := Returned(Ok(FromRow(row)));
    }
  }

  /** A rejected fee leaves the table as it was and reports the ladder's code. */
  lemma {:induction false} CreateRejects(rows: map<int, FeeRow>, now: int, random: nat, name: string, lower: real,
                                         upper: real, perArea: real, perMotorbike: real, perCar: real,
                                         deadline: Info.Date, description: string, flags: int)
    requires FeeFailure(name, lower, upper, perArea, perMotorbike, perCar).Some?
    ensures var (rows', r) := CreateEffect(rows, now, random, name, lower, upper, perArea, perMotorbike, perCar,
                                           deadline, description, flags);
      rows' == rows && r == Returned(Fail(FeeFailure(name, lower, upper, perArea, perMotorbike, perCar).value))
  {
  }

  /**
   * A created fee is stored under a fresh id minted at `now`, nothing else
   * changes, and each amount it returns is within one hundredth of the
   * submitted amount (truncated toward zero).
   */
  lemma {:induction false} CreateInserts(rows: map<int, FeeRow>, now: int, random: nat, name: string, lower: real,
                                         upper: real, perArea: real, perMotorbike: real, perCar: real,
                                         deadline: Info.Date, description: string, flags: int)
    requires now >= 0
    requires CreateEffect(rows, now, random, name, lower, upper, perArea, perMotorbike, perCar,
                          deadline, description, flags).1.Returned?
    requires FeeFailure(name, lower, upper, perArea, perMotorbike, perCar).None?
    ensures var (rows', r) := CreateEffect(rows, now, random, name, lower, upper, perArea, perMotorbike, perCar,
                                           deadline, description, flags);
      var f := r.value.data.value;
      r.value.code == 0 && f.id !in rows && rows' == rows[f.id := rows'[f.id]] &&
      f.id in rows' && f == FromRow(rows'[f.id]) &&
      rows'[f.id] == FeeRow(f.id, name, Hundredths(lower), Hundredths(upper), Hundredths(perArea),
                            Hundredths(perMotorbike), Hundredths(perCar), deadline, description, flags) &&
      Snowflakes.SnowflakeTime(f.id) == Snowflakes.EPOCH_MS + now &&
      f.name == name && f.deadline == deadline && f.description == description && f.flags == flags &&
      0.0 <= lower - f.lower < 0.01 && 0.0 <= upper - f.upper < 0.01 &&
      -0.01 < perArea - f.perArea < 0.01 && -0.01 < perCar - f.perCar < 0.01 &&
      -0.01 < perMotorbike - f.perMotorbike < 0.01
  {
    Snowflakes.SnowflakeTimeOfGenerated(now, random);
  }

  /* ---------- listing ---------- */

  /** The WHERE clauses `Fee.query` builds. */
  datatype FeeClause = IdEquals | NameContains

  predicate FeeClauseHolds(c: FeeClause, p: Accounts.Param, row: FeeRow) {
    match c
    case IdEquals => p.IntParam? && row.id == p.n
    case NameContains => p.TextParam? && Contains(row.name, p.s)
  }

  predicate FeeHolds(clauses: seq<FeeClause>, params: seq<Accounts.Param>, row: FeeRow) {
    forall i :: 0 <= i < |clauses| && i < |params| ==> FeeClauseHolds(clauses[i], params[i], row)
  }

  /** The rows the arguments ask for: id exact, name a substring. */
  predicate FeeMatches(id: Option<int>, name: Option<string>, row: FeeRow) {
    (id.None? || row.id == id.value) && (name.None? || Contains(row.name, name.value))
  }

  /** The clause lists of `Fee.query`: None when the name filter is invalid. */
  method FeeCondition(id: Option<int>, name: Option<string>) returns (r: Option<(seq<FeeClause>, seq<Accounts.Param>)>)
    ensures r.None? <==> name.Some? && !ValidFeeName(name.value)
    ensures r.Some? ==> |r.value.0| == |r.value.1| == (if id.Some? then 1 else 0) + (if name.Some? then 1 else 0)
    ensures r.Some? ==> forall row :: FeeHolds(r.value.0, r.value.1, row) <==> FeeMatches(id, name, row)
  {
    var clauses: seq<FeeClause> := [];
    var params: seq<Accounts.Param> := [];
    if id.Some? {
      clauses := clauses + [IdEquals];
      params := params + [Accounts.IntParam(id.value)];
    }
    if name.Some? {
      if !ValidFeeName(name.value) {
        return None;
      }
      clauses := clauses + [NameContains];
      params := params + [Accounts.TextParam(name.value)];
    }
    forall row
      ensures FeeHolds(clauses, params, row) <==> FeeMatches(id, name, row)
    {
      if id.Some? && row.id != id.value {
        assert !FeeClauseHolds(clauses[0], params[0], row);
      }
      if name.Some? && !Contains(row.name, name.value) {
        assert !FeeClauseHolds(clauses[|clauses| - 1], params[|clauses| - 1], row);
      }
    }
    return Some((clauses, params));
  }

  /** The ORDER BY column: one of the eight sortable columns, otherwise `id`. */
  function OrderColumn(orderBy: string): (column: string)
    ensures column == orderBy || column == "id"
    ensures column == orderBy <==>
      orderBy in ["id", "name", "lower", "upper", "per_area", "per_motorbike", "per_car", "deadline"]
  {
    if orderBy in ["id", "name", "lower", "upper", "per_area", "per_motorbike", "per_car", "deadline"] then orderBy
    else "id"
  }

  /** The value a row sorts by in a column; a date sorts as `yyyymmdd`. */
  function OrderKey(column: string, row: FeeRow): SortKey {
    match column
    case "name" => TextKey(row.name)
    case "lower" => IntKey(row.lower)
    case "upper" => IntKey(row.upper)
    case "per_area" => IntKey(row.perArea)
    case "per_motorbike" => IntKey(row.perMotorbike)
    case "per_car" => IntKey(row.perCar)
    case "deadline" => IntKey(row.deadline.year * 10000 + row.deadline.month * 100 + row.deadline.day)
    case _ => IntKey(row.id)
  }

  /** The page `Fee.query` lists, before conversion with `from_row`. */
  function FeePage(rows: map<int, FeeRow>, id: Option<int>, name: Option<string>, orderBy: string, ascending: bool,
                   offset: nat): (page: seq<FeeRow>)
    ensures |page| <= PAGE_SIZE
    ensures forall row :: row in page ==> row in rows.Values && FeeMatches(id, name, row)
    ensures Ordered(page, row => OrderKey(OrderColumn(orderBy), row), ascending)
  {
    Listing.Query(Rows(rows), row => FeeMatches(id, name, row), row => OrderKey(OrderColumn(orderBy), row), ascending,
                  offset)
  }

  /** Each listed row converted by `FromRow`, in order. */
  function ToFees(rows: seq<FeeRow>): (r: seq<Fee>)
    ensures |r| == |rows|
    ensures forall i :: 0 <= i < |rows| ==> r[i] == FromRow(rows[i])
  {
    seq(|rows|, i requires 0 <= i < |rows| => FromRow(rows[i]))
  }

  /** Listing with the built clauses gives the page of the fees the arguments ask for. */
  lemma ConditionPage(rows: map<int, FeeRow>, id: Option<int>, name: Option<string>, clauses: seq<FeeClause>,
                      params: seq<Accounts.Param>, orderBy: string, ascending: bool, offset: nat)
    requires forall row :: FeeHolds(clauses, params, row) <==> FeeMatches(id, name, row)
    ensures Listing.Query(Rows(rows), row => FeeHolds(clauses, params, row), row => OrderKey(OrderColumn(orderBy), row),
                          ascending, offset)
         == FeePage(rows, id, name, orderBy, ascending, offset)
  {
    QueryCongruent(Rows(rows), row => FeeHolds(clauses, params, row), row => FeeMatches(id, name, row),
                   row => OrderKey(OrderColumn(orderBy), row), ascending, offset);
  }

  /**
   * `Fee.query`: an invalid name filter gives `[]`; a negative offset makes
   * the database raise; otherwise one page of matching fees.
   */
  method Query(table: FeesTable, offset: int, id: Option<int>, name: Option<string>, orderBy: string, ascending: bool)
    returns (r: Outcome<seq<Fee>>)
    ensures name.Some? && !ValidFeeName(name.value) ==> r == Returned([])
    ensures !(name.Some? && !ValidFeeName(name.value)) && offset < 0 ==> r.Raised?
    ensures !(name.Some? && !ValidFeeName(name.value)) && offset >= 0 ==>
      var page := FeePage(table.rows, id, name, orderBy, ascending, offset);
      r.Returned? && |r.value| == |page| && forall i :: 0 <= i < |page| ==> r.value[i] == FromRow(page[i])
  {
    var condition := FeeCondition(id, name);
    if condition.None? {
      return Returned([]);
    }
    var clauses := condition.value.0;
    var params := condition.value.1;
    if offset < 0 {
      return Raised("ProgrammingError");
    }
    var page := Listing.Query(Rows(table.rows), row => FeeHolds(clauses, params, row),
                              row => OrderKey(OrderColumn(orderBy), row), ascending, offset);
    ConditionPage(table.rows, id, name, clauses, params, orderBy, ascending, offset);
    r := Returned(ToFees(page));
  }
}
