/**
 * Rooms (server/v1/models/rooms.py): the `rooms` table of room sizes and
 * parking counts, its validated upsert and delete, and the listing that
 * joins it with the rooms residents live in. Areas are stored as integer
 * hundredths of a square metre.
 */
module Rooms {
  import opened Results
  import opened Validators
  import opened Listing
  import Accounts

  const INVALID_ROOM: int := 102
  const INVALID_AREA: int := 501
  const INVALID_MOTORBIKE: int := 502
  const INVALID_CAR: int := 503

  const MAX_AREA: real := 21474836.0
  const MAX_VEHICLES: int := 255
  /** The largest value of the `INT` column `area`. */
  const INT_MAX: int := 0x7FFF_FFFF

  /** `RoomData`: the information an administrator submits for one room. */
  datatype RoomData = RoomData(room: int, area: real, motorbike: int, car: int)

  /**
   * `RoomData.validate_info`: the code of the first failing check among
   * room 102, area outside [0, 21474836] 501, motorbikes outside [0, 255]
   * 502 and cars outside [0, 255] 503, or None.
   */
  function RoomFailure(d: RoomData): (code: Option<int>)
    ensures code.None? <==>
      ValidRoom(d.room) && 0.0 <= d.area <= MAX_AREA && 0 <= d.motorbike <= MAX_VEHICLES && 0 <= d.car <= MAX_VEHICLES
    ensures code == Some(INVALID_ROOM) <==> !ValidRoom(d.room)
    ensures code == Some(INVALID_AREA) <==> ValidRoom(d.room) && !(0.0 <= d.area <= MAX_AREA)
    ensures code == Some(INVALID_MOTORBIKE) <==>
      ValidRoom(d.room) && 0.0 <= d.area <= MAX_AREA && !(0 <= d.motorbike <= MAX_VEHICLES)
    ensures code == Some(INVALID_CAR) <==>
      ValidRoom(d.room) && 0.0 <= d.area <= MAX_AREA && 0 <= d.motorbike <= MAX_VEHICLES && !(0 <= d.car <= MAX_VEHICLES)
  {
    if !ValidRoom(d.room) then Some(INVALID_ROOM)
    else if d.area < 0.0 || d.area > MAX_AREA then Some(INVALID_AREA)
    else if d.motorbike < 0 || d.motorbike > MAX_VEHICLES then Some(INVALID_MOTORBIKE)
    else if d.car < 0 || d.car > MAX_VEHICLES then Some(INVALID_CAR)
    else None
  }

  /** The code of the first entry `update_many`'s validation loop rejects. */
  function FirstFailure(rooms: seq<RoomData>): (code: Option<int>)
    ensures code.None? <==> forall i :: 0 <= i < |rooms| ==> RoomFailure(rooms[i]).None?
    ensures code.Some? ==> exists i :: 0 <= i < |rooms| && RoomFailure(rooms[i]) == code &&
                                       forall j :: 0 <= j < i ==> RoomFailure(rooms[j]).None?
  {
    if rooms == [] then None
    else if RoomFailure(rooms[0]).Some? then RoomFailure(rooms[0])
    else
      var code := FirstFailure(rooms[1..]);
      assert forall i :: 1 <= i < |rooms| ==> rooms[i] == rooms[1..][i - 1];
      if code.None? then code
      else
        var i :| 0 <= i < |rooms[1..]| && RoomFailure(rooms[1..][i]) == code &&
                 forall j :: 0 <= j < i ==> RoomFailure(rooms[1..][j]).None?;
        assert RoomFailure(rooms[i + 1]) == code;
        code
  }

  /** The first entry that fails decides `FirstFailure`. */
  lemma {:induction false} FirstFailureAt(rooms: seq<RoomData>, i: nat)
    requires i < |rooms| && RoomFailure(rooms[i]).Some?
    requires forall j :: 0 <= j < i ==> RoomFailure(rooms[j]).None?
    ensures FirstFailure(rooms) == RoomFailure(rooms[i])
    decreases i
  {
    if i > 0 {
      assert forall j :: 0 <= j < i - 1 ==> rooms[1..][j] == rooms[j + 1];
      FirstFailureAt(rooms[1..], i - 1);
    }
  }

  /** A row of the `rooms` table: `area` in hundredths of a square metre. */
  datatype RoomRow = RoomRow(room: int, area: int, motorbike: int, car: int)

  /** The row fits the column types: SMALLINT room, INT area, TINYINT counts. */
  predicate InRange(row: RoomRow) {
    ValidRoom(row.room) && 0 <= row.area <= INT_MAX && 0 <= row.motorbike <= MAX_VEHICLES && 0 <= row.car <= MAX_VEHICLES
  }

  /** The table is keyed by room number and every row fits its columns. */
  predicate TableValid(rows: map<int, RoomRow>) {
    forall k :: k in rows ==> rows[k].room == k && InRange(rows[k])
  }

  /** The parameters `update_many` sends for one entry. */
  function ToRow(d: RoomData): (row: RoomRow)
    ensures row.room == d.room && row.motorbike == d.motorbike && row.car == d.car
    ensures RoomFailure(d).None? ==> InRange(row)
  {
    RoomRow(d.room, Hundredths(d.area), d.motorbike, d.car)
  }

  /**
   * The statements of `executemany`, run in order: each entry updates the
   * row of its room when there is one and inserts it otherwise.
   */
  function Upsert(rows: map<int, RoomRow>, rooms: seq<RoomData>): map<int, RoomRow>
  {
    if rooms == [] then rows
    else
      var last := rooms[|rooms| - 1];
      Upsert(rows, rooms[..|rooms| - 1])[last.room := ToRow(last)]
  }

  /** A room no entry names keeps its row, or stays absent. */
  lemma {:induction false} UpsertUnlisted(rows: map<int, RoomRow>, rooms: seq<RoomData>, k: int)
    requires forall j :: 0 <= j < |rooms| ==> rooms[j].room != k
    ensures k in Upsert(rows, rooms) <==> k in rows
    ensures k in rows ==> Upsert(rows, rooms)[k] == rows[k]
  {
    if rooms != [] {
      UpsertUnlisted(rows, rooms[..|rooms| - 1], k);
    }
  }

  /** A named room ends up holding the last entry that names it. */
  lemma {:induction false} UpsertLast(rows: map<int, RoomRow>, rooms: seq<RoomData>, i: nat)
    requires i < |rooms|
    requires forall j :: i < j < |rooms| ==> rooms[j].room != rooms[i].room
    ensures rooms[i].room in Upsert(rows, rooms) && Upsert(rows, rooms)[rooms[i].room] == ToRow(rooms[i])
  {
    if i < |rooms| - 1 {
      UpsertLast(rows, rooms[..|rooms| - 1], i);
    }
  }

  /** Upserting valid entries keeps the table valid. */
  lemma {:induction false} UpsertValid(rows: map<int, RoomRow>, rooms: seq<RoomData>)
    requires TableValid(rows)
    requires forall j :: 0 <= j < |rooms| ==> RoomFailure(rooms[j]).None?
    ensures TableValid(Upsert(rows, rooms))
  {
    if rooms != [] {
      UpsertValid(rows, rooms[..|rooms| - 1]);
    }
  }

  /**
   * What `Room.from_row` reads back for a stored area lies within one
   * hundredth below the submitted area.
   */
  lemma StoredArea(d: RoomData)
    requires RoomFailure(d).None?
    ensures d.area - 0.01 < ToRow(d).area as real / 100.0 <= d.area
  {
  }

  /** The `rooms` table, keyed by room number. */
  class RoomsTable {
    var rows: map<int, RoomRow>

    ghost predicate Valid()
      reads this
    {
      TableValid(rows)
    }

    constructor ()
      ensures rows == map[] && Valid()
    {
      rows := map[];
    }

    /**
     * `RoomData.update_many`: an empty list does nothing; the first invalid
     * entry's code is returned and nothing is written; otherwise every
     * entry is upserted, in order.
     */
    method UpdateMany(rooms: seq<RoomData>) returns (r: Option<Result<()>>)
      requires Valid()
      modifies this
      ensures Valid()
      ensures r.None? <==> FirstFailure(rooms).None?
      ensures r.Some? ==> r.value == Fail(FirstFailure(rooms).value) && rows == old(rows)
      ensures r.None? ==> rows == Upsert(old(rows), rooms)
    {
      if |rooms| == 0 {
        return None;
      }
      var i := 0;
      while i < |rooms|
        invariant 0 <= i <= |rooms|
        invariant forall j :: 0 <= j < i ==> RoomFailure(rooms[j]).None?
      {
        var failure := RoomFailure(rooms[i]);
        if failure.Some? {
          FirstFailureAt(rooms, i);
          return Some(Fail(failure.value));
        }
        i := i + 1;
      }
      var updated := rows;
      i := 0;
      while i < |rooms|
        invariant 0 <= i <= |rooms|
        invariant updated == Upsert(old(rows), rooms[..i])
      {
        assert rooms[..i + 1][..i] == rooms[..i];
        updated := updated[rooms[i].room := ToRow(rooms[i])];
        i := i + 1;
      }
      assert rooms[..|rooms|] == rooms;
      UpsertValid(old(rows), rooms);
      rows := updated;
      r := None;
    }

    /** `RoomData.delete_many`: removes exactly the rows of the listed rooms. */
    method DeleteMany(rooms: seq<int>)
      requires Valid()
      modifies this
      ensures Valid()
      ensures forall k :: k in rows <==> k in old(rows) && k !in rooms
      ensures forall k :: k in rows ==> rows[k] == old(rows)[k]
    {
      if |rooms| == 0 {
        return;
      }
      rows := map k | k in rows && k !in rooms :: rows[k];
    }
  }

  /* ---------- listing ---------- */

  /** `room / 100` in T-SQL: integer division truncating toward zero. */
  function Floor(room: int): int {
    if room >= 0 then room / 100 else -((-room) / 100)
  }

  /** For a non-negative room number, its floor is its hundreds. */
  lemma FloorOfRoom(room: int, floor: int)
    requires room >= 0
    ensures Floor(room) == floor <==> 100 * floor <= room < 100 * floor + 100
  {
  }

  /** The HAVING/WHERE clauses `count` and `query` build, each with one parameter. */
  datatype RoomClause = RoomIs | FloorIs

  predicate RoomClauseHolds(c: RoomClause, param: int, room: int) {
    match c
    case RoomIs => room == param
    case FloorIs => Floor(room) == param
  }

  predicate RoomHolds(clauses: seq<RoomClause>, params: seq<int>, room: int) {
    forall i :: 0 <= i < |clauses| && i < |params| ==> RoomClauseHolds(clauses[i], params[i], room)
  }

  /** The filter the arguments ask for: room exact, floor by `room / 100`. */
  predicate RoomFilter(room: Option<int>, floor: Option<int>, r: int) {
    (room.None? || r == room.value) && (floor.None? || Floor(r) == floor.value)
  }

  /** The clause lists of `count` and `query`: the room clause first, then the floor clause. */
  method RoomCondition(room: Option<int>, floor: Option<int>) returns (clauses: seq<RoomClause>, params: seq<int>)
    ensures |clauses| == |params| == (if room.Some? then 1 else 0) + (if floor.Some? then 1 else 0)
    ensures room.Some? ==> clauses[0] == RoomIs
    ensures forall r :: RoomHolds(clauses, params, r) <==> RoomFilter(room, floor, r)
  {
    clauses, params := [], [];
    if room.Some? {
      clauses := clauses + [RoomIs];
      params := params + [room.value];
    }
    if floor.Some? {
      clauses := clauses + [FloorIs];
      params := params + [floor.value];
    }
    forall r
      ensures RoomHolds(clauses, params, r) <==> RoomFilter(room, floor, r)
    {
      if room.Some? && !RoomFilter(room, floor, r) && r != room.value {
        assert !RoomClauseHolds(clauses[0], params[0], r);
      }
      if floor.Some? && !RoomFilter(room, floor, r) && Floor(r) != floor.value {
        assert !RoomClauseHolds(clauses[|clauses| - 1], params[|clauses| - 1], r);
      }
    }
  }

  /** A row of `rooms_union`: a stored room, or a room residents live in with NULL columns. */
  datatype UnionRow = UnionRow(room: int, area: Option<int>, motorbike: Option<int>, car: Option<int>)

  /** The rooms of approved accounts. */
  function ApprovedRooms(accounts: map<int, Accounts.AccountRow>): set<int> {
    set id | id in accounts && accounts[id].approved :: accounts[id].room
  }

  /**
   * `rooms_union`: every stored room, plus each room of an approved
   * account that has no stored row, once.
   */
  function Union(rooms: map<int, RoomRow>, accounts: map<int, Accounts.AccountRow>): (u: map<int, UnionRow>)
    ensures u.Keys == rooms.Keys + ApprovedRooms(accounts)
    ensures forall k :: k in u ==> u[k].room == k
    ensures forall k :: k in u && k in rooms ==>
      u[k] == UnionRow(k, Some(rooms[k].area), Some(rooms[k].motorbike), Some(rooms[k].car))
    ensures forall k :: k in u && k !in rooms ==> u[k] == UnionRow(k, None, None, None)
  {
    map k | k in rooms.Keys + ApprovedRooms(accounts) ::
      if k in rooms then UnionRow(k, Some(rooms[k].area), Some(rooms[k].motorbike), Some(rooms[k].car))
      else UnionRow(k, None, None, None)
  }

  /** `Room`: one listed room with its size, parking counts and number of residents. */
  datatype Room = Room(room: int, area: Option<real>, motorbike: Option<int>, car: Option<int>, residents: int)

  /** `Room.from_row`: NULL columns stay None and a present area is divided by 100. */
  function FromRow(row: UnionRow, residents: int): (r: Room)
    ensures r.room == row.room && r.motorbike == row.motorbike && r.car == row.car && r.residents == residents
    ensures r.area.None? <==> row.area.None?
    ensures r.area.Some? ==> r.area.value * 100.0 == row.area.value as real
  {
    Room(row.room, if row.area.None? then None else Some(row.area.value as real / 100.0), row.motorbike, row.car,
         residents)
  }

  /**
   * `COUNT(1)` over `rooms_union LEFT JOIN accounts ON ru.room =
   * accounts.room`, as written: the number of accounts in the room,
   * pending ones included, and 1 for a room nobody lives in (the
   * NULL-extended row is counted).
   */
  function ResidentsAsWritten(accounts: map<int, Accounts.AccountRow>, room: int): (r: nat)
    ensures r >= 1 && r >= ResidentCount(accounts, room)
    ensures (forall id :: id in accounts ==> accounts[id].room != room) ==> r == 1
  {
    var all := set id | id in accounts && accounts[id].room == room;
    var approved := set id | id in accounts && accounts[id].approved && accounts[id].room == room;
    assert ResidentCount(accounts, room) == |approved|;
    assert |approved| <= |all| by {
      assert all == approved + (all - approved) && approved * (all - approved) == {};
    }
    assert (forall id :: id in accounts ==> accounts[id].room != room) ==> all == {};
    if |all| == 0 then 1 else |all|
  }

  /** The number of residents, as the field is described: approved accounts in the room. */
  function ResidentCount(accounts: map<int, Accounts.AccountRow>, room: int): (n: nat)
    ensures n == 0 <==> forall id :: id in accounts ==> !(accounts[id].approved && accounts[id].room == room)
  {
    var s := set id | id in accounts && accounts[id].approved && accounts[id].room == room;
    assert s == {} <==> forall id :: id in accounts ==> !(accounts[id].approved && accounts[id].room == room) by {
      if s != {} {
        assert exists y :: y in s by {
          if forall y :: y !in s { assert false; }
        }
        var id :| id in s;
      }
      if exists id :: id in accounts && accounts[id].approved && accounts[id].room == room {
        var id :| id in accounts && accounts[id].approved && accounts[id].room == room;
        assert id in s;
      }
    }
    |s|
  }

  /** A room without any account is listed with 1 resident, where none live. */
  lemma {:induction false} EmptyRoomCountsOne(room: int)
    ensures ResidentsAsWritten(map[], room) == 1
    ensures ResidentCount(map[], room) == 0
  {
    var none: map<int, Accounts.AccountRow> := map[];
    assert (set id | id in none && none[id].room == room) == {};
  }

  /** `HAVING ... ORDER BY ru.room OFFSET ? ROWS FETCH NEXT 50 ROWS ONLY` over `rooms_union`. */
  function UnionPage(u: map<int, UnionRow>, room: Option<int>, floor: Option<int>, offset: nat): (rows: seq<UnionRow>)
    ensures |rows| <= PAGE_SIZE
    ensures forall i :: 0 <= i < |rows| ==> rows[i] in u.Values && RoomFilter(room, floor, rows[i].room)
    ensures forall i :: 0 <= i < |rows| - 1 ==> rows[i].room <= rows[i + 1].room
  {
    QueryAt(Rows(u), (r: UnionRow) => RoomFilter(room, floor, r.room), (r: UnionRow) => IntKey(r.room), true, offset);
    Listing.Query(Rows(u), (r: UnionRow) => RoomFilter(room, floor, r.room), (r: UnionRow) => IntKey(r.room), true, offset)
  }

  /** The listed rooms, each with its number of residents. */
  function ToRooms(rows: seq<UnionRow>, accounts: map<int, Accounts.AccountRow>): (r: seq<Room>)
    ensures |r| == |rows|
    ensures forall i :: 0 <= i < |rows| ==> r[i] == FromRow(rows[i], ResidentCount(accounts, rows[i].room))
  {
    seq(|rows|, i requires 0 <= i < |rows| => FromRow(rows[i], ResidentCount(accounts, rows[i].room)))
  }

  /** The page `query` lists: filtered union rows in ascending room order. */
  function RoomPage(rooms: map<int, RoomRow>, accounts: map<int, Accounts.AccountRow>,
                    room: Option<int>, floor: Option<int>, offset: nat): (page: seq<Room>)
    ensures |page| <= PAGE_SIZE
    ensures forall i :: 0 <= i < |page| ==>
      page[i].room in rooms.Keys + ApprovedRooms(accounts) && RoomFilter(room, floor, page[i].room) &&
      page[i].residents == ResidentCount(accounts, page[i].room)
    ensures forall i :: 0 <= i < |page| && page[i].room in rooms ==>
      page[i].motorbike == Some(rooms[page[i].room].motorbike) && page[i].car == Some(rooms[page[i].room].car)
    ensures forall i :: 0 <= i < |page| - 1 ==> page[i].room <= page[i + 1].room
  {
    var rows := UnionPage(Union(rooms, accounts), room, floor, offset);
    UnionRowsStored(rooms, accounts, rows);
    ToRooms(rows, accounts)
  }

  /** A row taken from the union is the entry stored under its own room number. */
  lemma UnionRowsStored(rooms: map<int, RoomRow>, accounts: map<int, Accounts.AccountRow>, rows: seq<UnionRow>)
    requires forall i :: 0 <= i < |rows| ==> rows[i] in Union(rooms, accounts).Values
    ensures forall i :: 0 <= i < |rows| ==> rows[i].room in rooms.Keys + ApprovedRooms(accounts)
    ensures forall i :: 0 <= i < |rows| && rows[i].room in rooms ==>
      rows[i].motorbike == Some(rooms[rows[i].room].motorbike) && rows[i].car == Some(rooms[rows[i].room].car)
  {
    var u := Union(rooms, accounts);
    forall i | 0 <= i < |rows|
      ensures rows[i].room in u && u[rows[i].room] == rows[i]
    {
      assert rows[i] in u.Values;
      var k :| k in u && u[k] == rows[i];
    }
  }

  /** `Room.count`: the union rows the filter keeps. */
  function RoomCount(rooms: map<int, RoomRow>, accounts: map<int, Accounts.AccountRow>,
                     room: Option<int>, floor: Option<int>): (n: nat)
    ensures n == 0 <==> forall k :: k in rooms.Keys + ApprovedRooms(accounts) ==> !RoomFilter(room, floor, k)
  {
    var u := Union(rooms, accounts);
    var n := Listing.Count(Rows(u), (r: UnionRow) => RoomFilter(room, floor, r.room));
    assert forall k :: k in u ==> u[k] in u.Values;
    n
  }

  /**
   * `Room.query`: a negative offset makes the database raise; otherwise
   * the page of `RoomPage`, built from the clause lists.
   */
  method Query(table: RoomsTable, accounts: Accounts.AccountsTable, offset: int, room: Option<int>, floor: Option<int>)
    returns (r: Outcome<seq<Room>>)
    ensures offset < 0 ==> r.Raised?
    ensures offset >= 0 ==> r == Returned(RoomPage(table.rows, accounts.rows, room, floor, offset))
  {
    var clauses, params := RoomCondition(room, floor);
    if offset < 0 {
      return Raised("ProgrammingError");
    }
    var u := Union(table.rows, accounts.rows);
    QueryCongruent(Rows(u), (row: UnionRow) => RoomHolds(clauses, params, row.room),
                   (row: UnionRow) => RoomFilter(room, floor, row.room), (row: UnionRow) => IntKey(row.room), true, offset);
    var rows := Listing.Query(Rows(u), (row: UnionRow) => RoomHolds(clauses, params, row.room),
                              (row: UnionRow) => IntKey(row.room), true, offset);
    assert rows == UnionPage(u, room, floor, offset);
    r := Returned(ToRooms(rows, accounts.rows));
  }

  /** `Room.count`, built from the clause lists. */
  method Count(table: RoomsTable, accounts: Accounts.AccountsTable, room: Option<int>, floor: Option<int>)
    returns (n: nat)
    ensures n == RoomCount(table.rows, accounts.rows, room, floor)
  {
    var clauses, params := RoomCondition(room, floor);
    var u := Union(table.rows, accounts.rows);
    QueryCongruent(Rows(u), (row: UnionRow) => RoomHolds(clauses, params, row.room), (row: UnionRow) => RoomFilter(room, floor, row.room),
                   (row: UnionRow) => IntKey(row.room), true, 0);
    n := Listing.Count(Rows(u), (row: UnionRow) => RoomHolds(clauses, params, row.room));
  }
}
