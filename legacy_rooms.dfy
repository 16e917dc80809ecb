/**
 * Rooms in the earlier server (server/models/rooms.py): the same `rooms`
 * table of room number, area in hundredths, motorbike and car counts,
 * without validation, listed in descending room order.
 */
module LegacyRooms {
  import opened Results
  import opened Listing
  import Rooms

  /** The row fits the column types: SMALLINT room, INT area, TINYINT counts. */
  predicate Fits(row: Rooms.RoomRow) {
    -0x8000 <= row.room <= 0x7FFF && -0x8000_0000 <= row.area <= 0x7FFF_FFFF &&
    0 <= row.motorbike <= 255 && 0 <= row.car <= 255
  }

  predicate TableValid(rows: map<int, Rooms.RoomRow>) {
    forall k :: k in rows ==> rows[k].room == k && Fits(rows[k])
  }

  /** `Room` of the earlier server: the stored row with its area in square metres. */
  datatype Room = Room(room: int, area: real, motorbike: int, car: int)

  /** `Room.from_row`: the area divided by 100, the other columns copied. */
  function FromRow(row: Rooms.RoomRow): (r: Room)
    ensures r.room == row.room && r.motorbike == row.motorbike && r.car == row.car
    ensures r.area * 100.0 == row.area as real
  {
    Room(row.room, row.area as real / 100.0, row.motorbike, row.car)
  }

  /** Reading a stored room back gives its area to within one hundredth below. */
  lemma StoredArea(d: Rooms.RoomData)
    requires d.area >= 0.0
    ensures d.area - 0.01 < FromRow(Rooms.ToRow(d)).area <= d.area
  {
  }

  /** Upserting rows that fit keeps the table valid. */
  lemma {:induction false} UpsertFits(rows: map<int, Rooms.RoomRow>, rooms: seq<Rooms.RoomData>)
    requires TableValid(rows)
    requires forall j :: 0 <= j < |rooms| ==> Fits(Rooms.ToRow(rooms[j]))
    ensures TableValid(Rooms.Upsert(rows, rooms))
  {
    if rooms != [] {
      UpsertFits(rows, rooms[..|rooms| - 1]);
    }
  }

  /** The number of `?` markers in the statement `update_many` runs per room. */
  const UPSERT_MARKERS: nat := 9

  /** The parameter tuple `update_many` builds per room. */
  function UpsertParams(d: Rooms.RoomData): (params: seq<int>)
    ensures |params| == 8 != UPSERT_MARKERS
  {
    var row := Rooms.ToRow(d);
    [row.room, row.area, row.motorbike, row.car, row.room, row.area, row.motorbike, row.car]
  }

  /**
   * `update_many` as written: for a non-empty list the driver refuses the
   * batch, because each tuple supplies 8 values for 9 markers; nothing is
   * written.
   */
  function UpdateManyAsWritten(rows: map<int, Rooms.RoomRow>, rooms: seq<Rooms.RoomData>)
    : (r: (map<int, Rooms.RoomRow>, Outcome<()>))
    ensures r.0 == rows
    ensures r.1.Raised? <==> |rooms| > 0
  {
    if |rooms| == 0 then (rows, Returned(()))
    else if |UpsertParams(rooms[0])| != UPSERT_MARKERS then (rows, Raised("ProgrammingError"))
    else (rows, Returned(()))
  }

  /** As written, a new room is never stored, where the intended upsert stores it. */
  lemma {:induction false} UpdateManyAsWrittenStoresNothing(rows: map<int, Rooms.RoomRow>, d: Rooms.RoomData)
    requires d.room !in rows
    ensures d.room !in UpdateManyAsWritten(rows, [d]).0
    ensures d.room in Rooms.Upsert(rows, [d]) && Rooms.Upsert(rows, [d])[d.room] == Rooms.ToRow(d)
  {
    Rooms.UpsertLast(rows, [d], 0);
  }

  /**
   * `delete_many` as written: the rooms are spread as separate arguments
   * of `executemany` and the `IN` list lacks its parentheses, so a
   * non-empty list raises and nothing is deleted.
   */
  function DeleteManyAsWritten(rows: map<int, Rooms.RoomRow>, rooms: seq<int>)
    : (r: (map<int, Rooms.RoomRow>, Outcome<()>))
    ensures r.0 == rows
    ensures r.1.Raised? <==> |rooms| > 0
  {
    if |rooms| == 0 then (rows, Returned(())) else (rows, Raised("TypeError"))
  }

  /** As written, deleting a stored room leaves it in place. */
  lemma {:induction false} DeleteManyAsWrittenKeeps(rows: map<int, Rooms.RoomRow>, k: int)
    requires k in rows
    ensures k in DeleteManyAsWritten(rows, [k]).0
  {
  }

  /** The `rooms` table of the earlier server. */
  class RoomsTable {
    var rows: map<int, Rooms.RoomRow>

    ghost predicate Valid()
      reads this
    {
      TableValid(rows)
    }

    constructor ()
      ensures rows == map[] && Valid()
    {
      rows := map[];
    }

    /**
     * `update_many` as intended: nothing for an empty list; every listed
     * room updated when present and inserted otherwise, in order; a row
     * that does not fit its columns makes the batch fail and nothing is
     * written.
     */
    method UpdateMany(rooms: seq<Rooms.RoomData>) returns (r: Outcome<()>)
      requires Valid()
      modifies this
      ensures Valid()
      ensures |rooms| == 0 ==> r == Returned(()) && rows == old(rows)
      ensures r.Returned? <==> forall j :: 0 <= j < |rooms| ==> Fits(Rooms.ToRow(rooms[j]))
      ensures r.Raised? ==> rows == old(rows)
      ensures r.Returned? ==> rows == Rooms.Upsert(old(rows), rooms)
    {
      if |rooms| == 0 {
        return Returned(());
      }
      if !(forall j :: 0 <= j < |rooms| ==> Fits(Rooms.ToRow(rooms[j]))) {
        return Raised("DataError");
      }
      var updated := rows;
      var i := 0;
      while i < |rooms|
        invariant 0 <= i <= |rooms|
        invariant updated == Rooms.Upsert(old(rows), rooms[..i])
      {
        assert rooms[..i + 1][..i] == rooms[..i];
        updated := updated[rooms[i].room := Rooms.ToRow(rooms[i])];
        i := i + 1;
      }
      assert rooms[..|rooms|] == rooms;
      UpsertFits(old(rows), rooms);
      rows := updated;
      r := Returned(());
    }

    /** `delete_many` as intended: removes exactly the rows of the listed rooms. */
    method DeleteMany(rooms: seq<int>)
      requires Valid()
      modifies this
      ensures Valid()
      ensures forall k :: k in rows <==> k in old(rows) && k !in rooms
      ensures forall k :: k in rows ==> rows[k] == old(rows)[k]
    {
      if |rooms| == 0 {
        return;
      }
      rows := map k | k in rows && k !in rooms :: rows[k];
    }
  }

  /** The page `query` lists: filtered rooms, highest room number first. */
  function RoomPage(rows: map<int, Rooms.RoomRow>, room: Option<int>, floor: Option<int>, offset: nat)
    : (page: seq<Rooms.RoomRow>)
    ensures |page| <= PAGE_SIZE
    ensures forall i :: 0 <= i < |page| ==> page[i] in rows.Values && Rooms.RoomFilter(room, floor, page[i].room)
    ensures forall i :: 0 <= i < |page| - 1 ==> page[i].room >= page[i + 1].room
  {
    QueryAt(Rows(rows), (r: Rooms.RoomRow) => Rooms.RoomFilter(room, floor, r.room),
            (r: Rooms.RoomRow) => IntKey(r.room), false, offset);
    Listing.Query(Rows(rows), (r: Rooms.RoomRow) => Rooms.RoomFilter(room, floor, r.room),
                  (r: Rooms.RoomRow) => IntKey(r.room), false, offset)
  }

  /** The rows read back with `from_row`, in order. */
  function FromRows(page: seq<Rooms.RoomRow>): (r: seq<Room>)
    ensures |r| == |page|
    ensures forall i :: 0 <= i < |page| ==> r[i] == FromRow(page[i])
  {
    seq(|page|, i requires 0 <= i < |page| => FromRow(page[i]))
  }

  /**
   * `Room.query`: a negative offset makes the database raise; otherwise
   * the rooms of `RoomPage`, read back with `from_row`.
   */
  method Query(table: RoomsTable, offset: int, room: Option<int>, floor: Option<int>) returns (r: Outcome<seq<Room>>)
    ensures offset < 0 ==> r.Raised?
    ensures offset >= 0 ==> r == Returned(FromRows(RoomPage(table.rows, room, floor, offset)))
  {
    var clauses, params := Rooms.RoomCondition(room, floor);
    if offset < 0 {
      return Raised("ProgrammingError");
    }
    QueryCongruent(Rows(table.rows), (row: Rooms.RoomRow) => Rooms.RoomHolds(clauses, params, row.room),
                   (row: Rooms.RoomRow) => Rooms.RoomFilter(room, floor, row.room),
                   (row: Rooms.RoomRow) => IntKey(row.room), false, offset);
    var page := Listing.Query(Rows(table.rows), (row: Rooms.RoomRow) => Rooms.RoomHolds(clauses, params, row.room),
                              (row: Rooms.RoomRow) => IntKey(row.room), false, offset);
    assert page == RoomPage(table.rows, room, floor, offset);
    r := Returned(FromRows(page));
  }

  /** `Room.count`: the stored rooms the filter keeps; 0 exactly when none does. */
  method Count(table: RoomsTable, room: Option<int>, floor: Option<int>) returns (n: nat)
    ensures n == Listing.Count(Rows(table.rows), (row: Rooms.RoomRow) => Rooms.RoomFilter(room, floor, row.room))
    ensures n == 0 <==> forall k :: k in table.rows ==> !Rooms.RoomFilter(room, floor, table.rows[k].room)
  {
    var clauses, params := Rooms.RoomCondition(room, floor);
    QueryCongruent(Rows(table.rows), (row: Rooms.RoomRow) => Rooms.RoomHolds(clauses, params, row.room),
                   (row: Rooms.RoomRow) => Rooms.RoomFilter(room, floor, row.room),
                   (row: Rooms.RoomRow) => IntKey(row.room), true, 0);
    n := Listing.Count(Rows(table.rows), (row: Rooms.RoomRow) => Rooms.RoomHolds(clauses, params, row.room));
    assert forall k :: k in table.rows ==> table.rows[k] in table.rows.Values;
  }
}
