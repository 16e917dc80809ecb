/**
 * Residents of the earlier server (server/models/residents.py): listing
 * with optional filters, newest first, and deletion by id.
 */
module LegacyResidents {
  import opened Results
  import opened Listing
  import opened LegacyDatabase

  /** The WHERE clauses `Resident.query` builds. */
  datatype Clause = IdEquals | NameContains | RoomEquals | UsernameEquals
  datatype Param = IntParam(n: int) | TextParam(s: string)

  predicate ClauseHolds(c: Clause, p: Param, row: PersonRow) {
    match c
    case IdEquals => p.IntParam? && row.id == p.n
    case NameContains => p.TextParam? && Contains(row.name, p.s)
    case RoomEquals => p.IntParam? && row.room == p.n
    case UsernameEquals => p.TextParam? && row.username == p.s
  }

  predicate Holds(clauses: seq<Clause>, params: seq<Param>, row: PersonRow) {
    forall i :: 0 <= i < |clauses| && i < |params| ==> ClauseHolds(clauses[i], params[i], row)
  }

  /**
   * The rows the arguments ask for: id and room exact, name a substring,
   * username exact; an empty name or username filters nothing.
   */
  predicate Matches(id: Option<int>, name: Option<string>, room: Option<int>, username: Option<string>, row: PersonRow) {
    (id.None? || row.id == id.value) &&
    (name.None? || |name.value| == 0 || Contains(row.name, name.value)) &&
    (room.None? || row.room == room.value) &&
    (username.None? || |username.value| == 0 || row.username == username.value)
  }

  /** The number of filters that add a clause. */
  function Supplied(id: Option<int>, name: Option<string>, room: Option<int>, username: Option<string>): nat {
    (if id.Some? then 1 else 0) + (if name.Some? && |name.value| > 0 then 1 else 0) +
    (if room.Some? then 1 else 0) + (if username.Some? && |username.value| > 0 then 1 else 0)
  }

  /** The clause lists of `Resident.query`, in the order id, name, room, username. */
  method Condition(id: Option<int>, name: Option<string>, room: Option<int>, username: Option<string>)
    returns (clauses: seq<Clause>, params: seq<Param>)
    ensures |clauses| == |params| == Supplied(id, name, room, username)
    ensures forall row :: Holds(clauses, params, row) <==> Matches(id, name, room, username, row)
  {
    clauses, params := [], [];
    ghost var slot: map<int, int> := map[];
    if id.Some? {
      slot := slot[0 := |clauses|];
      clauses, params := clauses + [IdEquals], params + [IntParam(id.value)];
    }
    if name.Some? && |name.value| > 0 {
      slot := slot[1 := |clauses|];
      clauses, params := clauses + [NameContains], params + [TextParam(name.value)];
    }
    if room.Some? {
      slot := slot[2 := |clauses|];
      clauses, params := clauses + [RoomEquals], params + [IntParam(room.value)];
    }
    if username.Some? && |username.value| > 0 {
      slot := slot[3 := |clauses|];
      clauses, params := clauses + [UsernameEquals], params + [TextParam(username.value)];
    }
    forall row
      ensures Holds(clauses, params, row) <==> Matches(id, name, room, username, row)
    {
      if id.Some? && row.id != id.value {
        assert !ClauseHolds(clauses[slot[0]], params[slot[0]], row);
      }
      if name.Some? && |name.value| > 0 && !Contains(row.name, name.value) {
        assert !ClauseHolds(clauses[slot[1]], params[slot[1]], row);
      }
      if room.Some? && row.room != room.value {
        assert !ClauseHolds(clauses[slot[2]], params[slot[2]], row);
      }
      if username.Some? && |username.value| > 0 && row.username != username.value {
        assert !ClauseHolds(clauses[slot[3]], params[slot[3]], row);
      }
    }
  }

  /** The page `Resident.query` lists: matching residents, highest id first. */
  function ResidentPage(rows: map<int, PersonRow>, id: Option<int>, name: Option<string>, room: Option<int>,
                        username: Option<string>, offset: nat): (page: seq<PersonRow>)
    ensures |page| <= PAGE_SIZE
    ensures forall row :: row in page ==> row in rows.Values && Matches(id, name, room, username, row)
    ensures Ordered(page, (row: PersonRow) => IntKey(row.id), false)
  {
    Listing.Query(Rows(rows), row => Matches(id, name, room, username, row), (row: PersonRow) => IntKey(row.id), false,
                  offset)
  }

  /**
   * `Resident.query`: a negative offset makes the database raise;
   * otherwise the page of `ResidentPage` (`from_row` maps the eight
   * columns to the eight fields unchanged).
   */
  method Query(db: Tables, offset: int, id: Option<int>, name: Option<string>, room: Option<int>,
               username: Option<string>) returns (r: Outcome<seq<PersonRow>>)
    ensures offset < 0 ==> r.Raised?
    ensures offset >= 0 ==> r == Returned(ResidentPage(db.residents, id, name, room, username, offset))
  {
    var clauses, params := Condition(id, name, room, username);
    if offset < 0 {
      return Raised("ProgrammingError");
    }
    QueryCongruent(Rows(db.residents), row => Holds(clauses, params, row), row => Matches(id, name, room, username, row),
                   (row: PersonRow) => IntKey(row.id), false, offset);
    r := Returned(Listing.Query(Rows(db.residents), row => Holds(clauses, params, row),
                                (row: PersonRow) => IntKey(row.id), false, offset));
  }

  /** With unique usernames, an exact username filter lists that resident alone. */
  lemma {:induction false} QueryByUsername(rows: map<int, PersonRow>, k: int)
    requires TableValid(rows) && k in rows && |rows[k].username| > 0
    ensures ResidentPage(rows, None, None, None, Some(rows[k].username), 0) == [rows[k]]
  {
    var u := rows[k].username;
    SelectSingleKey(rows, k, row => Matches(None, None, None, Some(u), row));
    QuerySingle(Rows(rows), row => Matches(None, None, None, Some(u), row), (row: PersonRow) => IntKey(row.id), false,
                rows[k]);
  }

  /** `Resident.delete_many`: removes exactly the listed residents; nothing for an empty list. */
  method DeleteMany(db: Tables, ids: seq<int>)
    requires db.Valid()
    modifies db`residents
    ensures db.Valid()
    ensures forall k :: k in db.residents <==> k in old(db.residents) && k !in ids
    ensures forall k :: k in db.residents ==> db.residents[k] == old(db.residents)[k]
  {
    if |ids| == 0 {
      return;
    }
    db.residents := map k | k in db.residents && k !in ids :: db.residents[k];
  }
}
