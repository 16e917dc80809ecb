/**
 * The two account tables of the earlier server: `residents` (keyed by
 * `resident_id`) and `register_queue` (keyed by `request_id`), with the
 * column limits and UNIQUE constraints their schema declares
 * (server/database.py).
 */
module LegacyDatabase {
  import opened Results
  import Info

  /** A row of `residents` or `register_queue`, in column order. */
  datatype PersonRow = PersonRow(id: int, name: string, room: int, birthday: Option<Info.Date>,
                                 phone: Option<string>, email: Option<string>, username: string,
                                 hashedPassword: string)

  /** The row fits its columns: VARCHAR(255) name, username and hash, SMALLINT room, VARCHAR(15) phone and email. */
  predicate Fits(row: PersonRow) {
    |row.name| <= 255 && -0x8000 <= row.room <= 0x7FFF &&
    (row.phone.None? || |row.phone.value| <= 15) && (row.email.None? || |row.email.value| <= 15) &&
    |row.username| <= 255 && |row.hashedPassword| <= 255
  }

  /** Some row of the table has this username. */
  predicate UsernameIn(rows: map<int, PersonRow>, username: string) {
    exists k :: k in rows && rows[k].username == username
  }

  /** Keyed by id, fitting the columns, usernames UNIQUE. */
  predicate TableValid(rows: map<int, PersonRow>) {
    (forall k :: k in rows ==> rows[k].id == k && Fits(rows[k])) &&
    (forall j, k :: j in rows && k in rows && rows[j].username == rows[k].username ==> j == k)
  }

  /** No username is both a resident's and a pending request's. */
  predicate Disjoint(residents: map<int, PersonRow>, queue: map<int, PersonRow>) {
    forall j, k :: j in residents && k in queue ==> residents[j].username != queue[k].username
  }

  /** The database of the earlier server. */
  class Tables {
    var residents: map<int, PersonRow>
    var queue: map<int, PersonRow>

    ghost predicate Valid()
      reads this
    {
      TableValid(residents) && TableValid(queue)
    }

    constructor ()
      ensures residents == map[] && queue == map[] && Valid()
    {
      residents := map[];
      queue := map[];
    }
  }
}
