/**
 * The resident lookup of the earlier server (server/residents.py): two
 * class-level dictionaries, by id and by username, in front of the
 * `residents` table. A miss queries the table and stores the resident in
 * both dictionaries. The table is a parameter that the model holds fixed
 * between lookups.
 */
module ResidentCache {
  import opened Results
  import opened Listing
  import opened LegacyDatabase

  /** The key of a lookup and the column it is compared with. */
  datatype Key = IdKey(id: int) | UsernameKey(username: string)

  predicate KeyMatches(key: Key, row: PersonRow) {
    match key
    case IdKey(id) => row.id == id
    case UsernameKey(username) => row.username == username
  }

  /** `SELECT * FROM residents WHERE <column> = ?` as intended, then `rows[0]`. */
  function Lookup(db: map<int, PersonRow>, key: Key): (r: Option<PersonRow>)
    ensures r.Some? ==> r.value in db.Values && KeyMatches(key, r.value)
    ensures r.None? <==> forall k :: k in db ==> !KeyMatches(key, db[k])
  {
    var rows := Select(Rows(db), row => KeyMatches(key, row));
    assert forall k :: k in db && KeyMatches(key, db[k]) ==> db[k] in rows by {
      assert forall k :: k in db ==> db[k] in db.Values;
    }
    if |rows| == 0 then None
    else
      assert rows[0] in rows;
      Some(rows[0])
  }

  /** In a valid table a key names at most one resident, and the lookup finds it. */
  lemma {:induction false} LookupFinds(db: map<int, PersonRow>, key: Key, k: int)
    requires TableValid(db) && k in db && KeyMatches(key, db[k])
    ensures Lookup(db, key) == Some(db[k])
  {
    var found := Lookup(db, key).value;
    var j :| j in db && db[j] == found;
  }

  /**
   * `WHERE ? = ?` as written: the column name is bound as a string value.
   * Against an id, that string must convert to BIGINT and the query
   * raises; against a username it is true only for the username
   * "username", and then every resident is returned.
   */
  function FetchAsWritten(db: map<int, PersonRow>, key: Key): (r: Outcome<Option<PersonRow>>)
    ensures key.IdKey? ==> r.Raised?
    ensures key.UsernameKey? && key.username != "username" ==> r == Returned(None)
  {
    match key
    case IdKey(_) => Raised("DataError")
    case UsernameKey(username) =>
      var rows := if username == "username" then Rows(db) else [];
      Returned(if |rows| == 0 then None else Some(rows[0]))
  }

  /** As written, a resident is never found by its username "alice", nor by its id. */
  lemma {:induction false} FetchAsWrittenMisses(db: map<int, PersonRow>, k: int)
    requires TableValid(db) && k in db && db[k].username == "alice"
    ensures FetchAsWritten(db, UsernameKey("alice")) == Returned(None)
    ensures FetchAsWritten(db, IdKey(k)).Raised?
    ensures Lookup(db, UsernameKey("alice")) == Some(db[k]) && Lookup(db, IdKey(k)) == Some(db[k])
  {
    LookupFinds(db, UsernameKey("alice"), k);
    LookupFinds(db, IdKey(k), k);
  }

  /**
   * Every cached resident is the table's row under its id, and appears in
   * both caches keyed by its own id and its own username.
   */
  ghost predicate CachesAgree(byId: map<int, PersonRow>, byUsername: map<string, PersonRow>, db: map<int, PersonRow>) {
    (forall i :: i in byId ==>
      byId[i].id == i && i in db && db[i] == byId[i] &&
      byId[i].username in byUsername && byUsername[byId[i].username] == byId[i]) &&
    (forall u :: u in byUsername ==>
      byUsername[u].username == u && byUsername[u].id in byId && byId[byUsername[u].id] == byUsername[u])
  }

  /** Storing a resident of a valid table under its id and its username keeps the caches in agreement. */
  lemma {:induction false} StoreAgrees(byId: map<int, PersonRow>, byUsername: map<string, PersonRow>,
                                       db: map<int, PersonRow>, k: int)
    requires TableValid(db) && CachesAgree(byId, byUsername, db) && k in db
    ensures CachesAgree(byId[db[k].id := db[k]], byUsername[db[k].username := db[k]], db)
  {
    var resident := db[k];
    forall u | u in byUsername && u == resident.username
      ensures byUsername[u] == resident
    {
      var i := byUsername[u].id;
      assert i in db && db[i].username == db[k].username;
    }
  }

  /** The two class-level caches of `Resident`. */
  class Cache {
    var byId: map<int, PersonRow>
    var byUsername: map<string, PersonRow>

    ghost predicate Coherent(db: map<int, PersonRow>)
      reads this
    {
      CachesAgree(byId, byUsername, db)
    }

    /** The key is in the cache `__fetch` consults for it. */
    predicate Cached(key: Key)
      reads this
    {
      match key
      case IdKey(id) => id in byId
      case UsernameKey(username) => username in byUsername
    }

    constructor ()
      ensures byId == map[] && byUsername == map[]
    {
      byId := map[];
      byUsername := map[];
    }

    /**
     * `Resident.__fetch`, with the lookup as intended: a hit answers from
     * the cache and changes nothing; a miss answers from the table, storing
     * a found resident in both caches and leaving them unchanged otherwise.
     * Either way the answer is the table's.
     */
    method Fetch(key: Key, db: map<int, PersonRow>) returns (r: Option<PersonRow>)
      requires TableValid(db) && Coherent(db)
      modifies this
      ensures Coherent(db)
      ensures r == Lookup(db, key)
      ensures old(Cached(key)) || r.None? ==> byId == old(byId) && byUsername == old(byUsername)
      ensures !old(Cached(key)) && r.Some? ==>
        byId == old(byId)[r.value.id := r.value] && byUsername == old(byUsername)[r.value.username := r.value]
    {
      match key {
        case IdKey(id) =>
          if id in byId {
            LookupFinds(db, key, id);
            return Some(byId[id]);
          }
        case UsernameKey(username) =>
          if username in byUsername {
            LookupFinds(db, key, byUsername[username].id);
            return Some(byUsername[username]);
          }
      }
      r := Lookup(db, key);
      if r.None? {
        return;
      }
      var resident := r.value;
      var k :| k in db && db[k] == resident;
      StoreAgrees(byId, byUsername, db, k);
      byId := byId[resident.id := resident];
      byUsername := byUsername[resident.username := resident];
    }

    /** `Resident.from_id`: consults the id cache only; the answer is the table's row under that id. */
    method FromId(id: int, db: map<int, PersonRow>) returns (r: Option<PersonRow>)
      requires TableValid(db) && Coherent(db)
      modifies this
      ensures Coherent(db)
      ensures r == if id in db then Some(db[id]) else None
      ensures old(id in byId) ==> byId == old(byId) && byUsername == old(byUsername)
    {
      r := Fetch(IdKey(id), db);
      if id in db {
        LookupFinds(db, IdKey(id), id);
      }
    }

    /** `Resident.from_username`: consults the username cache only; the answer is the resident holding that username. */
    method FromUsername(username: string, db: map<int, PersonRow>) returns (r: Option<PersonRow>)
      requires TableValid(db) && Coherent(db)
      modifies this
      ensures Coherent(db)
      ensures r.Some? <==> UsernameIn(db, username)
      ensures r.Some? ==> r.value.id in db && db[r.value.id] == r.value && r.value.username == username
      ensures old(username in byUsername) ==> byId == old(byId) && byUsername == old(byUsername)
    {
      r := Fetch(UsernameKey(username), db);
      if r.Some? {
        var k :| k in db && db[k] == r.value;
      }
    }
  }
}
