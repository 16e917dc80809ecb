/**
 * Registration requests of the earlier server: the pending request lives
 * in `register_queue` until an administrator accepts it (it moves to
 * `residents` under a new id) or declines it (it is deleted). Two
 * revisions: server/reg_request.py, whose `create` inserts without
 * looking at `residents`, and server/models/reg_request.py, whose
 * `create` first refuses a username a resident already holds.
 */
module LegacyRegistration {
  import opened Results
  import opened LegacyDatabase
  import Credentials
  import Snowflakes
  import Info

  /**
   * `create` of server/models/reg_request.py: hash the password, mint an
   * id, and insert into the queue unless a resident holds the username;
   * that refusal and every database error (the queue's UNIQUE username, a
   * used id, a value too long for its column) give None.
   */
  function GuardedCreateEffect(residents: map<int, PersonRow>, queue: map<int, PersonRow>, sha: Credentials.Hasher,
                               roll: Credentials.Roll, now: int, random: nat, name: string, room: int,
                               birthday: Option<Info.Date>, phone: Option<string>, email: Option<string>,
                               username: string, password: string)
    : (r: (map<int, PersonRow>, Option<PersonRow>))
    ensures r.1.None? ==> r.0 == queue
    ensures r.1.Some? ==> r.1.value.id !in queue && r.0 == queue[r.1.value.id := r.1.value]
  {
    var row := PersonRow(Snowflakes.GenerateId(now, random), name, room, birthday, phone, email, username,
                         Credentials.HashPassword(sha, password, None, roll));
    if UsernameIn(residents, username) then (queue, None)
    else if row.id in queue || UsernameIn(queue, username) || !Fits(row) then (queue, None)
    else (queue[row.id := row], Some(row))
  }

  /**
   * `create` of server/reg_request.py, as written: the caller passes the
   * hash, and the insert is guarded only by the queue's own constraints,
   * whose violation propagates as an exception.
   */
  function UnguardedCreateEffect(queue: map<int, PersonRow>, now: int, random: nat, name: string, room: int,
                                 birthday: Option<Info.Date>, phone: Option<string>, email: Option<string>,
                                 username: string, hashedPassword: string)
    : (r: (map<int, PersonRow>, Outcome<PersonRow>))
    ensures r.1.Raised? ==> r.0 == queue
    ensures r.1.Returned? ==> r.1.value.id !in queue && r.0 == queue[r.1.value.id := r.1.value]
  {
    var row := PersonRow(Snowflakes.GenerateId(now, random), name, room, birthday, phone, email, username,
                         hashedPassword);
    if !Fits(row) then (queue, Raised("DataError"))
    else if row.id in queue || UsernameIn(queue, username) then (queue, Raised("IntegrityError"))
    else (queue[row.id := row], Returned(row))
  }

  /**
   * The unguarded `create` queues a username a resident already holds:
   * after it, the resident and the request share the username.
   */
  lemma {:induction false} UnguardedCreateDuplicates(resident: PersonRow, now: int, random: nat, hashedPassword: string)
    requires Fits(resident) && |hashedPassword| <= 255
    ensures var residents := map[resident.id := resident];
      var (queue', r) := UnguardedCreateEffect(map[], now, random, resident.name, resident.room, None, None, None,
                                               resident.username, hashedPassword);
      r.Returned? && !Disjoint(residents, queue')
  {
    var residents := map[resident.id := resident];
    var (queue', r) := UnguardedCreateEffect(map[], now, random, resident.name, resident.room, None, None, None,
                                             resident.username, hashedPassword);
    assert residents[resident.id].username == queue'[r.value.id].username;
  }

  /**
   * The guarded `create` never queues a username a resident holds: it
   * keeps the queue valid and the two tables' usernames disjoint, stores
   * a hash the password checks against, and the request's creation time
   * is `now`.
   */
  lemma {:induction false} GuardedCreateKeepsDisjoint(residents: map<int, PersonRow>, queue: map<int, PersonRow>,
                                                      sha: Credentials.Hasher, roll: Credentials.Roll, now: int,
                                                      random: nat, name: string, room: int,
                                                      birthday: Option<Info.Date>, phone: Option<string>,
                                                      email: Option<string>, username: string, password: string)
    requires TableValid(queue)
    ensures var (queue', r) := GuardedCreateEffect(residents, queue, sha, roll, now, random, name, room, birthday,
                                                   phone, email, username, password);
      TableValid(queue') && (Disjoint(residents, queue) ==> Disjoint(residents, queue')) &&
      (r.Some? ==> !UsernameIn(residents, username) && r.value.username == username &&
                   Credentials.CheckPassword(sha, password, r.value.hashedPassword) &&
                   Snowflakes.SnowflakeTime(r.value.id) == Snowflakes.EPOCH_MS + now)
  {
    Credentials.CheckAfterFreshHash(sha, password, roll);
    Snowflakes.SnowflakeTimeOfGenerated(now, random);
    var (queue', r) := GuardedCreateEffect(residents, queue, sha, roll, now, random, name, room, birthday,
                                           phone, email, username, password);
    if r.Some? {
      assert forall k :: k in residents ==> residents[k].username != username;
      assert forall k :: k in queue ==> queue[k].username != username;
    }
  }

  /** The column counts of `register_queue` and `residents`. */
  const QUEUE_COLUMNS: nat := 8
  const RESIDENT_COLUMNS: nat := 8

  /** `SELECT *, ? FROM register_queue`: every queue column, then the new id. */
  const SELECTED_VALUES: nat := QUEUE_COLUMNS + 1

  /**
   * `accept` as written: `INSERT INTO residents SELECT *, ? FROM
   * register_queue`. SQL Server refuses an `INSERT` whose selected values
   * do not match the table's columns one for one; here nine values meet
   * eight columns, so the statement fails before the intended move and
   * both tables stay as they were. The rest of the batch would fail on its
   * own too: `residents` has no `ID` column (its key is `resident_id`) and
   * no IDENTITY column for `SCOPE_IDENTITY()` to report.
   */
  function AcceptAsWritten(residents: map<int, PersonRow>, queue: map<int, PersonRow>, requestId: int, now: int,
                           random: nat)
    : (r: (map<int, PersonRow>, map<int, PersonRow>, Outcome<PersonRow>))
    ensures r == (residents, queue, Raised("ProgrammingError"))
  {
    if SELECTED_VALUES != RESIDENT_COLUMNS then (residents, queue, Raised("ProgrammingError"))
    else AcceptEffect(residents, queue, requestId, now, random)
  }

  /**
   * `accept` as intended, for the whole batch: the queued row's fields are
   * copied into `residents` under the new id `generate_id()` (in the
   * resident key's place, not after the request id), the row is read back
   * by that id, and the request is removed from the queue. A request not
   * in the queue yields no row, so `from_row(None)` raises; a used id or a
   * username already in `residents` makes the insert raise.
   */
  function AcceptEffect(residents: map<int, PersonRow>, queue: map<int, PersonRow>, requestId: int, now: int,
                        random: nat)
    : (r: (map<int, PersonRow>, map<int, PersonRow>, Outcome<PersonRow>))
    ensures r.2.Raised? ==> r.0 == residents && r.1 == queue
  {
    if requestId !in queue then (residents, queue, Raised("TypeError"))
    else
      var row := queue[requestId].(id := Snowflakes.GenerateId(now, random));
      if row.id in residents || UsernameIn(residents, row.username) then (residents, queue, Raised("IntegrityError"))
      else (residents[row.id := row], queue - {requestId}, Returned(row))
  }

  /** As written, accepting a queued request moves nothing; as intended, it moves the row. */
  lemma {:induction false} AcceptAsWrittenMovesNothing(residents: map<int, PersonRow>, queue: map<int, PersonRow>,
                                                       requestId: int, now: int, random: nat)
    requires requestId in queue
    requires Snowflakes.GenerateId(now, random) !in residents && !UsernameIn(residents, queue[requestId].username)
    ensures requestId in AcceptAsWritten(residents, queue, requestId, now, random).1
    ensures requestId !in AcceptEffect(residents, queue, requestId, now, random).1
  {
  }

  /**
   * A successful accept moves the request: the new resident carries every
   * field of the request except the id, which is fresh and minted at
   * `now`; the tables stay valid, and usernames disjoint before stay
   * disjoint after.
   */
  lemma {:induction false} AcceptMoves(residents: map<int, PersonRow>, queue: map<int, PersonRow>, requestId: int,
                                       now: int, random: nat)
    requires TableValid(residents) && TableValid(queue)
    requires AcceptEffect(residents, queue, requestId, now, random).2.Returned?
    ensures var (residents', queue', r) := AcceptEffect(residents, queue, requestId, now, random);
      var moved := r.value;
      requestId in queue && moved == queue[requestId].(id := moved.id) && moved.id !in residents &&
      residents' == residents[moved.id := moved] && queue' == queue - {requestId} &&
      Snowflakes.SnowflakeTime(moved.id) == Snowflakes.EPOCH_MS + now &&
      TableValid(residents') && TableValid(queue') &&
      (Disjoint(residents, queue) ==> Disjoint(residents', queue'))
  {
    Snowflakes.SnowflakeTimeOfGenerated(now, random);
    var (residents', queue', r) := AcceptEffect(residents, queue, requestId, now, random);
    var moved := r.value;
    assert forall k :: k in residents ==> residents[k].username != moved.username;
    assert queue[requestId].username == moved.username;
  }

  /** Accepting the same request twice moves it once: the second accept raises and changes nothing. */
  lemma {:induction false} AcceptTwice(residents: map<int, PersonRow>, queue: map<int, PersonRow>, requestId: int,
                                       now1: int, random1: nat, now2: int, random2: nat)
    requires AcceptEffect(residents, queue, requestId, now1, random1).2.Returned?
    ensures var (residents', queue', _) := AcceptEffect(residents, queue, requestId, now1, random1);
      AcceptEffect(residents', queue', requestId, now2, random2) == (residents', queue', Raised("TypeError"))
  {
  }

  /** `RegisterRequest.create` of server/models/reg_request.py. */
  method GuardedCreate(db: Tables, sha: Credentials.Hasher, roll: Credentials.Roll, now: int, random: nat, name: string,
                       room: int, birthday: Option<Info.Date>, phone: Option<string>, email: Option<string>,
                       username: string, password: string)
    returns (r: Option<PersonRow>)
    requires db.Valid()
    modifies db`queue
    ensures db.Valid()
    ensures (db.queue, r) == GuardedCreateEffect(db.residents, old(db.queue), sha, roll, now, random, name, room,
                                                 birthday, phone, email, username, password)
  {
    var hashed := Credentials.HashPassword(sha, password, None, roll);
    var requestId := Snowflakes.GenerateId(now, random);
    var row := PersonRow(requestId, name, room, birthday, phone, email, username, hashed);
    if UsernameIn(db.residents, username) {
      return None;
    }
    if requestId in db.queue || UsernameIn(db.queue, username) || !Fits(row) {
      return None;
    }
    GuardedCreateKeepsDisjoint(db.residents, db.queue, sha, roll, now, random, name, room, birthday, phone, email,
                               username, password);
    db.queue := db.queue[requestId := row];
    return Some(row);
  }

  /** `RegisterRequest.create` of server/reg_request.py. */
  method UnguardedCreate(db: Tables, now: int, random: nat, name: string, room: int, birthday: Option<Info.Date>,
                         phone: Option<string>, email: Option<string>, username: string, hashedPassword: string)
    returns (r: Outcome<PersonRow>)
    requires db.Valid()
    modifies db`queue
    ensures db.Valid()
    ensures (db.queue, r) == UnguardedCreateEffect(old(db.queue), now, random, name, room, birthday, phone, email,
                                                   username, hashedPassword)
  {
    var requestId := Snowflakes.GenerateId(now, random);
    var row := PersonRow(requestId, name, room, birthday, phone, email, username, hashedPassword);
    if !Fits(row) {
      return Raised("DataError");
    }
    if requestId in db.queue || UsernameIn(db.queue, username) {
      return Raised("IntegrityError");
    }
    assert forall k :: k in db.queue ==> db.queue[k].username != username;
    db.queue := db.queue[requestId := row];
    return Returned(row);
  }

  /** `RegisterRequest.accept`, with the statement moving the row as intended. */
  method Accept(db: Tables, requestId: int, now: int, random: nat) returns (r: Outcome<PersonRow>)
    requires db.Valid()
    modifies db
    ensures db.Valid()
    ensures Disjoint(old(db.residents), old(db.queue)) ==> Disjoint(db.residents, db.queue)
    ensures (db.residents, db.queue, r) == AcceptEffect(old(db.residents), old(db.queue), requestId, now, random)
  {
    if requestId !in db.queue {
      return Raised("TypeError");
    }
    var residentId := Snowflakes.GenerateId(now, random);
    var row := db.queue[requestId].(id := residentId);
    if residentId in db.residents || UsernameIn(db.residents, row.username) {
      return Raised("IntegrityError");
    }
    AcceptMoves(db.residents, db.queue, requestId, now, random);
    db.residents := db.residents[residentId := row];
    db.queue := db.queue - {requestId};
    return Returned(row);
  }

  /** `RegisterRequest.decline`: deletes this request's queue row and nothing else. */
  method Decline(db: Tables, requestId: int)
    requires db.Valid()
    modifies db`queue
    ensures db.Valid()
    ensures db.queue == old(db.queue) - {requestId}
  {
    db.queue := db.queue - {requestId};
  }
}
