/**
 * `JSONEncoder` of the earlier server (server/encoder.py): the standard
 * encoder writes numbers, strings and `None` itself and calls `default`
 * for any other object; `default` projects a resident onto its public
 * fields and a snowflake onto its id, and re-raises the `TypeError` for
 * everything else.
 */
module Encoder {
  import opened Results
  import Info
  import LegacyDatabase

  /** The Python objects the encoder can be handed. */
  datatype PyValue =
    | IntValue(n: int)
    | TextValue(s: string)
    | NoneValue
    | DateValue(date: Info.Date)
    | ResidentValue(resident: LegacyDatabase.PersonRow)
    | SnowflakeValue(id: int)
    | OtherValue(tag: int)

  /** JSON text, as a tree. */
  datatype Json = JInt(n: int) | JText(s: string) | JNull | JObject(fields: map<string, Json>)

  /** A value `default` puts into the dictionaries it returns. */
  predicate IsField(v: PyValue) {
    v.IntValue? || v.TextValue? || v.NoneValue? || v.DateValue?
  }

  /** What the standard encoder writes without calling `default`. */
  function Native(v: PyValue): (r: Option<Json>)
    ensures r.Some? <==> v.IntValue? || v.TextValue? || v.NoneValue?
  {
    match v
    case IntValue(n) => Some(JInt(n))
    case TextValue(s) => Some(JText(s))
    case NoneValue => Some(JNull)
    case _ => None
  }

  function OptionalText(s: Option<string>): PyValue {
    if s.Some? then TextValue(s.value) else NoneValue
  }

  /** The keys of an encoded resident. */
  const RESIDENT_KEYS: set<string> := {"id", "name", "room", "birthday", "phone", "email", "username"}

  /** The dictionary `default` builds for a resident, with `birthday` as given. */
  function ResidentFields(r: LegacyDatabase.PersonRow, birthday: PyValue): (fields: map<string, PyValue>)
    ensures fields.Keys == RESIDENT_KEYS && "hashed_password" !in fields
    ensures fields["id"] == IntValue(r.id) && fields["name"] == TextValue(r.name) && fields["room"] == IntValue(r.room)
    ensures fields["phone"] == OptionalText(r.phone) && fields["email"] == OptionalText(r.email)
    ensures fields["username"] == TextValue(r.username) && fields["birthday"] == birthday
  {
    map["id" := IntValue(r.id), "name" := TextValue(r.name), "room" := IntValue(r.room), "birthday" := birthday,
        "phone" := OptionalText(r.phone), "email" := OptionalText(r.email), "username" := TextValue(r.username)]
  }

  /**
   * `JSONEncoder.default` as written: the base class rejects every object
   * it is handed, so a resident becomes its seven public fields with the
   * birthday left a `datetime` (or `None`), a snowflake becomes its id, and
   * anything else re-raises the `TypeError`.
   */
  function Default(o: PyValue): (r: Outcome<map<string, PyValue>>)
    ensures r.Returned? <==> o.ResidentValue? || o.SnowflakeValue?
    ensures r.Raised? ==> r.exception == "TypeError"
    ensures o.ResidentValue? ==> r.value.Keys == RESIDENT_KEYS && "hashed_password" !in r.value
    ensures o.SnowflakeValue? ==> r.value == map["id" := IntValue(o.id)]
    ensures r.Returned? ==> forall k :: k in r.value ==> IsField(r.value[k])
  {
    match o
    case ResidentValue(resident) =>
      var birthday := if resident.birthday.Some? then DateValue(resident.birthday.value) else NoneValue;
      Returned(ResidentFields(resident, birthday))
    case SnowflakeValue(id) => Returned(map["id" := IntValue(id)])
    case _ => Raised("TypeError")
  }

  /**
   * Writing the dictionary `default` returned: plain values as themselves;
   * any other value is handed to `default` again, which rejects it.
   */
  function EncodeFields(fields: map<string, PyValue>): (r: Outcome<Json>)
    requires forall k :: k in fields ==> IsField(fields[k])
    ensures r.Returned? <==> forall k :: k in fields ==> Native(fields[k]).Some?
    ensures r.Raised? ==> r.exception == "TypeError"
    ensures r.Returned? ==> r.value.JObject? && r.value.fields.Keys == fields.Keys &&
                            forall k :: k in fields ==> r.value.fields[k] == Native(fields[k]).value
  {
    if exists k :: k in fields && Native(fields[k]).None? then
      // `default` of a `datetime` raises
      Raised("TypeError")
    else Returned(JObject(map k | k in fields :: Native(fields[k]).value))
  }

  /** `dumps(o)` with the encoder as written. */
  function EncodeAsWritten(o: PyValue): (r: Outcome<Json>)
    ensures Native(o).Some? ==> r == Returned(Native(o).value)
    ensures o.SnowflakeValue? ==> r == Returned(JObject(map["id" := JInt(o.id)]))
    ensures o.DateValue? || o.OtherValue? ==> r == Raised("TypeError")
    ensures o.ResidentValue? ==> (r.Returned? <==> o.resident.birthday.None?)
    ensures o.ResidentValue? && r.Returned? ==> r.value.JObject? && r.value.fields.Keys == RESIDENT_KEYS
  {
    match Native(o)
    case Some(json) => Returned(json)
    case None =>
      match Default(o)
      case Raised(e) => Raised(e)
      case Returned(fields) =>
        var r := EncodeFields(fields);
        assert o.SnowflakeValue? ==> r.value.fields == map["id" := JInt(o.id)];
        r
  }

  /**
   * A resident with a birthday cannot be written: `default` returns the
   * birthday as a `datetime`, and `default` itself rejects a `datetime`.
   * The sign-in route answers with such a resident.
   */
  lemma DatedResidentUnencodable(r: LegacyDatabase.PersonRow)
    requires r.birthday.Some?
    ensures EncodeAsWritten(ResidentValue(r)) == Raised("TypeError")
  {
  }

  /** `default` with the birthday written as text (`isoformat()`), as the route evidently needs. */
  function DefaultFixed(iso: Info.Date -> string, o: PyValue): (r: Outcome<map<string, PyValue>>)
    ensures r.Returned? <==> o.ResidentValue? || o.SnowflakeValue?
    ensures r.Raised? ==> r.exception == "TypeError"
    ensures r.Returned? ==> forall k :: k in r.value ==> Native(r.value[k]).Some?
  {
    match o
    case ResidentValue(resident) =>
      var birthday := if resident.birthday.Some? then TextValue(iso(resident.birthday.value)) else NoneValue;
      Returned(ResidentFields(resident, birthday))
    case SnowflakeValue(id) => Returned(map["id" := IntValue(id)])
    case _ => Raised("TypeError")
  }

  /** `dumps(o)` with the corrected `default`. */
  function Encode(iso: Info.Date -> string, o: PyValue): (r: Outcome<Json>)
    ensures Native(o).Some? ==> r == Returned(Native(o).value)
    ensures o.DateValue? || o.OtherValue? ==> r == Raised("TypeError")
  {
    match Native(o)
    case Some(json) => Returned(json)
    case None =>
      match DefaultFixed(iso, o)
      case Raised(e) => Raised(e)
      case Returned(fields) => EncodeFields(fields)
  }

  /**
   * With the correction every resident is written, as exactly its seven
   * public fields; the password hash never appears.
   */
  lemma {:induction false} EncodeResident(iso: Info.Date -> string, r: LegacyDatabase.PersonRow)
    ensures var e := Encode(iso, ResidentValue(r));
      e.Returned? && e.value.JObject? && e.value.fields.Keys == RESIDENT_KEYS &&
      "hashed_password" !in e.value.fields &&
      e.value.fields["id"] == JInt(r.id) && e.value.fields["name"] == JText(r.name) &&
      e.value.fields["room"] == JInt(r.room) && e.value.fields["username"] == JText(r.username) &&
      e.value.fields["birthday"] == (if r.birthday.Some? then JText(iso(r.birthday.value)) else JNull)
  {
    var birthday := if r.birthday.Some? then TextValue(iso(r.birthday.value)) else NoneValue;
    var fields := ResidentFields(r, birthday);
    assert DefaultFixed(iso, ResidentValue(r)) == Returned(fields);
  }
}
