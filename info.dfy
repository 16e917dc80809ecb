/**
 * Personal information of a resident (server/v1/models/info.py): the
 * editable profile fields and the validation ladder that reports the first
 * invalid field as a result code.
 */
module Info {
  import opened Results
  import opened Validators

  /** A calendar date, carried as is (`datetime.date`). */
  datatype Date = Date(year: int, month: int, day: int)

  /** Result codes of `validate_info`. */
  const INVALID_NAME: int := 101
  const INVALID_ROOM: int := 102
  const INVALID_PHONE: int := 103
  const INVALID_EMAIL: int := 104

  /**
   * `if x is None or len(x) == 0: x = None`: an empty optional string
   * becomes None. `validate_info` applies it to the email, and
   * `RegisterRequest.create` to the phone and the email.
   */
  function Normalize(s: Option<string>): (r: Option<string>)
    ensures r.None? <==> s.None? || s.value == ""
    ensures r.Some? ==> r == s
  {
    if s.None? || |s.value| == 0 then None else s
  }

  /**
   * The code of the first failing check, in the order name, room, phone,
   * email (an absent email is not checked), or None when all pass.
   */
  function InfoFailure(name: string, room: int, phone: string, email: Option<string>): (code: Option<int>)
    ensures code.None? <==>
      ValidName(name) && ValidRoom(room) && ValidPhone(phone) && (email.None? || ValidEmail(email.value))
    ensures code == Some(INVALID_NAME) <==> !ValidName(name)
    ensures code == Some(INVALID_ROOM) <==> ValidName(name) && !ValidRoom(room)
    ensures code == Some(INVALID_PHONE) <==> ValidName(name) && ValidRoom(room) && !ValidPhone(phone)
    ensures code == Some(INVALID_EMAIL) <==>
      ValidName(name) && ValidRoom(room) && ValidPhone(phone) && email.Some? && !ValidEmail(email.value)
  {
    if !ValidName(name) then Some(INVALID_NAME)
    else if !ValidRoom(room) then Some(INVALID_ROOM)
    else if !ValidPhone(phone) then Some(INVALID_PHONE)
    else if email.Some? && !ValidEmail(email.value) then Some(INVALID_EMAIL)
    else None
  }

  /** `PersonalInfo`: the profile fields a resident or an administrator may edit. */
  class PersonalInfo {
    var name: string
    var room: int
    var birthday: Option<Date>
    var phone: string
    var email: Option<string>

    constructor (name: string, room: int, birthday: Option<Date>, phone: string, email: Option<string>)
      ensures this.name == name && this.room == room && this.birthday == birthday
      ensures this.phone == phone && this.email == email
    {
      this.name := name;
      this.room := room;
      this.birthday := birthday;
      this.phone := phone;
      this.email := email;
    }

    /** `to_personal_info`: a new object with the same five fields. */
    method ToPersonalInfo() returns (copy: PersonalInfo)
      ensures fresh(copy)
      ensures copy.name == name && copy.room == room && copy.birthday == birthday
      ensures copy.phone == phone && copy.email == email
    {
      copy := new PersonalInfo(name, room, birthday, phone, email);
    }

    /**
     * `validate_info`: first turns an empty email into None (the only
     * field it changes), then returns the code of the first invalid field,
     * or None when every field is valid.
     */
    method ValidateInfo() returns (r: Option<Result<()>>)
      modifies this`email
      ensures email == Normalize(old(email))
      ensures r.None? <==> InfoFailure(name, room, phone, email).None?
      ensures r.Some? ==> r.value == Fail(InfoFailure(name, room, phone, email).value)
    {
      if email.None? || |email.value| == 0 {
        email := None;
      }
      if !ValidName(name) {
        return Some(Fail(INVALID_NAME));
      }
      if !ValidRoom(room) {
        return Some(Fail(INVALID_ROOM));
      }
      if !ValidPhone(phone) {
        return Some(Fail(INVALID_PHONE));
      }
      if email.Some? && !ValidEmail(email.value) {
        return Some(Fail(INVALID_EMAIL));
      }
      return None;
    }
  }

  /** An empty email is normalised away before the ladder, so it never yields 104. */
  lemma {:induction false} EmptyEmailNeverInvalid(name: string, room: int, phone: string)
    ensures InfoFailure(name, room, phone, Normalize(Some(""))) != Some(INVALID_EMAIL)
  {
  }

  /** Phone is always checked, so a valid name and room with an empty phone yield 103. */
  lemma {:induction false} EmptyPhoneRejected(name: string, room: int, email: Option<string>)
    requires ValidName(name) && ValidRoom(room)
    ensures InfoFailure(name, room, "", email) == Some(INVALID_PHONE)
  {
  }

  /** `PublicInfo`: personal information together with the snowflake id. */
  class PublicInfo {
    var id: int
    var name: string
    var room: int
    var birthday: Option<Date>
    var phone: string
    var email: Option<string>

    constructor (id: int, name: string, room: int, birthday: Option<Date>, phone: string, email: Option<string>)
      ensures this.id == id && this.name == name && this.room == room && this.birthday == birthday
      ensures this.phone == phone && this.email == email
    {
      this.id := id;
      this.name := name;
      this.room := room;
      this.birthday := birthday;
      this.phone := phone;
      this.email := email;
    }

    /** `to_public_info`: a new object with the id and the five personal fields. */
    method ToPublicInfo() returns (copy: PublicInfo)
      ensures fresh(copy)
      ensures copy.id == id && copy.name == name && copy.room == room && copy.birthday == birthday
      ensures copy.phone == phone && copy.email == email
    {
      copy := new PublicInfo(id, name, room, birthday, phone, email);
    }
  }
}
