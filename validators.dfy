/**
 * The input validators of server/utils.py. Each is a predicate whose
 * contract states exactly which inputs it accepts. Fee amounts are Python
 * floats; they are modelled as reals, so rounding is not captured.
 */
module Validators {
  /** `validate_name`: between 1 and 255 characters. */
  predicate ValidName(name: string)
    ensures ValidName(name) <==> 1 <= |name| <= 255
  {
    |name| > 0 && |name| < 256
  }

  /** `validate_room`: a room number in [0, 32767]. */
  predicate ValidRoom(room: int)
    ensures ValidRoom(room) <==> 0 <= room <= 32767
  {
    room >= 0 && room < 32768
  }

  predicate IsDigit(c: char) {
    '0' <= c <= '9'
  }

  /** Python's `str.isdigit()`: non-empty and made only of digits. */
  predicate IsDigits(s: string) {
    |s| > 0 && forall i :: 0 <= i < |s| ==> IsDigit(s[i])
  }

  /** `validate_phone`: 1 to 15 digits; the empty string is rejected. */
  predicate ValidPhone(phone: string)
    ensures ValidPhone(phone) <==>
      1 <= |phone| <= 15 && forall i :: 0 <= i < |phone| ==> IsDigit(phone[i])
  {
    IsDigits(phone) && |phone| < 16
  }

  /** `\w` restricted to ASCII: letters, digits and underscore. */
  predicate WordChar(c: char) {
    'a' <= c <= 'z' || 'A' <= c <= 'Z' || '0' <= c <= '9' || c == '_'
  }

  /** The class `[\w\.-]` of the local part and the domain. */
  predicate LocalChar(c: char) {
    WordChar(c) || c == '.' || c == '-'
  }

  /** The class `[\w\.]` of the top-level domain. */
  predicate TailChar(c: char) {
    WordChar(c) || c == '.'
  }

  /**
   * A full match of `[\w\.-]+@[\w\.-]+\.[\w\.]+[\w\.]?`: a non-empty local
   * part, `@`, a non-empty domain, a dot, and a non-empty tail without `-`.
   * (`[\w\.]+[\w\.]?` matches the same strings as `[\w\.]+`.)
   */
  predicate EmailShape(s: string) {
    exists at, dot ::
      0 < at && at + 1 < dot && dot + 1 < |s| && s[at] == '@' && s[dot] == '.' &&
      (forall k :: 0 <= k < at ==> LocalChar(s[k])) &&
      (forall k :: at < k < dot ==> LocalChar(s[k])) &&
      (forall k :: dot < k < |s| ==> TailChar(s[k]))
  }

  /** `validate_email`: matches the pattern in full and is shorter than 256 characters. */
  predicate ValidEmail(email: string) {
    EmailShape(email) && |email| < 256
  }

  /**
   * A valid email has at least 5 and at most 255 characters and holds
   * exactly one `@`, since no class of the pattern admits `@`.
   */
  lemma {:induction false} ValidEmailFacts(email: string)
    requires ValidEmail(email)
    ensures 5 <= |email| < 256
    ensures exists at :: 0 < at < |email| && email[at] == '@' &&
                         forall k :: 0 <= k < |email| && k != at ==> email[k] != '@'
  {
    var at, dot :| 0 < at && at + 1 < dot && dot + 1 < |email| && email[at] == '@' && email[dot] == '.' &&
      (forall k :: 0 <= k < at ==> LocalChar(email[k])) &&
      (forall k :: at < k < dot ==> LocalChar(email[k])) &&
      (forall k :: dot < k < |email| ==> TailChar(email[k]));
    OnlyAt(email, at, dot);
  }

  /** Outside position `at`, every character of an email shape belongs to a class without `@`. */
  lemma OnlyAt(email: string, at: nat, dot: nat)
    requires at < dot < |email|
    requires forall k :: 0 <= k < at ==> LocalChar(email[k])
    requires forall k :: at < k < dot ==> LocalChar(email[k])
    requires forall k :: dot < k < |email| ==> TailChar(email[k])
    requires email[dot] == '.'
    ensures forall k :: 0 <= k < |email| && k != at ==> email[k] != '@'
  {
    forall k | 0 <= k < |email| && k != at
      ensures email[k] != '@'
    {
      if k < dot {
        assert LocalChar(email[k]);
      } else if k > dot {
        assert TailChar(email[k]);
      }
    }
  }

  /** The shortest accepted shape, `a@b.c`, is accepted. */
  lemma ValidEmailExample()
    ensures ValidEmail("a@b.c")
  {
    assert "a@b.c"[1] == '@' && "a@b.c"[3] == '.';
  }

  /** `validate_username`: between 1 and 255 characters. */
  predicate ValidUsername(username: string)
    ensures ValidUsername(username) <==> 1 <= |username| <= 255
  {
    |username| > 0 && |username| < 256
  }

  /** `validate_password`: between 8 and 255 characters. */
  predicate ValidPassword(password: string)
    ensures ValidPassword(password) <==> 8 <= |password| <= 255
  {
    |password| >= 8 && |password| < 256
  }

  /** `validate_fee_name`: between 1 and 255 characters. */
  predicate ValidFeeName(name: string)
    ensures ValidFeeName(name) <==> 1 <= |name| <= 255
  {
    |name| > 0 && |name| < 256
  }

  /** The largest fee amount the fee validators accept. */
  const FEE_LIMIT: real := 21474835.0

  /** `validate_fee_bounds`: `0 <= lower < upper <= 21474835`. */
  predicate ValidFeeBounds(lower: real, upper: real)
    ensures ValidFeeBounds(lower, upper) ==> 0.0 <= lower < upper <= FEE_LIMIT
    ensures ValidFeeBounds(lower, upper) <== 0.0 <= lower < upper <= FEE_LIMIT
  {
    lower >= 0.0 && lower < upper && upper <= FEE_LIMIT
  }

  /** The shared check of `validate_fee_per_area`, `_per_motorbike` and `_per_car`. */
  predicate ValidFeePerUnit(value: real)
    ensures ValidFeePerUnit(value) <==> -FEE_LIMIT <= value <= FEE_LIMIT
  {
    -FEE_LIMIT <= value <= FEE_LIMIT
  }

  /**
   * `int(100 * x)`: an amount in hundredths, as the database stores it;
   * Python's `int` truncates toward zero.
   */
  function Hundredths(x: real): (h: int)
    ensures x >= 0.0 ==> h as real <= 100.0 * x < h as real + 1.0
    ensures x < 0.0 ==> h as real - 1.0 < 100.0 * x <= h as real
  {
    if x >= 0.0 then (100.0 * x).Floor else -((-100.0 * x).Floor)
  }
}
