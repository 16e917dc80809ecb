/**
 * The VNPay payment routes: `residents_pay` (server/v1/routes/residents/pay.py)
 * builds and signs the redirect to the gateway, and `residents_vnpay_return`
 * (server/v1/routes/residents/vnpay_return.py) checks the gateway's redirect
 * back. HMAC-SHA512 and `urllib.parse.quote_plus` are parameters; the
 * clock enters as the already formatted dates and the millisecond suffix.
 */
module Payments {
  import opened Results
  import opened Listing
  import Rooms
  import Fees
  import Validators

  const HTTP_BAD_REQUEST: int := 400
  const HTTP_NOT_FOUND: int := 404
  const SECURE_HASH: string := "vnp_SecureHash"

  /** What a route answers: an HTTP error status, or a redirect carrying a query. */
  datatype Reply = Refused(status: int) | Redirect(query: map<string, string>)

  /* ---------- decimal integers: `str(n)` and `int(s)` ---------- */

  predicate AllDigits(s: string) { forall i :: 0 <= i < |s| ==> Validators.IsDigit(s[i]) }

  function DigitChar(d: nat): (c: char)
    requires d < 10
    ensures Validators.IsDigit(c) && (c as int) - ('0' as int) == d
  {
    ('0' as int + d) as char
  }

  /** `str(n)` for a natural number: its decimal digits, without sign or leading zeros. */
  function NatToString(n: nat): (s: string)
    ensures |s| >= 1 && AllDigits(s)
    ensures '-' !in s
  {
    if n < 10 then [DigitChar(n)] else NatToString(n / 10) + [DigitChar(n % 10)]
  }

  /** `str(i)`: a minus sign in front of the digits of a negative number. */
  function IntToString(i: int): (s: string)
    ensures '-' in s <==> i < 0
  {
    if i < 0 then "-" + NatToString(-i) else NatToString(i)
  }

  /** The value of a string of decimal digits. */
  function DigitsValue(s: string): nat
    requires AllDigits(s)
  {
    if |s| == 0 then 0 else 10 * DigitsValue(s[..|s| - 1]) + ((s[|s| - 1] as int) - ('0' as int))
  }

  /** `int(s)` on an optional sign followed by at least one decimal digit; anything else is a `ValueError`. */
  function ParseInt(s: string): (r: Option<int>)
    ensures r.Some? && '-' !in s ==> r.value >= 0
  {
    if |s| > 0 && (s[0] == '+' || s[0] == '-') then
      if |s| > 1 && AllDigits(s[1..]) then
        Some(if s[0] == '-' then -(DigitsValue(s[1..]) as int) else DigitsValue(s[1..]))
      else None
    else if |s| > 0 && AllDigits(s) then Some(DigitsValue(s))
    else None
  }

  lemma {:induction false} DigitsOfNat(n: nat)
    ensures DigitsValue(NatToString(n)) == n
  {
    var s := NatToString(n);
    if n >= 10 {
      DigitsOfNat(n / 10);
      assert s[..|s| - 1] == NatToString(n / 10);
    }
  }

  /** `int(str(i)) == i` for every integer. */
  lemma {:induction false} ParseIntOfString(i: int)
    ensures ParseInt(IntToString(i)) == Some(i)
  {
    if i < 0 {
      var digits := NatToString(-i);
      DigitsOfNat(-i);
      assert IntToString(i) == "-" + digits;
      assert ("-" + digits)[0] == '-' && ("-" + digits)[1..] == digits;
    } else {
      var digits := NatToString(i);
      DigitsOfNat(i);
      assert IntToString(i) == digits;
      assert Validators.IsDigit(digits[0]);
    }
  }

  /* ---------- `str.split` ---------- */

  /** `s.split(sep)` for a one-character separator. */
  function Split(s: string, sep: char): (r: seq<string>)
    ensures |r| >= 1
  {
    if |s| == 0 then [""]
    else if s[0] == sep then [""] + Split(s[1..], sep)
    else
      var rest := Split(s[1..], sep);
      [[s[0]] + rest[0]] + rest[1..]
  }

  /** The number of occurrences of `c` in `s`. */
  function Occurrences(s: string, c: char): nat {
    if |s| == 0 then 0 else (if s[0] == c then 1 else 0) + Occurrences(s[1..], c)
  }

  lemma {:induction false} SplitCount(s: string, sep: char)
    ensures |Split(s, sep)| == Occurrences(s, sep) + 1
  {
    if |s| > 0 {
      SplitCount(s[1..], sep);
    }
  }

  lemma {:induction false} OccurrencesAppend(a: string, b: string, c: char)
    ensures Occurrences(a + b, c) == Occurrences(a, c) + Occurrences(b, c)
  {
    if |a| > 0 {
      assert (a + b)[0] == a[0];
      assert (a + b)[1..] == a[1..] + b;
      OccurrencesAppend(a[1..], b, c);
    } else {
      assert a + b == b;
    }
  }

  lemma {:induction false} OccurrencesNone(s: string, c: char)
    requires c !in s
    ensures Occurrences(s, c) == 0
  {
    if |s| > 0 {
      assert forall x :: x in s[1..] ==> x in s;
      OccurrencesNone(s[1..], c);
    }
  }

  lemma {:induction false} OccurrencesSome(s: string, c: char)
    requires c in s
    ensures Occurrences(s, c) >= 1
  {
    if s[0] != c {
      assert c in s[1..];
      OccurrencesSome(s[1..], c);
    }
  }

  lemma {:induction false} OccurrencesAround(x: string, y: string)
    ensures Occurrences(x + "-" + y, '-') == Occurrences(x, '-') + 1 + Occurrences(y, '-')
  {
    OccurrencesAppend(x + "-", y, '-');
    OccurrencesAppend(x, "-", '-');
    assert Occurrences("-", '-') == 1 by {
      assert "-"[1..] == "";
    }
  }

  /** Splitting a separator-free piece followed by the separator peels that piece off. */
  lemma {:induction false} SplitPiece(a: string, rest: string, sep: char)
    requires sep !in a
    ensures Split(a + [sep] + rest, sep) == [a] + Split(rest, sep)
  {
    if |a| > 0 {
      var s := a + [sep] + rest;
      assert s[0] == a[0] && a[0] in a;
      assert s[1..] == a[1..] + [sep] + rest;
      assert forall x :: x in a[1..] ==> x in a;
      SplitPiece(a[1..], rest, sep);
      assert [a[0]] + a[1..] == a;
    } else {
      assert a + [sep] + rest == [sep] + rest;
    }
  }

  lemma {:induction false} SplitWhole(a: string, sep: char)
    requires sep !in a
    ensures Split(a, sep) == [a]
  {
    if |a| > 0 {
      assert a[0] in a;
      assert forall x :: x in a[1..] ==> x in a;
      SplitWhole(a[1..], sep);
      assert [a[0]] + a[1..] == a;
    }
  }

  /* ---------- the transaction reference ---------- */

  /** The four integers of `vnp_TxnRef`: room, fee id, amount in hundredths, and a millisecond suffix. */
  datatype TxnRef = TxnRef(room: int, feeId: int, amount: int, suffix: int)

  /** `f"{room}-{fee_id}-{normalized_amount}-{unique_suffix}"`. */
  function FormatTxnRef(t: TxnRef): string {
    IntToString(t.room) + "-" + IntToString(t.feeId) + "-" + IntToString(t.amount) + "-" + IntToString(t.suffix)
  }

  /**
   * `map(int, vnp_txnref.split("-"))` unpacked into four names: `None` (a
   * `ValueError`) unless there are exactly four pieces and each is an integer.
   */
  function ParseTxnRef(s: string): (r: Option<TxnRef>)
    ensures r.Some? ==> r.value.room >= 0 && r.value.feeId >= 0 && r.value.amount >= 0 && r.value.suffix >= 0
  {
    var parts := Split(s, '-');
    if |parts| != 4 then None
    else
      match (ParseInt(parts[0]), ParseInt(parts[1]), ParseInt(parts[2]), ParseInt(parts[3]))
      case (Some(room), Some(feeId), Some(amount), Some(suffix)) =>
        SplitPartsHaveNoSeparator(s, '-');
        Some(TxnRef(room, feeId, amount, suffix))
      case _ => None
  }

  lemma {:induction false} SplitPartsHaveNoSeparator(s: string, sep: char)
    ensures forall i :: 0 <= i < |Split(s, sep)| ==> sep !in Split(s, sep)[i]
  {
    if |s| > 0 {
      SplitPartsHaveNoSeparator(s[1..], sep);
    }
  }

  /** Four separator-free pieces joined by `-` split back into those pieces. */
  lemma {:induction false} SplitFour(a: string, b: string, c: string, d: string)
    requires '-' !in a && '-' !in b && '-' !in c && '-' !in d
    ensures Split(a + "-" + b + "-" + c + "-" + d, '-') == [a, b, c, d]
  {
    var cd := c + ['-'] + d;
    var bcd := b + ['-'] + cd;
    SplitWhole(d, '-');
    SplitPiece(c, d, '-');
    SplitPiece(b, cd, '-');
    SplitPiece(a, bcd, '-');
    assert a + "-" + b + "-" + c + "-" + d == a + ['-'] + bcd;
  }

  /** A reference with a negative integer holds more than three separators. */
  lemma {:induction false} NegativeTxnRefSplitsWide(t: TxnRef)
    requires t.room < 0 || t.feeId < 0 || t.amount < 0 || t.suffix < 0
    ensures |Split(FormatTxnRef(t), '-')| > 4
  {
    var a, b, c, d := IntToString(t.room), IntToString(t.feeId), IntToString(t.amount), IntToString(t.suffix);
    SplitCount(FormatTxnRef(t), '-');
    OccurrencesAround(a + "-" + b + "-" + c, d);
    OccurrencesAround(a + "-" + b, c);
    OccurrencesAround(a, b);
    if t.room < 0 { OccurrencesSome(a, '-'); }
    if t.feeId < 0 { OccurrencesSome(b, '-'); }
    if t.amount < 0 { OccurrencesSome(c, '-'); }
    if t.suffix < 0 { OccurrencesSome(d, '-'); }
  }

  /**
   * The reference the payment route writes is read back by the return route
   * exactly when all four integers are non-negative; a negative one adds a
   * `-` and the reference no longer splits into four pieces.
   */
  lemma {:induction false} TxnRefRoundTrip(t: TxnRef)
    ensures t.room >= 0 && t.feeId >= 0 && t.amount >= 0 && t.suffix >= 0 ==> ParseTxnRef(FormatTxnRef(t)) == Some(t)
    ensures t.room < 0 || t.feeId < 0 || t.amount < 0 || t.suffix < 0 ==> ParseTxnRef(FormatTxnRef(t)).None?
  {
    if t.room >= 0 && t.feeId >= 0 && t.amount >= 0 && t.suffix >= 0 {
      SplitFour(IntToString(t.room), IntToString(t.feeId), IntToString(t.amount), IntToString(t.suffix));
      ParseIntOfString(t.room);
      ParseIntOfString(t.feeId);
      ParseIntOfString(t.amount);
      ParseIntOfString(t.suffix);
    } else {
      NegativeTxnRefSplitsWide(t);
    }
  }

  /* ---------- the signed parameter string ---------- */

  lemma {:induction false} TextLeAntisymmetric(a: string, b: string)
    requires TextLe(a, b) && TextLe(b, a)
    ensures a == b
    decreases |a|
  {
    if |a| > 0 {
      TextLeAntisymmetric(a[1..], b[1..]);
      assert a == [a[0]] + a[1..] && b == [b[0]] + b[1..];
    }
  }

  lemma {:induction false} TextLeTransitive(a: string, b: string, c: string)
    requires TextLe(a, b) && TextLe(b, c)
    ensures TextLe(a, c)
    decreases |a|
  {
    if |a| > 0 && a[0] == b[0] && b[0] == c[0] {
      TextLeTransitive(a[1..], b[1..], c[1..]);
    }
  }

  lemma {:induction false} LeastText(keys: set<string>) returns (k: string)
    requires keys != {}
    ensures k in keys && forall j :: j in keys ==> TextLe(k, j)
    decreases |keys|
  {
    assert exists y :: y in keys by { if forall y :: y !in keys { assert false; } }
    var x :| x in keys;
    if keys == {x} {
      k := x;
      TextLeTotal(x, x);
    } else {
      var m := LeastText(keys - {x});
      TextLeTotal(x, m);
      k := if TextLe(x, m) then x else m;
      forall j | j in keys
        ensures TextLe(k, j)
      {
        if j == x {
          TextLeTotal(x, x);
        } else {
          assert j in keys - {x};
          if k == x { TextLeTransitive(x, m, j); }
        }
      }
    }
  }

  lemma HasLeastText(keys: set<string>)
    requires keys != {}
    ensures exists k :: k in keys && forall j :: j in keys ==> TextLe(k, j)
  {
    var k := LeastText(keys);
  }

  /** The key that `sorted` puts first: the least in code-point order. */
  function FirstKey(keys: set<string>): (k: string)
    requires keys != {}
    ensures k in keys && forall j :: j in keys ==> TextLe(k, j)
  {
    HasLeastText(keys);
    assert forall a, b :: a in keys && b in keys && TextLe(a, b) && TextLe(b, a) ==> a == b by {
      forall a, b | a in keys && b in keys && TextLe(a, b) && TextLe(b, a) ensures a == b {
        TextLeAntisymmetric(a, b);
      }
    }
    var k :| k in keys && forall j :: j in keys ==> TextLe(k, j);
    k
  }

  /** `sorted` over a set of keys: each key exactly once, in strictly increasing code-point order. */
  function SortedKeyList(keys: set<string>): (r: seq<string>)
    ensures |r| == |keys|
    ensures forall k :: k in r <==> k in keys
    ensures forall i :: 0 <= i < |r| - 1 ==> TextLe(r[i], r[i + 1]) && r[i] != r[i + 1]
    decreases |keys|
  {
    if keys == {} then []
    else
      var k := FirstKey(keys);
      var rest := SortedKeyList(keys - {k});
      assert |rest| > 0 ==> rest[0] in keys - {k};
      [k] + rest
  }

  /** `dict(sorted(params.items()))`: the keys in code-point order, each exactly once. */
  function SortedKeys(params: map<string, string>): (r: seq<string>)
    ensures |r| == |params|
    ensures forall k :: k in r <==> k in params
    ensures forall i :: 0 <= i < |r| - 1 ==> TextLe(r[i], r[i + 1]) && r[i] != r[i + 1]
  {
    SortedKeyList(params.Keys)
  }

  /** `"&".join(parts)`. */
  function Join(parts: seq<string>): string {
    if |parts| == 0 then "" else if |parts| == 1 then parts[0] else parts[0] + "&" + Join(parts[1..])
  }

  /** `f"{k}={quote_plus(str(v))}"` for each key in order. */
  function Fields(params: map<string, string>, keys: seq<string>, quote: string -> string): (r: seq<string>)
    requires forall k :: k in keys ==> k in params
    ensures |r| == |keys|
    ensures forall i :: 0 <= i < |keys| ==> r[i] == keys[i] + "=" + quote(params[keys[i]])
  {
    if |keys| == 0 then [] else [keys[0] + "=" + quote(params[keys[0]])] + Fields(params, keys[1..], quote)
  }

  /** The string both routes sign: every parameter, sorted by key, as `k=quote_plus(v)` joined by `&`. */
  function Canonical(params: map<string, string>, quote: string -> string): string {
    var keys := SortedKeys(params);
    Join(Fields(params, keys, quote))
  }

  /** The parameters with `vnp_SecureHash` added: `hmac(secret, Canonical(params))` in hex. */
  function Sign(params: map<string, string>, hmac: (string, string) -> string, secret: string,
                quote: string -> string): (signed: map<string, string>)
    ensures signed.Keys == params.Keys + {SECURE_HASH}
    ensures SECURE_HASH !in params ==> signed - {SECURE_HASH} == params
  {
    var hash := hmac(secret, Canonical(params, quote));
    AddedKey(params, SECURE_HASH, hash);
    params[SECURE_HASH := hash]
  }

  /** Adding one entry under `k` and taking it away again leaves the map as it was when `k` was new. */
  lemma AddedKey(m: map<string, string>, k: string, v: string)
    ensures m[k := v].Keys == m.Keys + {k}
    ensures k !in m ==> m[k := v] - {k} == m
  {
  }

  /* ---------- `residents_pay` ---------- */

  /**
   * The `for ... else` search over the room's unpaid fees: the first entry
   * whose fee has the requested id, or `None` (the `else` branch, a 404).
   */
  method FindFee(unpaid: seq<(Rooms.Room, Fees.Fee)>, feeId: int) returns (r: Option<nat>)
    ensures r.Some? ==> r.value < |unpaid| && unpaid[r.value].1.id == feeId &&
                        forall j :: 0 <= j < r.value ==> unpaid[j].1.id != feeId
    ensures r.None? <==> forall j :: 0 <= j < |unpaid| ==> unpaid[j].1.id != feeId
  {
    var i := 0;
    while i < |unpaid|
      invariant 0 <= i <= |unpaid|
      invariant forall j :: 0 <= j < i ==> unpaid[j].1.id != feeId
    {
      if unpaid[i].1.id == feeId {
        return Some(i);
      }
      i := i + 1;
    }
    return None;
  }

  /**
   * `per_area * area + per_motorbike * motorbike + per_car * car`; a room
   * without recorded area or vehicles makes Python multiply by `None`.
   */
  function Extra(room: Rooms.Room, fee: Fees.Fee): (r: Outcome<real>)
    ensures r.Returned? <==> room.area.Some? && room.motorbike.Some? && room.car.Some?
  {
    if room.area.None? || room.motorbike.None? || room.car.None? then Raised("TypeError")
    else Returned(fee.perArea * room.area.value + fee.perMotorbike * room.motorbike.value as real
                  + fee.perCar * room.car.value as real)
  }

  /** The thirteen parameters of the gateway URL before signing. */
  function PayParams(tmnCode: string, ip: string, createDate: string, expireDate: string, txn: TxnRef)
    : (params: map<string, string>)
    ensures SECURE_HASH !in params
    ensures "vnp_TmnCode" in params && params["vnp_TmnCode"] == tmnCode
    ensures "vnp_TxnRef" in params && params["vnp_TxnRef"] == FormatTxnRef(txn)
    ensures "vnp_Amount" in params && params["vnp_Amount"] == IntToString(txn.amount)
  {
    map[
      "vnp_Version" := "2.1.0",
      "vnp_Command" := "pay",
      "vnp_TmnCode" := tmnCode,
      "vnp_Amount" := IntToString(txn.amount),
      "vnp_CreateDate" := createDate,
      "vnp_CurrCode" := "VND",
      "vnp_IpAddr" := ip,
      "vnp_Locale" := "vn",
      "vnp_OrderInfo" := "Thanh toan " + IntToString(txn.room) + " cho " + IntToString(txn.feeId),
      "vnp_OrderType" := "250000",
      "vnp_ReturnUrl" := "https://example.com",
      "vnp_ExpireDate" := expireDate,
      "vnp_TxnRef" := FormatTxnRef(txn)
    ]
  }

  /** Entry `i` is the one the `for` loop stops at: the first whose fee has the requested id. */
  predicate FirstWithId(unpaid: seq<(Rooms.Room, Fees.Fee)>, feeId: int, i: int) {
    0 <= i < |unpaid| && unpaid[i].1.id == feeId && forall j :: 0 <= j < i ==> unpaid[j].1.id != feeId
  }

  /** `amount < fee.lower + extra or amount > fee.upper + extra`. */
  predicate OutsideWindow(amount: real, fee: Fees.Fee, extra: real) {
    amount < fee.lower + extra || amount > fee.upper + extra
  }

  /** The gateway redirect for a payment of `amount`: the parameters signed, the amount in hundredths. */
  function GatewayQuery(room: int, feeId: int, amount: real, ip: Option<string>, createDate: string,
                        expireDate: string, suffix: int, tmnCode: string, secret: string,
                        hmac: (string, string) -> string, quote: string -> string): (q: map<string, string>)
    ensures "vnp_TmnCode" in q && q["vnp_TmnCode"] == tmnCode
    ensures "vnp_TxnRef" in q && q["vnp_TxnRef"] == FormatTxnRef(TxnRef(room, feeId, Validators.Hundredths(amount), suffix))
    ensures "vnp_Amount" in q && q["vnp_Amount"] == IntToString(Validators.Hundredths(amount))
    ensures SECURE_HASH in q && q[SECURE_HASH] == hmac(secret, Canonical(q - {SECURE_HASH}, quote))
  {
    var params := PayParams(tmnCode, if ip.Some? then ip.value else "0.0.0.0", createDate, expireDate,
                            TxnRef(room, feeId, Validators.Hundredths(amount), suffix));
    Sign(params, hmac, secret, quote)
  }

  /**
   * `residents_pay`: 404 unless the fee is among the room's unpaid fees,
   * 400 unless the amount lies within the fee's bounds shifted by the
   * room's extra charge, and otherwise a redirect to the gateway with the
   * signed parameters, whose reference and amount carry the amount in
   * hundredths. `ip` is the `x-client-ip` header, or absent.
   */
  method ResidentsPay(unpaid: seq<(Rooms.Room, Fees.Fee)>, room: int, feeId: int, amount: real,
                      ip: Option<string>, createDate: string, expireDate: string, suffix: int,
                      tmnCode: string, secret: string, hmac: (string, string) -> string, quote: string -> string)
    returns (r: Outcome<Reply>)
    ensures r == Returned(Refused(HTTP_NOT_FOUND)) <==> forall j :: 0 <= j < |unpaid| ==> unpaid[j].1.id != feeId
    ensures forall i :: FirstWithId(unpaid, feeId, i) ==>
      var extra := Extra(unpaid[i].0, unpaid[i].1);
      (r.Raised? <==> extra.Raised?) &&
      (r == Returned(Refused(HTTP_BAD_REQUEST)) <==> extra.Returned? && OutsideWindow(amount, unpaid[i].1, extra.value)) &&
      (r.Returned? && r.value.Redirect? <==> extra.Returned? && !OutsideWindow(amount, unpaid[i].1, extra.value))
    ensures r.Returned? && r.value.Redirect? ==>
      r.value.query == GatewayQuery(room, feeId, amount, ip, createDate, expireDate, suffix, tmnCode, secret, hmac, quote)
  {
    var found := FindFee(unpaid, feeId);
    if found.None? {
      return Returned(Refused(HTTP_NOT_FOUND));
    }
    var i := found.value;
    assert FirstWithId(unpaid, feeId, i);
    assert forall j :: FirstWithId(unpaid, feeId, j) ==> j == i;
    var extra := Extra(unpaid[i].0, unpaid[i].1);
    if extra.Raised? {
      return Raised(extra.exception);
    }
    if OutsideWindow(amount, unpaid[i].1, extra.value) {
      return Returned(Refused(HTTP_BAD_REQUEST));
    }
    var query := GatewayQuery(room, feeId, amount, ip, createDate, expireDate, suffix, tmnCode, secret, hmac, quote);
    return Returned(Redirect(query));
  }

  /* ---------- `residents_vnpay_return` ---------- */

  /** The reply of a successful return: the amount back in units, `int(vnp_amount / 100)`. */
  function SuccessReply(amount: nat): Reply {
    Redirect(map["amount" := IntToString(amount / 100)])
  }

  /**
   * `residents_vnpay_return`: the redirect to the success page happens only
   * when the query is signed over all its other parameters, names this
   * merchant, carries a reference that parses to four integers whose third
   * equals `vnp_Amount`, and reports response code "00" or "07". A
   * reference or amount that is not an integer raises `ValueError`; every
   * other failure is a 400.
   */
  function VnpayReturn(query: map<string, string>, tmnCode: string, secret: string,
                       hmac: (string, string) -> string, quote: string -> string): (r: Outcome<Reply>)
    ensures r.Raised? ==> r.exception == "ValueError"
    ensures r.Returned? && r.value.Redirect? <==>
      SECURE_HASH in query && "vnp_TmnCode" in query && query["vnp_TmnCode"] == tmnCode &&
      query[SECURE_HASH] == hmac(secret, Canonical(query - {SECURE_HASH}, quote)) &&
      "vnp_ResponseCode" in query && query["vnp_ResponseCode"] in {"00", "07"} &&
      "vnp_TxnRef" in query && ParseTxnRef(query["vnp_TxnRef"]).Some? &&
      "vnp_Amount" in query && ParseInt(query["vnp_Amount"]) == Some(ParseTxnRef(query["vnp_TxnRef"]).value.amount)
    ensures r.Returned? && r.value.Redirect? ==>
      r.value == SuccessReply(ParseTxnRef(query["vnp_TxnRef"]).value.amount)
    ensures r.Returned? && r.value.Refused? ==> r.value.status == HTTP_BAD_REQUEST
  {
    if SECURE_HASH !in query || "vnp_TmnCode" !in query then Returned(Refused(HTTP_BAD_REQUEST))
    else
      var params := query - {SECURE_HASH};
      ReturnKeysKept(query);
      if tmnCode != params["vnp_TmnCode"] || query[SECURE_HASH] != hmac(secret, Canonical(params, quote)) then
        Returned(Refused(HTTP_BAD_REQUEST))
      else if "vnp_ResponseCode" !in params || "vnp_TxnRef" !in params then Returned(Refused(HTTP_BAD_REQUEST))
      else match ParseTxnRef(params["vnp_TxnRef"])
        case None => Raised("ValueError")
        case Some(txn) =>
          if "vnp_Amount" !in params then Returned(Refused(HTTP_BAD_REQUEST))
          else match ParseInt(params["vnp_Amount"])
            case None => Raised("ValueError")
            case Some(vnpAmount) =>
              if vnpAmount != txn.amount then Returned(Refused(HTTP_BAD_REQUEST))
              else if params["vnp_ResponseCode"] in {"00", "07"} then Returned(SuccessReply(txn.amount))
              else Returned(Refused(HTTP_BAD_REQUEST))
  }

  /** Taking the hash out of a reply keeps the four fields the return route reads. */
  lemma ReturnKeysKept(query: map<string, string>)
    ensures forall k :: k in {"vnp_TmnCode", "vnp_ResponseCode", "vnp_TxnRef", "vnp_Amount"} ==>
      (k in query - {SECURE_HASH} <==> k in query) && (k in query ==> (query - {SECURE_HASH})[k] == query[k])
  {
    assert |SECURE_HASH| == 14;
  }

  /**
   * The two routes agree: a gateway reply that echoes the parameters of a
   * payment whose room, fee id, amount and suffix are non-negative, adds a
   * success code and is signed by the same rule, is accepted and shows the
   * amount that was paid.
   */
  lemma {:induction false} PayThenReturn(params: map<string, string>, txn: TxnRef, code: string, tmnCode: string,
                                         secret: string, hmac: (string, string) -> string, quote: string -> string)
    requires SECURE_HASH !in params
    requires "vnp_TmnCode" in params && params["vnp_TmnCode"] == tmnCode
    requires "vnp_TxnRef" in params && params["vnp_TxnRef"] == FormatTxnRef(txn)
    requires "vnp_Amount" in params && params["vnp_Amount"] == IntToString(txn.amount)
    requires "vnp_ResponseCode" in params && params["vnp_ResponseCode"] == code && code in {"00", "07"}
    requires txn.room >= 0 && txn.feeId >= 0 && txn.amount >= 0 && txn.suffix >= 0
    ensures VnpayReturn(Sign(params, hmac, secret, quote), tmnCode, secret, hmac, quote) == Returned(SuccessReply(txn.amount))
  {
    var query := Sign(params, hmac, secret, quote);
    assert query - {SECURE_HASH} == params;
    TxnRefRoundTrip(txn);
    ParseIntOfString(txn.amount);
  }

  /**
   * A payment whose amount window reaches below zero (negative per-unit
   * fees) can produce a negative amount in hundredths; its reference then
   * cannot be read back, and the return route raises instead of answering.
   */
  lemma {:induction false} NegativeAmountUnreadable(txn: TxnRef)
    requires txn.amount < 0
    ensures ParseTxnRef(FormatTxnRef(txn)).None?
  {
    TxnRefRoundTrip(txn);
  }

  /** The gateway's echo keeps the merchant, reference and amount, and drops the old signature. */
  lemma EchoedKeepsFields(sent: map<string, string>, code: string, tmnCode: string, txn: TxnRef)
    requires "vnp_TmnCode" in sent && sent["vnp_TmnCode"] == tmnCode
    requires "vnp_TxnRef" in sent && sent["vnp_TxnRef"] == FormatTxnRef(txn)
    requires "vnp_Amount" in sent && sent["vnp_Amount"] == IntToString(txn.amount)
    ensures var echoed := (sent - {SECURE_HASH})["vnp_ResponseCode" := code];
      SECURE_HASH !in echoed && "vnp_TmnCode" in echoed && echoed["vnp_TmnCode"] == tmnCode &&
      "vnp_TxnRef" in echoed && echoed["vnp_TxnRef"] == FormatTxnRef(txn) &&
      "vnp_Amount" in echoed && echoed["vnp_Amount"] == IntToString(txn.amount) &&
      "vnp_ResponseCode" in echoed && echoed["vnp_ResponseCode"] == code
  {
    assert "vnp_ResponseCode" != "vnp_TmnCode" && "vnp_ResponseCode" != "vnp_TxnRef" && "vnp_ResponseCode" != "vnp_Amount";
    assert SECURE_HASH != "vnp_TmnCode" && SECURE_HASH != "vnp_TxnRef" && SECURE_HASH != "vnp_Amount";
  }

  /**
   * End to end: when the gateway sends back the parameters of a payment
   * redirect with a success code, signed by the same rule, the return route
   * shows the amount paid, to the hundredth.
   */
  lemma {:induction false} GatewayReplyAccepted(room: int, feeId: int, amount: real, ip: Option<string>,
                                                createDate: string, expireDate: string, suffix: int, code: string,
                                                tmnCode: string, secret: string, hmac: (string, string) -> string,
                                                quote: string -> string)
    requires room >= 0 && feeId >= 0 && amount >= 0.0 && suffix >= 0 && code in {"00", "07"}
    ensures var sent := GatewayQuery(room, feeId, amount, ip, createDate, expireDate, suffix, tmnCode, secret, hmac, quote);
            var echoed := (sent - {SECURE_HASH})["vnp_ResponseCode" := code];
            VnpayReturn(Sign(echoed, hmac, secret, quote), tmnCode, secret, hmac, quote)
              == Returned(SuccessReply(Validators.Hundredths(amount)))
  {
    var sent := GatewayQuery(room, feeId, amount, ip, createDate, expireDate, suffix, tmnCode, secret, hmac, quote);
    var txn := TxnRef(room, feeId, Validators.Hundredths(amount), suffix);
    EchoedKeepsFields(sent, code, tmnCode, txn);
    PayThenReturn((sent - {SECURE_HASH})["vnp_ResponseCode" := code], txn, code, tmnCode, secret, hmac, quote);
  }
}
