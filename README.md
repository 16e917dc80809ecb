# resident-manager: identity, credentials and account lifecycle in Dafny

resident-manager is an apartment-building management server. Residents register, wait for an
administrator to approve them, then sign in, edit their personal information, change their
credentials and pay fees through the VNPay gateway. Administrators sign in with a username and
password kept in a `config` table. They approve or reject registration requests, maintain rooms and
fees, and delete residents.

This project models the layer of that server that decides who someone is and what their account
holds:

- password hashing (salted SHA-256) and password checks, in both the current and the older module;
- snowflake IDs, their creation times, equality and hashing;
- the validators for names, rooms, phones, emails, usernames, passwords and fee amounts;
- the personal-information record and its validation, with result codes 101 to 107;
- the v1 `accounts` table:
  - registration requests: create, count, query, accept, reject;
  - residents: query, count, sign-in token, token lookup, update, credential update, delete;
  - the shared filter builder;
- administrator verification and the administrator password change;
- the three routes that update a resident, and the resident-update routes' permission rules;
- the v1 rooms and fees tables: create, update, delete, query, count;
- the earlier server's tables:
  - `residents` and `register_queue`;
  - registration request create, accept and decline;
  - rooms and residents listings;
  - the in-memory resident cache;
- the fee payment handler, which builds a signed VNPay URL, and the VNPay return handler, which
  checks the signature and the amount;
- the JSON encoder for residents and snowflakes.

Conventions:

- A database table is a `map` from its key to a row datatype, held in a class field that the
  modelled method reassigns.
- A Python exception is the `Raised` case of `Results.Outcome`.
- A v1 `Result` is `Results.Result`: a code, plus data when the operation succeeded.
- Things the server takes from outside are parameters of the operation that uses them:
  - SHA-256 (`Credentials.Hasher`);
  - HMAC-SHA512 (a function of key and message);
  - `quote_plus`;
  - the random source (`Credentials.Roll`, or a `random` tail);
  - the current time, in milliseconds since the epoch;
  - the decoded JWT payload;
  - the stored procedures' answers (the row they return, or none).
- `ORDER BY … OFFSET ? ROWS FETCH NEXT ? ROWS ONLY` is `Listing.Query`, a sort and a page of at most
  `PAGE_SIZE` rows over the rows a filter keeps.
- String order is code-point order.

## Model

| member | source | states |
|---|---|---|
| Results.Ok | server/v1/models/results.py:12-16 | A successful result carries code 0 and the given data. |
| Results.Fail | server/v1/models/results.py:12-16 | A failed result carries the given code and no data. |
| Validators.ValidName | server/utils.py:87-88 | A name is accepted exactly when it has between 1 and 255 characters. |
| Validators.ValidRoom | server/utils.py:91-92 | A room number is accepted exactly when it lies in 0..32767. |
| Validators.ValidPhone | server/utils.py:95-96 | A phone is accepted exactly when it has 1 to 15 characters, all ASCII digits; the empty phone is rejected. |
| Validators.ValidEmailFacts | server/utils.py:99-100 | Every accepted email has 5 to 255 characters and exactly one `@`. |
| Validators.ValidEmailExample | server/utils.py:99-100 | The shortest shape, `a@b.c`, is accepted. |
| Validators.ValidUsername | server/utils.py:103-104 | A username is accepted exactly when it has between 1 and 255 characters. |
| Validators.ValidPassword | server/utils.py:107-108 | A password is accepted exactly when it has between 8 and 255 characters. |
| Validators.ValidFeeName | server/utils.py:111-112 | A fee name is accepted exactly when it has between 1 and 255 characters. |
| Validators.ValidFeeBounds | server/utils.py:115-116 | Fee bounds are accepted exactly when 0 <= lower < upper <= 21474835. |
| Validators.ValidFeePerUnit | server/utils.py:119-128 | A per-unit fee is accepted exactly when it lies in -21474835..21474835. |
| Validators.Hundredths | server/v1/models/rooms.py:80 | `int(100 * x)` truncates toward zero: it is within one hundredth of `x`, below it for positive `x` and above it for negative `x`. |
| Credentials.SecureHexString | server/utils.py:46-48 | The result has the requested length and only hexadecimal digits. |
| Credentials.HashPassword | server/utils.py:32-37 | The result is a 64-character hex digest followed by the salt. The digest is SHA-256 of the password plus that salt. Without a salt, a fresh 8-character hex salt is used. |
| Credentials.SaltOf | server/utils.py:42 | The salt is the last 8 characters of the stored hash, or all of it when it is shorter. |
| Credentials.CheckPassword | server/utils.py:40-43 | A check passes only for a 72-character hash whose first 64 characters are SHA-256 of the password plus its last 8. |
| Credentials.CheckAfterHash | server/utils.py:32-43 | A password checks against its own hash under any 8-character salt. |
| Credentials.CheckAfterFreshHash | server/utils.py:32-48 | A password checks against its own hash under a freshly generated salt. |
| Credentials.CheckPasswordExactly | server/utils.py:40-43 | A check passes if and only if the hash has 72 characters and its head is the digest of the password plus its tail. |
| Credentials.OnlyCollisionsPass | server/utils.py:40-43 | Another password passes a stored hash only when SHA-256 collides on the two salted inputs. |
| LegacyAuth.HashPassword | server/auth.py:16-21 | The older module hashes exactly as the current one does: the salt is kept at the tail and a fresh salt has 8 characters. |
| LegacyAuth.CheckPassword | server/auth.py:24-27 | The older check agrees with the current one on every input. |
| LegacyAuth.CheckAfterFreshHash | server/auth.py:16-27 | A password checks against its own freshly salted hash. |
| Snowflakes.ShiftRight | server/utils.py:77 | `x >> n` is floor division by the span: `r * span <= x < r * span + span`. |
| Snowflakes.GenerateId | server/utils.py:80-84 | The low 24 bits of an ID are the random tail and the high bits are the milliseconds since the epoch. |
| Snowflakes.SnowflakeTimeOfGenerated | server/utils.py:75-84 | Decoding a generated ID gives back the instant it was minted. |
| Snowflakes.GenerateIdMonotonic | server/utils.py:80-84 | An ID minted in a later millisecond is larger, whatever the tails. |
| Snowflakes.SnowflakeTimeMonotonic | server/utils.py:75-77 | A larger ID never decodes to an earlier time. |
| Snowflakes.LegacyIgnoresLowBits | server/snowflake.py:21-23 | The older decoder reads only the bits above the low 14. |
| Snowflakes.LegacyShiftOf | server/snowflake.py:21-23 | The older shift recovers the high part exactly. |
| Snowflakes.LegacyCreatedAtMonotonic | server/snowflake.py:21-23 | The older decoder never goes backwards as IDs grow. |
| Snowflakes.LegacyMisreadsGenerated | server/snowflake.py:21-23 | The older decoder reads an ID minted at `now` as `now * 1024` plus the tail's high 10 bits. For any ID minted after the epoch's first millisecond, it disagrees with `snowflake_time`. |
| Snowflakes.Equals | server/v1/models/snowflake.py:24-28 | `__eq__` is true exactly for another snowflake with the same id. It is `NotImplemented` exactly for a non-snowflake. |
| Snowflakes.IntHash | server/v1/models/snowflake.py:30-31 | Python's integer hash is never -1, stays below `2^61 - 1` in magnitude, and is the identity on small non-negative values. |
| Snowflakes.EqualImpliesSameHash | server/v1/models/snowflake.py:24-31 | Equal snowflakes hash equally. |
| Snowflakes.CreatedAtOfGenerated | server/v1/models/snowflake.py:19-22 | `created_at` of a generated ID is its minting instant. |
| Info.Normalize | server/v1/models/info.py:40-41 | An empty email becomes None; any other email is kept. The same rule normalises the phone and email of a registration request. |
| Info.InfoFailure | server/v1/models/info.py:39-55 | Validation fails with the first failing check, in order: 101 name, 102 room, 103 phone, 104 email. It passes if and only if every check holds. |
| Info.PersonalInfo.constructor | server/v1/models/info.py:30-37 | The record holds the given name, room, birthday, phone and email. |
| Info.PersonalInfo.ToPersonalInfo | server/v1/models/info.py:30-37 | The copy is a new object with the same five fields. |
| Info.PersonalInfo.ValidateInfo | server/v1/models/info.py:39-55 | An empty email is normalised in place. The answer is None if and only if the record is valid; otherwise it is the failure code. |
| Info.EmptyEmailNeverInvalid | server/v1/models/info.py:40-53 | An empty email never produces code 104. |
| Info.EmptyPhoneRejected | server/v1/models/info.py:46-47 | With a valid name and room, an empty phone fails with code 103. |
| Info.PublicInfo.constructor | server/v1/models/info.py:61-69 | The record holds the given id and personal fields. |
| Info.PublicInfo.ToPublicInfo | server/v1/models/info.py:61-69 | The copy is a new object with the same six fields. |
| Accounts.FromRow | server/v1/models/accounts.py:22-33 | A row maps field by field onto an account. A NULL phone has no account, because the model requires a phone. |
| Accounts.FromRows | server/v1/models/residents.py:89-90 | A list of rows converts if and only if every row has a phone, element by element. Otherwise it raises. |
| Accounts.HoldsAppend | server/v1/models/accounts.py:43-71 | Joining two clause lists with AND holds exactly when both halves hold. |
| Accounts.ParamCountAppend | server/v1/models/accounts.py:43-71 | The `?` count of joined clause lists is the sum of the two counts. |
| Accounts.BuiltAll | server/v1/models/accounts.py:43-71 | The clauses built for all four fields take one parameter each, in field order. The clauses hold exactly on the rows the filter matches. |
| Accounts.ConditionsSelect | server/v1/models/accounts.py:43-71 | The functional condition builder produces clauses equivalent to the filter. |
| Accounts.BuildSqlCondition | server/v1/models/accounts.py:35-71 | No condition if and only if some given field fails its validator. Otherwise it gives one clause and one parameter per given field, in order id, name, room, username, never an exact username test. The clauses hold exactly on the rows with that id, a name containing the name, that room and a username containing the username. |
| Accounts.NoFilterNoClauses | server/v1/models/accounts.py:43-71 | No filter gives no clauses and is valid. |
| Accounts.AccountsTable.constructor | server/v1/models/accounts.py:21-33 | A new accounts table is empty and valid. |
| Accounts.OrderColumn | server/v1/models/residents.py:79-80 | An ordering column outside id, name, room and username falls back to id; the others are kept. |
| Listing.Page | server/v1/models/residents.py:83 | `OFFSET … FETCH NEXT` keeps at most `PAGE_SIZE` rows starting at the offset, in order. |
| Listing.ContainsSelf | server/v1/models/accounts.py:54 | `CHARINDEX(s, s) > 0` holds for every non-empty `s`. |
| Listing.Select | server/v1/models/residents.py:74-76 | `WHERE` keeps exactly the rows satisfying the condition, with their multiplicities. |
| Listing.TextLeTotal | server/v1/models/residents.py:83 | Text order is total. |
| Listing.KeyLeTotal | server/v1/models/residents.py:83 | Column order is total. |
| Listing.Insert | server/v1/models/residents.py:83 | Inserting into an ordered list keeps it ordered and adds exactly one element. |
| Listing.SortBy | server/v1/models/residents.py:83 | `ORDER BY` yields a permutation of the rows that is ordered by the column, ascending or descending. |
| Listing.Query | server/v1/models/residents.py:74-90 | A listing has at most `PAGE_SIZE` rows. Each comes from the table and satisfies the filter, and they are ordered. Which rows: the `Listing.Page` slice at the offset of the sorted selection (`Listing.QueryComplete` shows every selected row is on some page). |
| Listing.QueryComplete | server/v1/models/residents.py:74-90 | Every row satisfying the filter appears on some page. |
| Listing.Count | server/v1/models/residents.py:129-137 | `COUNT(1)` is at most the table size, and it is 0 exactly when no row satisfies the filter. |
| Listing.SelectCongruent | server/v1/models/residents.py:74-76 | Two conditions that agree on every row select the same rows. |
| Listing.QueryCongruent | server/v1/models/residents.py:74-90 | Two conditions that agree on every row give the same listing and count. |
| Listing.Least | server/v1/models/residents.py:83 | Finds the least key of a non-empty key set, by induction on the set's size. |
| Listing.HasLeast | server/v1/models/residents.py:83 | The existence form of `Listing.Least`: some key of a non-empty set is below all others. `Listing.MinKey` chooses that key. |
| Listing.MinKey | server/v1/models/residents.py:83 | The least key of a non-empty set is in the set and below every member. |
| Listing.Rows | server/v1/models/residents.py:75 | Reading a table yields every row once. |
| Listing.SelectSingleKey | server/v1/models/residents.py:74-76 | A condition that at most one key satisfies selects that row alone, or nothing. |
| Listing.QuerySingle | server/v1/models/residents.py:74-90 | A single selected row is the whole first page. |
| Listing.QueryNone | server/v1/models/residents.py:74-90 | When nothing is selected, every page is empty. |
| RegRequests.CreateFailure | server/v1/models/reg_request.py:138-154 | Validation fails with the first failing check, in order: 101 name, 102 room, 103 phone (when given), 104 email (when given), 105 username, 106 password. It passes if and only if all hold. |
| RegRequests.Create | server/v1/models/reg_request.py:119-203 | The table and the result become `CreateEffect` of the old table, and the table stays keyed by id with unique usernames. |
| RegRequests.CreateRejects | server/v1/models/reg_request.py:138-203 | Invalid input, or a username already taken, leaves the table unchanged. Each gives its code: 101-106, or 107 for the taken username. |
| RegRequests.CreateInserts | server/v1/models/reg_request.py:156-198 | Valid input with a free username adds exactly one unapproved row under the new id. The row holds the given name, room and birthday, the normalised phone and email, the username, and a hash the password checks against. The result is that row converted by `FromRow`, returned exactly when the phone is present. |
| RegRequests.CreateKeepsTableValid | server/v1/models/reg_request.py:170-183 | Creating keeps ids as keys and usernames unique. |
| RegRequests.CreatedAtIsNow | server/v1/models/reg_request.py:185 | A new request's creation time is the instant it was created. |
| RegRequests.Approve | server/v1/models/reg_request.py:93-104 | Approving keeps the set of accounts. |
| RegRequests.Reject | server/v1/models/reg_request.py:106-117 | Rejecting only removes accounts. |
| RegRequests.AcceptMany | server/v1/models/reg_request.py:93-104 | The table becomes the intended approval of the named pending accounts, and it stays valid. |
| RegRequests.AcceptManyAsWritten | server/v1/models/reg_request.py:93-104 | As written, the statement names the missing table `acounts`. Any non-empty call raises and changes nothing. |
| RegRequests.AcceptManyTypoApprovesNothing | server/v1/models/reg_request.py:102 | A named pending request stays pending as written, and is approved as intended. |
| RegRequests.RejectMany | server/v1/models/reg_request.py:106-117 | The table loses exactly the named pending accounts. |
| RegRequests.ApproveProperties | server/v1/models/reg_request.py:93-104 | An account ends approved if and only if it was approved or was named, and its other fields are unchanged. Approving is idempotent, approving nothing is the identity, and approval keeps the table valid. |
| RegRequests.RejectProperties | server/v1/models/reg_request.py:106-117 | An account survives if and only if it is approved or was not named, and it survives unchanged. Rejecting is idempotent, rejecting nothing is the identity, and rejection keeps the table valid. |
| RegRequests.PendingCondition | server/v1/models/reg_request.py:55-82 | The condition is absent if and only if a given field is invalid. Otherwise `approved = 0` comes first, and the clauses hold exactly on pending rows matching the filter with an exact username. |
| RegRequests.Count | server/v1/models/reg_request.py:47-91 | The count is the number of pending rows matching the filter, or 0 for an invalid filter. |
| RegRequests.PendingPage | server/v1/models/reg_request.py:217-254 | The page holds at most `PAGE_SIZE` pending rows that match the filter, ordered by the chosen column. |
| RegRequests.Query | server/v1/models/reg_request.py:205-261 | An invalid filter gives the empty list and a negative offset raises. Otherwise the answer is the converted page. |
| AdminAuth.CheckRows | server/v1/models/auth.py:22-40 | The check passes if and only if every config row accepts: the username row holds the username and the password row's hash checks. Otherwise it fails with code 203. |
| AdminAuth.VerifyAdmin | server/v1/models/auth.py:22-40 | It raises if and only if the config does not have exactly two rows. It passes if and only if both rows accept, and otherwise fails with code 203. |
| AdminAuth.VerifyAdminDecides | server/v1/models/auth.py:22-40 | With the two config rows in either order, verification passes if and only if the username is the administrator's and the password checks against the stored hash. |
| AdminAuth.AdminConfig.constructor | server/database.py:95-96 | The configuration holds the given administrator username and hash. |
| AdminAuth.AdminConfig.Rows | server/v1/models/auth.py:26-28 | The configuration reads as exactly two rows. |
| AdminAuth.AdminConfig.AdminPassword | server/v1/routes/admin/password.py:40-56 | When the username and old password verify, the stored hash becomes a fresh hash of the new password and the answer is 204. Otherwise the answer is 400 with code 401 and nothing changes. |
| AdminAuth.NewAdminPasswordVerifies | server/v1/routes/admin/password.py:40-56 | After a change, the administrator verifies with the new password. |
| Residents.ResidentCondition | server/v1/models/residents.py:67-72 | The condition is absent if and only if a given field is invalid. Otherwise it holds exactly on approved rows matching the filter, with the username as a substring. |
| Residents.ResidentPage | server/v1/models/residents.py:67-83 | The page holds at most `PAGE_SIZE` approved rows that match the filter, ordered by the chosen column. |
| Residents.Query | server/v1/models/residents.py:55-90 | An invalid filter gives the empty list and a negative offset raises. Otherwise the answer is the converted page. |
| Residents.Count | server/v1/models/residents.py:109-137 | The count is the number of approved rows matching the filter, or 0 for an invalid filter. |
| Residents.PageById | server/v1/models/residents.py:55-90 | Listing by id gives exactly that resident when approved, and nothing otherwise. |
| Residents.CreateToken | server/v1/models/residents.py:139-149 | The token is issued on the first approved account whose username contains the given one, when the password checks against it. |
| Residents.TokenDecision | server/v1/models/residents.py:139-149 | Sign-in as written, over the filter `create_token` builds: an invalid filter gives no token. Any token it issues names a stored approved account that matches the filter and whose hash accepts the password. For the username filter, matching means containing the given username. |
| Residents.TokenSound | server/v1/models/residents.py:139-149 | An issued token names an approved account that matches the filter and whose hash accepts the password. |
| Residents.SubstringSignIn | server/v1/models/residents.py:141 | A resident `alice` who knows their own password gets a token when signing in as `ali`. |
| Residents.ExactSignIn | server/v1/models/residents.py:139-149 | With unique usernames, exact sign-in issues a token for a resident if and only if the password checks against their hash. |
| Residents.TokenDecisionExact | server/v1/models/residents.py:139-149 | Sign-in as intended: an invalid username gives no token. Any token it issues names an approved account with exactly that username whose hash accepts the password. |
| Residents.ExactSignInSound | server/v1/models/residents.py:139-149 | An exact-sign-in token names the approved resident with that very username, whose hash accepts the password. |
| Residents.FromToken | server/v1/models/residents.py:151-164 | A decoded token yields the account if and only if its id names exactly one approved row. Otherwise the answer is code 201 with no data. |
| Residents.UpdateAuthorization | server/v1/models/residents.py:33-53 | An invalid username gives 105 and an invalid password 106, with no call. Otherwise the procedure is called with the id, the username and a hash that checks against the new password; no row back gives 107. |
| Residents.Update | server/v1/models/residents.py:166-196 | The email is normalised. Invalid info gives its code with no call. Otherwise the procedure is called with the id and info, and no row back gives 301. |
| Residents.IdArrayRows | server/v1/models/residents.py:97-103 | The intended list `", ".join(["(?)"] * n)` is a well-formed T-SQL row list for every n >= 1. |
| Residents.IdArrayMarkers | server/v1/models/residents.py:97-107 | The intended list holds exactly one `?` marker per id. |
| Residents.IdArrayAsWrittenMalformed | server/v1/models/residents.py:97 | As written, `", ".join("(?)" * n)` joins characters: for n >= 1 it starts `(, ` and is not a row list. |
| Residents.DeleteManyAsWritten | server/v1/models/residents.py:92-107 | As written, an empty list does nothing and any other list raises before `DeleteResidents` runs. |
| Residents.DeleteMany | server/v1/models/residents.py:92-107 | As intended, an empty list does nothing; otherwise the batch parses and `DeleteResidents` runs once with one id per snowflake, in order. |
| Residents.DeleteOneDiffers | server/v1/models/residents.py:97 | Deleting one resident: as written the list is `(, ?, )` and the batch raises; as intended the resident's id is passed. |
| Routes.ResolveId | server/v1/routes/api/residents/update.py:14-30 | A signed-in resident may name only their own id; any other id is refused with 301. Without a resident, the admin credentials decide, and the check raises when the config does not have two rows. |
| Routes.ResolveIdAdmits | server/v1/routes/api/residents/update.py:14-30 | An id is resolved if and only if it is the signed-in resident's own, or the caller holds the administrator's username and a password that checks. |
| Routes.ApiResidentsUpdate | server/v1/routes/api/residents/update.py:49-64 | The update runs if and only if the id resolves and the info is valid, and only for that id. Otherwise the answer is 400 without data. |
| Routes.ResidentsUpdate | server/v1/routes/residents/update.py:30-44 | Only the signed-in resident's own id is updated; other ids get 400 with code 402. |
| Routes.ResidentsUpdateAuthorization | server/v1/routes/residents/update_authorization.py:38-51 | The credentials change if and only if the session names a resident, the old password checks and the new ones are valid. The new hash checks against the new password. |
| Rooms.RoomFailure | server/v1/models/rooms.py:26-39 | Validation fails with the first failing check, in order: 102 room, 501 area, 502 motorbikes, 503 cars. It passes if and only if all hold. |
| Rooms.FirstFailure | server/v1/models/rooms.py:55-58 | The first invalid room's code is returned; there is no code if and only if every room is valid. |
| Rooms.FirstFailureAt | server/v1/models/rooms.py:55-58 | When room `i` is the first invalid one, its code is the answer. |
| Rooms.ToRow | server/v1/models/rooms.py:80 | The stored row keeps the room, motorbike and car counts, and the area is in hundredths. A valid room fits the column ranges. |
| Rooms.UpsertUnlisted | server/v1/models/rooms.py:64-81 | A room not in the batch is untouched. |
| Rooms.UpsertLast | server/v1/models/rooms.py:64-81 | Each room in the batch ends holding its last entry's values, inserted or updated. |
| Rooms.UpsertValid | server/v1/models/rooms.py:64-81 | Upserting valid rooms keeps every row within the column ranges. |
| Rooms.StoredArea | server/v1/models/rooms.py:80 | A stored area reads back within one hundredth below the given area. |
| Rooms.RoomsTable.constructor | server/v1/models/rooms.py:16-24 | A new rooms table is empty and valid. |
| Rooms.RoomsTable.UpdateMany | server/v1/models/rooms.py:42-83 | Any invalid room returns the first failure and changes nothing. Otherwise every room is upserted. |
| Rooms.RoomsTable.DeleteMany | server/v1/models/rooms.py:86-102 | Exactly the listed rooms are removed; the others are unchanged. |
| Rooms.FloorOfRoom | server/v1/models/rooms.py:142 | `room / 100 = floor` holds exactly for the hundred rooms of that floor. |
| Rooms.RoomCondition | server/v1/models/rooms.py:198-204 | One clause per given filter, room first. The clauses hold exactly on the rooms with that number and on that floor. |
| Rooms.Union | server/v1/models/rooms.py:208-219 | The union holds every stored room with its values. It also holds each room of an approved account that has no row, with NULL values. |
| Rooms.FromRow | server/v1/models/rooms.py:119-126 | NULL columns stay None and a present area is divided by 100. |
| Rooms.ResidentCount | server/v1/models/rooms.py:116 | The residents count is 0 exactly when no approved account lives in the room. |
| Rooms.ResidentsAsWritten | server/v1/models/rooms.py:220-222 | `COUNT(1)` over the LEFT JOIN, as written: every account in the room, pending ones included, so never fewer than the approved ones, and 1 for a room with no accounts. |
| Rooms.EmptyRoomCountsOne | server/v1/models/rooms.py:220-223 | As written, a room with no accounts is listed with one resident; as intended, with none. |
| Rooms.UnionPage | server/v1/models/rooms.py:220-230 | The page holds at most `PAGE_SIZE` union rows that pass the filter, ordered by room ascending. |
| Rooms.ToRooms | server/v1/models/rooms.py:235 | Each row converts element by element with the corrected resident count `Rooms.ResidentCount` (approved accounts only), not the as-written `COUNT(1)` (see Findings). |
| Rooms.RoomPage | server/v1/models/rooms.py:169-235 | The page holds at most `PAGE_SIZE` rooms from the union that pass the filter, with stored values where a row exists, ordered by room. Resident counts are the corrected `Rooms.ResidentCount`, not the as-written `COUNT(1)`. |
| Rooms.RoomCount | server/v1/models/rooms.py:129-166 | The count is 0 exactly when no room of the union passes the filter. |
| Rooms.Query | server/v1/models/rooms.py:169-235 | A negative offset raises; otherwise the answer is the page, with the corrected resident count `Rooms.ResidentCount` rather than the as-written `COUNT(1)`. |
| Rooms.Count | server/v1/models/rooms.py:129-166 | The count is the union's count under the filter. |
| Fees.FromRow | server/v1/models/fee.py:39-63 | A row maps field by field; the five amounts are divided by 100. |
| Fees.FeeFailure | server/v1/models/fee.py:79-92 | Validation fails with the first failing check, in order: 601 name, 602 bounds, 603-605 per-unit amounts. It passes if and only if all hold. |
| Fees.ValidAmountsFit | server/v1/models/fee.py:97-121 | Valid amounts, in hundredths, fit the INT columns. |
| Fees.FeesTable.constructor | server/v1/models/fee.py:22-39 | A new fee table is empty and valid. |
| Fees.FeesTable.Create | server/v1/models/fee.py:66-127 | The table and the result become `CreateEffect` of the old table, and the table stays valid. |
| Fees.CreateRejects | server/v1/models/fee.py:79-92 | An invalid fee leaves the table unchanged and returns its code. |
| Fees.CreateInserts | server/v1/models/fee.py:94-127 | A valid fee is inserted under a fresh id minted at `now`, and nothing else changes. The stored row holds the name, the deadline, the description, the flags and each amount in hundredths. The returned fee is that row read back, each amount within one hundredth of the input. |
| Fees.FeeCondition | server/v1/models/fee.py:148-160 | The condition is absent exactly for an invalid name. Otherwise it holds on the rows with that id and a name containing the given name. |
| Fees.OrderColumn | server/v1/models/fee.py:166-176 | An unknown ordering column falls back to id; the eight known ones are kept. |
| Fees.FeePage | server/v1/models/fee.py:162-179 | The page holds at most `PAGE_SIZE` matching fees, ordered by the chosen column. |
| Fees.Query | server/v1/models/fee.py:130-186 | An invalid name gives the empty list and a negative offset raises. Otherwise the answer is the converted page. |
| LegacyDatabase.Tables.constructor | server/database.py:83 | A new earlier-server database is empty and valid. |
| LegacyRegistration.GuardedCreateEffect | server/models/reg_request.py:77-112 | A request is either refused with the queue unchanged, or stored under a new id, with nothing else changing. |
| LegacyRegistration.UnguardedCreateEffect | server/reg_request.py:109-136 | A request is either refused with the queue unchanged, or stored under a new id, with nothing else changing. |
| LegacyRegistration.UnguardedCreateDuplicates | server/reg_request.py:114-125 | The unguarded create queues a request that reuses a resident's username. |
| LegacyRegistration.GuardedCreateKeepsDisjoint | server/models/reg_request.py:83-101 | The guarded create refuses a resident's username, so no username is both a resident's and queued. |
| LegacyRegistration.AcceptAsWritten | server/models/reg_request.py:41-59 | As written, `SELECT *, ?` supplies nine values (the eight queue columns and the new id) for the eight columns of `residents`. SQL Server refuses the mismatch, so it raises `ProgrammingError` and nothing changes. |
| LegacyRegistration.AcceptEffect | server/models/reg_request.py:30-59 | Accepting either raises with nothing changed, or moves the request. |
| LegacyRegistration.AcceptAsWrittenMovesNothing | server/models/reg_request.py:44-49 | A queued request stays queued as written, and leaves the queue as intended. |
| LegacyRegistration.AcceptMoves | server/models/reg_request.py:30-59 | A successful accept removes the request from the queue and adds a resident with its fields under a fresh id minted at `now`. The tables stay valid, and usernames that were disjoint before stay disjoint. |
| LegacyRegistration.AcceptTwice | server/models/reg_request.py:30-59 | A second accept of the same request raises and changes nothing. |
| LegacyRegistration.GuardedCreate | server/models/reg_request.py:66-112 | The queue and the result become the guarded effect, and the tables stay valid. |
| LegacyRegistration.UnguardedCreate | server/reg_request.py:98-136 | The queue and the result become the unguarded effect, and the tables stay valid. |
| LegacyRegistration.Accept | server/models/reg_request.py:30-59 | From any valid tables, the tables and the result become the intended accept's effect. The tables stay valid, and usernames that were disjoint before stay disjoint. |
| LegacyRegistration.Decline | server/models/reg_request.py:61-64 | Exactly this request's queue row is removed. |
| LegacyResidents.Condition | server/models/residents.py:45-66 | One clause per given filter, skipping empty strings. The clauses hold exactly on the rows with that id, a name containing the name, that room and exactly that username. |
| LegacyResidents.ResidentPage | server/models/residents.py:64-68 | The page holds at most `PAGE_SIZE` matching residents, newest id first. |
| LegacyResidents.Query | server/models/residents.py:33-73 | A negative offset raises; otherwise the answer is the page. |
| LegacyResidents.QueryByUsername | server/models/residents.py:60-62 | Listing by a resident's username gives exactly that resident. |
| LegacyResidents.DeleteMany | server/models/residents.py:75-83 | Exactly the listed residents are removed; the others are unchanged. |
| LegacyRooms.FromRow | server/models/rooms.py:25-32 | A row maps field by field and the area is divided by 100. |
| LegacyRooms.StoredArea | server/models/rooms.py:128 | A stored area reads back within one hundredth below the given area. |
| LegacyRooms.UpsertFits | server/models/rooms.py:137-143 | Upserting rows that fit the columns keeps the table valid. |
| LegacyRooms.UpsertParams | server/models/rooms.py:125-131 | Eight values are passed for each room, where the statement has nine markers. |
| LegacyRooms.UpdateManyAsWritten | server/models/rooms.py:120-146 | As written, any non-empty batch raises and nothing changes. |
| LegacyRooms.UpdateManyAsWrittenStoresNothing | server/models/rooms.py:125-143 | A new room is not stored as written, and is stored as intended. |
| LegacyRooms.DeleteManyAsWritten | server/models/rooms.py:159-169 | As written, any non-empty list raises and nothing changes. |
| LegacyRooms.DeleteManyAsWrittenKeeps | server/models/rooms.py:163-169 | A room asked to be deleted is still there, as written. |
| LegacyRooms.RoomsTable.constructor | server/models/rooms.py:14-32 | A new rooms table is empty and valid. |
| LegacyRooms.RoomsTable.UpdateMany | server/models/rooms.py:109-146 | An empty batch changes nothing. Otherwise all rooms are upserted if and only if all fit the columns, and a misfit raises with nothing changed. |
| LegacyRooms.RoomsTable.DeleteMany | server/models/rooms.py:148-169 | Exactly the listed rooms are removed; the others are unchanged. |
| LegacyRooms.RoomPage | server/models/rooms.py:87-102 | The page holds at most `PAGE_SIZE` rooms that pass the filter, highest room first. |
| LegacyRooms.FromRows | server/models/rooms.py:107 | Each row converts, element by element. |
| LegacyRooms.Query | server/models/rooms.py:60-107 | A negative offset raises; otherwise the answer is the converted page. |
| LegacyRooms.Count | server/models/rooms.py:34-58 | The count is the number of rooms passing the filter, and 0 exactly when none does. |
| ResidentCache.Lookup | server/residents.py:70-92 | A row is found if and only if some resident has that id (or username), and the row found is one of them. |
| ResidentCache.LookupFinds | server/residents.py:70-92 | Looking up a stored resident's key finds that resident. |
| ResidentCache.FetchAsWritten | server/residents.py:82 | As written, `WHERE ? = ?` compares two parameters. An id lookup raises. A username lookup returns the first resident only for the username `username`, and nothing otherwise. |
| ResidentCache.FetchAsWrittenMisses | server/residents.py:82 | For a stored resident `alice`, both lookups miss as written, and both succeed as intended. |
| ResidentCache.StoreAgrees | server/residents.py:90 | Caching a stored row under its id and username keeps both caches in agreement with the table. |
| ResidentCache.Cache.constructor | server/residents.py:53-55 | The caches start empty, which agrees with any table. |
| ResidentCache.Cache.Fetch | server/residents.py:70-92 | The answer is the table lookup and the caches stay in agreement. A hit, or a miss that finds nothing, leaves the caches unchanged; a miss that finds a row caches it under both keys. |
| ResidentCache.Cache.FromId | server/residents.py:94-111 | The answer is the resident with that id, or none; a cache hit leaves the caches unchanged. |
| ResidentCache.Cache.FromUsername | server/residents.py:113-130 | The answer is a resident if and only if one has that username, and it is that resident. |
| Payments.NatToString | server/v1/routes/residents/pay.py:71 | `str(n)` of a natural number is non-empty ASCII digits. |
| Payments.IntToString | server/v1/routes/residents/pay.py:71 | `str(i)` holds a `-` exactly for a negative number. |
| Payments.ParseInt | server/v1/routes/residents/vnpay_return.py:50-53 | `int(s)` succeeds on an optional sign and ASCII digits. Without `-`, the result is non-negative. |
| Payments.DigitsOfNat | server/v1/routes/residents/pay.py:71 | The digits of `str(n)` read back as `n`. |
| Payments.ParseIntOfString | server/v1/routes/residents/vnpay_return.py:50-53 | `int(str(i)) == i` for every integer. |
| Payments.SplitCount | server/v1/routes/residents/vnpay_return.py:50 | `str.split` gives one more part than there are separators. |
| Payments.SplitWhole | server/v1/routes/residents/vnpay_return.py:50 | A string without the separator splits into itself alone. |
| Payments.SplitPiece | server/v1/routes/residents/vnpay_return.py:50 | A separator-free head followed by the separator splits off as the first part. |
| Payments.SplitPartsHaveNoSeparator | server/v1/routes/residents/vnpay_return.py:50 | No part of a split holds the separator. |
| Payments.SplitFour | server/v1/routes/residents/vnpay_return.py:50 | Joining four separator-free parts with `-` splits back into them. |
| Payments.NegativeTxnRefSplitsWide | server/v1/routes/residents/vnpay_return.py:50 | A reference with a negative number splits into more than four parts. |
| Payments.ParseTxnRef | server/v1/routes/residents/vnpay_return.py:50 | A reference that reads holds no negative number. |
| Payments.TxnRefRoundTrip | server/v1/routes/residents/pay.py:71 | A reference of non-negative numbers reads back as itself; one with a negative number cannot be read. |
| Payments.TextLeAntisymmetric | server/v1/routes/residents/pay.py:73 | Two strings each at most the other are equal. |
| Payments.TextLeTransitive | server/v1/routes/residents/pay.py:73 | Text order is transitive. |
| Payments.LeastText | server/v1/routes/residents/pay.py:73 | A non-empty set of strings has a least one. |
| Payments.FirstKey | server/v1/routes/residents/pay.py:73 | The first key in sorted order belongs to the set and is at most every key. |
| Payments.SortedKeyList | server/v1/routes/residents/pay.py:73 | `sorted(params)` lists each key exactly once, strictly ascending. |
| Payments.SortedKeys | server/v1/routes/residents/pay.py:73 | The keys of a dictionary, sorted, list each key exactly once, strictly ascending. |
| Payments.Fields | server/v1/routes/residents/pay.py:75 | Each signed field is `key=quote_plus(value)`, in key order. |
| Payments.Sign | server/v1/routes/residents/pay.py:75-80 | Signing adds exactly the key `vnp_SecureHash` and keeps every other parameter unchanged. |
| Payments.FindFee | server/v1/routes/residents/pay.py:40-46 | The answer is the first unpaid entry with the fee id, or none if and only if no entry has it. |
| Payments.Extra | server/v1/routes/residents/pay.py:48 | The extra charge raises exactly when the room lacks an area or a vehicle count. |
| Payments.PayParams | server/v1/routes/residents/pay.py:58-72 | The parameters hold the merchant code, the amount in hundredths and the transaction reference, and no hash. |
| Payments.GatewayQuery | server/v1/routes/residents/pay.py:56-80 | The gateway query carries the merchant code, the amount and the reference. Its hash is the HMAC of the rest. |
| Payments.ResidentsPay | server/v1/routes/residents/pay.py:34-83 | 404 if and only if the fee is not unpaid. The extra charge may raise. 400 if and only if the amount is outside the bounds; otherwise the answer is a redirect to the signed gateway query. |
| Payments.VnpayReturn | server/v1/routes/residents/vnpay_return.py:25-63 | The only exception is ValueError. The answer is the success redirect if and only if all of these hold: the hash and merchant code are present and match, the code is 00 or 07, the reference reads, and the amount equals its amount. Every other answer is 400. |
| Payments.PayThenReturn | server/v1/routes/residents/vnpay_return.py:25-63 | A query signed with the shared secret that carries the matching reference and amount is accepted. |
| Payments.NegativeAmountUnreadable | server/v1/routes/residents/vnpay_return.py:50 | A reference carrying a negative amount is unreadable. |
| Payments.EchoedKeepsFields | server/v1/routes/residents/vnpay_return.py:26-31 | Adding the response code to the echoed query keeps its merchant code, reference and amount. |
| Payments.GatewayReplyAccepted | server/v1/routes/residents/pay.py:56-83 | The gateway echoing a payment query with code 00 or 07, re-signed, is accepted. The success page shows the paid amount. |
| Encoder.Native | server/encoder.py:20-21 | Among the modelled values (ints, strings, None, dates, residents and snowflakes), the base encoder accepts exactly ints, strings and None. |
| Encoder.ResidentFields | server/encoder.py:25-33 | A resident encodes as the seven public fields, without the password hash. |
| Encoder.Default | server/encoder.py:19-40 | `default` succeeds exactly on residents and snowflakes. A resident's birthday is handed on as a date; anything else raises TypeError. |
| Encoder.EncodeFields | server/encoder.py:19-40 | An object's fields encode exactly when each is natively encodable. |
| Encoder.DatedResidentUnencodable | server/encoder.py:29 | A resident with a birthday makes the as-written encoder raise `TypeError`. |
| Encoder.EncodeAsWritten | server/encoder.py:19-40 | As written, native values pass, a snowflake becomes `{"id": …}`, and a resident encodes exactly when it has no birthday. |
| Encoder.DefaultFixed | server/encoder.py:24-33 | The intended `default` succeeds exactly on residents and snowflakes, and every field it returns is natively encodable; anything else raises TypeError. |
| Encoder.Encode | server/encoder.py:19-40 | The intended encoder passes native values through and raises TypeError on dates and other objects. |
| Encoder.EncodeResident | server/encoder.py:24-33 | Every resident encodes to its seven public fields, with no password hash. |

## Left out

- Floating point: fee amounts, areas and payment amounts are reals. Python's float rounding, and
  its effect on `int(100 * x)`, are not modelled; truncation toward zero is.
- Database collation: text order and text equality are code-point order and exact equality, so
  SQL Server's case-insensitive collation is not captured.
- Unicode: `\w` in the email pattern and `str.isdigit()` are restricted to ASCII, and strings
  are sequences of characters with no encoding.
- Python's `int()`: it is modelled as an optional sign followed by ASCII digits. Surrounding
  whitespace, underscores and non-ASCII digits are not accepted.
- The v1 `accounts` table's schema is not part of this model. `phone` is taken as nullable and an
  account needs one, since `PublicInfo.phone` is a plain `str`.
- Stored procedures (`UpdateResident`, `UpdateResidentAuthorization`, `DeleteResidents`): their
  bodies are not part of this model. The row each returns, or its absence, is a parameter, and
  `Residents.DeleteMany` states the `DeleteResidents` call it makes, not what that call removes.
- SHA-256, HMAC-SHA512, `quote_plus`, JWT encoding and decoding, and the random source are
  parameters. The server's secret keys and merchant code are parameters.
- The clock: times are milliseconds since the epoch. `_format_time` and the GMT+7 conversion are
  parameters (the formatted dates).
- Concurrency: every operation runs alone. Connection pooling, transactions, and interleaving of
  requests are not modelled.
- URL building: the gateway URL is the signed query as a map of strings. `yarl`'s encoding of it,
  and the HTTP redirect itself, are not modelled.
- Query strings: `request.query_params` is a map, so a repeated key keeps one value.
- `Payment.query_unpaid` is not part of this model; the unpaid list is a parameter of
  `Payments.ResidentsPay`.
- Fee deadlines are sorted as `yyyymmdd` integers.
- Birthdays are dates with no time of day; the encoder's ISO formatting is a parameter.
- `Resident.authorize`, the OAuth2 dependency, is not part of this model. The resident id it
  yields, or its absence, is a parameter of the routes.
- `AdminPermission.verify` is not part of this model. The routes test `if verify:`; the model
  assumes that value is truthy exactly when `verify_admin` (`AdminAuth.VerifyAdmin`) returns None.
- server/v1/routes/api/admin/reg_request/reject.py:41, the v1 API route for rejecting
  registration requests, calls `accept_many`. That router is outside this model. The other reject
  routes (server/v1/routes/admin/registration_requests/reject.py:37 and
  server/routes/api/v1/admin/reg_request/reject.py:27) call `reject_many`, which
  `RegRequests.RejectMany` models.
- The v1 API update handler declares its body as `PublicInfo`. It is modelled with the
  `PersonalInfo` fields that `Resident.update` reads.
- ResidentCache.Cache.Fetch: the table is taken to be unchanged between fetches. A cached row can
  go stale after an update, and the model does not state that.
- LegacyRooms.RoomsTable.UpdateMany: the batch is applied atomically. The per-row execution of
  `executemany`, and a failure partway through, are not modelled.
- Listing.SortBy: SQL Server leaves the order of rows with equal sort keys unspecified. The model
  fixes one order (stable insertion), so which of several tied rows lands on a page is not
  captured as open.
- Console output is not modelled: the `print(...)` of the new fee's fields at
  server/v1/models/fee.py:96 and any other logging have no effect on the tables or the results.
- HTTP status codes other than the ones the handlers choose (validation errors of FastAPI, 500 on
  an exception) are not modelled. A Python exception is `Raised` with its class name.

## Findings

| source | as written | input that shows it | evidently intended | confidence | as-written member | corrected member |
|---|---|---|---|---|---|---|
| server/v1/models/reg_request.py:102 | `UPDATE acounts …` names a table that does not exist, so accepting requests always fails | any non-empty list of pending request ids | `UPDATE accounts SET approved = 1 …` approves the named pending accounts | high, not executed | RegRequests.AcceptManyAsWritten, RegRequests.AcceptManyTypoApprovesNothing | RegRequests.AcceptMany, RegRequests.Approve |
| server/v1/models/residents.py:141 | sign-in lists residents with `CHARINDEX(?, username) > 0` and takes the first one | resident `alice` signs in as `ali` with their own password | sign-in looks the username up exactly | high, not executed | Residents.SubstringSignIn | Residents.TokenDecisionExact, Residents.ExactSignIn |
| server/v1/models/residents.py:97 | `", ".join("(?)" * len(objects))` joins the characters of one string, giving `INSERT INTO @Id VALUES (, ?, )` | deleting one resident | `", ".join(["(?)"] * len(objects))`, the row list `(?)` with one marker per id | high, not executed | Residents.DeleteManyAsWritten, Residents.IdArrayAsWrittenMalformed, Residents.DeleteOneDiffers | Residents.DeleteMany, Residents.IdArrayRows, Residents.IdArrayMarkers |
| server/v1/models/rooms.py:220-222 | `COUNT(1)` over a LEFT JOIN counts the NULL-extended row and pending accounts | a room with no accounts is listed with 1 resident | count the approved accounts of the room | high, not executed | Rooms.ResidentsAsWritten, Rooms.EmptyRoomCountsOne | Rooms.ResidentCount |
| server/models/rooms.py:125-143 | each room passes 8 values to a statement with 9 markers | any non-empty list of rooms | insert or update each room | high, not executed | LegacyRooms.UpdateManyAsWritten, LegacyRooms.UpdateManyAsWrittenStoresNothing | LegacyRooms.RoomsTable.UpdateMany |
| server/models/rooms.py:163-169 | `executemany(…, *rooms)` passes room numbers as parameter sets, and the list has no parentheses | deleting room 101 | delete the listed rooms | high, not executed | LegacyRooms.DeleteManyAsWritten, LegacyRooms.DeleteManyAsWrittenKeeps | LegacyRooms.RoomsTable.DeleteMany |
| server/models/reg_request.py:44-49 | `INSERT INTO residents SELECT *, ?` selects 9 values for the 8 columns of `residents`. The rest of the batch fails as well: `SELECT * FROM residents WHERE ID = @Id` names a column `residents` lacks (its key is `resident_id`), and `SCOPE_IDENTITY()` is NULL because `residents` has no IDENTITY column | accepting any queued request | the whole batch corrected: copy the request's fields into `residents` under the new id, read that row back by `resident_id`, and leave the queue | medium, not executed | LegacyRegistration.AcceptAsWritten, LegacyRegistration.AcceptAsWrittenMovesNothing | LegacyRegistration.AcceptEffect, LegacyRegistration.AcceptMoves |
| server/reg_request.py:114-125 | create queues a request without checking the residents' usernames | a request for the username of an existing resident | refuse a username that a resident already holds, as server/models/reg_request.py:85 does | medium, not executed | LegacyRegistration.UnguardedCreateDuplicates | LegacyRegistration.GuardedCreateKeepsDisjoint |
| server/residents.py:82 | `WHERE ? = ?` binds the column name as a value | fetching resident `alice` by id or by username | `WHERE {column} = ?` looks the resident up by that column | high, not executed | ResidentCache.FetchAsWritten, ResidentCache.FetchAsWrittenMisses | ResidentCache.Lookup, ResidentCache.Cache.Fetch |
| server/encoder.py:29 | the resident's birthday is handed back as a `datetime`, which the encoder cannot serialise | a resident with a birthday | encode the birthday as ISO text | high, not executed | Encoder.EncodeAsWritten, Encoder.DatedResidentUnencodable | Encoder.Encode, Encoder.EncodeResident |
