# Contacts API — a verified model

This project models the core of a small FastAPI contacts backend in Dafny.
The backend keeps four SQLite tables:

- `users_mod` holds the accounts.
- `users` is an older user table that registration and `/refresh-token` still read.
- `contacts_mod` holds the contacts, each with an owner.
- `password_reset_tokens` holds the reset tokens.

Around the tables the backend has these parts:

- an owner-scoped contact repository: list, get, create, partial update, delete, search and upcoming birthdays;
- JWT access, refresh and email tokens, with the bearer guard that turns a token into the calling user;
- registration, two logins, token refresh and email confirmation;
- a password-reset token that lives for one hour and is consumed on use;
- an avatar upload with its size and file-name checks;
- the request schemas' field rules.

The store is the class `Store.Db`, with one `map` field per table keyed by primary key.

- Handlers that write are methods on it, with `modifies db`. Each states the new contents of every table it touches. A two-state predicate (`OnlyContactsChanged`, `OnlyUsersChanged`, ...) says the other tables are untouched.
- Read-only handlers are functions over the table maps.
- Each source file is one module: `Models`, `Schema`, `Crud`, `Utils`, `Dependencies`, `ContactRoutes`, `AuthRoutes`, `ResetRoutes`, `EmailRoutes` and `AvatarRoutes`. `Common`, `Passwords`, `Jwt`, `Query` and `Store` hold the shared pieces.

Some inputs are parameters rather than computed:

- The clock is `now: Instant` (seconds) or `today: Day` (a day number).
- The reset token's uuid is a parameter.
- bcrypt's salt is a parameter.
- The outcome of the image-hosting upload is a parameter.

SQLite and library behaviour the model relies on:

- A new row gets id max+1, or 1 in an empty table (`Query.NextRowId`).
- `.first()` without `ORDER BY` returns the row with the lowest id (`Query.First`).
- `ilike` is an ASCII case-insensitive substring test.
- SQLite enforces neither `VARCHAR` lengths nor foreign keys, so the tables' invariants are primary keys and `UNIQUE` columns only (`Models.*WellFormed`).

JWT signing is abstract:

- A token is either `Signed(claims)` or an arbitrary `Forged(text)`.
- `Jwt.Decode` follows the python-jose claim checks that the service's own tokens meet (the rest are listed under "Left out"). `iat` and `exp` must be numbers, `sub` must be a string, and a token whose `exp` is before `now` is `Expired`.
- This is why the guard's "`sub` is None" branch cannot be reached: jose rejects a null `sub` before the handler sees it.

bcrypt is a stand-in `Bcrypt(salt, secret)`. Its verify property is proved for it, not assumed.

Several behaviours of the code are modelled as written:

- Registration's 409 is swallowed into a 500.
- The duplicate check reads `users`, while the insert goes to `users_mod`.
- `/token` looks the user up by `first_name`.
- `/refresh-token` and the email confirmation do not check the token's scope.
- The birthday filter compares full dates, birth year included.
- An owner id of 0 switches the birthday owner filter off.
- The crud-level update and delete work by id, whoever owns the row. The routes filter by owner.

## Model

| member | source | states |
|---|---|---|
| Passwords.Hash | shema_api/fun/utils.py:71-82 | the hash verifies exactly the password it was made from, and no other |
| Passwords.VerifyPasswordMod | shema_api/fun/utils.py:55-68 | fails (500) exactly on a hash bcrypt does not recognise; otherwise true iff the plain password is the hashed one |
| Passwords.SaltedHashesDifferButVerify | shema_api/fun/utils.py:71-82 | two salts give two different hashes of one password, and both verify it |
| Jwt.Encode | shema_api/fun/utils.py:37 | a signed token carries exactly the claims it was built from |
| Jwt.Decode | shema_api/fun/dependencies.py:33 | for the claim checks modelled (numeric `iat`/`exp`, string `sub`; aud, nbf, jti and at_hash are left out): the claims come back iff the token is signed, its claims are well typed and it has not expired; Expired iff signed with numeric times but past `exp` |
| Jwt.Subject | shema_api/rout/auth.py:123 | `payload.get("sub")`: present iff the `sub` claim is, and then its text |
| Jwt.EncodeDecode | shema_api/fun/utils.py:37 | decoding an encoded well-typed claim set gives it back while fresh, and Expired after |
| Jwt.ExpiryIsPermanent | shema_api/fun/utils.py:152-153 | a token expired at one instant stays expired at every later one |
| Models.NewUserRow | shema_api/mod/models.py:25-38 | a new users_mod row keeps the given id, email, first name and hash; confirmed and is_active default to False; the nullable columns are NULL |
| Models.NewResetToken | shema_api/mod/models.py:47-54 | a new reset-token row keeps its user and token; expired_at is the given instant, or the creation instant by default |
| Models.ContactsWellFormed | shema_api/mod/models.py:12-15 | contacts_mod is keyed by its primary key and its email column is UNIQUE |
| Models.UsersWellFormed | shema_api/mod/models.py:28-30 | users_mod is keyed by its primary key and its email column is UNIQUE |
| Models.LegacyUsersWellFormed | shema_api/mod/models.py:61-62 | users is keyed by its primary key and its email column is UNIQUE |
| Models.ResetTokensWellFormed | shema_api/mod/models.py:50-52 | password_reset_tokens is keyed by its primary key and its token column is UNIQUE |
| Store.Db.Valid | shema_api/mod/models.py:8-65 | the database satisfies every table's primary-key and UNIQUE constraints; every handler keeps it |
| Store.Db.constructor | shema_api/mod/models.py:8-65 | a fresh database has four empty tables and is valid |
| Query.NextRowId | shema_api/mod/models.py:12 | a new primary key is fresh and above every existing one, and 1 in an empty table |
| Query.Where | shema_api/fun/crud.py:31 | a filter keeps exactly the rows satisfying the condition, unchanged |
| Query.OwnedBy | shema_api/fun/crud.py:31 | exactly the rows whose owner_id is the given owner, unchanged |
| Query.First | shema_api/fun/crud.py:36 | `.first()` is None iff no row matches, otherwise the matching row with the lowest id |
| Query.FirstOfUnique | shema_api/fun/crud.py:36 | when one row alone matches, `.first()` returns it |
| Query.OwnedContact | shema_api/fun/dependencies.py:55-59 | a contact is found iff it exists and belongs to the owner, and is that row |
| Query.ContactById | shema_api/fun/crud.py:34-36 | a contact is found iff the id exists, and is that row |
| Query.UserByEmail | shema_api/rout/email.py:26 | a users_mod row is found iff one has that email, and is that row |
| Query.UserById | shema_api/rout/reset.py:56 | a users_mod row is found iff the id exists, and is that row |
| Query.UserByFirstName | shema_api/fun/utils.py:87 | none iff no user has that first name; otherwise the lowest-id user with it |
| Query.LegacyUserByEmail | shema_api/fun/crud.py:87 | a `users` row is found iff one has that email, and is that row |
| Query.ResetTokenByValue | shema_api/rout/reset.py:45-49 | a reset-token row is found iff one holds that token, and is that row |
| Query.Lower | shema_api/rout/contacts.py:126 | lower-casing keeps the length and lowers each character |
| Schema.RequiredText | shema_api/app/schema.py:9-10 | a required text field is accepted iff present with a length in range, else 422 naming the field |
| Schema.NullableText | shema_api/app/schema.py:12 | an optional text field is accepted iff absent, null or within its maximum length |
| Schema.Nullable | shema_api/app/schema.py:12-14 | an absent optional field is unset; an explicit null or value is set |
| Schema.ValidateContactUpdate | shema_api/app/schema.py:23-25 | accepted iff first name, last name and email are present and the lengths hold; phone, birthday and info are set iff sent: to the value sent, and explicitly null fields are cleared (set to NULL); every refusal is 422 |
| Schema.ValidateContactCreate | shema_api/app/schema.py:16-21 | accepted under the same rules; unsent optional fields default to NULL; every refusal is 422 |
| Schema.ValidateUserCreate | shema_api/app/schema.py:39-44 | accepted iff email, names (at most 50) and a password of 8 to 20 characters are present; refusal is 422 |
| Schema.ValidatePasswordResetRequest | shema_api/app/schema.py:58-61 | accepted iff both token and new password are present; without token it is 422 |
| Schema.MakeTokenResponse | shema_api/app/schema.py:67-71 | token_type defaults to "bearer" and the tokens are kept |
| Crud.GetContactMod | shema_api/fun/crud.py:29-31 | exactly the rows owned by the current user, unchanged; the list route (the same query) therefore returns exactly the caller's contacts |
| Crud.GetContactById | shema_api/fun/crud.py:34-36 | found iff the id exists, whoever the owner |
| Crud.CreateContact | shema_api/fun/crud.py:39-45 | fails with an integrity error, changing nothing, iff the email is taken; otherwise inserts one fresh row with the given owner and fields |
| Crud.SetItems | shema_api/fun/crud.py:53 | the fields sent in an update: the three required ones plus each optional one that was set |
| Crud.SetAllAppend | shema_api/fun/crud.py:53-54 | applying two batches of setattr is applying their concatenation |
| Crud.SetAllOfSetItems | shema_api/fun/crud.py:53-54 | the setattr loop over the sent fields yields the patched contact |
| Crud.SetFields | shema_api/fun/crud.py:53-54 | the loop's result is the contact with exactly the sent fields replaced |
| Crud.PatchKeepsIdentity | shema_api/fun/crud.py:53-54 | an update never changes the id or the owner |
| Crud.PatchIsIdempotent | shema_api/fun/crud.py:53-54 | sending the same update twice has the effect of sending it once |
| Crud.UpdateContact | shema_api/fun/crud.py:49-57 | no row with that id: None and no change; an email collision: integrity error and no change; otherwise only that row is patched, whoever owns it |
| Crud.DeleteContact | shema_api/fun/crud.py:60-66 | returns the row iff it existed, and removes exactly it, whoever owns it |
| Crud.GetUpcomingBirthdaysMod | shema_api/fun/crud.py:69-79 | exactly the rows with today <= birthday <= today+days, comparing full dates, and owned by the given owner when that id is truthy |
| Crud.Truthy | shema_api/fun/crud.py:76 | `if owner_id:` holds for a present, non-zero id only |
| Crud.GetUserByEmail | shema_api/fun/crud.py:82-90 | looks in the `users` table: none iff no row there has the email |
| Crud.CreateUserKeywordsChecked | shema_api/fun/crud.py:101-106 | the keywords as written include one users_mod does not have; the corrected set is accepted |
| Crud.InsertUser | shema_api/fun/crud.py:97-119 | with the given constructor keywords: fails with "Failed to create user" and rolls back iff a keyword is not a users_mod column or the email is already there; otherwise inserts one fresh row with the hash and the column defaults |
| Crud.CreateUserAsWritten | shema_api/fun/crud.py:93-119 | as written, creation always fails and the table is left as it was |
| Crud.CreateUser | shema_api/fun/crud.py:93-119 | corrected: fails and rolls back iff the email is already in users_mod; otherwise inserts one fresh row with the hashed password and defaults |
| Crud.UpdateToken | shema_api/fun/crud.py:149-152 | overwrites the user's refresh token with the given value, possibly None, and nothing else |
| Crud.GenerateEmailToken | shema_api/fun/crud.py:155-158 | the token decodes, at any time, to exactly `sub` = the email |
| Utils.Lifetime | shema_api/fun/utils.py:32-35 | a given non-zero delta is used; None or 0 falls back to the default |
| Utils.Stamp | shema_api/fun/utils.py:31-36 | the caller's claims plus iat, exp = now + lifetime and the scope, which override caller values; the other claims are kept |
| Utils.CreateAccessToken | shema_api/fun/utils.py:29-38 | a signed token with scope "access_token" and a 15-minute default lifetime |
| Utils.CreateRefreshToken | shema_api/fun/utils.py:42-51 | a signed token with scope "refresh_token" and a 7-day default lifetime |
| Utils.StampedTokenLifetime | shema_api/fun/utils.py:29-51 | a stamped token decodes to its claims up to exp inclusive, and is Expired after |
| Utils.DecodeRefreshTokenAsWritten | shema_api/fun/utils.py:147-155 | as written: the sub iff decodable with a sub; expired is 401 "Token has expired"; every other failure is an AttributeError (500) |
| Utils.DecodeRefreshToken | shema_api/fun/utils.py:147-155 | corrected: the same successes and expiry; an invalid token is 400 "Invalid token"; a missing sub is a KeyError (500); no scope check |
| Utils.InvalidRefreshTokenCrashes | shema_api/fun/utils.py:154 | a malformed token makes the handler as written fail with 500, while the corrected one gives 400 |
| Utils.DecodeRefreshTokenFixKeepsSuccess | shema_api/fun/utils.py:147-153 | the correction changes no success and no expiry outcome |
| Utils.GetEmailFormToken | shema_api/fun/utils.py:158-167 | the sub iff the token decodes with scope "refresh_token" and with a sub; another scope is 401 "Invalid scope for token"; a decode failure is 401 "Could not validate credentials"; a token without scope, or refresh-scoped without sub, is a KeyError (500) |
| Utils.AuthenticateUser | shema_api/fun/utils.py:85-94 | none when no user has that first name; otherwise the lowest-id holder decides: its hash verifying the password gives that user, not verifying gives none, an unreadable hash re-raises verification's error (500) |
| Utils.AuthenticateSoleUser | shema_api/fun/utils.py:85-94 | for a user alone with their first name, the right password yields the user and any other yields none |
| Utils.ConfirmedEmail | shema_api/fun/utils.py:97-105 | unknown email: "User not found" and no change; otherwise only that user becomes confirmed and active; a second call changes nothing |
| Dependencies.GetCurrentUser | shema_api/fun/dependencies.py:22-46 | the user whose email is the sub, iff the token decodes with scope "access_token" and some user has that email (and then exactly that user); every decode failure, other scope or unknown user is the same 401 bearer challenge; a decoded token without a scope claim, or with the access scope but no sub, is a KeyError (500) |
| Dependencies.AccessTokenOpensGuard | shema_api/fun/dependencies.py:22-46 | a user's own access token opens the guard for 15 minutes and is refused after |
| Dependencies.RefreshTokenNeverOpensGuard | shema_api/fun/dependencies.py:34-39 | a refresh token never passes the guard |
| Dependencies.GetContact | shema_api/fun/dependencies.py:49-64 | the contact iff its id and owner both match; otherwise 404 "Contact not found", so a missing contact and another owner's contact look alike; the get route runs the same query |
| Dependencies.NewAuth | shema_api/fun/dependencies.py:75-79 | constructed iff SECRET_KEY and ALGORITHM are both set and non-empty |
| Dependencies.CreateEmailToken | shema_api/fun/dependencies.py:81-87 | fails iff there is no sub; otherwise sub kept, exp = now + 7 days, no scope added |
| Dependencies.EmailTokenLifetimeAndScope | shema_api/fun/dependencies.py:81-87 | an email token decodes for 7 days but never passes the access guard |
| ContactRoutes.OwnedByUnaffected | shema_api/rout/contacts.py:37-41 | a change confined to one owner's rows leaves every other owner's list as it was |
| ContactRoutes.GetAgreesWithList | shema_api/rout/contacts.py:55-62 | get succeeds exactly for the ids in the caller's list, with the same row |
| ContactRoutes.CreateContact | shema_api/rout/contacts.py:24-41 | the new contact is owned by the caller, every other row is unchanged; a taken email fails and changes nothing |
| ContactRoutes.UpdateContact | shema_api/rout/contacts.py:65-86 | 404 unless id and owner match; on success only the sent fields of that row change; other owners are untouched |
| ContactRoutes.DeleteContact | shema_api/rout/contacts.py:89-107 | removes and returns exactly the caller's row, else 404; a following get is 404 |
| ContactRoutes.Narrow | shema_api/rout/contacts.py:125-130 | a filter keeps exactly the rows whose field contains it, ignoring case, or all rows when the filter is absent or empty |
| ContactRoutes.SearchContacts | shema_api/rout/contacts.py:110-133 | 422 iff a filter is over its limit (50, 50, 100); otherwise exactly the caller's rows matching every applied filter |
| ContactRoutes.SearchWithoutFiltersLists | shema_api/rout/contacts.py:123-130 | whenever every filter is absent or empty, search returns the caller's full list |
| ContactRoutes.LowerIsIdempotent | shema_api/rout/contacts.py:126 | lower-casing twice is lower-casing once |
| ContactRoutes.CaseOfTheFilterIsIrrelevant | shema_api/rout/contacts.py:126-130 | a filter and its lower-cased form match the same values |
| ContactRoutes.SearchIgnoresCase | shema_api/rout/contacts.py:126 | "LIC" matches "Alice" |
| ContactRoutes.GetUpcomingBirthdays | shema_api/rout/contacts.py:136-154 | days defaults to 7 and must lie in 1..365 (422); succeeds iff some row of the caller (any row for id 0) has a birthday in the window, and then returns exactly the helper's rows; an empty window is 404 |
| ContactRoutes.BirthYearCounts | shema_api/fun/crud.py:73-75 | a birthday dated before today, in any year, is never upcoming |
| ContactRoutes.ZeroIdSeesEveryOwner | shema_api/fun/crud.py:76-77 | a caller with id 0 sees other owners' contacts |
| AuthRoutes.RegisterUser | shema_api/rout/auth.py:39-63 | over the corrected create_user: succeeds iff the email is in neither `users` nor users_mod, inserting one row; every failure, the 409 included, is 500 "Internal server error" and changes nothing |
| AuthRoutes.RegisterUserAsWritten | shema_api/rout/auth.py:45-63 | as written, over create_user as written: every registration is 500 "Internal server error" and changes nothing |
| AuthRoutes.LoginCheck | shema_api/rout/auth.py:71-79 | "Invalid email" iff no user has it; "Invalid password" iff the password does not verify; otherwise that user |
| AuthRoutes.LoginChecksPassword | shema_api/rout/auth.py:71-79 | against a stored hash, the right password logs in and any other is "Invalid password" |
| AuthRoutes.Login | shema_api/rout/auth.py:66-87 | on success both tokens and "bearer" are returned and the refresh token is stored on that user; on failure nothing changes |
| AuthRoutes.LoginForAccessToken | shema_api/rout/auth.py:97-115 | no user with that first name is 401 "Incorrect email or password"; otherwise the lowest-id holder decides: a verifying password gives the same token pair as /login for that user's email, a wrong one the 401, an unreadable hash verification's 500; nothing is stored |
| AuthRoutes.TokenEndpointMatchesFirstName | shema_api/rout/auth.py:102 | /token accepts the first name and refuses the email |
| AuthRoutes.RefreshAccessToken | shema_api/rout/auth.py:118-140 | 401 "Invalid token" on a decode failure or missing sub; 401 "User not found" if `users` lacks the email; when a `users` row has the sub, a new access token for that email with type "bearer" |
| AuthRoutes.RefreshIgnoresScope | shema_api/rout/auth.py:121-131 | an access token buys a new access token for its 15 minutes, a refresh token for its 7 days: scope is never looked at |
| AuthRoutes.RefreshNeedsUsersTableRow | shema_api/rout/auth.py:133-137 | a refresh token from /login is refused when `users` lacks the email |
| ResetRoutes.PasswordResetRequest | shema_api/rout/reset.py:19-39 | unknown email: 404 and no token; otherwise exactly one new token row for that user expiring in one hour |
| ResetRoutes.RedeemCheck | shema_api/rout/reset.py:45-58 | unknown token 400 "Invalid or expired token"; expired (strictly, and never with NULL expiry) 400 "Token has expired"; missing user 404; otherwise the row |
| ResetRoutes.PasswordReset | shema_api/rout/reset.py:42-68 | on success the user's hash is replaced and the token row deleted; every failure changes nothing |
| ResetRoutes.ConsumedTokenCannotBeReplayed | shema_api/rout/reset.py:60-68 | after a successful reset the same token is "Invalid or expired token" |
| ResetRoutes.IssuedTokenRedeemable | shema_api/rout/reset.py:28-35 | an issued token is redeemable for one hour inclusive and expired after |
| ResetRoutes.ResetPasswordForm | shema_api/rout/reset.py:71-83 | 404 iff the token is unknown, 400 iff it is expired, the TypeError iff its expiry is NULL, and no other error; otherwise the token, from a live row; read-only |
| ResetRoutes.FormAgreesWithReset | shema_api/rout/reset.py:53-54 | on rows with an expiry, the form and the reset agree on which tokens are live and which expired |
| EmailRoutes.SendInBackground | shema_api/rout/email.py:19-48 | unknown email: 404 and no change; otherwise only that user's access_token becomes a fresh access token |
| EmailRoutes.AsBadRequest | shema_api/rout/email.py:63-64 | every failure is re-raised as a 400 |
| Common.NatToString | shema_api/rout/email.py:64 | the decimal text str() gives a status code: digits only, no leading zero, reading back as the number |
| Common.DescribeReadsBack | shema_api/rout/email.py:64 | str() of an HTTPException is its status in decimal (reading back as that status), then ": " and the detail |
| Common.DescribeNotFound | shema_api/rout/email.py:59-64 | the 404 raised inside confirm_email prints as "404: <detail>" (and a 400 as "400: <detail>") |
| EmailRoutes.ConfirmDecoded | shema_api/rout/email.py:55-64 | after decoding: a decode error becomes a 400 with its text; an email no user has becomes 400 "404: User not found"; otherwise only that user becomes confirmed and active |
| EmailRoutes.ConfirmEmail | shema_api/rout/email.py:51-64 | over the corrected decoder: confirms iff the token decodes with a sub that some user has; a decode error is a 400 carrying its text, an unknown sub the 400 "404: User not found"; failures change nothing |
| EmailRoutes.ConfirmEmailAsWritten | shema_api/rout/email.py:51-64 | as written, over the decoder as written: the same successes and the same 400 "404: User not found", but a token that does not decode is a 400 whose detail is the AttributeError text "module 'jose.jwt' has no attribute 'InvalidTokenError'" |
| EmailRoutes.StoredTokenConfirms | shema_api/rout/email.py:55 | the stored access token confirms for 15 minutes, a refresh token for 7 days: scope is not checked |
| AvatarRoutes.LastSegment | shema_api/rout/ava.py:46 | the text after the last dot: dot-free, a suffix of the name, preceded by a dot when shorter |
| AvatarRoutes.CheckUpload | shema_api/rout/ava.py:39-51 | accepted iff at most 5 MiB and the extension is jpg, jpeg or png; size is checked first |
| AvatarRoutes.UpperCaseExtensionAccepted | shema_api/rout/ava.py:39-47 | "A.PNG" of exactly 5 MiB passes |
| AvatarRoutes.LastDotDecides | shema_api/rout/ava.py:46-51 | "x.png.exe" is refused |
| AvatarRoutes.AvatarUpload | shema_api/rout/ava.py:36-70 | the URL iff the checks pass and the upload returns; a check failure is 400 "General error: ..."; an upload error is 400 "Cloudinary error: ..." |
| AvatarRoutes.UploadAvatar | shema_api/rout/ava.py:28-70 | on success only the caller's avatar becomes the returned URL; on failure nothing changes |

## Left out

- Sending mail (send_email, send_reset_password_email, FastMail, background tasks) is I/O. The model keeps only the state each route changes before it queues the mail.
- JWT signing and HMAC are not modelled. A token is its claim set, or forged text that never decodes.
- bcrypt is a stand-in hash. The model does not reproduce passlib's hash format, and an unrecognised hash makes verification raise (500), as passlib's does.
- The image-hosting upload and its configuration are foreign calls. Their outcome is a parameter.
- create_user_with_avatar and the /create-users route call the Gravatar service, a foreign network call, so they are not modelled.
- The protected route only echoes the guard's result, so it adds nothing to Dependencies.GetCurrentUser.
- main.py is not part of this model. That covers CORS, router wiring, the Redis connection of the rate limiter and the mock token route.
- The database session, engine and migrations are replaced by the in-memory tables. Commit and rollback become whole method bodies.
- The created_at, updated_at and users_mod.expired_at timestamps are not modelled. Nothing in the core reads them.
- `.all()` returns rows in no defined order, so listing results are maps keyed by id.
- Response-model filtering (which fields of a row are serialised) is not modelled.
- Logging and print calls are not modelled.
- Schema.ValidateUserCreate: does not check the syntax of the email (`EmailStr`), because no email grammar is modelled. It does not model EmailStr's rewriting of the address either: pydantic returns the normalised address (whitespace trimmed, a "Name <addr>" reduced to addr, the domain lower-cased), while the model keeps the address as sent. So a user registered as "Jo@Example.COM" is stored here as typed. The source stores "Jo@example.com", and /login, which compares the raw form username, then refuses the address as typed.
- Schema.ValidateContactCreate: does not check email syntax either, for the same reason, and keeps the address as sent where EmailStr would normalise it (trim, display name, lower-cased domain).
- Schema.ValidateContactUpdate: does not check email syntax either, and keeps the address as sent where EmailStr would normalise it. ContactUpdate inherits the `EmailStr` field of ContactBase.
- Passwords.Hash: the stand-in tells every two passwords apart, while real bcrypt reads only the first 72 bytes. Two long passwords sharing those bytes verify against each other's hash, and the reset route puts no limit on the new password's length.
- ContactRoutes.SearchContacts: `%` and `_` typed into a filter are matched as ordinary characters, not as LIKE wildcards. Case folding is ASCII only.
- Crud.GetUserByEmail: the `isinstance(db, Session)` check is not modelled, because the store is always a store here.
- Dependencies.GetCurrentUser: the "`sub` is None" branch is not modelled. python-jose rejects a `sub` that is not a string before the handler runs, so the branch cannot be reached.
- AvatarRoutes.UploadAvatar: an upload without a file name is not modelled. In the source it would fail with "General error" like any other exception.
- Jwt.Decode: several python-jose claim checks are not modelled. jose refuses a token that carries `aud` when no audience is given, a future `nbf`, a non-string `jti`, and `at_hash` without an access token. It also reads `iat`/`exp` through `int()`, which accepts numeric strings, and `int(None)` raises a TypeError. So `Decode` answers `Payload` for a signed token holding only `aud`, where jose raises JWTClaimsError. Every token the service signs holds only `sub`, `iat`, `exp` and `scope`, so none of this is reached by a token it issued. The iff of `Jwt.Decode` covers only the checks the model makes.
- ContactRoutes.CreateContact: the `RateLimiter(times=5, seconds=60)` dependency is not modelled. In the source a sixth create by the same client within 60 seconds is answered 429; here it succeeds. The limiter keeps its counts in Redis, which is outside this model.
- The source's integer widths are not modelled: ids, sizes and times are unbounded integers.

## Findings

| source | as written | input that shows it | evidently intended | confidence | as-written member | corrected member |
|---|---|---|---|---|---|---|
| shema_api/fun/crud.py:101-106 | create_user passes `last_name` to users_mod, which has no such column, so the constructor always raises and every registration ends in 500 | any valid UserCreate on an empty database | create the row from the columns users_mod has | high, not executed | Crud.CreateUserAsWritten | Crud.CreateUser |
| shema_api/fun/utils.py:154 | decode_refresh_token catches `jwt.InvalidTokenError`, which python-jose's `jwt` module does not define; any exception other than expiry makes the except clause itself raise AttributeError (500) | the token text "not a token" | catch the library's JWT error and answer 400 "Invalid token" | high, not executed | Utils.DecodeRefreshTokenAsWritten | Utils.DecodeRefreshToken |
| shema_api/rout/auth.py:55 | register_user calls create_user as written, so every registration, even a new email on an empty database, ends in 500 "Internal server error" | a valid UserCreate on an empty database | register the user and return it | high, not executed | AuthRoutes.RegisterUserAsWritten | AuthRoutes.RegisterUser |
| shema_api/rout/email.py:55 | confirm_email calls decode_refresh_token as written, so a malformed token is answered 400 "module 'jose.jwt' has no attribute 'InvalidTokenError'" | the token text "not a token" | answer 400 with the decoder's "Invalid token" | high, not executed | EmailRoutes.ConfirmEmailAsWritten | EmailRoutes.ConfirmEmail |
