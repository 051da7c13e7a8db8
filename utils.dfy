/** Token builders and readers, password-based authentication, and the
    email-confirmation update. */
module Utils {
  import opened Common
  import opened Passwords
  import opened Jwt
  import opened Models
  import opened Query
  import opened Store

  const AccessTokenLifetime: int := 15 * Minute
  const RefreshTokenLifetime: int := 7 * DaySeconds

  /** `if expires_delta:` — a missing or zero delta falls back to the default. */
  function Lifetime(expiresDelta: Option<int>, default: int): (s: int)
    ensures expiresDelta.Some? && expiresDelta.value != 0 ==> s == expiresDelta.value
    ensures expiresDelta.None? || expiresDelta.value == 0 ==> s == default
  {
    if expiresDelta.Some? && expiresDelta.value != 0 then expiresDelta.value else default
  }

  /** A copy of the caller's claims updated with iat, exp and scope, which
      therefore override any the caller supplied. */
  function Stamp(data: Claims, now: Instant, lifetime: int, scope: string): (c: Claims)
    ensures c.Keys == data.Keys + {"iat", "exp", "scope"}
    ensures c["iat"] == Num(now) && c["exp"] == Num(now + lifetime) && ScopeIs(c, scope)
    ensures forall k :: k in data && k != "iat" && k != "exp" && k != "scope" ==> c[k] == data[k]
  {
    data["iat" := Num(now)]["exp" := Num(now + lifetime)]["scope" := Str(scope)]
  }

  /** create_access_token */
  function CreateAccessToken(data: Claims, expiresDelta: Option<int>, now: Instant): (t: Token)
    ensures t.Signed? && t.claims == Stamp(data, now, Lifetime(expiresDelta, AccessTokenLifetime), "access_token")
  {
    Encode(Stamp(data, now, Lifetime(expiresDelta, AccessTokenLifetime), "access_token"))
  }

  /** create_refresh_token */
  function CreateRefreshToken(data: Claims, expiresDelta: Option<int>, now: Instant): (t: Token)
    ensures t.Signed? && t.claims == Stamp(data, now, Lifetime(expiresDelta, RefreshTokenLifetime), "refresh_token")
  {
    Encode(Stamp(data, now, Lifetime(expiresDelta, RefreshTokenLifetime), "refresh_token"))
  }

  /** The caller's claims survive decoding exactly when the subject (the only
      one of them python-jose type-checks besides iat and exp) is a string. */
  predicate SubjectTyped(data: Claims)
  {
    "sub" in data ==> data["sub"].Str?
  }

  /** A stamped token decodes to its claims up to and including its exp
      instant, and is reported expired from the next second on. */
  lemma {:induction false} StampedTokenLifetime(data: Claims, now: Instant, lifetime: int, scope: string, later: Instant)
    requires SubjectTyped(data)
    ensures later <= now + lifetime ==> Decode(Encode(Stamp(data, now, lifetime, scope)), later) == Payload(Stamp(data, now, lifetime, scope))
    ensures later > now + lifetime ==> Decode(Encode(Stamp(data, now, lifetime, scope)), later) == Expired
  {
    var c := Stamp(data, now, lifetime, scope);
    assert "sub" in c ==> c["sub"] == data["sub"];
    assert WellTyped(c);
    EncodeDecode(c, later);
  }

  /** The exception evaluating `jwt.InvalidTokenError` raises: python-jose's
      jwt module has no such name. */
  const NoInvalidTokenError: Error := Uncaught("module 'jose.jwt' has no attribute 'InvalidTokenError'")

  const RefreshTokenExpired: Error := Http(401, "Token has expired")

  /** decode_refresh_token as written. An expired token meets the first except
      clause. Every other failure (a bad token, or a KeyError for a missing
      sub) reaches the second clause, whose expression raises instead. */
  function DecodeRefreshTokenAsWritten(token: Token, now: Instant): (r: Result<string>)
    ensures r.Ok? <==> Decode(token, now).Payload? && "sub" in Decode(token, now).claims
    ensures r.Ok? ==> Decode(token, now).claims["sub"] == Str(r.value)
    ensures Decode(token, now).Expired? ==> r == Err(RefreshTokenExpired)
    ensures !Decode(token, now).Expired? && r.Err? ==> r == Err(NoInvalidTokenError)
  {
    match Decode(token, now)
    case Expired => Err(RefreshTokenExpired)
    case Invalid => Err(NoInvalidTokenError)
    case Payload(c) => if "sub" in c then Ok(c["sub"].text) else Err(NoInvalidTokenError)
  }

  /** decode_refresh_token with the second clause catching python-jose's JWTError:
      a bad token is answered with 400 "Invalid token"; a missing sub is a
      KeyError, which no clause catches. No scope is checked. */
  function DecodeRefreshToken(token: Token, now: Instant): (r: Result<string>)
    ensures r.Ok? <==> Decode(token, now).Payload? && "sub" in Decode(token, now).claims
    ensures r.Ok? ==> Decode(token, now).claims["sub"] == Str(r.value)
    ensures Decode(token, now).Expired? ==> r == Err(RefreshTokenExpired)
    ensures Decode(token, now).Invalid? ==> r == Err(Http(400, "Invalid token"))
    ensures Decode(token, now).Payload? && r.Err? ==> r == Err(KeyError("sub"))
  {
    match Decode(token, now)
    case Expired => Err(RefreshTokenExpired)
    case Invalid => Err(Http(400, "Invalid token"))
    case Payload(c) => if "sub" in c then Ok(c["sub"].text) else Err(KeyError("sub"))
  }

  /** A token that fails its signature check: as written it ends in a 500
      instead of the intended 400. */
  lemma InvalidRefreshTokenCrashes(now: Instant)
    ensures DecodeRefreshTokenAsWritten(Forged("not a token"), now).error.Status() == 500
    ensures DecodeRefreshToken(Forged("not a token"), now) == Err(Http(400, "Invalid token"))
  {
  }

  /** Both readers agree on every token that is accepted or expired. */
  lemma DecodeRefreshTokenFixKeepsSuccess(token: Token, now: Instant)
    ensures DecodeRefreshTokenAsWritten(token, now).Ok? ==> DecodeRefreshToken(token, now) == DecodeRefreshTokenAsWritten(token, now)
    ensures Decode(token, now).Expired? ==> DecodeRefreshToken(token, now) == DecodeRefreshTokenAsWritten(token, now)
  {
  }

  /** get_email_form_token: the subject of a refresh-scoped token. A decode
      failure becomes 401 "Could not validate credentials"; another scope is
      401 "Invalid scope for token"; a missing scope or sub is a KeyError. */
  function GetEmailFormToken(token: Token, now: Instant): (r: Result<string>)
    ensures r.Ok? <==> Decode(token, now).Payload? && ScopeIs(Decode(token, now).claims, "refresh_token")
                       && "sub" in Decode(token, now).claims
    ensures r.Ok? ==> Decode(token, now).claims["sub"] == Str(r.value)
    ensures !Decode(token, now).Payload? ==> r == Err(Http(401, "Could not validate credentials"))
    ensures (Decode(token, now).Payload? && "scope" in Decode(token, now).claims
             && !ScopeIs(Decode(token, now).claims, "refresh_token")) ==> r == Err(Http(401, "Invalid scope for token"))
    ensures Decode(token, now).Payload? && "scope" !in Decode(token, now).claims ==> r == Err(KeyError("scope"))
    ensures (Decode(token, now).Payload? && ScopeIs(Decode(token, now).claims, "refresh_token")
             && "sub" !in Decode(token, now).claims) ==> r == Err(KeyError("sub"))
  {
    match Decode(token, now)
    case Expired => Err(Http(401, "Could not validate credentials"))
    case Invalid => Err(Http(401, "Could not validate credentials"))
    case Payload(c) =>
      if "scope" !in c then Err(KeyError("scope"))
      else if c["scope"] == Str("refresh_token") then
        if "sub" in c then Ok(c["sub"].text) else Err(KeyError("sub"))
      else Err(Http(401, "Invalid scope for token"))
  }

  /** authenticate_user: the lowest-id user whose first_name is `username`,
      provided the password verifies against that user's hash. A hash passlib
      cannot read makes verification raise. */
  function AuthenticateUser(users: map<int, UserRow>, username: string, password: string): (r: Result<Option<UserRow>>)
    requires UsersWellFormed(users)
    ensures (forall k :: k in users ==> users[k].firstName != Some(username)) ==> r == Ok(None)
    ensures r.Ok? && r.value.Some? ==>
              && r.value.value.id in users && users[r.value.value.id] == r.value.value
              && r.value.value.firstName == Some(username)
              && VerifyPasswordMod(password, r.value.value.hashedPassword) == Ok(true)
              && forall k :: k in users && users[k].firstName == Some(username) ==> r.value.value.id <= k
    ensures r.Err? ==> r.error.Status() == 500
    // The lowest-id holder of the first name decides the outcome by its hash.
    ensures forall k :: (&& k in users && users[k].firstName == Some(username)
                         && forall j :: j in users && users[j].firstName == Some(username) ==> k <= j)
                        ==> && (VerifyPasswordMod(password, users[k].hashedPassword) == Ok(true) ==> r == Ok(Some(users[k])))
                            && (VerifyPasswordMod(password, users[k].hashedPassword) == Ok(false) ==> r == Ok(None))
                            && (VerifyPasswordMod(password, users[k].hashedPassword).Err? ==>
                                  r == Err(VerifyPasswordMod(password, users[k].hashedPassword).error))
  {
    match UserByFirstName(users, username)
    case None => Ok(None)
    case Some(user) =>
      match VerifyPasswordMod(password, user.hashedPassword)
      case Err(e) => Err(e)
      case Ok(matches) => if matches then Ok(Some(user)) else Ok(None)
  }

  /** For a sole holder of a first name, authentication succeeds exactly for
      the password its hash was made from. */
  lemma AuthenticateSoleUser(users: map<int, UserRow>, id: int, name: string, password: string, salt: nat, attempt: string)
    requires UsersWellFormed(users) && id in users
    requires users[id].firstName == Some(name) && users[id].hashedPassword == Hash(password, salt)
    requires forall k :: k in users && users[k].firstName == Some(name) ==> k == id
    ensures attempt == password ==> AuthenticateUser(users, name, attempt) == Ok(Some(users[id]))
    ensures attempt != password ==> AuthenticateUser(users, name, attempt) == Ok(None)
  {
    var p := (u: UserRow) => u.firstName == Some(name);
    FirstOfUnique(users, p, id);
  }

  /** confirmed_email: marks the user with that email confirmed and active; an
      unknown email is reported, not raised, and changes nothing. */
  method ConfirmedEmail(db: Db, email: string) returns (r: Reply)
    requires db.Valid()
    modifies db
    ensures db.Valid() && db.OnlyUsersChanged()
    ensures r == Detail("User not found") <==> forall k :: k in old(db.users) ==> old(db.users)[k].email != email
    ensures r == Detail("User not found") ==> db.users == old(db.users)
    ensures r != Detail("User not found") ==>
              && r == Message("Email confirmed")
              && exists k :: && k in old(db.users) && old(db.users)[k].email == email
                             && db.users == old(db.users)[k := old(db.users)[k].(confirmed := true, isActive := true)]
    // Idempotence: once confirmed, confirming again changes nothing.
    ensures (forall k :: k in old(db.users) && old(db.users)[k].email == email ==> old(db.users)[k].confirmed && old(db.users)[k].isActive)
            ==> db.users == old(db.users)
  {
    var user := UserByEmail(db.users, email);
    if user.None? {
      return Detail("User not found");
    }
    var u := user.value;
    assert u.confirmed && u.isActive ==> u.(confirmed := true, isActive := true) == u;
    db.users := db.users[u.id := u.(confirmed := true, isActive := true)];
    return Message("Email confirmed");
  }
}
