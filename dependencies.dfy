/** The request dependencies: the bearer-token guard that resolves the
    calling user, the owner-scoped contact lookup, and the Auth service that
    issues email tokens. */
module Dependencies {
  import opened Common
  import opened Jwt
  import opened Models
  import opened Query
  import opened Utils

  /** The single answer the guard gives to every rejected credential. */
  const CredentialsException: Error := BearerChallenge("Could not validate credentials")

  /** get_current_user. A token must decode, carry scope "access_token" and
      a subject naming a users_mod row. A missing scope or sub claim is a
      KeyError, which the guard does not catch. python-jose already rejects a
      sub that is not a string (null included), so such a token ends in the
      same 401 as any other decode failure. */
  function GetCurrentUser(users: map<int, UserRow>, token: Token, now: Instant): (r: Result<UserRow>)
    requires UsersWellFormed(users)
    ensures r.Ok? ==> && Decode(token, now).Payload?
                      && ScopeIs(Decode(token, now).claims, "access_token")
                      && "sub" in Decode(token, now).claims
                      && Decode(token, now).claims["sub"] == Str(r.value.email)
                      && r.value.id in users && users[r.value.id] == r.value
    ensures r.Err? ==> r.error in {CredentialsException, KeyError("scope"), KeyError("sub")}
    ensures !Decode(token, now).Payload? ==> r == Err(CredentialsException)
    ensures Decode(token, now).Payload? && "scope" !in Decode(token, now).claims ==> r == Err(KeyError("scope"))
    ensures (Decode(token, now).Payload? && ScopeIs(Decode(token, now).claims, "access_token")
             && "sub" !in Decode(token, now).claims) ==> r == Err(KeyError("sub"))
    ensures (Decode(token, now).Payload? && "scope" in Decode(token, now).claims
             && !ScopeIs(Decode(token, now).claims, "access_token")) ==> r == Err(CredentialsException)
    ensures (Decode(token, now).Payload? && ScopeIs(Decode(token, now).claims, "access_token")
             && "sub" in Decode(token, now).claims
             && forall k :: k in users ==> Str(users[k].email) != Decode(token, now).claims["sub"])
            ==> r == Err(CredentialsException)
    ensures forall k :: (&& k in users && Decode(token, now).Payload?
                         && ScopeIs(Decode(token, now).claims, "access_token")
                         && "sub" in Decode(token, now).claims
                         && Str(users[k].email) == Decode(token, now).claims["sub"])
                        ==> r == Ok(users[k])
  {
    match Decode(token, now)
    case Expired => Err(CredentialsException)
    case Invalid => Err(CredentialsException)
    case Payload(c) =>
      if "scope" !in c then Err(KeyError("scope"))
      else if c["scope"] != Str("access_token") then Err(CredentialsException)
      else if "sub" !in c then Err(KeyError("sub"))
      else
        match UserByEmail(users, c["sub"].text)
        case None => Err(CredentialsException)
        case Some(user) => Ok(user)
  }

  /** A freshly issued access token for a user admits that user until its
      exp instant and is answered with the uniform 401 afterwards. */
  lemma AccessTokenOpensGuard(users: map<int, UserRow>, id: int, now: Instant, later: Instant)
    requires UsersWellFormed(users) && id in users
    ensures later <= now + AccessTokenLifetime ==>
              GetCurrentUser(users, CreateAccessToken(map["sub" := Str(users[id].email)], None, now), later) == Ok(users[id])
    ensures later > now + AccessTokenLifetime ==>
              GetCurrentUser(users, CreateAccessToken(map["sub" := Str(users[id].email)], None, now), later) == Err(CredentialsException)
  {
    var data := map["sub" := Str(users[id].email)];
    StampedTokenLifetime(data, now, AccessTokenLifetime, "access_token", later);
    var p := (u: UserRow) => u.email == users[id].email;
    FirstOfUnique(users, p, id);
  }

  /** A refresh token never passes the guard, fresh or not. */
  lemma RefreshTokenNeverOpensGuard(users: map<int, UserRow>, email: string, delta: Option<int>, now: Instant, later: Instant)
    requires UsersWellFormed(users)
    ensures GetCurrentUser(users, CreateRefreshToken(map["sub" := Str(email)], delta, now), later) == Err(CredentialsException)
  {
    StampedTokenLifetime(map["sub" := Str(email)], now, Lifetime(delta, RefreshTokenLifetime), "refresh_token", later);
  }

  const ContactNotFound: Error := Http(404, "Contact not found")

  /** get_contact: the caller's contact with that id. A missing row and
      another owner's row are both answered with the same 404. */
  function GetContact(t: map<int, Contact>, contactId: int, currentUser: UserRow): (r: Result<Contact>)
    requires ContactsWellFormed(t)
    ensures r.Ok? <==> contactId in t && t[contactId].ownerId == Some(currentUser.id)
    ensures r.Ok? ==> r.value == t[contactId]
    ensures r.Err? ==> r.error == ContactNotFound
  {
    match OwnedContact(t, contactId, currentUser.id)
    case None => Err(ContactNotFound)
    case Some(c) => Ok(c)
  }

  /** The Auth service, built from the SECRET_KEY and ALGORITHM settings. */
  datatype Auth = Auth(secretKey: string, algorithm: string)

  const AuthSettingsMissing: Error := Uncaught("SECRET_KEY and ALGORITHM must be set in environment variables")

  /** Auth.__init__: both settings must be present and non-empty. */
  function NewAuth(secretKey: Option<string>, algorithm: Option<string>): (r: Result<Auth>)
    ensures r.Ok? <==> secretKey.Some? && secretKey.value != "" && algorithm.Some? && algorithm.value != ""
    ensures r.Ok? ==> r.value.secretKey == secretKey.value && r.value.algorithm == algorithm.value
    ensures r.Err? ==> r.error == AuthSettingsMissing
  {
    match (secretKey, algorithm)
    case (Some(key), Some(alg)) => if key != "" && alg != "" then Ok(Auth(key, alg)) else Err(AuthSettingsMissing)
    case _ => Err(AuthSettingsMissing)
  }

  const EmailTokenLifetime: int := 7 * DaySeconds

  /** Auth.create_email_token: a copy of the data with iat = now and
      exp = now + 7 days; sub is kept (and required: without it the lookup
      raises KeyError); no scope is added. */
  function CreateEmailToken(auth: Auth, data: Claims, now: Instant): (r: Result<Token>)
    ensures r.Err? <==> "sub" !in data
    ensures r.Err? ==> r.error == KeyError("sub")
    ensures r.Ok? ==> && r.value.Signed?
                      && r.value.claims.Keys == data.Keys + {"iat", "exp"}
                      && r.value.claims["iat"] == Num(now)
                      && r.value.claims["exp"] == Num(now + EmailTokenLifetime)
                      && r.value.claims["sub"] == data["sub"]
                      && ("scope" in r.value.claims <==> "scope" in data)
    ensures r.Ok? ==> forall k :: k in data && k != "iat" && k != "exp" ==> r.value.claims[k] == data[k]
  {
    if "sub" !in data then Err(KeyError("sub"))
    else Ok(Encode(data["iat" := Num(now)]["exp" := Num(now + EmailTokenLifetime)]["sub" := data["sub"]]))
  }

  /** An email token for an address decodes to that subject for seven days;
      having no scope, it never passes the guard. */
  lemma EmailTokenLifetimeAndScope(users: map<int, UserRow>, auth: Auth, email: string, now: Instant, later: Instant)
    requires UsersWellFormed(users)
    ensures CreateEmailToken(auth, map["sub" := Str(email)], now).Ok?
    ensures later <= now + EmailTokenLifetime ==>
              DecodeRefreshToken(CreateEmailToken(auth, map["sub" := Str(email)], now).value, later) == Ok(email)
    ensures GetCurrentUser(users, CreateEmailToken(auth, map["sub" := Str(email)], now).value, later).Err?
  {
    var t := CreateEmailToken(auth, map["sub" := Str(email)], now).value;
    assert WellTyped(t.claims);
    EncodeDecode(t.claims, later);
  }
}
