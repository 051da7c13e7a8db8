/** The authentication endpoints: registration, the two logins (/login by
    email, /token by first name) and /refresh-token. */
module AuthRoutes {
  import opened Common
  import opened Passwords
  import opened Jwt
  import opened Models
  import opened Query
  import opened Schema
  import opened Store
  import opened Crud
  import opened Utils
  import opened Dependencies

  // Registration.

  const EmailAlreadyRegistered: Error := Http(409, "Email already registered")
  const InternalServerError: Error := Http(500, "Internal server error")

  /** register_user over the corrected create_user. The duplicate check
      reads the `users` table while the insert goes to users_mod, whose own
      UNIQUE email makes create_user fail instead. The blanket
      `except Exception` turns every failure, the 409 included, into 500
      "Internal server error". */
  method RegisterUser(db: Db, user: UserCreate, salt: nat) returns (r: Result<UserRow>)
    requires db.Valid()
    modifies db
    ensures db.Valid() && db.OnlyUsersChanged()
    ensures r.Err? ==> r.error == InternalServerError && db.users == old(db.users)
    ensures r.Ok? <==> && (forall k :: k in old(db.legacyUsers) ==> old(db.legacyUsers)[k].email != user.email)
                       && (forall k :: k in old(db.users) ==> old(db.users)[k].email != user.email)
    ensures r.Ok? ==> && r.value.id !in old(db.users)
                      && r.value == NewUserRow(r.value.id, Some(user.firstName), user.email, Hash(user.password, salt))
                      && db.users == old(db.users)[r.value.id := r.value]
  {
    var outcome: Result<UserRow>;
    var existing := GetUserByEmail(db.legacyUsers, user.email);
    if existing.Some? {
      outcome := Err(EmailAlreadyRegistered);
    } else {
      outcome := CreateUser(db, user, salt);
    }
    if outcome.Err? {
      return Err(InternalServerError);
    }
    return outcome;
  }

  /** register_user as written, over create_user as written: no registration
      ever succeeds, and every attempt is a 500 that changes nothing. */
  method RegisterUserAsWritten(db: Db, user: UserCreate, salt: nat) returns (r: Result<UserRow>)
    requires db.Valid()
    modifies db
    ensures db.Valid() && db.OnlyUsersChanged()
    ensures r == Err(InternalServerError) && db.users == old(db.users)
  {
    var outcome: Result<UserRow>;
    var existing := GetUserByEmail(db.legacyUsers, user.email);
    if existing.Some? {
      outcome := Err(EmailAlreadyRegistered);
    } else {
      outcome := CreateUserAsWritten(db, user, salt);
    }
    r := if outcome.Err? then Err(InternalServerError) else outcome;
  }

  // /login

  const InvalidEmail: Error := Http(401, "Invalid email")
  const InvalidPassword: Error := Http(401, "Invalid password")

  /** The checks /login makes before issuing tokens: the user with that
      email, and a password that verifies against its hash. */
  function LoginCheck(users: map<int, UserRow>, username: string, password: string): (r: Result<UserRow>)
    requires UsersWellFormed(users)
    ensures r == Err(InvalidEmail) <==> forall k :: k in users ==> users[k].email != username
    ensures r == Err(InvalidPassword) <==>
              exists k :: k in users && users[k].email == username && VerifyPasswordMod(password, users[k].hashedPassword) == Ok(false)
    ensures r.Ok? ==> && r.value.id in users && users[r.value.id] == r.value && r.value.email == username
                      && VerifyPasswordMod(password, r.value.hashedPassword) == Ok(true)
    ensures r.Err? ==> r.error in {InvalidEmail, InvalidPassword} || r.error.Status() == 500
  {
    match UserByEmail(users, username)
    case None => Err(InvalidEmail)
    case Some(user) =>
      match VerifyPasswordMod(password, user.hashedPassword)
      case Err(e) => Err(e)
      case Ok(matches) => if matches then Ok(user) else Err(InvalidPassword)
  }

  /** With a bcrypt hash on file, login tells a wrong password from a right one. */
  lemma LoginChecksPassword(users: map<int, UserRow>, id: int, password: string, salt: nat, attempt: string)
    requires UsersWellFormed(users) && id in users && users[id].hashedPassword == Hash(password, salt)
    ensures attempt == password ==> LoginCheck(users, users[id].email, attempt) == Ok(users[id])
    ensures attempt != password ==> LoginCheck(users, users[id].email, attempt) == Err(InvalidPassword)
  {
    var p := (u: UserRow) => u.email == users[id].email;
    FirstOfUnique(users, p, id);
  }

  /** The access and refresh tokens issued to a user at `now`. */
  function IssuedTokens(email: string, now: Instant): TokenResponse
  {
    MakeTokenResponse(
      CreateAccessToken(map["sub" := Str(email)], None, now),
      CreateRefreshToken(map["sub" := Str(email)], None, now),
      Some("bearer"))
  }

  /** login: on success returns both tokens with token_type "bearer" and
      stores the refresh token on the user; on failure changes nothing. */
  method Login(db: Db, username: string, password: string, now: Instant) returns (r: Result<TokenResponse>)
    requires db.Valid()
    modifies db
    ensures db.Valid() && db.OnlyUsersChanged()
    ensures r.Err? <==> LoginCheck(old(db.users), username, password).Err?
    ensures r.Err? ==> r.error == LoginCheck(old(db.users), username, password).error && db.users == old(db.users)
    ensures r.Ok? ==> var user := LoginCheck(old(db.users), username, password).value;
                      && r.value == IssuedTokens(user.email, now)
                      && r.value.tokenType == "bearer"
                      && db.users == old(db.users)[user.id := user.(refreshToken := Some(r.value.refreshToken))]
  {
    var checked := LoginCheck(db.users, username, password);
    if checked.Err? {
      return Err(checked.error);
    }
    var user := checked.value;
    var access := CreateAccessToken(map["sub" := Str(user.email)], None, now);
    var refresh := CreateRefreshToken(map["sub" := Str(user.email)], None, now);
    UpdateToken(db, user.id, Some(refresh));
    return Ok(MakeTokenResponse(access, refresh, Some("bearer")));
  }

  // /token

  const IncorrectCredentials: Error := BearerChallenge("Incorrect email or password")

  /** login_for_access_token: authenticates by first name; issues the same
      pair of tokens as /login but stores neither. */
  function LoginForAccessToken(users: map<int, UserRow>, username: string, password: string, now: Instant): (r: Result<TokenResponse>)
    requires UsersWellFormed(users)
    ensures (forall k :: k in users ==> users[k].firstName != Some(username)) ==> r == Err(IncorrectCredentials)
    ensures r.Ok? ==> exists k :: && k in users && users[k].firstName == Some(username)
                                  && VerifyPasswordMod(password, users[k].hashedPassword) == Ok(true)
                                  && r.value == IssuedTokens(users[k].email, now)
    ensures r.Err? ==> r.error == IncorrectCredentials || r.error.Status() == 500
    // The lowest-id holder of the first name decides the outcome by its hash.
    ensures forall k :: (&& k in users && users[k].firstName == Some(username)
                         && forall j :: j in users && users[j].firstName == Some(username) ==> k <= j)
                        ==> && (VerifyPasswordMod(password, users[k].hashedPassword) == Ok(true) ==>
                                  r == Ok(IssuedTokens(users[k].email, now)))
                            && (VerifyPasswordMod(password, users[k].hashedPassword) == Ok(false) ==>
                                  r == Err(IncorrectCredentials))
                            && (VerifyPasswordMod(password, users[k].hashedPassword).Err? ==>
                                  && r == Err(VerifyPasswordMod(password, users[k].hashedPassword).error)
                                  && r.error.Status() == 500)
  {
    match AuthenticateUser(users, username, password)
    case Err(e) => Err(e)
    case Ok(found) =>
      if found.None? then Err(IncorrectCredentials)
      else Ok(IssuedTokens(found.value.email, now))
  }

  /** /token looks the username up as a first name: a user's own email is
      refused unless it is also some user's first name. */
  lemma TokenEndpointMatchesFirstName(users: map<int, UserRow>, id: int, name: string, password: string, salt: nat, now: Instant)
    requires UsersWellFormed(users) && id in users
    requires users[id].firstName == Some(name) && users[id].hashedPassword == Hash(password, salt)
    requires forall k :: k in users && users[k].firstName == Some(name) ==> k == id
    requires forall k :: k in users ==> users[k].firstName != Some(users[id].email)
    ensures LoginForAccessToken(users, name, password, now) == Ok(IssuedTokens(users[id].email, now))
    ensures LoginForAccessToken(users, users[id].email, password, now) == Err(IncorrectCredentials)
  {
    AuthenticateSoleUser(users, id, name, password, salt, password);
  }

  // /refresh-token

  /** The /refresh-token answer: a new access token and its type. */
  datatype AccessTokenResponse = AccessTokenResponse(accessToken: Token, tokenType: string)

  const InvalidToken: Error := Http(401, "Invalid token")
  const UserNotFound: Error := Http(401, "User not found")

  /** refresh_access_token: any token that decodes with a subject (its scope
      is not looked at) whose email is in the `users` table buys a new access
      token. `payload.get("sub")` is Jwt.Subject. */
  function RefreshAccessToken(legacy: map<int, LegacyUser>, refreshToken: Token, now: Instant): (r: Result<AccessTokenResponse>)
    requires LegacyUsersWellFormed(legacy)
    ensures !Decode(refreshToken, now).Payload? || "sub" !in Decode(refreshToken, now).claims ==> r == Err(InvalidToken)
    ensures (Decode(refreshToken, now).Payload? && "sub" in Decode(refreshToken, now).claims
             && forall k :: k in legacy ==> Str(legacy[k].email) != Decode(refreshToken, now).claims["sub"])
            ==> r == Err(UserNotFound)
    ensures r.Err? ==> r.error in {InvalidToken, UserNotFound}
    ensures r.Ok? ==> && Decode(refreshToken, now).Payload?
                      && "sub" in Decode(refreshToken, now).claims
                      && r.value.tokenType == "bearer"
                      && r.value.accessToken == CreateAccessToken(map["sub" := Decode(refreshToken, now).claims["sub"]], None, now)
                      && exists k :: k in legacy && Str(legacy[k].email) == Decode(refreshToken, now).claims["sub"]
    ensures forall k :: (&& k in legacy && Decode(refreshToken, now).Payload?
                         && "sub" in Decode(refreshToken, now).claims
                         && Str(legacy[k].email) == Decode(refreshToken, now).claims["sub"])
                        ==> r == Ok(AccessTokenResponse(CreateAccessToken(map["sub" := Str(legacy[k].email)], None, now), "bearer"))
  {
    match Decode(refreshToken, now)
    case Expired => Err(InvalidToken)
    case Invalid => Err(InvalidToken)
    case Payload(c) =>
      match Subject(c)
      case None => Err(InvalidToken)
      case Some(email) =>
        match GetUserByEmail(legacy, email)
        case None => Err(UserNotFound)
        case Some(user) => Ok(AccessTokenResponse(CreateAccessToken(map["sub" := Str(user.email)], None, now), "bearer"))
  }

  /** /refresh-token accepts an access token as readily as a refresh token,
      each for as long as it lives. */
  lemma RefreshIgnoresScope(legacy: map<int, LegacyUser>, id: int, now: Instant, later: Instant)
    requires LegacyUsersWellFormed(legacy) && id in legacy
    ensures later <= now + AccessTokenLifetime ==>
              RefreshAccessToken(legacy, CreateAccessToken(map["sub" := Str(legacy[id].email)], None, now), later).Ok?
    ensures later <= now + RefreshTokenLifetime ==>
              RefreshAccessToken(legacy, CreateRefreshToken(map["sub" := Str(legacy[id].email)], None, now), later).Ok?
  {
    var data := map["sub" := Str(legacy[id].email)];
    StampedTokenLifetime(data, now, AccessTokenLifetime, "access_token", later);
    StampedTokenLifetime(data, now, RefreshTokenLifetime, "refresh_token", later);
    var p := (u: LegacyUser) => u.email == legacy[id].email;
    FirstOfUnique(legacy, p, id);
  }

  /** The refresh token /login hands out is refused unless its email also
      appears in the `users` table. */
  lemma RefreshNeedsUsersTableRow(legacy: map<int, LegacyUser>, email: string, now: Instant, later: Instant)
    requires LegacyUsersWellFormed(legacy)
    requires forall k :: k in legacy ==> legacy[k].email != email
    requires later <= now + RefreshTokenLifetime
    ensures RefreshAccessToken(legacy, IssuedTokens(email, now).refreshToken, later) == Err(UserNotFound)
  {
    StampedTokenLifetime(map["sub" := Str(email)], now, RefreshTokenLifetime, "refresh_token", later);
  }
}
