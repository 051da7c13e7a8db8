/** The password-reset token lifecycle. A request for a known email issues a
    token row valid for one hour; redeeming it replaces the user's password
    hash and deletes the row; the form endpoint only looks. */
module ResetRoutes {
  import opened Common
  import opened Passwords
  import opened Models
  import opened Query
  import opened Schema
  import opened Store

  const ResetTokenLifetime: int := Hour

  const ResetUserNotFound: Error := Http(404, "User not found")

  /** password_reset_request: for a known email, inserts exactly one token row
      for that user, holding `uuid` and expiring one hour from now. (The mail
      carrying the token is not modelled.) */
  method PasswordResetRequest(db: Db, email: string, uuid: string, now: Instant) returns (r: Result<Reply>)
    requires db.Valid()
    modifies db
    ensures db.Valid() && db.OnlyUsersAndTokensChanged() && db.users == old(db.users)
    ensures r == Err(ResetUserNotFound) <==> forall k :: k in old(db.users) ==> old(db.users)[k].email != email
    ensures r.Err? ==> r.error in {ResetUserNotFound, IntegrityError} && db.resetTokens == old(db.resetTokens)
    ensures r == Err(IntegrityError) <==> && (exists u :: u in old(db.users) && old(db.users)[u].email == email)
                                          && exists k :: k in old(db.resetTokens) && old(db.resetTokens)[k].token == uuid
    ensures r.Ok? ==> && r.value == Message("Password reset token sent")
                      && exists id, u :: && id !in old(db.resetTokens)
                                         && u in old(db.users) && old(db.users)[u].email == email
                                         && db.resetTokens == old(db.resetTokens)[id := NewResetToken(id, u, uuid, Some(now + ResetTokenLifetime), now)]
  {
    var user := UserByEmail(db.users, email);
    if user.None? {
      return Err(ResetUserNotFound);
    }
    if exists k :: k in db.resetTokens && db.resetTokens[k].token == uuid {
      return Err(IntegrityError);
    }
    var row := NewResetToken(NextRowId(db.resetTokens.Keys), user.value.id, uuid, Some(now + ResetTokenLifetime), now);
    db.resetTokens := db.resetTokens[row.id := row];
    return Ok(Message("Password reset token sent"));
  }

  const InvalidOrExpiredToken: Error := Http(400, "Invalid or expired token")
  const TokenHasExpired: Error := Http(400, "Token has expired")

  /** `reset_token.expired_at and reset_token.expired_at < now`: strictly in
      the past; a row without expiry never expires here. */
  predicate ExpiredOnReset(row: ResetToken, now: Instant)
  {
    row.expiredAt.Some? && row.expiredAt.value < now
  }

  /** The checks password_reset makes before changing anything: the row
      holding the token, not expired, whose user exists. */
  function RedeemCheck(tokens: map<int, ResetToken>, users: map<int, UserRow>, token: string, now: Instant): (r: Result<ResetToken>)
    requires ResetTokensWellFormed(tokens) && UsersWellFormed(users)
    ensures r == Err(InvalidOrExpiredToken) <==> forall k :: k in tokens ==> tokens[k].token != token
    ensures r == Err(TokenHasExpired) <==> exists k :: k in tokens && tokens[k].token == token && ExpiredOnReset(tokens[k], now)
    ensures r == Err(ResetUserNotFound) <==>
              exists k :: k in tokens && tokens[k].token == token && !ExpiredOnReset(tokens[k], now) && tokens[k].userId !in users
    ensures r.Ok? ==> && r.value.id in tokens && tokens[r.value.id] == r.value && r.value.token == token
                      && !ExpiredOnReset(r.value, now) && r.value.userId in users
    ensures r.Err? ==> r.error in {InvalidOrExpiredToken, TokenHasExpired, ResetUserNotFound}
  {
    match ResetTokenByValue(tokens, token)
    case None => Err(InvalidOrExpiredToken)
    case Some(row) =>
      if ExpiredOnReset(row, now) then Err(TokenHasExpired)
      else if UserById(users, row.userId).None? then Err(ResetUserNotFound)
      else Ok(row)
  }

  /** password_reset: replaces the user's hash with one of the new password,
      then deletes the token row; any failed check changes nothing. */
  method PasswordReset(db: Db, request: PasswordResetRequest, salt: nat, now: Instant) returns (r: Result<Reply>)
    requires db.Valid()
    modifies db
    ensures db.Valid() && db.OnlyUsersAndTokensChanged()
    ensures r.Err? <==> RedeemCheck(old(db.resetTokens), old(db.users), request.token, now).Err?
    ensures r.Err? ==> && r.error == RedeemCheck(old(db.resetTokens), old(db.users), request.token, now).error
                       && db.users == old(db.users) && db.resetTokens == old(db.resetTokens)
    ensures r.Ok? ==> var row := RedeemCheck(old(db.resetTokens), old(db.users), request.token, now).value;
                      && r.value == Message("Password has been reset successfully")
                      && db.users == old(db.users)[row.userId := old(db.users)[row.userId].(hashedPassword := Hash(request.newPassword, salt))]
                      && db.resetTokens == old(db.resetTokens) - {row.id}
  {
    var checked := RedeemCheck(db.resetTokens, db.users, request.token, now);
    if checked.Err? {
      return Err(checked.error);
    }
    var row := checked.value;
    var user := db.users[row.userId];
    db.users := db.users[row.userId := user.(hashedPassword := Hash(request.newPassword, salt))];
    db.resetTokens := db.resetTokens - {row.id};
    return Ok(Message("Password has been reset successfully"));
  }

  /** Once redeemed, a token is unknown: replaying it is refused whatever the
      users table and the clock then say. */
  lemma ConsumedTokenCannotBeReplayed(tokens: map<int, ResetToken>, users: map<int, UserRow>, token: string, now: Instant,
                                      usersAfter: map<int, UserRow>, later: Instant)
    requires ResetTokensWellFormed(tokens) && UsersWellFormed(users) && UsersWellFormed(usersAfter)
    requires RedeemCheck(tokens, users, token, now).Ok?
    ensures ResetTokensWellFormed(tokens - {RedeemCheck(tokens, users, token, now).value.id})
    ensures RedeemCheck(tokens - {RedeemCheck(tokens, users, token, now).value.id}, usersAfter, token, later) == Err(InvalidOrExpiredToken)
  {
    var row := RedeemCheck(tokens, users, token, now).value;
    var rest := tokens - {row.id};
    forall k | k in rest
      ensures rest[k].token != token
    {
      assert tokens[k].token == tokens[row.id].token ==> k == row.id;
    }
  }

  /** A freshly issued token can be redeemed for the whole hour, and is
      refused as expired after it. */
  lemma IssuedTokenRedeemable(tokens: map<int, ResetToken>, users: map<int, UserRow>, id: int, userId: int, uuid: string,
                              now: Instant, later: Instant)
    requires ResetTokensWellFormed(tokens) && UsersWellFormed(users)
    requires id !in tokens && userId in users
    requires forall k :: k in tokens ==> tokens[k].token != uuid
    ensures ResetTokensWellFormed(tokens[id := NewResetToken(id, userId, uuid, Some(now + ResetTokenLifetime), now)])
    ensures later <= now + ResetTokenLifetime ==>
              RedeemCheck(tokens[id := NewResetToken(id, userId, uuid, Some(now + ResetTokenLifetime), now)], users, uuid, later)
                == Ok(NewResetToken(id, userId, uuid, Some(now + ResetTokenLifetime), now))
    ensures later > now + ResetTokenLifetime ==>
              RedeemCheck(tokens[id := NewResetToken(id, userId, uuid, Some(now + ResetTokenLifetime), now)], users, uuid, later)
                == Err(TokenHasExpired)
  {
    var row := NewResetToken(id, userId, uuid, Some(now + ResetTokenLifetime), now);
    var after := tokens[id := row];
    var p := (t: ResetToken) => t.token == uuid;
    FirstOfUnique(after, p, id);
  }

  const ResetTokenNotFound: Error := Http(404, "Token not found or expired")

  /** `expired_at < now` with a NULL expired_at. */
  const NoneComparison: Error := Uncaught("'<' not supported between instances of 'NoneType' and 'datetime.datetime'")

  /** reset_password_form: looks a token up without changing anything. An
      unknown token is 404, an expired one 400, and a row without expiry
      makes the comparison raise. */
  function ResetPasswordForm(tokens: map<int, ResetToken>, token: string, now: Instant): (r: Result<string>)
    requires ResetTokensWellFormed(tokens)
    ensures r == Err(ResetTokenNotFound) <==> forall k :: k in tokens ==> tokens[k].token != token
    ensures r.Ok? ==> r.value == token &&
                      exists k :: k in tokens && tokens[k].token == token && tokens[k].expiredAt.Some? && now <= tokens[k].expiredAt.value
    ensures r == Err(TokenHasExpired) <==> exists k :: k in tokens && tokens[k].token == token && ExpiredOnReset(tokens[k], now)
    ensures r == Err(NoneComparison) <==> exists k :: k in tokens && tokens[k].token == token && tokens[k].expiredAt.None?
    ensures r.Err? ==> r.error in {ResetTokenNotFound, TokenHasExpired, NoneComparison}
  {
    match ResetTokenByValue(tokens, token)
    case None => Err(ResetTokenNotFound)
    case Some(row) =>
      if row.expiredAt.None? then Err(NoneComparison)
      else if row.expiredAt.value < now then Err(TokenHasExpired)
      else Ok(token)
  }

  /** On rows that carry an expiry, the form accepts a token exactly when a
      reset would get past the token checks, and both report expiry alike. */
  lemma FormAgreesWithReset(tokens: map<int, ResetToken>, users: map<int, UserRow>, token: string, now: Instant)
    requires ResetTokensWellFormed(tokens) && UsersWellFormed(users)
    requires forall k :: k in tokens && tokens[k].token == token ==> tokens[k].expiredAt.Some?
    ensures ResetPasswordForm(tokens, token, now).Ok? <==>
              RedeemCheck(tokens, users, token, now).Ok? || RedeemCheck(tokens, users, token, now) == Err(ResetUserNotFound)
    ensures ResetPasswordForm(tokens, token, now) == Err(TokenHasExpired) <==>
              RedeemCheck(tokens, users, token, now) == Err(TokenHasExpired)
  {
  }
}
