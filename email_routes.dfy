/** The email endpoints: /send-email stores a fresh access token on the user
    (the mail itself is not modelled), and the confirmation link flips the
    user's confirmed and is_active flags. */
module EmailRoutes {
  import opened Common
  import opened Jwt
  import opened Models
  import opened Query
  import opened Store
  import opened Utils

  const EmailUserNotFound: Error := Http(404, "User not found")

  /** send_in_background: builds an access token for the address (before the
      lookup), stores it in the user's access_token, and reports the mail
      queued; an unknown address changes nothing. */
  method SendInBackground(db: Db, email: string, now: Instant) returns (r: Result<Reply>)
    requires db.Valid()
    modifies db
    ensures db.Valid() && db.OnlyUsersChanged()
    ensures r.Err? <==> forall k :: k in old(db.users) ==> old(db.users)[k].email != email
    ensures r.Err? ==> r.error == EmailUserNotFound && db.users == old(db.users)
    ensures r.Ok? ==> && r.value == Message("Email has been sent")
                      && exists k :: && k in old(db.users) && old(db.users)[k].email == email
                                     && db.users == old(db.users)[k := old(db.users)[k].(
                                          accessToken := Some(CreateAccessToken(map["sub" := Str(email)], None, now)))]
  {
    var token := CreateAccessToken(map["sub" := Str(email)], None, now);
    var user := UserByEmail(db.users, email);
    if user.None? {
      return Err(EmailUserNotFound);
    }
    var u := user.value;
    db.users := db.users[u.id := u.(accessToken := Some(token))];
    return Ok(Message("Email has been sent"));
  }

  /** confirm_email's `except Exception as e`: every failure, an HTTPException
      included, is raised again as a 400 whose detail is str(e). */
  function AsBadRequest(e: Error): (r: Error)
    ensures r.Status() == 400
  {
    Http(400, Describe(e))
  }

  /** The body of confirm_email once the token has been decoded (or the
      decoder has raised): any subject that is some user's email confirms
      that user; every failure is a 400 and changes nothing. */
  method ConfirmDecoded(db: Db, email: Result<string>) returns (r: Result<Reply>)
    requires db.Valid()
    modifies db
    ensures db.Valid() && db.OnlyUsersChanged()
    ensures r.Err? ==> r.error.Status() == 400 && db.users == old(db.users)
    ensures email.Err? ==> r == Err(AsBadRequest(email.error))
    ensures email.Ok? && (forall k :: k in old(db.users) ==> old(db.users)[k].email != email.value) ==>
              r == Err(Http(400, "404: User not found"))
    ensures r.Ok? <==> email.Ok? && exists k :: k in old(db.users) && old(db.users)[k].email == email.value
    ensures r.Ok? ==> && r.value == Message("Email confirmed")
                      && exists k :: && k in old(db.users) && old(db.users)[k].email == email.value
                                     && db.users == old(db.users)[k := old(db.users)[k].(confirmed := true, isActive := true)]
  {
    if email.Err? {
      return Err(AsBadRequest(email.error));
    }
    var response := ConfirmedEmail(db, email.value);
    if response.Detail? {
      assert response.text == "User not found";
      DescribeNotFound("User not found");
      return Err(AsBadRequest(Http(404, "User not found")));
    }
    return Ok(Message(response.text));
  }

  /** confirm_email over the corrected decoder: any token that decodes with a
      subject, whatever its scope, confirms the user with that email; every
      failure is a 400 and changes nothing. */
  method ConfirmEmail(db: Db, token: Token, now: Instant) returns (r: Result<Reply>)
    requires db.Valid()
    modifies db
    ensures db.Valid() && db.OnlyUsersChanged()
    ensures r.Err? ==> r.error.Status() == 400 && db.users == old(db.users)
    ensures DecodeRefreshToken(token, now).Err? ==> r == Err(AsBadRequest(DecodeRefreshToken(token, now).error))
    ensures (&& DecodeRefreshToken(token, now).Ok?
             && forall k :: k in old(db.users) ==> old(db.users)[k].email != DecodeRefreshToken(token, now).value)
            ==> r == Err(Http(400, "404: User not found"))
    ensures r.Ok? <==> && DecodeRefreshToken(token, now).Ok?
                       && exists k :: k in old(db.users) && old(db.users)[k].email == DecodeRefreshToken(token, now).value
    ensures r.Ok? ==> && r.value == Message("Email confirmed")
                      && exists k :: && k in old(db.users) && old(db.users)[k].email == DecodeRefreshToken(token, now).value
                                     && db.users == old(db.users)[k := old(db.users)[k].(confirmed := true, isActive := true)]
  {
    r := ConfirmDecoded(db, DecodeRefreshToken(token, now));
  }

  /** confirm_email as written, over the decoder as written: the same
      successes, but a token that does not decode (or lacks a subject) is
      answered with the AttributeError's text rather than "Invalid token". */
  method ConfirmEmailAsWritten(db: Db, token: Token, now: Instant) returns (r: Result<Reply>)
    requires db.Valid()
    modifies db
    ensures db.Valid() && db.OnlyUsersChanged()
    ensures r.Err? ==> r.error.Status() == 400 && db.users == old(db.users)
    ensures DecodeRefreshTokenAsWritten(token, now).Err? ==>
              r == Err(AsBadRequest(DecodeRefreshTokenAsWritten(token, now).error))
    ensures Decode(token, now).Invalid? ==> r == Err(Http(400, "module 'jose.jwt' has no attribute 'InvalidTokenError'"))
    ensures (&& DecodeRefreshTokenAsWritten(token, now).Ok?
             && forall k :: k in old(db.users) ==> old(db.users)[k].email != DecodeRefreshTokenAsWritten(token, now).value)
            ==> r == Err(Http(400, "404: User not found"))
    ensures r.Ok? <==> && DecodeRefreshTokenAsWritten(token, now).Ok?
                       && exists k :: k in old(db.users) && old(db.users)[k].email == DecodeRefreshTokenAsWritten(token, now).value
    ensures r.Ok? ==> && r.value == Message("Email confirmed")
                      && exists k :: && k in old(db.users) && old(db.users)[k].email == DecodeRefreshTokenAsWritten(token, now).value
                                     && db.users == old(db.users)[k := old(db.users)[k].(confirmed := true, isActive := true)]
  {
    r := ConfirmDecoded(db, DecodeRefreshTokenAsWritten(token, now));
  }

  /** The token /send-email stores is an access token, and the confirmation
      endpoint, which ignores scope, takes it as readily as a refresh token
      for as long as it lives. */
  lemma StoredTokenConfirms(email: string, now: Instant, later: Instant)
    ensures later <= now + AccessTokenLifetime ==>
              DecodeRefreshToken(CreateAccessToken(map["sub" := Str(email)], None, now), later) == Ok(email)
    ensures later > now + AccessTokenLifetime ==>
              DecodeRefreshToken(CreateAccessToken(map["sub" := Str(email)], None, now), later) == Err(RefreshTokenExpired)
    ensures later <= now + RefreshTokenLifetime ==>
              DecodeRefreshToken(CreateRefreshToken(map["sub" := Str(email)], None, now), later) == Ok(email)
  {
    StampedTokenLifetime(map["sub" := Str(email)], now, AccessTokenLifetime, "access_token", later);
    StampedTokenLifetime(map["sub" := Str(email)], now, RefreshTokenLifetime, "refresh_token", later);
  }
}
