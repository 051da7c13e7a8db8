/** The request and response models (pydantic) as validity rules. A request
    body is given field by field as it arrives (missing, null or a value);
    validation either yields the typed model or rejects the request with
    status 422. EmailStr's address syntax is not checked (see README). */
module Schema {
  import opened Common
  import opened Jwt

  /** A request field as it arrives: missing, JSON null, or a value. */
  datatype Raw<T> = Absent | Null | Given(value: T)

  /** A field of a partial update: not sent by the client, or sent (possibly as null). */
  datatype Patch<T> = Unset | SetTo(value: T)

  const NameMaxLength: nat := 50
  const PhoneMaxLength: nat := 15
  const PasswordMinLength: nat := 8
  const PasswordMaxLength: nat := 20

  /** The 422 answer; its detail names the first offending field. */
  function Unprocessable(field: string): (e: Error)
    ensures e.Status() == 422
  {
    Http(422, field)
  }

  // Field-level rules.

  /** `x: str = Field(..., min_length, max_length)`: required, not null, length in range. */
  function RequiredText(f: Raw<string>, minLength: nat, maxLength: nat, field: string): (r: Result<string>)
    ensures r.Ok? <==> f.Given? && minLength <= |f.value| <= maxLength
    ensures r.Ok? ==> r.value == f.value
    ensures r.Err? ==> r.error == Unprocessable(field)
  {
    if f.Given? && minLength <= |f.value| <= maxLength then Ok(f.value) else Err(Unprocessable(field))
  }

  /** `x: Optional[str] = Field(None, max_length)` */
  function NullableText(f: Raw<string>, maxLength: nat, field: string): (r: Result<Patch<Option<string>>>)
    ensures r.Ok? <==> (f.Given? ==> |f.value| <= maxLength)
    ensures r.Ok? ==> r.value == Nullable(f)
    ensures r.Err? ==> r.error == Unprocessable(field)
  {
    if f.Given? && |f.value| > maxLength then Err(Unprocessable(field)) else Ok(Nullable(f))
  }

  /** `x: Optional[T] = None`, with no further constraint. */
  function Nullable<T>(f: Raw<T>): (p: Patch<Option<T>>)
    ensures p.Unset? <==> f.Absent?
    ensures f.Null? ==> p == SetTo(None)
    ensures f.Given? ==> p == SetTo(Some(f.value))
  {
    match f
    case Absent => Unset
    case Null => SetTo(None)
    case Given(v) => SetTo(Some(v))
  }

  /** The value a model holds for an optional field the client did not send. */
  function OrDefault<T>(p: Patch<Option<T>>): Option<T>
  {
    if p.SetTo? then p.value else None
  }

  // Contacts.

  /** The body of a contact request (the fields of ContactBase, in order). */
  datatype ContactBody = ContactBody(
    firstName: Raw<string>,
    lastName: Raw<string>,
    email: Raw<string>,
    phoneNumber: Raw<string>,
    birthday: Raw<Day>,
    additionalInfo: Raw<string>)

  /** ContactCreate: every field has a value (unsent optional fields hold None). */
  datatype ContactCreate = ContactCreate(
    firstName: string,
    lastName: string,
    email: string,
    phoneNumber: Option<string>,
    birthday: Option<Day>,
    additionalInfo: Option<string>)

  /** ContactUpdate: ContactBase again, so the three required fields are always
      set; only the optional ones can be left unset. */
  datatype ContactUpdate = ContactUpdate(
    firstName: string,
    lastName: string,
    email: string,
    phoneNumber: Patch<Option<string>>,
    birthday: Patch<Option<Day>>,
    additionalInfo: Patch<Option<string>>)

  /** The ContactBase rules, common to both request models. */
  predicate ContactBodyAcceptable(b: ContactBody)
  {
    && b.firstName.Given? && |b.firstName.value| <= NameMaxLength
    && b.lastName.Given? && |b.lastName.value| <= NameMaxLength
    && b.email.Given?
    && (b.phoneNumber.Given? ==> |b.phoneNumber.value| <= PhoneMaxLength)
  }

  function ValidateContactUpdate(b: ContactBody): (r: Result<ContactUpdate>)
    ensures r.Ok? <==> ContactBodyAcceptable(b)
    ensures r.Ok? ==> && r.value.firstName == b.firstName.value
                      && r.value.lastName == b.lastName.value
                      && r.value.email == b.email.value
    ensures r.Ok? ==> && (r.value.phoneNumber.Unset? <==> b.phoneNumber.Absent?)
                      && (r.value.birthday.Unset? <==> b.birthday.Absent?)
                      && (r.value.additionalInfo.Unset? <==> b.additionalInfo.Absent?)
    ensures r.Ok? && b.phoneNumber.Given? ==> r.value.phoneNumber == SetTo(Some(b.phoneNumber.value))
    ensures r.Ok? && b.birthday.Given? ==> r.value.birthday == SetTo(Some(b.birthday.value))
    ensures r.Ok? && b.additionalInfo.Given? ==> r.value.additionalInfo == SetTo(Some(b.additionalInfo.value))
    // An explicit null is kept by exclude_unset and clears the column.
    ensures r.Ok? && b.phoneNumber.Null? ==> r.value.phoneNumber == SetTo(None)
    ensures r.Ok? && b.birthday.Null? ==> r.value.birthday == SetTo(None)
    ensures r.Ok? && b.additionalInfo.Null? ==> r.value.additionalInfo == SetTo(None)
    ensures r.Err? ==> r.error.Status() == 422
  {
    var first := RequiredText(b.firstName, 0, NameMaxLength, "first_name");
    var last := RequiredText(b.lastName, 0, NameMaxLength, "last_name");
    var email := if b.email.Given? then Ok(b.email.value) else Err(Unprocessable("email"));
    var phone := NullableText(b.phoneNumber, PhoneMaxLength, "phone_number");
    if first.Err? then Err(first.error)
    else if last.Err? then Err(last.error)
    else if email.Err? then Err(email.error)
    else if phone.Err? then Err(phone.error)
    else Ok(ContactUpdate(first.value, last.value, email.value, phone.value, Nullable(b.birthday), Nullable(b.additionalInfo)))
  }

  function ValidateContactCreate(b: ContactBody): (r: Result<ContactCreate>)
    ensures r.Ok? <==> ContactBodyAcceptable(b)
    ensures r.Ok? ==> && r.value.firstName == b.firstName.value
                      && r.value.lastName == b.lastName.value
                      && r.value.email == b.email.value
    ensures r.Ok? ==> && r.value.phoneNumber == (if b.phoneNumber.Given? then Some(b.phoneNumber.value) else None)
                      && r.value.birthday == (if b.birthday.Given? then Some(b.birthday.value) else None)
                      && r.value.additionalInfo == (if b.additionalInfo.Given? then Some(b.additionalInfo.value) else None)
    ensures r.Err? ==> r.error.Status() == 422
  {
    var u := ValidateContactUpdate(b);
    if u.Err? then Err(u.error)
    else
      var v := u.value;
      Ok(ContactCreate(v.firstName, v.lastName, v.email,
                       OrDefault(v.phoneNumber), OrDefault(v.birthday), OrDefault(v.additionalInfo)))
  }

  // Users.

  datatype UserBody = UserBody(
    email: Raw<string>,
    firstName: Raw<string>,
    lastName: Raw<string>,
    password: Raw<string>)

  datatype UserCreate = UserCreate(email: string, firstName: string, lastName: string, password: string)

  function ValidateUserCreate(b: UserBody): (r: Result<UserCreate>)
    ensures r.Ok? <==> && b.email.Given?
                       && b.firstName.Given? && |b.firstName.value| <= NameMaxLength
                       && b.lastName.Given? && |b.lastName.value| <= NameMaxLength
                       && b.password.Given? && PasswordMinLength <= |b.password.value| <= PasswordMaxLength
    ensures r.Ok? ==> r.value == UserCreate(b.email.value, b.firstName.value, b.lastName.value, b.password.value)
    ensures r.Err? ==> r.error.Status() == 422
  {
    var first := RequiredText(b.firstName, 0, NameMaxLength, "first_name");
    var last := RequiredText(b.lastName, 0, NameMaxLength, "last_name");
    var password := RequiredText(b.password, PasswordMinLength, PasswordMaxLength, "password");
    if !b.email.Given? then Err(Unprocessable("email"))
    else if first.Err? then Err(first.error)
    else if last.Err? then Err(last.error)
    else if password.Err? then Err(password.error)
    else Ok(UserCreate(b.email.value, first.value, last.value, password.value))
  }

  // Password reset.

  datatype ResetBody = ResetBody(token: Raw<string>, newPassword: Raw<string>)

  datatype PasswordResetRequest = PasswordResetRequest(token: string, newPassword: string)

  function ValidatePasswordResetRequest(b: ResetBody): (r: Result<PasswordResetRequest>)
    ensures r.Ok? <==> b.token.Given? && b.newPassword.Given?
    ensures r.Ok? ==> r.value == PasswordResetRequest(b.token.value, b.newPassword.value)
    ensures b.token.Absent? ==> r == Err(Unprocessable("token"))
  {
    if !b.token.Given? then Err(Unprocessable("token"))
    else if !b.newPassword.Given? then Err(Unprocessable("new_password"))
    else Ok(PasswordResetRequest(b.token.value, b.newPassword.value))
  }

  // Responses.

  /** The Token response model. */
  datatype TokenResponse = TokenResponse(accessToken: Token, refreshToken: Token, tokenType: string)

  /** Builds a Token response; token_type defaults to "bearer" when not given. */
  function MakeTokenResponse(access: Token, refresh: Token, tokenType: Option<string>): (r: TokenResponse)
    ensures r.accessToken == access && r.refreshToken == refresh
    ensures tokenType.None? ==> r.tokenType == "bearer"
    ensures tokenType.Some? ==> r.tokenType == tokenType.value
  {
    TokenResponse(access, refresh, if tokenType.Some? then tokenType.value else "bearer")
  }
}
