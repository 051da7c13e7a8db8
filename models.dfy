/** The rows of the three tables the handlers use (users_mod, contacts_mod,
    password_reset_tokens) and of the separate `users` table that the
    registration duplicate check queries, with the invariants the schema
    declares (primary keys, uniqueness, nullability, defaults).
    A column the handlers can leave NULL is an Option; a NOT NULL column, and
    a nullable one that no handler leaves NULL (password_reset_tokens.user_id
    and token, users_mod.confirmed and is_active, which have defaults), is a
    plain value. The
    database is SQLite, which enforces neither VARCHAR lengths nor foreign
    keys, so neither is a table invariant here. */
module Models {
  import opened Common
  import opened Passwords
  import opened Jwt

  /** A row of contacts_mod. */
  datatype Contact = Contact(
    id: int,
    firstName: string,
    lastName: string,
    email: string,
    phoneNumber: Option<string>,
    birthday: Option<Day>,
    additionalInfo: Option<string>,
    ownerId: Option<int>)

  /** A row of users_mod. */
  datatype UserRow = UserRow(
    id: int,
    firstName: Option<string>,
    email: string,
    hashedPassword: PasswordHash,
    avatar: Option<string>,
    accessToken: Option<Token>,
    refreshToken: Option<Token>,
    confirmed: bool,
    isActive: bool)

  /** A row of the `users` table (class User). */
  datatype LegacyUser = LegacyUser(
    id: int,
    email: string,
    hashedPassword: PasswordHash,
    firstName: Option<string>,
    lastName: Option<string>)

  /** A row of password_reset_tokens. expired_at is nullable. */
  datatype ResetToken = ResetToken(
    id: int,
    userId: int,
    token: string,
    expiredAt: Option<Instant>)

  /** The attribute names of class User_mod: its columns and its two
      relationships. SQLAlchemy's declarative constructor accepts a keyword
      argument only if the class has an attribute of that name. */
  const UserModAttributes: set<string> := {
    "id", "first_name", "email", "hashed_password", "created_at", "updated_at",
    "avatar", "access_token", "refresh_token", "confirmed", "is_active",
    "expired_at", "contacts_mod", "password_reset_tokens"}

  /** A new users_mod row: the columns a caller does not give take their
      defaults (confirmed and is_active False, everything nullable NULL). */
  function NewUserRow(id: int, firstName: Option<string>, email: string, hashed: PasswordHash): (u: UserRow)
    ensures u.id == id && u.email == email && u.firstName == firstName && u.hashedPassword == hashed
    ensures !u.confirmed && !u.isActive
    ensures u.avatar.None? && u.accessToken.None? && u.refreshToken.None?
  {
    UserRow(id, firstName, email, hashed, None, None, None, false, false)
  }

  /** A new password_reset_tokens row: expired_at defaults to the instant the
      row is created (datetime.utcnow). */
  function NewResetToken(id: int, userId: int, token: string, expiredAt: Option<Instant>, now: Instant): (t: ResetToken)
    ensures t.id == id && t.userId == userId && t.token == token
    ensures t.expiredAt.Some?
    ensures t.expiredAt.value == (if expiredAt.Some? then expiredAt.value else now)
  {
    ResetToken(id, userId, token, Some(if expiredAt.Some? then expiredAt.value else now))
  }

  // Table invariants. Every table is keyed by its primary key.

  /** contacts_mod: email is UNIQUE. */
  ghost predicate ContactsWellFormed(t: map<int, Contact>)
  {
    && (forall k :: k in t ==> t[k].id == k)
    && (forall i, j :: i in t && j in t && t[i].email == t[j].email ==> i == j)
  }

  /** users_mod: email is UNIQUE. */
  ghost predicate UsersWellFormed(t: map<int, UserRow>)
  {
    && (forall k :: k in t ==> t[k].id == k)
    && (forall i, j :: i in t && j in t && t[i].email == t[j].email ==> i == j)
  }

  /** users: email is UNIQUE. */
  ghost predicate LegacyUsersWellFormed(t: map<int, LegacyUser>)
  {
    && (forall k :: k in t ==> t[k].id == k)
    && (forall i, j :: i in t && j in t && t[i].email == t[j].email ==> i == j)
  }

  /** password_reset_tokens: token is UNIQUE. */
  ghost predicate ResetTokensWellFormed(t: map<int, ResetToken>)
  {
    && (forall k :: k in t ==> t[k].id == k)
    && (forall i, j :: i in t && j in t && t[i].token == t[j].token ==> i == j)
  }
}
