/** The data-access helpers: contact queries and updates by id alone (no
    owner check), the birthday window query, user creation and the token
    columns of a user. */
module Crud {
  import opened Common
  import opened Passwords
  import opened Jwt
  import opened Models
  import opened Query
  import opened Schema
  import opened Store

  // Contacts.

  /** Contact_mod(**contact.model_dump(), owner_id=...) once SQLite has given it a rowid. */
  function NewContact(id: int, contact: ContactCreate, ownerId: Option<int>): Contact
  {
    Contact(id, contact.firstName, contact.lastName, contact.email,
            contact.phoneNumber, contact.birthday, contact.additionalInfo, ownerId)
  }

  /** get_contact_mod: the caller's contacts, and only those. */
  function GetContactMod(t: map<int, Contact>, currentUser: UserRow): (r: map<int, Contact>)
    ensures forall k :: k in r <==> k in t && t[k].ownerId == Some(currentUser.id)
    ensures forall k :: k in r ==> r[k] == t[k]
  {
    OwnedBy(t, currentUser.id)
  }

  /** get_contact_by_id: any owner's contact with that id. */
  function GetContactById(t: map<int, Contact>, contactId: int): (r: Option<Contact>)
    requires ContactsWellFormed(t)
    ensures r.Some? <==> contactId in t
    ensures r.Some? ==> r.value == t[contactId]
  {
    ContactById(t, contactId)
  }

  /** create_contact: inserts one row owned by ownerId; an email already in
      contacts_mod makes the commit fail and nothing is inserted. */
  method CreateContact(db: Db, contact: ContactCreate, ownerId: int) returns (r: Result<Contact>)
    requires db.Valid()
    modifies db
    ensures db.Valid() && db.OnlyContactsChanged()
    ensures r.Err? <==> ContactEmailTaken(old(db.contacts), contact.email, None)
    ensures r.Err? ==> r.error == IntegrityError && db.contacts == old(db.contacts)
    ensures r.Ok? ==> && r.value.id !in old(db.contacts)
                      && r.value == NewContact(r.value.id, contact, Some(ownerId))
                      && db.contacts == old(db.contacts)[r.value.id := r.value]
  {
    if ContactEmailTaken(db.contacts, contact.email, None) {
      return Err(IntegrityError);
    }
    var row := NewContact(NextRowId(db.contacts.Keys), contact, Some(ownerId));
    db.contacts := db.contacts[row.id := row];
    return Ok(row);
  }

  /** One `setattr(db_contact, key, value)`: a field name with its new value. */
  datatype ContactField =
    | FirstName(firstName: string)
    | LastName(lastName: string)
    | Email(email: string)
    | PhoneNumber(phoneNumber: Option<string>)
    | Birthday(birthday: Option<Day>)
    | AdditionalInfo(additionalInfo: Option<string>)

  function SetAttr(c: Contact, f: ContactField): Contact
  {
    match f
    case FirstName(v) => c.(firstName := v)
    case LastName(v) => c.(lastName := v)
    case Email(v) => c.(email := v)
    case PhoneNumber(v) => c.(phoneNumber := v)
    case Birthday(v) => c.(birthday := v)
    case AdditionalInfo(v) => c.(additionalInfo := v)
  }

  /** The optional part of a dump: nothing when the field was not sent. */
  function Sent<T>(p: Patch<T>, field: T -> ContactField): seq<ContactField>
  {
    if p.SetTo? then [field(p.value)] else []
  }

  /** update.model_dump(exclude_unset=True).items(), in field order: the three
      required fields always, the optional ones only when the client sent them. */
  function SetItems(update: ContactUpdate): (items: seq<ContactField>)
    ensures 3 <= |items| <= 6
  {
    [FirstName(update.firstName), LastName(update.lastName), Email(update.email)]
      + Sent(update.phoneNumber, (v: Option<string>) => PhoneNumber(v))
      + Sent(update.birthday, (v: Option<Day>) => Birthday(v))
      + Sent(update.additionalInfo, (v: Option<string>) => AdditionalInfo(v))
  }

  /** The items applied one after another, first item first. */
  function SetAll(c: Contact, items: seq<ContactField>): Contact
    decreases |items|
  {
    if items == [] then c else SetAll(SetAttr(c, items[0]), items[1..])
  }

  /** The row a partial update should produce: every field the client sent
      takes the sent value, every other field and the key and owner stay. */
  function Patched(c: Contact, update: ContactUpdate): Contact
  {
    Contact(
      c.id,
      update.firstName,
      update.lastName,
      update.email,
      if update.phoneNumber.SetTo? then update.phoneNumber.value else c.phoneNumber,
      if update.birthday.SetTo? then update.birthday.value else c.birthday,
      if update.additionalInfo.SetTo? then update.additionalInfo.value else c.additionalInfo,
      c.ownerId)
  }

  lemma {:induction false} SetAllAppend(c: Contact, a: seq<ContactField>, b: seq<ContactField>)
    ensures SetAll(c, a + b) == SetAll(SetAll(c, a), b)
    decreases |a|
  {
    if a != [] {
      assert (a + b)[0] == a[0] && (a + b)[1..] == a[1..] + b;
      SetAllAppend(SetAttr(c, a[0]), a[1..], b);
    } else {
      assert a + b == b;
    }
  }

  /** Applying the sent items one by one yields the reference update. */
  lemma SetAllOfSetItems(c: Contact, update: ContactUpdate)
    ensures SetAll(c, SetItems(update)) == Patched(c, update)
  {
    var required := [FirstName(update.firstName), LastName(update.lastName), Email(update.email)];
    var phone := Sent(update.phoneNumber, (v: Option<string>) => PhoneNumber(v));
    var birthday := Sent(update.birthday, (v: Option<Day>) => Birthday(v));
    var info := Sent(update.additionalInfo, (v: Option<string>) => AdditionalInfo(v));
    SetAllAppend(c, required, phone + birthday + info);
    assert required + phone + birthday + info == required + (phone + birthday + info);
    var c3 := SetAll(c, required);
    assert c3 == c.(firstName := update.firstName, lastName := update.lastName, email := update.email) by {
      var c1 := c.(firstName := update.firstName);
      var c2 := c1.(lastName := update.lastName);
      assert required[1..] == [LastName(update.lastName), Email(update.email)];
      assert required[1..][1..] == [Email(update.email)];
      assert SetAll(c, required) == SetAll(c1, required[1..]);
      assert SetAll(c1, required[1..]) == SetAll(c2, [Email(update.email)]);
      assert SetAll(c2, [Email(update.email)]) == SetAll(c2.(email := update.email), []);
    }
    SetAllAppend(c3, phone, birthday + info);
    assert phone + birthday + info == phone + (birthday + info);
    var c4 := SetAll(c3, phone);
    SetAllAppend(c4, birthday, info);
    var c5 := SetAll(c4, birthday);
    var c6 := SetAll(c5, info);
  }

  /** The setattr loop of a partial update, run over a copy of the row. */
  method SetFields(c: Contact, update: ContactUpdate) returns (r: Contact)
    ensures r == Patched(c, update)
  {
    var items := SetItems(update);
    r := c;
    for i := 0 to |items|
      invariant SetAll(r, items[i..]) == SetAll(c, items)
    {
      assert items[i..][0] == items[i] && items[i..][1..] == items[i + 1..];
      r := SetAttr(r, items[i]);
    }
    assert items[|items|..] == [];
    SetAllOfSetItems(c, update);
  }

  /** A partial update leaves the key and the owner alone. */
  lemma PatchKeepsIdentity(c: Contact, update: ContactUpdate)
    ensures Patched(c, update).id == c.id && Patched(c, update).ownerId == c.ownerId
  {
  }

  /** Sending the same update twice has the effect of sending it once. */
  lemma PatchIsIdempotent(c: Contact, update: ContactUpdate)
    ensures Patched(Patched(c, update), update) == Patched(c, update)
  {
  }

  /** update_contact: finds the row by id alone (any owner) and applies the sent
      fields; an unknown id answers None and changes nothing; an email another
      row holds makes the commit fail and nothing changes. */
  method UpdateContact(db: Db, contactId: int, update: ContactUpdate) returns (r: Result<Option<Contact>>)
    requires db.Valid()
    modifies db
    ensures db.Valid() && db.OnlyContactsChanged()
    ensures contactId !in old(db.contacts) ==> r == Ok(None) && db.contacts == old(db.contacts)
    ensures contactId in old(db.contacts) && ContactEmailTaken(old(db.contacts), update.email, Some(contactId)) ==>
              r == Err(IntegrityError) && db.contacts == old(db.contacts)
    ensures contactId in old(db.contacts) && !ContactEmailTaken(old(db.contacts), update.email, Some(contactId)) ==>
              var row := Patched(old(db.contacts)[contactId], update);
              r == Ok(Some(row)) && db.contacts == old(db.contacts)[contactId := row]
  {
    var found := GetContactById(db.contacts, contactId);
    if found.None? {
      return Ok(None);
    }
    var row := SetFields(found.value, update);
    if ContactEmailTaken(db.contacts, row.email, Some(contactId)) {
      return Err(IntegrityError);
    }
    db.contacts := db.contacts[contactId := row];
    return Ok(Some(row));
  }

  /** delete_contact: removes the row with that id whoever owns it, and
      returns it; an unknown id answers None and changes nothing. */
  method DeleteContact(db: Db, contactId: int) returns (r: Option<Contact>)
    requires db.Valid()
    modifies db
    ensures db.Valid() && db.OnlyContactsChanged()
    ensures r.Some? <==> contactId in old(db.contacts)
    ensures r.Some? ==> r.value == old(db.contacts)[contactId]
    ensures db.contacts == old(db.contacts) - {contactId}
  {
    r := GetContactById(db.contacts, contactId);
    if r.Some? {
      db.contacts := db.contacts - {contactId};
    }
  }

  /** `if owner_id:` — None and 0 are both falsy. */
  predicate Truthy(ownerId: Option<int>)
  {
    ownerId.Some? && ownerId.value != 0
  }

  /** get_upcoming_birthdays_mod: contacts whose stored birthday (a full date,
      birth year included) lies in [today, today + days], restricted to
      ownerId's rows only when ownerId is truthy. */
  function GetUpcomingBirthdaysMod(t: map<int, Contact>, days: int, ownerId: Option<int>, today: Day): (r: map<int, Contact>)
    ensures forall k :: k in r <==> && k in t
                                      && t[k].birthday.Some? && today <= t[k].birthday.value <= today + days
                                      && (Truthy(ownerId) ==> t[k].ownerId == ownerId)
    ensures forall k :: k in r ==> r[k] == t[k]
  {
    var upcoming := today + days;
    var window := Where(t, (c: Contact) => c.birthday.Some? && today <= c.birthday.value <= upcoming);
    if Truthy(ownerId) then Where(window, (c: Contact) => c.ownerId == ownerId) else window
  }

  // Users.

  /** get_user_by_email: reads the `users` table, not users_mod. */
  function GetUserByEmail(legacy: map<int, LegacyUser>, email: string): (r: Option<LegacyUser>)
    requires LegacyUsersWellFormed(legacy)
    ensures r.None? <==> forall k :: k in legacy ==> legacy[k].email != email
    ensures r.Some? ==> r.value.id in legacy && legacy[r.value.id] == r.value && r.value.email == email
  {
    LegacyUserByEmail(legacy, email)
  }

  /** The exception create_user raises whenever it fails (after rolling back). */
  const CreateUserFailed: Error := Uncaught("Failed to create user")

  /** The keyword arguments create_user passes to User_mod. */
  const CreateUserKeywordsAsWritten: set<string> := {"email", "hashed_password", "first_name", "last_name"}

  /** The same without last_name, which User_mod does not have. */
  const CreateUserKeywords: set<string> := {"email", "hashed_password", "first_name"}

  /** SQLAlchemy's declarative constructor raises TypeError for a keyword
      that is not an attribute of the class. */
  predicate UserModAccepts(keywords: set<string>)
  {
    keywords <= UserModAttributes
  }

  lemma CreateUserKeywordsChecked()
    ensures !UserModAccepts(CreateUserKeywordsAsWritten)
    ensures UserModAccepts(CreateUserKeywords)
  {
    assert "last_name" in CreateUserKeywordsAsWritten && "last_name" !in UserModAttributes;
  }

  /** The body of create_user, for a given set of constructor keywords: a
      rejected keyword or an email already in users_mod rolls back and raises
      "Failed to create user"; otherwise one row is inserted with the hash. */
  method InsertUser(db: Db, keywords: set<string>, user: UserCreate, salt: nat) returns (r: Result<UserRow>)
    requires db.Valid()
    requires keywords <= CreateUserKeywordsAsWritten
    modifies db
    ensures db.Valid() && db.OnlyUsersChanged()
    ensures r.Err? <==> !UserModAccepts(keywords) || exists k :: k in old(db.users) && old(db.users)[k].email == user.email
    ensures r.Err? ==> r.error == CreateUserFailed && db.users == old(db.users)
    ensures r.Ok? ==> && r.value.id !in old(db.users)
                      && r.value == NewUserRow(r.value.id, Some(user.firstName), user.email, Hash(user.password, salt))
                      && db.users == old(db.users)[r.value.id := r.value]
  {
    var hashed := Hash(user.password, salt);
    if !UserModAccepts(keywords) {
      return Err(CreateUserFailed);
    }
    if exists k :: k in db.users && db.users[k].email == user.email {
      return Err(CreateUserFailed);
    }
    var row := NewUserRow(NextRowId(db.users.Keys), Some(user.firstName), user.email, hashed);
    db.users := db.users[row.id := row];
    return Ok(row);
  }

  /** create_user as written: User_mod(..., last_name=...) always raises, so
      no user is ever created. */
  method CreateUserAsWritten(db: Db, user: UserCreate, salt: nat) returns (r: Result<UserRow>)
    requires db.Valid()
    modifies db
    ensures r == Err(CreateUserFailed)
    ensures db.users == old(db.users) && db.OnlyUsersChanged()
  {
    CreateUserKeywordsChecked();
    r := InsertUser(db, CreateUserKeywordsAsWritten, user, salt);
  }

  /** create_user without the last_name keyword: commits one new users_mod row
      holding the hash of the password, or rolls back leaving no row. */
  method CreateUser(db: Db, user: UserCreate, salt: nat) returns (r: Result<UserRow>)
    requires db.Valid()
    modifies db
    ensures db.Valid() && db.OnlyUsersChanged()
    ensures r.Err? <==> exists k :: k in old(db.users) && old(db.users)[k].email == user.email
    ensures r.Err? ==> r.error == CreateUserFailed && db.users == old(db.users)
    ensures r.Ok? ==> && r.value.id !in old(db.users)
                      && r.value == NewUserRow(r.value.id, Some(user.firstName), user.email, Hash(user.password, salt))
                      && db.users == old(db.users)[r.value.id := r.value]
  {
    CreateUserKeywordsChecked();
    r := InsertUser(db, CreateUserKeywords, user, salt);
  }

  /** update_token: overwrites the user's refresh_token (None clears it). */
  method UpdateToken(db: Db, userId: int, token: Option<Token>)
    requires db.Valid() && userId in db.users
    modifies db
    ensures db.Valid() && db.OnlyUsersChanged()
    ensures db.users == old(db.users)[userId := old(db.users)[userId].(refreshToken := token)]
  {
    db.users := db.users[userId := db.users[userId].(refreshToken := token)];
  }

  /** generate_email_token: only a subject, no expiry, so it decodes to the
      same claims at every instant. */
  function GenerateEmailToken(email: string): (t: Token)
    ensures forall now :: Decode(t, now) == Payload(map["sub" := Str(email)])
  {
    Encode(map["sub" := Str(email)])
  }
}
