/** The contact endpoints. Every one of them is scoped to the calling user
    (the row the guard resolved): a caller sees, changes and deletes only rows
    whose owner_id is its own id. Listing is Crud.GetContactMod and the
    single-contact lookup is Dependencies.GetContact, which issue the same
    queries as the route bodies. */
module ContactRoutes {
  import opened Common
  import opened Models
  import opened Query
  import opened Schema
  import opened Store
  import opened Crud
  import opened Dependencies

  /** No other owner's view of the table has changed. */
  ghost predicate OthersUntouched(before: map<int, Contact>, after: map<int, Contact>, owner: int)
  {
    forall other :: other != owner ==> OwnedBy(after, other) == OwnedBy(before, other)
  }

  /** A change confined to one owner's rows leaves every other owner's rows as they were. */
  lemma OwnedByUnaffected(before: map<int, Contact>, after: map<int, Contact>, owner: int)
    requires forall k :: k in before && before[k].ownerId != Some(owner) ==> k in after && after[k] == before[k]
    requires forall k :: k in after && after[k].ownerId != Some(owner) ==> k in before && before[k] == after[k]
    ensures OthersUntouched(before, after, owner)
  {
    forall other | other != owner
      ensures OwnedBy(after, other) == OwnedBy(before, other)
    {
      var a := OwnedBy(after, other);
      var b := OwnedBy(before, other);
      assert forall k :: k in a <==> k in b;
      assert forall k :: k in a ==> a[k] == b[k];
      assert a == b;
    }
  }

  /** The single-contact lookup and the listing agree. */
  lemma GetAgreesWithList(t: map<int, Contact>, contactId: int, currentUser: UserRow)
    requires ContactsWellFormed(t)
    ensures GetContact(t, contactId, currentUser).Ok? <==> contactId in GetContactMod(t, currentUser)
    ensures GetContact(t, contactId, currentUser).Ok? ==>
              GetContact(t, contactId, currentUser).value == GetContactMod(t, currentUser)[contactId]
  {
  }

  /** create_contact: the new row belongs to the caller; nothing else changes. */
  method CreateContact(db: Db, contact: ContactCreate, currentUser: UserRow) returns (r: Result<Contact>)
    requires db.Valid()
    modifies db
    ensures db.Valid() && db.OnlyContactsChanged()
    ensures r.Err? <==> ContactEmailTaken(old(db.contacts), contact.email, None)
    ensures r.Err? ==> r.error == IntegrityError && db.contacts == old(db.contacts)
    ensures r.Ok? ==> && r.value.ownerId == Some(currentUser.id)
                      && r.value == NewContact(r.value.id, contact, Some(currentUser.id))
                      && r.value.id !in old(db.contacts)
                      && db.contacts == old(db.contacts)[r.value.id := r.value]
    ensures OthersUntouched(old(db.contacts), db.contacts, currentUser.id)
  {
    r := Crud.CreateContact(db, contact, currentUser.id);
    OwnedByUnaffected(old(db.contacts), db.contacts, currentUser.id);
  }

  /** update_contact: 404 unless the caller owns the row; otherwise exactly
      the sent fields of that one row change (or the commit fails on a
      duplicate email and nothing changes). */
  method UpdateContact(db: Db, contactId: int, update: ContactUpdate, currentUser: UserRow) returns (r: Result<Contact>)
    requires db.Valid()
    modifies db
    ensures db.Valid() && db.OnlyContactsChanged()
    ensures r == Err(ContactNotFound) <==> !(contactId in old(db.contacts) && old(db.contacts)[contactId].ownerId == Some(currentUser.id))
    ensures r.Err? ==> db.contacts == old(db.contacts)
    ensures r.Err? ==> r.error in {ContactNotFound, IntegrityError}
    ensures r == Err(IntegrityError) <==> && contactId in old(db.contacts)
                                          && old(db.contacts)[contactId].ownerId == Some(currentUser.id)
                                          && ContactEmailTaken(old(db.contacts), update.email, Some(contactId))
    ensures r.Ok? ==> && contactId in old(db.contacts)
                      && r.value == Patched(old(db.contacts)[contactId], update)
                      && db.contacts == old(db.contacts)[contactId := r.value]
    ensures OthersUntouched(old(db.contacts), db.contacts, currentUser.id)
  {
    var found := GetContact(db.contacts, contactId, currentUser);
    if found.Err? {
      OwnedByUnaffected(db.contacts, db.contacts, currentUser.id);
      return found;
    }
    var row := SetFields(found.value, update);
    if ContactEmailTaken(db.contacts, row.email, Some(contactId)) {
      OwnedByUnaffected(db.contacts, db.contacts, currentUser.id);
      return Err(IntegrityError);
    }
    db.contacts := db.contacts[contactId := row];
    OwnedByUnaffected(old(db.contacts), db.contacts, currentUser.id);
    return Ok(row);
  }

  /** delete_contact: 404 unless the caller owns the row; otherwise exactly
      that row is removed and returned, after which it is not found again. */
  method DeleteContact(db: Db, contactId: int, currentUser: UserRow) returns (r: Result<Contact>)
    requires db.Valid()
    modifies db
    ensures db.Valid() && db.OnlyContactsChanged()
    ensures r.Ok? <==> contactId in old(db.contacts) && old(db.contacts)[contactId].ownerId == Some(currentUser.id)
    ensures r.Err? ==> r.error == ContactNotFound && db.contacts == old(db.contacts)
    ensures r.Ok? ==> r.value == old(db.contacts)[contactId] && db.contacts == old(db.contacts) - {contactId}
    ensures GetContact(db.contacts, contactId, currentUser) == Err(ContactNotFound)
    ensures OthersUntouched(old(db.contacts), db.contacts, currentUser.id)
  {
    r := GetContact(db.contacts, contactId, currentUser);
    if r.Ok? {
      db.contacts := db.contacts - {contactId};
    }
    OwnedByUnaffected(old(db.contacts), db.contacts, currentUser.id);
  }

  // Search.

  const NameFilterMaxLength: nat := 50
  const EmailFilterMaxLength: nat := 100

  /** A query parameter longer than `Query(max_length=...)` allows. */
  predicate TooLong(filter: Option<string>, maxLength: nat)
  {
    filter.Some? && |filter.value| > maxLength
  }

  /** `if filter:` — a missing or empty filter is not applied. */
  predicate Applied(filter: Option<string>)
  {
    filter.Some? && filter.value != ""
  }

  /** One field's condition: passes when the filter is not applied, else a
      case-insensitive substring match. */
  predicate Matches(value: string, filter: Option<string>)
  {
    Applied(filter) ==> ILikeContains(value, filter.value)
  }

  function Narrow(rows: map<int, Contact>, filter: Option<string>, field: Contact -> string): (r: map<int, Contact>)
    ensures forall k :: k in r <==> k in rows && Matches(field(rows[k]), filter)
    ensures forall k :: k in r ==> r[k] == rows[k]
  {
    if Applied(filter) then Where(rows, (c: Contact) => ILikeContains(field(c), filter.value)) else rows
  }

  /** search_contacts: the caller's contacts matching every applied filter. */
  function SearchContacts(t: map<int, Contact>, currentUser: UserRow,
                          firstName: Option<string>, lastName: Option<string>, email: Option<string>): (r: Result<map<int, Contact>>)
    ensures r.Err? <==> TooLong(firstName, NameFilterMaxLength) || TooLong(lastName, NameFilterMaxLength)
                        || TooLong(email, EmailFilterMaxLength)
    ensures r.Err? ==> r.error.Status() == 422
    ensures r.Ok? ==> forall k :: k in r.value <==> && k in t && t[k].ownerId == Some(currentUser.id)
                                                    && Matches(t[k].firstName, firstName)
                                                    && Matches(t[k].lastName, lastName)
                                                    && Matches(t[k].email, email)
    ensures r.Ok? ==> forall k :: k in r.value ==> r.value[k] == t[k]
  {
    if TooLong(firstName, NameFilterMaxLength) then Err(Http(422, "first_name"))
    else if TooLong(lastName, NameFilterMaxLength) then Err(Http(422, "last_name"))
    else if TooLong(email, EmailFilterMaxLength) then Err(Http(422, "email"))
    else
      var owned := OwnedBy(t, currentUser.id);
      var byFirst := Narrow(owned, firstName, (c: Contact) => c.firstName);
      var byLast := Narrow(byFirst, lastName, (c: Contact) => c.lastName);
      Ok(Narrow(byLast, email, (c: Contact) => c.email))
  }

  /** With no filter applied (each absent or empty), search is the caller's listing. */
  lemma SearchWithoutFiltersLists(t: map<int, Contact>, currentUser: UserRow,
                                  firstName: Option<string>, lastName: Option<string>, email: Option<string>)
    requires !Applied(firstName) && !Applied(lastName) && !Applied(email)
    ensures SearchContacts(t, currentUser, firstName, lastName, email) == Ok(GetContactMod(t, currentUser))
  {
    var r := SearchContacts(t, currentUser, firstName, lastName, email).value;
    assert r.Keys == GetContactMod(t, currentUser).Keys;
  }

  /** ASCII case folding is idempotent, so folding the needle first changes nothing. */
  lemma {:induction false} LowerIsIdempotent(s: string)
    ensures Lower(Lower(s)) == Lower(s)
  {
    if s != [] {
      LowerIsIdempotent(s[1..]);
      assert Lower(s)[1..] == Lower(s[1..]);
    }
  }

  lemma CaseOfTheFilterIsIrrelevant(value: string, needle: string)
    ensures ILikeContains(value, needle) <==> ILikeContains(value, Lower(needle))
  {
    LowerIsIdempotent(needle);
  }

  /** An upper-case filter finds a mixed-case name. */
  lemma SearchIgnoresCase()
    ensures ILikeContains("Alice", "LIC")
  {
    assert Lower("Alice") == "alice";
    assert Lower("LIC") == "lic";
    assert OccursAt("alice", "lic", 1);
  }

  // Upcoming birthdays.

  const DefaultBirthdayWindow: int := 7
  const NoUpcomingBirthdays: Error := Http(404, "No contacts found with upcoming birthdays")

  /** get_upcoming_birthdays: `days` defaults to 7 and must lie in 1..365; an
      empty answer is a 404. The helper is given the caller's id, so the owner
      filter is dropped when that id is 0. */
  function GetUpcomingBirthdays(t: map<int, Contact>, days: Option<int>, currentUser: UserRow, today: Day): (r: Result<map<int, Contact>>)
    ensures var d := if days.Some? then days.value else DefaultBirthdayWindow;
            r.Err? && r.error.Status() == 422 <==> !(1 <= d <= 365)
    ensures r.Err? ==> r.error.Status() == 422 || r.error == NoUpcomingBirthdays
    ensures r.Ok? ==> r.value != map[]
    ensures r.Ok? ==> var d := if days.Some? then days.value else DefaultBirthdayWindow;
                      forall k :: k in r.value <==> && k in t && t[k].birthday.Some?
                                                    && today <= t[k].birthday.value <= today + d
                                                    && (currentUser.id != 0 ==> t[k].ownerId == Some(currentUser.id))
    ensures r.Ok? ==> forall k :: k in r.value ==> r.value[k] == t[k]
    ensures var d := if days.Some? then days.value else DefaultBirthdayWindow;
            r.Ok? <==> && 1 <= d <= 365
                       && exists k :: && k in t && t[k].birthday.Some?
                                      && today <= t[k].birthday.value <= today + d
                                      && (currentUser.id != 0 ==> t[k].ownerId == Some(currentUser.id))
    ensures var d := if days.Some? then days.value else DefaultBirthdayWindow;
            1 <= d <= 365 && GetUpcomingBirthdaysMod(t, d, Some(currentUser.id), today) != map[] ==>
              r == Ok(GetUpcomingBirthdaysMod(t, d, Some(currentUser.id), today))
  {
    var d := if days.Some? then days.value else DefaultBirthdayWindow;
    if !(1 <= d <= 365) then Err(Http(422, "days"))
    else
      var found := GetUpcomingBirthdaysMod(t, d, Some(currentUser.id), today);
      if found == map[] then Err(NoUpcomingBirthdays)
      else
        NonEmptyHasElement(found.Keys);
        var k :| k in found;
        assert k in t && t[k].birthday.Some? && today <= t[k].birthday.value <= today + d;
        Ok(found)
  }

  /** The window compares whole dates: a contact whose stored birth date is
      in the past (every real one) is never listed. */
  lemma BirthYearCounts(t: map<int, Contact>, days: Option<int>, currentUser: UserRow, today: Day, k: int)
    requires k in t && t[k].birthday.Some? && t[k].birthday.value < today
    ensures GetUpcomingBirthdays(t, days, currentUser, today).Ok? ==> k !in GetUpcomingBirthdays(t, days, currentUser, today).value
  {
  }

  /** A caller whose id is 0 is shown other owners' birthdays. */
  lemma ZeroIdSeesEveryOwner(t: map<int, Contact>, currentUser: UserRow, today: Day, k: int)
    requires currentUser.id == 0
    requires k in t && t[k].birthday == Some(today) && t[k].ownerId != Some(0)
    ensures GetUpcomingBirthdays(t, None, currentUser, today).Ok?
    ensures k in GetUpcomingBirthdays(t, None, currentUser, today).value
  {
    var found := GetUpcomingBirthdaysMod(t, DefaultBirthdayWindow, Some(currentUser.id), today);
    assert k in found;
  }
}
