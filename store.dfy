/** The database session every handler receives: the four tables, updated in
    place. A handler's commit is the end of its method; a rolled-back
    transaction is a method that leaves every table as it found it. */
module Store {
  import opened Models

  class Db {
    /** users_mod */
    var users: map<int, UserRow>
    /** users (class User), which only registration and /refresh-token read */
    var legacyUsers: map<int, LegacyUser>
    /** contacts_mod */
    var contacts: map<int, Contact>
    /** password_reset_tokens */
    var resetTokens: map<int, ResetToken>

    /** The constraints SQLite enforces: primary keys and UNIQUE columns. */
    ghost predicate Valid()
      reads this
    {
      && UsersWellFormed(users)
      && LegacyUsersWellFormed(legacyUsers)
      && ContactsWellFormed(contacts)
      && ResetTokensWellFormed(resetTokens)
    }

    /** An empty database (Base.metadata.create_all on a fresh file). */
    constructor ()
      ensures Valid()
      ensures users == map[] && legacyUsers == map[] && contacts == map[] && resetTokens == map[]
    {
      users := map[];
      legacyUsers := map[];
      contacts := map[];
      resetTokens := map[];
    }

    /** Only contacts_mod may have changed. */
    twostate predicate OnlyContactsChanged()
      reads this
    {
      users == old(users) && legacyUsers == old(legacyUsers) && resetTokens == old(resetTokens)
    }

    /** Only users_mod may have changed. */
    twostate predicate OnlyUsersChanged()
      reads this
    {
      legacyUsers == old(legacyUsers) && contacts == old(contacts) && resetTokens == old(resetTokens)
    }

    /** Only users_mod and password_reset_tokens may have changed. */
    twostate predicate OnlyUsersAndTokensChanged()
      reads this
    {
      legacyUsers == old(legacyUsers) && contacts == old(contacts)
    }
  }
}
