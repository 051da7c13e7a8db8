/** The ORM queries the handlers issue, over tables held as maps keyed by
    primary key. SQLite answers `.filter(...).all()` with every matching row,
    `.filter(...).first()` with the matching row of lowest rowid (no ORDER BY
    is ever given), and gives a new row the rowid one above the largest in
    use. `ilike` is SQLite's LIKE, which folds ASCII letters only. */
module Query {
  import opened Common
  import opened Models

  /** The least element of a finite non-empty set. */
  function MinOf(s: set<int>): (m: int)
    requires s != {}
    ensures m in s && forall k :: k in s ==> m <= k
  {
    MinExists(s);
    var m :| m in s && forall k :: k in s ==> m <= k; m
  }

  /** A non-empty set has an element. */
  lemma NonEmptyHasElement(s: set<int>)
    requires s != {}
    ensures exists x :: x in s
  {
    if forall x :: x !in s {
      assert false;
    }
  }

  lemma {:induction false} MinExists(s: set<int>)
    requires s != {}
    ensures exists m :: m in s && forall k :: k in s ==> m <= k
  {
    NonEmptyHasElement(s);
    var x :| x in s;
    if s != {x} {
      NonEmptyHasElement(s - {x});
      MinExists(s - {x});
      var m :| m in s - {x} && forall k :: k in s - {x} ==> m <= k;
      var least := if x < m then x else m;
      forall k | k in s ensures least <= k {
        if k != x { assert k in s - {x}; }
      }
    } else {
      forall k | k in s ensures x <= k { }
    }
  }

  /** The greatest element of a finite non-empty set. */
  function MaxOf(s: set<int>): (m: int)
    requires s != {}
    ensures m in s && forall k :: k in s ==> k <= m
  {
    MaxExists(s);
    var m :| m in s && forall k :: k in s ==> k <= m; m
  }

  lemma {:induction false} MaxExists(s: set<int>)
    requires s != {}
    ensures exists m :: m in s && forall k :: k in s ==> k <= m
  {
    NonEmptyHasElement(s);
    var x :| x in s;
    if s != {x} {
      NonEmptyHasElement(s - {x});
      MaxExists(s - {x});
      var m :| m in s - {x} && forall k :: k in s - {x} ==> k <= m;
      var greatest := if m < x then x else m;
      forall k | k in s ensures k <= greatest {
        if k != x { assert k in s - {x}; }
      }
    } else {
      forall k | k in s ensures k <= x { }
    }
  }

  /** The primary key SQLite gives a new row: one above the largest in use,
      or 1 in an empty table. */
  function NextRowId(keys: set<int>): (r: int)
    ensures r !in keys
    ensures forall k :: k in keys ==> k < r
    ensures keys == {} ==> r == 1
  {
    if keys == {} then 1 else MaxOf(keys) + 1
  }

  /** `.filter(p).all()`: every row satisfying p, unchanged. */
  function Where<T>(t: map<int, T>, p: T -> bool): (r: map<int, T>)
    ensures forall k :: k in r <==> k in t && p(t[k])
    ensures forall k :: k in r ==> r[k] == t[k]
  {
    map k | k in t && p(t[k]) :: t[k]
  }

  /** `.filter(p).first()`: the matching row of lowest key, if any. */
  function First<T>(t: map<int, T>, p: T -> bool): (r: Option<T>)
    ensures r.None? <==> forall k :: k in t ==> !p(t[k])
    ensures r.Some? ==> exists k :: k in t && t[k] == r.value && p(r.value) && forall j :: j in t && p(t[j]) ==> k <= j
  {
    var keys := Where(t, p).Keys;
    if keys == {} then None else Some(t[MinOf(keys)])
  }

  /** When exactly one key matches, `.first()` is that row. */
  lemma {:induction false} FirstOfUnique<T>(t: map<int, T>, p: T -> bool, k: int)
    requires k in t && p(t[k])
    requires forall j :: j in t && p(t[j]) ==> j == k
    ensures First(t, p) == Some(t[k])
  {
    var r := First(t, p);
    assert r.Some?;
    var k' :| k' in t && t[k'] == r.value && p(r.value) && forall j :: j in t && p(t[j]) ==> k' <= j;
    assert k' == k;
  }

  // Table-specific queries.

  /** db.query(Contact_mod).filter(Contact_mod.owner_id == owner) */
  function OwnedBy(t: map<int, Contact>, owner: int): (r: map<int, Contact>)
    ensures forall k :: k in r <==> k in t && t[k].ownerId == Some(owner)
    ensures forall k :: k in r ==> r[k] == t[k]
  {
    Where(t, (c: Contact) => c.ownerId == Some(owner))
  }

  /** db.query(Contact_mod).filter(Contact_mod.id == id, Contact_mod.owner_id == owner).first() */
  function OwnedContact(t: map<int, Contact>, id: int, owner: int): (r: Option<Contact>)
    requires ContactsWellFormed(t)
    ensures r.Some? <==> id in t && t[id].ownerId == Some(owner)
    ensures r.Some? ==> r.value == t[id]
  {
    var p := (c: Contact) => c.id == id && c.ownerId == Some(owner);
    if id in t && p(t[id]) then FirstOfUnique(t, p, id); First(t, p) else First(t, p)
  }

  /** db.query(Contact_mod).filter(Contact_mod.id == id).first() */
  function ContactById(t: map<int, Contact>, id: int): (r: Option<Contact>)
    requires ContactsWellFormed(t)
    ensures r.Some? <==> id in t
    ensures r.Some? ==> r.value == t[id]
  {
    var p := (c: Contact) => c.id == id;
    if id in t then FirstOfUnique(t, p, id); First(t, p) else First(t, p)
  }

  /** Whether some contact row already holds this email. */
  predicate ContactEmailTaken(t: map<int, Contact>, email: string, except: Option<int>)
  {
    exists k :: k in t && t[k].email == email && Some(k) != except
  }

  /** db.query(User_mod).filter(User_mod.email == email).first() */
  function UserByEmail(t: map<int, UserRow>, email: string): (r: Option<UserRow>)
    requires UsersWellFormed(t)
    ensures r.None? <==> forall k :: k in t ==> t[k].email != email
    ensures r.Some? ==> r.value.id in t && t[r.value.id] == r.value && r.value.email == email
  {
    First(t, (u: UserRow) => u.email == email)
  }

  /** db.query(User_mod).filter(User_mod.id == id).first() */
  function UserById(t: map<int, UserRow>, id: int): (r: Option<UserRow>)
    requires UsersWellFormed(t)
    ensures r.Some? <==> id in t
    ensures r.Some? ==> r.value == t[id]
  {
    var p := (u: UserRow) => u.id == id;
    if id in t then FirstOfUnique(t, p, id); First(t, p) else First(t, p)
  }

  /** db.query(User_mod).filter(User_mod.first_name == name).first():
      first_name is neither unique nor indexed, so this is the lowest id. */
  function UserByFirstName(t: map<int, UserRow>, name: string): (r: Option<UserRow>)
    requires UsersWellFormed(t)
    ensures r.None? <==> forall k :: k in t ==> t[k].firstName != Some(name)
    ensures r.Some? ==> r.value.id in t && t[r.value.id] == r.value && r.value.firstName == Some(name)
    ensures r.Some? ==> forall k :: k in t && t[k].firstName == Some(name) ==> r.value.id <= k
  {
    First(t, (u: UserRow) => u.firstName == Some(name))
  }

  /** db.query(User).filter(User.email == email).first(), on the `users` table. */
  function LegacyUserByEmail(t: map<int, LegacyUser>, email: string): (r: Option<LegacyUser>)
    requires LegacyUsersWellFormed(t)
    ensures r.None? <==> forall k :: k in t ==> t[k].email != email
    ensures r.Some? ==> r.value.id in t && t[r.value.id] == r.value && r.value.email == email
  {
    First(t, (u: LegacyUser) => u.email == email)
  }

  /** db.query(PasswordResetToken).filter(PasswordResetToken.token == token).first() */
  function ResetTokenByValue(t: map<int, ResetToken>, token: string): (r: Option<ResetToken>)
    requires ResetTokensWellFormed(t)
    ensures r.None? <==> forall k :: k in t ==> t[k].token != token
    ensures r.Some? ==> r.value.id in t && t[r.value.id] == r.value && r.value.token == token
  {
    First(t, (row: ResetToken) => row.token == token)
  }

  // SQLite's case-insensitive LIKE '%needle%'.

  function LowerChar(c: char): (d: char)
  {
    if 'A' <= c <= 'Z' then (c as int + 32) as char else c
  }

  /** lower() as SQLite applies it: ASCII letters only. */
  function Lower(s: string): (r: string)
    ensures |r| == |s|
    ensures forall i :: 0 <= i < |s| ==> r[i] == LowerChar(s[i])
  {
    if s == [] then [] else [LowerChar(s[0])] + Lower(s[1..])
  }

  /** needle occurs in haystack starting at index i */
  predicate OccursAt(haystack: string, needle: string, i: int)
  {
    0 <= i <= |haystack| - |needle| && haystack[i..i + |needle|] == needle
  }

  predicate Contains(haystack: string, needle: string)
  {
    exists i :: 0 <= i <= |haystack| - |needle| && OccursAt(haystack, needle, i)
  }

  /** column.ilike(f"%{needle}%") */
  predicate ILikeContains(value: string, needle: string)
  {
    Contains(Lower(value), Lower(needle))
  }
}
