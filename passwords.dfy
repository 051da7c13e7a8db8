/** Password hashing (passlib's bcrypt context and bcrypt.hashpw in the source).
    bcrypt itself is replaced by a stand-in that keeps what the rest of the
    system relies on: a hash carries a salt, and verifying a plaintext against
    a hash succeeds exactly for the plaintext it was made from. A stored value
    that is not a bcrypt hash makes passlib raise, which the source turns into
    an exception of its own. */
module Passwords {
  import opened Common

  datatype PasswordHash =
    | Bcrypt(salt: nat, secret: string)
    | Unrecognized(text: string)

  /** hash_password / hash_password_bcrypt / pwd_context.hash: the salt is the
      random part, so it is a parameter. */
  function Hash(password: string, salt: nat): (h: PasswordHash)
    ensures h.Bcrypt?
    ensures forall other :: VerifyPasswordMod(other, h) == Ok(other == password)
  {
    Bcrypt(salt, password)
  }

  /** verify_password_mod: passlib's verify, whose failure on an unidentifiable
      hash is re-raised as a plain Exception (status 500 when it escapes). */
  function VerifyPasswordMod(plain: string, hashed: PasswordHash): (r: Result<bool>)
    ensures r.Err? <==> hashed.Unrecognized?
    ensures r.Ok? ==> (r.value <==> hashed.secret == plain)
  {
    match hashed
    case Bcrypt(_, secret) => Ok(secret == plain)
    case Unrecognized(_) => Err(Uncaught("Error verifying password: hash could not be identified"))
  }

  /** Two hashes of one password under different salts differ, yet both verify. */
  lemma SaltedHashesDifferButVerify(password: string, salt1: nat, salt2: nat)
    requires salt1 != salt2
    ensures Hash(password, salt1) != Hash(password, salt2)
    ensures VerifyPasswordMod(password, Hash(password, salt1)) == Ok(true)
    ensures VerifyPasswordMod(password, Hash(password, salt2)) == Ok(true)
  {
  }
}
