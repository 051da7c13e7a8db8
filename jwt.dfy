/** Signed claim sets (JSON Web Tokens, RFC 7519) as python-jose handles them.
    Signing is abstract: a token is either one this service signed with its
    key, holding the claims it was given, or anything else a client presents.
    Decoding reports the three outcomes the handlers distinguish. */
module Jwt {
  import opened Common

  /** A claim value: a string, a number (NumericDate seconds for iat and exp,
      section 4.1.4 of RFC 7519), or JSON null. */
  datatype Claim = Str(text: string) | Num(n: int) | Null

  type Claims = map<string, Claim>

  datatype Token =
    | Signed(claims: Claims)
    | Forged(text: string)

  datatype Decoded = Payload(claims: Claims) | Expired | Invalid

  /** jwt.encode with the service's key and algorithm. */
  function Encode(claims: Claims): (t: Token)
    ensures t.Signed? && t.claims == claims
  {
    Signed(claims)
  }

  /** The claim types python-jose checks while decoding: iat and exp must be
      numbers, sub must be a string, whenever present. */
  predicate TimesWellTyped(c: Claims)
  {
    && ("iat" in c ==> c["iat"].Num?)
    && ("exp" in c ==> c["exp"].Num?)
  }

  predicate WellTyped(c: Claims)
  {
    TimesWellTyped(c) && ("sub" in c ==> c["sub"].Str?)
  }

  /** The token has not expired at `now`: python-jose rejects only exp < now. */
  predicate Fresh(c: Claims, now: Instant)
    requires TimesWellTyped(c)
  {
    "exp" in c ==> now <= c["exp"].n
  }

  /** jwt.decode: signature first (a forged token is invalid), then the claim
      checks in python-jose's order (iat, exp, sub); an exp in the past is
      reported apart from every other failure. */
  function Decode(t: Token, now: Instant): (r: Decoded)
    ensures r.Payload? <==> t.Signed? && WellTyped(t.claims) && Fresh(t.claims, now)
    ensures r.Payload? ==> r.claims == t.claims
    ensures r.Expired? <==> t.Signed? && TimesWellTyped(t.claims) && !Fresh(t.claims, now)
  {
    match t
    case Forged(_) => Invalid
    case Signed(c) =>
      if "iat" in c && !c["iat"].Num? then Invalid
      else if "exp" in c && !c["exp"].Num? then Invalid
      else if "exp" in c && c["exp"].n < now then Expired
      else if "sub" in c && !c["sub"].Str? then Invalid
      else Payload(c)
  }

  /** The claims carry this scope (payload["scope"] == scope). */
  predicate ScopeIs(c: Claims, scope: string)
  {
    "scope" in c && c["scope"] == Str(scope)
  }

  /** `payload.get("sub")`: the subject of decoded claims, or None when the
      claim is absent. */
  function Subject(c: Claims): (s: Option<string>)
    requires WellTyped(c)
    ensures s.Some? <==> "sub" in c
    ensures s.Some? ==> c["sub"] == Str(s.value)
  {
    if "sub" in c then Some(c["sub"].text) else None
  }

  /** Encoding then decoding gives back the claims until they expire, and
      reports expiry (never invalidity) afterwards. */
  lemma {:induction false} EncodeDecode(c: Claims, now: Instant)
    requires WellTyped(c)
    ensures Fresh(c, now) ==> Decode(Encode(c), now) == Payload(c)
    ensures !Fresh(c, now) ==> Decode(Encode(c), now) == Expired
  {
  }

  /** Once a token is expired it stays expired: decoding is monotone in time. */
  lemma ExpiryIsPermanent(t: Token, now: Instant, later: Instant)
    requires now <= later
    requires Decode(t, now).Expired?
    ensures Decode(t, later).Expired?
  {
  }
}
