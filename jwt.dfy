/** The access token: a JWT carrying the registered claims `sub`, `exp` and `iat`
    (section 4.1 of RFC 7519), signed with an HMAC (section 3.2 of RFC 7518).
    The signature is abstract: a token records the method and the key it was signed with. */
module Jwt {
  import opened Errors

  /** The `alg` header values the JWT library knows. */
  datatype Alg = HS256 | HS384 | HS512 | RS256 | ES256 | AlgNone

  /** `*jwt.SigningMethodHMAC`: the HS family. */
  predicate IsHmac(a: Alg) { a.HS256? || a.HS384? || a.HS512? }

  /** `jwt.StandardClaims` restricted to what this core sets; 0 means absent (`omitempty`). */
  datatype Claims = Claims(subject: string, expiresAt: int, issuedAt: int)

  datatype Token = Token(alg: Alg, claims: Claims, key: seq<bv8>)


  /** `VerifyExpiresAt(now, false)` fails: an `exp` is present and lies before `now`. */
  predicate Expired(c: Claims, now: int) { c.expiresAt != 0 && now > c.expiresAt }

  /** `VerifyIssuedAt(now, false)` fails: an `iat` is present and lies after `now`. */
  predicate UsedBeforeIssued(c: Claims, now: int) { c.issuedAt != 0 && now < c.issuedAt }

  /** What `ParseWithClaims` does once the key function returned `key`: it validates the claims
      and checks the signature, and reports every failed check in one ValidationError. */
  function Verify(t: Token, key: seq<bv8>, now: int): (err: Option<Error>)
    ensures err.None? <==> !Expired(t.claims, now) && !UsedBeforeIssued(t.claims, now) && t.key == key
    ensures err.Some? ==> err == Some(TokenInvalid(Expired(t.claims, now), UsedBeforeIssued(t.claims, now), t.key != key))
  {
    var expired := Expired(t.claims, now);
    var early := UsedBeforeIssued(t.claims, now);
    var badSignature := t.key != key;
    if expired || early || badSignature then Some(TokenInvalid(expired, early, badSignature)) else None
  }

  /** `jwt.NewWithClaims(alg, claims)` signed with `key`: it carries the method and the claims
      unchanged, and its signature checks out under `key` and under no other key. */
  function Sign(alg: Alg, claims: Claims, key: seq<bv8>): (t: Token)
    ensures t.alg == alg && t.claims == claims
    ensures forall k, now :: (Verify(t, k, now).Some? && Verify(t, k, now).value.signatureInvalid) <==> k != key
  {
    Token(alg, claims, key)
  }

  /** A token issued at `iat` with lifetime `ttl` is accepted under its own key over exactly
      the closed interval from `iat` to `iat + ttl`, when neither claim is the absent value 0. */
  lemma AcceptedWindow(alg: Alg, sub: string, iat: int, ttl: int, key: seq<bv8>, now: int)
    requires iat != 0 && iat + ttl != 0
    ensures Verify(Sign(alg, Claims(sub, iat + ttl, iat), key), key, now).None? <==> iat <= now <= iat + ttl
  {
  }
}
