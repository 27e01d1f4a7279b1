/** bcrypt, seen from its callers: `hash(secret, rounds)` draws a fresh salt,
    `compare(candidate, digest)` succeeds exactly for the secret the digest
    was computed from. A digest is modelled symbolically, so the model does
    not capture that the secret cannot be recovered from it. */
module Bcrypt {

  /** The cost factor the handlers pass to `bcrypt.hash`. */
  const Rounds := 10

  datatype Digest = Digest(rounds: int, salt: int, secret: string)

  /** `bcrypt.hash(secret, Rounds)` with the random salt drawn as `salt`. */
  function HashPassword(secret: string, salt: int): (h: Digest)
    ensures h.rounds == Rounds
    ensures forall candidate :: Compare(candidate, h) <==> candidate == secret
  {
    Digest(Rounds, salt, secret)
  }

  /** `bcrypt.compare(candidate, h)`. */
  predicate Compare(candidate: string, h: Digest)
  {
    candidate == h.secret
  }
}

/** JSON Web Tokens (RFC 7519) signed with HMAC, seen from `jsonwebtoken`'s
    callers. The signature is a symbolic value over the key and the exact
    payload, so a token verifies only if it was signed with that key over that
    payload: changing any claim without the key invalidates it. */
module Jwt {
  import opened Js

  /** The application claims the handlers put into, and read out of, a token;
      a claim that is not there reads as `undefined`. */
  datatype Claims = Claims(id: JsValue, usuario: JsValue, rol: JsValue, rolId: JsValue)

  /** The decoded payload: the claims plus the registered "iat" (issued at)
      and "exp" (expiration time) claims of section 4.1 of RFC 7519, in
      seconds. */
  datatype Payload = Payload(claims: Claims, iat: int, exp: Option<int>)

  datatype Signature = Hs256(key: string, signed: Payload)

  datatype Token = Token(payload: Payload, signature: Signature)

  datatype VerifyError = BadSignature | Expired

  datatype Verified = Valid(payload: Payload) | Invalid(reason: VerifyError)

  /** `jwt.sign(claims, key, { expiresIn: lifetime })` at time `now`. */
  function Sign(claims: Claims, key: string, now: int, lifetime: int): (t: Token)
    ensures t.payload.claims == claims
    ensures t.payload.iat == now && t.payload.exp == Some(now + lifetime)
    ensures forall at :: Verify(t, key, at).Valid? <==> at < now + lifetime
  {
    var p := Payload(claims, now, Some(now + lifetime));
    Token(p, Hs256(key, p))
  }

  /** A payload without "exp" never expires; otherwise it is expired from the
      second "exp" on. */
  predicate Unexpired(p: Payload, now: int)
  {
    p.exp.None? || now < p.exp.value
  }

  /** `jwt.verify(token, key)` at time `now`. */
  function Verify(t: Token, key: string, now: int): (r: Verified)
    ensures r.Valid? <==> t.signature == Hs256(key, t.payload) && Unexpired(t.payload, now)
    ensures r.Valid? ==> r.payload == t.payload
  {
    if t.signature != Hs256(key, t.payload) then Invalid(BadSignature)
    else if !Unexpired(t.payload, now) then Invalid(Expired)
    else Valid(t.payload)
  }

  /** A token whose payload was altered after signing never verifies. */
  lemma TamperedTokenRejected(t: Token, forged: Payload, key: string, now: int)
    requires t.signature == Hs256(key, t.payload)
    requires forged != t.payload
    ensures Verify(Token(forged, t.signature), key, now).Invalid?
  {
  }
}
