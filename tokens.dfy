/** JSON Web Tokens as the server issues and checks them
    (internal/util/jwt.go). Signing with HS256 and the shared secret, and
    the encoding of the token string, are the JWT library's business: the
    model takes them as a `Signer`, a pair of functions, and states what the
    server relies on from them as the ghost predicate `Sound`. Times are
    whole seconds (JWT numeric dates); the wall clock is a parameter. */
module Tokens {
  import opened Outcomes

  /** MyClaims: the user id and name plus the registered claims the server
      sets (`iat`, `exp`, `iss`). */
  datatype Claims = Claims(userId: nat, username: string, issuedAt: int, expiresAt: int, issuer: string)

  const Issuer := "gopress"

  /** Seven days, in seconds. */
  const Lifetime := 7 * 24 * 60 * 60

  /** Why the library refused a token string. */
  datatype ParseError = Malformed | BadSignature | Expired

  datatype Parsed = Claimed(claims: Claims) | Refused(reason: ParseError)

  /** The JWT library bound to the server's secret: `sign` may fail (it
      returns an error), `parse` checks a token string at time `now`. */
  datatype Signer = Signer(sign: Claims -> Result<string>, parse: (string, int) -> Parsed)

  /** What the server relies on: a token it signed parses back to exactly the
      claims it put in, until the expiry time, and is refused as expired from
      then on. `iat` and `iss` are not checked on parsing. */
  ghost predicate Sound(s: Signer) {
    forall c: Claims, now: int {:trigger s.parse(s.sign(c).value, now)} ::
      s.sign(c).Ok? ==>
        s.parse(s.sign(c).value, now) == if now < c.expiresAt then Claimed(c) else Refused(Expired)
  }

  /** The claims GenerateToken builds at time `now`. */
  function ClaimsFor(userId: nat, username: string, now: int): (c: Claims)
    ensures c.userId == userId && c.username == username && c.issuer == Issuer
    ensures c.issuedAt == now && c.expiresAt - c.issuedAt == Lifetime
  {
    Claims(userId, username, now, now + Lifetime, Issuer)
  }

  /** GenerateToken: sign the claims; a signing error is returned as is. */
  function GenerateToken(s: Signer, userId: nat, username: string, now: int): (r: Result<string>)
    ensures Sound(s) && r.Ok? ==> s.parse(r.value, now) == Claimed(ClaimsFor(userId, username, now))
  {
    s.sign(ClaimsFor(userId, username, now))
  }

  /** ParseToken: the claims of a valid token, or the library's refusal. */
  function ParseToken(s: Signer, token: string, now: int): (r: Parsed)
    ensures Sound(s) ==> forall c {:trigger s.sign(c)} :: s.sign(c) == Ok(token) ==>
              r == if now < c.expiresAt then Claimed(c) else Refused(Expired)
  {
    s.parse(token, now)
  }

  /** A freshly generated token is accepted for exactly seven days and
      carries the user id and name it was made for. */
  lemma TokenRoundTrip(s: Signer, userId: nat, username: string, issued: int, now: int)
    requires Sound(s) && GenerateToken(s, userId, username, issued).Ok?
    ensures var p := ParseToken(s, GenerateToken(s, userId, username, issued).value, now);
      && (p.Claimed? <==> now < issued + Lifetime)
      && (p.Claimed? ==> p.claims == ClaimsFor(userId, username, issued))
      && (p.Refused? ==> p.reason == Expired)
  {
    var c := ClaimsFor(userId, username, issued);
    assert s.parse(s.sign(c).value, now) == if now < c.expiresAt then Claimed(c) else Refused(Expired);
  }
}
