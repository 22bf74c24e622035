/** Signed tokens. A JSON Web Token is modelled as the payload it carries, its
    issue and expiry instants and the secret it was signed with; any other
    string a client may present is `Garbage`. Verification succeeds for a
    token signed with the server secret strictly before its expiry, as the
    `jsonwebtoken` library decides. */
module Jwt {
  import opened Common

  const ACCESS_TOKEN_TTL: int := HOUR       // expiresIn: '1h'
  const REFRESH_TOKEN_TTL: int := 15 * DAY  // expiresIn: '15d'

  /** `IJwtPayload`. The legacy issuer signs `{id, fingerprint}` only, so `roles` is optional. */
  datatype Payload = Payload(id: nat, fingerprint: Hash, roles: Option<seq<Role>>)

  datatype Token =
    | Signed(payload: Payload, issuedAt: int, expiresAt: int, key: string)
    | Garbage(text: string)

  datatype TokenPair = TokenPair(accessToken: Token, refreshToken: Token)

  /** `jwt.sign(payload, {expiresIn: ttl})` at instant `now`. */
  function Sign(payload: Payload, now: int, ttl: int, secret: string): (t: Token)
    ensures t.Signed? && t.payload == payload && t.expiresAt == now + ttl
  {
    Signed(payload, now, now + ttl, secret)
  }

  /** `jwt.verify(token)`: the payload, or `None` where the library throws. */
  function Verify(token: Token, secret: string, now: int): (r: Option<Payload>)
    ensures r.Some? <==> token.Signed? && token.key == secret && now < token.expiresAt
    ensures r.Some? ==> r.value == token.payload
  {
    if token.Signed? && token.key == secret && now < token.expiresAt then Some(token.payload) else None
  }

  /** `issueTokens`: both tokens are signed from the same payload, the access
      token for one hour and the refresh token for fifteen days. */
  function IssueTokens(payload: Payload, now: int, secret: string): (pair: TokenPair)
    ensures pair.accessToken.Signed? && pair.refreshToken.Signed?
    ensures pair.accessToken.payload == payload && pair.refreshToken.payload == payload
    ensures pair.accessToken.expiresAt == now + ACCESS_TOKEN_TTL
    ensures pair.refreshToken.expiresAt == now + REFRESH_TOKEN_TTL
    ensures pair.accessToken != pair.refreshToken
  {
    TokenPair(Sign(payload, now, ACCESS_TOKEN_TTL, secret), Sign(payload, now, REFRESH_TOKEN_TTL, secret))
  }

  /** Round trip: what was issued verifies to the same payload until its
      expiry and fails from then on; a token signed with another secret never verifies. */
  lemma IssueVerifyRoundTrip(payload: Payload, issuedAt: int, secret: string, now: int, otherSecret: string)
    requires otherSecret != secret
    ensures var pair := IssueTokens(payload, issuedAt, secret);
      && Verify(pair.accessToken, secret, now) == (if now < issuedAt + HOUR then Some(payload) else None)
      && Verify(pair.refreshToken, secret, now) == (if now < issuedAt + 15 * DAY then Some(payload) else None)
      && Verify(pair.accessToken, otherSecret, now).None?
      && Verify(pair.refreshToken, otherSecret, now).None?
  {
  }
}
