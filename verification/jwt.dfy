/** The signed session credential, kept abstract. Signing and verification
    are the jsonwebtoken library's business; the model carries them as two
    functions chosen by the environment, and states as a predicate what a
    correct library guarantees. */
module Jwt {

  import opened Wrappers

  /** Embedded validity of an issued credential: `expiresIn: "1hr"`, in
      seconds. */
  const ValiditySeconds: int := 3600

  /** The payload `{user_id, role, email}` plus the embedded expiry. */
  datatype Claims = Claims(userId: int, role: string, email: string, exp: int)

  /** `sign(claims)` is the token string; `verify(token, now)` is the decoded
      payload, or None when verification throws (bad signature, malformed
      token, or expired). */
  datatype JwtService = JwtService(sign: Claims -> string, verify: (string, int) -> Option<Claims>)

  /** The payload signed by the login handler at time `now`. */
  function IssuedClaims(userId: int, role: string, email: string, now: int): (c: Claims)
    ensures c.exp - now == ValiditySeconds
    ensures c.userId == userId && c.role == role && c.email == email
  {
    Claims(userId, role, email, now + ValiditySeconds)
  }

  /** What a correct library promises: a credential it signed verifies to its
      own payload strictly before the embedded expiry and fails from then on
      (jsonwebtoken rejects when `now >= exp`); an empty string never
      verifies; a signed token is a non-empty string without spaces (three
      base64url parts joined by dots). */
  ghost predicate Sound(j: JwtService) {
    && (forall c: Claims, now: int :: j.verify(j.sign(c), now) == (if now < c.exp then Some(c) else None))
    && (forall now: int :: j.verify("", now) == None)
    && (forall c: Claims :: j.sign(c) != "" && ' ' !in j.sign(c))
  }
}
