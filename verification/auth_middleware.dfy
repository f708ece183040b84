/** The per-request gate of the server: `verifyToken` parses the bearer
    header and checks only the signed credential (no look-up of the stored
    session); `requireAdmin` then checks the role. */
module AuthMiddleware {

  import opened Wrappers
  import JsText
  import Jwt

  const BearerPrefix: string := "Bearer "

  /** What the gate attaches to the request: `{id, role}`, nothing else. */
  datatype RequestUser = RequestUser(id: int, role: string)

  datatype GateResult = Deny(status: int, message: string) | Next(user: RequestUser)

  /** `authHeader.split(" ")[1]` for a header that starts with the prefix:
      the text after the first space up to the next one. */
  function BearerToken(header: string): (token: string)
    requires JsText.StartsWith(header, BearerPrefix)
    ensures ' ' !in token
  {
    var fields := JsText.Split(header, ' ');
    assert header == "Bearer" + [' '] + header[|BearerPrefix|..];
    JsText.SplitAfterWord("Bearer", header[|BearerPrefix|..], ' ');
    fields[1]
  }

  /** The token is the first space-free word after the prefix. */
  lemma {:induction false} BearerTokenIsFirstWord(word: string, rest: string)
    requires ' ' !in word
    requires rest == [] || rest[0] == ' '
    ensures JsText.StartsWith(BearerPrefix + word + rest, BearerPrefix)
    ensures BearerToken(BearerPrefix + word + rest) == word
  {
    var h := BearerPrefix + word + rest;
    assert h[..|BearerPrefix|] == BearerPrefix;
    assert h == "Bearer" + [' '] + (word + rest);
    JsText.SplitAfterWord("Bearer", word + rest, ' ');
    if rest == [] {
      assert word + rest == word;
      JsText.SplitWithoutSeparator(word, ' ');
    } else {
      assert word + rest == word + [' '] + rest[1..];
      JsText.SplitAfterWord(word, rest[1..], ' ');
    }
  }

  /** A doubled space after the scheme yields the empty token. */
  lemma DoubleSpaceGivesEmptyToken()
    ensures JsText.StartsWith("Bearer  x", BearerPrefix)
    ensures BearerToken("Bearer  x") == ""
  {
    BearerTokenIsFirstWord("", " x");
    assert BearerPrefix + "" + " x" == "Bearer  x";
  }

  /** `verifyToken`. */
  function VerifyToken(authorization: Option<string>, now: int, jwt: Jwt.JwtService): (r: GateResult)
    ensures authorization.None? || !JsText.StartsWith(authorization.value, BearerPrefix)
            ==> r == Deny(401, "Access denied. No token provided.")
    ensures authorization.Some? && JsText.StartsWith(authorization.value, BearerPrefix)
            ==> var decoded := jwt.verify(BearerToken(authorization.value), now);
                && (decoded.None? ==> r == Deny(403, "Invalid or expired token."))
                && (decoded.Some? ==> r == Next(RequestUser(decoded.value.userId, decoded.value.role)))
  {
    match authorization
    case None => Deny(401, "Access denied. No token provided.")
    case Some(h) =>
      if !JsText.StartsWith(h, BearerPrefix) then Deny(401, "Access denied. No token provided.")
      else match jwt.verify(BearerToken(h), now)
        case None => Deny(403, "Invalid or expired token.")
        case Some(decoded) => Next(RequestUser(decoded.userId, decoded.role))
  }

  /** `requireAdmin`: 403 unless the attached user has role "admin". */
  function RequireAdmin(user: Option<RequestUser>): (r: GateResult)
    ensures r.Next? <==> user.Some? && user.value.role == "admin"
    ensures r.Next? ==> r.user == user.value
    ensures r.Deny? ==> r.status == 403
  {
    if user.None? || user.value.role != "admin" then Deny(403, "Admin access only.")
    else Next(user.value)
  }

  /** The middleware chain of a route: `verifyToken`, then `requireAdmin` on
      the admin routes. */
  function Gate(authorization: Option<string>, now: int, jwt: Jwt.JwtService, adminOnly: bool): (r: GateResult)
    ensures VerifyToken(authorization, now, jwt).Deny? ==> r == VerifyToken(authorization, now, jwt)
    ensures r.Next? <==> VerifyToken(authorization, now, jwt).Next?
                         && (adminOnly ==> VerifyToken(authorization, now, jwt).user.role == "admin")
    ensures r.Next? ==> r == VerifyToken(authorization, now, jwt)
  {
    match VerifyToken(authorization, now, jwt)
    case Deny(s, m) => Deny(s, m)
    case Next(u) => if adminOnly then RequireAdmin(Some(u)) else Next(u)
  }

  /** Authentication failures take precedence over the role check: a caller
      whose credential does not verify never sees "Admin access only.". */
  lemma AuthenticationBeforeRole(authorization: Option<string>, now: int, jwt: Jwt.JwtService)
    ensures Gate(authorization, now, jwt, true).Deny? && Gate(authorization, now, jwt, true).status == 401
            <==> authorization.None? || !JsText.StartsWith(authorization.value, BearerPrefix)
    ensures Gate(authorization, now, jwt, true) == Deny(403, "Admin access only.")
            <==> VerifyToken(authorization, now, jwt).Next? && VerifyToken(authorization, now, jwt).user.role != "admin"
  {
  }
}
