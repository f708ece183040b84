/** Whole-system properties of a session: what the client sends after a
    login, what the server's token check and the route gate make of it,
    and how the one-minute store session and the one-hour signed
    credential diverge. */
module SessionScenarios {

  import opened Wrappers
  import JsText
  import Jwt
  import opened UserModel
  import UserController
  import AuthMiddleware
  import ClientApi

  /** With unique ids, the lookup by id finds the row holding the id. */
  lemma FindUniqueId(t: Table, i: nat)
    requires UniqueIds(t) && i < |t|
    ensures FindUserById(t, t[i].userId) == Some(t[i])
  {
  }

  /** Session writes keep ids unique: they touch neither ids nor row order. */
  lemma SessionWriteKeepsIds(t: Table, email: string, token: Option<string>, expire: Option<int>)
    requires UniqueIds(t)
    ensures UniqueIds(SetSessionWhereEmail(t, email, token, expire))
  {
    var r := SetSessionWhereEmail(t, email, token, expire);
    assert forall i :: 0 <= i < |t| ==> r[i].userId == t[i].userId;
  }

  /** The header the client builds from a stored token carries that token
      to both readers: the gate's `split(" ")[1]` after the "Bearer "
      check and the token check's `split(' ')[1]`. */
  lemma HeaderCarriesToken(token: string)
    requires ' ' !in token
    ensures JsText.StartsWith("Bearer " + token, AuthMiddleware.BearerPrefix)
    ensures AuthMiddleware.BearerToken("Bearer " + token) == token
    ensures UserController.PresentedToken(Some("Bearer " + token)) == Some(token)
  {
    AuthMiddleware.BearerTokenIsFirstWord(token, []);
    assert AuthMiddleware.BearerPrefix + token + [] == "Bearer " + token;
    assert "Bearer " + token == "Bearer" + [' '] + token;
    JsText.SplitAfterWord("Bearer", token, ' ');
    JsText.SplitWithoutSeparator(token, ' ');
  }

  /** The client's request interceptor turns the stored token into a header
      that the gate accepts for as long as the credential is valid. */
  lemma InterceptorHeaderPassesGate(st: ClientApi.Storage, headers: map<string, string>,
                                    c: Jwt.Claims, jwt: Jwt.JwtService, now: int)
    requires Jwt.Sound(jwt)
    requires "token" in st && st["token"] == jwt.sign(c)
    requires now < c.exp
    ensures var h := ClientApi.RequestHeaders(st, headers);
            "Authorization" in h &&
            AuthMiddleware.Gate(Some(h["Authorization"]), now, jwt, false) ==
              AuthMiddleware.Next(AuthMiddleware.RequestUser(c.userId, c.role))
  {
    HeaderCarriesToken(jwt.sign(c));
  }

  /** A successful login followed by a token check within the sliding
      minute succeeds, reports the same user, and pushes the store expiry
      forward; the table must have unique ids and e-mails and the library
      must be sound. */
  lemma LoginThenValidateWithinWindow(t: Table, email: string, password: string, now: int,
                                      jwt: Jwt.JwtService, passwordMatches: (string, string) -> bool,
                                      later: int)
    requires Jwt.Sound(jwt)
    requires UniqueIds(t) && UniqueEmails(t)
    requires UserController.Login(t, email, password, now, jwt, passwordMatches, false).0.LoggedIn?
    requires now <= later <= now + UserController.SlidingWindowSeconds
    ensures var (reply, t1) := UserController.Login(t, email, password, now, jwt, passwordMatches, false);
            var (check, t2) := UserController.TokenValidate(t1, Some("Bearer " + reply.token), later, jwt, false);
            check == UserController.TokenValid(reply.user) &&
            FindUserById(t2, reply.user.id).value.tokenExpire == Some(later + UserController.SlidingWindowSeconds)
  {
    var (reply, t1) := UserController.Login(t, email, password, now, jwt, passwordMatches, false);
    var u := FindUserByEmail(t, email).value;
    var i :| 0 <= i < |t| && t[i] == u && t[i].email == email && forall j :: 0 <= j < i ==> t[j].email != email;
    var token := reply.token;
    var c := Jwt.IssuedClaims(u.userId, u.role, u.email, now);
    assert token == jwt.sign(c);
    HeaderCarriesToken(token);
    assert jwt.verify(token, later) == Some(c);
    SessionWriteKeepsIds(t, email, Some(token), Some(now + UserController.SlidingWindowSeconds));
    FindUniqueId(t1, i);
    assert t1[i] == WithSession(u, Some(token), Some(now + UserController.SlidingWindowSeconds));
    var (check, t2) := UserController.TokenValidate(t1, Some("Bearer " + token), later, jwt, false);
    assert check.TokenValid?;
    SessionWriteKeepsIds(t1, u.email, Some(token), Some(later + UserController.SlidingWindowSeconds));
    FindUniqueId(t2, i);
  }

  /** Past the sliding minute but inside the credential's hour, the token
      check refuses with "Token has expired" and clears the user's store
      session, while the route gate still admits the same header: the two
      notions of a live session disagree for the rest of the hour. */
  lemma StoreSessionLapsesBeforeCredential(t: Table, email: string, password: string, now: int,
                                           jwt: Jwt.JwtService, passwordMatches: (string, string) -> bool,
                                           later: int)
    requires Jwt.Sound(jwt)
    requires UniqueIds(t) && UniqueEmails(t)
    requires UserController.Login(t, email, password, now, jwt, passwordMatches, false).0.LoggedIn?
    requires now + UserController.SlidingWindowSeconds < later < now + Jwt.ValiditySeconds
    ensures var (reply, t1) := UserController.Login(t, email, password, now, jwt, passwordMatches, false);
            var header := Some("Bearer " + reply.token);
            var (check, t2) := UserController.TokenValidate(t1, header, later, jwt, false);
            check == UserController.Error(401, "Token has expired") &&
            FindUserById(t2, reply.user.id).value.token.None? &&
            FindUserById(t2, reply.user.id).value.tokenExpire.None? &&
            AuthMiddleware.Gate(header, later, jwt, false).Next?
  {
    var (reply, t1) := UserController.Login(t, email, password, now, jwt, passwordMatches, false);
    var u := FindUserByEmail(t, email).value;
    var i :| 0 <= i < |t| && t[i] == u && t[i].email == email && forall j :: 0 <= j < i ==> t[j].email != email;
    var token := reply.token;
    var c := Jwt.IssuedClaims(u.userId, u.role, u.email, now);
    assert token == jwt.sign(c);
    HeaderCarriesToken(token);
    assert jwt.verify(token, later) == Some(c);
    SessionWriteKeepsIds(t, email, Some(token), Some(now + UserController.SlidingWindowSeconds));
    FindUniqueId(t1, i);
    var (check, t2) := UserController.TokenValidate(t1, Some("Bearer " + token), later, jwt, false);
    SessionWriteKeepsIds(t1, u.email, None, None);
    FindUniqueId(t2, i);
  }

  /** Once the credential's hour is over, both the token check and the gate
      refuse it, whatever the table holds. */
  lemma CredentialExpiryEndsEverything(t: Table, c: Jwt.Claims, jwt: Jwt.JwtService, later: int)
    requires Jwt.Sound(jwt)
    requires later >= c.exp
    ensures var header := Some("Bearer " + jwt.sign(c));
            UserController.TokenValidate(t, header, later, jwt, false).0 == UserController.Error(401, "Token has expired") &&
            AuthMiddleware.Gate(header, later, jwt, false) == AuthMiddleware.Deny(403, "Invalid or expired token.")
  {
    HeaderCarriesToken(jwt.sign(c));
  }
}
