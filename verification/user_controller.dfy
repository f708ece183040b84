/** The three session handlers of the server: `register`, `login` and
    `tokenValidate`, each a transition over the users table that also yields
    the HTTP reply. Password hashing and checking are functions supplied by
    the caller (bcrypt); signing and verification come from a
    `Jwt.JwtService`; the clock is the integer `now`, in seconds. A store
    write that throws is the boolean `writeFails`. */
module UserController {

  import opened Wrappers
  import opened UserModel
  import JsText
  import Jwt

  /** Server-side sliding expiry: `setMinutes(getMinutes() + 1)`. */
  const SlidingWindowSeconds: int := 60

  /** The `{id, name, role}` object returned to the client. */
  datatype PublicUser = PublicUser(id: int, name: string, role: string)

  datatype Reply =
    | Registered                                  // 201 {message}
    | LoggedIn(token: string, user: PublicUser)   // 200 {token, user}
    | TokenValid(user: PublicUser)                // 200 {isValid: true, user}
    | Error(status: int, message: string)
  {
    function Status(): int {
      match this
      case Registered => 201
      case LoggedIn(_, _) => 200
      case TokenValid(_) => 200
      case Error(s, _) => s
    }
  }

  /** JavaScript truthiness of an optional string body field. */
  predicate Present(field: Option<string>) {
    field.Some? && field.value != ""
  }

  function Public(u: User): PublicUser {
    PublicUser(u.userId, u.firstName, u.role)
  }

  /** `POST /users/register`. */
  function Register(t: Table, firstName: Option<string>, lastName: Option<string>,
                    email: Option<string>, password: Option<string>,
                    hash: string -> string, writeFails: bool): (r: (Reply, Table))
    ensures !(Present(firstName) && Present(lastName) && Present(email) && Present(password))
            ==> r == (Error(400, "All fields are required."), t)
    ensures Present(firstName) && Present(lastName) && Present(email) && Present(password)
            && FindUserByEmail(t, email.value).Some?
            ==> r == (Error(409, "Email already in use."), t)
    ensures r.0.Registered? <==>
            Present(firstName) && Present(lastName) && Present(email) && Present(password)
            && FindUserByEmail(t, email.value).None? && !writeFails
    ensures !r.0.Registered? ==> r.1 == t
    ensures r.0.Registered? ==>
            && |r.1| == |t| + 1 && r.1[..|t|] == t
            && r.1[|t|].email == email.value && r.1[|t|].password == hash(password.value)
            && r.1[|t|].firstName == firstName.value && r.1[|t|].lastName == lastName.value
            && r.1[|t|].role == DefaultRole
            && r.1[|t|].token.None? && r.1[|t|].tokenExpire.None?
    ensures r.0.Registered? || r.0.Error?
  {
    if !Present(firstName) || !Present(lastName) || !Present(email) || !Present(password) then
      (Error(400, "All fields are required."), t)
    else if FindUserByEmail(t, email.value).Some? then
      (Error(409, "Email already in use."), t)
    else
      match CreateUser(t, firstName.value, lastName.value, email.value, hash(password.value), DefaultRole, writeFails)
      case Threw => (Error(500, "Server error during registration."), t)
      case Done(t') => (Registered, t')
  }

  /** `POST /users/login`. */
  function Login(t: Table, email: string, password: string, now: int, jwt: Jwt.JwtService,
                 passwordMatches: (string, string) -> bool, writeFails: bool): (r: (Reply, Table))
    ensures r.0.LoggedIn? <==>
            FindUserByEmail(t, email).Some? && passwordMatches(password, FindUserByEmail(t, email).value.password)
    ensures !r.0.LoggedIn? ==> r == (Error(401, "Invalid credentials."), t)
    ensures r.0.LoggedIn? ==>
            var u := FindUserByEmail(t, email).value;
            && r.0.token == jwt.sign(Jwt.IssuedClaims(u.userId, u.role, u.email, now))
            && r.0.user == PublicUser(u.userId, u.firstName, u.role)
            && r.1 == (if writeFails then t
                       else SetSessionWhereEmail(t, email, Some(r.0.token), Some(now + SlidingWindowSeconds)))
  {
    match FindUserByEmail(t, email)
    case None => (Error(401, "Invalid credentials."), t)
    case Some(u) =>
      if !passwordMatches(password, u.password) then (Error(401, "Invalid credentials."), t)
      else
        var token := jwt.sign(Jwt.IssuedClaims(u.userId, u.role, u.email, now));
        var t' := match UpdateUserToken(t, email, Some(token), Some(now + SlidingWindowSeconds), writeFails)
                  case Threw => t
                  case Done(t1) => t1;
        (LoggedIn(token, Public(u)), t')
  }

  /** `req.headers.authorization?.split(' ')[1]`: the second space-separated
      field of the header, if it has one. No scheme is checked. */
  function PresentedToken(authorization: Option<string>): (r: Option<string>)
    ensures authorization.None? ==> r.None?
    ensures authorization.Some? && ' ' !in authorization.value ==> r.None?
    ensures authorization.Some? && ' ' in authorization.value ==> r.Some? && ' ' !in r.value
  {
    match authorization
    case None => None
    case Some(h) =>
      JsText.SplitWithoutSeparator(h, ' ');
      JsText.SplitLength(h, ' ');
      JsText.CountAbsent(h, ' ');
      var fields := JsText.Split(h, ' ');
      if |fields| >= 2 then Some(fields[1]) else None
  }

  /** Which field is presented: whatever precedes the first space is
      ignored, and the token runs up to the next space or the end. */
  lemma {:induction false} PresentedTokenIsSecondField(scheme: string, tok: string, rest: string)
    requires ' ' !in scheme && ' ' !in tok
    ensures PresentedToken(Some(scheme + [' '] + tok)) == Some(tok)
    ensures PresentedToken(Some(scheme + [' '] + tok + [' '] + rest)) == Some(tok)
  {
    JsText.SplitAfterWord(scheme, tok, ' ');
    JsText.SplitAfterWord(tok, rest, ' ');
    JsText.SplitAfterWord(scheme, tok + [' '] + rest, ' ');
    assert scheme + [' '] + tok + [' '] + rest == scheme + [' '] + (tok + [' '] + rest);
  }

  /** The header the browser's request interceptor builds presents exactly
      the stored token, as long as the token has no space in it. */
  lemma BearerHeaderPresentsToken(tok: string)
    requires ' ' !in tok
    ensures PresentedToken(Some("Bearer " + tok)) == Some(tok)
  {
    assert "Bearer " + tok == "Bearer" + [' '] + tok;
    PresentedTokenIsSecondField("Bearer", tok, "");
  }

  /** `GET /users/token-validate`. */
  function TokenValidate(t: Table, authorization: Option<string>, now: int, jwt: Jwt.JwtService,
                         writeFails: bool): (r: (Reply, Table))
    // No token, or the empty one.
    ensures PresentedToken(authorization).None? || PresentedToken(authorization) == Some("")
            ==> r == (Error(401, "No token provided"), t)
    // The credential does not verify: best-effort cleanup of every row holding it.
    ensures var tok := PresentedToken(authorization);
            tok.Some? && tok.value != "" && jwt.verify(tok.value, now).None?
            ==> r == (Error(401, "Token has expired"),
                      if writeFails then t else ClearSessionWhereToken(t, tok.value))
    // Decoded, but no user or no mirrored session: nothing changes.
    ensures var tok := PresentedToken(authorization);
            tok.Some? && tok.value != "" && jwt.verify(tok.value, now).Some?
            && (var u := FindUserById(t, jwt.verify(tok.value, now).value.userId);
                u.None? || u.value.token.None? || u.value.token == Some("") || u.value.tokenExpire.None?)
            ==> r.1 == t && r.0.Error? && r.0.status == 401
    // The sliding expiry is strict: expired only when now is past it.
    ensures var tok := PresentedToken(authorization);
            tok.Some? && tok.value != "" && jwt.verify(tok.value, now).Some?
            && (var u := FindUserById(t, jwt.verify(tok.value, now).value.userId);
                && u.Some? && u.value.token.Some? && u.value.token.value != "" && u.value.tokenExpire.Some?
                && now > u.value.tokenExpire.value)
            ==> r == (Error(401, "Token has expired"),
                      if writeFails then t
                      else SetSessionWhereEmail(t, FindUserById(t, jwt.verify(tok.value, now).value.userId).value.email, None, None))
    // Success: the presented token (never compared with the stored one) is
    // written back with a fresh sliding expiry.
    ensures r.0.TokenValid? <==>
            var tok := PresentedToken(authorization);
            && tok.Some? && tok.value != "" && jwt.verify(tok.value, now).Some?
            && (var u := FindUserById(t, jwt.verify(tok.value, now).value.userId);
                && u.Some? && u.value.token.Some? && u.value.token.value != "" && u.value.tokenExpire.Some?
                && now <= u.value.tokenExpire.value)
    ensures r.0.TokenValid? ==>
            var tok := PresentedToken(authorization).value;
            var u := FindUserById(t, jwt.verify(tok, now).value.userId).value;
            && r.0.user == PublicUser(u.userId, u.firstName, u.role)
            && r.1 == (if writeFails then t
                       else SetSessionWhereEmail(t, u.email, Some(tok), Some(now + SlidingWindowSeconds)))
    ensures r.0.TokenValid? || (r.0.Error? && r.0.status == 401)
  {
    match PresentedToken(authorization)
    case None => (Error(401, "No token provided"), t)
    case Some(token) =>
      if token == "" then (Error(401, "No token provided"), t)
      else match jwt.verify(token, now)
        case None =>
          (Error(401, "Token has expired"), if writeFails then t else ClearSessionWhereToken(t, token))
        case Some(decoded) =>
          match FindUserById(t, decoded.userId)
          case None => (Error(401, "User not found"), t)
          case Some(u) =>
            if u.token.None? || u.token.value == "" || u.tokenExpire.None? then
              (Error(401, "Token not found or expired"), t)
            else if now > u.tokenExpire.value then
              (Error(401, "Token has expired"), if writeFails then t else SetSessionWhereEmail(t, u.email, None, None))
            else
              (TokenValid(Public(u)),
               if writeFails then t else SetSessionWhereEmail(t, u.email, Some(token), Some(now + SlidingWindowSeconds)))
  }

  /** Registration keeps e-mails and ids unique, because it refuses an e-mail
      already present and the new row takes a fresh id. */
  lemma RegisterKeepsKeysUnique(t: Table, firstName: Option<string>, lastName: Option<string>,
                                email: Option<string>, password: Option<string>,
                                hash: string -> string, writeFails: bool)
    requires UniqueEmails(t) && UniqueIds(t)
    ensures UniqueEmails(Register(t, firstName, lastName, email, password, hash, writeFails).1)
    ensures UniqueIds(Register(t, firstName, lastName, email, password, hash, writeFails).1)
  {
    var r := Register(t, firstName, lastName, email, password, hash, writeFails);
    if r.0.Registered? {
      var t' := r.1;
      forall i, j | 0 <= i < j < |t'| ensures t'[i].email != t'[j].email && t'[i].userId != t'[j].userId {
        if j == |t| {
          assert t'[i] == t[i];
        } else {
          assert t'[i] == t[i] && t'[j] == t[j];
        }
      }
    }
  }

  /** Every handler keeps the session fields of every row paired. */
  lemma RegisterKeepsTokenFieldsPaired(t: Table, firstName: Option<string>, lastName: Option<string>,
                                       email: Option<string>, password: Option<string>,
                                       hash: string -> string, writeFails: bool)
    requires TokenFieldsPaired(t)
    ensures TokenFieldsPaired(Register(t, firstName, lastName, email, password, hash, writeFails).1)
  {
    var reg := Register(t, firstName, lastName, email, password, hash, writeFails);
    if reg.0.Registered? {
      forall i | 0 <= i < |reg.1| ensures reg.1[i].token.None? <==> reg.1[i].tokenExpire.None? {
        if i < |t| {
          assert reg.1[i] == t[i];
        }
      }
    }
  }

  lemma LoginKeepsTokenFieldsPaired(t: Table, email: string, password: string, now: int, jwt: Jwt.JwtService,
                                    passwordMatches: (string, string) -> bool, writeFails: bool)
    requires TokenFieldsPaired(t)
    ensures TokenFieldsPaired(Login(t, email, password, now, jwt, passwordMatches, writeFails).1)
  {
    var r := Login(t, email, password, now, jwt, passwordMatches, writeFails);
    if r.0.LoggedIn? && !writeFails {
      SetSessionKeepsPairing(t, email, Some(r.0.token), Some(now + SlidingWindowSeconds));
    }
  }

  lemma TokenValidateKeepsTokenFieldsPaired(t: Table, authorization: Option<string>, now: int,
                                            jwt: Jwt.JwtService, writeFails: bool)
    requires TokenFieldsPaired(t)
    ensures TokenFieldsPaired(TokenValidate(t, authorization, now, jwt, writeFails).1)
  {
    var tok := PresentedToken(authorization);
    if tok.Some? && tok.value != "" {
      ClearSessionKeepsPairing(t, tok.value);
      var d := jwt.verify(tok.value, now);
      if d.Some? && FindUserById(t, d.value.userId).Some? {
        var u := FindUserById(t, d.value.userId).value;
        SetSessionKeepsPairing(t, u.email, None, None);
        SetSessionKeepsPairing(t, u.email, Some(tok.value), Some(now + SlidingWindowSeconds));
      }
    }
  }
}
