/** The client's session store: `localStorage` plus the React state
    `(user, isAuthenticated)`, and the transitions `login`, `logout`,
    `verifyToken` and `handleSessionExpired`. A server reply is an input
    (`ApiOutcome`), passed through the response interceptor first, exactly
    as the HTTP client does. */
module AuthContext {

  import opened Wrappers
  import opened ClientApi
  import JsText

  datatype SessionUser = SessionUser(id: int, name: string, role: string)

  datatype ClientState = ClientState(storage: Storage, user: Option<SessionUser>, isAuthenticated: bool)

  /** Body of a 200 from `/users/login`. */
  datatype LoginData = LoginData(token: string, user: SessionUser)

  /** Body of a 200 from `/users/token-validate`; `user` may be missing. */
  datatype ValidateData = ValidateData(isValid: bool, user: Option<SessionUser>)

  /** What a transition throws back to its caller. */
  datatype Thrown = Rejected(error: ApiError) | TypeError

  /** The four `setItem` calls of a successful login. */
  function StoreSession(st: Storage, token: string, u: SessionUser): (r: Storage)
    ensures r.Keys == st.Keys + SessionKeys
    ensures r["token"] == token && r["role"] == u.role && r["name"] == u.name
    ensures JsText.ParseInt(r["id"]) == Some(u.id)
    ensures forall k :: k in st && k !in SessionKeys ==> r[k] == st[k]
  {
    JsText.ParseIntOfIntToString(u.id);
    st["token" := token]["role" := u.role]["name" := u.name]["id" := JsText.IntToString(u.id)]
  }

  /** How a transition settles: the new state, what it throws back to its
      caller, and the hard redirect the response interceptor ordered. */
  datatype Settled = Settled(state: ClientState, thrown: Option<Thrown>, redirect: Option<string>)

  /** `login(email, password)` given the server's reply. */
  function Login(s: ClientState, reply: ApiOutcome<LoginData>): (r: Settled)
    ensures reply.Success? ==>
            && r.thrown.None? && r.redirect.None?
            && r.state.storage == StoreSession(s.storage, reply.data.token, reply.data.user)
            && r.state.user == Some(reply.data.user) && r.state.isAuthenticated
    ensures reply.Failure? ==>
            && r.thrown == Some(Rejected(reply.error))
            && r.state.user == s.user && r.state.isAuthenticated == s.isAuthenticated
    ensures reply.Failure? && IsUnauthorized(reply.error) ==>
            r.state.storage == ClearSession(s.storage) && r.redirect == Some("/login")
    ensures reply.Failure? && !IsUnauthorized(reply.error) ==>
            r.state.storage == s.storage && r.redirect.None?
  {
    var (st, out, redirect) := Call(s.storage, reply);
    match out
    case Success(d) =>
      Settled(ClientState(StoreSession(st, d.token, d.user), Some(d.user), true), None, redirect)
    case Failure(e) =>
      Settled(s.(storage := st), Some(Rejected(e)), redirect)
  }

  /** A failed login that is not a 401 changes nothing. */
  lemma FailedLoginChangesNothing(s: ClientState, e: ApiError)
    requires !IsUnauthorized(e)
    ensures Login(s, Failure(e)) == Settled(s, Some(Rejected(e)), None)
  {
  }

  /** `logout()`. */
  function Logout(s: ClientState): (r: ClientState)
    ensures r.storage.Keys == s.storage.Keys - SessionKeys
    ensures forall k :: k in r.storage ==> r.storage[k] == s.storage[k]
    ensures r.user.None? && !r.isAuthenticated
  {
    ClientState(ClearSession(s.storage), None, false)
  }

  /** `handleSessionExpired()`: a logout, then (after a toast and a delay)
      navigation to /login, returned as the target. */
  function HandleSessionExpired(s: ClientState): (r: (ClientState, string))
    ensures r.0 == Logout(s) && r.1 == "/login"
  {
    (Logout(s), "/login")
  }

  /** Result of `verifyToken()`: the new state, the boolean it resolves to,
      whether a request was sent, and where it navigates. */
  datatype Verification = Verification(state: ClientState, valid: bool, requested: bool, navigate: Option<string>)

  /** `verifyToken()` given the reply the request would get. */
  function VerifyToken(s: ClientState, reply: ApiOutcome<ValidateData>): (r: Verification)
    ensures !HasToken(s.storage) ==>
            r == Verification(s.(user := None, isAuthenticated := false), false, false, None)
    ensures HasToken(s.storage) ==> r.requested
    ensures r.valid <==> HasToken(s.storage) && reply.Success? && reply.data.isValid && reply.data.user.Some?
    ensures r.valid ==> r.state == s.(user := reply.data.user, isAuthenticated := true)
    ensures HasToken(s.storage) && !r.valid && (reply.Success? || IsUnauthorized(reply.error))
            ==> r.state == Logout(s) && r.navigate == Some("/login")
    ensures HasToken(s.storage) && reply.Failure? && !IsUnauthorized(reply.error)
            ==> r == Verification(s, false, true, None)
  {
    if !HasToken(s.storage) then
      Verification(s.(user := None, isAuthenticated := false), false, false, None)
    else
      var (st, out, _) := Call(s.storage, reply);
      var s1 := s.(storage := st);
      match out
      case Success(d) =>
        if d.isValid && d.user.Some? then Verification(s1.(user := d.user, isAuthenticated := true), true, true, None)
        else
          var (s2, target) := HandleSessionExpired(s1);
          Verification(s2, false, true, Some(target))
      case Failure(e) =>
        if IsUnauthorized(e) then
          var (s2, target) := HandleSessionExpired(s1);
          Verification(s2, false, true, Some(target))
        else Verification(s1, false, true, None)
  }

  /** Every transition leaves the four session keys all present or all
      absent. */
  lemma TransitionsKeepSessionComplete(s: ClientState, login: ApiOutcome<LoginData>, check: ApiOutcome<ValidateData>)
    requires SessionComplete(s.storage)
    ensures SessionComplete(Login(s, login).state.storage)
    ensures SessionComplete(Logout(s).storage)
    ensures SessionComplete(VerifyToken(s, check).state.storage)
  {
  }

  /** Body of a 201 from `/users/register`: the server sends only a message,
      so both fields are missing there. */
  datatype RegisterData = RegisterData(token: Option<string>, user: Option<SessionUser>)

  /** `register(...)` as written: `setItem('token', token)` stores the string
      "undefined" when the reply has no token, and `user.role` throws a
      TypeError when it has no user, after the token was written. */
  function RegisterAsWritten(s: ClientState, reply: ApiOutcome<RegisterData>): (r: Settled)
    ensures reply.Success? && reply.data.user.None? ==>
            && r.thrown == Some(TypeError)
            && r.state.storage == s.storage["token" := reply.data.token.GetOr("undefined")]
  {
    var (st, out, redirect) := Call(s.storage, reply);
    match out
    case Failure(e) => Settled(s.(storage := st), Some(Rejected(e)), redirect)
    case Success(d) =>
      var st1 := st["token" := d.token.GetOr("undefined")];
      match d.user
      case None => Settled(s.(storage := st1), Some(TypeError), redirect)
      case Some(u) =>
        Settled(ClientState(StoreSession(st1, d.token.GetOr("undefined"), u), Some(u), true), None, redirect)
  }

  /** The reply the server's register handler actually sends breaks the
      session invariant: a lone token "undefined" is stored and the call
      throws, so the caller never sees a resolved registration. */
  lemma RegisterAsWrittenLeavesLoneToken()
    ensures var r := RegisterAsWritten(ClientState(map[], None, false), Success(RegisterData(None, None)));
            && r.state.storage == map["token" := "undefined"]
            && !SessionComplete(r.state.storage)
            && HasToken(r.state.storage)
            && r.thrown == Some(TypeError)
  {
    var st := map["token" := "undefined"];
    assert "token" in st && "role" !in st;
  }

  /** `register(...)` as evidently intended: a reply carrying a session is
      stored like a login; a reply without one resolves and stores nothing
      (the user then logs in); errors are rethrown. */
  function Register(s: ClientState, reply: ApiOutcome<RegisterData>): (r: Settled)
    ensures reply.Success? ==> r.thrown.None? && r.redirect.None?
    ensures reply.Success? && (reply.data.token.None? || reply.data.user.None?) ==> r.state == s
    ensures reply.Success? && reply.data.token.Some? && reply.data.user.Some? ==>
            && r.state.storage == StoreSession(s.storage, reply.data.token.value, reply.data.user.value)
            && r.state.user == reply.data.user && r.state.isAuthenticated
    ensures reply.Failure? ==> r.thrown == Some(Rejected(reply.error))
    ensures reply.Failure? && IsUnauthorized(reply.error) ==>
            r.state.storage == ClearSession(s.storage) && r.redirect == Some("/login")
  {
    var (st, out, redirect) := Call(s.storage, reply);
    match out
    case Failure(e) => Settled(s.(storage := st), Some(Rejected(e)), redirect)
    case Success(d) =>
      if d.token.Some? && d.user.Some? then
        Settled(ClientState(StoreSession(st, d.token.value, d.user.value), d.user, true), None, redirect)
      else Settled(s, None, redirect)
  }

  /** The corrected registration keeps the session keys together. */
  lemma RegisterKeepsSessionComplete(s: ClientState, reply: ApiOutcome<RegisterData>)
    requires SessionComplete(s.storage)
    ensures SessionComplete(Register(s, reply).state.storage)
  {
  }
}
