/** The login page: ordered validation (first failure wins), the call to the
    session store's `login`, the post-login redirect and the error shown. */
module LoginPage {

  import opened Wrappers
  import opened ClientApi
  import opened AuthContext
  import EmailPattern
  import JsText
  import ProtectedRoute

  datatype LoginForm = LoginForm(email: string, password: string)

  const MinPasswordLength: nat := 4

  /** `validateForm()`: None when every check passes, else the error of the
      first check that fails. There is no trimming. */
  function ValidateForm(f: LoginForm): (r: Option<string>)
    ensures f.email == "" || f.password == "" ==> r == Some("Please fill in all fields.")
    ensures f.email != "" && f.password != "" && !EmailPattern.RegexTest(f.email)
            ==> r == Some("Please enter a valid email.")
    ensures f.email != "" && f.password != "" && EmailPattern.RegexTest(f.email) && JsText.Utf16Length(f.password) < MinPasswordLength
            ==> r == Some("Password must be at least 4 characters.")
    ensures r.None? <==> f.email != "" && EmailPattern.RegexTest(f.email) && JsText.Utf16Length(f.password) >= MinPasswordLength
  {
    if f.email == "" || f.password == "" then Some("Please fill in all fields.")
    else if !EmailPattern.ContainsEmail(f.email) then Some("Please enter a valid email.")
    else if JsText.Utf16Length(f.password) < MinPasswordLength then Some("Password must be at least 4 characters.")
    else None
  }

  /** White space is not trimmed: a blank e-mail passes the first check and
      is caught by the pattern. */
  lemma BlankEmailPassesFirstCheck()
    ensures ValidateForm(LoginForm("   ", "secret")) == Some("Please enter a valid email.")
  {
    assert !EmailPattern.ContainsEmail("   ");
  }

  /** The length check counts UTF-16 code units: two characters outside the
      Basic Multilingual Plane already make a long enough password. */
  lemma TwoAstralCharactersAreLongEnough(email: string, a: char, b: char)
    requires email != "" && EmailPattern.RegexTest(email)
    requires JsText.IsAstral(a) && JsText.IsAstral(b)
    ensures ValidateForm(LoginForm(email, [a, b])).None?
  {
    assert [a, b][1..] == [b];
    assert JsText.Utf16Length([b]) == 2;
    assert JsText.Utf16Length([a, b]) == 4;
    assert EmailPattern.ContainsEmail(email);
  }

  /** `err.response?.data?.message || "Login failed."`. */
  function ErrorMessage(e: Thrown, fallback: string): (m: string)
    ensures e.Rejected? && e.error.HttpError? && e.error.message.Some? && e.error.message.value != ""
            ==> m == e.error.message.value
    ensures !(e.Rejected? && e.error.HttpError? && e.error.message.Some? && e.error.message.value != "")
            ==> m == fallback
  {
    if e.Rejected? && e.error.HttpError? && e.error.message.Some? && e.error.message.value != "" then e.error.message.value
    else fallback
  }

  /** What a submission leaves behind: the session store's state, the error
      shown, whether `login` was called, the in-app navigation, and the hard
      redirect the response interceptor ordered (a 401 reloads at /login). */
  datatype Submission = Submission(state: ClientState, error: string, loginCalled: bool,
                                   navigate: Option<string>, redirect: Option<string>)

  /** `handleSubmit`: clear the error, validate, call `login`, then route by
      the stored role or show the error. */
  function HandleSubmit(f: LoginForm, s: ClientState, reply: ApiOutcome<LoginData>): (r: Submission)
    ensures ValidateForm(f).Some? ==> r == Submission(s, ValidateForm(f).value, false, None, None)
    ensures ValidateForm(f).None? ==> r.loginCalled && r.state == Login(s, reply).state
    ensures r.navigate == Some("/admin") <==> ValidateForm(f).None? && reply.Success? && reply.data.user.role == "admin"
    ensures r.navigate == Some("/vacations") <==> ValidateForm(f).None? && reply.Success? && reply.data.user.role != "admin"
    ensures ValidateForm(f).None? && reply.Failure? ==>
            r.error == ErrorMessage(Rejected(reply.error), "Login failed.") && r.navigate.None?
    ensures r.redirect == Some("/login") <==> ValidateForm(f).None? && reply.Failure? && IsUnauthorized(reply.error)
    ensures r.redirect.Some? ==> r.redirect == Some("/login")
  {
    match ValidateForm(f)
    case Some(msg) => Submission(s, msg, false, None, None)
    case None =>
      var settled := Login(s, reply);
      var s1 := settled.state;
      match settled.thrown
      case Some(e) => Submission(s1, ErrorMessage(e, "Login failed."), true, None, settled.redirect)
      case None =>
        if Get(s1.storage, "role") == Some("admin") then Submission(s1, "", true, Some("/admin"), settled.redirect)
        else Submission(s1, "", true, Some("/vacations"), settled.redirect)
  }

  /** Every place a submission sends the browser is one the route guard
      then lets through or turns away as intended: after a successful login
      with a non-empty token the admin panel renders for an admin and the
      vacations page for anyone; after a 401 the stored session is gone, so
      the guard agrees with the interceptor's reload at /login. */
  lemma {:induction false} SubmitLandsWhereGuardAgrees(f: LoginForm, s: ClientState, reply: ApiOutcome<LoginData>)
    requires reply.Success? ==> reply.data.token != ""
    ensures var r := HandleSubmit(f, s, reply);
            && (r.navigate == Some("/admin") ==> ProtectedRoute.Guard(r.state.storage, Some("admin")) == ProtectedRoute.Render)
            && (r.navigate == Some("/vacations") ==> ProtectedRoute.Guard(r.state.storage, None) == ProtectedRoute.Render)
            && (r.redirect == Some("/login") ==> ProtectedRoute.Guard(r.state.storage, None) == ProtectedRoute.RedirectTo("/login"))
  {
    var r := HandleSubmit(f, s, reply);
    if r.navigate.Some? || r.redirect.Some? {
      var st := Login(s, reply).state.storage;
      assert r.state.storage == st;
      if reply.Success? {
        assert st["token"] == reply.data.token && st["role"] == reply.data.user.role;
      } else {
        assert "token" !in st;
      }
    }
  }
}
