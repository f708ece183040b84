/** The registration page: field edits, ordered validation and the payload
    posted to the server. */
module RegisterPage {

  import opened Wrappers
  import opened ClientApi
  import JsText
  import EmailPattern

  datatype RegisterForm = RegisterForm(
    firstName: string,
    lastName: string,
    email: string,
    confirmEmail: string,
    password: string)

  /** The `name` attribute of each input. */
  datatype Field = FirstName | LastName | Email | ConfirmEmail | Password

  /** The body of `POST /users/register`. */
  datatype RegisterPayload = RegisterPayload(firstName: string, lastName: string, email: string, password: string)

  /** `!x.trim()`. */
  predicate Blank(x: string) {
    JsText.Trim(x) == ""
  }

  /** `validateForm()`: None when every check passes, else the error of the
      first failing check, in the order: required (trimmed) fields, e-mail
      pattern, exact e-mail confirmation, password length. */
  function ValidateForm(f: RegisterForm): (r: Option<string>)
    ensures Blank(f.firstName) || Blank(f.lastName) || Blank(f.email) || Blank(f.confirmEmail)
            ==> r == Some("All fields are required.")
    ensures r == Some("Invalid email address.") <==>
            !(Blank(f.firstName) || Blank(f.lastName) || Blank(f.email) || Blank(f.confirmEmail))
            && !EmailPattern.RegexTest(f.email)
    ensures r == Some("Emails do not match.") <==>
            !(Blank(f.firstName) || Blank(f.lastName) || Blank(f.email) || Blank(f.confirmEmail))
            && EmailPattern.RegexTest(f.email) && f.email != f.confirmEmail
    ensures r == Some("Password must be at least 4 characters.") <==>
            !(Blank(f.firstName) || Blank(f.lastName) || Blank(f.email) || Blank(f.confirmEmail))
            && EmailPattern.RegexTest(f.email) && f.email == f.confirmEmail && JsText.Utf16Length(f.password) < 4
    ensures r.None? <==>
            && !JsText.AllWhitespace(f.firstName) && !JsText.AllWhitespace(f.lastName)
            && !JsText.AllWhitespace(f.email) && !JsText.AllWhitespace(f.confirmEmail)
            && EmailPattern.RegexTest(f.email) && f.email == f.confirmEmail && JsText.Utf16Length(f.password) >= 4
  {
    if Blank(f.firstName) || Blank(f.lastName) || Blank(f.email) || Blank(f.confirmEmail) then
      Some("All fields are required.")
    else if !EmailPattern.ContainsEmail(f.email) then Some("Invalid email address.")
    else if f.email != f.confirmEmail then Some("Emails do not match.")
    else if JsText.Utf16Length(f.password) < 4 then Some("Password must be at least 4 characters.")
    else None
  }

  /** The password is not part of the required-fields check: a form whose
      names are filled in and whose address matches and is confirmed is
      reported as having a too-short password when the password is empty. */
  lemma EmptyPasswordIsTooShort(f: RegisterForm)
    requires !JsText.AllWhitespace(f.firstName) && !JsText.AllWhitespace(f.lastName)
    requires EmailPattern.RegexTest(f.email) && f.confirmEmail == f.email
    requires f.password == ""
    ensures ValidateForm(f) == Some("Password must be at least 4 characters.")
  {
    MatchingAddressNotBlank(f.email);
  }

  /** The required-fields check trims, but the confirmation is compared
      exactly: an address confirmed with a trailing space passes the first
      check and fails the comparison. */
  lemma ConfirmationIsExact(f: RegisterForm)
    requires !JsText.AllWhitespace(f.firstName) && !JsText.AllWhitespace(f.lastName)
    requires EmailPattern.RegexTest(f.email)
    requires f.confirmEmail == f.email + " "
    ensures ValidateForm(f) == Some("Emails do not match.")
  {
    MatchingAddressNotBlank(f.email);
    MatchingAddressNotBlank(f.confirmEmail);
    assert |f.email| != |f.confirmEmail|;
  }

  /** An address the pattern accepts, with or without a trailing space, is
      not blank: its `@` is not white space. */
  lemma MatchingAddressNotBlank(s: string)
    requires EmailPattern.RegexTest(s) || (|s| > 0 && EmailPattern.RegexTest(s[..|s| - 1]))
    ensures !Blank(s)
  {
    var t := if EmailPattern.RegexTest(s) then s else s[..|s| - 1];
    var i, a, d, e :| EmailPattern.MatchAt(t, i, a, d, e);
    assert s[a] == t[a] == '@';
  }

  /** `handleChange`: set the named field; editing either e-mail field clears
      the error, other edits keep it. */
  function HandleChange(f: RegisterForm, error: string, field: Field, value: string): (r: (RegisterForm, string))
    ensures r.1 == (if field == Email || field == ConfirmEmail then "" else error)
    ensures r.0.firstName == (if field == FirstName then value else f.firstName)
    ensures r.0.lastName == (if field == LastName then value else f.lastName)
    ensures r.0.email == (if field == Email then value else f.email)
    ensures r.0.confirmEmail == (if field == ConfirmEmail then value else f.confirmEmail)
    ensures r.0.password == (if field == Password then value else f.password)
  {
    var f' := match field
      case FirstName => f.(firstName := value)
      case LastName => f.(lastName := value)
      case Email => f.(email := value)
      case ConfirmEmail => f.(confirmEmail := value)
      case Password => f.(password := value);
    (f', if field == Email || field == ConfirmEmail then "" else error)
  }

  /** The posted body: the four fields as typed, untrimmed; the confirmation
      is dropped. */
  function Payload(f: RegisterForm): (p: RegisterPayload)
    ensures p.firstName == f.firstName && p.lastName == f.lastName
    ensures p.email == f.email && p.password == f.password
  {
    RegisterPayload(f.firstName, f.lastName, f.email, f.password)
  }

  datatype Submission = Submission(error: string, sent: Option<RegisterPayload>, navigate: Option<string>)

  /** `handleSubmit`: validate, post, then go to /login or show the error. */
  function HandleSubmit(f: RegisterForm, reply: ApiOutcome<()>): (r: Submission)
    ensures ValidateForm(f).Some? ==> r == Submission(ValidateForm(f).value, None, None)
    ensures ValidateForm(f).None? ==> r.sent == Some(Payload(f))
    ensures r.navigate == Some("/login") <==> ValidateForm(f).None? && reply.Success?
    ensures ValidateForm(f).None? && reply.Failure? && reply.error.HttpError?
            && reply.error.message.Some? && reply.error.message.value != ""
            ==> r.error == reply.error.message.value
    ensures ValidateForm(f).None? && reply.Failure?
            && !(reply.error.HttpError? && reply.error.message.Some? && reply.error.message.value != "")
            ==> r.error == "Registration failed."
    ensures ValidateForm(f).None? && reply.Success? ==> r.error == ""
  {
    match ValidateForm(f)
    case Some(msg) => Submission(msg, None, None)
    case None =>
      match reply
      case Success(_) => Submission("", Some(Payload(f)), Some("/login"))
      case Failure(e) =>
        var msg := if e.HttpError? && e.message.Some? && e.message.value != "" then e.message.value
                   else "Registration failed.";
        Submission(msg, Some(Payload(f)), None)
  }
}
