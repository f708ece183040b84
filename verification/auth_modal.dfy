/** The login/register dialog: its submit handler and the two e-mail field
    handlers that maintain the mismatch error. Whether the session store's
    `login`/`register` throws is an input. */
module AuthModal {

  import opened Wrappers

  datatype Mode = LoginMode | RegisterMode

  datatype ModalState = ModalState(
    firstName: string,
    lastName: string,
    email: string,
    confirmEmail: string,
    password: string,
    emailError: string)

  datatype AuthCall = LoginCall(email: string, password: string)
                    | RegisterCall(firstName: string, lastName: string, email: string, password: string)

  /** The new state, the store call made, and whether `onClose` ran. */
  datatype Submitted = Submitted(state: ModalState, call: Option<AuthCall>, closed: bool)

  /** `handleSubmit`. `callThrows` says whether the awaited call rejects; a
      rejection escapes the handler, so `onClose` is skipped. */
  function HandleSubmit(m: ModalState, mode: Mode, callThrows: bool): (r: Submitted)
    ensures mode == RegisterMode && m.email != m.confirmEmail ==>
            r == Submitted(m.(emailError := "Emails do not match"), None, false)
    ensures mode == LoginMode ==> r.call == Some(LoginCall(m.email, m.password))
    ensures mode == RegisterMode && m.email == m.confirmEmail ==>
            r.call == Some(RegisterCall(m.firstName, m.lastName, m.email, m.password))
    ensures r.closed <==> r.call.Some? && !callThrows
  {
    match mode
    case LoginMode => Submitted(m, Some(LoginCall(m.email, m.password)), !callThrows)
    case RegisterMode =>
      if m.email != m.confirmEmail then Submitted(m.(emailError := "Emails do not match"), None, false)
      else Submitted(m, Some(RegisterCall(m.firstName, m.lastName, m.email, m.password)), !callThrows)
  }

  /** The login path never looks at the confirmation field. */
  lemma LoginIgnoresConfirmation(m: ModalState, other: string, callThrows: bool)
    ensures HandleSubmit(m.(confirmEmail := other), LoginMode, callThrows).call
            == HandleSubmit(m, LoginMode, callThrows).call
    ensures HandleSubmit(m.(confirmEmail := other), LoginMode, callThrows).closed
            == HandleSubmit(m, LoginMode, callThrows).closed
  {
  }

  /** `handleEmailChange`: set the e-mail and clear the error. */
  function HandleEmailChange(m: ModalState, value: string): (r: ModalState)
    ensures r.email == value && r.emailError == ""
    ensures r.(email := m.email, emailError := m.emailError) == m
  {
    m.(email := value, emailError := "")
  }

  /** `handleConfirmEmailChange`: set the confirmation and flag a mismatch
      with the current e-mail. */
  function HandleConfirmEmailChange(m: ModalState, value: string): (r: ModalState)
    ensures r.confirmEmail == value
    ensures r.emailError != "" <==> value != m.email
    ensures r.(confirmEmail := m.confirmEmail, emailError := m.emailError) == m
  {
    m.(confirmEmail := value, emailError := if value != m.email then "Emails do not match" else "")
  }

  /** After either handler the error is set only if the two fields differ,
      but editing the e-mail clears it even when they still differ. */
  lemma EmailEditClearsEvenOnMismatch(m: ModalState, value: string)
    requires value != m.confirmEmail
    ensures HandleEmailChange(m, value).emailError == ""
    ensures HandleEmailChange(m, value).email != HandleEmailChange(m, value).confirmEmail
  {
  }
}
