/** The `users` table and the three queries the session handlers run
    against it. The table is an immutable sequence of rows in storage order;
    a query that returns "the first row" returns the earliest matching one.
    A store call that throws is an explicit outcome. */
module UserModel {

  import opened Wrappers

  /** The role given to a new account when none is passed. */
  const DefaultRole: string := "user"

  /** One row: identity, names, login e-mail, bcrypt hash, role and the
      mirrored session (token string and sliding expiry, in seconds). */
  datatype User = User(
    userId: int,
    firstName: string,
    lastName: string,
    email: string,
    password: string,
    role: string,
    token: Option<string>,
    tokenExpire: Option<int>)

  type Table = seq<User>

  /** Outcome of a store call: its result, or the error it rethrows. */
  datatype StoreResult<T> = Done(value: T) | Threw

  /** The mirrored session fields are set together or not at all. */
  predicate TokenFieldsPaired(t: Table) {
    forall i :: 0 <= i < |t| ==> (t[i].token.None? <==> t[i].tokenExpire.None?)
  }

  /** No two rows share a user id (the table's primary key). */
  predicate UniqueIds(t: Table) {
    forall i, j :: 0 <= i < j < |t| ==> t[i].userId != t[j].userId
  }

  /** No two rows share an e-mail. */
  predicate UniqueEmails(t: Table) {
    forall i, j :: 0 <= i < j < |t| ==> t[i].email != t[j].email
  }

  /** Index of the first row satisfying `p`. */
  function FirstWhere(t: Table, p: User -> bool): (r: Option<nat>)
    ensures r.Some? ==> r.value < |t| && p(t[r.value])
    ensures r.Some? ==> forall j :: 0 <= j < r.value ==> !p(t[j])
    ensures r.None? ==> forall j :: 0 <= j < |t| ==> !p(t[j])
  {
    if |t| == 0 then None
    else if p(t[0]) then Some(0)
    else match FirstWhere(t[1..], p)
      case None => None
      case Some(k) => Some(k + 1)
  }

  /** `SELECT * FROM users WHERE email = ?`, first row or null. */
  function FindUserByEmail(t: Table, email: string): (r: Option<User>)
    ensures r.None? <==> forall j :: 0 <= j < |t| ==> t[j].email != email
    ensures r.Some? ==> exists i :: 0 <= i < |t| && t[i] == r.value && t[i].email == email
                                    && forall j :: 0 <= j < i ==> t[j].email != email
  {
    match FirstWhere(t, (u: User) => u.email == email)
    case None => None
    case Some(i) => Some(t[i])
  }

  /** `SELECT * FROM users WHERE user_id = ?`, first row or none. */
  function FindUserById(t: Table, id: int): (r: Option<User>)
    ensures r.None? <==> forall j :: 0 <= j < |t| ==> t[j].userId != id
    ensures r.Some? ==> exists i :: 0 <= i < |t| && t[i] == r.value && t[i].userId == id
  {
    match FirstWhere(t, (u: User) => u.userId == id)
    case None => None
    case Some(i) => Some(t[i])
  }

  /** The id the auto-increment column hands out next: one past the largest
      id in use. */
  function NextUserId(t: Table): (r: int)
    ensures forall j :: 0 <= j < |t| ==> t[j].userId < r
  {
    if |t| == 0 then 1
    else
      var rest := NextUserId(t[1..]);
      assert forall j :: 1 <= j < |t| ==> t[j] == t[1..][j - 1];
      if t[0].userId + 1 > rest then t[0].userId + 1 else rest
  }

  /** `INSERT INTO users (...) VALUES (...)`: one new row with no session,
      or the store error rethrown. */
  function CreateUser(t: Table, firstName: string, lastName: string, email: string,
                      hashedPassword: string, role: string, fails: bool): (r: StoreResult<Table>)
    ensures fails <==> r.Threw?
    ensures r.Done? ==> |r.value| == |t| + 1 && r.value[..|t|] == t
    ensures r.Done? ==>
      var u := r.value[|t|];
      && u.firstName == firstName && u.lastName == lastName && u.email == email
      && u.password == hashedPassword && u.role == role
      && u.token.None? && u.tokenExpire.None?
      && forall j :: 0 <= j < |t| ==> t[j].userId != u.userId
  {
    if fails then Threw
    else Done(t + [User(NextUserId(t), firstName, lastName, email, hashedPassword, role, None, None)])
  }

  /** The row after `UPDATE users SET token = ?, token_expire = ?`. */
  function WithSession(u: User, token: Option<string>, expire: Option<int>): User {
    u.(token := token, tokenExpire := expire)
  }

  /** `UPDATE ... WHERE email = ?` over every row, as one statement. */
  function SetSessionWhereEmail(t: Table, email: string, token: Option<string>, expire: Option<int>): (r: Table)
    ensures |r| == |t|
    ensures forall i :: 0 <= i < |t| && t[i].email == email ==> r[i] == WithSession(t[i], token, expire)
    ensures forall i :: 0 <= i < |t| && t[i].email != email ==> r[i] == t[i]
  {
    seq(|t|, i requires 0 <= i < |t| => if t[i].email == email then WithSession(t[i], token, expire) else t[i])
  }

  /** `UPDATE users SET token = NULL, token_expire = NULL WHERE token = ?`. */
  function ClearSessionWhereToken(t: Table, token: string): (r: Table)
    ensures |r| == |t|
    ensures forall i :: 0 <= i < |t| && t[i].token == Some(token) ==> r[i] == WithSession(t[i], None, None)
    ensures forall i :: 0 <= i < |t| && t[i].token != Some(token) ==> r[i] == t[i]
  {
    seq(|t|, i requires 0 <= i < |t| => if t[i].token == Some(token) then WithSession(t[i], None, None) else t[i])
  }

  /** `updateUserToken`: both session fields in one statement on the rows
      with that e-mail, or the store error rethrown. */
  function UpdateUserToken(t: Table, email: string, token: Option<string>, expire: Option<int>,
                           fails: bool): (r: StoreResult<Table>)
    ensures fails <==> r.Threw?
    ensures r.Done? ==> r.value == SetSessionWhereEmail(t, email, token, expire)
  {
    if fails then Threw else Done(SetSessionWhereEmail(t, email, token, expire))
  }

  /** A paired write (both null or both set) keeps every row's session fields
      paired. */
  lemma SetSessionKeepsPairing(t: Table, email: string, token: Option<string>, expire: Option<int>)
    requires TokenFieldsPaired(t)
    requires token.None? <==> expire.None?
    ensures TokenFieldsPaired(SetSessionWhereEmail(t, email, token, expire))
  {
  }

  /** Clearing by token keeps every row's session fields paired. */
  lemma ClearSessionKeepsPairing(t: Table, token: string)
    requires TokenFieldsPaired(t)
    ensures TokenFieldsPaired(ClearSessionWhereToken(t, token))
  {
  }

  /** Session writes touch no identity column, so uniqueness of ids and
      e-mails survives them. */
  lemma SessionWritesKeepKeys(t: Table, email: string, token: Option<string>, expire: Option<int>, clear: string)
    requires UniqueIds(t) && UniqueEmails(t)
    ensures UniqueIds(SetSessionWhereEmail(t, email, token, expire))
    ensures UniqueEmails(SetSessionWhereEmail(t, email, token, expire))
    ensures UniqueIds(ClearSessionWhereToken(t, clear))
    ensures UniqueEmails(ClearSessionWhereToken(t, clear))
  {
  }
}
