/** The browser's HTTP client: the request interceptor that attaches the
    stored credential and the response interceptor that wipes the stored
    session on a 401. `localStorage` is a map from keys to strings. */
module ClientApi {

  import opened Wrappers

  type Storage = map<string, string>

  /** The four keys the client writes for a session. */
  const SessionKeys: set<string> := {"token", "role", "name", "id"}

  /** `localStorage.getItem(key)`. */
  function Get(st: Storage, key: string): Option<string> {
    if key in st then Some(st[key]) else None
  }

  /** `if (token)`: present and not the empty string. */
  predicate HasToken(st: Storage) {
    "token" in st && st["token"] != ""
  }

  /** A failed request: an HTTP error response (status and optional
      `data.message`), a request that got no response, or one that could
      not be set up. */
  datatype ApiError = HttpError(status: int, message: Option<string>) | NoResponse | SetupError

  datatype ApiOutcome<T> = Success(data: T) | Failure(error: ApiError)

  /** The request interceptor: `Authorization: Bearer <token>` when a token
      is stored, the headers untouched otherwise. */
  function RequestHeaders(st: Storage, headers: map<string, string>): (r: map<string, string>)
    ensures HasToken(st) ==> r.Keys == headers.Keys + {"Authorization"}
                             && r["Authorization"] == "Bearer " + st["token"]
                             && forall k :: k in headers && k != "Authorization" ==> r[k] == headers[k]
    ensures !HasToken(st) ==> r == headers
  {
    if HasToken(st) then headers["Authorization" := "Bearer " + st["token"]] else headers
  }

  /** `removeItem` of the four session keys. */
  function ClearSession(st: Storage): (r: Storage)
    ensures r.Keys == st.Keys - SessionKeys
    ensures forall k :: k in r ==> r[k] == st[k]
  {
    map k | k in st && k !in SessionKeys :: st[k]
  }

  predicate IsUnauthorized(e: ApiError) {
    e.HttpError? && e.status == 401
  }

  /** A response passed through the response interceptor: the storage after
      it, the outcome the caller sees and the hard redirect it orders.
      Successes pass unchanged; every error is rejected back to the caller;
      a 401 response also clears the session and sends the page to /login. */
  function Call<T>(st: Storage, outcome: ApiOutcome<T>): (r: (Storage, ApiOutcome<T>, Option<string>))
    ensures r.1 == outcome
    ensures outcome.Failure? && IsUnauthorized(outcome.error) ==> r.0 == ClearSession(st) && r.2 == Some("/login")
    ensures !(outcome.Failure? && IsUnauthorized(outcome.error)) ==> r.0 == st && r.2 == None
  {
    match outcome
    case Success(_) => (st, outcome, None)
    case Failure(e) => if IsUnauthorized(e) then (ClearSession(st), outcome, Some("/login")) else (st, outcome, None)
  }

  /** The four session keys are stored together or not at all. */
  predicate SessionComplete(st: Storage) {
    ("token" in st <==> "role" in st) && ("token" in st <==> "name" in st) && ("token" in st <==> "id" in st)
  }

  /** The interceptor never leaves a partial session behind. */
  lemma CallKeepsSessionComplete<T>(st: Storage, outcome: ApiOutcome<T>)
    requires SessionComplete(st)
    ensures SessionComplete(Call(st, outcome).0)
  {
  }
}
