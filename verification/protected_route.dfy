/** The client's route guard: a decision over two storage reads. */
module ProtectedRoute {

  import opened Wrappers
  import opened ClientApi

  datatype Decision = RedirectTo(path: string) | Render

  /** `requiredRole &&`: given and not empty. */
  predicate RoleRequired(requiredRole: Option<string>) {
    requiredRole.Some? && requiredRole.value != ""
  }

  /** `ProtectedRoute({children, requiredRole})`. */
  function Guard(st: Storage, requiredRole: Option<string>): (d: Decision)
    ensures !HasToken(st) ==> d == RedirectTo("/login")
    ensures HasToken(st) && RoleRequired(requiredRole) && Get(st, "role") != requiredRole ==> d == RedirectTo("/")
    ensures d == Render <==> HasToken(st) && (!RoleRequired(requiredRole) || Get(st, "role") == requiredRole)
  {
    var token := Get(st, "token");
    var role := Get(st, "role");
    if token.None? || token.value == "" then RedirectTo("/login")
    else if RoleRequired(requiredRole) && role != requiredRole then RedirectTo("/")
    else Render
  }

  /** The guard reads only the stored token and role: two storages that agree
      on those two keys get the same decision, whatever else they hold and
      whether or not the token is still valid on the server. */
  lemma GuardReadsTwoKeys(st1: Storage, st2: Storage, requiredRole: Option<string>)
    requires Get(st1, "token") == Get(st2, "token") && Get(st1, "role") == Get(st2, "role")
    ensures Guard(st1, requiredRole) == Guard(st2, requiredRole)
  {
  }

  /** Roles are compared for equality, not ranked: an admin is sent away
      from a route that requires "user". */
  lemma AdminRedirectedFromUserRoute(token: string)
    requires token != ""
    ensures Guard(map["token" := token, "role" := "admin"], Some("user")) == RedirectTo("/")
  {
  }
}
