/** The `roleCheck(roles)` middleware (middlewares/roleCheck.js). */
module RoleCheck {
  import opened Wrappers
  import opened Http
  import opened Auth

  /** Either `next()` is called or one response is sent. */
  datatype Verdict = Next | Respond(response: Response)

  /**
   * `roles.includes(req.user.role)`. With no `req.user` the property access
   * throws, and Express's default error handler answers 500.
   */
  function RoleCheck(roles: seq<string>, user: Option<Identity>): (v: Verdict)
    ensures v.Next? <==> user.Some? && user.value.role in roles
    ensures user.Some? && user.value.role !in roles ==> v == Respond(Reply(403, Error("Access denied.")))
    ensures user.None? ==> v.Respond? && v.response.Reply? && v.response.status == 500
  {
    if user.None? then Respond(Reply(500, ErrorPage("TypeError: Cannot read properties of undefined (reading 'role')")))
    else if user.value.role !in roles then Respond(Reply(403, Error("Access denied.")))
    else Next
  }

  /** The verdict depends on the role alone. */
  lemma ReadsOnlyRole(roles: seq<string>, u1: Identity, u2: Identity)
    requires u1.role == u2.role
    ensures RoleCheck(roles, Some(u1)) == RoleCheck(roles, Some(u2))
  {
  }

  /** An empty list rejects every request, where `auth` with an empty list admits every role. */
  lemma EmptyListDiffers(u: Identity)
    ensures RoleCheck([], Some(u)) == Respond(Reply(403, Error("Access denied.")))
    ensures RoleAllowed([], u.role)
  {
  }

  /** On a non-empty list the two middlewares' role gates agree. */
  lemma AgreesWithAuthOnNonEmptyLists(roles: seq<string>, u: Identity)
    requires |roles| > 0
    ensures RoleCheck(roles, Some(u)).Next? <==> RoleAllowed(roles, u.role)
  {
  }
}
