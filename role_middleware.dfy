/**
 * `authorizeRoles(roles)` (src/app/middleware/role.middleware.ts): a gate that
 * lets a request through when the caller's role is one of `roles`.
 */
module RoleMiddleware {
  import opened Common
  import opened Http
  import opened AuthMiddleware

  /** Either a response is sent, or `next()` is called. */
  datatype Decision = Respond(reply: Reply) | Next

  const Unauthorized := Reply(401, Message("Unauthorized"))
  const Forbidden := Reply(403, Message("Forbidden: You do not have access to this resource"))

  /** The decision for the `req.user` the authentication step left behind. */
  function AuthorizeRoles(roles: seq<string>, user: Option<Claims>): (d: Decision)
    ensures d == Respond(Unauthorized) <==> user.None?
    ensures d == Respond(Forbidden) <==> user.Some? && user.value.role !in roles
    ensures d == Next <==> user.Some? && user.value.role in roles
  {
    if user.None? then Respond(Unauthorized)
    else if user.value.role !in roles then Respond(Forbidden)
    else Next
  }

  /** The decision depends on the role alone, never on the user id. */
  lemma DecisionIgnoresUserId(roles: seq<string>, role: string, id1: int, id2: int)
    ensures AuthorizeRoles(roles, Some(Claims(id1, role))) == AuthorizeRoles(roles, Some(Claims(id2, role)))
  {
  }

  /** Widening the allowed list never turns an admitted caller away. */
  lemma MoreRolesAdmitMore(roles: seq<string>, more: seq<string>, user: Option<Claims>)
    requires forall r :: r in roles ==> r in more
    ensures AuthorizeRoles(roles, user) == Next ==> AuthorizeRoles(more, user) == Next
  {
  }
}
