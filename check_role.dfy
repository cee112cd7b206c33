// middleware/check_role.js: `checkRole(role)` returns a middleware that lets
// the request through when `req.user.role` is strictly equal to `role` and
// otherwise answers 403. The closure is modelled as a function of the
// captured role and of req.user.

module RoleGate {
  import opened Api

  /** MESSAGES.ACCESS_DENIED of config/constants.js. */
  const AccessDenied := "Access denied"

  /** `checkRole(role)(req, res, next)` with req.user given; None is an
      undefined req.user, whose `.role` throws. */
  function CheckRole(role: string, user: Option<Claims>): (r: Outcome)
    ensures r == Continue <==> user.Some? && user.value.role == Str(role)
    ensures r.Raise? <==> user.None?
    ensures r.Respond? ==> r == Respond(403, Message(AccessDenied))
  {
    match user
    case None => Raise(TypeError)
    case Some(claims) =>
      if claims.role != Str(role) then Respond(403, Message(AccessDenied)) else Continue
  }

  /** The comparison is strict string equality: case matters. */
  lemma RoleComparisonIsCaseSensitive(username: Value)
    ensures CheckRole("admin", Some(Claims(username, Str("Admin")))) == Respond(403, Message(AccessDenied))
    ensures CheckRole("admin", Some(Claims(username, Str("admin")))) == Continue
  {
  }

  /** Only the role claim and the captured role decide; the rest of the
      payload plays no part. */
  lemma DecidedByRoleAlone(role: string, a: Claims, b: Claims)
    requires a.role == b.role
    ensures CheckRole(role, Some(a)) == CheckRole(role, Some(b))
  {
  }

  /** A payload without a role claim, such as the one /login signs, is
      denied whatever role the route asks for. */
  lemma MissingRoleDenied(role: string, username: Value)
    ensures CheckRole(role, Some(Claims(username, Undefined))) == Respond(403, Message(AccessDenied))
  {
  }

  /** After `auth` has called next() for a token that failed verification,
      req.user is undefined and checkRole throws. */
  lemma UndefinedUserThrows(role: string)
    ensures CheckRole(role, None) == Raise(TypeError)
  {
  }
}
