/** The route table and `PrivateRoute` gate of App.tsx. A location is given
    as its path segments ("/student/fees" is ["student", "fees"]). */
module Routes {
  import opened Wrappers
  import opened Types
  import opened Auth

  /** What `PrivateRoute` renders: the guarded page, or a redirect. */
  datatype Gate = Allow | Redirect(to: string)

  /** The login route of a role, `/${role}/login`. */
  function LoginPath(role: Role): string
  {
    "/" + RoleName(role) + "/login"
  }

  /** `PrivateRoute`: a page guarded by `role` is shown iff someone is logged
      in with exactly that role; otherwise the visitor is sent to that role's
      login page. */
  function PrivateRoute(session: Session, role: Role): (g: Gate)
    ensures g.Allow? <==> session.Some? && session.value.1 == role
    ensures g.Redirect? ==> g.to == LoginPath(role)
  {
    if session.None? || session.value.1 != role then Redirect(LoginPath(role)) else Allow
  }

  /** What a location resolves to. */
  datatype Screen = Landing | LoginPage(role: Role) | Dashboard(role: Role) | Redirected(to: string)

  /** The route table: "/" is the landing page, "/<role>/login" the login
      page, "/<role>/..." (any deeper location) the role's dashboard behind `PrivateRoute`, and every
      other location redirects to "/". */
  function Resolve(session: Session, path: seq<string>): (s: Screen)
    ensures s.Dashboard? ==> |path| > 0 && path[0] == RoleName(s.role) &&
                             session.Some? && session.value.1 == s.role
    ensures s.LoginPage? ==> path == [RoleName(s.role), "login"]
    ensures |path| == 2 && path[1] == "login" && RoleOfName(path[0]).Some? ==>
              s == LoginPage(RoleOfName(path[0]).value)
    ensures s.Landing? <==> path == []
  {
    if |path| == 0 then Landing
    else
      match RoleOfName(path[0])
      case None => Redirected("/")
      case Some(role) =>
        if path[1..] == ["login"] then LoginPage(role)
        else
          (match PrivateRoute(session, role)
           case Allow => Dashboard(role)
           case Redirect(to) => Redirected(to))
  }

  /** Each prefix "/<role>/..." is guarded by exactly its own role: the
      dashboard appears iff the session role is that role, and otherwise the
      visitor lands on that role's login page. */
  lemma PrefixGuardedByOwnRole(session: Session, role: Role, rest: seq<string>)
    requires rest != ["login"]
    ensures Resolve(session, [RoleName(role)] + rest) ==
            (if session.Some? && session.value.1 == role then Dashboard(role)
             else Redirected(LoginPath(role)))
  {
    RoleNameRoundTrip(role);
    assert ([RoleName(role)] + rest)[1..] == rest;
  }

  /** A location whose first segment is not a role prefix redirects to "/". */
  lemma UnmatchedRedirectsHome(session: Session, path: seq<string>)
    requires |path| > 0 && forall role: Role :: RoleName(role) != path[0]
    ensures Resolve(session, path) == Redirected("/")
  {
  }

  /** After logout no guarded page is reachable. */
  lemma LogoutClosesEveryGate(session: Session, role: Role)
    ensures PrivateRoute(Logout(session), role) == Redirect(LoginPath(role))
  {
  }
}
