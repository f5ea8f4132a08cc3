/** The `role:...` route middleware: pass the request on when the user holds one of the
    listed roles, otherwise redirect to the dashboard of the user's own highest role. */
module CheckRole {
  import opened Basics
  import opened Roles

  datatype Route = Login | AdminDashboard | HrDashboard | EmployeeDashboard

  datatype Response = PassOn | Redirect(to: Route)

  /** The foreach over the listed roles, returning as soon as one is held. */
  function ScanRoles(u: User, roles: seq<string>): (found: bool)
    ensures found <==> exists i :: 0 <= i < |roles| && HasRole(u, roles[i])
  {
    if roles == [] then false
    else if HasRole(u, roles[0]) then true
    else
      var rest := ScanRoles(u, roles[1..]);
      assert forall i :: 1 <= i < |roles| ==> roles[i] == roles[1..][i - 1];
      rest
  }

  /** Where a user who lacks every listed role is sent: admin, else hr, else employee. */
  function DenialTarget(u: User): (to: Route)
    ensures to == AdminDashboard <==> IsAdmin(u)
    ensures to == HrDashboard <==> !IsAdmin(u) && IsHr(u)
    ensures to == EmployeeDashboard <==> !IsAdmin(u) && !IsHr(u)
  {
    if IsAdmin(u) then AdminDashboard
    else if IsHr(u) then HrDashboard
    else EmployeeDashboard
  }

  /** CheckRole::handle; `user` is None for an unauthenticated request. */
  function Handle(user: Option<User>, roles: seq<string>): (r: Response)
    ensures user.None? ==> r == Redirect(Login)
    ensures user.Some? ==> (r == PassOn <==> HasAnyRole(user.value, roles))
    ensures user.Some? && !HasAnyRole(user.value, roles) ==> r == Redirect(DenialTarget(user.value))
  {
    match user
    case None => Redirect(Login)
    case Some(u) =>
      HasAnyRoleMeansSomeListedRoleHeld(u, roles);
      if ScanRoles(u, roles) then PassOn else Redirect(DenialTarget(u))
  }

  /** An empty role list turns every authenticated user away. */
  lemma EmptyRoleListRedirects(u: User)
    ensures Handle(Some(u), []) == Redirect(DenialTarget(u))
  {
    HasAnyRoleOfEmptyList(u);
  }

  /** The redirect target depends on the user's roles only, never on the listed roles. */
  lemma DenialIgnoresListedRoles(u: User, roles1: seq<string>, roles2: seq<string>)
    requires Handle(Some(u), roles1).Redirect? && Handle(Some(u), roles2).Redirect?
    ensures Handle(Some(u), roles1) == Handle(Some(u), roles2)
  {
  }
}
