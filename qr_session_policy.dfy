/** Who may manage QR sessions and who may scan them. */
module QrSessionPolicy {
  import opened Roles
  import opened QrSessionModel

  predicate ViewAny(u: User)
  {
    IsAdmin(u)
  }

  predicate Create(u: User)
  {
    IsAdmin(u)
  }

  predicate Update(u: User, s: QrSession)
  {
    IsAdmin(u)
  }

  predicate Delete(u: User, s: QrSession)
  {
    IsAdmin(u)
  }

  /** An active account holding the 'user' role. */
  predicate Scan(u: User)
  {
    u.isActive && IsUser(u)
  }

  lemma ManagementIsAdminOnly(u: User, s: QrSession)
    ensures ViewAny(u) <==> "admin" in u.roles
    ensures Create(u) <==> "admin" in u.roles
    ensures Update(u, s) <==> "admin" in u.roles
    ensures Delete(u, s) <==> "admin" in u.roles
  {
  }

  /** The management abilities look neither at the session nor at the account's activity. */
  lemma ManagementIgnoresSessionAndActivity(u: User, s: QrSession, t: QrSession, active: bool)
    ensures Update(u, s) == Update(u.(isActive := active), t)
    ensures Delete(u, s) == Delete(u.(isActive := active), t)
    ensures Create(u) == Create(u.(isActive := active))
  {
  }

  lemma ScanNeedsActiveUserRole(u: User)
    ensures Scan(u) <==> u.isActive && "user" in u.roles
    ensures !u.isActive ==> !Scan(u)
    ensures IsAdmin(u) && !IsUser(u) ==> !Scan(u)
  {
  }
}
