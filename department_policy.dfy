/** Who may manage departments: admins only. */
module DepartmentPolicy {
  import opened Roles

  datatype Department = Department(id: int, name: string, isActive: bool)

  predicate ViewAny(u: User)
  {
    IsAdmin(u)
  }

  predicate View(u: User, d: Department)
  {
    IsAdmin(u)
  }

  predicate Create(u: User)
  {
    IsAdmin(u)
  }

  predicate Update(u: User, d: Department)
  {
    IsAdmin(u)
  }

  predicate Delete(u: User, d: Department)
  {
    IsAdmin(u)
  }

  /** Every ability is exactly the admin role, whatever the department. */
  lemma AllAbilitiesAreAdmin(u: User, d: Department)
    ensures ViewAny(u) <==> "admin" in u.roles
    ensures View(u, d) <==> "admin" in u.roles
    ensures Create(u) <==> "admin" in u.roles
    ensures Update(u, d) <==> "admin" in u.roles
    ensures Delete(u, d) <==> "admin" in u.roles
  {
  }

  lemma NonAdminDeniedEverything(u: User, d: Department)
    requires !IsAdmin(u)
    ensures !ViewAny(u) && !View(u, d) && !Create(u) && !Update(u, d) && !Delete(u, d)
  {
  }
}
