/** Who may see, create, edit, delete users and assign their roles. */
module UserPolicy {
  import opened Roles

  predicate ViewAny(u: User)
  {
    IsAdmin(u)
  }

  /** One's own profile, or anyone's for an admin. */
  predicate View(u: User, model: User)
  {
    u.id == model.id || IsAdmin(u)
  }

  predicate Create(u: User)
  {
    IsAdmin(u)
  }

  predicate Update(u: User, model: User)
  {
    IsAdmin(u)
  }

  /** An admin may delete anyone but themselves. */
  predicate Delete(u: User, model: User)
  {
    IsAdmin(u) && u.id != model.id
  }

  predicate AssignRole(u: User)
  {
    IsAdmin(u)
  }

  lemma AdminOnlyAbilities(u: User, model: User)
    ensures ViewAny(u) <==> "admin" in u.roles
    ensures Create(u) <==> "admin" in u.roles
    ensures Update(u, model) <==> "admin" in u.roles
    ensures AssignRole(u) <==> "admin" in u.roles
  {
  }

  lemma ViewSelfOrAdmin(u: User, model: User)
    ensures View(u, model) <==> u.id == model.id || "admin" in u.roles
  {
  }

  lemma NoSelfDeletion(u: User)
    ensures !Delete(u, u)
  {
  }

  lemma DeleteImpliesUpdate(u: User, model: User)
    ensures Delete(u, model) ==> Update(u, model)
    ensures Delete(u, model) <==> "admin" in u.roles && u.id != model.id
  {
  }
}
