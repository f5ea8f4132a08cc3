/** Who may see, record, edit, delete and export attendance records. */
module AttendancePolicy {
  import opened Roles
  import opened AttendanceModel

  predicate ViewAny(u: User)
  {
    IsAdmin(u) || IsHr(u)
  }

  /** The owner of a record, or any admin or hr user. */
  predicate View(u: User, a: Attendance)
  {
    u.id == a.userId || IsAdmin(u) || IsHr(u)
  }

  /** Any active account, whatever its roles. */
  predicate Create(u: User)
  {
    u.isActive
  }

  predicate Update(u: User, a: Attendance)
  {
    IsAdmin(u) || IsHr(u)
  }

  predicate Delete(u: User, a: Attendance)
  {
    IsAdmin(u)
  }

  predicate Export(u: User)
  {
    IsAdmin(u) || IsHr(u)
  }

  /** viewAny, update and export all come down to holding the admin or the hr role. */
  lemma StaffAbilities(u: User, a: Attendance)
    ensures ViewAny(u) <==> "admin" in u.roles || "hr" in u.roles
    ensures Update(u, a) <==> ViewAny(u)
    ensures Export(u) <==> ViewAny(u)
  {
  }

  lemma ViewOwnOrStaff(u: User, a: Attendance)
    ensures View(u, a) <==> u.id == a.userId || ViewAny(u)
  {
  }

  lemma CreateIgnoresRoles(u: User, roles: set<string>)
    ensures Create(u) <==> Create(u.(roles := roles))
    ensures Create(u) <==> u.isActive
  {
  }

  lemma DeleteImpliesUpdate(u: User, a: Attendance)
    ensures Delete(u, a) <==> "admin" in u.roles
    ensures Delete(u, a) ==> Update(u, a)
  {
  }

  /** Whether a user may edit a record does not depend on the record. */
  lemma UpdateIgnoresRecord(u: User, a: Attendance, b: Attendance)
    ensures Update(u, a) == Update(u, b)
  {
  }
}
