/** The role queries of the User model: a user holds a set of role names through the
    role_user pivot table (role names are unique in the roles table). */
module Roles {

  datatype User = User(id: int, roles: set<string>, isActive: bool)

  const AdminRole: string := "admin"
  const HrRole: string := "hr"
  const UserRole: string := "user"

  /** `roles()->where('name', $role)->exists()` */
  predicate HasRole(u: User, role: string)
  {
    role in u.roles
  }

  predicate IsAdmin(u: User) { HasRole(u, AdminRole) }
  predicate IsHr(u: User) { HasRole(u, HrRole) }
  predicate IsUser(u: User) { HasRole(u, UserRole) }

  /** The held roles whose name is listed in `names` — the rows `whereIn('name', $names)` selects. */
  function HeldAmong(u: User, names: seq<string>): (held: set<string>)
    ensures held <= u.roles
    ensures forall r :: r in held <==> r in u.roles && r in names
  {
    set r | r in u.roles && r in names
  }

  /** `roles()->whereIn('name', $roles)->exists()` */
  predicate HasAnyRole(u: User, names: seq<string>)
  {
    HeldAmong(u, names) != {}
  }

  /** `roles()->whereIn('name', $roles)->count() === count($roles)`: compares a count of distinct
      held roles with the length of the list, duplicates included. */
  predicate HasAllRoles(u: User, names: seq<string>)
  {
    |HeldAmong(u, names)| == |names|
  }

  /** A list without repeated names. */
  predicate DuplicateFree(names: seq<string>)
  {
    forall i, j :: 0 <= i < j < |names| ==> names[i] != names[j]
  }

  lemma HasAnyRoleMeansSomeListedRoleHeld(u: User, names: seq<string>)
    ensures HasAnyRole(u, names) <==> exists i :: 0 <= i < |names| && HasRole(u, names[i])
  {
    if HasAnyRole(u, names) {
      var r :| r in HeldAmong(u, names);
      var i :| 0 <= i < |names| && names[i] == r;
      assert HasRole(u, names[i]);
    } else {
      forall i | 0 <= i < |names| ensures !HasRole(u, names[i]) {
        assert names[i] !in HeldAmong(u, names);
      }
    }
  }

  lemma HasAnyRoleOfEmptyList(u: User)
    ensures !HasAnyRole(u, [])
  {
    assert HeldAmong(u, []) == {};
  }

  lemma HasRoleImpliesHasAnyRole(u: User, r: string, names: seq<string>)
    requires HasRole(u, r) && r in names
    ensures HasAnyRole(u, names)
  {
    assert r in HeldAmong(u, names);
  }

  lemma HasAllRolesOfEmptyList(u: User)
    ensures HasAllRoles(u, [])
  {
    assert HeldAmong(u, []) == {};
  }

  /** The distinct names of a duplicate-free list are as many as its entries. */
  lemma {:induction false} DistinctNamesCount(names: seq<string>)
    requires DuplicateFree(names)
    ensures |set r | r in names| == |names|
  {
    if names != [] {
      var rest := names[1..];
      assert DuplicateFree(rest) by {
        forall i, j | 0 <= i < j < |rest| ensures rest[i] != rest[j] {
          assert rest[i] == names[i + 1] && rest[j] == names[j + 1];
        }
      }
      DistinctNamesCount(rest);
      assert names[0] !in rest by {
        forall k | 0 <= k < |rest| ensures rest[k] != names[0] {
          assert rest[k] == names[k + 1];
        }
      }
      assert (set r | r in names) == (set r | r in rest) + {names[0]} by {
        assert names == [names[0]] + rest;
      }
    }
  }

  /** A subset as large as its superset is the superset. */
  lemma SubsetOfSameSize<T>(a: set<T>, b: set<T>)
    requires a <= b && |a| == |b|
    ensures a == b
  {
    assert b == a + (b - a);
    assert a * (b - a) == {};
    assert |b - a| == 0;
    forall x | x in b ensures x in a { assert x !in b - a; }
  }

  /** For a duplicate-free list, HasAllRoles means every listed role is held. */
  lemma HasAllRolesOfDistinctList(u: User, names: seq<string>)
    requires DuplicateFree(names)
    ensures HasAllRoles(u, names) <==> forall i :: 0 <= i < |names| ==> HasRole(u, names[i])
  {
    var listed := set r | r in names;
    DistinctNamesCount(names);
    assert HeldAmong(u, names) <= listed;
    if forall i :: 0 <= i < |names| ==> HasRole(u, names[i]) {
      assert HeldAmong(u, names) == listed;
    }
    if HasAllRoles(u, names) {
      SubsetOfSameSize(HeldAmong(u, names), listed);
      forall i | 0 <= i < |names| ensures HasRole(u, names[i]) {
        assert names[i] in listed;
      }
    }
  }

  /** With a repeated name the count comparison fails although every listed role is held. */
  lemma HasAllRolesFailsWithDuplicates()
    ensures var u := User(1, {AdminRole}, true);
      HasRole(u, AdminRole) && !HasAllRoles(u, [AdminRole, AdminRole])
  {
    var u := User(1, {AdminRole}, true);
    assert HeldAmong(u, [AdminRole, AdminRole]) == {AdminRole};
  }
}
