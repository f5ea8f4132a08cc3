/** The data half of the migration from one `role_id` per user to the `role_user` pivot
    table, and of its reversal. Schema changes (dropping and re-adding the column and its
    foreign key) are not modelled; the users table is read back in the order it holds its rows,
    and so is the pivot table. */
module RoleMigration {
  import opened Basics

  /** A users row as the migration sees it: its id and its role_id column. */
  datatype UserRow = UserRow(id: int, roleId: Option<int>)

  datatype PivotRow = PivotRow(userId: int, roleId: int, createdAt: int, updatedAt: int)

  /** The rows `up` inserts: one per user with a role_id, in the order of the users. */
  function PivotOf(users: seq<UserRow>, now: int): (r: seq<PivotRow>)
    ensures forall p :: p in r ==> p.createdAt == now && p.updatedAt == now
    ensures forall p :: p in r <==> exists u :: u in users && u.roleId.Some? && p == PivotRow(u.id, u.roleId.value, now, now)
    ensures |r| <= |users|
  {
    if users == [] then []
    else
      var rest := PivotOf(users[1..], now);
      assert forall u :: u in users <==> u == users[0] || u in users[1..];
      if users[0].roleId.Some? then [PivotRow(users[0].id, users[0].roleId.value, now, now)] + rest else rest
  }

  /** One more user adds its pivot row, if any, after the rows of the users before it. */
  lemma {:induction false} PivotOfAppend(users: seq<UserRow>, u: UserRow, now: int)
    ensures PivotOf(users + [u], now)
            == PivotOf(users, now) + (if u.roleId.Some? then [PivotRow(u.id, u.roleId.value, now, now)] else [])
  {
    if users != [] {
      assert (users + [u])[1..] == users[1..] + [u];
      PivotOfAppend(users[1..], u, now);
    } else {
      assert [u][1..] == [];
    }
  }

  /** up: insert a pivot row for every user whose role_id is set. */
  method Up(users: seq<UserRow>, now: int) returns (pivot: seq<PivotRow>)
    ensures pivot == PivotOf(users, now)
  {
    pivot := [];
    var i := 0;
    while i < |users|
      invariant 0 <= i <= |users|
      invariant pivot == PivotOf(users[..i], now)
    {
      assert users[..i + 1] == users[..i] + [users[i]];
      PivotOfAppend(users[..i], users[i], now);
      if users[i].roleId.Some? {
        pivot := pivot + [PivotRow(users[i].id, users[i].roleId.value, now, now)];
      }
      i := i + 1;
    }
    assert users[..i] == users;
  }

  /** The role the reversal leaves on a user: that of the first pivot row naming the user. */
  function FirstRoleOf(pivot: seq<PivotRow>, userId: int): (r: Option<int>)
    ensures r.None? <==> forall i :: 0 <= i < |pivot| ==> pivot[i].userId != userId
    ensures r.Some? ==> exists i :: 0 <= i < |pivot| && pivot[i].userId == userId && pivot[i].roleId == r.value
                                    && forall j :: 0 <= j < i ==> pivot[j].userId != userId
  {
    if pivot == [] then None
    else if pivot[0].userId == userId then Some(pivot[0].roleId)
    else
      var rest := FirstRoleOf(pivot[1..], userId);
      assert forall i :: 1 <= i < |pivot| ==> pivot[i] == pivot[1..][i - 1];
      rest
  }

  /** Reading one more pivot row changes a user's first role only if there was none. */
  lemma {:induction false} FirstRoleOfAppend(pivot: seq<PivotRow>, p: PivotRow, userId: int)
    ensures FirstRoleOf(pivot + [p], userId) ==
      if FirstRoleOf(pivot, userId).Some? then FirstRoleOf(pivot, userId)
      else if p.userId == userId then Some(p.roleId) else None
  {
    if pivot != [] {
      assert (pivot + [p])[1..] == pivot[1..] + [p];
      FirstRoleOfAppend(pivot[1..], p, userId);
    }
  }

  /** down: with role_id re-added as null everywhere, each pivot row in turn sets the role of
      its user if that user has none yet. */
  method Down(userIds: seq<int>, pivot: seq<PivotRow>) returns (users: seq<UserRow>)
    ensures |users| == |userIds|
    ensures forall j :: 0 <= j < |users| ==> users[j] == UserRow(userIds[j], FirstRoleOf(pivot, userIds[j]))
  {
    users := seq(|userIds|, j requires 0 <= j < |userIds| => UserRow(userIds[j], None));
    var i := 0;
    while i < |pivot|
      invariant 0 <= i <= |pivot|
      invariant |users| == |userIds|
      invariant forall j :: 0 <= j < |users| ==> users[j] == UserRow(userIds[j], FirstRoleOf(pivot[..i], userIds[j]))
    {
      var p := pivot[i];
      users := seq(|users|, j requires 0 <= j < |users| =>
                 if users[j].id == p.userId && users[j].roleId.None? then users[j].(roleId := Some(p.roleId)) else users[j]);
      forall j | 0 <= j < |users|
        ensures users[j] == UserRow(userIds[j], FirstRoleOf(pivot[..i + 1], userIds[j]))
      {
        assert pivot[..i + 1] == pivot[..i] + [p];
        FirstRoleOfAppend(pivot[..i], p, userIds[j]);
      }
      i := i + 1;
    }
    assert pivot[..i] == pivot;
  }

  function Ids(users: seq<UserRow>): (r: seq<int>)
    ensures |r| == |users| && forall j :: 0 <= j < |users| ==> r[j] == users[j].id
  {
    seq(|users|, j requires 0 <= j < |users| => users[j].id)
  }

  /** user ids are the table's primary key. */
  predicate DistinctIds(users: seq<UserRow>)
  {
    forall i, j :: 0 <= i < j < |users| ==> users[i].id != users[j].id
  }

  /** With distinct ids, the first pivot row `up` wrote for a user carries that user's role. */
  lemma {:induction false} FirstRoleOfPivot(users: seq<UserRow>, now: int, j: int)
    requires DistinctIds(users) && 0 <= j < |users|
    ensures FirstRoleOf(PivotOf(users, now), users[j].id) == users[j].roleId
  {
    assert forall u :: u in users <==> u == users[0] || u in users[1..];
    if j != 0 {
      assert users[1..][j - 1] == users[j];
      assert DistinctIds(users[1..]);
      FirstRoleOfPivot(users[1..], now, j - 1);
    }
  }

  /** Running up and then down gives every user back the role_id it had. */
  lemma RoundTrip(users: seq<UserRow>, now: int)
    requires DistinctIds(users)
    ensures forall j :: 0 <= j < |users| ==> FirstRoleOf(PivotOf(users, now), Ids(users)[j]) == users[j].roleId
  {
    forall j | 0 <= j < |users|
      ensures FirstRoleOf(PivotOf(users, now), Ids(users)[j]) == users[j].roleId
    {
      FirstRoleOfPivot(users, now, j);
    }
  }

  /** Rows read after the first row naming a user do not change that user's first role. */
  lemma {:induction false} FirstRoleOfExtended(pivot: seq<PivotRow>, later: seq<PivotRow>, userId: int)
    requires FirstRoleOf(pivot, userId).Some?
    ensures FirstRoleOf(pivot + later, userId) == FirstRoleOf(pivot, userId)
  {
    if pivot[0].userId != userId {
      assert (pivot + later)[1..] == pivot[1..] + later;
      FirstRoleOfExtended(pivot[1..], later, userId);
    }
  }

  /** Roles granted after `up` come after its rows, so down still restores the original
      role of every user that had one. */
  lemma LaterGrantsDoNotChangeRestoredRole(users: seq<UserRow>, now: int, later: seq<PivotRow>, j: int)
    requires DistinctIds(users) && 0 <= j < |users| && users[j].roleId.Some?
    ensures FirstRoleOf(PivotOf(users, now) + later, users[j].id) == users[j].roleId
  {
    FirstRoleOfPivot(users, now, j);
    FirstRoleOfExtended(PivotOf(users, now), later, users[j].id);
  }
}
