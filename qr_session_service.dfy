/** The persisted QR-session lifecycle: admins issue sessions with a unique random token,
    invalidate and rotate them, a sweep deactivates expired ones, and a report counts them.
    Every issued session is also cached under `qr_session:{token}` until it expires. */
module QrSessionService {
  import opened Basics
  import opened Roles
  import opened QrSessionModel
  import opened CacheStore

  const TokenLength: nat := 32

  /** What `Str::random(32)` may return: the caller supplies the successive draws. */
  predicate RandomDraws(draws: seq<string>)
  {
    forall i :: 0 <= i < |draws| ==> |draws[i]| == TokenLength
  }

  /** Some draw is a token no row carries yet. */
  predicate EventuallyFresh(rows: seq<QrSession>, draws: seq<string>)
  {
    exists i :: 0 <= i < |draws| && !TokenTaken(rows, draws[i])
  }

  /** generateUniqueToken: draw until the token is not in the table. */
  method GenerateUniqueToken(table: SessionTable, draws: seq<string>) returns (token: string)
    requires RandomDraws(draws) && EventuallyFresh(table.rows, draws)
    ensures |token| == TokenLength && !TokenTaken(table.rows, token)
    ensures exists k :: 0 <= k < |draws| && token == draws[k]
                        && forall j :: 0 <= j < k ==> TokenTaken(table.rows, draws[j])
  {
    var i := 0;
    token := draws[0];
    while TokenTaken(table.rows, token)
      invariant 0 <= i < |draws| && token == draws[i]
      invariant forall j :: 0 <= j < i ==> TokenTaken(table.rows, draws[j])
      invariant exists k :: i <= k < |draws| && !TokenTaken(table.rows, draws[k])
      decreases |draws| - i
    {
      i := i + 1;
      token := draws[i];
    }
  }

  /** The snapshot cacheQrSession stores for a session. */
  function SnapshotOf(s: QrSession): Value
  {
    SessionSnapshot(s.id, s.qrType, s.validFrom, s.validUntil, s.isActive)
  }

  /** cacheQrSession: `qr_session:{token}` holds the snapshot until valid_until. */
  method CacheQrSession(cache: Cache, s: QrSession, now: int)
    modifies cache
    ensures cache.entries == Stored(old(cache.entries), QrSessionKey(s.token), SnapshotOf(s), s.validUntil, now)
  {
    cache.Put(QrSessionKey(s.token), SnapshotOf(s), s.validUntil, now);
  }

  /** generateQrSession: a new active row created by the admin, valid for `validMinutes`
      from now, cached until it expires. */
  method GenerateQrSession(table: SessionTable, cache: Cache, admin: User, qrType: QrType,
                           validMinutes: int, now: int, draws: seq<string>) returns (s: QrSession)
    requires table.Valid() && RandomDraws(draws) && EventuallyFresh(table.rows, draws)
    modifies table, cache
    ensures table.Valid()
    ensures table.rows == old(table.rows) + [s]
    ensures s.id == |old(table.rows)| + 1 && s.token in draws && |s.token| == TokenLength
    ensures !TokenTaken(old(table.rows), s.token)
    ensures s.qrType == qrType && s.isActive && s.createdBy == admin.id && s.createdAt == now
    ensures s.validFrom == now && s.validUntil == now + validMinutes * SecondsPerMinute
    ensures cache.entries == Stored(old(cache.entries), QrSessionKey(s.token), SnapshotOf(s), s.validUntil, now)
  {
    var token := GenerateUniqueToken(table, draws);
    var validFrom := now;
    var validUntil := now + validMinutes * SecondsPerMinute;
    s := table.Create(token, qrType, validFrom, validUntil, true, admin.id, now);
    CacheQrSession(cache, s, now);
  }

  /** The table after invalidateQrSession on row `id`. */
  function InvalidatedRows(rows: seq<QrSession>, id: int): (r: seq<QrSession>)
    requires WellFormed(rows) && 1 <= id <= |rows|
    ensures WellFormed(r) && |r| == |rows|
    ensures !r[id - 1].isActive && r[id - 1] == rows[id - 1].(isActive := false)
    ensures forall i :: 0 <= i < |rows| && i != id - 1 ==> r[i] == rows[i]
  {
    rows[id - 1 := rows[id - 1].(isActive := false)]
  }

  /** The cache after invalidateQrSession on row `id`: its `qr_session:{token}` key is gone. */
  function InvalidatedEntries(rows: seq<QrSession>, entries: map<Key, Entry>, id: int): (r: map<Key, Entry>)
    requires 1 <= id <= |rows|
    ensures QrSessionKey(rows[id - 1].token) !in r
    ensures forall k :: k != QrSessionKey(rows[id - 1].token) ==> (k in r <==> k in entries)
    ensures forall k :: k in r ==> r[k] == entries[k]
  {
    entries - {QrSessionKey(rows[id - 1].token)}
  }

  /** invalidateQrSession: deactivate one row and drop its cache key. */
  method InvalidateQrSession(table: SessionTable, cache: Cache, admin: User, id: int)
    requires table.Valid() && 1 <= id <= |table.rows|
    modifies table, cache
    ensures table.Valid()
    ensures table.rows == InvalidatedRows(old(table.rows), id)
    ensures cache.entries == InvalidatedEntries(old(table.rows), old(cache.entries), id)
  {
    var token := table.rows[id - 1].token;
    table.Deactivate(id);
    cache.Forget(QrSessionKey(token));
  }

  /** Invalidating twice leaves the same table and cache as invalidating once. */
  lemma InvalidateIdempotent(rows: seq<QrSession>, entries: map<Key, Entry>, id: int)
    requires WellFormed(rows) && 1 <= id <= |rows|
    ensures InvalidatedRows(InvalidatedRows(rows, id), id) == InvalidatedRows(rows, id)
    ensures InvalidatedEntries(InvalidatedRows(rows, id), InvalidatedEntries(rows, entries, id), id)
            == InvalidatedEntries(rows, entries, id)
  {
    var once := InvalidatedRows(rows, id);
    assert once[id - 1].token == rows[id - 1].token;
    assert InvalidatedRows(once, id) == once;
  }

  /** Every active snapshot under `qr_session:{t}` names a row that carries t and is active. */
  ghost predicate CacheCoherent(rows: seq<QrSession>, entries: map<Key, Entry>)
  {
    forall k :: k in entries && k.QrSessionKey? && entries[k].value.SessionSnapshot? && entries[k].value.isActive ==>
      var id := entries[k].value.id;
      1 <= id <= |rows| && rows[id - 1].token == k.token && rows[id - 1].isActive
  }

  /** getActiveQrSession: a cached active snapshot leads to `QrSession::find(id)`; otherwise
      the first row with the token that is active. No time window is checked. */
  function GetActiveQrSession(rows: seq<QrSession>, entries: map<Key, Entry>, token: string, now: int)
    : (r: Option<QrSession>)
    requires WellFormed(rows)
    ensures CacheCoherent(rows, entries) ==> r == FirstActiveByToken(rows, token)
    ensures CacheCoherent(rows, entries) && r.Some? ==> r.value.token == token && r.value.isActive
  {
    var cached := Lookup(entries, QrSessionKey(token), now);
    if cached.Some? && cached.value.SessionSnapshot? && cached.value.isActive then
      CacheHitAgrees(rows, entries, token, now);
      FindById(rows, cached.value.id)
    else
      FirstActiveByToken(rows, token)
  }

  /** On a coherent cache, the row an active snapshot names is the token's active row. */
  lemma CacheHitAgrees(rows: seq<QrSession>, entries: map<Key, Entry>, token: string, now: int)
    requires WellFormed(rows)
    requires var c := Lookup(entries, QrSessionKey(token), now); c.Some? && c.value.SessionSnapshot? && c.value.isActive
    ensures CacheCoherent(rows, entries) ==>
      FindById(rows, Lookup(entries, QrSessionKey(token), now).value.id) == FirstActiveByToken(rows, token)
  {
    if CacheCoherent(rows, entries) {
      var id := entries[QrSessionKey(token)].value.id;
      FirstActiveUniqueToken(rows, token, id - 1);
    }
  }

  /** Validity windows do not enter getActiveQrSession: a long-expired but active session is
      still returned. */
  lemma GetActiveIgnoresWindow()
    ensures var s := QrSession(1, "tok", CheckIn, 0, 60, true, 7, 0);
      GetActiveQrSession([s], map[], "tok", 1000) == Some(s) && !IsValid(s, 1000)
  {
  }

  /** Issuing a session keeps the cache coherent. */
  lemma GeneratePreservesCoherence(rows: seq<QrSession>, entries: map<Key, Entry>, s: QrSession, now: int)
    requires CacheCoherent(rows, entries) && s.id == |rows| + 1
    ensures CacheCoherent(rows + [s], Stored(entries, QrSessionKey(s.token), SnapshotOf(s), s.validUntil, now))
  {
    var rows' := rows + [s];
    var entries' := Stored(entries, QrSessionKey(s.token), SnapshotOf(s), s.validUntil, now);
    forall k | k in entries' && k.QrSessionKey? && entries'[k].value.SessionSnapshot? && entries'[k].value.isActive
      ensures var id := entries'[k].value.id; 1 <= id <= |rows'| && rows'[id - 1].token == k.token && rows'[id - 1].isActive
    {
      if k != QrSessionKey(s.token) {
        assert k in entries && entries'[k] == entries[k];
        var id := entries[k].value.id;
        assert rows'[id - 1] == rows[id - 1];
      }
    }
  }

  /** Invalidating a session keeps the cache coherent. */
  lemma InvalidatePreservesCoherence(rows: seq<QrSession>, entries: map<Key, Entry>, id: int)
    requires WellFormed(rows) && 1 <= id <= |rows| && CacheCoherent(rows, entries)
    ensures CacheCoherent(InvalidatedRows(rows, id), InvalidatedEntries(rows, entries, id))
  {
    var rows' := InvalidatedRows(rows, id);
    var entries' := InvalidatedEntries(rows, entries, id);
    forall k | k in entries' && k.QrSessionKey? && entries'[k].value.SessionSnapshot? && entries'[k].value.isActive
      ensures var j := entries'[k].value.id; 1 <= j <= |rows'| && rows'[j - 1].token == k.token && rows'[j - 1].isActive
    {
      assert entries'[k] == entries[k];
    }
  }

  /** rotateQrSession: invalidate the old session, then issue one of the same type. */
  method RotateQrSession(table: SessionTable, cache: Cache, admin: User, oldId: int, validMinutes: int,
                         now: int, draws: seq<string>) returns (s: QrSession)
    requires table.Valid() && 1 <= oldId <= |table.rows|
    requires RandomDraws(draws) && EventuallyFresh(InvalidatedRows(table.rows, oldId), draws)
    modifies table, cache
    ensures table.Valid()
    ensures table.rows == InvalidatedRows(old(table.rows), oldId) + [s]
    ensures !table.rows[oldId - 1].isActive
    ensures s.isActive && s.qrType == old(table.rows)[oldId - 1].qrType && s.createdBy == admin.id
    ensures s.token != old(table.rows)[oldId - 1].token
    ensures s.id == |old(table.rows)| + 1 && s.createdAt == now
    ensures s.validFrom == now && s.validUntil == now + validMinutes * SecondsPerMinute
    ensures cache.entries == Stored(InvalidatedEntries(old(table.rows), old(cache.entries), oldId),
                                    QrSessionKey(s.token), SnapshotOf(s), s.validUntil, now)
    ensures CacheCoherent(old(table.rows), old(cache.entries)) ==> CacheCoherent(table.rows, cache.entries)
  {
    var oldType := table.rows[oldId - 1].qrType;
    InvalidateQrSession(table, cache, admin, oldId);
    ghost var invalidated := table.rows;
    ghost var forgotten := cache.entries;
    s := GenerateQrSession(table, cache, admin, oldType, validMinutes, now, draws);
    assert !TokenTaken(invalidated, s.token);
    assert invalidated[oldId - 1].token == old(table.rows)[oldId - 1].token;
    if CacheCoherent(old(table.rows), old(cache.entries)) {
      InvalidatePreservesCoherence(old(table.rows), old(cache.entries), oldId);
      GeneratePreservesCoherence(invalidated, forgotten, s, now);
    }
  }

  /** The row condition of cleanupExpiredSessions' query: active and past valid_until. */
  predicate Expired(s: QrSession, now: int)
  {
    s.isActive && s.validUntil < now
  }

  /** The table after the sweep: every expired row deactivated, every other row as it was. */
  function Swept(rows: seq<QrSession>, now: int): (r: seq<QrSession>)
    ensures |r| == |rows|
    ensures forall i :: 0 <= i < |rows| ==> r[i] == if Expired(rows[i], now) then rows[i].(isActive := false) else rows[i]
    ensures forall i :: 0 <= i < |rows| ==> !Expired(r[i], now)
  {
    seq(|rows|, i requires 0 <= i < |rows| => if Expired(rows[i], now) then rows[i].(isActive := false) else rows[i])
  }

  /** The cache keys the sweep forgets. */
  function ExpiredKeys(rows: seq<QrSession>, now: int): set<Key>
  {
    set i | 0 <= i < |rows| && Expired(rows[i], now) :: QrSessionKey(rows[i].token)
  }

  /** How many rows the sweep's query selects. */
  function CountExpired(rows: seq<QrSession>, now: int): nat
  {
    if rows == [] then 0
    else CountExpired(rows[..|rows| - 1], now) + (if Expired(rows[|rows| - 1], now) then 1 else 0)
  }

  /** The table part-way through the sweep: the first `i` rows swept, the rest as they were. */
  ghost function PartlySwept(rows: seq<QrSession>, i: int, now: int): (r: seq<QrSession>)
    requires 0 <= i <= |rows|
  {
    seq(|rows|, j requires 0 <= j < |rows| => if j < i && Expired(rows[j], now) then rows[j].(isActive := false) else rows[j])
  }

  /** One more step of the sweep on row `i`. */
  lemma SweepStep(rows: seq<QrSession>, i: int, now: int)
    requires 0 <= i < |rows|
    ensures |PartlySwept(rows, i, now)| == |rows| && PartlySwept(rows, i, now)[i] == rows[i]
    ensures PartlySwept(rows, i + 1, now) ==
      if Expired(rows[i], now) then PartlySwept(rows, i, now)[i := rows[i].(isActive := false)]
      else PartlySwept(rows, i, now)
    ensures ExpiredKeys(rows[..i + 1], now) ==
      ExpiredKeys(rows[..i], now) + (if Expired(rows[i], now) then {QrSessionKey(rows[i].token)} else {})
    ensures CountExpired(rows[..i + 1], now) == CountExpired(rows[..i], now) + (if Expired(rows[i], now) then 1 else 0)
  {
    assert rows[..i + 1][..i] == rows[..i];
  }

  /** Forgetting two sets of keys one after the other forgets their union. */
  lemma ForgetInTurn(entries: map<Key, Entry>, first: set<Key>, second: set<Key>)
    ensures (entries - first) - second == entries - (first + second)
  {
  }

  /** The loop body of cleanupExpiredSessions on row `i`: an expired row is deactivated and
      its key forgotten; `expired` says which happened. */
  method SweepRow(table: SessionTable, cache: Cache, i: int, now: int) returns (expired: bool)
    requires table.Valid() && 0 <= i < |table.rows|
    modifies table, cache
    ensures table.Valid()
    ensures expired == Expired(old(table.rows)[i], now)
    ensures table.rows == if expired then old(table.rows)[i := old(table.rows)[i].(isActive := false)] else old(table.rows)
    ensures cache.entries == old(cache.entries) - (if expired then {QrSessionKey(old(table.rows)[i].token)} else {})
  {
    var s := table.rows[i];
    expired := Expired(s, now);
    if expired {
      table.Deactivate(i + 1);
      cache.Forget(QrSessionKey(s.token));
    }
  }

  /** cleanupExpiredSessions: deactivate every expired row, forget its key, report how many. */
  method CleanupExpiredSessions(table: SessionTable, cache: Cache, now: int) returns (count: nat)
    requires table.Valid()
    modifies table, cache
    ensures table.Valid()
    ensures table.rows == Swept(old(table.rows), now)
    ensures cache.entries == old(cache.entries) - ExpiredKeys(old(table.rows), now)
    ensures count == CountExpired(old(table.rows), now)
  {
    ghost var rows0 := table.rows;
    ghost var entries0 := cache.entries;
    ghost var forgotten: set<Key> := {};
    var n := |table.rows|;
    var i := 0;
    count := 0;
    assert rows0[..0] == [];
    assert ExpiredKeys([], now) == {};
    while i < n
      invariant n == |rows0| && 0 <= i <= n
      invariant table.rows == PartlySwept(rows0, i, now) && table.Valid()
      invariant forgotten == ExpiredKeys(rows0[..i], now)
      invariant cache.entries == entries0 - forgotten
      invariant count == CountExpired(rows0[..i], now)
    {
      SweepStep(rows0, i, now);
      ghost var extra: set<Key> := if Expired(rows0[i], now) then {QrSessionKey(rows0[i].token)} else {};
      ForgetInTurn(entries0, forgotten, extra);
      var expired := SweepRow(table, cache, i, now);
      if expired {
        count := count + 1;
      }
      forgotten := forgotten + extra;
      i := i + 1;
    }
    assert rows0[..i] == rows0;
    assert forall j :: 0 <= j < n ==> PartlySwept(rows0, n, now)[j] == Swept(rows0, now)[j];
  }

  /** No expired row, nothing to count. */
  lemma {:induction false} CountExpiredNone(rows: seq<QrSession>, now: int)
    requires forall i :: 0 <= i < |rows| ==> !Expired(rows[i], now)
    ensures CountExpired(rows, now) == 0
  {
    if rows != [] {
      CountExpiredNone(rows[..|rows| - 1], now);
    }
  }

  /** An immediate second sweep finds nothing: it reports 0 and changes neither table nor cache. */
  lemma SecondSweepIsEmpty(rows: seq<QrSession>, now: int)
    ensures CountExpired(Swept(rows, now), now) == 0
    ensures Swept(Swept(rows, now), now) == Swept(rows, now)
    ensures ExpiredKeys(Swept(rows, now), now) == {}
  {
    CountExpiredNone(Swept(rows, now), now);
  }

  /** The sweep keeps the cache coherent. */
  lemma SweepPreservesCoherence(rows: seq<QrSession>, entries: map<Key, Entry>, now: int)
    requires WellFormed(rows) && CacheCoherent(rows, entries)
    ensures CacheCoherent(Swept(rows, now), entries - ExpiredKeys(rows, now))
  {
    var rows' := Swept(rows, now);
    var entries' := entries - ExpiredKeys(rows, now);
    forall k | k in entries' && k.QrSessionKey? && entries'[k].value.SessionSnapshot? && entries'[k].value.isActive
      ensures var j := entries'[k].value.id; 1 <= j <= |rows'| && rows'[j - 1].token == k.token && rows'[j - 1].isActive
    {
      assert entries'[k] == entries[k];
    }
  }

  datatype SessionStats = SessionStats(total: nat, active: nat, expired: nat, checkIn: nat, checkOut: nat)

  /** The rows `whereBetween('created_at', [start, end])` selects, both ends included. */
  function CreatedBetween(rows: seq<QrSession>, start: int, end: int): (r: seq<QrSession>)
    ensures |r| <= |rows|
    ensures forall s :: s in r <==> s in rows && start <= s.createdAt <= end
  {
    if rows == [] then []
    else
      var rest := CreatedBetween(rows[1..], start, end);
      assert forall s :: s in rows <==> s == rows[0] || s in rows[1..];
      if start <= rows[0].createdAt <= end then [rows[0]] + rest else rest
  }

  /** The selection keeps every selected row as often as the table holds it. */
  lemma {:induction false} CreatedBetweenMultiplicity(rows: seq<QrSession>, start: int, end: int, s: QrSession)
    ensures multiset(CreatedBetween(rows, start, end))[s] == if start <= s.createdAt <= end then multiset(rows)[s] else 0
  {
    if rows != [] {
      assert rows == [rows[0]] + rows[1..];
      CreatedBetweenMultiplicity(rows[1..], start, end, s);
    }
  }

  /** Selecting from a row followed by more rows. */
  lemma CreatedBetweenCons(x: QrSession, rest: seq<QrSession>, start: int, end: int)
    ensures CreatedBetween([x] + rest, start, end) == (if start <= x.createdAt <= end then [x] else []) + CreatedBetween(rest, start, end)
  {
    assert ([x] + rest)[0] == x && ([x] + rest)[1..] == rest;
  }

  /** The selection keeps table order. */
  lemma {:induction false} CreatedBetweenKeepsOrder(a: seq<QrSession>, b: seq<QrSession>, start: int, end: int)
    ensures CreatedBetween(a + b, start, end) == CreatedBetween(a, start, end) + CreatedBetween(b, start, end)
  {
    if a == [] {
      assert a + b == b;
    } else {
      var x, t := a[0], a[1..];
      assert a == [x] + t && a + b == [x] + (t + b);
      var head := if start <= x.createdAt <= end then [x] else [];
      calc {
        CreatedBetween(a + b, start, end);
        { CreatedBetweenCons(x, t + b, start, end); }
        head + CreatedBetween(t + b, start, end);
        { CreatedBetweenKeepsOrder(t, b, start, end); }
        head + (CreatedBetween(t, start, end) + CreatedBetween(b, start, end));
        (head + CreatedBetween(t, start, end)) + CreatedBetween(b, start, end);
        { CreatedBetweenCons(x, t, start, end); }
        CreatedBetween(a, start, end) + CreatedBetween(b, start, end);
      }
    }
  }


  function CountActiveFlag(rows: seq<QrSession>, flag: bool): nat
  {
    if rows == [] then 0 else (if rows[0].isActive == flag then 1 else 0) + CountActiveFlag(rows[1..], flag)
  }

  function CountType(rows: seq<QrSession>, t: QrType): nat
  {
    if rows == [] then 0 else (if rows[0].qrType == t then 1 else 0) + CountType(rows[1..], t)
  }

  lemma {:induction false} ActiveSplit(rows: seq<QrSession>)
    ensures CountActiveFlag(rows, true) + CountActiveFlag(rows, false) == |rows|
  {
    if rows != [] { ActiveSplit(rows[1..]); }
  }

  lemma {:induction false} TypeSplit(rows: seq<QrSession>)
    ensures CountType(rows, CheckIn) + CountType(rows, CheckOut) == |rows|
  {
    if rows != [] { TypeSplit(rows[1..]); }
  }

  /** getQrSessionStats: active and inactive sessions, and check-in and check-out sessions,
      each add up to the total, since is_active is boolean and the type enum has two values. */
  function GetQrSessionStats(rows: seq<QrSession>, start: int, end: int): (r: SessionStats)
    ensures r.total == |CreatedBetween(rows, start, end)|
    ensures r.active + r.expired == r.total
    ensures r.checkIn + r.checkOut == r.total
    ensures r.active == CountActiveFlag(CreatedBetween(rows, start, end), true)
    ensures r.expired == CountActiveFlag(CreatedBetween(rows, start, end), false)
    ensures r.checkIn == CountType(CreatedBetween(rows, start, end), CheckIn)
    ensures r.checkOut == CountType(CreatedBetween(rows, start, end), CheckOut)
  {
    var sessions := CreatedBetween(rows, start, end);
    ActiveSplit(sessions);
    TypeSplit(sessions);
    SessionStats(|sessions|, CountActiveFlag(sessions, true), CountActiveFlag(sessions, false),
                 CountType(sessions, CheckIn), CountType(sessions, CheckOut))
  }
}
