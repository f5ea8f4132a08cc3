/** The `qr:auto-rotate` console command: deactivate every active session in one bulk update,
    then issue a fresh check-in session as the first admin. */
module AutoRotate {
  import opened Basics
  import opened Roles
  import opened QrSessionModel
  import opened CacheStore
  import opened QrSessionService

  /** Exactly one row is active, and it is the last one. */
  predicate OnlyLastActive(rows: seq<QrSession>)
  {
    |rows| > 0 && forall i :: 0 <= i < |rows| ==> (rows[i].isActive <==> i == |rows| - 1)
  }

  /** The bulk update touches is_active only, so the same tokens stay taken. */
  lemma DeactivationKeepsTokens(rows: seq<QrSession>, draws: seq<string>)
    requires EventuallyFresh(rows, draws)
    ensures EventuallyFresh(AllDeactivated(rows), draws)
  {
    var k :| 0 <= k < |draws| && !TokenTaken(rows, draws[k]);
    assert !TokenTaken(AllDeactivated(rows), draws[k]);
  }

  /** The qr_sessions table after the bulk deactivation and one new active row. */
  lemma RotatedTableShape(old_rows: seq<QrSession>, s: QrSession)
    requires s.isActive
    ensures OnlyLastActive(AllDeactivated(old_rows) + [s])
  {
  }

  /** handle(): with no admin it stops with exit code 1; otherwise it deactivates every session
      and issues one check-in session lasting `validMinutes`. */
  method Handle(table: SessionTable, cache: Cache, admin: Option<User>, validMinutes: int, now: int,
                draws: seq<string>)
    returns (exitCode: int, created: Option<QrSession>)
    requires table.Valid() && RandomDraws(draws) && EventuallyFresh(table.rows, draws)
    modifies table, cache
    ensures table.Valid()
    ensures admin.None? ==>
      exitCode == 1 && created.None? && table.rows == old(table.rows) && cache.entries == old(cache.entries)
    ensures admin.Some? ==>
      && exitCode == 0 && created.Some?
      && table.rows == AllDeactivated(old(table.rows)) + [created.value]
      && OnlyLastActive(table.rows)
      && created.value.qrType == CheckIn && created.value.createdBy == admin.value.id
      && created.value.validFrom == now && created.value.validUntil == now + validMinutes * SecondsPerMinute
      && cache.entries == Stored(old(cache.entries), QrSessionKey(created.value.token),
                                 SnapshotOf(created.value), created.value.validUntil, now)
  {
    if admin.None? {
      return 1, None;
    }
    DeactivationKeepsTokens(table.rows, draws);
    table.DeactivateAll();
    var s := GenerateQrSession(table, cache, admin.value, CheckIn, validMinutes, now, draws);
    RotatedTableShape(old(table.rows), s);
    return 0, Some(s);
  }

  /** Apart from the new session's own key, the run leaves every cache entry as it was: the
      snapshots of the sessions it deactivated stay cached. */
  lemma RotationKeepsOtherCacheEntries(entries: map<Key, Entry>, s: QrSession, now: int, k: Key)
    requires k != QrSessionKey(s.token)
    ensures Lookup(Stored(entries, QrSessionKey(s.token), SnapshotOf(s), s.validUntil, now), k, now)
            == Lookup(entries, k, now)
  {
  }

  /** The bulk update leaves every earlier `qr_session:{token}` snapshot cached, so the cache
      path of getActiveQrSession still answers for a token whose row is now inactive. */
  lemma StaleSnapshotAfterRotation(rows: seq<QrSession>, entries: map<Key, Entry>, s: QrSession,
                                   token: string, now: int)
    requires WellFormed(rows) && CacheCoherent(rows, entries)
    requires s.id == |rows| + 1 && !TokenTaken(rows, s.token)
    requires var c := Lookup(entries, QrSessionKey(token), now); c.Some? && c.value.SessionSnapshot? && c.value.isActive
    ensures var rows' := AllDeactivated(rows) + [s];
      var entries' := Stored(entries, QrSessionKey(s.token), SnapshotOf(s), s.validUntil, now);
      WellFormed(rows') &&
      var r := GetActiveQrSession(rows', entries', token, now);
      r.Some? && r.value.token == token && !r.value.isActive
  {
    var rows' := AllDeactivated(rows) + [s];
    var entries' := Stored(entries, QrSessionKey(s.token), SnapshotOf(s), s.validUntil, now);
    assert WellFormed(rows') by {
      forall i, j | 0 <= i < j < |rows'|
        ensures rows'[i].token != rows'[j].token
      {
        if j == |rows| {
          assert rows'[i].token == rows[i].token;
        } else {
          assert rows'[i].token == rows[i].token && rows'[j].token == rows[j].token;
        }
      }
    }
    var id := entries[QrSessionKey(token)].value.id;
    assert rows[id - 1].token == token;
    assert s.token != token;
    assert Lookup(entries', QrSessionKey(token), now) == Lookup(entries, QrSessionKey(token), now);
    assert rows'[id - 1] == rows[id - 1].(isActive := false);
  }
}
