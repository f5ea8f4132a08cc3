/** The ephemeral QR shown on the admin display: one entry in the `active_qr_session` cache
    slot, regenerated whenever it is missing or expired, valid and cached for 30 seconds.
    These tokens are never written to the qr_sessions table. */
module QrService {
  import opened Basics
  import opened QrSessionModel
  import opened CacheStore

  const TokenLength: nat := 32
  const LifetimeSeconds: int := 30

  /** The entry generateNewQrSession builds from a fresh `Str::random(32)` token. */
  function Generated(token: string, now: int): (d: QrData)
    ensures d.token == token && d.qrType == CheckIn
    ensures d.validFrom == now && d.generatedAt == now && d.validUntil == now + LifetimeSeconds
  {
    QrData(token, CheckIn, now, now + LifetimeSeconds, now)
  }

  /** isExpired: strictly after valid_until. */
  predicate IsExpired(d: QrData, now: int)
  {
    now > d.validUntil
  }

  /** The slot's content as `Cache::get('active_qr_session')` returns it. */
  function Slot(entries: map<Key, Entry>, now: int): (r: Option<QrData>)
    ensures r.Some? ==> ActiveQrSession in entries && now < entries[ActiveQrSession].expiresAt
  {
    match Lookup(entries, ActiveQrSession, now)
    case Some(QrPayload(d)) => Some(d)
    case _ => None
  }

  datatype Served = Served(data: QrData, entries: map<Key, Entry>)

  /** The slot after generateNewQrSession: the new entry with a 30-second time to live. */
  function Regenerated(entries: map<Key, Entry>, token: string, now: int): (r: Served)
    ensures r.data == Generated(token, now)
    ensures r.entries == entries[ActiveQrSession := Entry(QrPayload(r.data), now + LifetimeSeconds)]
  {
    var d := Generated(token, now);
    Served(d, Stored(entries, ActiveQrSession, QrPayload(d), now + LifetimeSeconds, now))
  }

  /** getActiveQrSession: the cached entry when present and unexpired, else a regenerated one. */
  function Serve(entries: map<Key, Entry>, token: string, now: int): (r: Served)
    ensures !IsExpired(r.data, now)
    ensures var c := Slot(entries, now);
      c.Some? && !IsExpired(c.value, now) ==> r == Served(c.value, entries)
    ensures var c := Slot(entries, now);
      c.None? || IsExpired(c.value, now) ==> r == Regenerated(entries, token, now)
  {
    var c := Slot(entries, now);
    if c.None? || IsExpired(c.value, now) then Regenerated(entries, token, now)
    else Served(c.value, entries)
  }

  /** Every payload in the slot expires from the cache exactly at its valid_until. */
  ghost predicate SlotCoherent(entries: map<Key, Entry>)
  {
    ActiveQrSession in entries && entries[ActiveQrSession].value.QrPayload? ==>
      entries[ActiveQrSession].expiresAt == entries[ActiveQrSession].value.data.validUntil
  }

  lemma ServeKeepsSlotCoherent(entries: map<Key, Entry>, token: string, now: int)
    requires SlotCoherent(entries)
    ensures SlotCoherent(Serve(entries, token, now).entries)
  {
  }

  /** On a coherent slot, whatever the cache returns is unexpired: isExpired never fires. */
  lemma CachedEntryNeverExpired(entries: map<Key, Entry>, now: int)
    requires SlotCoherent(entries)
    ensures Slot(entries, now).Some? ==> !IsExpired(Slot(entries, now).value, now)
  {
  }

  /** A second call while the served entry is still cached returns the same token. */
  lemma SecondCallSameToken(entries: map<Key, Entry>, tok1: string, tok2: string, t1: int, t2: int)
    requires SlotCoherent(entries) && t1 <= t2
    requires var first := Serve(entries, tok1, t1); t2 < first.entries[ActiveQrSession].expiresAt
    ensures var first := Serve(entries, tok1, t1);
      Serve(first.entries, tok2, t2) == Served(first.data, first.entries)
  {
    var first := Serve(entries, tok1, t1);
    ServeKeepsSlotCoherent(entries, tok1, t1);
    assert Slot(first.entries, t2) == Some(first.data);
  }

  /** isExpired is false at exactly valid_until, but the slot lapses in the cache at that same
      instant, so a call then still regenerates. */
  lemma BoundaryInstant(entries: map<Key, Entry>, tok1: string, tok2: string, t: int)
    ensures var first := Regenerated(entries, tok1, t);
      !IsExpired(first.data, first.data.validUntil) &&
      Serve(first.entries, tok2, first.data.validUntil) == Regenerated(first.entries, tok2, t + LifetimeSeconds)
  {
  }

  /** getActiveQrSession on the cache object. */
  method GetActiveQrSession(cache: Cache, token: string, now: int) returns (d: QrData)
    requires |token| == TokenLength
    modifies cache
    ensures Served(d, cache.entries) == Serve(old(cache.entries), token, now)
  {
    var cached := cache.Get(ActiveQrSession, now);
    if cached.Some? && cached.value.QrPayload? && !IsExpired(cached.value.data, now) {
      d := cached.value.data;
    } else {
      d := GenerateNewQrSession(cache, token, now);
    }
  }

  /** generateNewQrSession: build the entry and store it for 30 seconds. */
  method GenerateNewQrSession(cache: Cache, token: string, now: int) returns (d: QrData)
    requires |token| == TokenLength
    modifies cache
    ensures |d.token| == TokenLength
    ensures Served(d, cache.entries) == Regenerated(old(cache.entries), token, now)
  {
    d := QrData(token, CheckIn, now, now + LifetimeSeconds, now);
    cache.Put(ActiveQrSession, QrPayload(d), now + LifetimeSeconds, now);
  }

  /** refreshQrSession: drop the slot and regenerate, whatever was there. */
  method RefreshQrSession(cache: Cache, token: string, now: int) returns (d: QrData)
    requires |token| == TokenLength
    modifies cache
    ensures Served(d, cache.entries) == Regenerated(old(cache.entries), token, now)
  {
    cache.Forget(ActiveQrSession);
    d := GenerateNewQrSession(cache, token, now);
  }

  /** A QrService token on its own in the table: submitAttendance looks tokens up in qr_sessions,
      where no QrService token is ever written, so it finds no row for them. */
  lemma DisplayTokenUnknownToTable(rows: seq<QrSession>, d: QrData)
    requires forall i :: 0 <= i < |rows| ==> rows[i].token != d.token
    ensures FirstActiveByToken(rows, d.token).None?
  {
  }
}
