/** The application cache: one key-value store whose entries carry an expiry instant.
    An entry is served while the clock is before its expiry; a put whose expiry is not in
    the future stores nothing and removes the key, as Laravel's repository does for a
    non-positive time to live. */
module CacheStore {
  import opened Basics
  import opened QrSessionModel

  /** The three key shapes in use: `attendance_token:{user}:{token}`, `qr_session:{token}`
      and the single `active_qr_session` slot. */
  datatype Key =
    | AttendanceToken(userId: int, token: string)
    | QrSessionKey(token: string)
    | ActiveQrSession

  /** The array QrService keeps in the `active_qr_session` slot. */
  datatype QrData = QrData(token: string, qrType: QrType, validFrom: int, validUntil: int, generatedAt: int)

  datatype Value =
    | Marker
    | SessionSnapshot(id: int, qrType: QrType, validFrom: int, validUntil: int, isActive: bool)
    | QrPayload(data: QrData)

  datatype Entry = Entry(value: Value, expiresAt: int)

  /** The entry under `k` as `Cache::get` sees it at time `now`. */
  function Lookup(entries: map<Key, Entry>, k: Key, now: int): (r: Option<Value>)
    ensures r.Some? <==> k in entries && now < entries[k].expiresAt
    ensures r.Some? ==> r.value == entries[k].value
  {
    if k in entries && now < entries[k].expiresAt then Some(entries[k].value) else None
  }

  /** The store after `Cache::put(k, v, expiresAt)` at time `now`. */
  function Stored(entries: map<Key, Entry>, k: Key, v: Value, expiresAt: int, now: int): (r: map<Key, Entry>)
    ensures forall j :: j != k ==> Lookup(r, j, now) == Lookup(entries, j, now)
    ensures Lookup(r, k, now) == if now < expiresAt then Some(v) else None
    ensures forall t :: now <= t < expiresAt ==> Lookup(r, k, t) == Some(v)
    ensures forall j, t :: j != k ==> Lookup(r, j, t) == Lookup(entries, j, t)
    ensures forall t :: t >= expiresAt ==> Lookup(r, k, t).None?
  {
    if now < expiresAt then entries[k := Entry(v, expiresAt)] else entries - {k}
  }

  class Cache {
    var entries: map<Key, Entry>

    constructor ()
      ensures entries == map[]
    {
      entries := map[];
    }

    /** `Cache::get(k)` */
    function Get(k: Key, now: int): Option<Value>
      reads this
    {
      Lookup(entries, k, now)
    }

    /** `Cache::has(k)` */
    predicate Has(k: Key, now: int)
      reads this
    {
      Lookup(entries, k, now).Some?
    }

    /** `Cache::put(k, v, expiresAt)` */
    method Put(k: Key, v: Value, expiresAt: int, now: int)
      modifies this
      ensures entries == Stored(old(entries), k, v, expiresAt, now)
    {
      if now < expiresAt {
        entries := entries[k := Entry(v, expiresAt)];
      } else {
        entries := entries - {k};
      }
    }

    /** `Cache::forget(k)` */
    method Forget(k: Key)
      modifies this
      ensures entries == old(entries) - {k}
    {
      entries := entries - {k};
    }
  }
}
