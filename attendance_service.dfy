/** Attendance submission by QR scan, the HR edit path and the per-user report.
    A submission validates the token against the qr_sessions table, refuses a second use of
    the same token (a per-user cache marker, then a look at today's record), upserts the one
    record for (user, today) and marks the token used until the end of the day. All checks
    come before the first write, so a rejected submission changes neither table nor cache. */
module AttendanceService {
  import opened Basics
  import opened Roles
  import opened QrSessionModel
  import opened CacheStore
  import opened AttendanceModel

  datatype Error =
    | InvalidQr              // no active row carries the token
    | ExpiredQr              // the row is active but now is outside its window
    | TokenAlreadyUsed       // the user's marker for this token is in the cache
    | AlreadySubmittedToday  // today's record already points at this session

  function Message(e: Error): string
  {
    match e
    case InvalidQr => "QR code tidak valid atau sudah tidak aktif."
    case ExpiredQr => "QR code sudah kadaluarsa."
    case TokenAlreadyUsed => "Anda sudah melakukan absensi dengan QR code ini."
    case AlreadySubmittedToday => "Anda sudah melakukan absensi hari ini."
  }

  /** Each refusal tells the user its own reason. */
  lemma MessagesDistinct(e1: Error, e2: Error)
    requires e1 != e2
    ensures Message(e1) != Message(e2)
  {
    assert |Message(InvalidQr)| == 43 && |Message(ExpiredQr)| == 25;
    assert |Message(TokenAlreadyUsed)| == 48 && |Message(AlreadySubmittedToday)| == 38;
  }

  datatype Result<+T> = Ok(value: T) | Err(error: Error)

  /** validateQrSession */
  function ValidateQrSession(rows: seq<QrSession>, token: string, now: int): (r: Result<QrSession>)
    ensures r == Err(InvalidQr) <==> forall i :: 0 <= i < |rows| ==> !(rows[i].token == token && rows[i].isActive)
    ensures r == Err(ExpiredQr) <==> FirstActiveByToken(rows, token).Some? && !IsValid(FirstActiveByToken(rows, token).value, now)
    ensures r.Ok? ==> r.value in rows && r.value.token == token && IsValid(r.value, now)
    ensures r.Err? ==> r.error == InvalidQr || r.error == ExpiredQr
  {
    match FirstActiveByToken(rows, token)
    case None => Err(InvalidQr)
    case Some(s) => if IsValid(s, now) then Ok(s) else Err(ExpiredQr)
  }

  /** The cache key of the per-user, per-token marker. */
  function MarkerKey(userId: int, token: string): Key
  {
    AttendanceToken(userId, token)
  }

  /** Today's record for the user already names this session. */
  predicate SubmittedToday(records: map<DayKey, Attendance>, userId: int, s: QrSession, now: int)
  {
    var k := DayKey(userId, Day(now));
    k in records && records[k].qrSessionId == Some(s.id)
  }

  /** preventDoubleSubmission: None when the submission may go ahead. */
  function PreventDoubleSubmission(entries: map<Key, Entry>, records: map<DayKey, Attendance>,
                                   userId: int, s: QrSession, now: int): (r: Option<Error>)
    ensures r == Some(TokenAlreadyUsed) <==> Lookup(entries, MarkerKey(userId, s.token), now).Some?
    ensures r == Some(AlreadySubmittedToday) <==>
      Lookup(entries, MarkerKey(userId, s.token), now).None? && SubmittedToday(records, userId, s, now)
    ensures r.None? <==> Lookup(entries, MarkerKey(userId, s.token), now).None? && !SubmittedToday(records, userId, s, now)
  {
    if Lookup(entries, MarkerKey(userId, s.token), now).Some? then Some(TokenAlreadyUsed)
    else if SubmittedToday(records, userId, s, now) then Some(AlreadySubmittedToday)
    else None
  }

  /** Late after 08:30 on the day of `now`. */
  function LateThreshold(now: int): int
  {
    AtTime(Day(now), 8, 30)
  }

  /** The record recordAttendance saves, from the row firstOrNew yields: a check-in sets the time,
      the session and the late status; a check-out sets the check-out time and nothing else. */
  function Recorded(before: Attendance, s: QrSession, now: int): (a: Attendance)
    ensures a.KeyOf() == before.KeyOf()
    ensures s.qrType == CheckIn ==>
      && a.checkIn == Some(now) && a.qrSessionId == Some(s.id)
      && (a.status == Telat <==> now > LateThreshold(now))
      && (a.status == Hadir <==> now <= LateThreshold(now))
      && a.(checkIn := before.checkIn, qrSessionId := before.qrSessionId, status := before.status) == before
    ensures s.qrType == CheckOut ==> a.checkOut == Some(now) && a.(checkOut := before.checkOut) == before
  {
    match s.qrType
    case CheckIn =>
      before.(checkIn := Some(now), qrSessionId := Some(s.id),
              status := if now > LateThreshold(now) then Telat else Hadir)
    case CheckOut =>
      before.(checkOut := Some(now))
  }

  /** The row firstOrNew yields for the user today. */
  function Existing(records: map<DayKey, Attendance>, userId: int, now: int): (a: Attendance)
  {
    var k := DayKey(userId, Day(now));
    if k in records then records[k] else NewRecord(k)
  }

  datatype Submission = Submission(result: Result<Attendance>, records: map<DayKey, Attendance>, entries: map<Key, Entry>)

  /** submitAttendance as a whole, one transaction. */
  function Submit(rows: seq<QrSession>, records: map<DayKey, Attendance>, entries: map<Key, Entry>,
                  user: User, token: string, now: int): (r: Submission)
    ensures r.result.Err? ==> r.records == records && r.entries == entries
    ensures r.result.Ok? <==>
      ValidateQrSession(rows, token, now).Ok? &&
      PreventDoubleSubmission(entries, records, user.id, ValidateQrSession(rows, token, now).value, now).None?
    ensures r.result.Ok? ==>
      var s := ValidateQrSession(rows, token, now).value;
      && r.result.value == Recorded(Existing(records, user.id, now), s, now)
      && r.records == records[DayKey(user.id, Day(now)) := r.result.value]
      && r.entries == Stored(entries, MarkerKey(user.id, token), Marker, EndOfDay(now), now)
  {
    match ValidateQrSession(rows, token, now)
    case Err(e) => Submission(Err(e), records, entries)
    case Ok(s) =>
      match PreventDoubleSubmission(entries, records, user.id, s, now)
      case Some(e) => Submission(Err(e), records, entries)
      case None =>
        var a := Recorded(Existing(records, user.id, now), s, now);
        Submission(Ok(a), records[DayKey(user.id, Day(now)) := a],
                   Stored(entries, MarkerKey(user.id, token), Marker, EndOfDay(now), now))
  }

  /** A token no active row carries is refused as invalid, and nothing changes. */
  lemma UnknownTokenRejected(rows: seq<QrSession>, records: map<DayKey, Attendance>, entries: map<Key, Entry>,
                             user: User, token: string, now: int)
    requires forall i :: 0 <= i < |rows| ==> !(rows[i].token == token && rows[i].isActive)
    ensures Submit(rows, records, entries, user, token, now) == Submission(Err(InvalidQr), records, entries)
  {
  }

  /** An active session outside its window is refused as expired, and nothing changes. */
  lemma ExpiredSessionRejected(rows: seq<QrSession>, records: map<DayKey, Attendance>, entries: map<Key, Entry>,
                               user: User, token: string, now: int)
    requires WellFormed(rows)
    requires exists i :: 0 <= i < |rows| && rows[i].token == token && rows[i].isActive && !IsValid(rows[i], now)
    ensures Submit(rows, records, entries, user, token, now) == Submission(Err(ExpiredQr), records, entries)
  {
    var i :| 0 <= i < |rows| && rows[i].token == token && rows[i].isActive && !IsValid(rows[i], now);
    FirstActiveUniqueToken(rows, token, i);
  }

  /** Once a submission succeeds, the same token is refused for the rest of that day. */
  lemma ResubmissionRefusedUntilEndOfDay(rows: seq<QrSession>, records: map<DayKey, Attendance>,
                                         entries: map<Key, Entry>, user: User, token: string, t1: int, t2: int)
    requires Submit(rows, records, entries, user, token, t1).result.Ok?
    requires t1 <= t2 < EndOfDay(t1)
    ensures var first := Submit(rows, records, entries, user, token, t1);
      Submit(rows, first.records, first.entries, user, token, t2).result.Err?
    ensures var first := Submit(rows, records, entries, user, token, t1);
      ValidateQrSession(rows, token, t2).Ok? ==>
        Submit(rows, first.records, first.entries, user, token, t2).result == Err(TokenAlreadyUsed)
  {
    var first := Submit(rows, records, entries, user, token, t1);
    assert Lookup(first.entries, MarkerKey(user.id, token), t2).Some?;
    match ValidateQrSession(rows, token, t2)
    case Err(_) =>
    case Ok(s) =>
      assert s.token == token;
  }

  /** A check-in exactly at 08:30:00 is on time; one second later it is late. */
  lemma LateThresholdBoundary(before: Attendance, s: QrSession, d: int)
    requires s.qrType == CheckIn
    ensures Recorded(before, s, AtTime(d, 8, 30)).status == Hadir
    ensures Recorded(before, s, AtTime(d, 8, 30) + 1).status == Telat
  {
    assert Day(AtTime(d, 8, 30) + 1) == d;
  }

  /** A check-out needs no earlier check-in: on a day with no record it creates one whose status
      is the column default 'hadir' and whose check-in is empty. */
  lemma CheckOutWithoutCheckIn(rows: seq<QrSession>, entries: map<Key, Entry>, user: User, token: string, now: int)
    requires ValidateQrSession(rows, token, now).Ok? && ValidateQrSession(rows, token, now).value.qrType == CheckOut
    requires Lookup(entries, MarkerKey(user.id, token), now).None?
    ensures var r := Submit(rows, map[], entries, user, token, now);
      r.result.Ok? && r.result.value.checkIn.None? && r.result.value.checkOut == Some(now)
      && r.result.value.status == Hadir && !r.result.value.hasCheckedIn
  {
  }

  /** A second check-in with another session overwrites the first check-in time and status. */
  lemma SecondCheckInOverwrites(rows: seq<QrSession>, records: map<DayKey, Attendance>, entries: map<Key, Entry>,
                                user: User, token: string, now: int)
    requires ValidateQrSession(rows, token, now).Ok? && ValidateQrSession(rows, token, now).value.qrType == CheckIn
    requires Lookup(entries, MarkerKey(user.id, token), now).None?
    requires var k := DayKey(user.id, Day(now));
      k in records && records[k].checkIn.Some? && records[k].qrSessionId != Some(ValidateQrSession(rows, token, now).value.id)
    ensures var r := Submit(rows, records, entries, user, token, now);
      r.result.Ok? && r.result.value.checkIn == Some(now)
      && r.result.value.qrSessionId == Some(ValidateQrSession(rows, token, now).value.id)
  {
  }

  /** A submission keeps every record under its own (user_id, date) key. */
  lemma SubmitKeepsKeys(rows: seq<QrSession>, records: map<DayKey, Attendance>, entries: map<Key, Entry>,
                        user: User, token: string, now: int)
    requires KeysAgree(records)
    ensures KeysAgree(Submit(rows, records, entries, user, token, now).records)
  {
  }

  /** recordAttendance: firstOrNew, set the fields, save. */
  method RecordAttendance(ledger: Ledger, user: User, s: QrSession, now: int) returns (a: Attendance)
    requires ledger.Valid()
    modifies ledger
    ensures ledger.Valid()
    ensures a == Recorded(Existing(old(ledger.records), user.id, now), s, now)
    ensures ledger.records == old(ledger.records)[DayKey(user.id, Day(now)) := a]
  {
    var today := Day(now);
    a := ledger.FirstOrNew(DayKey(user.id, today));
    if s.qrType == CheckIn {
      a := a.(checkIn := Some(now));
      a := a.(qrSessionId := Some(s.id));
      var lateThreshold := AtTime(today, 8, 30);
      a := a.(status := if now > lateThreshold then Telat else Hadir);
    } else {
      a := a.(checkOut := Some(now));
    }
    ledger.Save(a);
  }

  /** markTokenUsed: the marker lives until the end of the day. */
  method MarkTokenUsed(cache: Cache, userId: int, token: string, now: int)
    modifies cache
    ensures cache.entries == Stored(old(cache.entries), MarkerKey(userId, token), Marker, EndOfDay(now), now)
  {
    cache.Put(AttendanceToken(userId, token), Marker, EndOfDay(now), now);
  }

  /** submitAttendance on the tables and the cache. */
  method SubmitAttendance(sessions: SessionTable, ledger: Ledger, cache: Cache, user: User, token: string, now: int)
    returns (r: Result<Attendance>)
    requires sessions.Valid() && ledger.Valid()
    modifies ledger, cache
    ensures ledger.Valid()
    ensures Submission(r, ledger.records, cache.entries)
            == Submit(sessions.rows, old(ledger.records), old(cache.entries), user, token, now)
  {
    var checked := ValidateQrSession(sessions.rows, token, now);
    if checked.Err? {
      return Err(checked.error);
    }
    var s := checked.value;
    if cache.Has(AttendanceToken(user.id, s.token), now) {
      return Err(TokenAlreadyUsed);
    }
    if SubmittedToday(ledger.records, user.id, s, now) {
      return Err(AlreadySubmittedToday);
    }
    var a := RecordAttendance(ledger, user, s, now);
    MarkTokenUsed(cache, user.id, token, now);
    r := Ok(ledger.FirstOrNew(a.KeyOf()));
  }

  /** The record after editAttendance: status and notes replaced when given, the editor and the
      time stamped, every other column as it was. */
  function Edited(a: Attendance, editorId: int, status: Option<Status>, notes: Option<string>, now: int)
    : (r: Attendance)
    ensures r.status == (if status.Some? then status.value else a.status)
    ensures r.notes == (if notes.Some? then notes else a.notes)
    ensures r.editedBy == Some(editorId) && r.editedAt == Some(now)
    ensures r.(status := a.status, notes := a.notes, editedBy := a.editedBy, editedAt := a.editedAt) == a
  {
    a.(status := if status.Some? then status.value else a.status,
       notes := if notes.Some? then notes else a.notes,
       editedBy := Some(editorId),
       editedAt := Some(now))
  }

  /** A missing or null note keeps the old one, so an edit can never clear a note. */
  lemma EditNeverClearsNotes(a: Attendance, editorId: int, status: Option<Status>, notes: Option<string>, now: int)
    requires a.notes.Some?
    ensures Edited(a, editorId, status, notes, now).notes.Some?
  {
  }

  /** editAttendance on the ledger row under `k`. */
  method EditAttendance(ledger: Ledger, editor: User, k: DayKey, status: Option<Status>, notes: Option<string>, now: int)
    returns (a: Attendance)
    requires ledger.Valid() && k in ledger.records
    modifies ledger
    ensures ledger.Valid()
    ensures a == Edited(old(ledger.records)[k], editor.id, status, notes, now)
    ensures ledger.records == old(ledger.records)[k := a]
  {
    var current := ledger.records[k];
    a := current.(status := if status.Some? then status.value else current.status,
                  notes := if notes.Some? then notes else current.notes,
                  editedBy := Some(editor.id),
                  editedAt := Some(now));
    ledger.Save(a);
  }

  datatype UserStats = UserStats(totalDays: nat, hadir: nat, telat: nat, izin: nat, sakit: nat, alpha: nat)

  /** The keys `where('user_id', $u)->whereBetween('date', [$start, $end])` selects. */
  function SelectedKeys(records: map<DayKey, Attendance>, userId: int, start: int, end: int): set<DayKey>
  {
    set k | k in records && k.userId == userId && start <= k.date <= end
  }

  /** getUserAttendanceStats: total_days and one count per status, which sum to total_days. */
  function GetUserAttendanceStats(records: map<DayKey, Attendance>, userId: int, start: int, end: int): (r: UserStats)
    ensures r.totalDays == |SelectedKeys(records, userId, start, end)|
    ensures r.hadir + r.telat + r.izin + r.sakit + r.alpha == r.totalDays
    ensures var keys := SelectedKeys(records, userId, start, end);
      && r.hadir == CountStatus(records, keys, Hadir) && r.telat == CountStatus(records, keys, Telat)
      && r.izin == CountStatus(records, keys, Izin) && r.sakit == CountStatus(records, keys, Sakit)
      && r.alpha == CountStatus(records, keys, Alpha)
  {
    var keys := SelectedKeys(records, userId, start, end);
    StatusCountsPartition(records, keys);
    UserStats(|keys|, CountStatus(records, keys, Hadir), CountStatus(records, keys, Telat),
              CountStatus(records, keys, Izin), CountStatus(records, keys, Sakit), CountStatus(records, keys, Alpha))
  }
}
