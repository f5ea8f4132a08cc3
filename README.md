# Attendify in Dafny

Attendify is a Laravel attendance system. An admin issues QR sessions with a random token.
Employees scan a token to check in or out; a check-in after 08:30 is late. HR reviews and edits
records and decides on permit letters, and reports count attendance per period, day and
department.

This project models the core of that system: the record tables, the cache and the clock-driven
services around them, plus the role and permission predicates that guard them.

- A table is a value. `qr_sessions` is a sequence whose row i has id i+1 and whose tokens are
  unique. `attendances` is a map keyed by (user_id, date), which is the table's unique index.
  `permit_letters` is a map keyed by id.
- The application cache is a map from key to (value, expiry instant).
- Time is integer seconds in one time zone. `now` and `today` are parameters.
- Objects the source updates in place are classes: `Ledger` (attendances), `SessionTable`
  (qr_sessions), `LetterTable` (permit_letters) and `Cache`. Their methods are proved against
  functions of the old state.

Modules follow the source. Each file is listed with what it models.

| file | models |
|---|---|
| `basics.dfy` | `Option`, and Carbon's day arithmetic at second precision |
| `roles.dfy` | the User model's role queries |
| `check_role.dfy` | the `role:` route middleware |
| `attendance_model.dfy` | the attendances table and the Attendance model's helpers |
| `qr_session_model.dfy` | the qr_sessions table and the QrSession model's helpers |
| `cache_store.dfy` | the cache |
| `attendance_service.dfy` | AttendanceService |
| `qr_session_service.dfy` | QrSessionService |
| `qr_service.dfy` | QrService |
| `auto_rotate.dfy` | the `qr:auto-rotate` command |
| `mark_absent.dfy` | the `attendance:mark-absent` command |
| `permit_letter_model.dfy` | the permit_letters table |
| `hr_permit_letters.dfy` | the HR permit-letter controller |
| `employee_permit_letters.dfy` | the employee permit-letter controller |
| `admin_attendance_stats.dfy` | the admin attendance report |
| `*_policy.dfy` | the four policies |
| `role_migration.dfy` | the data loops of the multiple-roles migration |
| `sidebar.dfy` | the sidebar menu |

Errors are a `Result`. A submission runs in one transaction, so every error path returns the
old tables and the old cache unchanged.

`Str::random(32)` is modelled as a sequence of draws supplied by the caller. Each draw has 32
characters, and the precondition says one of them is not yet taken.

## Behaviour the model exposes

The model follows the code in each of these cases.

- `QrSession::isValid` uses Carbon's `between`, which swaps inverted bounds. So a session whose
  `valid_until` precedes its `valid_from` is valid between the two bounds, while
  `scopeActive` never selects it. isValid and the scope therefore agree only on well-ordered
  windows. See `QrSessionModel.ScopeAgreesWithIsValid` and
  `QrSessionModel.InvertedWindowSplitsScopeAndIsValid`.
- `$start->diffInDays($end) + 1` on the report's range depends on the Carbon version. The
  model's `WorkDays` follows Carbon 2's unsigned whole-day difference: an ordered range counts
  its dates (`AdminAttendanceStats.WorkDaysOfOrderedRange`), and a reversed one counts
  `start - end` days (`AdminAttendanceStats.WorkDaysOfReversedRange`).
- Laravel 12, which the application runs, requires Carbon 3. There `diffInDays` is signed and
  fractional, and `endOfDay` is 23:59:59.999999. So the count of an ordered range is
  `end - start + 1.99999999998843`, nearly one day more than its dates.
  - One day and 10 employees with no records gives `total_absent` 19, not 10.
  - With 10 records the rate is 50, not 100 (`AdminAttendanceStats.Carbon3OneDayReport`).
  - In general each employee adds one expected attendance, less one overall
    (`AdminAttendanceStats.Carbon3AbsentOnOrderedRange`).
  - A range reversed by one day counts just under one day, which is still positive. With no
    records, `calculateAbsent` then reports one absence fewer than there are employees
    (`AdminAttendanceStats.Carbon3RangeReversedByOneDay`).
  - Only a range reversed by two days or more gives a negative count and no absences
    (`AdminAttendanceStats.Carbon3LongerReversedRange`).
  - See "Findings".
- `QrSessionService::getActiveQrSession` trusts a cached `qr_session:{token}` snapshot.
  `qr:auto-rotate` deactivates rows in bulk without forgetting those keys. Afterwards the cache
  path returns a row that is no longer active (`AutoRotate.StaleSnapshotAfterRotation`).
  Invalidate, rotate and the sweep do keep the cache coherent
  (`QrSessionService.InvalidatePreservesCoherence`, `QrSessionService.SweepPreservesCoherence`).
- Outside the bulk rotation, the cache path of `getActiveQrSession` agrees with the database,
  and neither path checks the validity window.
- `markTokenUsed` puts the marker until end of day. A submission in the last second of a day
  therefore stores a marker that is already expired. `ResubmissionRefusedUntilEndOfDay` covers
  every later instant before that last second.
- `hasAllRoles` compares a count of distinct roles with the length of the list. A list with a
  repeated name is therefore refused even when every role is held
  (`Roles.HasAllRolesFailsWithDuplicates`).
- The admin statistics count the attendance records of users holding the `user` role. Some HR
  staff hold it too, so their records are counted.

## Model

| member | source | states |
|---|---|---|
| Roles.IsAdmin | app/Models/User.php:84-87 | definition: the user holds the role named admin |
| Roles.IsHr | app/Models/User.php:89-92 | definition: the user holds the role named hr |
| Roles.IsUser | app/Models/User.php:94-97 | definition: the user holds the role named user |
| Roles.HasAnyRole | app/Models/User.php:104-107 | definition: some held role is named in the list; its meaning is stated by the lemmas below |
| Roles.HasAllRoles | app/Models/User.php:109-112 | definition: the number of held roles named in the list equals the list's length; its meaning is stated by the lemmas below |
| Roles.HasAnyRoleMeansSomeListedRoleHeld | app/Models/User.php:104-107 | hasAnyRole holds iff some listed name is a role the user holds |
| Roles.HasAnyRoleOfEmptyList | app/Models/User.php:104-107 | hasAnyRole of the empty list is false |
| Roles.HasRoleImpliesHasAnyRole | app/Models/User.php:99-107 | holding r makes hasAnyRole true for every list containing r |
| Roles.HasAllRolesOfEmptyList | app/Models/User.php:109-112 | hasAllRoles of the empty list is true |
| Roles.HasAllRolesOfDistinctList | app/Models/User.php:109-112 | for a duplicate-free list, hasAllRoles holds iff every listed role is held |
| Roles.HasAllRolesFailsWithDuplicates | app/Models/User.php:109-112 | an admin asked for ['admin', 'admin'] fails hasAllRoles although the only listed role is held |
| CheckRole.ScanRoles | app/Http/Middleware/CheckRole.php:22-26 | the early-return loop finds a role iff some listed role is held |
| CheckRole.DenialTarget | app/Http/Middleware/CheckRole.php:29-36 | the admin dashboard iff admin; the HR dashboard iff HR and not admin; otherwise the employee dashboard |
| CheckRole.Handle | app/Http/Middleware/CheckRole.php:15-36 | a guest goes to login; a user passes iff hasAnyRole of the listed roles holds, else is redirected to the denial target |
| CheckRole.EmptyRoleListRedirects | app/Http/Middleware/CheckRole.php:22-26 | with no listed role every user is redirected |
| CheckRole.DenialIgnoresListedRoles | app/Http/Middleware/CheckRole.php:29-36 | two denials of the same user go to the same place, whatever roles were listed |
| AttendanceModel.StatusNameInjective | database/migrations/2025_12_30_144844_create_attendances_table.php:21 | the five statuses are stored as five different literals |
| AttendanceModel.NewRecord | database/migrations/2025_12_30_144844_create_attendances_table.php:16-27 | a row created for a key carries that key, status hadir by default, and nothing else set |
| AttendanceModel.IsLate | app/Models/Attendance.php:48-51 | definition: the stored status name is telat |
| AttendanceModel.IsPresent | app/Models/Attendance.php:53-56 | definition: the stored status name is hadir or telat |
| AttendanceModel.IsLateExactlyTelat | app/Models/Attendance.php:48-51 | isLate iff the status is telat |
| AttendanceModel.IsPresentExactlyHadirOrTelat | app/Models/Attendance.php:53-56 | isPresent iff the status is hadir or telat |
| AttendanceModel.LateImpliesPresent | app/Models/Attendance.php:48-56 | a late record is present |
| AttendanceModel.ExcusedOrAbsentIsNeitherLateNorPresent | app/Models/Attendance.php:53-56 | izin, sakit and alpha records are neither late nor present |
| AttendanceModel.StatusCountsPartition | database/migrations/2025_12_30_144844_create_attendances_table.php:21 | the five per-status counts of any selection of records add up to its size |
| AttendanceModel.WithStatusDisjoint | database/migrations/2025_12_30_144844_create_attendances_table.php:21 | a record has one status, so the selections for two different statuses share no key |
| AttendanceModel.Ledger.FirstOrNew | app/Services/AttendanceService.php:94-97 | firstOrNew: the stored row under the key, or a new row with that key |
| AttendanceModel.Ledger.Save | app/Services/AttendanceService.php:111 | save stores the row under its own (user_id, date) key and keeps the unique index |
| QrSessionModel.IsValid | app/Models/QrSession.php:40-44 | definition: active, and now lies between the two bounds, taken in order, both included |
| QrSessionModel.InActiveScope | app/Models/QrSession.php:46-51 | definition: active, valid_from <= now and valid_until >= now |
| QrSessionModel.ScopeAgreesWithIsValid | app/Models/QrSession.php:40-51 | on a well-ordered window, scopeActive selects a row iff isValid holds of it |
| QrSessionModel.InvertedWindowSplitsScopeAndIsValid | app/Models/QrSession.php:40-51 | an active row with valid_from 100 and valid_until 50 is valid at 70 but outside the scope |
| QrSessionModel.InactiveNeverValid | app/Models/QrSession.php:42-43 | an inactive row is never valid and never in the scope |
| QrSessionModel.ValidExactlyInsideWindow | app/Models/QrSession.php:40-44 | an active, well-ordered row is valid iff valid_from <= now <= valid_until, both ends included |
| QrSessionModel.ScopeActive | app/Models/QrSession.php:46-51 | the active scope selects exactly the rows of the scope condition |
| QrSessionModel.ScopeActiveMultiplicity | app/Models/QrSession.php:46-51 | each row the scope admits is selected as often as the table holds it, and any other row never |
| QrSessionModel.ScopeActiveCons | app/Models/QrSession.php:46-51 | a first row is kept exactly when it is in the scope, ahead of the selection from the rest |
| QrSessionModel.ScopeActiveKeepsOrder | app/Models/QrSession.php:46-51 | the selection keeps table order: selecting from two runs of rows is selecting from their concatenation |
| QrSessionModel.FindById | app/Services/QrSessionService.php:106 | find returns the row with that id when there is one |
| QrSessionModel.FirstActiveByToken | app/Services/AttendanceService.php:47-49 | the first query returns an active row with the token, and returns none iff no such row exists |
| QrSessionModel.FirstActiveUniqueToken | app/Services/AttendanceService.php:47-49 | with unique tokens, the active row that carries the token is the one the query returns |
| QrSessionModel.AllDeactivated | app/Console/Commands/AutoRotateQrSession.php:48 | the bulk update clears is_active on every row and changes nothing else |
| QrSessionModel.SessionTable.Create | app/Services/QrSessionService.php:28-35 | create appends one row under the next id with the given fields and keeps the tokens unique |
| QrSessionModel.SessionTable.Deactivate | app/Services/QrSessionService.php:85 | clears is_active on that row only |
| QrSessionModel.SessionTable.DeactivateAll | app/Console/Commands/AutoRotateQrSession.php:48 | clears is_active on every row |
| CacheStore.Lookup | app/Services/QrService.php:17 | get returns the stored value iff the key is stored and not yet expired |
| CacheStore.Stored | app/Services/QrService.php:43 | put changes only its own key, at every instant; the key is readable from now until its expiry and absent at and after it |
| CacheStore.Cache.Put | app/Services/QrService.php:43 | the cache after put is Stored of the old one |
| CacheStore.Cache.Forget | app/Services/QrService.php:62 | forget removes exactly that key |
| QrSessionService.GenerateUniqueToken | app/Services/QrSessionService.php:52-60 | the do-while loop returns the first draw of 32 characters that no row carries |
| QrSessionService.CacheQrSession | app/Services/QrSessionService.php:65-77 | qr_session:{token} holds the session's snapshot until valid_until |
| QrSessionService.GenerateQrSession | app/Services/QrSessionService.php:23-47 | appends one active row with a fresh token, the given type, created_by the admin, valid from now for validMinutes, and caches its snapshot |
| QrSessionService.InvalidatedRows | app/Services/QrSessionService.php:82-95 | invalidation clears is_active on that row only and keeps the table well formed |
| QrSessionService.InvalidatedEntries | app/Services/QrSessionService.php:88 | invalidation forgets the row's qr_session:{token} key and nothing else |
| QrSessionService.InvalidateQrSession | app/Services/QrSessionService.php:82-95 | the table and the cache after invalidateQrSession |
| QrSessionService.InvalidateIdempotent | app/Services/QrSessionService.php:82-95 | invalidating twice leaves the table and the cache as invalidating once does |
| QrSessionService.GetActiveQrSession | app/Services/QrSessionService.php:100-114 | on a coherent cache, the result is the active row with the token, on both paths |
| QrSessionService.CacheHitAgrees | app/Services/QrSessionService.php:102-108 | on a coherent cache, a cached active snapshot names the token's active row |
| QrSessionService.GetActiveIgnoresWindow | app/Services/QrSessionService.php:100-114 | an active session long past valid_until is still returned |
| QrSessionService.GeneratePreservesCoherence | app/Services/QrSessionService.php:23-47 | issuing a session keeps every cached active snapshot pointing at its active row |
| QrSessionService.InvalidatePreservesCoherence | app/Services/QrSessionService.php:82-95 | invalidation keeps the cache coherent |
| QrSessionService.RotateQrSession | app/Services/QrSessionService.php:119-142 | the old row becomes inactive; a new active row of the same type with a different token, the next id and created now is appended and cached; a coherent cache stays coherent |
| QrSessionService.Expired | app/Services/QrSessionService.php:160-162 | definition: active and valid_until < now, the sweep's query |
| QrSessionService.Swept | app/Services/QrSessionService.php:158-170 | exactly the active rows past valid_until are deactivated, and none stays expired |
| QrSessionService.CleanupExpiredSessions | app/Services/QrSessionService.php:158-170 | the loop deactivates the expired rows, forgets their keys and returns their count |
| QrSessionService.SweepRow | app/Services/QrSessionService.php:163-167 | one row of the loop: an expired row is deactivated and its cache key forgotten, any other row and the cache are left as they were |
| QrSessionService.SweepStep | app/Services/QrSessionService.php:158-170 | sweeping one more row changes only that row, and adds its key and one to the count exactly when it has expired |
| QrSessionService.SecondSweepIsEmpty | app/Services/QrSessionService.php:158-170 | an immediate second sweep reports 0 and changes neither the table nor the cache |
| QrSessionService.SweepPreservesCoherence | app/Services/QrSessionService.php:158-170 | the sweep keeps the cache coherent |
| QrSessionService.CreatedBetween | app/Services/QrSessionService.php:193 | selects exactly the rows created in the range, both ends included |
| QrSessionService.CreatedBetweenMultiplicity | app/Services/QrSessionService.php:193 | each row created in the range is selected as often as the table holds it, and any other row never |
| QrSessionService.CreatedBetweenCons | app/Services/QrSessionService.php:193 | a first row is kept exactly when it was created in the range, ahead of the selection from the rest |
| QrSessionService.CreatedBetweenKeepsOrder | app/Services/QrSessionService.php:193 | the selection keeps table order |
| QrSessionService.GetQrSessionStats | app/Services/QrSessionService.php:191-202 | total counts the selected rows; active and expired count the rows with is_active true and false, check_in and check_out the rows of each type; active + expired == total; check_in + check_out == total |
| QrService.Generated | app/Services/QrService.php:30-41 | the entry carries the token, is of type check_in, and runs from now to now + 30 s |
| QrService.Slot | app/Services/QrService.php:17 | the slot's content, present only while its cache entry is unexpired |
| QrService.Regenerated | app/Services/QrService.php:30-46 | the slot holds the new entry with a 30-second time to live |
| QrService.Serve | app/Services/QrService.php:15-25 | the cached entry when present and unexpired, else a regenerated one; what is served is never expired |
| QrService.ServeKeepsSlotCoherent | app/Services/QrService.php:15-46 | the slot's entry expires from the cache exactly at its valid_until, before and after a call |
| QrService.IsExpired | app/Services/QrService.php:51-55 | definition: now is strictly after valid_until |
| QrService.CachedEntryNeverExpired | app/Services/QrService.php:20-24 | on a coherent slot, isExpired never fires on what the cache returns |
| QrService.SecondCallSameToken | app/Services/QrService.php:17-24 | a second call while the entry is cached returns the same token and changes nothing |
| QrService.BoundaryInstant | app/Services/QrService.php:43-55 | at exactly valid_until isExpired is false, yet the entry has already lapsed from the cache, so a new one is served |
| QrService.GetActiveQrSession | app/Services/QrService.php:15-25 | the served entry and the new cache are those of Serve |
| QrService.GenerateNewQrSession | app/Services/QrService.php:30-46 | a 32-character token; the entry and cache are those of Regenerated |
| QrService.RefreshQrSession | app/Services/QrService.php:60-64 | whatever was in the slot, it now holds a fresh entry |
| QrService.DisplayTokenUnknownToTable | app/Services/AttendanceService.php:47-49 | a display token that no qr_sessions row carries finds no session |
| AttendanceService.MessagesDistinct | app/Services/AttendanceService.php:52-81 | the four refusals carry four different messages |
| AttendanceService.ValidateQrSession | app/Services/AttendanceService.php:45-60 | invalid iff no active row carries the token; expired iff the active row is not valid now; otherwise that valid row |
| AttendanceService.PreventDoubleSubmission | app/Services/AttendanceService.php:65-83 | "token used" iff the user's marker is cached; else "already today" iff today's record names the session; else none |
| AttendanceService.Recorded | app/Services/AttendanceService.php:88-114 | a check-in sets check_in, qr_session_id and telat iff after 08:30, else hadir, and nothing else; a check-out sets only check_out |
| AttendanceService.Submit | app/Services/AttendanceService.php:20-40 | on error nothing changes; success iff validation and the double-submission check pass; then the day's record is upserted and the marker stored until end of day |
| AttendanceService.UnknownTokenRejected | app/Services/AttendanceService.php:47-51 | a token no active row carries is refused as invalid, and nothing changes |
| AttendanceService.ExpiredSessionRejected | app/Services/AttendanceService.php:53-57 | an active row outside its window is refused as expired, and nothing changes |
| AttendanceService.ResubmissionRefusedUntilEndOfDay | app/Services/AttendanceService.php:65-125 | after a success, the same token is refused at every later instant before the day's last second, and refused as used whenever the session itself still validates |
| AttendanceService.LateThresholdBoundary | app/Services/AttendanceService.php:105 | a check-in at 08:30:00 is hadir and one at 08:30:01 is telat |
| AttendanceService.CheckOutWithoutCheckIn | app/Services/AttendanceService.php:107-109 | a check-out on a day with no record creates one with status hadir and no check-in |
| AttendanceService.SecondCheckInOverwrites | app/Services/AttendanceService.php:100-106 | a second check-in with another session overwrites the check-in time and the session |
| AttendanceService.SubmitKeepsKeys | app/Services/AttendanceService.php:94-97 | a submission keeps every record under its own (user_id, date) key |
| AttendanceService.RecordAttendance | app/Services/AttendanceService.php:88-114 | the saved row is Recorded of today's row, stored under today's key |
| AttendanceService.MarkTokenUsed | app/Services/AttendanceService.php:119-125 | the marker is stored until the end of the day |
| AttendanceService.SubmitAttendance | app/Services/AttendanceService.php:20-40 | the result, the ledger and the cache are those of Submit |
| AttendanceService.Edited | app/Services/AttendanceService.php:146-156 | status and notes are replaced only when given; edited_by and edited_at are set; nothing else changes |
| AttendanceService.EditNeverClearsNotes | app/Services/AttendanceService.php:152 | a missing or null note keeps the old one, so an edit never clears a note |
| AttendanceService.EditAttendance | app/Services/AttendanceService.php:146-156 | the row under the key becomes Edited of the old row; nothing else changes |
| AttendanceService.GetUserAttendanceStats | app/Services/AttendanceService.php:175-189 | total_days counts the user's records in the range; each of the five counts is the number of those records with that status, and they add up to total_days |
| AutoRotate.DeactivationKeepsTokens | app/Console/Commands/AutoRotateQrSession.php:48-51 | the bulk update keeps every token taken, so a fresh draw is still fresh |
| AutoRotate.RotatedTableShape | app/Console/Commands/AutoRotateQrSession.php:48-55 | after the bulk update and one new active row, exactly the last row is active |
| AutoRotate.Handle | app/Console/Commands/AutoRotateQrSession.php:35-60 | no admin: exit 1 and nothing changes; otherwise exit 0, every old row inactive, and one new active check_in row created by the admin, the only active one |
| AutoRotate.RotationKeepsOtherCacheEntries | app/Console/Commands/AutoRotateQrSession.php:48 | the run leaves every cache key but the new session's as it was |
| AutoRotate.StaleSnapshotAfterRotation | app/Console/Commands/AutoRotateQrSession.php:48 | a previously cached active snapshot still makes getActiveQrSession return its row, now inactive |
| MarkAbsent.TargetDate | app/Console/Commands/MarkAbsentEmployees.php:34-37 | the date holding the --date option when given, else yesterday |
| MarkAbsent.AbsentRecord | app/Console/Commands/MarkAbsentEmployees.php:53-62 | an alpha record for the key, with no check times, both flags false and the fixed note |
| MarkAbsent.Handle | app/Console/Commands/MarkAbsentEmployees.php:30-77 | every listed employee has a record for the date; old records are unchanged; new ones are absent records; the count is the employees missing before |
| MarkAbsent.MissingGrows | app/Console/Commands/MarkAbsentEmployees.php:50-63 | an employee with no record, not already seen, is one more missing employee |
| MarkAbsent.FillMissing | app/Console/Commands/MarkAbsentEmployees.php:50-61 | saving the absent record of an employee without one keeps the ledger filled from its starting state |
| MarkAbsent.FillPresent | app/Console/Commands/MarkAbsentEmployees.php:44-50 | skipping an employee who already has a record changes neither the ledger nor the missing set |
| MarkAbsent.SecondRunChangesNothing | app/Console/Commands/MarkAbsentEmployees.php:45-66 | a second run for the same date finds no one missing and changes nothing |
| MarkAbsent.MissingBoundedByList | app/Console/Commands/MarkAbsentEmployees.php:43-64 | the absent count never exceeds the number of listed employees |
| PermitLetterModel.LetterTable.Create | app/Http/Controllers/Employee/PermitLetterController.php:39-46 | create stores the letter under the next id, which was unused |
| PermitLetterModel.LetterTable.Update | app/Http/Controllers/Hr/PermitLetterController.php:18-22 | update replaces that letter only |
| PermitLetterModel.LetterTable.Delete | app/Http/Controllers/Employee/PermitLetterController.php:74-75 | delete removes exactly that letter |
| HrPermitLetters.Approve | app/Http/Controllers/Hr/PermitLetterController.php:12-25 | refused iff not pending; otherwise approved, approved_by and approved_at set, rejection_reason and the rest unchanged |
| HrPermitLetters.TrimEnd | app/Http/Controllers/Hr/PermitLetterController.php:33-35 | the longest prefix of the value that does not end in a blank; everything after it is blank |
| HrPermitLetters.LeadingBlanks | app/Http/Controllers/Hr/PermitLetterController.php:33-35 | the number of blanks the value starts with: all blank before it, and no blank at it |
| HrPermitLetters.Trim | app/Http/Controllers/Hr/PermitLetterController.php:33-35 | the slice between the leading and the trailing blanks, which neither starts nor ends with a blank |
| HrPermitLetters.Normalised | app/Http/Controllers/Hr/PermitLetterController.php:33-35 | the trimmed value, and null iff the input is missing or all blanks |
| HrPermitLetters.Reject | app/Http/Controllers/Hr/PermitLetterController.php:27-45 | refused iff not pending, checked before the reason; invalid iff the trimmed reason is missing, blank or over 500 characters; otherwise rejected with the reviewer, the time and the trimmed reason |
| HrPermitLetters.DecisionsAreFinal | app/Http/Controllers/Hr/PermitLetterController.php:14-31 | after any decision every later approve or reject, by any reviewer at any time, is refused |
| HrPermitLetters.BlankReasonRefused | app/Http/Controllers/Hr/PermitLetterController.php:33-35 | a reason of blanks only is refused, as a missing one is |
| HrPermitLetters.TrimEndIgnoresTrailingBlanks | app/Http/Controllers/Hr/PermitLetterController.php:33-35 | appending blanks to a value does not change its trimmed form |
| HrPermitLetters.LeadingBlanksOfPadded | app/Http/Controllers/Hr/PermitLetterController.php:33-35 | blanks put before a value that starts with a non-blank are exactly its leading blanks |
| HrPermitLetters.TrimIgnoresPadding | app/Http/Controllers/Hr/PermitLetterController.php:33-35 | any value that neither starts nor ends with a blank, padded with any blanks on either side, reaches the rule as the value alone |
| HrPermitLetters.PaddedReasonStoredTrimmed | app/Http/Controllers/Hr/PermitLetterController.php:33-42 | any reason of at most 500 characters, padded with any number of blanks, passes max:500 and is stored trimmed |
| HrPermitLetters.ApproveLetter | app/Http/Controllers/Hr/PermitLetterController.php:12-25 | the reply and the table are those of Approve; a refused letter is unchanged |
| HrPermitLetters.RejectLetter | app/Http/Controllers/Hr/PermitLetterController.php:27-45 | the reply and the table are those of Reject; a refused letter is unchanged |
| EmployeePermitLetters.StoreErrors | app/Http/Controllers/Employee/PermitLetterController.php:28-33 | each field fails exactly its rule: date required; reason in sakit, izin, lainnya; description at most 500; file pdf, jpg, jpeg or png of at most 2048 KB |
| EmployeePermitLetters.NewLetter | app/Http/Controllers/Employee/PermitLetterController.php:39-46 | the new letter is the uploader's, pending, unreviewed, and has no description when none was given |
| EmployeePermitLetters.FileSizeBoundary | app/Http/Controllers/Employee/PermitLetterController.php:32 | a file of 2048 KB plus one byte is refused, and one of exactly 2048 KB is accepted |
| EmployeePermitLetters.UnknownReasonRefused | app/Http/Controllers/Employee/PermitLetterController.php:30 | a reason outside the three is refused |
| EmployeePermitLetters.StoreReply | app/Http/Controllers/Employee/PermitLetterController.php:26-49 | invalid iff a rule fails; for a valid form, success iff User declares the permitLetters relation, otherwise an uncaught exception |
| EmployeePermitLetters.ValidUploadNeverStored | app/Http/Controllers/Employee/PermitLetterController.php:35-48 | with the relations User declares, every valid upload ends in an exception |
| EmployeePermitLetters.ValidUploadStoredWithRelation | app/Http/Controllers/Employee/PermitLetterController.php:39-48 | with the permitLetters relation declared, every valid upload succeeds |
| EmployeePermitLetters.Store | app/Http/Controllers/Employee/PermitLetterController.php:26-49 | as intended: the reply is StoreReply with the relation declared; an invalid form changes nothing; a valid one adds exactly the new letter |
| EmployeePermitLetters.CanDownload | app/Http/Controllers/Employee/PermitLetterController.php:54-59 | definition: the owner, or hasAnyRole of admin and hr |
| EmployeePermitLetters.CanDestroy | app/Http/Controllers/Employee/PermitLetterController.php:67-72 | definition: the owner, while the letter is pending |
| EmployeePermitLetters.CanDownloadExactly | app/Http/Controllers/Employee/PermitLetterController.php:54-59 | download is allowed iff the requester owns the letter or is admin or HR |
| EmployeePermitLetters.DecidedLetterCannotBeWithdrawn | app/Http/Controllers/Employee/PermitLetterController.php:70-72 | no one, whatever their roles, may delete a letter that is not pending |
| EmployeePermitLetters.Destroy | app/Http/Controllers/Employee/PermitLetterController.php:67-78 | the owner of a pending letter removes exactly that letter; anyone else gets 403 and nothing changes |
| AdminAttendanceStats.WorkDays | app/Http/Controllers/Admin/AttendanceController.php:113 | definition: diffInDays + 1 under Carbon 2; see WorkDaysOfOrderedRange |
| AdminAttendanceStats.TotalEmployees | app/Http/Controllers/Admin/AttendanceController.php:25-27 | definition: the number of active users holding the user role |
| AdminAttendanceStats.DepartmentEmployees | app/Http/Controllers/Admin/AttendanceController.php:66-71 | definition: users_count, the department's active users holding the user role |
| AdminAttendanceStats.DiffInDays | app/Http/Controllers/Admin/AttendanceController.php:113 | the whole days between two instants, in either order |
| AdminAttendanceStats.WorkDaysOfOrderedRange | app/Http/Controllers/Admin/AttendanceController.php:113 | on an ordered date range the work days are the dates from start to end, both included |
| AdminAttendanceStats.WorkDaysOfReversedRange | app/Http/Controllers/Admin/AttendanceController.php:113 | on a reversed range they are start - end |
| AdminAttendanceStats.Carbon3WorkDaysMicros | app/Http/Controllers/Admin/AttendanceController.php:21-22 | under Carbon 3 the report's count, in microseconds, is one microsecond short of one day more than the dates in the range; it is positive iff the range is reversed by at most one day |
| AdminAttendanceStats.Carbon3Absent | app/Http/Controllers/Admin/AttendanceController.php:111-116 | under Carbon 3 the absences are the fractional expected count less the attendances, truncated to a whole number, or 0 when that is not positive |
| AdminAttendanceStats.Carbon3Rate | app/Http/Controllers/Admin/AttendanceController.php:40-42 | under Carbon 3 the period rate is the whole percentage nearest to the count over the fractional expected count, halves rounded away from zero, and 0 without employees |
| AdminAttendanceStats.Carbon3AbsentOnOrderedRange | app/Http/Controllers/Admin/AttendanceController.php:111-116 | under Carbon 3 an ordered range reports calculateAbsent's count of the dates plus one less than the number of employees |
| AdminAttendanceStats.Carbon3OneDayReport | app/Http/Controllers/Admin/AttendanceController.php:36-43 | a one-day report for 10 employees: 19 absences with no records and a rate of 50 with 10 records, against 10 and 100 over the dates |
| AdminAttendanceStats.Carbon3RangeReversedByOneDay | app/Http/Controllers/Admin/AttendanceController.php:111-116 | a range reversed by one day counts a positive fraction of a day, and with no records one absence fewer than the employees is reported |
| AdminAttendanceStats.Carbon3LongerReversedRange | app/Http/Controllers/Admin/AttendanceController.php:111-116 | a range reversed by two days or more counts a negative number of days and reports no absences |
| AdminAttendanceStats.CalculateAbsent | app/Http/Controllers/Admin/AttendanceController.php:111-116 | below the expected count, absent + attendances == expected; otherwise absent is 0 |
| AdminAttendanceStats.Rate | app/Http/Controllers/Admin/AttendanceController.php:40-42 | the whole percentage nearest to count / expected, halves rounded up |
| AdminAttendanceStats.LiteralCountsAlwaysZero | app/Http/Controllers/Admin/AttendanceController.php:37-92 | counting status 'present' or 'late' gives 0 on every table |
| AdminAttendanceStats.CorrectedCountsSeeRecords | app/Http/Controllers/Admin/AttendanceController.php:37-38 | a selected hadir record makes the present count positive, a telat record the late count; together they never exceed the selection |
| AdminAttendanceStats.GetPeriodStats | app/Http/Controllers/Admin/AttendanceController.php:25-43 | as intended: present and late count the hadir and telat records of the period; absent is calculateAbsent; the rate is 0 without employees |
| AdminAttendanceStats.WeekdayName | app/Http/Controllers/Admin/AttendanceController.php:59 | the short weekday name of a date: Thu for day 0 (1970-01-01), then Fri, Sat, Sun, Mon, Tue and Wed |
| AdminAttendanceStats.WeekdayNameRepeatsWeekly | app/Http/Controllers/Admin/AttendanceController.php:59 | the name repeats every seven days, and 1970-01-01 is a Thursday |
| AdminAttendanceStats.ChartDays | app/Http/Controllers/Admin/AttendanceController.php:46 | min(7, work days), between 1 and 7 |
| AdminAttendanceStats.DailyStats | app/Http/Controllers/Admin/AttendanceController.php:46-63 | as intended: chartDays entries, one per date, in ascending order, the last being the end date, each with the hadir and telat counts of its date |
| AdminAttendanceStats.DepartmentRowFor | app/Http/Controllers/Admin/AttendanceController.php:74-98 | as intended: users_count, the hadir and telat counts of the department, and absent clamped at zero against users_count × work days |
| AdminAttendanceStats.ActiveDepartments | app/Http/Controllers/Admin/AttendanceController.php:66 | exactly the active departments |
| AdminAttendanceStats.ActiveDepartmentsMultiplicity | app/Http/Controllers/Admin/AttendanceController.php:66 | each active department is selected as often as the table holds it, and an inactive one never |
| AdminAttendanceStats.ActiveDepartmentsCons | app/Http/Controllers/Admin/AttendanceController.php:66 | a first department is kept exactly when it is active, ahead of the selection from the rest |
| AdminAttendanceStats.ActiveDepartmentsKeepOrder | app/Http/Controllers/Admin/AttendanceController.php:66 | the selection keeps the order of the departments table |
| AdminAttendanceStats.DepartmentStats | app/Http/Controllers/Admin/AttendanceController.php:66-98 | one row per active department, in order |
| AttendancePolicy.ViewAny | app/Policies/AttendancePolicy.php:13-16 | definition: admin or HR |
| AttendancePolicy.View | app/Policies/AttendancePolicy.php:21-30 | definition: the record's owner, else admin or HR |
| AttendancePolicy.Create | app/Policies/AttendancePolicy.php:35-39 | definition: the account is active |
| AttendancePolicy.Update | app/Policies/AttendancePolicy.php:44-48 | definition: admin or HR |
| AttendancePolicy.Delete | app/Policies/AttendancePolicy.php:53-57 | definition: admin |
| AttendancePolicy.Export | app/Policies/AttendancePolicy.php:62-65 | definition: admin or HR |
| AttendancePolicy.StaffAbilities | app/Policies/AttendancePolicy.php:13-65 | viewAny, update and export hold iff admin or HR |
| AttendancePolicy.ViewOwnOrStaff | app/Policies/AttendancePolicy.php:21-30 | view holds iff the user owns the record or is admin or HR |
| AttendancePolicy.CreateIgnoresRoles | app/Policies/AttendancePolicy.php:35-39 | create holds iff the account is active, whatever its roles |
| AttendancePolicy.DeleteImpliesUpdate | app/Policies/AttendancePolicy.php:44-57 | delete holds iff admin, and it implies update |
| AttendancePolicy.UpdateIgnoresRecord | app/Policies/AttendancePolicy.php:44-48 | update does not depend on the record |
| UserPolicy.ViewAny | app/Policies/UserPolicy.php:12-15 | definition: admin |
| UserPolicy.View | app/Policies/UserPolicy.php:20-29 | definition: oneself, else admin |
| UserPolicy.Create | app/Policies/UserPolicy.php:34-37 | definition: admin |
| UserPolicy.Update | app/Policies/UserPolicy.php:42-45 | definition: admin |
| UserPolicy.Delete | app/Policies/UserPolicy.php:50-54 | definition: admin, and the target is someone else |
| UserPolicy.AssignRole | app/Policies/UserPolicy.php:59-62 | definition: admin |
| UserPolicy.AdminOnlyAbilities | app/Policies/UserPolicy.php:12-62 | viewAny, create, update and assignRole hold iff admin |
| UserPolicy.ViewSelfOrAdmin | app/Policies/UserPolicy.php:20-29 | view holds iff the target is oneself or the user is admin |
| UserPolicy.NoSelfDeletion | app/Policies/UserPolicy.php:50-54 | no user may delete themselves |
| UserPolicy.DeleteImpliesUpdate | app/Policies/UserPolicy.php:42-54 | delete holds iff admin and the target is someone else, and it implies update |
| QrSessionPolicy.ViewAny | app/Policies/QrSessionPolicy.php:13-16 | definition: admin |
| QrSessionPolicy.Create | app/Policies/QrSessionPolicy.php:21-24 | definition: admin |
| QrSessionPolicy.Update | app/Policies/QrSessionPolicy.php:29-32 | definition: admin |
| QrSessionPolicy.Delete | app/Policies/QrSessionPolicy.php:37-40 | definition: admin |
| QrSessionPolicy.Scan | app/Policies/QrSessionPolicy.php:45-48 | definition: the account is active and holds the user role |
| QrSessionPolicy.ManagementIsAdminOnly | app/Policies/QrSessionPolicy.php:13-40 | viewAny, create, update and delete hold iff admin |
| QrSessionPolicy.ManagementIgnoresSessionAndActivity | app/Policies/QrSessionPolicy.php:21-40 | they ignore the session and whether the account is active |
| QrSessionPolicy.ScanNeedsActiveUserRole | app/Policies/QrSessionPolicy.php:45-48 | scan holds iff active and holding the user role; an admin without it never scans |
| DepartmentPolicy.ViewAny | app/Policies/DepartmentPolicy.php:13-16 | definition: admin |
| DepartmentPolicy.View | app/Policies/DepartmentPolicy.php:21-24 | definition: admin |
| DepartmentPolicy.Create | app/Policies/DepartmentPolicy.php:29-32 | definition: admin |
| DepartmentPolicy.Update | app/Policies/DepartmentPolicy.php:37-40 | definition: admin |
| DepartmentPolicy.Delete | app/Policies/DepartmentPolicy.php:45-48 | definition: admin |
| DepartmentPolicy.AllAbilitiesAreAdmin | app/Policies/DepartmentPolicy.php:13-48 | all five abilities hold iff admin, whatever the department |
| DepartmentPolicy.NonAdminDeniedEverything | app/Policies/DepartmentPolicy.php:13-48 | a non-admin is denied all five |
| RoleMigration.PivotOf | database/migrations/2025_12_31_055339_migrate_users_to_multiple_roles.php:16-25 | one pivot row per user with a role_id, and none for a user without one |
| RoleMigration.PivotOfAppend | database/migrations/2025_12_31_055339_migrate_users_to_multiple_roles.php:16-25 | one more user adds its own row, if any, after the rows of the users before it |
| RoleMigration.Up | database/migrations/2025_12_31_055339_migrate_users_to_multiple_roles.php:13-32 | the loop inserts exactly PivotOf of the users, in their order |
| RoleMigration.FirstRoleOf | database/migrations/2025_12_31_055339_migrate_users_to_multiple_roles.php:45-52 | the role of the user's first pivot row, and none iff the user has no row |
| RoleMigration.FirstRoleOfAppend | database/migrations/2025_12_31_055339_migrate_users_to_multiple_roles.php:47-51 | a later row sets a user's role only while it is still null |
| RoleMigration.FirstRoleOfExtended | database/migrations/2025_12_31_055339_migrate_users_to_multiple_roles.php:45-52 | rows read after the first row naming a user do not change the role down gives that user |
| RoleMigration.Down | database/migrations/2025_12_31_055339_migrate_users_to_multiple_roles.php:37-53 | the loop leaves every user with the role of their first pivot row, or null |
| RoleMigration.FirstRoleOfPivot | database/migrations/2025_12_31_055339_migrate_users_to_multiple_roles.php:16-25 | the first row up writes for a user carries that user's role_id |
| RoleMigration.RoundTrip | database/migrations/2025_12_31_055339_migrate_users_to_multiple_roles.php:16-52 | down after up restores every user's role_id, null included |
| RoleMigration.LaterGrantsDoNotChangeRestoredRole | database/migrations/2025_12_31_055339_migrate_users_to_multiple_roles.php:45-52 | roles granted after up do not change the role down restores to a user who had one |
| Sidebar.HasRole | resources/js/components/app-sidebar.tsx:31-33 | true iff the roles are loaded and name the role |
| Sidebar.GetMenuItems | resources/js/components/app-sidebar.tsx:36-117 | admin, HR, then employee items; one Dashboard, first, leading to the highest role's dashboard; 5[admin] + 2[hr] + 2[user], plus 1 for a non-admin with a role; empty iff no role |

## Left out

- Audit logging is I/O and is not modelled: `logAttendance`, `logQrSessionAction`, `AuditLog::create` and `request()->ip()`. Neither is application logging (`Log::info`).
- `DB::transaction` is modelled only as "an error leaves the old state". Database failures inside a transaction and concurrent requests are not modelled; the source takes no locks.
- `Str::random(32)` is modelled as draws supplied by the caller, with the precondition that one of them is fresh. The loop's termination therefore rests on that precondition, not on randomness.
- File storage is I/O. `store` takes the stored path as a parameter, and `download` is modelled only by its guard.
- The HR `download` action has no ownership check, only its route's role middleware, and streams a file. It has nothing left to model.
- Times are whole seconds: microseconds, time zones, the `time`-only check_in/check_out columns and the `Y-m-d`/ISO-8601 formatting are not modelled.
- AdminAttendanceStats.DiffInDays: follows Carbon 2, an unsigned count of whole days. Carbon 3's `diffInDays` is signed by default and fractional. The sign and the fraction are modelled only on the report's own range, by `AdminAttendanceStats.Carbon3WorkDaysMicros`.
- AdminAttendanceStats.WorkDaysOfOrderedRange: states Carbon 2's count of the dates in the range. Under Carbon 3 an ordered range counts nearly one extra day (`AdminAttendanceStats.Carbon3WorkDaysMicros`), and `CalculateAbsent`, `GetPeriodStats` and `DepartmentRowFor` inherit that. The rest of the model uses the dates counted, as intended; the Carbon 3 absences and period rate are modelled separately (`AdminAttendanceStats.Carbon3Absent`, `AdminAttendanceStats.Carbon3Rate`).
- AdminAttendanceStats.WorkDaysOfReversedRange: states Carbon 2's count of `start - end` days. Under Carbon 3, a range reversed by one day counts just under one day. Then the chart loop does not run, and calculateAbsent reports one absence fewer than there are employees. A range reversed by more counts a negative number of days and reports no absences (`AdminAttendanceStats.Carbon3RangeReversedByOneDay`, `AdminAttendanceStats.Carbon3LongerReversedRange`).
- AdminAttendanceStats.Carbon3Absent: exact rational arithmetic in place of PHP floats. The float result can differ only when the exact value lies within the float's rounding error of a whole number.
- AdminAttendanceStats.Carbon3Rate: the period rate only. The department rate under Carbon 3 is the same when the range is not reversed by two days or more; otherwise its expected count is negative and the rate is 0. The daily chart under Carbon 3 is not modelled: its loop index starts at a fractional value, which it passes to `subDays`.
- AdminAttendanceStats.Rate: uses exact integer rounding, not floating point. PHP's float result can differ only when the exact percentage lies within rounding error of a half.
- AutoRotate.Handle: takes `validMinutes` as an int. PHP's coercion of the float 0.5 that the command passes to an int parameter is not modelled.
- AutoRotate.Handle: takes the admin as an input. The source's lookup `whereHas('role')` names a relation the User model lacks (it has `roles()`), so the lookup fails at run time.
- MarkAbsent.Handle: takes the employee list as an input. The source's `User::role('employee')` names a scope the User model does not define and a role nobody is seeded with.
- QrSessionService.GenerateQrSession: does not require 5 <= validMinutes <= 120. Only QrSessionController's validation enforces that bound, and the auto-rotate command calls the service outside it. The controller is not part of this model.
- QrSessionService.GetActiveQrSession: states its result only when the cache is coherent. After `qr:auto-rotate` the cache is not coherent, and `AutoRotate.StaleSnapshotAfterRotation` states what happens then.
- `getActiveSessions` in QrSessionService.php selects the rows of `QrSession::active()`, which are those of `QrSessionModel.ScopeActive`. Its `orderBy('created_at', 'desc')`, which returns the newest session first, is not modelled; `ScopeActive` keeps ascending table order. The eager load of the creator is not modelled either.
- RoleMigration.LaterGrantsDoNotChangeRestoredRole: assumes `DB::table('role_user')->get()` returns up's rows before any later grant. The query has no `orderBy`, so this is the storage order of the pivot table; the model does not capture any other order.
- AdminAttendanceStats.GetPeriodStats, AdminAttendanceStats.DailyStats and AdminAttendanceStats.DepartmentRowFor: compute present and late as intended, from hadir and telat records. As written the source counts the literal 'present' and 'late' and always gets 0 (see "Findings").
- EmployeePermitLetters.StoreErrors: takes the extension guessed from the file's content as an input. Laravel's MIME detection is not modelled.
- `getQrSessionStats` returns its counts, not the query objects.
- `editAttendance` takes its status already validated, as the HR attendance controller does (`in:hadir,telat,izin,sakit,alpha`); that controller is not part of this model. Laravel's TrimStrings and ConvertEmptyStringsToNull middleware are modelled only for `rejection_reason` (`HrPermitLetters.Normalised`); the employee upload form's fields are taken as the validator sees them.
- HrPermitLetters.Reject: the trimmed blanks are the Unicode white space of Laravel 11 and later's `Str::trim`, listed by code point; lengths are counted in code points, as `mb_strlen` counts them, not in UTF-16 units or bytes.
- EmployeePermitLetters.Store: models store as intended, with a `permitLetters` relation on User. The User model declares no such relation, so as written a valid upload writes its file and then throws (see "Findings"). `index` calls the same missing relation and is not modelled.
- `web.php` calls `determineQrType` on QrService, which does not define it. The routing is not part of this model.
- The admin report reads its range from the request. The report takes its start and end instants as parameters, and the request parsing is not modelled.
- The schema-only parts of the migrations are not modelled: columns, foreign keys, dropping and re-adding role_id. The unique (user_id, date) index and the status and type enums are the invariants of the tables.
- Frontend rendering, the other controllers, the seeders and the service provider are not part of this model.

## Findings

| source | as written | input that shows it | evidently intended | confidence | as-written member | corrected member |
|---|---|---|---|---|---|---|
| app/Http/Controllers/Admin/AttendanceController.php:37-92 | the report counts records with status 'present' and 'late' | any table, e.g. one hadir record checked in during the range: total_present is 0 | present counts hadir records and late counts telat records, the statuses the attendances enum defines | not executed | AdminAttendanceStats.LiteralCountsAlwaysZero | AdminAttendanceStats.CorrectedCountsSeeRecords |
| app/Http/Controllers/Employee/PermitLetterController.php:35-48 | store writes the file, then calls `permitLetters()` on the user, a relation User does not declare | any valid upload: its file is written and BadMethodCallException follows, so no letter is stored | User has a `permitLetters` hasMany relation and the letter is created | not executed | EmployeePermitLetters.ValidUploadNeverStored | EmployeePermitLetters.Store |
| app/Http/Controllers/Admin/AttendanceController.php:111-116 | the work days are `$start->diffInDays($end) + 1` from the start of the start date to the end of the end date; under Carbon 3, which Laravel 12 requires, that is `end - start + 1.99999999998843` | a one-day report for 10 active employees with no records: total_absent is 19 | the work days are the dates from start to end, `end - start + 1`, giving 10 | medium: rests on the application running Carbon 3; not executed | AdminAttendanceStats.Carbon3AbsentOnOrderedRange | AdminAttendanceStats.WorkDaysOfOrderedRange |
