/** The arithmetic of the admin attendance report: the period summary, the daily chart of at
    most seven days ending at the end date, and one summary row per active department. */
module AdminAttendanceStats {
  import opened Basics
  import opened Roles
  import opened AttendanceModel
  import opened DepartmentPolicy

  function Abs(x: int): nat { if x < 0 then -x else x }

  /** Carbon's diffInDays between two instants: the whole days between them, either order. */
  function DiffInDays(a: int, b: int): (n: nat)
    ensures n * SecondsPerDay <= Abs(b - a) < (n + 1) * SecondsPerDay
  {
    Abs(b - a) / SecondsPerDay
  }

  /** The report's range: the start of the start date to the end of the end date. */
  function RangeStart(startDate: int): int { StartOfDay(startDate) }
  function RangeEnd(endDate: int): int { EndOfDay(StartOfDay(endDate)) }

  /** `$start->diffInDays($end) + 1` */
  function WorkDays(start: int, end: int): nat
  {
    DiffInDays(start, end) + 1
  }

  /** On an ordered range the work days are the dates from start to end, both included. */
  lemma WorkDaysOfOrderedRange(startDate: int, endDate: int)
    requires startDate <= endDate
    ensures WorkDays(RangeStart(startDate), RangeEnd(endDate)) == endDate - startDate + 1
  {
    var gap := RangeEnd(endDate) - RangeStart(startDate);
    assert gap == (endDate - startDate) * SecondsPerDay + SecondsPerDay - 1;
    DivisionOfDayMultiple(endDate - startDate, SecondsPerDay - 1);
  }

  /** On a reversed range the end of the end date is less than a day away from its next
      midnight, so one date fewer is counted. */
  lemma WorkDaysOfReversedRange(startDate: int, endDate: int)
    requires endDate < startDate
    ensures WorkDays(RangeStart(startDate), RangeEnd(endDate)) == startDate - endDate
  {
    var gap := RangeStart(startDate) - RangeEnd(endDate);
    assert gap == (startDate - endDate - 1) * SecondsPerDay + 1;
    DivisionOfDayMultiple(startDate - endDate - 1, 1);
  }

  lemma DivisionOfDayMultiple(q: nat, r: nat)
    requires r < SecondsPerDay
    ensures (q * SecondsPerDay + r) / SecondsPerDay == q
  {
  }

  /** calculateAbsent: the expected attendances less the recorded ones, clamped at zero. */
  function CalculateAbsent(start: int, end: int, totalEmployees: nat, totalAttendances: nat): (r: nat)
    ensures totalAttendances <= totalEmployees * WorkDays(start, end) ==>
      r + totalAttendances == totalEmployees * WorkDays(start, end)
    ensures totalAttendances >= totalEmployees * WorkDays(start, end) ==> r == 0
  {
    var workDays := WorkDays(start, end);
    var expected := totalEmployees * workDays;
    if expected - totalAttendances > 0 then expected - totalAttendances else 0
  }

  /** `(int) round(count / expected * 100)` on exact arithmetic: the nearest whole percentage,
      halves rounded up. */
  function Rate(count: nat, expected: nat): (r: int)
    requires expected > 0
    ensures 2 * expected * r <= 200 * count + expected < 2 * expected * (r + 1)
  {
    (200 * count + expected) / (2 * expected)
  }

  /** Carbon 3 keeps microseconds: endOfDay is 23:59:59.999999, and diffInDays is signed and
      keeps its fraction. Its work-day count is therefore a fraction over MicrosPerDay. */
  const MicrosPerDay: int := SecondsPerDay * 1000000

  /** `$start->diffInDays($end) + 1` under Carbon 3 on the report's range, in microseconds:
      one microsecond short of a whole number of days, one day more than the dates counted. */
  function Carbon3WorkDaysMicros(startDate: int, endDate: int): (w: int)
    ensures w == (endDate - startDate + 2) * MicrosPerDay - 1
    ensures w > 0 <==> startDate <= endDate + 1
  {
    var startMicros := StartOfDay(startDate) * 1000000;
    var endMicros := StartOfDay(endDate) * 1000000 + MicrosPerDay - 1;
    endMicros - startMicros + MicrosPerDay
  }

  /** `(int) calculateAbsent(...)` under Carbon 3: the fractional expected count less the
      attendances, clamped at zero, then truncated. */
  function Carbon3Absent(startDate: int, endDate: int, totalEmployees: nat, totalAttendances: nat): (r: nat)
    ensures var excess := totalEmployees * Carbon3WorkDaysMicros(startDate, endDate) - totalAttendances * MicrosPerDay;
      (excess <= 0 ==> r == 0) && (excess > 0 ==> r * MicrosPerDay <= excess < (r + 1) * MicrosPerDay)
  {
    var excess := totalEmployees * Carbon3WorkDaysMicros(startDate, endDate) - totalAttendances * MicrosPerDay;
    if excess > 0 then excess / MicrosPerDay else 0
  }

  /** The stats block's attendance rate under Carbon 3: the count over the fractional expected
      count, as a percentage rounded half away from zero. */
  function Carbon3Rate(startDate: int, endDate: int, totalEmployees: nat, count: nat): (r: int)
    ensures totalEmployees == 0 ==> r == 0
    ensures var e := totalEmployees * Carbon3WorkDaysMicros(startDate, endDate);
      e > 0 ==> 2 * e * r <= 200 * count * MicrosPerDay + e < 2 * e * (r + 1)
    ensures var e := -(totalEmployees * Carbon3WorkDaysMicros(startDate, endDate));
      e > 0 ==> 2 * e * -r <= 200 * count * MicrosPerDay + e < 2 * e * (-r + 1)
  {
    var e := totalEmployees * Carbon3WorkDaysMicros(startDate, endDate);
    if e > 0 then Rate(count * MicrosPerDay, e)
    else if e < 0 then -Rate(count * MicrosPerDay, -e)
    else 0
  }

  lemma DivisionOfMicroDayMultiple(q: nat, r: nat)
    requires r < MicrosPerDay
    ensures (q * MicrosPerDay + r) / MicrosPerDay == q
  {
  }

  /** On an ordered range Carbon 3 counts one day too many, less a microsecond: every employee
      adds one expected attendance, and the truncation takes one away. */
  lemma Carbon3AbsentOnOrderedRange(startDate: int, endDate: int, totalEmployees: nat, totalAttendances: nat)
    requires startDate <= endDate && 0 < totalEmployees <= MicrosPerDay
    requires totalAttendances <= totalEmployees * (endDate - startDate + 1)
    ensures Carbon3Absent(startDate, endDate, totalEmployees, totalAttendances)
            == CalculateAbsent(RangeStart(startDate), RangeEnd(endDate), totalEmployees, totalAttendances)
               + totalEmployees - 1
  {
    var n := totalEmployees;
    var days := endDate - startDate + 1;
    WorkDaysOfOrderedRange(startDate, endDate);
    var q := n * (days + 1) - totalAttendances;
    assert q >= n by {
      assert n * (days + 1) == n * days + n;
    }
    var excess := n * Carbon3WorkDaysMicros(startDate, endDate) - totalAttendances * MicrosPerDay;
    assert excess == (q - 1) * MicrosPerDay + (MicrosPerDay - n) by {
      assert n * Carbon3WorkDaysMicros(startDate, endDate) == n * (days + 1) * MicrosPerDay - n;
      assert q * MicrosPerDay == n * (days + 1) * MicrosPerDay - totalAttendances * MicrosPerDay;
    }
    DivisionOfMicroDayMultiple(q - 1, MicrosPerDay - n);
    assert n * (days + 1) == n * days + n;
  }

  /** A one-day report with 10 employees: under Carbon 3, 19 absences with no records and a
      rate of 50 with 10 records, where the dates counted give 10 and 100. */
  lemma Carbon3OneDayReport(d: int)
    ensures Carbon3Absent(d, d, 10, 0) == 19
    ensures CalculateAbsent(RangeStart(d), RangeEnd(d), 10, 0) == 10
    ensures Carbon3Rate(d, d, 10, 10) == 50
    ensures Rate(10, 10 * WorkDays(RangeStart(d), RangeEnd(d))) == 100
  {
    WorkDaysOfOrderedRange(d, d);
    Carbon3AbsentOnOrderedRange(d, d, 10, 0);
    assert Carbon3WorkDaysMicros(d, d) == 2 * MicrosPerDay - 1;
  }

  /** A range reversed by one day still has a positive Carbon 3 work-day count, under one day,
      and calculateAbsent reports one absence fewer than there are employees. */
  lemma Carbon3RangeReversedByOneDay(endDate: int, totalEmployees: nat)
    requires 0 < totalEmployees <= MicrosPerDay
    ensures 0 < Carbon3WorkDaysMicros(endDate + 1, endDate) < MicrosPerDay
    ensures Carbon3Absent(endDate + 1, endDate, totalEmployees, 0) == totalEmployees - 1
  {
    var n := totalEmployees;
    assert n * Carbon3WorkDaysMicros(endDate + 1, endDate) == (n - 1) * MicrosPerDay + (MicrosPerDay - n);
    DivisionOfMicroDayMultiple(n - 1, MicrosPerDay - n);
  }

  /** A range reversed by two days or more has a negative Carbon 3 work-day count, so no
      absence is reported. */
  lemma Carbon3LongerReversedRange(startDate: int, endDate: int, totalEmployees: nat, totalAttendances: nat)
    requires endDate + 1 < startDate
    ensures Carbon3WorkDaysMicros(startDate, endDate) < 0
    ensures Carbon3Absent(startDate, endDate, totalEmployees, totalAttendances) == 0
  {
    assert totalEmployees * Carbon3WorkDaysMicros(startDate, endDate) <= 0;
  }

  /** A user as the report's queries see it. */
  datatype Account = Account(roles: set<string>, isActive: bool, departmentId: Option<int>)

  /** Holds the 'user' role, which HR staff who scan attendance hold as well. */
  predicate IsEmployee(a: Account)
  {
    UserRole in a.roles
  }

  /** `User::whereHas('roles', 'user')->where('is_active', true)->count()` */
  function TotalEmployees(users: map<int, Account>): nat
  {
    |set id | id in users && IsEmployee(users[id]) && users[id].isActive|
  }

  /** An attendance whose check-in lies in the range and whose user holds the 'user' role;
      whether that user is still active does not enter. */
  predicate CountedIn(users: map<int, Account>, a: Attendance, start: int, end: int)
  {
    a.userId in users && IsEmployee(users[a.userId]) && a.checkIn.Some? && start <= a.checkIn.value <= end
  }

  function PeriodKeys(records: map<DayKey, Attendance>, users: map<int, Account>, start: int, end: int): set<DayKey>
  {
    set k | k in records && CountedIn(users, records[k], start, end)
  }

  /** The counts the source takes, of records whose status is literally 'present' or 'late'. */
  function CountLiteral(records: map<DayKey, Attendance>, keys: set<DayKey>, name: string): nat
  {
    |set k | k in keys && k in records && StatusName(records[k].status) == name|
  }

  /** No status is stored as 'present' or 'late' (the enum is hadir, telat, izin, sakit,
      alpha), so the literal counts are zero on every table. */
  lemma LiteralCountsAlwaysZero(records: map<DayKey, Attendance>, keys: set<DayKey>)
    ensures CountLiteral(records, keys, "present") == 0
    ensures CountLiteral(records, keys, "late") == 0
  {
    forall s: Status
      ensures StatusName(s) != "present" && StatusName(s) != "late"
    {
      match s
      case Hadir => assert StatusName(s)[0] == 'h';
      case Telat => assert StatusName(s)[0] == 't';
      case Izin => assert StatusName(s)[0] == 'i';
      case Sakit => assert StatusName(s)[0] == 's';
      case Alpha => assert StatusName(s)[0] == 'a';
    }
    assert (set k | k in keys && k in records && StatusName(records[k].status) == "present") == {};
    assert (set k | k in keys && k in records && StatusName(records[k].status) == "late") == {};
  }

  /** The counts as intended: 'present' are the on-time check-ins (hadir), 'late' the late
      ones (telat). A selected record of that status makes its count positive. */
  function PresentCount(records: map<DayKey, Attendance>, keys: set<DayKey>): nat
  {
    CountStatus(records, keys, Hadir)
  }

  function LateCount(records: map<DayKey, Attendance>, keys: set<DayKey>): nat
  {
    CountStatus(records, keys, Telat)
  }

  lemma CorrectedCountsSeeRecords(records: map<DayKey, Attendance>, keys: set<DayKey>, k: DayKey)
    requires keys <= records.Keys && k in keys
    ensures records[k].status == Hadir ==> PresentCount(records, keys) > 0
    ensures records[k].status == Telat ==> LateCount(records, keys) > 0
    ensures PresentCount(records, keys) + LateCount(records, keys) <= |keys|
  {
    if records[k].status == Hadir {
      assert k in WithStatus(records, keys, Hadir);
    }
    if records[k].status == Telat {
      assert k in WithStatus(records, keys, Telat);
    }
    StatusCountsPartition(records, keys);
  }

  datatype PeriodStats = PeriodStats(totalPresent: nat, totalLate: nat, totalAbsent: nat, attendanceRate: int)

  /** The `stats` block of index, with the intended status counts. */
  function GetPeriodStats(records: map<DayKey, Attendance>, users: map<int, Account>, start: int, end: int)
    : (r: PeriodStats)
    ensures var keys := PeriodKeys(records, users, start, end); var n := |keys|;
      && r.totalPresent == |WithStatus(records, keys, Hadir)| && r.totalLate == |WithStatus(records, keys, Telat)|
      && r.totalPresent + r.totalLate <= n
      && r.totalAbsent == CalculateAbsent(start, end, TotalEmployees(users), n)
      && (TotalEmployees(users) == 0 ==> r.attendanceRate == 0)
      && (TotalEmployees(users) > 0 ==> r.attendanceRate == Rate(n, TotalEmployees(users) * WorkDays(start, end)))
  {
    var keys := PeriodKeys(records, users, start, end);
    var e := TotalEmployees(users);
    StatusCountsPartition(records, keys);
    PeriodStats(PresentCount(records, keys), LateCount(records, keys),
                CalculateAbsent(start, end, e, |keys|),
                if e > 0 then Rate(|keys|, e * WorkDays(start, end)) else 0)
  }

  const WeekdayNames: seq<string> := ["Sun", "Mon", "Tue", "Wed", "Thu", "Fri", "Sat"]

  /** `format('D')` of a date; date 0 (1970-01-01) is a Thursday. */
  function WeekdayName(d: int): (n: string)
    ensures d % 7 == 0 ==> n == "Thu"
    ensures d % 7 == 1 ==> n == "Fri"
    ensures d % 7 == 2 ==> n == "Sat"
    ensures d % 7 == 3 ==> n == "Sun"
    ensures d % 7 == 4 ==> n == "Mon"
    ensures d % 7 == 5 ==> n == "Tue"
    ensures d % 7 == 6 ==> n == "Wed"
  {
    WeekdayNames[(d + 4) % 7]
  }

  lemma WeekdayNameRepeatsWeekly(d: int)
    ensures WeekdayName(d + 7) == WeekdayName(d)
    ensures WeekdayName(0) == "Thu"
  {
    assert (d + 7 + 4) % 7 == (d + 4) % 7;
  }

  datatype DailyEntry = DailyEntry(date: int, day: string, present: nat, late: nat)

  /** The employee attendances whose check-in falls on date `d` (`whereDate('check_in', d)`). */
  function DayKeys(records: map<DayKey, Attendance>, users: map<int, Account>, d: int): set<DayKey>
  {
    set k | k in records && records[k].userId in users && IsEmployee(users[records[k].userId])
                         && records[k].checkIn.Some? && Day(records[k].checkIn.value) == d
  }

  function DailyEntryFor(records: map<DayKey, Attendance>, users: map<int, Account>, d: int): DailyEntry
  {
    var keys := DayKeys(records, users, d);
    DailyEntry(d, WeekdayName(d), PresentCount(records, keys), LateCount(records, keys))
  }

  /** `min(7, $start->diffInDays($end) + 1)` */
  function ChartDays(start: int, end: int): (n: nat)
    ensures 1 <= n <= 7 && n <= WorkDays(start, end)
    ensures n == 7 || n == WorkDays(start, end)
  {
    if 7 <= WorkDays(start, end) then 7 else WorkDays(start, end)
  }

  /** The daily chart: one entry per date, the last ChartDays dates up to the end date, in
      ascending order. */
  method DailyStats(records: map<DayKey, Attendance>, users: map<int, Account>, start: int, end: int)
    returns (dailyStats: seq<DailyEntry>)
    ensures |dailyStats| == ChartDays(start, end)
    ensures dailyStats[|dailyStats| - 1].date == Day(end)
    ensures forall j :: 0 <= j < |dailyStats| ==>
      dailyStats[j] == DailyEntryFor(records, users, Day(end) - (|dailyStats| - 1 - j))
    ensures forall j, k :: 0 <= j < k < |dailyStats| ==> dailyStats[j].date < dailyStats[k].date
  {
    var chartDays := ChartDays(start, end);
    dailyStats := [];
    var i := chartDays - 1;
    while i >= 0
      invariant -1 <= i <= chartDays - 1
      invariant |dailyStats| == chartDays - 1 - i
      invariant forall j :: 0 <= j < |dailyStats| ==>
        dailyStats[j] == DailyEntryFor(records, users, Day(end) - (chartDays - 1 - j))
    {
      var date := end - i * SecondsPerDay;
      SubDays(end, i);
      dailyStats := dailyStats + [DailyEntryFor(records, users, Day(date))];
      i := i - 1;
    }
  }

  datatype DepartmentRow = DepartmentRow(id: int, name: string, totalEmployees: nat,
                                         present: nat, late: nat, absent: nat, attendanceRate: int)

  /** The department's `users_count`: its active users holding the 'user' role. */
  function DepartmentEmployees(users: map<int, Account>, deptId: int): nat
  {
    |set id | id in users && IsEmployee(users[id]) && users[id].isActive && users[id].departmentId == Some(deptId)|
  }

  /** The department's attendances in the range, of users holding the 'user' role. */
  function DepartmentKeys(records: map<DayKey, Attendance>, users: map<int, Account>, deptId: int,
                          start: int, end: int): set<DayKey>
  {
    set k | k in PeriodKeys(records, users, start, end) && users[records[k].userId].departmentId == Some(deptId)
  }

  /** One row of departmentStats. */
  function DepartmentRowFor(dept: Department, records: map<DayKey, Attendance>, users: map<int, Account>,
                            start: int, end: int): (r: DepartmentRow)
    ensures r.id == dept.id && r.name == dept.name
    ensures r.totalEmployees == DepartmentEmployees(users, dept.id)
    ensures var keys := DepartmentKeys(records, users, dept.id, start, end); var n := |keys|;
      var expected := r.totalEmployees * WorkDays(start, end);
      && r.present == |WithStatus(records, keys, Hadir)| && r.late == |WithStatus(records, keys, Telat)|
      && r.present + r.late <= n
      && (n <= expected ==> r.absent + n == expected)
      && (n >= expected ==> r.absent == 0)
      && (expected == 0 ==> r.attendanceRate == 0)
      && (expected > 0 ==> r.attendanceRate == Rate(n, expected))
  {
    var keys := DepartmentKeys(records, users, dept.id, start, end);
    var employees := DepartmentEmployees(users, dept.id);
    var expected := employees * WorkDays(start, end);
    StatusCountsPartition(records, keys);
    DepartmentRow(dept.id, dept.name, employees, PresentCount(records, keys), LateCount(records, keys),
                  if expected - |keys| > 0 then expected - |keys| else 0,
                  if expected > 0 then Rate(|keys|, expected) else 0)
  }

  /** `Department::where('is_active', true)`, in table order. */
  function ActiveDepartments(depts: seq<Department>): (r: seq<Department>)
    ensures forall d :: d in r <==> d in depts && d.isActive
  {
    if depts == [] then []
    else
      var rest := ActiveDepartments(depts[1..]);
      assert forall d :: d in depts <==> d == depts[0] || d in depts[1..];
      if depts[0].isActive then [depts[0]] + rest else rest
  }

  /** The selection keeps every active department as often as the table holds it. */
  lemma {:induction false} ActiveDepartmentsMultiplicity(depts: seq<Department>, d: Department)
    ensures multiset(ActiveDepartments(depts))[d] == if d.isActive then multiset(depts)[d] else 0
  {
    if depts != [] {
      assert depts == [depts[0]] + depts[1..];
      ActiveDepartmentsMultiplicity(depts[1..], d);
    }
  }

  /** Selecting from a row followed by more rows. */
  lemma ActiveDepartmentsCons(x: Department, rest: seq<Department>)
    ensures ActiveDepartments([x] + rest) == (if x.isActive then [x] else []) + ActiveDepartments(rest)
  {
    assert ([x] + rest)[0] == x && ([x] + rest)[1..] == rest;
  }

  /** The selection keeps the order of the departments table. */
  lemma {:induction false} ActiveDepartmentsKeepOrder(a: seq<Department>, b: seq<Department>)
    ensures ActiveDepartments(a + b) == ActiveDepartments(a) + ActiveDepartments(b)
  {
    if a == [] {
      assert a + b == b;
    } else {
      var x, t := a[0], a[1..];
      assert a == [x] + t && a + b == [x] + (t + b);
      var head := if x.isActive then [x] else [];
      calc {
        ActiveDepartments(a + b);
        { ActiveDepartmentsCons(x, t + b); }
        head + ActiveDepartments(t + b);
        { ActiveDepartmentsKeepOrder(t, b); }
        head + (ActiveDepartments(t) + ActiveDepartments(b));
        (head + ActiveDepartments(t)) + ActiveDepartments(b);
        { ActiveDepartmentsCons(x, t); }
        ActiveDepartments(a) + ActiveDepartments(b);
      }
    }
  }


  /** departmentStats: one row per active department. */
  function DepartmentStats(depts: seq<Department>, records: map<DayKey, Attendance>, users: map<int, Account>,
                           start: int, end: int): (r: seq<DepartmentRow>)
    ensures |r| == |ActiveDepartments(depts)|
    ensures forall i :: 0 <= i < |r| ==> r[i] == DepartmentRowFor(ActiveDepartments(depts)[i], records, users, start, end)
  {
    var active := ActiveDepartments(depts);
    seq(|active|, i requires 0 <= i < |active| => DepartmentRowFor(active[i], records, users, start, end))
  }
}
