/** The `attendance:mark-absent` console command: for the target date, every listed employee
    without an attendance record gets an 'alpha' record. */
module MarkAbsent {
  import opened Basics
  import opened AttendanceModel

  const AbsentNote: string := "Auto-marked absent (no attendance recorded)"

  /** The date the command works on: the day of the `--date` option when given (its
      startOfDay), otherwise yesterday. */
  function TargetDate(dateOption: Option<int>, now: int): (d: int)
    ensures dateOption.Some? ==> StartOfDay(d) <= dateOption.value < StartOfDay(d) + SecondsPerDay
    ensures dateOption.None? ==> StartOfDay(d) + SecondsPerDay == StartOfDay(Day(now))
  {
    match dateOption
    case Some(t) => Day(t)
    case None => Day(now) - 1
  }

  /** The record `Attendance::create` writes for an absent employee. The has_checked flags
      are not fillable, so they take their column default, which is false as well. */
  function AbsentRecord(userId: int, date: int): (a: Attendance)
    ensures a.KeyOf() == DayKey(userId, date)
    ensures a.status == Alpha && !a.hasCheckedIn && !a.hasCheckedOut
    ensures a.checkIn.None? && a.checkOut.None? && a.notes == Some(AbsentNote)
    ensures a.qrSessionId.None? && a.editedBy.None? && a.editedAt.None?
  {
    NewRecord(DayKey(userId, date)).(status := Alpha, notes := Some(AbsentNote))
  }

  /** The employees that have no record for `date` in `records`. */
  function Missing(records: map<DayKey, Attendance>, employees: seq<int>, date: int): set<int>
  {
    set e | e in employees && DayKey(e, date) !in records
  }

  /** `after` is `before` with an absent record added for exactly the missing employees. */
  ghost predicate FilledFrom(before: map<DayKey, Attendance>, after: map<DayKey, Attendance>,
                             employees: seq<int>, date: int)
  {
    && (forall e :: e in employees ==> DayKey(e, date) in after)
    && (forall k :: k in before ==> k in after && after[k] == before[k])
    && (forall k :: k in after && k !in before ==>
          k.date == date && k.userId in employees && after[k] == AbsentRecord(k.userId, date))
  }

  /** The loop step for an employee without a record: it is one more missing employee. */
  lemma MissingGrows(before: map<DayKey, Attendance>, employees: seq<int>, i: int, date: int)
    requires 0 <= i < |employees| && DayKey(employees[i], date) !in before
    requires forall e :: e in employees[..i] ==> DayKey(e, date) != DayKey(employees[i], date)
    ensures |Missing(before, employees[..i + 1], date)| == |Missing(before, employees[..i], date)| + 1
  {
    var e := employees[i];
    assert employees[..i + 1] == employees[..i] + [e];
    assert e !in Missing(before, employees[..i], date);
    assert Missing(before, employees[..i + 1], date) == Missing(before, employees[..i], date) + {e};
  }

  /** The loop step for an employee without a record: the absent record it gets keeps the
      ledger filled from `before`. */
  lemma FillMissing(before: map<DayKey, Attendance>, during: map<DayKey, Attendance>,
                    employees: seq<int>, i: int, date: int)
    requires 0 <= i < |employees| && FilledFrom(before, during, employees[..i], date)
    requires DayKey(employees[i], date) !in during
    ensures FilledFrom(before, during[DayKey(employees[i], date) := AbsentRecord(employees[i], date)],
                       employees[..i + 1], date)
    ensures |Missing(before, employees[..i + 1], date)| == |Missing(before, employees[..i], date)| + 1
  {
    var e := employees[i];
    var k := DayKey(e, date);
    var after := during[k := AbsentRecord(e, date)];
    assert employees[..i + 1] == employees[..i] + [e];
    forall x | x in employees[..i + 1]
      ensures DayKey(x, date) in after
    {
    }
    forall x | x in after && x !in before
      ensures x.date == date && x.userId in employees[..i + 1] && after[x] == AbsentRecord(x.userId, date)
    {
    }
    MissingGrows(before, employees, i, date);
  }

  /** The loop step for an employee who already has a record: nothing changes. */
  lemma FillPresent(before: map<DayKey, Attendance>, during: map<DayKey, Attendance>,
                    employees: seq<int>, i: int, date: int)
    requires 0 <= i < |employees| && FilledFrom(before, during, employees[..i], date)
    requires DayKey(employees[i], date) in during
    ensures FilledFrom(before, during, employees[..i + 1], date)
    ensures Missing(before, employees[..i + 1], date) == Missing(before, employees[..i], date)
  {
    var e := employees[i];
    assert employees[..i + 1] == employees[..i] + [e];
    if DayKey(e, date) !in before {
      assert during[DayKey(e, date)].KeyOf().userId in employees[..i];
    }
  }

  /** handle(): one pass over the employee list. */
  method Handle(ledger: Ledger, employees: seq<int>, dateOption: Option<int>, now: int)
    returns (absentCount: nat)
    requires ledger.Valid()
    modifies ledger
    ensures ledger.Valid()
    ensures FilledFrom(old(ledger.records), ledger.records, employees, TargetDate(dateOption, now))
    ensures absentCount == |Missing(old(ledger.records), employees, TargetDate(dateOption, now))|
  {
    var targetDate := TargetDate(dateOption, now);
    ghost var before := ledger.records;
    absentCount := 0;
    var i := 0;
    while i < |employees|
      invariant 0 <= i <= |employees|
      invariant ledger.Valid()
      invariant FilledFrom(before, ledger.records, employees[..i], targetDate)
      invariant absentCount == |Missing(before, employees[..i], targetDate)|
    {
      var employee := employees[i];
      if DayKey(employee, targetDate) !in ledger.records {
        FillMissing(before, ledger.records, employees, i, targetDate);
        ledger.Save(AbsentRecord(employee, targetDate));
        absentCount := absentCount + 1;
      } else {
        FillPresent(before, ledger.records, employees, i, targetDate);
      }
      i := i + 1;
    }
    assert employees[..i] == employees;
  }

  /** A second run for the same date finds every employee recorded: it reports 0 and the
      table it leaves is the one it found. */
  lemma SecondRunChangesNothing(r0: map<DayKey, Attendance>, r1: map<DayKey, Attendance>,
                                r2: map<DayKey, Attendance>, employees: seq<int>, date: int)
    requires FilledFrom(r0, r1, employees, date) && FilledFrom(r1, r2, employees, date)
    ensures Missing(r1, employees, date) == {}
    ensures r2 == r1
  {
    forall k | k in r2
      ensures k in r1
    {
    }
  }

  /** The count is the number of distinct employees without a record, whatever repeats the
      list holds, and never more than the list is long. */
  lemma {:induction false} MissingBoundedByList(records: map<DayKey, Attendance>, employees: seq<int>, date: int)
    ensures |Missing(records, employees, date)| <= |employees|
  {
    if employees != [] {
      var rest := employees[..|employees| - 1];
      var last := employees[|employees| - 1];
      assert employees == rest + [last];
      MissingBoundedByList(records, rest, date);
      var grown := Missing(records, rest, date) + {last};
      assert Missing(records, employees, date) <= grown;
      SubsetSize(Missing(records, employees, date), grown);
    }
  }

  lemma SubsetSize(a: set<int>, b: set<int>)
    requires a <= b
    ensures |a| <= |b|
  {
    assert b == a + (b - a);
  }
}
