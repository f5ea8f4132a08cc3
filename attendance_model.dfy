/** The attendances table and the Attendance model's helpers. The table's schema gives the
    status enum, the column defaults and the unique (user_id, date) key. */
module AttendanceModel {
  import opened Basics

  /** The status enum of the attendances table: present, late, permission, sick, absent. */
  datatype Status = Hadir | Telat | Izin | Sakit | Alpha

  /** The literal stored in the status column. */
  function StatusName(s: Status): string
  {
    match s
    case Hadir => "hadir"
    case Telat => "telat"
    case Izin => "izin"
    case Sakit => "sakit"
    case Alpha => "alpha"
  }

  /** Distinct statuses are stored as distinct literals. */
  lemma StatusNameInjective(s: Status, t: Status)
    ensures StatusName(s) == StatusName(t) ==> s == t
  {
  }

  /** The unique key of a row. */
  datatype DayKey = DayKey(userId: int, date: int)

  datatype Attendance = Attendance(
    userId: int,
    qrSessionId: Option<int>,
    date: int,
    checkIn: Option<int>,
    hasCheckedIn: bool,
    checkOut: Option<int>,
    hasCheckedOut: bool,
    status: Status,
    notes: Option<string>,
    editedBy: Option<int>,
    editedAt: Option<int>)
  {
    function KeyOf(): DayKey { DayKey(userId, date) }
  }

  /** The row `firstOrNew` yields for a key with no record, as saved with the column defaults
      (status 'hadir', both check flags false, every nullable column null). */
  function NewRecord(k: DayKey): (a: Attendance)
    ensures a.KeyOf() == k && a.status == Hadir
    ensures a.checkIn.None? && a.checkOut.None? && !a.hasCheckedIn && !a.hasCheckedOut
    ensures a.qrSessionId.None? && a.notes.None? && a.editedBy.None? && a.editedAt.None?
  {
    Attendance(k.userId, None, k.date, None, false, None, false, Hadir, None, None, None)
  }

  /** Attendance::isLate: the status column holds 'telat'. */
  predicate IsLate(a: Attendance)
  {
    StatusName(a.status) == "telat"
  }

  /** Attendance::isPresent: the status column holds 'hadir' or 'telat'. */
  predicate IsPresent(a: Attendance)
  {
    StatusName(a.status) in ["hadir", "telat"]
  }

  lemma IsLateExactlyTelat(a: Attendance)
    ensures IsLate(a) <==> a.status == Telat
  {
  }

  lemma IsPresentExactlyHadirOrTelat(a: Attendance)
    ensures IsPresent(a) <==> a.status == Hadir || a.status == Telat
  {
    assert StatusName(Izin) != "hadir" && StatusName(Izin) != "telat";
  }

  lemma LateImpliesPresent(a: Attendance)
    ensures IsLate(a) ==> IsPresent(a)
  {
  }

  lemma ExcusedOrAbsentIsNeitherLateNorPresent(a: Attendance)
    requires a.status in {Izin, Sakit, Alpha}
    ensures !IsLate(a) && !IsPresent(a)
  {
    IsPresentExactlyHadirOrTelat(a);
  }

  /** Every stored row sits under its own (user_id, date) key: the unique index. */
  ghost predicate KeysAgree(records: map<DayKey, Attendance>)
  {
    forall k :: k in records ==> records[k].KeyOf() == k
  }

  /** The keys among `keys` whose record has status `st`. */
  function WithStatus(records: map<DayKey, Attendance>, keys: set<DayKey>, st: Status): set<DayKey>
  {
    set k | k in keys && k in records && records[k].status == st
  }

  function CountStatus(records: map<DayKey, Attendance>, keys: set<DayKey>, st: Status): nat
  {
    |WithStatus(records, keys, st)|
  }

  /** The sizes of disjoint sets add up to the size of their union. */
  lemma DisjointCount(a: set<DayKey>, b: set<DayKey>)
    requires a !! b
    ensures |a + b| == |a| + |b|
  {
  }

  /** Records of two different statuses are different records. */
  lemma WithStatusDisjoint(records: map<DayKey, Attendance>, keys: set<DayKey>, x: Status, y: Status)
    requires x != y
    ensures WithStatus(records, keys, x) !! WithStatus(records, keys, y)
  {
  }

  /** The five status counts partition the selected records. */
  lemma StatusCountsPartition(records: map<DayKey, Attendance>, keys: set<DayKey>)
    requires keys <= records.Keys
    ensures CountStatus(records, keys, Hadir) + CountStatus(records, keys, Telat) + CountStatus(records, keys, Izin)
            + CountStatus(records, keys, Sakit) + CountStatus(records, keys, Alpha) == |keys|
  {
    var h := WithStatus(records, keys, Hadir);
    var t := WithStatus(records, keys, Telat);
    var i := WithStatus(records, keys, Izin);
    var s := WithStatus(records, keys, Sakit);
    var a := WithStatus(records, keys, Alpha);
    WithStatusDisjoint(records, keys, Hadir, Telat);
    WithStatusDisjoint(records, keys, Hadir, Izin);
    WithStatusDisjoint(records, keys, Telat, Izin);
    WithStatusDisjoint(records, keys, Hadir, Sakit);
    WithStatusDisjoint(records, keys, Telat, Sakit);
    WithStatusDisjoint(records, keys, Izin, Sakit);
    WithStatusDisjoint(records, keys, Hadir, Alpha);
    WithStatusDisjoint(records, keys, Telat, Alpha);
    WithStatusDisjoint(records, keys, Izin, Alpha);
    WithStatusDisjoint(records, keys, Sakit, Alpha);
    var ht := h + t;
    DisjointCount(h, t);
    var hti := ht + i;
    DisjointCount(ht, i);
    var htis := hti + s;
    DisjointCount(hti, s);
    DisjointCount(htis, a);
    forall k | k in keys
      ensures k in htis + a
    {
      assert k in records;
    }
    assert htis + a == keys;
  }

  /** The attendances table. Keying the map by (user_id, date) is the unique index. */
  class Ledger {
    var records: map<DayKey, Attendance>

    ghost predicate Valid()
      reads this
    {
      KeysAgree(records)
    }

    constructor ()
      ensures Valid() && records == map[]
    {
      records := map[];
    }

    /** `firstOrNew([...])`: the stored row for the key, or a new unsaved one. */
    function FirstOrNew(k: DayKey): (a: Attendance)
      reads this
      requires Valid()
      ensures a.KeyOf() == k
      ensures k in records ==> a == records[k]
      ensures k !in records ==> a == NewRecord(k)
    {
      if k in records then records[k] else NewRecord(k)
    }

    /** `$attendance->save()`: insert or update the row under its own key. */
    method Save(a: Attendance)
      requires Valid()
      modifies this
      ensures Valid()
      ensures records == old(records)[a.KeyOf() := a]
    {
      records := records[a.KeyOf() := a];
    }
  }
}
