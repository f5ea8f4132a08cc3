/** The permit_letters table: letters employees upload to excuse an absence, reviewed by HR. */
module PermitLetterModel {
  import opened Basics

  /** The status enum of the table; new rows default to pending. */
  datatype LetterStatus = Pending | Approved | Rejected

  datatype PermitLetter = PermitLetter(
    id: int,
    userId: int,
    attendanceId: Option<int>,
    permitDate: int,
    reason: string,
    description: Option<string>,
    filePath: string,
    fileName: string,
    status: LetterStatus,
    approvedBy: Option<int>,
    approvedAt: Option<int>,
    rejectionReason: Option<string>)

  /** Every letter sits under its own id, and ids below `nextId` are the ones handed out. */
  ghost predicate WellKeyed(letters: map<int, PermitLetter>, nextId: int)
  {
    1 <= nextId && forall id :: id in letters ==> letters[id].id == id && 1 <= id < nextId
  }

  class LetterTable {
    var letters: map<int, PermitLetter>
    var nextId: int

    ghost predicate Valid()
      reads this
    {
      WellKeyed(letters, nextId)
    }

    constructor ()
      ensures Valid() && letters == map[] && nextId == 1
    {
      letters := map[];
      nextId := 1;
    }

    /** `create([...])` under the next auto-increment id. */
    method Create(l: PermitLetter) returns (stored: PermitLetter)
      requires Valid()
      modifies this
      ensures Valid()
      ensures stored == l.(id := old(nextId)) && old(nextId) !in old(letters)
      ensures letters == old(letters)[old(nextId) := stored] && nextId == old(nextId) + 1
    {
      stored := l.(id := nextId);
      letters := letters[nextId := stored];
      nextId := nextId + 1;
    }

    /** `$permitLetter->update([...])`. */
    method Update(l: PermitLetter)
      requires Valid() && l.id in letters
      modifies this
      ensures Valid()
      ensures letters == old(letters)[l.id := l] && nextId == old(nextId)
    {
      letters := letters[l.id := l];
    }

    /** `$permitLetter->delete()`. */
    method Delete(id: int)
      requires Valid()
      modifies this
      ensures Valid()
      ensures letters == old(letters) - {id} && nextId == old(nextId)
    {
      letters := letters - {id};
    }
  }
}
