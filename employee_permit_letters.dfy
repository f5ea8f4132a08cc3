/** An employee's side of permit letters: upload one, download a letter's file, withdraw a
    letter that is still pending. */
module EmployeePermitLetters {
  import opened Basics
  import opened Roles
  import opened PermitLetterModel

  const Reasons: seq<string> := ["sakit", "izin", "lainnya"]
  const Mimes: seq<string> := ["pdf", "jpg", "jpeg", "png"]
  const MaxDescriptionLength: nat := 500
  /** `max:2048` on a file compares its size in bytes divided by 1024, a fraction, with 2048. */
  const MaxFileKilobytes: nat := 2048
  const StoredMessage: string := "Surat izin berhasil diupload"
  const DestroyedMessage: string := "Surat izin berhasil dihapus"

  /** The uploaded file as the validator sees it: its client name, the extension its content
      is guessed to have, and its size in bytes. */
  datatype Upload = Upload(originalName: string, extension: string, bytes: nat)

  /** The form fields of store; None is a missing or null field, or a permit_date that does
      not parse as a date. */
  datatype Form = Form(permitDate: Option<int>, reason: Option<string>, description: Option<string>, file: Option<Upload>)

  /** What the controller answers; ServerError is an exception nothing catches. */
  datatype Reply = Success(message: string) | Invalid(fields: set<string>) | Forbidden | ServerError

  /** The relation methods the User model declares. Eloquent answers a call of any other
      undefined method on a model with BadMethodCallException. */
  const UserRelations: set<string> := {"roles", "department", "attendances", "createdQrSessions", "auditLogs"}

  /** The relation store creates the letter through. */
  const PermitLettersRelation: string := "permitLetters"

  /** The User model with the `hasMany(PermitLetter::class)` relation store relies on. */
  const IntendedRelations: set<string> := UserRelations + {PermitLettersRelation}

  /** The fields that fail store's validation rules. */
  function StoreErrors(f: Form): (errors: set<string>)
    ensures "permit_date" in errors <==> f.permitDate.None?
    ensures "reason" in errors <==> !(f.reason.Some? && f.reason.value in Reasons)
    ensures "description" in errors <==> f.description.Some? && |f.description.value| > MaxDescriptionLength
    ensures "file" in errors <==>
      !(f.file.Some? && f.file.value.extension in Mimes && f.file.value.bytes <= MaxFileKilobytes * 1024)
    ensures errors <= {"permit_date", "reason", "description", "file"}
  {
    (if f.permitDate.None? then {"permit_date"} else {})
    + (if f.reason.Some? && f.reason.value in Reasons then {} else {"reason"})
    + (if f.description.Some? && |f.description.value| > MaxDescriptionLength then {"description"} else {})
    + (if f.file.Some? && f.file.value.extension in Mimes && f.file.value.bytes <= MaxFileKilobytes * 1024
       then {} else {"file"})
  }

  /** The row store creates for a valid form: owned by the uploader, pending, not yet reviewed,
      with no description when none was given. */
  function NewLetter(userId: int, f: Form, storedPath: string): (l: PermitLetter)
    requires StoreErrors(f) == {}
    ensures l.userId == userId && l.status == Pending && l.attendanceId.None?
    ensures l.permitDate == f.permitDate.value && l.reason == f.reason.value && l.description == f.description
    ensures l.filePath == storedPath && l.fileName == f.file.value.originalName
    ensures l.approvedBy.None? && l.approvedAt.None? && l.rejectionReason.None?
  {
    PermitLetter(0, userId, None, f.permitDate.value, f.reason.value, f.description, storedPath,
                 f.file.value.originalName, Pending, None, None, None)
  }

  /** A file one byte over 2048 KB is refused; one of exactly 2048 KB is not. */
  lemma FileSizeBoundary(f: Form)
    requires f.file.Some? && f.file.value.extension == "pdf"
    ensures f.file.value.bytes == 2097153 ==> "file" in StoreErrors(f)
    ensures f.file.value.bytes == 2097152 ==> "file" !in StoreErrors(f)
  {
    assert Mimes[0] == "pdf";
  }

  /** A reason outside the three allowed values is refused whatever else the form holds. */
  lemma UnknownReasonRefused(f: Form)
    requires f.reason == Some("cuti")
    ensures "reason" in StoreErrors(f)
  {
    assert f.reason.value != Reasons[0] && f.reason.value != Reasons[1] && f.reason.value != Reasons[2];
  }

  /** What store answers when the User model declares `relations`: an invalid form fails
      validation; a valid one has its file written and then goes through
      `permitLetters()`, which succeeds only if the relation is declared. */
  function StoreReply(relations: set<string>, f: Form): (reply: Reply)
    ensures reply.Invalid? <==> StoreErrors(f) != {}
    ensures reply.Invalid? ==> reply.fields == StoreErrors(f)
    ensures reply == Success(StoredMessage) <==> StoreErrors(f) == {} && PermitLettersRelation in relations
    ensures reply == ServerError <==> StoreErrors(f) == {} && PermitLettersRelation !in relations
  {
    if StoreErrors(f) != {} then Invalid(StoreErrors(f))
    else if PermitLettersRelation in relations then Success(StoredMessage)
    else ServerError
  }

  /** As written, the User model has no `permitLetters` relation, so every valid upload ends
      in an exception after its file was written, and no letter is ever stored. */
  lemma ValidUploadNeverStored(f: Form)
    requires StoreErrors(f) == {}
    ensures StoreReply(UserRelations, f) == ServerError
  {
    assert PermitLettersRelation !in UserRelations by {
      assert PermitLettersRelation[0] == 'p';
      assert forall r :: r in UserRelations ==> r[0] != 'p';
    }
  }

  /** With the relation declared, every valid upload is stored. */
  lemma ValidUploadStoredWithRelation(f: Form)
    requires StoreErrors(f) == {}
    ensures StoreReply(IntendedRelations, f) == Success(StoredMessage)
  {
  }

  /** store as intended, with the `permitLetters` relation declared: validate, then create the
      letter; `storedPath` is where the file was written. */
  method Store(table: LetterTable, user: User, f: Form, storedPath: string) returns (reply: Reply)
    requires table.Valid()
    modifies table
    ensures table.Valid()
    ensures reply == StoreReply(IntendedRelations, f)
    ensures StoreErrors(f) != {} ==>
      reply == Invalid(StoreErrors(f)) && table.letters == old(table.letters) && table.nextId == old(table.nextId)
    ensures StoreErrors(f) == {} ==>
      && reply == Success(StoredMessage)
      && old(table.nextId) !in old(table.letters)
      && table.letters == old(table.letters)[old(table.nextId) := NewLetter(user.id, f, storedPath).(id := old(table.nextId))]
  {
    var errors := StoreErrors(f);
    if errors != {} {
      return Invalid(errors);
    }
    var letter := PermitLetter(0, user.id, None, f.permitDate.value, f.reason.value, f.description, storedPath,
                               f.file.value.originalName, Pending, None, None, None);
    var _ := table.Create(letter);
    reply := Success(StoredMessage);
  }

  /** download's guard: the owner, or anyone holding the admin or hr role. */
  predicate CanDownload(requester: User, l: PermitLetter)
  {
    l.userId == requester.id || HasAnyRole(requester, [AdminRole, HrRole])
  }

  /** Download is allowed exactly to the owner, an admin and an HR user. */
  lemma CanDownloadExactly(requester: User, l: PermitLetter)
    ensures CanDownload(requester, l) <==> l.userId == requester.id || IsAdmin(requester) || IsHr(requester)
  {
    HasAnyRoleMeansSomeListedRoleHeld(requester, [AdminRole, HrRole]);
  }

  /** destroy's guard: the owner, and only while the letter is pending. */
  predicate CanDestroy(requester: User, l: PermitLetter)
  {
    l.userId == requester.id && l.status == Pending
  }

  /** No one can withdraw a letter HR has decided, not even its owner; holding a role never
      helps. */
  lemma DecidedLetterCannotBeWithdrawn(requester: User, l: PermitLetter)
    requires l.status != Pending
    ensures !CanDestroy(requester, l)
    ensures forall r :: !CanDestroy(requester.(roles := r), l)
  {
  }

  /** destroy on the row bound to the route. */
  method Destroy(table: LetterTable, requester: User, id: int) returns (reply: Reply)
    requires table.Valid() && id in table.letters
    modifies table
    ensures table.Valid()
    ensures CanDestroy(requester, old(table.letters)[id]) ==>
      reply == Success(DestroyedMessage) && table.letters == old(table.letters) - {id}
    ensures !CanDestroy(requester, old(table.letters)[id]) ==>
      reply == Forbidden && table.letters == old(table.letters)
  {
    var letter := table.letters[id];
    if letter.userId != requester.id || letter.status != Pending {
      return Forbidden;
    }
    table.Delete(id);
    reply := Success(DestroyedMessage);
  }
}
