/** HR's review of permit letters: approve or reject a pending letter. A letter that has
    been approved or rejected is never changed again. */
module HrPermitLetters {
  import opened Basics
  import opened Roles
  import opened PermitLetterModel

  const AlreadyProcessedMessage: string := "Surat izin sudah diproses"
  const ApprovedMessage: string := "Surat izin disetujui"
  const RejectedMessage: string := "Surat izin ditolak"
  const MaxReasonLength: nat := 500

  /** What the controller answers: a flash message, or the validation error on a field. */
  datatype Reply = Success(message: string) | Failure(message: string) | Invalid(field: string)

  /** The outcome of a review on one letter. */
  datatype Decision = Decided(letter: PermitLetter) | AlreadyProcessed | InvalidReason

  /** The characters PHP's trim strips. */
  predicate Trimmed(c: char)
  {
    c == ' ' || c == '\t' || c == '\n' || c == '\r' || c as int == 0 || c as int == 11
  }

  /** Laravel's `required` on a string: present and not blank once trimmed. */
  predicate Present(s: Option<string>)
  {
    s.Some? && exists i :: 0 <= i < |s.value| && !Trimmed(s.value[i])
  }

  /** The characters the TrimStrings middleware strips from both ends of every input string:
      those `\s` matches in a Unicode pattern, the zero-width no-break space, the zero-width
      space and the left-to-right mark. */
  predicate Blank(c: char)
  {
    var n := c as int;
    || 9 <= n <= 13 || n == 32 || n == 0x85 || n == 0xA0 || n == 0x1680 || n == 0x180E
    || 0x2000 <= n <= 0x200B || n == 0x200E || n == 0x2028 || n == 0x2029 || n == 0x202F
    || n == 0x205F || n == 0x3000 || n == 0xFEFF
  }

  /** `s` without its trailing blanks. */
  function TrimEnd(s: string): (t: string)
    ensures |t| <= |s| && t == s[..|t|]
    ensures t == [] || !Blank(t[|t| - 1])
    ensures forall k :: |t| <= k < |s| ==> Blank(s[k])
  {
    if s != [] && Blank(s[|s| - 1]) then TrimEnd(s[..|s| - 1]) else s
  }

  /** The number of blanks `s` starts with. */
  function LeadingBlanks(s: string): (n: nat)
    ensures n <= |s| && (n == |s| || !Blank(s[n]))
    ensures forall k :: 0 <= k < n ==> Blank(s[k])
  {
    if s != [] && Blank(s[0]) then 1 + LeadingBlanks(s[1..]) else 0
  }

  /** TrimStrings on one value: the part of `s` between its leading and its trailing blanks. */
  function Trim(s: string): (t: string)
    ensures var i := LeadingBlanks(s);
      && i + |t| <= |s| && t == s[i..i + |t|]
      && forall k :: i + |t| <= k < |s| ==> Blank(s[k])
    ensures t == [] || (!Blank(t[0]) && !Blank(t[|t| - 1]))
  {
    TrimEnd(s[LeadingBlanks(s)..])
  }

  /** The request value after TrimStrings and then ConvertEmptyStringsToNull: a value of
      blanks only becomes null. */
  function Normalised(input: Option<string>): (r: Option<string>)
    ensures r.None? <==> input.None? || forall k :: 0 <= k < |input.value| ==> Blank(input.value[k])
    ensures r.Some? ==> r.value == Trim(input.value) && r.value != []
  {
    match input
    case None => None
    case Some(s) =>
      var t := Trim(s);
      if t == [] then None
      else
        assert !Blank(t[0]);
        Some(t)
  }

  /** `rejection_reason => required|string|max:500`, checked on the value the middleware
      hands on. */
  predicate ValidRejectionReason(reason: Option<string>)
  {
    Present(Normalised(reason)) && |Normalised(reason).value| <= MaxReasonLength
  }

  /** approve: only a pending letter is approved; it records who approved it and when. */
  function Approve(l: PermitLetter, hrId: int, now: int): (d: Decision)
    ensures d == AlreadyProcessed <==> l.status != Pending
    ensures !d.InvalidReason?
    ensures d.Decided? ==>
      && d.letter.status == Approved && d.letter.approvedBy == Some(hrId) && d.letter.approvedAt == Some(now)
      && d.letter.(status := l.status, approvedBy := l.approvedBy, approvedAt := l.approvedAt) == l
  {
    if l.status != Pending then AlreadyProcessed
    else Decided(l.(status := Approved, approvedBy := Some(hrId), approvedAt := Some(now)))
  }

  /** reject: the status is checked before the reason is validated; a rejection records who
      rejected it, when, and why. */
  function Reject(l: PermitLetter, hrId: int, reason: Option<string>, now: int): (d: Decision)
    ensures d == AlreadyProcessed <==> l.status != Pending
    ensures d == InvalidReason <==> l.status == Pending && !ValidRejectionReason(reason)
    ensures d.Decided? ==>
      && d.letter.status == Rejected && d.letter.approvedBy == Some(hrId) && d.letter.approvedAt == Some(now)
      && d.letter.rejectionReason == Normalised(reason) && reason.Some?
      && 0 < |d.letter.rejectionReason.value| <= MaxReasonLength
      && d.letter.(status := l.status, approvedBy := l.approvedBy, approvedAt := l.approvedAt,
                   rejectionReason := l.rejectionReason) == l
  {
    if l.status != Pending then AlreadyProcessed
    else if !ValidRejectionReason(reason) then InvalidReason
    else Decided(l.(status := Rejected, approvedBy := Some(hrId), approvedAt := Some(now),
                    rejectionReason := Normalised(reason)))
  }

  /** Approved and rejected are terminal: after any decision, every later approve or reject
      answers that the letter was already processed. */
  lemma DecisionsAreFinal(l: PermitLetter, d: Decision, hrId: int, now: int,
                           laterHrId: int, laterReason: Option<string>, later: int)
    requires d == Approve(l, hrId, now) || exists r: Option<string> :: d == Reject(l, hrId, r, now)
    requires d.Decided?
    ensures Approve(d.letter, laterHrId, later) == AlreadyProcessed
    ensures Reject(d.letter, laterHrId, laterReason, later) == AlreadyProcessed
  {
  }

  /** A reason of blanks only is refused, as a missing one is. */
  lemma BlankReasonRefused(l: PermitLetter, hrId: int, now: int)
    requires l.status == Pending
    ensures Reject(l, hrId, Some("  \t "), now) == InvalidReason
    ensures Reject(l, hrId, None, now) == InvalidReason
  {
  }

  /** Trailing blanks never change what trimming keeps. */
  lemma {:induction false} TrimEndIgnoresTrailingBlanks(s: string, b: string)
    requires forall k :: 0 <= k < |b| ==> Blank(b[k])
    ensures TrimEnd(s + b) == TrimEnd(s)
  {
    if b != [] {
      var b' := b[..|b| - 1];
      assert (s + b)[|s + b| - 1] == b[|b| - 1];
      assert Blank((s + b)[|s + b| - 1]);
      assert (s + b)[..|s + b| - 1] == s + b';
      assert TrimEnd(s + b) == TrimEnd(s + b');
      TrimEndIgnoresTrailingBlanks(s, b');
    } else {
      assert s + b == s;
    }
  }

  /** Blanks in front of a value that starts with a non-blank are exactly its leading blanks. */
  lemma {:induction false} LeadingBlanksOfPadded(pre: string, s: string)
    requires forall k :: 0 <= k < |pre| ==> Blank(pre[k])
    requires s != [] && !Blank(s[0])
    ensures LeadingBlanks(pre + s) == |pre|
  {
    if pre == [] {
      assert pre + s == s;
    } else {
      assert (pre + s)[0] == pre[0];
      assert (pre + s)[1..] == pre[1..] + s;
      LeadingBlanksOfPadded(pre[1..], s);
    }
  }

  /** A value padded with blanks on either side reaches the rule as the value alone. */
  lemma TrimIgnoresPadding(pre: string, s: string, post: string)
    requires forall k :: 0 <= k < |pre| ==> Blank(pre[k])
    requires forall k :: 0 <= k < |post| ==> Blank(post[k])
    requires s != [] && !Blank(s[0]) && !Blank(s[|s| - 1])
    ensures Normalised(Some(pre + s + post)) == Some(s)
  {
    var w := pre + s + post;
    assert w == pre + (s + post);
    assert (s + post)[0] == s[0];
    LeadingBlanksOfPadded(pre, s + post);
    assert w[|pre|..] == s + post;
    TrimEndIgnoresTrailingBlanks(s, post);
    assert TrimEnd(s) == s;
  }

  /** A reason of at most 500 characters padded with any number of blanks is accepted,
      however long the padding, and stored without it. */
  lemma PaddedReasonStoredTrimmed(l: PermitLetter, hrId: int, now: int, pre: string, s: string, post: string)
    requires l.status == Pending
    requires forall k :: 0 <= k < |pre| ==> Blank(pre[k])
    requires forall k :: 0 <= k < |post| ==> Blank(post[k])
    requires s != [] && !Blank(s[0]) && !Blank(s[|s| - 1]) && !Trimmed(s[0]) && |s| <= MaxReasonLength
    ensures Reject(l, hrId, Some(pre + s + post), now)
            == Decided(l.(status := Rejected, approvedBy := Some(hrId), approvedAt := Some(now),
                          rejectionReason := Some(s)))
  {
    TrimIgnoresPadding(pre, s, post);
    assert Present(Some(s));
  }

  function ReplyTo(d: Decision, successMessage: string): Reply
  {
    match d
    case Decided(_) => Success(successMessage)
    case AlreadyProcessed => Failure(AlreadyProcessedMessage)
    case InvalidReason => Invalid("rejection_reason")
  }

  /** approve on the table row bound to the route. */
  method ApproveLetter(table: LetterTable, hr: User, id: int, now: int) returns (reply: Reply)
    requires table.Valid() && id in table.letters
    modifies table
    ensures table.Valid()
    ensures var d := Approve(old(table.letters)[id], hr.id, now);
      && reply == ReplyTo(d, ApprovedMessage)
      && table.letters == (if d.Decided? then old(table.letters)[id := d.letter] else old(table.letters))
  {
    var letter := table.letters[id];
    if letter.status != Pending {
      return Failure(AlreadyProcessedMessage);
    }
    table.Update(letter.(status := Approved, approvedBy := Some(hr.id), approvedAt := Some(now)));
    reply := Success(ApprovedMessage);
  }

  /** reject on the table row bound to the route. */
  method RejectLetter(table: LetterTable, hr: User, id: int, reason: Option<string>, now: int) returns (reply: Reply)
    requires table.Valid() && id in table.letters
    modifies table
    ensures table.Valid()
    ensures var d := Reject(old(table.letters)[id], hr.id, reason, now);
      && reply == ReplyTo(d, RejectedMessage)
      && table.letters == (if d.Decided? then old(table.letters)[id := d.letter] else old(table.letters))
  {
    var letter := table.letters[id];
    if letter.status != Pending {
      return Failure(AlreadyProcessedMessage);
    }
    if !ValidRejectionReason(reason) {
      return Invalid("rejection_reason");
    }
    table.Update(letter.(status := Rejected, approvedBy := Some(hr.id), approvedAt := Some(now),
                         rejectionReason := Normalised(reason)));
    reply := Success(RejectedMessage);
  }
}
