/** The qr_sessions table and the QrSession model's validity helpers. */
module QrSessionModel {
  import opened Basics

  /** The type enum of the qr_sessions table. */
  datatype QrType = CheckIn | CheckOut

  datatype QrSession = QrSession(
    id: int,
    token: string,
    qrType: QrType,
    validFrom: int,
    validUntil: int,
    isActive: bool,
    createdBy: int,
    createdAt: int)

  function Min(a: int, b: int): int { if a <= b then a else b }
  function Max(a: int, b: int): int { if a <= b then b else a }

  /** QrSession::isValid: active and `now()->between(valid_from, valid_until)`. Carbon's
      `between` is inclusive and first puts its two bounds in order. */
  predicate IsValid(s: QrSession, now: int)
  {
    s.isActive && Min(s.validFrom, s.validUntil) <= now <= Max(s.validFrom, s.validUntil)
  }

  /** The row condition of QrSession::scopeActive. */
  predicate InActiveScope(s: QrSession, now: int)
  {
    s.isActive && s.validFrom <= now && s.validUntil >= now
  }

  /** For every well-ordered window, scopeActive selects a row exactly when isValid holds of it. */
  lemma ScopeAgreesWithIsValid(s: QrSession, now: int)
    requires s.validFrom <= s.validUntil
    ensures InActiveScope(s, now) <==> IsValid(s, now)
  {
  }

  /** A row with an inverted window is valid between its bounds but never in the scope. */
  lemma InvertedWindowSplitsScopeAndIsValid()
    ensures var s := QrSession(1, "t", CheckIn, 100, 50, true, 1, 0);
      IsValid(s, 70) && !InActiveScope(s, 70)
  {
  }

  lemma InactiveNeverValid(s: QrSession, now: int)
    requires !s.isActive
    ensures !IsValid(s, now) && !InActiveScope(s, now)
  {
  }

  /** An active, well-ordered session is valid exactly inside its window, both ends included. */
  lemma ValidExactlyInsideWindow(s: QrSession, now: int)
    requires s.isActive && s.validFrom <= s.validUntil
    ensures IsValid(s, now) <==> s.validFrom <= now <= s.validUntil
  {
  }

  /** `QrSession::active()->get()` over the rows of the table, in table order. */
  function ScopeActive(rows: seq<QrSession>, now: int): (r: seq<QrSession>)
    ensures |r| <= |rows|
    ensures forall s :: s in r <==> s in rows && InActiveScope(s, now)
  {
    if rows == [] then []
    else
      var rest := ScopeActive(rows[1..], now);
      assert forall s :: s in rows <==> s == rows[0] || s in rows[1..];
      if InActiveScope(rows[0], now) then [rows[0]] + rest else rest
  }

  /** The scope keeps every selected row as often as the table holds it. */
  lemma {:induction false} ScopeActiveMultiplicity(rows: seq<QrSession>, now: int, s: QrSession)
    ensures multiset(ScopeActive(rows, now))[s] == if InActiveScope(s, now) then multiset(rows)[s] else 0
  {
    if rows != [] {
      assert rows == [rows[0]] + rows[1..];
      ScopeActiveMultiplicity(rows[1..], now, s);
    }
  }

  /** Selecting from a row followed by more rows. */
  lemma ScopeActiveCons(x: QrSession, rest: seq<QrSession>, now: int)
    ensures ScopeActive([x] + rest, now) == (if InActiveScope(x, now) then [x] else []) + ScopeActive(rest, now)
  {
    assert ([x] + rest)[0] == x && ([x] + rest)[1..] == rest;
  }

  /** The scope keeps table order: selecting from two runs of rows in turn is selecting from
      the whole. */
  lemma {:induction false} ScopeActiveKeepsOrder(a: seq<QrSession>, b: seq<QrSession>, now: int)
    ensures ScopeActive(a + b, now) == ScopeActive(a, now) + ScopeActive(b, now)
  {
    if a == [] {
      assert a + b == b;
    } else {
      var x, t := a[0], a[1..];
      assert a == [x] + t && a + b == [x] + (t + b);
      var head := if InActiveScope(x, now) then [x] else [];
      calc {
        ScopeActive(a + b, now);
        { ScopeActiveCons(x, t + b, now); }
        head + ScopeActive(t + b, now);
        { ScopeActiveKeepsOrder(t, b, now); }
        head + (ScopeActive(t, now) + ScopeActive(b, now));
        (head + ScopeActive(t, now)) + ScopeActive(b, now);
        { ScopeActiveCons(x, t, now); }
        ScopeActive(a, now) + ScopeActive(b, now);
      }
    }
  }


  /** The auto-increment ids and the unique token index of the table. */
  ghost predicate WellFormed(rows: seq<QrSession>)
  {
    && (forall i :: 0 <= i < |rows| ==> rows[i].id == i + 1)
    && (forall i, j :: 0 <= i < j < |rows| ==> rows[i].token != rows[j].token)
  }

  /** Some row carries token `t`: `QrSession::where('token', $t)->exists()`. */
  predicate TokenTaken(rows: seq<QrSession>, t: string)
  {
    exists i :: 0 <= i < |rows| && rows[i].token == t
  }

  /** The row with id `id`, if any (`QrSession::find`). */
  function FindById(rows: seq<QrSession>, id: int): (r: Option<QrSession>)
    requires WellFormed(rows)
    ensures r.Some? <==> 1 <= id <= |rows|
    ensures r.Some? ==> r.value == rows[id - 1] && r.value.id == id
  {
    if 1 <= id <= |rows| then Some(rows[id - 1]) else None
  }

  /** The first row with token `t` that is active:
      `QrSession::where('token', $t)->where('is_active', true)->first()`. */
  function FirstActiveByToken(rows: seq<QrSession>, t: string): (r: Option<QrSession>)
    ensures r.Some? ==> r.value in rows && r.value.token == t && r.value.isActive
    ensures r.None? <==> forall i :: 0 <= i < |rows| ==> !(rows[i].token == t && rows[i].isActive)
  {
    if rows == [] then None
    else if rows[0].token == t && rows[0].isActive then Some(rows[0])
    else
      var rest := FirstActiveByToken(rows[1..], t);
      assert forall i :: 1 <= i < |rows| ==> rows[i] == rows[1..][i - 1];
      rest
  }

  /** With unique tokens, the first active row carrying a token is that token's row. */
  lemma FirstActiveUniqueToken(rows: seq<QrSession>, token: string, i: int)
    requires WellFormed(rows) && 0 <= i < |rows| && rows[i].token == token && rows[i].isActive
    ensures FirstActiveByToken(rows, token) == Some(rows[i])
  {
    var r := FirstActiveByToken(rows, token);
    assert r.Some?;
    var j :| 0 <= j < |rows| && rows[j] == r.value;
    assert j == i;
  }

  /** Every row with is_active set to false: the bulk
      `QrSession::where('is_active', true)->update(['is_active' => false])`. */
  function AllDeactivated(rows: seq<QrSession>): (r: seq<QrSession>)
    ensures |r| == |rows|
    ensures forall i :: 0 <= i < |rows| ==> r[i] == rows[i].(isActive := false)
  {
    seq(|rows|, i requires 0 <= i < |rows| => rows[i].(isActive := false))
  }

  /** The qr_sessions table. */
  class SessionTable {
    var rows: seq<QrSession>

    ghost predicate Valid()
      reads this
    {
      WellFormed(rows)
    }

    constructor ()
      ensures Valid() && rows == []
    {
      rows := [];
    }

    /** `QrSession::create([...])`: a new row under the next id. */
    method Create(token: string, qrType: QrType, validFrom: int, validUntil: int, isActive: bool,
                  createdBy: int, now: int) returns (s: QrSession)
      requires Valid() && !TokenTaken(rows, token)
      modifies this
      ensures Valid()
      ensures s == QrSession(|old(rows)| + 1, token, qrType, validFrom, validUntil, isActive, createdBy, now)
      ensures rows == old(rows) + [s]
    {
      s := QrSession(|rows| + 1, token, qrType, validFrom, validUntil, isActive, createdBy, now);
      rows := rows + [s];
    }

    /** `$session->update(['is_active' => false])` on the row with id `id`. */
    method Deactivate(id: int)
      requires Valid() && 1 <= id <= |rows|
      modifies this
      ensures Valid()
      ensures rows == old(rows)[id - 1 := old(rows)[id - 1].(isActive := false)]
    {
      rows := rows[id - 1 := rows[id - 1].(isActive := false)];
    }

    /** The bulk update that sets is_active to false on every active row. */
    method DeactivateAll()
      requires Valid()
      modifies this
      ensures Valid()
      ensures rows == AllDeactivated(old(rows))
    {
      rows := AllDeactivated(rows);
    }
  }
}
