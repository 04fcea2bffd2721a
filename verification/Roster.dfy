/** Roster import (core/services/roster.py): a file is validated row by row, and then either previewed
    against the stored roster or applied to it entry by entry, all or nothing. Identifiers and
    addresses are taken as the import normalises them; whether an address is valid and which category
    an instrument belongs to are parameters. */
module Roster {
  import opened Tables

  datatype Year = NoYear | YearNumber(year: int) | NotANumber

  datatype RawRow = RawRow(
    idGiven: bool, emailGiven: bool, id: string, email: string, year: Year,
    nameTh: string, nameEn: string, program: string, instrument: string)

  datatype Entry = Entry(
    id: string, email: string, year: Option<int>,
    nameTh: string, nameEn: string, program: string, instrument: string, category: string)

  datatype Student = Student(
    id: string, email: string, year: Option<int>,
    nameTh: string, nameEn: string, program: string, instrument: string, category: string,
    active: bool, batch: string)

  datatype Problem =
    | MissingField | BadEmail | DuplicateId | DuplicateEmail | BadYear
    | IdHasOtherEmail | EmailHasOtherId

  datatype LineError = LineError(line: nat, problem: Problem)

  // ---------------------------------------------------------------- validation

  predicate YearOk(y: Year) {
    y.NoYear? || (y.YearNumber? && 1 <= y.year <= 12)
  }

  /** The row is one whose identifier and address later rows may not repeat. */
  predicate Registers(rows: seq<RawRow>, i: nat, valid: string -> bool)
    requires i < |rows|
    decreases i, 2
  {
    RowProblem(rows, i, valid).None? || RowProblem(rows, i, valid) == Some(BadYear)
  }

  predicate IdSeen(rows: seq<RawRow>, n: nat, valid: string -> bool, id: string)
    requires n <= |rows|
    decreases n, 0
  {
    exists j: nat :: j < n && Registers(rows, j, valid) && rows[j].id == id
  }

  predicate EmailSeen(rows: seq<RawRow>, n: nat, valid: string -> bool, email: string)
    requires n <= |rows|
    decreases n, 0
  {
    exists j: nat :: j < n && Registers(rows, j, valid) && rows[j].email == email
  }

  /** What is wrong with a row, given the rows before it. */
  function RowProblem(rows: seq<RawRow>, i: nat, valid: string -> bool): Option<Problem>
    requires i < |rows|
    decreases i, 1
  {
    if !rows[i].idGiven || !rows[i].emailGiven then Some(MissingField)
    else if !valid(rows[i].email) then Some(BadEmail)
    else if IdSeen(rows, i, valid, rows[i].id) then Some(DuplicateId)
    else if EmailSeen(rows, i, valid, rows[i].email) then Some(DuplicateEmail)
    else if !YearOk(rows[i].year) then Some(BadYear)
    else None
  }

  lemma SeenGrows(rows: seq<RawRow>, i: nat, valid: string -> bool, id: string, email: string)
    requires i < |rows|
    ensures IdSeen(rows, i + 1, valid, id) <==> IdSeen(rows, i, valid, id) || (Registers(rows, i, valid) && rows[i].id == id)
    ensures EmailSeen(rows, i + 1, valid, email) <==>
      EmailSeen(rows, i, valid, email) || (Registers(rows, i, valid) && rows[i].email == email)
  {
  }

  function EntryOf(r: RawRow, categorise: string -> string): Entry {
    Entry(r.id, r.email, if r.year.YearNumber? then Some(r.year.year) else None, r.nameTh, r.nameEn, r.program,
          r.instrument, categorise(r.instrument))
  }

  function Entries(rows: seq<RawRow>, n: nat, valid: string -> bool, categorise: string -> string): seq<Entry>
    requires n <= |rows|
  {
    if n == 0 then []
    else Entries(rows, n - 1, valid, categorise) +
         if RowProblem(rows, n - 1, valid).None? then [EntryOf(rows[n - 1], categorise)] else []
  }

  function Problems(rows: seq<RawRow>, n: nat, valid: string -> bool): seq<LineError>
    requires n <= |rows|
  {
    if n == 0 then []
    else
      var p := RowProblem(rows, n - 1, valid);
      Problems(rows, n - 1, valid) + if p.Some? then [LineError(n + 1, p.value)] else []
  }

  /** Line 1 is the header. */
  method Validate(rows: seq<RawRow>, valid: string -> bool, categorise: string -> string)
    returns (cleaned: seq<Entry>, errors: seq<LineError>)
    ensures errors == [] <==> FileOk(rows, valid)
    ensures |cleaned| + |errors| == |rows|
    ensures cleaned == Entries(rows, |rows|, valid, categorise)
    ensures errors == Problems(rows, |rows|, valid)
  {
    cleaned, errors := [], [];
    var seenIds: set<string>, seenEmails: set<string> := {}, {};
    for i := 0 to |rows|
      invariant cleaned == Entries(rows, i, valid, categorise) && errors == Problems(rows, i, valid)
      invariant |cleaned| + |errors| == i
      invariant forall x :: x in seenIds <==> IdSeen(rows, i, valid, x)
      invariant forall x :: x in seenEmails <==> EmailSeen(rows, i, valid, x)
    {
      var row := rows[i];
      forall x
        ensures IdSeen(rows, i + 1, valid, x) <==> IdSeen(rows, i, valid, x) || (Registers(rows, i, valid) && row.id == x)
        ensures EmailSeen(rows, i + 1, valid, x) <==>
          EmailSeen(rows, i, valid, x) || (Registers(rows, i, valid) && row.email == x)
      {
        SeenGrows(rows, i, valid, x, x);
      }
      if !row.idGiven || !row.emailGiven {
        errors := errors + [LineError(i + 2, MissingField)];
      } else if !valid(row.email) {
        errors := errors + [LineError(i + 2, BadEmail)];
      } else if row.id in seenIds {
        errors := errors + [LineError(i + 2, DuplicateId)];
      } else if row.email in seenEmails {
        errors := errors + [LineError(i + 2, DuplicateEmail)];
      } else {
        seenIds, seenEmails := seenIds + {row.id}, seenEmails + {row.email};
        if !YearOk(row.year) {
          errors := errors + [LineError(i + 2, BadYear)];
        } else {
          cleaned := cleaned + [EntryOf(row, categorise)];
        }
      }
    }
    ValidationIsExact(rows, valid, categorise);
  }

  /** Every row stands on its own and no two share an identifier or an address. */
  predicate FileOk(rows: seq<RawRow>, valid: string -> bool) {
    && (forall i :: 0 <= i < |rows| ==>
          rows[i].idGiven && rows[i].emailGiven && valid(rows[i].email) && YearOk(rows[i].year))
    && (forall i, j :: 0 <= i < j < |rows| ==> rows[i].id != rows[j].id && rows[i].email != rows[j].email)
  }

  ghost predicate EachOk(rows: seq<RawRow>, n: nat, valid: string -> bool)
    requires n <= |rows|
  {
    forall i: nat :: i < n ==> RowProblem(rows, i, valid).None?
  }

  lemma {:induction false} NoProblemsMeansEach(rows: seq<RawRow>, n: nat, valid: string -> bool,
                                               categorise: string -> string)
    requires n <= |rows|
    ensures Problems(rows, n, valid) == [] <==> EachOk(rows, n, valid)
    ensures EachOk(rows, n, valid) ==>
      && |Entries(rows, n, valid, categorise)| == n
      && forall i: nat :: i < n ==> Entries(rows, n, valid, categorise)[i] == EntryOf(rows[i], categorise)
  {
    if n > 0 {
      NoProblemsMeansEach(rows, n - 1, valid, categorise);
      var p := RowProblem(rows, n - 1, valid);
      assert Problems(rows, n, valid) == Problems(rows, n - 1, valid) + if p.Some? then [LineError(n + 1, p.value)] else [];
      assert EachOk(rows, n, valid) <==> EachOk(rows, n - 1, valid) && p.None?;
    }
  }

  lemma FileHasNoProblem(rows: seq<RawRow>, i: nat, valid: string -> bool)
    requires FileOk(rows, valid) && i < |rows|
    ensures RowProblem(rows, i, valid).None?
  {
  }

  lemma EachOkMeansFile(rows: seq<RawRow>, valid: string -> bool)
    ensures FileOk(rows, valid) <==> EachOk(rows, |rows|, valid)
  {
    if FileOk(rows, valid) {
      forall i: nat | i < |rows|
        ensures RowProblem(rows, i, valid).None?
      {
        FileHasNoProblem(rows, i, valid);
      }
    }
    if EachOk(rows, |rows|, valid) {
      forall i, j | 0 <= i < j < |rows|
        ensures rows[i].id != rows[j].id && rows[i].email != rows[j].email
      {
        assert RowProblem(rows, i, valid).None? && RowProblem(rows, j, valid).None?;
        assert Registers(rows, i, valid);
      }
      forall i | 0 <= i < |rows|
        ensures rows[i].idGiven && rows[i].emailGiven && valid(rows[i].email) && YearOk(rows[i].year)
      {
        assert RowProblem(rows, i, valid).None?;
      }
    }
  }

  ghost predicate Distinct(entries: seq<Entry>) {
    forall i, j :: 0 <= i < j < |entries| ==> entries[i].id != entries[j].id && entries[i].email != entries[j].email
  }

  /** A file validates exactly when it is well formed, and then every row becomes an entry and no two
      entries share an identifier or an address. */
  lemma ValidationIsExact(rows: seq<RawRow>, valid: string -> bool, categorise: string -> string)
    ensures Problems(rows, |rows|, valid) == [] <==> FileOk(rows, valid)
    ensures FileOk(rows, valid) ==>
      && |Entries(rows, |rows|, valid, categorise)| == |rows|
      && Distinct(Entries(rows, |rows|, valid, categorise))
  {
    NoProblemsMeansEach(rows, |rows|, valid, categorise);
    EachOkMeansFile(rows, valid);
  }

  // ---------------------------------------------------------------- the stored roster

  ghost predicate Unique(t: seq<Student>) {
    forall i, j :: 0 <= i < j < |t| ==> t[i].id != t[j].id && t[i].email != t[j].email
  }

  function ById(t: seq<Student>, id: string): (r: Option<nat>)
    ensures r.Some? ==> r.value < |t| && t[r.value].id == id
    ensures r.None? ==> forall i :: 0 <= i < |t| ==> t[i].id != id
  {
    if t == [] then None
    else
      var r := ById(t[..|t| - 1], id);
      if r.None? && t[|t| - 1].id == id then Some(|t| - 1) else r
  }

  function ByEmail(t: seq<Student>, email: string): (r: Option<nat>)
    ensures r.Some? ==> r.value < |t| && t[r.value].email == email
    ensures r.None? ==> forall i :: 0 <= i < |t| ==> t[i].email != email
  {
    if t == [] then None
    else
      var r := ByEmail(t[..|t| - 1], email);
      if r.None? && t[|t| - 1].email == email then Some(|t| - 1) else r
  }

  function Conflict(t: seq<Student>, e: Entry, allow: bool): Option<Problem> {
    var byId, byEmail := ById(t, e.id), ByEmail(t, e.email);
    if byId.Some? && t[byId.value].email != e.email && !allow then Some(IdHasOtherEmail)
    else if byEmail.Some? && t[byEmail.value].id != e.id then Some(EmailHasOtherId)
    else None
  }

  /** The entry's identifier is new, or stored with the same address, or may change its address. */
  ghost predicate IdAgrees(t: seq<Student>, e: Entry, allow: bool) {
    allow || forall i :: 0 <= i < |t| && t[i].id == e.id ==> t[i].email == e.email
  }

  /** Student `i` holds the entry's address under another identifier. */
  ghost predicate Holds(t: seq<Student>, i: nat, e: Entry) {
    i < |t| && t[i].email == e.email && t[i].id != e.id
  }

  lemma ConflictIs(t: seq<Student>, e: Entry, allow: bool)
    requires Unique(t)
    ensures Conflict(t, e, allow).None? <==> IdAgrees(t, e, allow) && forall i: nat :: !Holds(t, i, e)
  {
    var byEmail := ByEmail(t, e.email);
    assert byEmail.Some? ==> (Holds(t, byEmail.value, e) <==> t[byEmail.value].id != e.id);
  }

  function NewStudent(e: Entry, batch: string): Student {
    Student(e.id, e.email, e.year, e.nameTh, e.nameEn, e.program, e.instrument, e.category, true, batch)
  }

  /** A blank cell keeps what is stored; the instrument and its category move together. */
  function Refresh(s: Student, e: Entry): Student {
    s.(nameTh := if e.nameTh != "" then e.nameTh else s.nameTh,
       nameEn := if e.nameEn != "" then e.nameEn else s.nameEn,
       program := if e.program != "" then e.program else s.program,
       year := if e.year.Some? then e.year else s.year,
       instrument := if e.instrument != "" then e.instrument else s.instrument,
       category := if e.instrument != "" then e.category else s.category,
       email := e.email, active := true)
  }

  function ApplyEntry(t: seq<Student>, e: Entry, batch: string): seq<Student> {
    var existing := ById(t, e.id);
    if existing.None? then t + [NewStudent(e, batch)] else t[existing.value := Refresh(t[existing.value], e)]
  }

  predicate Creates(t: seq<Student>, e: Entry) {
    ById(t, e.id).None?
  }

  predicate Rewrites(t: seq<Student>, e: Entry) {
    var existing := ById(t, e.id);
    existing.Some? && t[existing.value].email != e.email
  }

  /** How many entries were created, were stored already, and had their address rewritten. */
  datatype Counts = Counts(created: nat, present: nat, rewritten: nat)

  function Count(c: Counts, t: seq<Student>, e: Entry): Counts {
    if Creates(t, e) then c.(created := c.created + 1)
    else c.(present := c.present + 1, rewritten := c.rewritten + if Rewrites(t, e) then 1 else 0)
  }

  datatype Applied = Applied(table: seq<Student>, counts: Counts) | Stopped(problem: Problem)

  /** One more entry, checked against what the entries before it have made of the table; the first
      conflict stops the run. */
  function Extend(before: Applied, e: Entry, allow: bool, batch: string): Applied {
    if before.Stopped? then before
    else
      var conflict := Conflict(before.table, e, allow);
      if conflict.Some? then Stopped(conflict.value)
      else Applied(ApplyEntry(before.table, e, batch), Count(before.counts, before.table, e))
  }

  /** The real run. */
  function ApplyAll(t: seq<Student>, entries: seq<Entry>, allow: bool, batch: string): Applied
    decreases |entries|
  {
    if entries == [] then Applied(t, Counts(0, 0, 0))
    else Extend(ApplyAll(t, entries[..|entries| - 1], allow, batch), entries[|entries| - 1], allow, batch)
  }

  lemma ApplyAllSnoc(t: seq<Student>, entries: seq<Entry>, k: nat, allow: bool, batch: string)
    requires k < |entries|
    ensures ApplyAll(t, entries[..k + 1], allow, batch) ==
      Extend(ApplyAll(t, entries[..k], allow, batch), entries[k], allow, batch)
  {
    assert entries[..k + 1][..k] == entries[..k];
  }

  datatype Preview = Preview(conflicts: seq<Problem>, counts: Counts)

  /** The dry run: every entry is checked against the table as stored. */
  function PreviewAll(t: seq<Student>, entries: seq<Entry>, allow: bool): Preview
    decreases |entries|
  {
    if entries == [] then Preview([], Counts(0, 0, 0))
    else
      var e, before := entries[|entries| - 1], PreviewAll(t, entries[..|entries| - 1], allow);
      var conflict := Conflict(t, e, allow);
      if conflict.Some? then before.(conflicts := before.conflicts + [conflict.value])
      else before.(counts := Count(before.counts, t, e))
  }

  // ---------------------------------------------------------------- what applying a file leaves

  ghost predicate Mentions(entries: seq<Entry>, id: string) {
    exists k :: 0 <= k < |entries| && entries[k].id == id
  }

  ghost predicate IsNew(s: Student, entries: seq<Entry>, batch: string) {
    exists k :: 0 <= k < |entries| && s == NewStudent(entries[k], batch)
  }

  ghost predicate Enrolled(u: seq<Student>, id: string) {
    exists i :: 0 <= i < |u| && u[i].id == id
  }

  /** `u` is `t` with the entries applied: the students they name refreshed in place, the students they
      do not name as they were, the new ones appended. */
  ghost predicate Imported(t: seq<Student>, entries: seq<Entry>, batch: string, u: seq<Student>) {
    && |t| <= |u|
    && (forall i, k :: 0 <= i < |t| && 0 <= k < |entries| && entries[k].id == t[i].id ==> u[i] == Refresh(t[i], entries[k]))
    && (forall i :: 0 <= i < |t| && !Mentions(entries, t[i].id) ==> u[i] == t[i])
    && (forall i :: |t| <= i < |u| ==> IsNew(u[i], entries, batch))
    && (forall i :: |t| <= i < |u| ==> forall j :: 0 <= j < |t| ==> t[j].id != u[i].id)
    && (forall k :: 0 <= k < |entries| ==> Enrolled(u, entries[k].id))
  }

  lemma ImportedKeepsIds(t: seq<Student>, entries: seq<Entry>, batch: string, u: seq<Student>)
    requires Imported(t, entries, batch, u)
    ensures forall i :: 0 <= i < |t| ==> u[i].id == t[i].id
  {
    forall i | 0 <= i < |t|
      ensures u[i].id == t[i].id
    {
      if Mentions(entries, t[i].id) {
        var k :| 0 <= k < |entries| && entries[k].id == t[i].id;
        assert u[i] == Refresh(t[i], entries[k]);
      }
    }
  }

  /** The entry shares no identifier and no address with the others. */
  ghost predicate Apart(entries: seq<Entry>, e: Entry) {
    forall k :: 0 <= k < |entries| ==> entries[k].id != e.id && entries[k].email != e.email
  }

  lemma LastIsApart(entries: seq<Entry>)
    requires entries != [] && Distinct(entries)
    ensures var front := entries[..|entries| - 1];
      Distinct(front) && Apart(front, entries[|entries| - 1])
  {
  }

  /** A further entry's own student is as stored. */
  lemma NextIsStored(t: seq<Student>, entries: seq<Entry>, batch: string, u: seq<Student>, e: Entry, i: nat)
    requires Imported(t, entries, batch, u) && Apart(entries, e)
    ensures i < |u| && u[i].id == e.id ==> i < |t| && u[i] == t[i]
    ensures i < |t| && t[i].id == e.id ==> u[i] == t[i]
  {
    ImportedKeepsIds(t, entries, batch, u);
    assert !Mentions(entries, e.id);
    if |t| <= i < |u| {
      var k :| 0 <= k < |entries| && u[i] == NewStudent(entries[k], batch);
    }
  }

  lemma NextFindsStored(t: seq<Student>, entries: seq<Entry>, batch: string, u: seq<Student>, e: Entry)
    requires Imported(t, entries, batch, u) && Unique(t) && Unique(u) && Apart(entries, e)
    ensures ById(u, e.id) == ById(t, e.id)
    ensures Creates(u, e) == Creates(t, e) && Rewrites(u, e) == Rewrites(t, e)
  {
    var x, y := ById(u, e.id), ById(t, e.id);
    if x.Some? {
      NextIsStored(t, entries, batch, u, e, x.value);
    }
    if y.Some? {
      NextIsStored(t, entries, batch, u, e, y.value);
    }
  }

  lemma NextAgrees(t: seq<Student>, entries: seq<Entry>, batch: string, u: seq<Student>, e: Entry, allow: bool)
    requires Imported(t, entries, batch, u) && Apart(entries, e)
    ensures IdAgrees(u, e, allow) == IdAgrees(t, e, allow)
  {
    forall i: nat
      ensures i < |u| && u[i].id == e.id ==> i < |t| && u[i] == t[i]
      ensures i < |t| && t[i].id == e.id ==> u[i] == t[i]
    {
      NextIsStored(t, entries, batch, u, e, i);
    }
    if IdAgrees(u, e, allow) && !allow {
      forall i | 0 <= i < |t| && t[i].id == e.id
        ensures t[i].email == e.email
      {
        assert u[i] == t[i];
      }
    }
  }

  /** A further entry finds its address held by another exactly when it was held before and its holder
      is not named by an entry already applied. */
  lemma NextHolder(t: seq<Student>, entries: seq<Entry>, batch: string, u: seq<Student>, e: Entry, i: nat)
    requires Imported(t, entries, batch, u) && Apart(entries, e)
    ensures Holds(u, i, e) <==> Holds(t, i, e) && !Mentions(entries, t[i].id)
  {
    ImportedKeepsIds(t, entries, batch, u);
    if i < |t| {
      if Mentions(entries, t[i].id) {
        var k :| 0 <= k < |entries| && entries[k].id == t[i].id;
        assert u[i] == Refresh(t[i], entries[k]);
      }
    } else if i < |u| {
      var k :| 0 <= k < |entries| && u[i] == NewStudent(entries[k], batch);
    }
  }

  lemma ApplyKeepsUnique(u: seq<Student>, e: Entry, batch: string)
    requires Unique(u) && forall i: nat :: !Holds(u, i, e)
    ensures Unique(ApplyEntry(u, e, batch))
  {
    var v := ApplyEntry(u, e, batch);
    forall i, j | 0 <= i < j < |v|
      ensures v[i].id != v[j].id && v[i].email != v[j].email
    {
      assert !Holds(u, i, e) && !Holds(u, j, e);
    }
  }

  lemma MentionsSnoc(entries: seq<Entry>, e: Entry, id: string)
    ensures Mentions(entries + [e], id) <==> Mentions(entries, id) || e.id == id
  {
    var es := entries + [e];
    if Mentions(entries, id) {
      var k :| 0 <= k < |entries| && entries[k].id == id;
      assert es[k].id == id;
    }
    assert es[|entries|] == e;
  }

  lemma ApplyRefreshes(t: seq<Student>, entries: seq<Entry>, batch: string, u: seq<Student>, e: Entry, i: nat)
    requires Imported(t, entries, batch, u) && Unique(t) && Unique(u) && Apart(entries, e) && i < |t|
    ensures var v := ApplyEntry(u, e, batch);
      v[i] == if t[i].id == e.id then Refresh(t[i], e) else u[i]
  {
    NextFindsStored(t, entries, batch, u, e);
    NextIsStored(t, entries, batch, u, e, i);
    ImportedKeepsIds(t, entries, batch, u);
  }

  lemma ApplyKeepsStored(t: seq<Student>, entries: seq<Entry>, batch: string, u: seq<Student>, e: Entry, i: nat)
    requires Imported(t, entries, batch, u) && Unique(t) && Unique(u) && Apart(entries, e) && i < |t|
    ensures var v, es := ApplyEntry(u, e, batch), entries + [e];
      && (forall k :: 0 <= k < |es| && es[k].id == t[i].id ==> v[i] == Refresh(t[i], es[k]))
      && (!Mentions(es, t[i].id) ==> v[i] == t[i])
  {
    ApplyRefreshes(t, entries, batch, u, e, i);
    MentionsSnoc(entries, e, t[i].id);
  }

  lemma ApplyAppends(t: seq<Student>, entries: seq<Entry>, batch: string, u: seq<Student>, e: Entry, i: nat)
    requires Imported(t, entries, batch, u) && Unique(t) && Unique(u) && Apart(entries, e)
    requires |t| <= i < |ApplyEntry(u, e, batch)|
    ensures var v, es := ApplyEntry(u, e, batch), entries + [e];
      && IsNew(v[i], es, batch)
      && forall j :: 0 <= j < |t| ==> t[j].id != v[i].id
  {
    var v, es := ApplyEntry(u, e, batch), entries + [e];
    NextFindsStored(t, entries, batch, u, e);
    if i < |u| {
      NextIsStored(t, entries, batch, u, e, i);
      var k :| 0 <= k < |entries| && u[i] == NewStudent(entries[k], batch);
      assert v[i] == NewStudent(es[k], batch);
    } else {
      assert v[i] == NewStudent(es[|entries|], batch);
    }
  }

  lemma ApplyNames(u: seq<Student>, entries: seq<Entry>, e: Entry, batch: string, k: nat)
    requires k <= |entries| && forall k :: 0 <= k < |entries| ==> Enrolled(u, entries[k].id)
    ensures Enrolled(ApplyEntry(u, e, batch), (entries + [e])[k].id)
  {
    var v := ApplyEntry(u, e, batch);
    if k < |entries| {
      assert Enrolled(u, entries[k].id);
      var i :| 0 <= i < |u| && u[i].id == entries[k].id;
      assert v[i].id == entries[k].id;
    } else if Creates(u, e) {
      assert v[|u|].id == e.id;
    } else {
      assert v[ById(u, e.id).value].id == e.id;
    }
  }

  lemma ApplyKeepsImported(t: seq<Student>, entries: seq<Entry>, batch: string, u: seq<Student>, e: Entry)
    requires Imported(t, entries, batch, u) && Unique(t) && Unique(u) && Apart(entries, e)
    ensures Imported(t, entries + [e], batch, ApplyEntry(u, e, batch))
  {
    var v, es := ApplyEntry(u, e, batch), entries + [e];
    forall i: nat | i < |t|
      ensures forall k :: 0 <= k < |es| && es[k].id == t[i].id ==> v[i] == Refresh(t[i], es[k])
      ensures !Mentions(es, t[i].id) ==> v[i] == t[i]
    {
      ApplyKeepsStored(t, entries, batch, u, e, i);
    }
    forall i | |t| <= i < |v|
      ensures IsNew(v[i], es, batch)
      ensures forall j :: 0 <= j < |t| ==> t[j].id != v[i].id
    {
      ApplyAppends(t, entries, batch, u, e, i);
    }
    forall k | 0 <= k < |es|
      ensures Enrolled(v, es[k].id)
    {
      ApplyNames(u, entries, e, batch, k);
    }
  }

  // ---------------------------------------------------------------- what the real run does

  /** Every entry agrees with the stored roster, and an address held by another student is free by the
      time it is needed: an earlier entry names its holder. */
  ghost predicate Admissible(t: seq<Student>, entries: seq<Entry>, allow: bool) {
    forall k :: 0 <= k < |entries| ==>
      && IdAgrees(t, entries[k], allow)
      && forall i: nat :: Holds(t, i, entries[k]) ==> Mentions(entries[..k], t[i].id)
  }

  lemma AdmissiblePrefix(t: seq<Student>, entries: seq<Entry>, allow: bool)
    requires entries != []
    ensures var front, e := entries[..|entries| - 1], entries[|entries| - 1];
      Admissible(t, entries, allow) <==>
        && Admissible(t, front, allow)
        && IdAgrees(t, e, allow)
        && forall i: nat :: Holds(t, i, e) ==> Mentions(front, t[i].id)
  {
    var front := entries[..|entries| - 1];
    assert forall k :: 0 <= k < |front| ==> front[..k] == entries[..k] && front[k] == entries[k];
    if Admissible(t, entries, allow) {
      forall k | 0 <= k < |front|
        ensures IdAgrees(t, front[k], allow) && forall i: nat :: Holds(t, i, front[k]) ==> Mentions(front[..k], t[i].id)
      {
        assert IdAgrees(t, entries[k], allow);
      }
    }
  }

  function CountsOf(t: seq<Student>, entries: seq<Entry>): Counts
    decreases |entries|
  {
    if entries == [] then Counts(0, 0, 0)
    else Count(CountsOf(t, entries[..|entries| - 1]), t, entries[|entries| - 1])
  }

  lemma NextConflict(t: seq<Student>, entries: seq<Entry>, batch: string, u: seq<Student>, e: Entry, allow: bool)
    requires Imported(t, entries, batch, u) && Unique(u) && Apart(entries, e)
    ensures Conflict(u, e, allow).None? <==>
      IdAgrees(t, e, allow) && forall i: nat :: Holds(t, i, e) ==> Mentions(entries, t[i].id)
  {
    ConflictIs(u, e, allow);
    NextAgrees(t, entries, batch, u, e, allow);
    forall i: nat
      ensures Holds(u, i, e) <==> Holds(t, i, e) && !Mentions(entries, t[i].id)
    {
      NextHolder(t, entries, batch, u, e, i);
    }
  }

  lemma RealStep(t: seq<Student>, entries: seq<Entry>, batch: string, u: seq<Student>, e: Entry, allow: bool, c: Counts)
    requires Unique(t) && Unique(u) && Imported(t, entries, batch, u) && Apart(entries, e)
    ensures Conflict(u, e, allow).None? <==>
      IdAgrees(t, e, allow) && forall i: nat :: Holds(t, i, e) ==> Mentions(entries, t[i].id)
    ensures Conflict(u, e, allow).None? ==>
      Unique(ApplyEntry(u, e, batch)) && Imported(t, entries + [e], batch, ApplyEntry(u, e, batch))
    ensures Count(c, u, e) == Count(c, t, e)
  {
    NextConflict(t, entries, batch, u, e, allow);
    NextFindsStored(t, entries, batch, u, e);
    if Conflict(u, e, allow).None? {
      ConflictIs(u, e, allow);
      ApplyKeepsUnique(u, e, batch);
      ApplyKeepsImported(t, entries, batch, u, e);
    }
  }

  /** What a run of a validated file comes to. */
  ghost predicate RunIs(t: seq<Student>, entries: seq<Entry>, allow: bool, batch: string, r: Applied) {
    && (r.Applied? <==> Admissible(t, entries, allow))
    && (r.Applied? ==> Unique(r.table) && Imported(t, entries, batch, r.table) && r.counts == CountsOf(t, entries))
  }

  lemma ExtendIs(t: seq<Student>, entries: seq<Entry>, allow: bool, batch: string, before: Applied)
    requires Unique(t) && Distinct(entries) && entries != []
    requires RunIs(t, entries[..|entries| - 1], allow, batch, before)
    ensures RunIs(t, entries, allow, batch, Extend(before, entries[|entries| - 1], allow, batch))
  {
    var front, e := entries[..|entries| - 1], entries[|entries| - 1];
    LastIsApart(entries);
    AdmissiblePrefix(t, entries, allow);
    if before.Applied? {
      assert front + [e] == entries;
      RealStep(t, front, batch, before.table, e, allow, before.counts);
    }
  }

  /** The real run of a validated file succeeds exactly when the file is admissible. It then refreshes
      the students the file names, leaves the others, appends the new ones, keeps identifiers and
      addresses unique, and counts what it found stored. */
  lemma {:induction false} RealRun(t: seq<Student>, entries: seq<Entry>, allow: bool, batch: string)
    requires Unique(t) && Distinct(entries)
    ensures RunIs(t, entries, allow, batch, ApplyAll(t, entries, allow, batch))
    decreases |entries|
  {
    if entries != [] {
      RealRun(t, entries[..|entries| - 1], allow, batch);
      ExtendIs(t, entries, allow, batch, ApplyAll(t, entries[..|entries| - 1], allow, batch));
    }
  }

  // ---------------------------------------------------------------- what the dry run predicts

  lemma {:induction false} DryRun(t: seq<Student>, entries: seq<Entry>, allow: bool)
    ensures var p := PreviewAll(t, entries, allow);
      && (p.conflicts == [] <==> forall k :: 0 <= k < |entries| ==> Conflict(t, entries[k], allow).None?)
      && (p.conflicts == [] ==> p.counts == CountsOf(t, entries))
    decreases |entries|
  {
    if entries != [] {
      var front := entries[..|entries| - 1];
      DryRun(t, front, allow);
      assert forall k :: 0 <= k < |front| ==> front[k] == entries[k];
      if forall k :: 0 <= k < |entries| ==> Conflict(t, entries[k], allow).None? {
        assert forall k :: 0 <= k < |front| ==> Conflict(t, front[k], allow).None?;
      }
    }
  }

  /** A clean dry run predicts the real run: it succeeds with the same counts. */
  lemma CleanDryRunSucceeds(t: seq<Student>, entries: seq<Entry>, allow: bool, batch: string)
    requires Unique(t) && Distinct(entries) && PreviewAll(t, entries, allow).conflicts == []
    ensures ApplyAll(t, entries, allow, batch).Applied?
    ensures ApplyAll(t, entries, allow, batch).counts == PreviewAll(t, entries, allow).counts
  {
    DryRun(t, entries, allow);
    forall k | 0 <= k < |entries|
      ensures IdAgrees(t, entries[k], allow) && forall i: nat :: !Holds(t, i, entries[k])
    {
      ConflictIs(t, entries[k], allow);
    }
    RealRun(t, entries, allow, batch);
  }

  /** A student an earlier entry names keeps the address that entry repeats, which is not this one's. */
  lemma EarlierKeepsAddress(t: seq<Student>, entries: seq<Entry>, k: nat, i: nat)
    requires Distinct(entries) && Admissible(t, entries, false) && k < |entries|
    ensures i < |t| && Mentions(entries[..k], t[i].id) ==> t[i].email != entries[k].email
  {
    if i < |t| && Mentions(entries[..k], t[i].id) {
      var j :| 0 <= j < k && entries[..k][j].id == t[i].id;
      assert IdAgrees(t, entries[j], false);
    }
  }

  /** Unless addresses may change, the dry run also reports every file the real run would refuse. */
  lemma DryRunIsExact(t: seq<Student>, entries: seq<Entry>, batch: string)
    requires Unique(t) && Distinct(entries)
    ensures ApplyAll(t, entries, false, batch).Applied? <==> PreviewAll(t, entries, false).conflicts == []
  {
    DryRun(t, entries, false);
    RealRun(t, entries, false, batch);
    if Admissible(t, entries, false) {
      forall k | 0 <= k < |entries|
        ensures Conflict(t, entries[k], false).None?
      {
        ConflictIs(t, entries[k], false);
        forall i: nat
          ensures !Holds(t, i, entries[k])
        {
          EarlierKeepsAddress(t, entries, k, i);
        }
      }
    } else {
      if PreviewAll(t, entries, false).conflicts == [] {
        CleanDryRunSucceeds(t, entries, false, batch);
      }
    }
  }

  /** Of the files the real run accepts, the dry run is clean on exactly those that hand no stored address
      on: no entry's address is held by another student before the run. */
  lemma DryRunMissesExactly(t: seq<Student>, entries: seq<Entry>, batch: string)
    requires Unique(t) && Distinct(entries) && ApplyAll(t, entries, true, batch).Applied?
    ensures PreviewAll(t, entries, true).conflicts == [] <==>
      forall k, i: nat :: 0 <= k < |entries| ==> !Holds(t, i, entries[k])
  {
    DryRun(t, entries, true);
    RealRun(t, entries, true, batch);
    forall k | 0 <= k < |entries|
      ensures Conflict(t, entries[k], true).None? <==> forall i: nat :: !Holds(t, i, entries[k])
    {
      ConflictIs(t, entries[k], true);
      assert IdAgrees(t, entries[k], true);
    }
  }

  function Plain(id: string, email: string): Student {
    Student(id, email, None, "", "", "", "", "", true, "")
  }

  function PlainEntry(id: string, email: string): Entry {
    Entry(id, email, None, "", "", "", "", "")
  }

  const TWO_STUDENTS := [Plain("1", "a"), Plain("2", "b")]
  const HAND_ON := [PlainEntry("1", "c"), PlainEntry("2", "a")]

  lemma HandOnConflictsInPreview()
    ensures PreviewAll(TWO_STUDENTS, HAND_ON, true).conflicts != []
  {
    DryRun(TWO_STUDENTS, HAND_ON, true);
    ConflictIs(TWO_STUDENTS, HAND_ON[1], true);
    assert Holds(TWO_STUDENTS, 0, HAND_ON[1]);
  }

  lemma HandOnIsAdmissible()
    ensures Admissible(TWO_STUDENTS, HAND_ON, true)
  {
    assert HAND_ON[..1][0].id == TWO_STUDENTS[0].id;
  }

  /** If addresses may change, a file may hand one student's address on: the first entry frees it and
      the second takes it. The dry run reports a conflict, the real run succeeds. */
  lemma DryRunIsStricterThanTheRun()
    ensures Unique(TWO_STUDENTS) && Distinct(HAND_ON)
    ensures PreviewAll(TWO_STUDENTS, HAND_ON, true).conflicts != []
    ensures ApplyAll(TWO_STUDENTS, HAND_ON, true, "").Applied?
  {
    HandOnConflictsInPreview();
    HandOnIsAdmissible();
    RealRun(TWO_STUDENTS, HAND_ON, true, "");
  }

  // ---------------------------------------------------------------- importing again

  /** After an import every student the file names has the file's address, and nobody else has it. */
  lemma ImportedAddress(t: seq<Student>, entries: seq<Entry>, batch: string, u: seq<Student>, k: nat, i: nat)
    requires Imported(t, entries, batch, u) && Unique(u) && Distinct(entries) && k < |entries| && i < |u|
    ensures u[i].id == entries[k].id ==> u[i].email == entries[k].email && Refresh(u[i], entries[k]) == u[i]
    ensures !Holds(u, i, entries[k])
  {
    ImportedKeepsIds(t, entries, batch, u);
    assert Enrolled(u, entries[k].id);
    var own :| 0 <= own < |u| && u[own].id == entries[k].id;
    OwnRow(t, entries, batch, u, k, own);
    if u[i].id == entries[k].id {
      OwnRow(t, entries, batch, u, k, i);
    }
  }

  lemma OwnRow(t: seq<Student>, entries: seq<Entry>, batch: string, u: seq<Student>, k: nat, i: nat)
    requires Imported(t, entries, batch, u) && Distinct(entries) && k < |entries| && i < |u| && u[i].id == entries[k].id
    ensures u[i].email == entries[k].email && Refresh(u[i], entries[k]) == u[i] && u[i].active
  {
    ImportedKeepsIds(t, entries, batch, u);
    if i < |t| {
      assert u[i] == Refresh(t[i], entries[k]);
    } else {
      var m :| 0 <= m < |entries| && u[i] == NewStudent(entries[m], batch);
      assert m == k;
    }
  }

  lemma {:induction false} NothingToCount(u: seq<Student>, entries: seq<Entry>)
    requires forall k :: 0 <= k < |entries| ==> !Creates(u, entries[k]) && !Rewrites(u, entries[k])
    ensures CountsOf(u, entries) == Counts(0, |entries|, 0)
    decreases |entries|
  {
    if entries != [] {
      NothingToCount(u, entries[..|entries| - 1]);
    }
  }

  /** A student a second import would append is one the first import left. */
  lemma AppendedIsNamed(entries: seq<Entry>, u: seq<Student>, again: string, s: Student)
    requires IsNew(s, entries, again) && forall k :: 0 <= k < |entries| ==> Enrolled(u, entries[k].id)
    ensures Enrolled(u, s.id)
  {
    var k :| 0 <= k < |entries| && s == NewStudent(entries[k], again);
    assert Enrolled(u, entries[k].id);
  }

  lemma ReimportChangesNothing(t: seq<Student>, entries: seq<Entry>, batch: string, u: seq<Student>, again: string,
                               v: seq<Student>)
    requires Imported(t, entries, batch, u) && Unique(u) && Distinct(entries) && Imported(u, entries, again, v)
    ensures v == u
  {
    if |u| < |v| {
      AppendedIsNamed(entries, u, again, v[|u|]);
    }
    forall i | 0 <= i < |u|
      ensures v[i] == u[i]
    {
      if Mentions(entries, u[i].id) {
        var k :| 0 <= k < |entries| && entries[k].id == u[i].id;
        ImportedAddress(t, entries, batch, u, k, i);
      }
    }
  }

  /** Importing the same file again succeeds and changes nothing. */
  lemma ImportTwiceIsImportOnce(t: seq<Student>, entries: seq<Entry>, allow: bool, batch: string, again: string)
    requires Unique(t) && Distinct(entries) && ApplyAll(t, entries, allow, batch).Applied?
    ensures var u := ApplyAll(t, entries, allow, batch).table;
      ApplyAll(u, entries, allow, again) == Applied(u, Counts(0, |entries|, 0))
  {
    RealRun(t, entries, allow, batch);
    var u := ApplyAll(t, entries, allow, batch).table;
    forall k, i: nat | 0 <= k < |entries| && i < |u|
      ensures u[i].id == entries[k].id ==> u[i].email == entries[k].email
      ensures !Holds(u, i, entries[k])
    {
      ImportedAddress(t, entries, batch, u, k, i);
    }
    RealRun(u, entries, allow, again);
    ReimportChangesNothing(t, entries, batch, u, again, ApplyAll(u, entries, allow, again).table);
    forall k | 0 <= k < |entries|
      ensures !Creates(u, entries[k]) && !Rewrites(u, entries[k])
    {
      assert Enrolled(u, entries[k].id);
      var i :| 0 <= i < |u| && u[i].id == entries[k].id;
    }
    NothingToCount(u, entries);
  }

  // ---------------------------------------------------------------- full refresh

  function Deactivated(t: seq<Student>, keep: set<string>): (r: seq<Student>)
    ensures |r| == |t|
    ensures forall i :: 0 <= i < |t| ==> r[i] == if t[i].active && t[i].id !in keep then t[i].(active := false) else t[i]
  {
    seq(|t|, i requires 0 <= i < |t| => if t[i].active && t[i].id !in keep then t[i].(active := false) else t[i])
  }

  function IdsOf(entries: seq<Entry>): set<string> {
    set k | 0 <= k < |entries| :: entries[k].id
  }

  /** A full refresh - an import, then deactivation of everybody absent - leaves exactly the students
      of the file active. */
  lemma RefreshLeavesTheFile(t: seq<Student>, entries: seq<Entry>, allow: bool, batch: string)
    requires Unique(t) && Distinct(entries) && ApplyAll(t, entries, allow, batch).Applied?
    ensures var u := Deactivated(ApplyAll(t, entries, allow, batch).table, IdsOf(entries));
      && (forall i :: 0 <= i < |u| ==> (u[i].active <==> Mentions(entries, u[i].id)))
      && (forall k :: 0 <= k < |entries| ==> Enrolled(u, entries[k].id))
  {
    RealRun(t, entries, allow, batch);
    var v := ApplyAll(t, entries, allow, batch).table;
    var u := Deactivated(v, IdsOf(entries));
    forall i | 0 <= i < |u|
      ensures u[i].active <==> Mentions(entries, u[i].id)
    {
      assert u[i].id in IdsOf(entries) <==> Mentions(entries, u[i].id);
      if Mentions(entries, u[i].id) {
        var k :| 0 <= k < |entries| && entries[k].id == u[i].id;
        OwnRow(t, entries, batch, v, k, i);
      }
    }
    forall k | 0 <= k < |entries|
      ensures Enrolled(u, entries[k].id)
    {
      assert Enrolled(v, entries[k].id);
      var i :| 0 <= i < |v| && v[i].id == entries[k].id;
      assert u[i].id == entries[k].id;
    }
  }

  // ---------------------------------------------------------------- the import as it runs

  datatype Report = Report(rowsRead: nat, valid: nat, errors: seq<LineError>, counts: Counts)

  /** `Refused` is the error the real run raises on a conflict. */
  datatype ImportResult = Reported(report: Report) | Refused(problem: Problem)

  function OnLineZero(conflicts: seq<Problem>): (r: seq<LineError>)
    ensures |r| == |conflicts|
  {
    seq(|conflicts|, k requires 0 <= k < |conflicts| => LineError(0, conflicts[k]))
  }

  /** What an import answers. */
  function Answer(t: seq<Student>, raw: seq<RawRow>, valid: string -> bool, categorise: string -> string, dry: bool,
                  batch: string, allow: bool): ImportResult
  {
    var entries, errors := Entries(raw, |raw|, valid, categorise), Problems(raw, |raw|, valid);
    if errors != [] then Reported(Report(|raw|, |entries|, errors, Counts(0, 0, 0)))
    else if dry then
      var p := PreviewAll(t, entries, allow);
      Reported(Report(|raw|, |entries|, OnLineZero(p.conflicts), p.counts))
    else
      var r := ApplyAll(t, entries, allow, batch);
      if r.Stopped? then Refused(r.problem) else Reported(Report(|raw|, |entries|, [], r.counts))
  }

  /** The roster after an import: unchanged unless a real run of a valid file met no conflict. */
  function RosterAfter(t: seq<Student>, raw: seq<RawRow>, valid: string -> bool, categorise: string -> string, dry: bool,
                       batch: string, allow: bool): seq<Student>
  {
    var entries := Entries(raw, |raw|, valid, categorise);
    var r := ApplyAll(t, entries, allow, batch);
    if dry || Problems(raw, |raw|, valid) != [] || r.Stopped? then t else r.table
  }

  lemma {:induction false} StoppedStays(t: seq<Student>, entries: seq<Entry>, k: nat, allow: bool, batch: string)
    requires k <= |entries| && ApplyAll(t, entries[..k], allow, batch).Stopped?
    ensures ApplyAll(t, entries, allow, batch) == ApplyAll(t, entries[..k], allow, batch)
    decreases |entries|
  {
    if k == |entries| {
      assert entries[..k] == entries;
    } else {
      assert entries[..|entries| - 1][..k] == entries[..k];
      StoppedStays(t, entries[..|entries| - 1], k, allow, batch);
    }
  }

  class RosterTable {
    var rows: seq<Student>

    constructor (contents: seq<Student>)
      ensures rows == contents
    {
      rows := contents;
    }

    method PreviewEntries(entries: seq<Entry>, allow: bool) returns (errors: seq<LineError>, counts: Counts)
      ensures errors == OnLineZero(PreviewAll(rows, entries, allow).conflicts)
      ensures counts == PreviewAll(rows, entries, allow).counts
    {
      errors, counts := [], Counts(0, 0, 0);
      for k := 0 to |entries|
        invariant errors == OnLineZero(PreviewAll(rows, entries[..k], allow).conflicts)
        invariant counts == PreviewAll(rows, entries[..k], allow).counts
      {
        assert entries[..k + 1][..k] == entries[..k];
        var conflict := Conflict(rows, entries[k], allow);
        if conflict.Some? {
          errors := errors + [LineError(0, conflict.value)];
        } else {
          var existing := ById(rows, entries[k].id);
          if existing.None? {
            counts := counts.(created := counts.created + 1);
          } else {
            counts := counts.(present := counts.present + 1);
            if rows[existing.value].email != entries[k].email {
              counts := counts.(rewritten := counts.rewritten + 1);
            }
          }
        }
      }
      assert entries[..|entries|] == entries;
    }

    /** Create or refresh one student, cell by cell. */
    method Apply(e: Entry, batch: string) returns (created: bool, rewritten: bool)
      modifies this
      ensures rows == ApplyEntry(old(rows), e, batch)
      ensures created == Creates(old(rows), e) && rewritten == Rewrites(old(rows), e)
    {
      var existing := ById(rows, e.id);
      if existing.None? {
        rows := rows + [Student(e.id, e.email, e.year, e.nameTh, e.nameEn, e.program, e.instrument, e.category, true,
                                batch)];
        return true, false;
      }
      var s := rows[existing.value];
      rewritten := false;
      if e.nameTh != "" {
        s := s.(nameTh := e.nameTh);
      }
      if e.nameEn != "" {
        s := s.(nameEn := e.nameEn);
      }
      if e.program != "" {
        s := s.(program := e.program);
      }
      if e.year.Some? {
        s := s.(year := e.year);
      }
      if e.instrument != "" {
        s := s.(instrument := e.instrument, category := e.category);
      }
      if s.email != e.email {
        s := s.(email := e.email);
        rewritten := true;
      }
      if !s.active {
        s := s.(active := true);
      }
      rows := rows[existing.value := s];
      return false, rewritten;
    }

    method ApplyEntries(entries: seq<Entry>, allow: bool, batch: string) returns (problem: Option<Problem>, counts: Counts)
      modifies this
      ensures var r := ApplyAll(old(rows), entries, allow, batch);
        if problem.Some? then r == Stopped(problem.value) && rows == old(rows) else r == Applied(rows, counts)
    {
      ghost var before := rows;
      var savepoint := rows;
      counts := Counts(0, 0, 0);
      for k := 0 to |entries|
        invariant ApplyAll(before, entries[..k], allow, batch) == Applied(rows, counts)
      {
        ApplyAllSnoc(before, entries, k, allow, batch);
        problem := Conflict(rows, entries[k], allow);
        if problem.Some? {
          StoppedStays(before, entries, k + 1, allow, batch);
          rows := savepoint;
          return;
        }
        var created, rewritten := Apply(entries[k], batch);
        if created {
          counts := counts.(created := counts.created + 1);
        } else {
          counts := counts.(present := counts.present + 1, rewritten := counts.rewritten + if rewritten then 1 else 0);
        }
      }
      assert entries[..|entries|] == entries;
      return None, counts;
    }

    method ImportRows(raw: seq<RawRow>, valid: string -> bool, categorise: string -> string, dry: bool, batch: string,
                      allow: bool) returns (r: ImportResult)
      modifies this
      ensures r == Answer(old(rows), raw, valid, categorise, dry, batch, allow)
      ensures rows == RosterAfter(old(rows), raw, valid, categorise, dry, batch, allow)
    {
      var cleaned, errors := Validate(raw, valid, categorise);
      if errors != [] {
        return Reported(Report(|raw|, |cleaned|, errors, Counts(0, 0, 0)));
      }
      if dry {
        var conflicts, counts := PreviewEntries(cleaned, allow);
        return Reported(Report(|raw|, |cleaned|, conflicts, counts));
      }
      var problem, counts := ApplyEntries(cleaned, allow, batch);
      if problem.Some? {
        return Refused(problem.value);
      }
      return Reported(Report(|raw|, |cleaned|, [], counts));
    }

    /** Deactivate every active student absent from a full refresh. */
    method DeactivateMissing(keep: set<string>, dry: bool) returns (count: nat)
      modifies this
      ensures count == |set i | 0 <= i < |old(rows)| && old(rows)[i].active && old(rows)[i].id !in keep|
      ensures rows == if dry then old(rows) else Deactivated(old(rows), keep)
    {
      count := |set i | 0 <= i < |rows| && rows[i].active && rows[i].id !in keep|;
      if dry || count == 0 {
        NobodyMissing(rows, keep);
        return;
      }
      rows := Deactivated(rows, keep);
    }
  }

  lemma NobodyMissing(t: seq<Student>, keep: set<string>)
    ensures |set i | 0 <= i < |t| && t[i].active && t[i].id !in keep| == 0 ==> Deactivated(t, keep) == t
  {
    var missing := set i | 0 <= i < |t| && t[i].active && t[i].id !in keep;
    if |missing| == 0 {
      assert missing == {};
      forall i | 0 <= i < |t|
        ensures Deactivated(t, keep)[i] == t[i]
      {
        assert i !in missing;
      }
    }
  }
}
