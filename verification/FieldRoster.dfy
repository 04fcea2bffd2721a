/** The roster import in terms of the rows of the file and the students stored: what is wrong with a row, what stands
    against an entry, every cell of the roster after a run and what the counters count. */
module FieldRoster {
  import opened Tables
  import opened Roster

  // ---------------------------------------------------------------- what is wrong with a row

  /** The row has an identifier and a valid address. */
  predicate WellFormed(r: RawRow, valid: string -> bool) {
    r.idGiven && r.emailGiven && valid(r.email)
  }

  predicate YearGood(y: Year) {
    y == NoYear || (y.YearNumber? && 1 <= y.year <= 12)
  }

  /** A row counts for those below it if it is well formed and repeats nothing of a row that counts. */
  lemma RegistersExactly(rows: seq<RawRow>, i: nat, valid: string -> bool)
    requires i < |rows|
    ensures Registers(rows, i, valid) <==>
      && WellFormed(rows[i], valid)
      && forall j: nat :: j < i && Registers(rows, j, valid) ==> rows[j].id != rows[i].id && rows[j].email != rows[i].email
  {
    assert IdSeen(rows, i, valid, rows[i].id) <==> exists j: nat :: j < i && Registers(rows, j, valid) && rows[j].id == rows[i].id;
    assert EmailSeen(rows, i, valid, rows[i].email) <==>
      exists j: nat :: j < i && Registers(rows, j, valid) && rows[j].email == rows[i].email;
  }

  /** Each problem, with what it takes to be reported: the first that applies, in this order. */
  lemma ProblemExactly(rows: seq<RawRow>, i: nat, valid: string -> bool)
    requires i < |rows|
    ensures var r, told := rows[i], RowProblem(rows, i, valid);
      var id := exists j: nat :: j < i && Registers(rows, j, valid) && rows[j].id == r.id;
      var email := exists j: nat :: j < i && Registers(rows, j, valid) && rows[j].email == r.email;
      && (told == Some(MissingField) <==> !r.idGiven || !r.emailGiven)
      && (told == Some(BadEmail) <==> r.idGiven && r.emailGiven && !valid(r.email))
      && (told == Some(DuplicateId) <==> WellFormed(r, valid) && id)
      && (told == Some(DuplicateEmail) <==> WellFormed(r, valid) && !id && email)
      && (told == Some(BadYear) <==> WellFormed(r, valid) && !id && !email && !YearGood(r.year))
      && (told == None <==> WellFormed(r, valid) && !id && !email && YearGood(r.year))
  {
  }

  /** Every bad row is reported once, on its line below the header, in the order of the file. */
  lemma {:induction false} ErrorsExactly(rows: seq<RawRow>, n: nat, valid: string -> bool)
    requires n <= |rows|
    ensures var errors := Problems(rows, n, valid);
      && (forall e :: e in errors <==> 2 <= e.line < n + 2 && RowProblem(rows, e.line - 2, valid) == Some(e.problem))
      && (forall j, k :: 0 <= j < k < |errors| ==> errors[j].line < errors[k].line)
  {
    if n > 0 {
      ErrorsExactly(rows, n - 1, valid);
      var before := Problems(rows, n - 1, valid);
      assert forall k :: 0 <= k < |before| ==> before[k] in before;
    }
  }

  /** The entries of a good file are its rows, cell by cell. */
  lemma EntriesExactly(rows: seq<RawRow>, valid: string -> bool, categorise: string -> string, i: nat)
    requires FileOk(rows, valid) && i < |rows|
    ensures var entries, r := Entries(rows, |rows|, valid, categorise), rows[i];
      && |entries| == |rows|
      && entries[i] == Entry(id := r.id, email := r.email, year := if r.year == NoYear then None else Some(r.year.year),
                             nameTh := r.nameTh, nameEn := r.nameEn, program := r.program, instrument := r.instrument,
                             category := categorise(r.instrument))
  {
    NoProblemsMeansEach(rows, |rows|, valid, categorise);
    EachOkMeansFile(rows, valid);
    ProblemExactly(rows, i, valid);
  }

  // ---------------------------------------------------------------- what stands against an entry

  /** The identifier is stored with another address. */
  ghost predicate Readdressed(t: seq<Student>, e: Entry) {
    exists i :: 0 <= i < |t| && t[i].id == e.id && t[i].email != e.email
  }

  /** The address is stored with another identifier. */
  ghost predicate HeldByAnother(t: seq<Student>, e: Entry) {
    exists i :: 0 <= i < |t| && t[i].email == e.email && t[i].id != e.id
  }

  lemma ConflictExactly(t: seq<Student>, e: Entry, allow: bool)
    requires Unique(t)
    ensures var told := Conflict(t, e, allow);
      && (told == Some(IdHasOtherEmail) <==> !allow && Readdressed(t, e))
      && (told == Some(EmailHasOtherId) <==> (allow || !Readdressed(t, e)) && HeldByAnother(t, e))
      && (told == None <==> (allow || !Readdressed(t, e)) && !HeldByAnother(t, e))
  {
  }

  // ---------------------------------------------------------------- what a run stores

  /** `s` is the student the entry makes of `was`: what the entry leaves blank stays as it was, an instrument brings
      its category along, and the student is active under the entry's address. */
  ghost predicate Refreshed(was: Student, e: Entry, s: Student) {
    && s.id == was.id && s.email == e.email && s.active && s.batch == was.batch
    && s.year == (if e.year == None then was.year else e.year)
    && s.nameTh == (if e.nameTh == "" then was.nameTh else e.nameTh)
    && s.nameEn == (if e.nameEn == "" then was.nameEn else e.nameEn)
    && s.program == (if e.program == "" then was.program else e.program)
    && (if e.instrument == "" then s.instrument == was.instrument && s.category == was.category
        else s.instrument == e.instrument && s.category == e.category)
  }

  /** `s` is a student the file brings: as the entry says, active, in this batch. */
  predicate Brought(e: Entry, batch: string, s: Student) {
    && s.id == e.id && s.email == e.email && s.year == e.year && s.nameTh == e.nameTh && s.nameEn == e.nameEn
    && s.program == e.program && s.instrument == e.instrument && s.category == e.category
    && s.active && s.batch == batch
  }

  /** A real run without conflict: students the file names are refreshed in place, the others are as they were, and
      behind them stand the students it brings, each of them once. */
  lemma RunStores(t: seq<Student>, entries: seq<Entry>, allow: bool, batch: string)
    requires Unique(t) && Distinct(entries) && ApplyAll(t, entries, allow, batch).Applied?
    ensures var u := ApplyAll(t, entries, allow, batch).table;
      && Unique(u) && |t| <= |u|
      && (forall i, k :: 0 <= i < |t| && 0 <= k < |entries| && entries[k].id == t[i].id ==> Refreshed(t[i], entries[k], u[i]))
      && (forall i :: 0 <= i < |t| && (forall k :: 0 <= k < |entries| ==> entries[k].id != t[i].id) ==> u[i] == t[i])
      && (forall i :: |t| <= i < |u| ==> exists k :: 0 <= k < |entries| && Brought(entries[k], batch, u[i]))
      && (forall i, j :: 0 <= j < |t| <= i < |u| ==> t[j].id != u[i].id)
      && (forall k :: 0 <= k < |entries| ==> exists i :: 0 <= i < |u| && u[i].id == entries[k].id)
  {
    RealRun(t, entries, allow, batch);
    var u := ApplyAll(t, entries, allow, batch).table;
    forall i | |t| <= i < |u|
      ensures exists k :: 0 <= k < |entries| && Brought(entries[k], batch, u[i])
    {
      assert IsNew(u[i], entries, batch);
      var k :| 0 <= k < |entries| && u[i] == NewStudent(entries[k], batch);
      assert Brought(entries[k], batch, u[i]);
    }
    forall k | 0 <= k < |entries|
      ensures exists i :: 0 <= i < |u| && u[i].id == entries[k].id
    {
      assert Enrolled(u, entries[k].id);
    }
    forall i | 0 <= i < |t| && (forall k :: 0 <= k < |entries| ==> entries[k].id != t[i].id)
      ensures u[i] == t[i]
    {
      assert !Mentions(entries, t[i].id);
    }
  }

  // ---------------------------------------------------------------- the counters

  ghost function NewOnes(t: seq<Student>, entries: seq<Entry>): set<int> {
    set k | 0 <= k < |entries| && !Enrolled(t, entries[k].id)
  }

  ghost function ChangedOnes(t: seq<Student>, entries: seq<Entry>): set<int> {
    set k | 0 <= k < |entries| && Readdressed(t, entries[k])
  }

  lemma StoredExactly(t: seq<Student>, e: Entry)
    requires Unique(t)
    ensures Creates(t, e) <==> !Enrolled(t, e.id)
    ensures Rewrites(t, e) <==> Readdressed(t, e)
  {
  }

  lemma OneMoreMember(a: set<int>, b: set<int>, n: int)
    requires n !in a && forall k :: k in a || k in b ==> k == n || (k in a && k in b)
    ensures |b| == |a| + if n in b then 1 else 0
  {
    assert b - {n} == a by {
      forall k
        ensures k in b - {n} <==> k in a
      {
      }
    }
  }

  lemma OneMoreEntry(t: seq<Student>, entries: seq<Entry>)
    requires entries != []
    ensures var front, e := entries[..|entries| - 1], entries[|entries| - 1];
      && |NewOnes(t, entries)| == |NewOnes(t, front)| + (if Enrolled(t, e.id) then 0 else 1)
      && |ChangedOnes(t, entries)| == |ChangedOnes(t, front)| + (if Readdressed(t, e) then 1 else 0)
  {
    var n := |entries| - 1;
    OneMoreMember(NewOnes(t, entries[..n]), NewOnes(t, entries), n);
    OneMoreMember(ChangedOnes(t, entries[..n]), ChangedOnes(t, entries), n);
  }

  /** The counters of a run: the entries whose students were not stored, those whose were, and of these the ones
      stored with another address. */
  lemma {:induction false} CountsExactly(t: seq<Student>, entries: seq<Entry>)
    requires Unique(t)
    ensures CountsOf(t, entries).created == |NewOnes(t, entries)|
    ensures CountsOf(t, entries).created + CountsOf(t, entries).present == |entries|
    ensures CountsOf(t, entries).rewritten == |ChangedOnes(t, entries)|
    decreases |entries|
  {
    if entries == [] {
      assert NewOnes(t, entries) == {} && ChangedOnes(t, entries) == {};
    } else {
      CountsExactly(t, entries[..|entries| - 1]);
      OneMoreEntry(t, entries);
      StoredExactly(t, entries[|entries| - 1]);
    }
  }

  /** The problem the stored roster has with an entry. */
  ghost predicate Against(t: seq<Student>, e: Entry, allow: bool, problem: Problem) {
    || (problem == IdHasOtherEmail && !allow && Readdressed(t, e))
    || (problem == EmailHasOtherId && (allow || !Readdressed(t, e)) && HeldByAnother(t, e))
  }

  ghost predicate AgainstSome(t: seq<Student>, entries: seq<Entry>, allow: bool, problem: Problem) {
    exists k :: 0 <= k < |entries| && Against(t, entries[k], allow, problem)
  }

  lemma AgainstOneMore(t: seq<Student>, entries: seq<Entry>, allow: bool, problem: Problem)
    requires Unique(t) && entries != []
    ensures var front, e := entries[..|entries| - 1], entries[|entries| - 1];
      AgainstSome(t, entries, allow, problem) <==>
      AgainstSome(t, front, allow, problem) || Conflict(t, e, allow) == Some(problem)
  {
    var n := |entries| - 1;
    var front := entries[..n];
    ConflictExactly(t, entries[n], allow);
    assert Against(t, entries[n], allow, problem) <==> Conflict(t, entries[n], allow) == Some(problem);
    if AgainstSome(t, front, allow, problem) {
      var k :| 0 <= k < n && Against(t, front[k], allow, problem);
      assert Against(t, entries[k], allow, problem);
    }
    if k :| 0 <= k < n && Against(t, entries[k], allow, problem) {
      assert Against(t, front[k], allow, problem);
    }
  }

  /** A dry run reports the problem of each entry that has one, and counts every other entry once. */
  lemma {:induction false} PreviewExactly(t: seq<Student>, entries: seq<Entry>, allow: bool)
    requires Unique(t)
    ensures var p := PreviewAll(t, entries, allow);
      && |p.conflicts| + p.counts.created + p.counts.present == |entries|
      && forall problem :: problem in p.conflicts <==> AgainstSome(t, entries, allow, problem)
    decreases |entries|
  {
    if entries != [] {
      var n := |entries| - 1;
      var front, e := entries[..n], entries[n];
      PreviewExactly(t, front, allow);
      forall problem
        ensures AgainstSome(t, entries, allow, problem) <==>
          AgainstSome(t, front, allow, problem) || Conflict(t, e, allow) == Some(problem)
      {
        AgainstOneMore(t, entries, allow, problem);
      }
    }
  }

  /** What an import answers and stores, case by case. */
  lemma ImportExactly(t: seq<Student>, raw: seq<RawRow>, valid: string -> bool, categorise: string -> string, dry: bool,
                      batch: string, allow: bool)
    ensures var entries, errors := Entries(raw, |raw|, valid, categorise), Problems(raw, |raw|, valid);
      var answer, u := Answer(t, raw, valid, categorise, dry, batch, allow), RosterAfter(t, raw, valid, categorise, dry, batch, allow);
      var run := ApplyAll(t, entries, allow, batch);
      && (!FileOk(raw, valid) ==> u == t && answer == Reported(Report(|raw|, |entries|, errors, Counts(0, 0, 0))))
      && (FileOk(raw, valid) && dry ==>
            && u == t && answer.Reported? && answer.report.rowsRead == answer.report.valid == |raw|
            && |answer.report.errors| == |PreviewAll(t, entries, allow).conflicts|
            && (forall k :: 0 <= k < |answer.report.errors| ==>
                  answer.report.errors[k] == LineError(0, PreviewAll(t, entries, allow).conflicts[k])))
      && (FileOk(raw, valid) && !dry && run.Stopped? ==> u == t && answer == Refused(run.problem))
      && (FileOk(raw, valid) && !dry && run.Applied? ==>
            u == run.table && answer == Reported(Report(|raw|, |raw|, [], run.counts)))
  {
    ValidationIsExact(raw, valid, categorise);
  }
}
