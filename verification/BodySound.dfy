/** Every operation that succeeds keeps the invariant. */
module BodySound {
  import opened Slots
  import opened Tables
  import opened Rules
  import opened Changes
  import opened Reconcile
  import opened Bookings
  import opened Sanctions
  import opened Maintenance
  import opened Operations
  import opened Invariants
  import opened Ledgers
  import opened Soundness
  import opened FixedPoint

  // ---------------------------------------------------------------- one row edited in place

  lemma EditSound(db: Db, id: nat, row: Booking, outbox: set<Mail>, now: int)
    requires Sound(db, now) && id < |db.bookings|
    requires Later(db.bookings[id], row) && RowValid(row, now)
    requires db.bookings[id].status.NoShow? <==> row.status.NoShow?
    requires MailSound(db.bookings[id := row], outbox)
    ensures Sound(db.(bookings := db.bookings[id := row], outbox := outbox), now)
  {
    var cs := db.bookings[id := row];
    ReplaceKeepsSound(db.bookings, id, row, now);
    LaterKeepsRules(db.bookings, cs, db.site.closures);
    LedgerKept(db.bookings, cs, db.violations, db.violations);
  }

  lemma QuietEdit(bs: seq<Booking>, id: nat, row: Booking, outbox: set<Mail>, more: set<Mail>)
    requires MailSound(bs, outbox) && id < |bs| && SameNotices(bs[id], row) && OnlyOtherMail(outbox, more)
    ensures MailSound(bs[id := row], more)
  {
    MailKept(bs, bs[id := row], outbox, more);
  }

  lemma CancelEdit(bs: seq<Booking>, id: nat, row: Booking, outbox: set<Mail>)
    requires MailSound(bs, outbox) && id < |bs| && Open(bs[id].status) && OwesCancelNotice(row)
    ensures MailSound(bs[id := row], outbox + {BookingCancelled(id)})
  {
  }

  lemma RejectEdit(bs: seq<Booking>, id: nat, row: Booking, outbox: set<Mail>)
    requires MailSound(bs, outbox) && id < |bs| && Open(bs[id].status) && row.status.Rejected?
    ensures MailSound(bs[id := row], outbox + {BookingRejected(id)})
  {
  }

  lemma DetailsSound(db: Db, now: int, actor: User, id: nat, details: Details)
    requires Sound(db, now) && Succeeded(UpdateDetails(db, now, actor, id, details).exit)
    ensures Sound(UpdateDetails(db, now, actor, id, details).db, now)
  {
    var r := UpdateDetails(db, now, actor, id, details).db;
    assert RowValid(db.bookings[id], now);
    QuietEdit(db.bookings, id, r.bookings[id], db.outbox, r.outbox);
    EditSound(db, id, r.bookings[id], r.outbox, now);
  }

  lemma DecideSound(db: Db, now: int, id: nat, decision: Decision)
    requires Sound(db, now) && Succeeded(Decide(db, now, id, decision).exit)
    ensures Sound(Decide(db, now, id, decision).db, now)
  {
    var r := Decide(db, now, id, decision).db;
    assert RowValid(db.bookings[id], now);
    if decision.Approve? {
      QuietEdit(db.bookings, id, r.bookings[id], db.outbox, r.outbox);
    } else {
      RejectEdit(db.bookings, id, r.bookings[id], db.outbox);
    }
    EditSound(db, id, r.bookings[id], r.outbox, now);
  }

  lemma CancelSound(db: Db, now: int, actor: User, id: nat, staffAction: bool)
    requires Sound(db, now) && Succeeded(CancelBooking(db, now, actor, id, staffAction).exit)
    ensures Sound(CancelBooking(db, now, actor, id, staffAction).db, now)
  {
    var r := CancelBooking(db, now, actor, id, staffAction).db;
    assert RowValid(db.bookings[id], now);
    CancelEdit(db.bookings, id, r.bookings[id], db.outbox);
    EditSound(db, id, r.bookings[id], r.outbox, now);
  }

  lemma CheckInSound(db: Db, now: int, actor: User, owner: User, id: nat, door: Option<nat>, staffAssisted: bool)
    requires Sound(db, now) && Succeeded(CheckIn(db, now, actor, owner, id, door, staffAssisted).exit)
    ensures Sound(CheckIn(db, now, actor, owner, id, door, staffAssisted).db, now)
  {
    var r := CheckIn(db, now, actor, owner, id, door, staffAssisted).db;
    assert RowValid(db.bookings[id], now);
    QuietEdit(db.bookings, id, r.bookings[id], db.outbox, db.outbox);
    EditSound(db, id, r.bookings[id], r.outbox, now);
  }

  lemma EarlySound(db: Db, now: int, id: nat, reasonGiven: bool)
    requires Sound(db, now) && Succeeded(CompleteEarly(db, now, id, reasonGiven).exit)
    requires NoneDue(Completions, db.bookings, now)
    ensures Sound(CompleteEarly(db, now, id, reasonGiven).db, now)
  {
    var r := CompleteEarly(db, now, id, reasonGiven).db;
    assert RowValid(db.bookings[id], now) && !IsDue(Completions, db.bookings[id], now);
    QuietEdit(db.bookings, id, r.bookings[id], db.outbox, db.outbox);
    EditSound(db, id, r.bookings[id], r.outbox, now);
  }

  lemma ReviewSound(db: Db, now: int, id: nat, noteGiven: bool)
    requires Sound(db, now) && Succeeded(ResolveReview(db, now, id, noteGiven).exit)
    ensures Sound(ResolveReview(db, now, id, noteGiven).db, now)
  {
    var r := ResolveReview(db, now, id, noteGiven).db;
    assert RowValid(db.bookings[id], now);
    QuietEdit(db.bookings, id, r.bookings[id], db.outbox, db.outbox);
    EditSound(db, id, r.bookings[id], r.outbox, now);
  }

  // ---------------------------------------------------------------- rows admitted

  lemma {:induction false} AdmitSound(db: Db, row: Booking, outbox: set<Mail>, now: int)
    requires Sound(db, now) && RowValid(row, now) && Fits(db.bookings, row)
    requires row.staff || !HoldsNear(db.bookings, row.user, row.slot)
    requires Open(row.status) && !row.staff ==> ClearOf(row, db.site.closures)
    requires OnlyOtherMail(db.outbox, outbox)
    ensures Sound(db.(bookings := db.bookings + [row], outbox := outbox), now)
  {
    var cs := db.bookings + [row];
    AdmitKeepsSound(db.bookings, row, now);
    LedgerKept(db.bookings, cs, db.violations, db.violations);
    MailKept(db.bookings, cs, db.outbox, outbox);
  }

  lemma OpenMeansClear(db: Db, slot: int, room: Room)
    requires SlotOpen(db, slot, room).None?
    ensures forall k :: 0 <= k < |db.site.closures| ==> !ClosureCovers(db.site.closures[k], slot, room.id)
  {
  }

  /** A no-show lies in the past, so no future hour is forfeited. */
  lemma FutureNotForfeited(bs: seq<Booking>, user: nat, room: nat, slot: int, now: int)
    requires RowsValid(bs, now) && now < slot
    ensures !Forfeited(bs, user, room, slot)
  {
    forall i | 0 <= i < |bs| && bs[i].status.NoShow?
      ensures bs[i].slot != slot
    {
      assert RowValid(bs[i], now);
    }
  }

  lemma AdvanceSound(db: Db, now: int, actor: User, room: Room, slot: int, details: Details)
    requires Sound(db, now) && Succeeded(CreateAdvance(db, now, actor, room, slot, details).exit)
    ensures Sound(CreateAdvance(db, now, actor, room, slot, details).db, now)
  {
    PolicyValid(db);
    OpenMeansClear(db, slot, room);
    AdmitSound(db, AdvanceRow(db, now, actor, room, slot, details),
               CreateAdvance(db, now, actor, room, slot, details).db.outbox, now);
  }

  lemma UseNowSound(db: Db, now: int, actor: User, room: Room)
    requires Sound(db, now) && Succeeded(UseNow(db, now, actor, room).exit)
    ensures Sound(UseNow(db, now, actor, room).db, now)
  {
    FloorToSlotIsTheOnlySlot(now, FloorToSlot(now));
    AdmitSound(db, WalkInRow(db, now, actor, room), UseNow(db, now, actor, room).db.outbox, now);
  }

  lemma HoldRowsSnoc(db: Db, now: int, actor: User, room: Room, date: int, hour: int, k: nat, details: Details)
    ensures HoldRows(db, now, actor, room, date, hour, k + 1, details) ==
      HoldRows(db, now, actor, room, date, hour, k, details)
      + [HoldRow(db, now, actor, room, SlotStartFor(date, hour + k), details)]
  {
  }

  /** The next hour of a staff hold is still free once the hours before it are held. */
  lemma NextHoldFits(bs: seq<Booking>, db: Db, now: int, actor: User, room: Room, date: int, hour: int, k: nat,
                     details: Details)
    requires RowsValid(bs + HoldRows(db, now, actor, room, date, hour, k, details), now)
    requires now < SlotStartFor(date, hour + k) && !Taken(bs, room.id, SlotStartFor(date, hour + k))
    ensures Fits(bs + HoldRows(db, now, actor, room, date, hour, k, details),
                 HoldRow(db, now, actor, room, SlotStartFor(date, hour + k), details))
  {
    var rows := HoldRows(db, now, actor, room, date, hour, k, details);
    var slot, mid := SlotStartFor(date, hour + k), bs + rows;
    forall i | 0 <= i < |mid| && mid[i].room == room.id && Blocking(mid[i].status)
      ensures mid[i].slot != slot
    {
      if i < |bs| {
        assert mid[i] == bs[i];
      } else {
        assert mid[i] == rows[i - |bs|];
      }
    }
    FutureNotForfeited(mid, actor.id, room.id, slot, now);
  }

  /** One more hour of a staff hold that was not refused. */
  lemma HoldAdmitted(db: Db, now: int, actor: User, room: Room, date: int, hour: int, end: int, k: nat, details: Details)
    requires SiteValid(db.site) && StaffRefusal(db, now, actor, room, date, hour, end).None? && k < end - hour
    requires Sound(db.(bookings := db.bookings + HoldRows(db, now, actor, room, date, hour, k, details)), now)
    ensures Sound(db.(bookings := db.bookings + HoldRows(db, now, actor, room, date, hour, k + 1, details)), now)
  {
    var rows := HoldRows(db, now, actor, room, date, hour, k, details);
    var mid := db.(bookings := db.bookings + rows);
    var slot := SlotStartFor(date, hour + k);
    var row := HoldRow(db, now, actor, room, slot, details);
    HoldRowsSnoc(db, now, actor, room, date, hour, k, details);
    assert mid.bookings + [row] == db.bookings + HoldRows(db, now, actor, room, date, hour, k + 1, details);
    PolicyValid(db);
    SlotStartForInverse(date, hour + k);
    assert !Taken(db.bookings, room.id, slot);
    NextHoldFits(db.bookings, db, now, actor, room, date, hour, k, details);
    AdmitSound(mid, row, mid.outbox, now);
  }

  /** The first `k` hours of a staff hold, added to sound tables. */
  lemma {:induction false} HoldsAdmitted(db: Db, now: int, actor: User, room: Room, date: int, hour: int, end: int,
                                         k: nat, details: Details)
    requires Sound(db, now) && StaffRefusal(db, now, actor, room, date, hour, end).None?
    requires k <= end - hour
    ensures Sound(db.(bookings := db.bookings + HoldRows(db, now, actor, room, date, hour, k, details)), now)
  {
    if k == 0 {
      assert db.bookings + HoldRows(db, now, actor, room, date, hour, 0, details) == db.bookings;
    } else {
      HoldsAdmitted(db, now, actor, room, date, hour, end, k - 1, details);
      HoldAdmitted(db, now, actor, room, date, hour, end, k - 1, details);
    }
  }

  lemma StaffHoldSound(db: Db, now: int, actor: User, room: Room, date: int, hour: int, end: int, details: Details)
    requires Sound(db, now) && Succeeded(CreateStaffHold(db, now, actor, room, date, hour, end, details).exit)
    ensures Sound(CreateStaffHold(db, now, actor, room, date, hour, end, details).db, now)
  {
    HoldsAdmitted(db, now, actor, room, date, hour, end, end - hour, details);
  }

  // ---------------------------------------------------------------- a move

  lemma MoveSound(db: Db, now: int, actor: User, id: nat, room: Room)
    requires Sound(db, now) && Succeeded(Move(db, now, actor, id, room).exit)
    ensures Sound(Move(db, now, actor, id, room).db, now)
  {
    var r := Move(db, now, actor, id, room).db;
    var row := r.bookings[id];
    assert RowValid(db.bookings[id], now);
    OpenMeansClear(db, row.slot, room);
    MoveKeepsSound(db.bookings, id, row, now);
    LedgerKept(db.bookings, r.bookings, db.violations, db.violations);
    QuietEdit(db.bookings, id, row, db.outbox, r.outbox);
  }

  // ---------------------------------------------------------------- bulk changes

  lemma SeriesSound(db: Db, now: int, actor: User, series: nat)
    requires Sound(db, now) && Succeeded(CancelSeries(db, now, actor, series).exit)
    ensures Sound(CancelSeries(db, now, actor, series).db, now)
  {
    var c := CancelOccurrences(series, now);
    AnnouncedMap(c, db.bookings, db.outbox);
    MapSound(db, c, db.outbox + CancelMail(CancelledBy(db.bookings, c)), now);
  }

  /** A new closure meets no student's open booking once the affected ones are cancelled. */
  lemma ClosedClear(bs: seq<Booking>, cs: seq<Closure>, scope: Option<nat>, starts: int, ends: int, now: int,
                    clock: int, closure: Closure)
    requires RowsValid(bs, now) && StudentsClear(bs, cs)
    requires closure.room == scope && closure.startsAt == starts && closure.endsAt == ends
    ensures StudentsClear(MapRows(bs, CloseOver(scope, starts, ends, now, clock)), cs + [closure])
  {
    var c := CloseOver(scope, starts, ends, now, clock);
    var rows := MapRows(bs, c);
    forall i | 0 <= i < |rows| && Open(rows[i].status) && !rows[i].staff
      ensures ClearOf(rows[i], cs + [closure])
    {
      ApplyIsLater(c, bs[i]);
      assert ClearOf(bs[i], cs);
    }
  }

  lemma ClosureSound(db: Db, now: int, clock: int, scope: Option<nat>, starts: int, ends: int, reason: string,
                     reasonGiven: bool, acknowledged: bool)
    requires Sound(db, now)
    requires Succeeded(CreateClosure(db, now, clock, scope, starts, ends, reason, reasonGiven, acknowledged).exit)
    ensures Sound(CreateClosure(db, now, clock, scope, starts, ends, reason, reasonGiven, acknowledged).db, now)
  {
    var r := CreateClosure(db, now, clock, scope, starts, ends, reason, reasonGiven, acknowledged).db;
    var c := CloseOver(scope, starts, ends, now, clock);
    AnnouncedMap(c, db.bookings, db.outbox);
    PreviewCancels(db.bookings, scope, starts, ends, now, clock);
    MapSound(db, c, r.outbox, now);
    ClosedClear(db.bookings, db.site.closures, scope, starts, ends, now, clock,
                Closure(scope, starts, ends, None, acknowledged, reason));
  }

  /** The rows the preview lists as scheduled are the rows the closure cancels. */
  lemma PreviewCancels(bs: seq<Booking>, scope: Option<nat>, starts: int, ends: int, now: int, clock: int)
    ensures PreviewClosure(bs, scope, starts, ends, clock).scheduled ==
      CancelledBy(bs, CloseOver(scope, starts, ends, now, clock))
  {
  }

  lemma RevokeSound(db: Db, now: int, id: nat, reasonGiven: bool)
    requires Sound(db, now) && Succeeded(RevokeClosure(db, now, id, reasonGiven).exit)
    ensures Sound(RevokeClosure(db, now, id, reasonGiven).db, now)
  {
    var r := RevokeClosure(db, now, id, reasonGiven).db;
    forall i | 0 <= i < |db.bookings| && Open(db.bookings[i].status) && !db.bookings[i].staff
      ensures ClearOf(db.bookings[i], r.site.closures)
    {
      assert ClearOf(db.bookings[i], db.site.closures);
    }
  }

  lemma RoomSound(db: Db, now: int, room: nat, reasonGiven: bool)
    requires Sound(db, now) && Succeeded(DeactivateRoom(db, now, room, reasonGiven).exit)
    ensures Sound(DeactivateRoom(db, now, room, reasonGiven).db, now)
  {
    var c := CancelOpenIn(room, now);
    var outbox := db.outbox + CancelMail(CancelledBy(db.bookings, c));
    AnnouncedMap(c, db.bookings, db.outbox);
    MapSound(db, c, outbox, now);
    var mid := db.(bookings := MapRows(db.bookings, c), outbox := outbox);
    QuietMap(mid.bookings, FlagInUseIn(room), outbox);
    MapSound(mid, FlagInUseIn(room), outbox, now);
  }

  lemma AccountSound(db: Db, now: int, user: User, reasonGiven: bool)
    requires Sound(db, now) && Succeeded(DeactivateAccount(db, now, user, reasonGiven).exit)
    ensures Sound(DeactivateAccount(db, now, user, reasonGiven).db, now)
  {
    var c := CancelOpenOf(user.id, now, ByAccount);
    forall i | 0 <= i < |db.bookings| && Open(db.bookings[i].status)
      ensures db.bookings[i].cancelReason.None?
    {
      assert RowValid(db.bookings[i], now);
    }
    AccountMap(user.id, now, db.bookings, db.outbox);
    MapSound(db, c, db.outbox, now);
    var mid := db.(bookings := MapRows(db.bookings, c));
    assert mid == db.(bookings := MapRows(db.bookings, c), outbox := db.outbox);
    QuietMap(mid.bookings, FlagInUseOf(user.id), mid.outbox);
    MapSound(mid, FlagInUseOf(user.id), mid.outbox, now);
  }

  lemma IncidentSound(db: Db, now: int, extent: Incident, reasonGiven: bool, cancelOpen: bool)
    requires Sound(db, now) && Succeeded(CreateIncident(db, now, extent, reasonGiven, cancelOpen).exit)
    ensures Sound(CreateIncident(db, now, extent, reasonGiven, cancelOpen).db, now)
  {
    var c := Disrupt(|db.site.incidents|, extent, now, cancelOpen);
    AnnouncedMap(c, db.bookings, db.outbox);
    MapSound(db, c, db.outbox + CancelMail(CancelledBy(db.bookings, c)), now);
  }

  // ---------------------------------------------------------------- violations, suspensions, settings

  /** Violations and suspensions change without touching bookings. */
  lemma RecordsSound(db: Db, vs: seq<Violation>, ss: seq<Suspension>, outbox: set<Mail>, now: int)
    requires Sound(db, now)
    requires SameViolations(db.violations, vs) && ViolationsValid(vs)
    requires SameSanctions(db.suspensions, ss) && SuspensionsValid(ss, now)
    requires OnlyOtherMail(db.outbox, outbox)
    ensures Sound(db.(violations := vs, suspensions := ss, outbox := outbox), now)
  {
    LedgerKept(db.bookings, db.bookings, db.violations, vs);
    StrikesKept(db.violations, vs, db.suspensions, ss);
    MailKept(db.bookings, db.bookings, db.outbox, outbox);
  }

  /** A violation recorded by staff, before the thresholds are applied. */
  lemma ManualSound(db: Db, v: Violation, now: int)
    requires Sound(db, now) && !v.noShow && v.consumedBy.None? && WindowValid(v)
    ensures Sound(db.(violations := db.violations + [v]), now)
  {
    RecordsSound(db, db.violations + [v], db.suspensions, db.outbox, now);
    assert db.(violations := db.violations + [v]) ==
      db.(violations := db.violations + [v], suspensions := db.suspensions, outbox := db.outbox);
  }

  lemma RecordSound(db: Db, now: int, user: nat, reasonGiven: bool, counts: bool, occurredAt: Option<int>,
                    incident: Option<nat>)
    requires Sound(db, now)
    requires Succeeded(RecordViolation(db, now, user, reasonGiven, counts, occurredAt, incident).exit)
    ensures Sound(RecordViolation(db, now, user, reasonGiven, counts, occurredAt, incident).db, now)
  {
    PolicyValid(db);
    var at := if occurredAt.Some? then occurredAt.value else now;
    var v := ManualViolation(user, at, CurrentPolicy(db), counts, incident);
    ManualSound(db, v, now);
    ThresholdsSound(db.(violations := db.violations + [v]), now);
  }

  lemma VoidSound(db: Db, now: int, id: nat, reasonGiven: bool)
    requires Sound(db, now) && Succeeded(VoidViolation(db, now, id, reasonGiven).exit)
    ensures Sound(VoidViolation(db, now, id, reasonGiven).db, now)
  {
    var r := VoidViolation(db, now, id, reasonGiven).db;
    RecordsSound(db, r.violations, db.suspensions, r.outbox, now);
  }

  lemma AdjustSound(db: Db, now: int, id: nat, endsAt: Option<int>, reasonGiven: bool)
    requires Sound(db, now) && Succeeded(Adjust(db, now, id, endsAt, reasonGiven).exit)
    ensures Sound(Adjust(db, now, id, endsAt, reasonGiven).db, now)
  {
    var r := Adjust(db, now, id, endsAt, reasonGiven).db;
    assert SuspensionValid(db.suspensions[id], now);
    RecordsSound(db, db.violations, r.suspensions, db.outbox, now);
  }

  lemma LiftSound(db: Db, now: int, id: nat, reasonGiven: bool)
    requires Sound(db, now) && Succeeded(Lift(db, now, id, reasonGiven).exit)
    ensures Sound(Lift(db, now, id, reasonGiven).db, now)
  {
    var r := Lift(db, now, id, reasonGiven).db;
    assert SuspensionValid(db.suspensions[id], now);
    RecordsSound(db, db.violations, r.suspensions, r.outbox, now);
  }

  lemma SuspendSound(db: Db, now: int, user: nat, endsAt: Option<int>, reasonGiven: bool)
    requires Sound(db, now) && Succeeded(Suspend(db, now, user, endsAt, reasonGiven).exit)
    ensures Sound(Suspend(db, now, user, endsAt, reasonGiven).db, now)
  {
    var active := ActiveSuspension(db.suspensions, user, now);
    if active.Some? {
      AdjustSound(db, now, active.value, endsAt, reasonGiven);
    } else {
      var ss := db.suspensions + [ManualSuspension(user, now, endsAt)];
      var outbox := db.outbox + {SuspensionApplied(|db.suspensions|)};
      RecordsSound(db, db.violations, ss, outbox, now);
      CancelOpenSound(db.(violations := db.violations, suspensions := ss, outbox := outbox), user, now, BySuspension);
    }
  }

  lemma VoidIncidentSound(db: Db, now: int, id: nat, read: Incident, reasonGiven: bool)
    requires Sound(db, now) && Succeeded(VoidIncident(db, now, id, read, reasonGiven).exit)
    ensures Sound(VoidIncident(db, now, id, read, reasonGiven).db, now)
  {
    var r := VoidIncident(db, now, id, read, reasonGiven).db;
    var extent := if id < |db.site.incidents| then db.site.incidents[id] else read;
    assert forall k :: 0 <= k < |db.violations| ==>
      r.violations[k] == VoidForIncident(db.violations[k], id, extent, db.bookings, now);
    RecordsSound(db, r.violations, db.suspensions, db.outbox, now);
  }

  lemma BookingBodySound(db: Db, now: int, op: BookingOp)
    requires Sound(db, now) && Succeeded(BookingBody(db, now, op).exit)
    ensures Sound(BookingBody(db, now, op).db, now)
  {
    match op
    case OpAdvance(actor, room, slot, details) => AdvanceSound(db, now, actor, room, slot, details);
    case OpStaffHold(actor, room, date, hour, end, details) =>
      StaffHoldSound(db, now, actor, room, date, hour, end, details);
    case OpDetails(actor, booking, details) => DetailsSound(db, now, actor, booking, details);
    case OpMove(actor, booking, room) => MoveSound(db, now, actor, booking, room);
    case OpDecide(booking, decision) => DecideSound(db, now, booking, decision);
    case OpCancel(actor, booking, staffAction) => CancelSound(db, now, actor, booking, staffAction);
    case OpCancelSeries(actor, series) => SeriesSound(db, now, actor, series);
    case OpUseNow(actor, room) => UseNowSound(db, now, actor, room);
    case OpCheckIn(actor, owner, booking, door, staffAssisted) =>
      CheckInSound(db, now, actor, owner, booking, door, staffAssisted);
  }

  lemma SanctionBodySound(db: Db, now: int, op: SanctionOp)
    requires Sound(db, now) && Succeeded(SanctionBody(db, now, op).exit)
    ensures Sound(SanctionBody(db, now, op).db, now)
  {
    match op
    case OpRecordViolation(user, reasonGiven, counts, occurredAt, incident) =>
      RecordSound(db, now, user, reasonGiven, counts, occurredAt, incident);
    case OpVoidViolation(violation, reasonGiven) => VoidSound(db, now, violation, reasonGiven);
    case OpSuspend(user, endsAt, reasonGiven) => SuspendSound(db, now, user, endsAt, reasonGiven);
    case OpAdjust(suspension, endsAt, reasonGiven) => AdjustSound(db, now, suspension, endsAt, reasonGiven);
    case OpLift(suspension, reasonGiven) => LiftSound(db, now, suspension, reasonGiven);
    case OpVoidIncident(incident, read, reasonGiven) => VoidIncidentSound(db, now, incident, read, reasonGiven);
  }

  lemma SiteBodySound(db: Db, now: int, op: SiteOp)
    requires Sound(db, now) && NoneDue(Completions, db.bookings, now) && Succeeded(SiteBody(db, now, op).exit)
    ensures Sound(SiteBody(db, now, op).db, now)
  {
    match op
    case OpCreateClosure(clock, scope, starts, ends, reason, reasonGiven, acknowledged) =>
      ClosureSound(db, now, clock, scope, starts, ends, reason, reasonGiven, acknowledged);
    case OpRevokeClosure(closure, reasonGiven) => RevokeSound(db, now, closure, reasonGiven);
    case OpCompleteEarly(booking, reasonGiven) => EarlySound(db, now, booking, reasonGiven);
    case OpResolveReview(booking, reasonGiven) => ReviewSound(db, now, booking, reasonGiven);
    case OpSetOverride(date, isOpen, open, close) =>
    case OpDeactivateRoom(room, reasonGiven) => RoomSound(db, now, room, reasonGiven);
    case OpDeactivateAccount(user, reasonGiven) => AccountSound(db, now, user, reasonGiven);
    case OpUpdatePolicy(policy) =>
    case OpCreateIncident(extent, reasonGiven, cancelOpen) => IncidentSound(db, now, extent, reasonGiven, cancelOpen);
  }

  /** Each operation the protocol can run on reconciled tables keeps the invariant when it succeeds. */
  lemma BodyKeepsSound(db: Db, now: int, op: Op)
    requires Sound(db, now) && Settled(db, now) && Succeeded(Body(db, now, op).exit)
    ensures Sound(Body(db, now, op).db, now)
  {
    match op
    case OnBookings(booking) => BookingBodySound(db, now, booking);
    case OnSanctions(sanction) => SanctionBodySound(db, now, sanction);
    case OnSite(site) => SiteBodySound(db, now, site);
  }
}
