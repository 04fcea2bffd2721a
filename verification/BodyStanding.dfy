/** Every operation that succeeds keeps each disciplined user in standing. */
module BodyStanding {
  import opened Slots
  import opened Tables
  import opened Rules
  import opened Changes
  import opened Reconcile
  import opened Bookings
  import opened Sanctions
  import opened Maintenance
  import opened Operations
  import opened Invariants
  import opened Ledgers
  import opened Soundness
  import opened BodySound
  import opened Standing

  /** The request is not a staff hold by the user, nor an adjustment of a suspension of the user
      that is no longer in force. */
  predicate Disciplined(db: Db, now: int, op: Op, user: nat) {
    && (op.OnBookings? && op.booking.OpStaffHold? ==> op.booking.actor.id != user)
    && (op.OnSanctions? && op.sanction.OpAdjust? ==> AdjustsInForce(db, now, op.sanction.suspension, user))
  }

  predicate AdjustsInForce(db: Db, now: int, id: nat, user: nat) {
    id < |db.suspensions| && db.suspensions[id].user == user ==> ActiveAt(db.suspensions[id], now)
  }

  lemma EditStanding(db: Db, next: Db, id: nat, row: Booking, user: nat, now: int)
    requires InStanding(db, user, now) && id < |db.bookings| && ClaimsNoMore(db.bookings[id], row)
    requires next.bookings == db.bookings[id := row] && next.suspensions == db.suspensions && next.site == db.site
    ensures InStanding(next, user, now)
  {
    StandingKept(db, next, user, now);
  }

  /** A row admitted by the quota and adjacency checks of its own user, who is not suspended. */
  lemma AdmitStanding(db: Db, next: Db, row: Booking, user: nat, now: int)
    requires InStanding(db, user, now) && next.bookings == db.bookings + [row]
    requires next.suspensions == db.suspensions && next.site == db.site
    requires row.user == user ==>
      && !IsSuspended(db, user, now)
      && QuotaAndAdjacency(db, user, row.slot, row.room, now).None?
    ensures InStanding(next, user, now)
  {
    if row.user != user {
      StandingKept(db, next, user, now);
    } else {
      OneMoreHeld(db.bookings, row, user, now);
      forall date
        ensures QuotaUsed(next.bookings, user, date) <= LargestQuota(db.site.policies)
      {
        OneMoreCharged(db.bookings, row, user, date);
        assert QuotaUsed(db.bookings, user, date) <= LargestQuota(db.site.policies);
      }
      assert !IsSuspended(next, user, now);
    }
  }

  lemma HoldStanding(db: Db, now: int, actor: User, room: Room, date: int, hour: int, end: int, details: Details,
                     user: nat)
    requires InStanding(db, user, now) && actor.id != user
    requires Succeeded(CreateStaffHold(db, now, actor, room, date, hour, end, details).exit)
    ensures InStanding(CreateStaffHold(db, now, actor, room, date, hour, end, details).db, user, now)
  {
    StandingKept(db, CreateStaffHold(db, now, actor, room, date, hour, end, details).db, user, now);
  }

  /** One suspension replaced: lifting shortens it, and one in force may be given a new end. */
  lemma ReplaceStanding(db: Db, next: Db, id: nat, s: Suspension, user: nat, now: int)
    requires Sound(db, now) && InStanding(db, user, now) && id < |db.suspensions|
    requires next.bookings == db.bookings && next.site == db.site
    requires next.suspensions == db.suspensions[id := s]
    requires s.user == db.suspensions[id].user && s.startsAt == db.suspensions[id].startsAt
    requires db.suspensions[id].user == user ==>
      || ActiveAt(db.suspensions[id], now)
      || (s.liftedAt == Some(now) && s.endsAt == db.suspensions[id].endsAt && db.suspensions[id].liftedAt.None?)
    ensures InStanding(next, user, now)
  {
    if s.user != user {
      LaterReflexive(db.bookings);
      LaterIsNoGain(db.bookings, db.bookings, user);
      StandingKept(db, next, user, now);
    } else {
      var ss, ts := db.suspensions, next.suspensions;
      forall i, j | 0 <= i < j < |ts| && ts[i].user == user && ts[j].user == user
        ensures EffectiveEnd(ts[i]).Some? && EffectiveEnd(ts[i]).value <= ts[j].startsAt
      {
        assert SuspensionValid(ss[j], now);
      }
      if IsSuspended(next, user, now) {
        var i :| 0 <= i < |ts| && ts[i].user == user && ActiveAt(ts[i], now);
        assert ActiveAt(ss[i], now);
      }
    }
  }

  lemma SuspendStanding(db: Db, now: int, punished: nat, endsAt: Option<int>, reasonGiven: bool, user: nat)
    requires Sound(db, now) && InStanding(db, user, now)
    requires Succeeded(Suspend(db, now, punished, endsAt, reasonGiven).exit)
    ensures InStanding(Suspend(db, now, punished, endsAt, reasonGiven).db, user, now)
  {
    var active := ActiveSuspension(db.suspensions, punished, now);
    var next := Suspend(db, now, punished, endsAt, reasonGiven).db;
    if active.Some? {
      ReplaceStanding(db, next, active.value, next.suspensions[active.value], user, now);
    } else {
      var s := ManualSuspension(punished, now, endsAt);
      MapIsLater(CancelOpenOf(punished, now, BySuspension), db.bookings);
      LaterIsNoGain(db.bookings, next.bookings, user);
      if user == punished {
        CapsKept(db, next, user, now);
        SuspensionAdded(db.suspensions, s, user, now);
        NothingOpenLeft(db, user, now, BySuspension);
      } else {
        StandingKept(db, next, user, now);
      }
    }
  }

  /** Violations change and nothing else the rules look at. */
  lemma ViolationsStanding(db: Db, next: Db, user: nat, now: int)
    requires InStanding(db, user, now)
    requires next.bookings == db.bookings && next.suspensions == db.suspensions && PoliciesGrow(db.site, next.site)
    ensures InStanding(next, user, now)
  {
    LaterReflexive(db.bookings);
    LaterIsNoGain(db.bookings, db.bookings, user);
    StandingKept(db, next, user, now);
  }

  lemma RecordStanding(db: Db, now: int, who: nat, reasonGiven: bool, counts: bool, occurredAt: Option<int>,
                       incident: Option<nat>, user: nat)
    requires Sound(db, now) && InStanding(db, user, now)
    requires Succeeded(RecordViolation(db, now, who, reasonGiven, counts, occurredAt, incident).exit)
    ensures InStanding(RecordViolation(db, now, who, reasonGiven, counts, occurredAt, incident).db, user, now)
  {
    PolicyValid(db);
    var at := if occurredAt.Some? then occurredAt.value else now;
    var v := ManualViolation(who, at, CurrentPolicy(db), counts, incident);
    var mid := db.(violations := db.violations + [v]);
    ManualSound(db, v, now);
    ViolationsStanding(db, mid, user, now);
    ThresholdsStanding(mid, user, now);
  }

  lemma TwoMapsStanding(db: Db, next: Db, c: RowChange, e: RowChange, user: nat, now: int)
    requires InStanding(db, user, now)
    requires next.bookings == MapRows(MapRows(db.bookings, c), e)
    requires next.suspensions == db.suspensions && next.site == db.site
    ensures InStanding(next, user, now)
  {
    var mid := db.(bookings := MapRows(db.bookings, c));
    MapStanding(db, mid, c, user, now);
    MapStanding(mid, next, e, user, now);
  }

  /** Bodies that edit one booking row: none gives its user a further claim. */
  lemma EditingBodies(db: Db, now: int, op: BookingOp, user: nat)
    requires InStanding(db, user, now) && Succeeded(BookingBody(db, now, op).exit)
    requires op.OpDetails? || op.OpMove? || op.OpDecide? || op.OpCancel? || op.OpCheckIn?
    ensures InStanding(BookingBody(db, now, op).db, user, now)
  {
    var next := BookingBody(db, now, op).db;
    EditStanding(db, next, op.booking, next.bookings[op.booking], user, now);
  }

  lemma AdvanceStanding(db: Db, now: int, actor: User, room: Room, slot: int, details: Details, user: nat)
    requires InStanding(db, user, now) && Succeeded(CreateAdvance(db, now, actor, room, slot, details).exit)
    ensures InStanding(CreateAdvance(db, now, actor, room, slot, details).db, user, now)
  {
    AdmitStanding(db, CreateAdvance(db, now, actor, room, slot, details).db,
                  AdvanceRow(db, now, actor, room, slot, details), user, now);
  }

  lemma UseNowStanding(db: Db, now: int, actor: User, room: Room, user: nat)
    requires InStanding(db, user, now) && Succeeded(UseNow(db, now, actor, room).exit)
    ensures InStanding(UseNow(db, now, actor, room).db, user, now)
  {
    AdmitStanding(db, UseNow(db, now, actor, room).db, WalkInRow(db, now, actor, room), user, now);
  }

  lemma BookingBodyStanding(db: Db, now: int, op: BookingOp, user: nat)
    requires InStanding(db, user, now) && Succeeded(BookingBody(db, now, op).exit)
    requires op.OpStaffHold? ==> op.actor.id != user
    ensures InStanding(BookingBody(db, now, op).db, user, now)
  {
    match op
    case OpAdvance(actor, room, slot, details) => AdvanceStanding(db, now, actor, room, slot, details, user);
    case OpUseNow(actor, room) => UseNowStanding(db, now, actor, room, user);
    case OpStaffHold(actor, room, date, hour, end, details) =>
      HoldStanding(db, now, actor, room, date, hour, end, details, user);
    case OpCancelSeries(actor, series) =>
      MapStanding(db, CancelSeries(db, now, actor, series).db, CancelOccurrences(series, now), user, now);
    case _ => EditingBodies(db, now, op, user);
  }

  lemma AdjustStanding(db: Db, now: int, id: nat, endsAt: Option<int>, reasonGiven: bool, user: nat)
    requires Sound(db, now) && InStanding(db, user, now) && AdjustsInForce(db, now, id, user)
    requires Succeeded(Adjust(db, now, id, endsAt, reasonGiven).exit)
    ensures InStanding(Adjust(db, now, id, endsAt, reasonGiven).db, user, now)
  {
    var next := Adjust(db, now, id, endsAt, reasonGiven).db;
    ReplaceStanding(db, next, id, next.suspensions[id], user, now);
  }

  lemma LiftStanding(db: Db, now: int, id: nat, reasonGiven: bool, user: nat)
    requires Sound(db, now) && InStanding(db, user, now) && Succeeded(Lift(db, now, id, reasonGiven).exit)
    ensures InStanding(Lift(db, now, id, reasonGiven).db, user, now)
  {
    var next := Lift(db, now, id, reasonGiven).db;
    ReplaceStanding(db, next, id, next.suspensions[id], user, now);
  }

  lemma SanctionBodyStanding(db: Db, now: int, op: SanctionOp, user: nat)
    requires Sound(db, now) && InStanding(db, user, now) && Succeeded(SanctionBody(db, now, op).exit)
    requires op.OpAdjust? ==> AdjustsInForce(db, now, op.suspension, user)
    ensures InStanding(SanctionBody(db, now, op).db, user, now)
  {
    var next := SanctionBody(db, now, op).db;
    match op
    case OpRecordViolation(who, reasonGiven, counts, occurredAt, incident) =>
      RecordStanding(db, now, who, reasonGiven, counts, occurredAt, incident, user);
    case OpSuspend(who, endsAt, reasonGiven) => SuspendStanding(db, now, who, endsAt, reasonGiven, user);
    case OpAdjust(id, endsAt, reasonGiven) => AdjustStanding(db, now, id, endsAt, reasonGiven, user);
    case OpLift(id, reasonGiven) => LiftStanding(db, now, id, reasonGiven, user);
    case OpVoidViolation(_, _) => ViolationsStanding(db, next, user, now);
    case OpVoidIncident(_, _, _) => ViolationsStanding(db, next, user, now);
  }

  lemma RoomStanding(db: Db, now: int, room: nat, reasonGiven: bool, user: nat)
    requires InStanding(db, user, now) && Succeeded(DeactivateRoom(db, now, room, reasonGiven).exit)
    ensures InStanding(DeactivateRoom(db, now, room, reasonGiven).db, user, now)
  {
    TwoMapsStanding(db, DeactivateRoom(db, now, room, reasonGiven).db, CancelOpenIn(room, now),
                    FlagInUseIn(room), user, now);
  }

  lemma AccountStanding(db: Db, now: int, account: User, reasonGiven: bool, user: nat)
    requires InStanding(db, user, now) && Succeeded(DeactivateAccount(db, now, account, reasonGiven).exit)
    ensures InStanding(DeactivateAccount(db, now, account, reasonGiven).db, user, now)
  {
    TwoMapsStanding(db, DeactivateAccount(db, now, account, reasonGiven).db, CancelOpenOf(account.id, now, ByAccount),
                    FlagInUseOf(account.id), user, now);
  }

  lemma SessionStanding(db: Db, now: int, op: SiteOp, user: nat)
    requires InStanding(db, user, now) && Succeeded(SiteBody(db, now, op).exit)
    requires op.OpCompleteEarly? || op.OpResolveReview?
    ensures InStanding(SiteBody(db, now, op).db, user, now)
  {
    var next := SiteBody(db, now, op).db;
    EditStanding(db, next, op.booking, next.bookings[op.booking], user, now);
  }

  lemma SiteBodyStanding(db: Db, now: int, op: SiteOp, user: nat)
    requires InStanding(db, user, now) && Succeeded(SiteBody(db, now, op).exit)
    ensures InStanding(SiteBody(db, now, op).db, user, now)
  {
    var next := SiteBody(db, now, op).db;
    match op
    case OpCreateClosure(clock, scope, starts, ends, _, _, _) =>
      MapStanding(db, next, CloseOver(scope, starts, ends, now, clock), user, now);
    case OpCreateIncident(extent, _, cancelOpen) =>
      MapStanding(db, next, Disrupt(|db.site.incidents|, extent, now, cancelOpen), user, now);
    case OpDeactivateRoom(room, reasonGiven) => RoomStanding(db, now, room, reasonGiven, user);
    case OpDeactivateAccount(account, reasonGiven) => AccountStanding(db, now, account, reasonGiven, user);
    case OpCompleteEarly(_, _) => SessionStanding(db, now, op, user);
    case OpResolveReview(_, _) => SessionStanding(db, now, op, user);
    case _ => ViolationsStanding(db, next, user, now);
  }

  lemma BodyKeepsStanding(db: Db, now: int, op: Op, user: nat)
    requires Sound(db, now) && InStanding(db, user, now) && Succeeded(Body(db, now, op).exit)
    requires Disciplined(db, now, op, user)
    ensures InStanding(Body(db, now, op).db, user, now)
  {
    match op
    case OnBookings(booking) => BookingBodyStanding(db, now, booking, user);
    case OnSanctions(sanction) => SanctionBodyStanding(db, now, sanction, user);
    case OnSite(site) => SiteBodyStanding(db, now, site, user);
  }
}
