/** Provenance and notices: what every row and every queued message refers to, and which messages an
    operation really adds. A message whose key is queued already is not queued again. */
module Notices {
  import opened Slots
  import opened Tables
  import opened Rules
  import opened Changes
  import opened Reconcile
  import opened Bookings
  import opened Sanctions
  import opened Maintenance
  import opened Operations
  import opened Protocol
  import opened Invariants
  import opened Ledgers
  import opened Soundness
  import opened Evolution
  import opened Machine
  import opened Examples

  // ---------------------------------------------------------------- the invariant

  /** A walk-in that names the booking it took over names somebody else's missed booking of the same room
      and hour; incidents and policy versions named exist. */
  ghost predicate Sourced(b: Booking, bs: seq<Booking>, site: Site) {
    && (b.releasedFrom.Some? ==>
          b.walkIn && b.releasedFrom.value < |bs| && ReleasedBy(bs[b.releasedFrom.value], b.user, b.room, b.slot))
    && (b.incident.Some? ==> b.incident.value < |site.incidents|)
    && b.policy <= |site.policies|
    && (b.walkIn ==> !Open(b.status))
  }

  /** What a queued message says has happened. */
  ghost predicate Justified(m: Mail, bs: seq<Booking>, ss: seq<Suspension>) {
    match m
    case BookingChanged(i, version) => i < |bs| && version <= bs[i].detailsVersion
    case BookingMovedPending(i, version) => i < |bs| && version <= bs[i].detailsVersion
    case BookingConfirmation(i) => i < |bs|
    case BookingPending(i) => i < |bs|
    case BookingReminder(i) => i < |bs| && !bs[i].staff && !bs[i].walkIn
    case SuspensionApplied(s) => s < |ss|
    case SuspensionEnded(s) => s < |ss|
    case SuspensionLifted(s) => s < |ss| && ss[s].liftedAt.Some?
    case _ => true
  }

  /** Every suspension was announced, and so were its lift and the end it was marked as announced for. */
  ghost predicate Told(s: nat, ss: seq<Suspension>, outbox: set<Mail>)
    requires s < |ss|
  {
    && SuspensionApplied(s) in outbox
    && (ss[s].liftedAt.Some? ==> SuspensionLifted(s) in outbox)
    && (ss[s].endNotifiedAt.Some? ==> SuspensionEnded(s) in outbox)
  }

  ghost predicate Traceable(db: Db) {
    && (forall i :: 0 <= i < |db.bookings| ==> Sourced(db.bookings[i], db.bookings, db.site))
    && (forall m :: m in db.outbox ==> Justified(m, db.bookings, db.suspensions))
    && (forall s :: 0 <= s < |db.suspensions| ==> Told(s, db.suspensions, db.outbox))
  }

  // ---------------------------------------------------------------- steps that keep it

  /** What a step may do to a stored row besides ageing it. */
  ghost predicate Carried(b: Booking, c: Booking, site: Site) {
    && c.releasedFrom == b.releasedFrom
    && b.detailsVersion <= c.detailsVersion
    && (c.incident == b.incident || (c.incident.Some? && c.incident.value < |site.incidents|))
  }

  ghost predicate SiteGrows(a: Site, b: Site) {
    |a.incidents| <= |b.incidents| && |a.policies| <= |b.policies|
  }

  /** The step ages what is stored, adds only sourced rows and justified messages, and tells of every
      suspension it gives, lifts or marks as over. */
  ghost predicate Traced(db: Db, next: Db) {
    && SiteGrows(db.site, next.site)
    && |db.bookings| <= |next.bookings|
    && (forall i :: 0 <= i < |db.bookings| ==> Carried(db.bookings[i], next.bookings[i], next.site))
    && (forall i :: |db.bookings| <= i < |next.bookings| ==> Sourced(next.bookings[i], next.bookings, next.site))
    && db.outbox <= next.outbox
    && (forall m :: m in next.outbox && m !in db.outbox ==> Justified(m, next.bookings, next.suspensions))
    && |db.suspensions| <= |next.suspensions|
    && (forall s :: 0 <= s < |next.suspensions| ==>
          Tells(if s < |db.suspensions| then Some(db.suspensions[s]) else None, next.suspensions[s], s, next.outbox))
  }

  /** Whatever is new about the suspension is announced. */
  ghost predicate Tells(before: Option<Suspension>, after: Suspension, s: nat, outbox: set<Mail>) {
    && (before.None? ==> SuspensionApplied(s) in outbox)
    && (after.liftedAt.Some? && (before.Some? ==> before.value.liftedAt.None?) ==> SuspensionLifted(s) in outbox)
    && (after.endNotifiedAt.Some? && (before.Some? ==> before.value.endNotifiedAt.None?) ==> SuspensionEnded(s) in outbox)
  }

  lemma RowStaysSourced(db: Db, next: Db, i: nat)
    requires Evolves(db, next) && Traced(db, next)
    requires i < |db.bookings| && Sourced(db.bookings[i], db.bookings, db.site)
    ensures Sourced(next.bookings[i], next.bookings, next.site)
  {
    var b, c := db.bookings[i], next.bookings[i];
    assert Aged(b, c) && Carried(b, c, next.site);
    if b.releasedFrom.Some? {
      var j := b.releasedFrom.value;
      assert Aged(db.bookings[j], next.bookings[j]);
    }
  }

  lemma StaysJustified(db: Db, next: Db, m: Mail)
    requires Evolves(db, next) && Traced(db, next) && Justified(m, db.bookings, db.suspensions)
    ensures Justified(m, next.bookings, next.suspensions)
  {
    match m
    case BookingChanged(i, _) => assert Carried(db.bookings[i], next.bookings[i], next.site);
    case BookingMovedPending(i, _) => assert Carried(db.bookings[i], next.bookings[i], next.site);
    case BookingReminder(i) => assert Aged(db.bookings[i], next.bookings[i]);
    case SuspensionLifted(s) => assert AgedSuspension(db.suspensions[s], next.suspensions[s]);
    case _ =>
  }

  lemma TracedKeeps(db: Db, next: Db)
    requires Traceable(db) && Evolves(db, next) && Traced(db, next)
    ensures Traceable(next)
  {
    forall i | 0 <= i < |next.bookings|
      ensures Sourced(next.bookings[i], next.bookings, next.site)
    {
      if i < |db.bookings| {
        RowStaysSourced(db, next, i);
      }
    }
    forall m | m in next.outbox
      ensures Justified(m, next.bookings, next.suspensions)
    {
      if m in db.outbox {
        StaysJustified(db, next, m);
      }
    }
    forall s | 0 <= s < |next.suspensions|
      ensures Told(s, next.suspensions, next.outbox)
    {
      if s < |db.suspensions| {
        assert Told(s, db.suspensions, db.outbox);
        assert Tells(Some(db.suspensions[s]), next.suspensions[s], s, next.outbox);
      } else {
        assert Tells(None, next.suspensions[s], s, next.outbox);
      }
    }
  }

  // ---------------------------------------------------------------- reconciliation

  /** Messages about one booking that only its status justifies. */
  predicate Plain(m: Mail) {
    m.BookingCancelled? || m.BookingNoShow? || m.BookingRejected? || m.BookingApproved? || m.VoidedUnderReview?
  }

  lemma ApplyCarries(c: RowChange, b: Booking, site: Site)
    requires c.Disrupt? ==> c.incident < |site.incidents|
    ensures Carried(b, Apply(c, b), site)
  {
  }

  lemma MapTraced(db: Db, next: Db, c: RowChange)
    requires next.bookings == MapRows(db.bookings, c) && next.suspensions == db.suspensions
    requires SiteGrows(db.site, next.site) && (c.Disrupt? ==> c.incident < |next.site.incidents|)
    requires db.outbox <= next.outbox && forall m :: m in next.outbox && m !in db.outbox ==> Plain(m)
    ensures Traced(db, next)
  {
    forall i | 0 <= i < |db.bookings|
      ensures Carried(db.bookings[i], next.bookings[i], next.site)
    {
      ApplyCarries(c, db.bookings[i], next.site);
    }
  }

  /** A new suspension, told of, with its user's open bookings cancelled. */
  lemma SuspensionTraced(db: Db, next: Db, s: Suspension, c: RowChange)
    requires next.bookings == MapRows(db.bookings, c) && !c.Disrupt? && next.site == db.site
    requires next.suspensions == db.suspensions + [s] && s.liftedAt.None? && s.endNotifiedAt.None?
    requires next.outbox == db.outbox + {SuspensionApplied(|db.suspensions|)} + CancelMail(CancelledBy(db.bookings, c))
    ensures Traced(db, next)
  {
    forall i | 0 <= i < |db.bookings|
      ensures Carried(db.bookings[i], next.bookings[i], next.site)
    {
      ApplyCarries(c, db.bookings[i], next.site);
    }
  }

  lemma {:induction false} SuspendAllTraceable(db: Db, users: seq<nat>, now: int)
    requires Traceable(db)
    ensures Traceable(SuspendAll(db, users, now))
    decreases |users|
  {
    if users != [] {
      var front, last := users[..|users| - 1], users[|users| - 1];
      SuspendAllTraceable(db, front, now);
      var rest := SuspendAll(db, front, now);
      if !IsSuspended(rest, last, now) {
        AutoSuspendEvolves(rest, last, now);
        SuspensionTraced(rest, AutoSuspend(rest, last, now), AutomaticSuspension(last, now, CurrentPolicy(rest)),
                         CancelOpenOf(last, now, BySuspension));
        TracedKeeps(rest, AutoSuspend(rest, last, now));
      }
    }
  }

  lemma FinishedTraced(db: Db, now: int)
    ensures Traced(db, NotifyFinished(db, now)) && Evolves(db, NotifyFinished(db, now))
  {
    var next := NotifyFinished(db, now);
    forall s | 0 <= s < |db.suspensions|
      ensures AgedSuspension(db.suspensions[s], next.suspensions[s])
      ensures Tells(Some(db.suspensions[s]), next.suspensions[s], s, next.outbox)
    {
      assert next.suspensions[s] == MarkEnded(db.suspensions[s], now);
    }
  }

  lemma SanctionTraceable(db: Db, now: int)
    requires Traceable(db)
    ensures Traceable(Sanction(db, now))
  {
    SuspendAllTraceable(db, Offenders(db, now), now);
    FinishedTraced(ApplyThresholds(db, now), now);
    TracedKeeps(ApplyThresholds(db, now), Sanction(db, now));
  }

  lemma PassTraceable(db: Db, next: Db, c: RowChange)
    requires Traceable(db) && next.bookings == MapRows(db.bookings, c) && !c.Disrupt?
    requires next.suspensions == db.suspensions && next.site == db.site
    requires ViolationsAge(db.violations, next.violations)
    requires db.outbox <= next.outbox && forall m :: m in next.outbox && m !in db.outbox ==> Plain(m)
    ensures Traceable(next)
  {
    MapEvolves(db, next, c);
    MapTraced(db, next, c);
    TracedKeeps(db, next);
  }

  lemma RunTraceable(db: Db, now: int, budget: nat)
    requires Traceable(db)
    ensures Traceable(Run(db, now, budget).db)
  {
    if OverBudget(Approvals, db, now, budget) {
      return;
    }
    var a := ExpireApprovals(db, now);
    PassTraceable(db, a, ExpireApproval(now));
    if OverBudget(NoShows, a, now, budget) {
      return;
    }
    var b := RecordNoShows(a, now);
    PassTraceable(a, b, Forfeit(now, a.site.incidents));
    if OverBudget(Holds, b, now, budget) {
      return;
    }
    var c := StartHolds(b, now);
    PassTraceable(b, c, StartHold(now));
    if OverBudget(Completions, c, now, budget) {
      return;
    }
    PassTraceable(c, CompleteSessions(c, now), Complete(now));
    SanctionTraceable(CompleteSessions(c, now), now);
  }

  // ---------------------------------------------------------------- operations

  /** New rows, and one message about each or none. */
  lemma AppendTraced(db: Db, next: Db)
    requires |db.bookings| <= |next.bookings| && next.bookings[..|db.bookings|] == db.bookings
    requires forall i :: |db.bookings| <= i < |next.bookings| ==> Sourced(next.bookings[i], next.bookings, next.site)
    requires next.suspensions == db.suspensions && next.site == db.site && db.outbox <= next.outbox
    requires forall m :: m in next.outbox && m !in db.outbox ==> Justified(m, next.bookings, next.suspensions)
    ensures Traced(db, next)
  {
    forall i | 0 <= i < |db.bookings|
      ensures next.bookings[i] == db.bookings[i]
    {
      assert next.bookings[..|db.bookings|][i] == next.bookings[i];
    }
  }

  lemma EditTraced(db: Db, next: Db, id: nat)
    requires id < |db.bookings| == |next.bookings| && next.bookings == db.bookings[id := next.bookings[id]]
    requires Carried(db.bookings[id], next.bookings[id], next.site)
    requires next.suspensions == db.suspensions && next.site == db.site && db.outbox <= next.outbox
    requires forall m :: m in next.outbox && m !in db.outbox ==> Justified(m, next.bookings, next.suspensions)
    ensures Traced(db, next)
  {
  }

  lemma WalkInTraced(db: Db, now: int, actor: User, room: Room)
    requires Succeeded(UseNow(db, now, actor, room).exit)
    ensures Traced(db, UseNow(db, now, actor, room).db)
  {
    var next := UseNow(db, now, actor, room).db;
    var from := ReleasedFrom(db.bookings, actor.id, room.id, FloorToSlot(now));
    assert from.Some? ==> next.bookings[from.value] == db.bookings[from.value];
    AppendTraced(db, next);
  }

  lemma HoldTraced(db: Db, now: int, actor: User, room: Room, date: int, hour: int, end: int, details: Details)
    requires Succeeded(CreateStaffHold(db, now, actor, room, date, hour, end, details).exit)
    ensures Traced(db, CreateStaffHold(db, now, actor, room, date, hour, end, details).db)
  {
    var next := CreateStaffHold(db, now, actor, room, date, hour, end, details).db;
    var rows := HoldRows(db, now, actor, room, date, hour, end - hour, details);
    assert forall i :: |db.bookings| <= i < |next.bookings| ==> next.bookings[i] == rows[i - |db.bookings|];
    AppendTraced(db, next);
  }

  lemma BookingBodyTraced(db: Db, now: int, op: BookingOp)
    requires Succeeded(BookingBody(db, now, op).exit)
    ensures Traced(db, BookingBody(db, now, op).db)
  {
    var next := BookingBody(db, now, op).db;
    match op
    case OpAdvance(_, _, _, _) => AppendTraced(db, next);
    case OpUseNow(actor, room) => WalkInTraced(db, now, actor, room);
    case OpStaffHold(actor, room, date, hour, end, details) => HoldTraced(db, now, actor, room, date, hour, end, details);
    case OpCancelSeries(_, series) => MapTraced(db, next, CancelOccurrences(series, now));
    case _ => EditTraced(db, next, op.booking);
  }

  lemma SameRowsTraced(db: Db, next: Db)
    requires next.bookings == db.bookings && next.suspensions == db.suspensions && SiteGrows(db.site, next.site)
    requires db.outbox <= next.outbox && forall m :: m in next.outbox && m !in db.outbox ==> Plain(m)
    ensures Traced(db, next)
  {
  }

  lemma SuspendTraced(db: Db, now: int, user: nat, endsAt: Option<int>, reasonGiven: bool)
    requires Succeeded(Suspend(db, now, user, endsAt, reasonGiven).exit)
    ensures Traced(db, Suspend(db, now, user, endsAt, reasonGiven).db)
  {
    if ActiveSuspension(db.suspensions, user, now).None? {
      SuspensionTraced(db, Suspend(db, now, user, endsAt, reasonGiven).db, ManualSuspension(user, now, endsAt),
                       CancelOpenOf(user, now, BySuspension));
    }
  }

  lemma SanctionBodyTraceable(db: Db, now: int, op: SanctionOp)
    requires Traceable(db) && Succeeded(SanctionBody(db, now, op).exit)
    ensures Traceable(SanctionBody(db, now, op).db)
  {
    var next := SanctionBody(db, now, op).db;
    match op
    case OpRecordViolation(user, _, counts, occurredAt, incident) =>
      var at := if occurredAt.Some? then occurredAt.value else now;
      SuspendAfterRecord(db, ManualViolation(user, at, CurrentPolicy(db), counts, incident), now);
    case OpSuspend(user, endsAt, reasonGiven) =>
      SuspendTraced(db, now, user, endsAt, reasonGiven);
      SanctionBodyEvolves(db, now, op);
      TracedKeeps(db, next);
    case OpVoidIncident(_, _, _) =>
      SameRowsTraced(db, next);
      SanctionBodyEvolves(db, now, op);
      TracedKeeps(db, next);
    case _ =>
      SanctionBodyEvolves(db, now, op);
      TracedKeeps(db, next);
  }

  lemma SuspendAfterRecord(db: Db, v: Violation, now: int)
    requires Traceable(db)
    ensures Traceable(ApplyThresholds(db.(violations := db.violations + [v]), now))
  {
    var mid := db.(violations := db.violations + [v]);
    assert Traceable(mid);
    SuspendAllTraceable(mid, Offenders(mid, now), now);
  }

  lemma TwoMapsTraceable(db: Db, mid: Db, next: Db, c: RowChange, e: RowChange)
    requires Traceable(db) && !c.Disrupt? && !e.Disrupt?
    requires mid == db.(bookings := MapRows(db.bookings, c))
    requires next == mid.(bookings := MapRows(mid.bookings, e), outbox := next.outbox)
    requires db.outbox <= next.outbox && forall m :: m in next.outbox && m !in db.outbox ==> Plain(m)
    ensures Traceable(next)
  {
    PassTraceable(db, mid, c);
    PassTraceable(mid, next, e);
  }

  lemma SiteBodyTraceable(db: Db, now: int, op: SiteOp)
    requires Traceable(db) && Succeeded(SiteBody(db, now, op).exit)
    ensures Traceable(SiteBody(db, now, op).db)
  {
    var next := SiteBody(db, now, op).db;
    SiteBodyEvolves(db, now, op);
    match op
    case OpCreateClosure(clock, scope, starts, ends, _, _, _) =>
      MapTraced(db, next, CloseOver(scope, starts, ends, now, clock));
      TracedKeeps(db, next);
    case OpCreateIncident(extent, _, cancelOpen) =>
      MapTraced(db, next, Disrupt(|db.site.incidents|, extent, now, cancelOpen));
      TracedKeeps(db, next);
    case OpDeactivateRoom(room, _) =>
      TwoMapsTraceable(db, db.(bookings := MapRows(db.bookings, CancelOpenIn(room, now))), next, CancelOpenIn(room, now),
                       FlagInUseIn(room));
    case OpDeactivateAccount(account, _) =>
      var c := CancelOpenOf(account.id, now, ByAccount);
      TwoMapsTraceable(db, db.(bookings := MapRows(db.bookings, c)), next, c, FlagInUseOf(account.id));
    case OpCompleteEarly(id, _) =>
      EditTraced(db, next, id);
      TracedKeeps(db, next);
    case OpResolveReview(id, _) =>
      EditTraced(db, next, id);
      TracedKeeps(db, next);
    case _ =>
      SameRowsTraced(db, next);
      TracedKeeps(db, next);
  }

  lemma BodyKeepsTraceable(db: Db, now: int, op: Op)
    requires Traceable(db) && Succeeded(Body(db, now, op).exit)
    ensures Traceable(Body(db, now, op).db)
  {
    match op
    case OnBookings(booking) =>
      BookingBodyTraced(db, now, booking);
      BookingBodyEvolves(db, now, booking);
      TracedKeeps(db, BookingBody(db, now, booking).db);
    case OnSanctions(sanction) => SanctionBodyTraceable(db, now, sanction);
    case OnSite(site) => SiteBodyTraceable(db, now, site);
  }

  // ---------------------------------------------------------------- whole histories

  lemma DidTraceable(db: Db, next: Db, now: int, budget: nat, op: Op)
    requires Traceable(db) && Did(db, next, now, budget, op)
    ensures Traceable(next)
  {
    RunTraceable(db, now, budget);
    var rec := Run(db, now, budget).db;
    if next != db.(requests := next.requests) && next != rec {
      BodyKeepsTraceable(rec, now, op);
    }
  }

  lemma RemindTraceable(db: Db, now: int)
    requires Traceable(db)
    ensures Traceable(Remind(db, now))
  {
    EvolvesReflexive(db, Remind(db, now));
    TracedKeeps(db, Remind(db, now));
  }

  lemma NextTraceable(s: State, e: Event, budget: nat)
    requires Traceable(s.db)
    ensures Traceable(Next(s, e, budget).db)
  {
    match e
    case Ask(attempts, call, op) =>
      AskDid(s.db, attempts, call, op, budget);
      if Deciding(attempts).Granted? {
        DidTraceable(s.db, Next(s, e, budget).db, Deciding(attempts).now, budget, op);
      }
    case Tick(now) =>
      RunTraceable(s.db, now, budget);
      RemindTraceable(Run(s.db, now, budget).db, now);
    case Timetable(_) =>
    case Prune(_) =>
  }

  /** Along any history every walk-in that took over a missed hour names the booking that missed it, every
      suspension, lift and end is announced, and every queued message is about something that happened. */
  lemma {:induction false} EveryHistoryIsTraceable(s: State, events: seq<Event>, budget: nat)
    requires Traceable(s.db)
    ensures Traceable(Play(s, events, budget).db)
    decreases |events|
  {
    if events != [] {
      EveryHistoryIsTraceable(s, events[..|events| - 1], budget);
      NextTraceable(Play(s, events[..|events| - 1], budget), events[|events| - 1], budget);
    }
  }

  // ---------------------------------------------------------------- fresh messages

  /** Requests that tell somebody about what they did to one booking or one suspension. */
  predicate TellsSomebody(op: Op) {
    || (op.OnBookings? && (op.booking.OpAdvance? || op.booking.OpUseNow? || op.booking.OpDetails? || op.booking.OpMove?
                           || op.booking.OpCancel?))
    || (op.OnSanctions? && op.sanction.OpLift?)
  }

  /** Such a request always queues a message that was not queued before, so its message is never swallowed
      as a duplicate: the details version keeps a move and an edit of one booking apart. */
  lemma MessageIsFresh(db: Db, now: int, op: Op)
    requires Traceable(db) && MailSound(db.bookings, db.outbox) && Succeeded(Body(db, now, op).exit) && TellsSomebody(op)
    ensures exists m :: m in Body(db, now, op).db.outbox && m !in db.outbox
  {
    var next := Body(db, now, op).db;
    match op
    case OnBookings(booking) => BookingMessageIsFresh(db, now, booking);
    case OnSanctions(sanction) =>
      assert !Justified(SuspensionLifted(sanction.suspension), db.bookings, db.suspensions);
      assert SuspensionLifted(sanction.suspension) in next.outbox;
  }

  lemma BookingMessageIsFresh(db: Db, now: int, op: BookingOp)
    requires Traceable(db) && MailSound(db.bookings, db.outbox) && Succeeded(BookingBody(db, now, op).exit)
    requires op.OpAdvance? || op.OpUseNow? || op.OpDetails? || op.OpMove? || op.OpCancel?
    ensures exists m :: m in BookingBody(db, now, op).db.outbox && m !in db.outbox
  {
    var next, id := BookingBody(db, now, op).db, |db.bookings|;
    if op.OpAdvance? || op.OpUseNow? {
      assert !Justified(BookingPending(id), db.bookings, db.suspensions);
      assert !Justified(BookingConfirmation(id), db.bookings, db.suspensions);
      assert BookingPending(id) in next.outbox || BookingConfirmation(id) in next.outbox;
    } else if op.OpCancel? {
      assert BookingCancelled(op.booking) in next.outbox && BookingCancelled(op.booking) !in db.outbox;
    } else {
      var version := db.bookings[op.booking].detailsVersion + 1;
      assert !Justified(BookingChanged(op.booking, version), db.bookings, db.suspensions);
      assert !Justified(BookingMovedPending(op.booking, version), db.bookings, db.suspensions);
      assert BookingChanged(op.booking, version) in next.outbox || BookingMovedPending(op.booking, version) in next.outbox;
    }
  }

  // ---------------------------------------------------------------- one notice for each key

  lemma {:induction false} SuspendAllKeepsMail(db: Db, users: seq<nat>, now: int)
    ensures db.outbox <= SuspendAll(db, users, now).outbox
    decreases |users|
  {
    if users != [] {
      SuspendAllKeepsMail(db, users[..|users| - 1], now);
    }
  }

  lemma SanctionKeepsMail(db: Db, now: int)
    ensures db.outbox <= Sanction(db, now).outbox
  {
    SuspendAllKeepsMail(db, Offenders(db, now), now);
  }

  lemma RunKeepsMail(db: Db, now: int, budget: nat)
    ensures db.outbox <= Run(db, now, budget).db.outbox
  {
    if Run(db, now, budget).complete {
      CompleteRun(db, now, budget);
      SanctionKeepsMail(Lifecycle(db, now), now);
    } else {
      StoppedRunKeepsPrefix(db, now, budget);
    }
  }

  lemma BodyKeepsMail(db: Db, now: int, op: Op)
    ensures db.outbox <= Body(db, now, op).db.outbox
  {
    match op
    case OnBookings(booking) => assert db.outbox <= BookingBody(db, now, booking).db.outbox;
    case OnSanctions(sanction) =>
      match sanction {
        case OpRecordViolation(user, _, counts, occurredAt, incident) =>
          var at := if occurredAt.Some? then occurredAt.value else now;
          var mid := db.(violations := db.violations + [ManualViolation(user, at, CurrentPolicy(db), counts, incident)]);
          SuspendAllKeepsMail(mid, Offenders(mid, now), now);
        case _ =>
      }
    case OnSite(site) => assert db.outbox <= SiteBody(db, now, site).db.outbox;
  }

  lemma NextKeepsMail(s: State, e: Event, budget: nat)
    ensures s.db.outbox <= Next(s, e, budget).db.outbox
  {
    match e
    case Ask(attempts, call, op) =>
      AskDid(s.db, attempts, call, op, budget);
      if Deciding(attempts).Granted? {
        var now := Deciding(attempts).now;
        RunKeepsMail(s.db, now, budget);
        BodyKeepsMail(Run(s.db, now, budget).db, now, op);
      }
    case Tick(now) => RunKeepsMail(s.db, now, budget);
    case Timetable(_) =>
    case Prune(_) =>
  }

  /** A key once queued stays queued along every history, so nothing is ever queued under it again. */
  lemma {:induction false} EveryHistoryKeepsMail(s: State, events: seq<Event>, budget: nat)
    ensures s.db.outbox <= Play(s, events, budget).db.outbox
    decreases |events|
  {
    if events != [] {
      EveryHistoryKeepsMail(s, events[..|events| - 1], budget);
      NextKeepsMail(Play(s, events[..|events| - 1], budget), events[|events| - 1], budget);
    }
  }

  // ---------------------------------------------------------------- the end of an adjusted suspension

  /** Announcing the ends at `now` really queues the end of the suspension. */
  predicate EndAnnounced(db: Db, id: nat, now: int) {
    SuspensionEnded(id) in NotifyFinished(db, now).outbox && SuspensionEnded(id) !in db.outbox
  }

  /** Adjusting a suspension clears its end notice so that the new end is announced too. It is, exactly when
      no end of this suspension was ever announced: the key does not tell the ends apart. */
  lemma AdjustedEndIsAnnounced(db: Db, now: int, id: nat, endsAt: Option<int>, later: int)
    requires Succeeded(Adjust(db, now, id, endsAt, true).exit)
    ensures var adjusted := Adjust(db, now, id, endsAt, true).db;
      && adjusted.suspensions[id].endNotifiedAt.None?
      && (EndAnnounced(adjusted, id, later) <==>
            endsAt.Some? && endsAt.value <= later && SuspensionEnded(id) !in db.outbox)
  {
    var adjusted := Adjust(db, now, id, endsAt, true).db;
    assert EndDue(adjusted.suspensions[id], later) <==> endsAt.Some? && endsAt.value <= later;
  }

  /** So of a suspension whose end was announced no later end is, however often it is adjusted and whatever
      else happens: the run marks it as announced and queues nothing. */
  lemma SecondEndIsNotAnnounced(s: State, id: nat, since: seq<Event>, budget: nat, now: int, endsAt: Option<int>,
                                later: int)
    requires Traceable(s.db) && id < |s.db.suspensions| && s.db.suspensions[id].endNotifiedAt.Some?
    requires Succeeded(Adjust(Play(s, since, budget).db, now, id, endsAt, true).exit)
    ensures var adjusted := Adjust(Play(s, since, budget).db, now, id, endsAt, true).db;
      && !EndAnnounced(adjusted, id, later)
      && (EndDue(adjusted.suspensions[id], later) ==>
            NotifyFinished(adjusted, later).suspensions[id].endNotifiedAt == Some(later))
  {
    assert Told(id, s.db.suspensions, s.db.outbox);
    EveryHistoryKeepsMail(s, since, budget);
    AdjustedEndIsAnnounced(Play(s, since, budget).db, now, id, endsAt, later);
  }

  /** A suspension of one day whose end was announced as it ended. */
  const OVER := Suspension(1, 0, Some(DAY), None, false, 0, Some(DAY))
  const ITS_NOTICES := {SuspensionApplied(0), SuspensionEnded(0)}

  lemma OverIsSound()
    ensures Sound(Few([], [OVER], ITS_NOTICES), 2 * DAY)
    ensures Traceable(Few([], [OVER], ITS_NOTICES))
  {
    assert SuspensionValid(OVER, 2 * DAY);
    FewIsSound([], [OVER], ITS_NOTICES, 2 * DAY);
    assert Told(0, [OVER], ITS_NOTICES);
  }

  /** Prolonged by two days, it ends a second time without a word. */
  lemma EndsInSilence()
    ensures Sound(Few([], [OVER], ITS_NOTICES), 2 * DAY) && Traceable(Few([], [OVER], ITS_NOTICES))
    ensures var r := Adjust(Few([], [OVER], ITS_NOTICES), 2 * DAY, 0, Some(3 * DAY), true);
      && Succeeded(r.exit) && ActiveAt(r.db.suspensions[0], 2 * DAY)
      && EndDue(r.db.suspensions[0], 3 * DAY) && !EndAnnounced(r.db, 0, 3 * DAY)
  {
    OverIsSound();
    AdjustedEndIsAnnounced(Few([], [OVER], ITS_NOTICES), 2 * DAY, 0, Some(3 * DAY), 3 * DAY);
  }

  /** Empty tables satisfy the invariant, so the histories start somewhere. */
  lemma EmptyIsTraceable(site: Site)
    ensures Traceable(Db([], [], [], {}, map[], site))
  {
  }
}
