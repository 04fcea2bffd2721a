/** The whole engine as a state machine: operations through the protocol, scheduler ticks
    (core/services/scheduler.py), timetable replacement and pruning of idempotency records, in any
    order, with a clock that never runs backwards. */
module Machine {
  import opened Slots
  import opened Tables
  import opened Rules
  import opened Changes
  import opened Reconcile
  import opened Operations
  import opened Protocol
  import opened Invariants
  import opened Ledgers
  import opened Soundness
  import opened FixedPoint
  import opened BodySound
  import opened Standing
  import opened BodyStanding
  import opened Evolution

  // ---------------------------------------------------------------- the scheduler tick

  /** An advance booking inside the reminder lead; walk-ins and staff holds get none. */
  predicate ReminderDue(b: Booking, now: int, lead: int) {
    b.status.Scheduled? && !b.walkIn && !b.staff && now < b.slot <= now + lead * MINUTE
  }

  function ReminderMail(bs: seq<Booking>, now: int, lead: int): set<Mail> {
    set i: nat | i < |bs| && ReminderDue(bs[i], now, lead) :: BookingReminder(i)
  }

  function Remind(db: Db, now: int): Db {
    db.(outbox := db.outbox + ReminderMail(db.bookings, now, CurrentPolicy(db).reminderLead))
  }

  /** A tick rolls everything back when a backlog exceeds the budget. */
  function TickDb(db: Db, now: int, budget: nat): Db {
    var r := Run(db, now, budget);
    if r.complete then Remind(r.db, now) else db
  }

  // ---------------------------------------------------------------- events

  datatype Event =
    | Ask(attempts: nat -> Attempt, call: Call, op: Op)
    | Tick(now: int)
    | Timetable(blocks: seq<WeeklyBlock>)
    | Prune(keys: set<RequestKey>)

  datatype State = State(db: Db, clock: int)

  function BodyFor(op: Op): BodyOf {
    (db: Db, now: int) => Body(db, now, op)
  }

  /** The clock after the event; events that do not read it leave it. */
  function ClockAfter(clock: int, e: Event): int {
    match e
    case Ask(attempts, _, _) => if Deciding(attempts).Granted? then Deciding(attempts).now else clock
    case Tick(now) => now
    case _ => clock
  }

  function DbAfter(db: Db, e: Event, budget: nat): Db {
    match e
    case Ask(attempts, call, op) => RunOperation(db, attempts, budget, call, BodyFor(op)).db
    case Tick(now) => TickDb(db, now, budget)
    case Timetable(blocks) => db.(site := db.site.(blocks := blocks))
    case Prune(keys) => db.(requests := db.requests - keys)
  }

  function Next(s: State, e: Event, budget: nat): State {
    State(DbAfter(s.db, e, budget), ClockAfter(s.clock, e))
  }

  /** The state after a history of events. */
  function Play(s: State, events: seq<Event>, budget: nat): State
    decreases |events|
  {
    if events == [] then s else Next(Play(s, events[..|events| - 1], budget), events[|events| - 1], budget)
  }

  /** The clock never runs backwards. */
  ghost predicate Forward(s: State, events: seq<Event>, budget: nat) {
    forall k :: 0 <= k < |events| ==>
      Play(s, events[..k], budget).clock <= ClockAfter(Play(s, events[..k], budget).clock, events[k])
  }

  lemma ForwardPrefix(s: State, events: seq<Event>, budget: nat)
    requires events != [] && Forward(s, events, budget)
    ensures Forward(s, events[..|events| - 1], budget)
    ensures var before := Play(s, events[..|events| - 1], budget);
      before.clock <= ClockAfter(before.clock, events[|events| - 1])
  {
    var front := events[..|events| - 1];
    forall k | 0 <= k < |front|
      ensures Play(s, front[..k], budget).clock <= ClockAfter(Play(s, front[..k], budget).clock, front[k])
    {
      assert front[..k] == events[..k];
    }
  }

  // ---------------------------------------------------------------- one event

  lemma BodiesKeepRequests(op: Op)
    ensures forall db, now :: KeepsRequests(BodyFor(op), db, now)
  {
    forall db, now
      ensures KeepsRequests(BodyFor(op), db, now)
    {
      match op
      case OnBookings(booking) => assert BookingBody(db, now, booking).db.requests == db.requests;
      case OnSanctions(sanction) => assert SanctionBody(db, now, sanction).db.requests == db.requests;
      case OnSite(site) => assert SiteBody(db, now, site).db.requests == db.requests;
    }
  }

  /** What an event can do to the tables: nothing but idempotency records, a reconciliation, or a
      reconciliation followed by a body that succeeded. */
  ghost predicate Did(db: Db, next: Db, now: int, budget: nat, op: Op) {
    || next == db.(requests := next.requests)
    || next == Run(db, now, budget).db
    || (Run(db, now, budget).complete
        && Succeeded(Body(Run(db, now, budget).db, now, op).exit)
        && next == Body(Run(db, now, budget).db, now, op).db.(requests := next.requests))
  }

  lemma AskDid(db: Db, attempts: nat -> Attempt, call: Call, op: Op, budget: nat)
    ensures var next := RunOperation(db, attempts, budget, call, BodyFor(op)).db;
      if Deciding(attempts).Granted? then Did(db, next, Deciding(attempts).now, budget, op) else next == db
  {
    RetriesLeaveNoTrace(db, attempts, budget, call, BodyFor(op));
    if Deciding(attempts).Granted? {
      BodiesKeepRequests(op);
      OnceCommits(db, Deciding(attempts).now, budget, call, BodyFor(op));
    }
  }

  lemma RequestsDoNotMatter(db: Db, next: Db, clock: int)
    requires Sound(db, clock) && next == db.(requests := next.requests)
    ensures Sound(next, clock)
  {
  }

  lemma RemindSound(db: Db, now: int)
    requires Sound(db, now)
    ensures Sound(Remind(db, now), now)
  {
    MailKept(db.bookings, db.bookings, db.outbox, Remind(db, now).outbox);
  }

  lemma DidSound(db: Db, next: Db, clock: int, now: int, budget: nat, op: Op)
    requires Sound(db, clock) && clock <= now && Did(db, next, now, budget, op)
    ensures Sound(next, now)
  {
    SoundLater(db, clock, now);
    RunSound(db, now, budget);
    var rec := Run(db, now, budget).db;
    if next == db.(requests := next.requests) {
      RequestsDoNotMatter(db, next, now);
    } else if next != rec {
      RunSettles(db, now, budget);
      BodyKeepsSound(rec, now, op);
      RequestsDoNotMatter(Body(rec, now, op).db, next, now);
    }
  }

  lemma NextSound(s: State, e: Event, budget: nat)
    requires Sound(s.db, s.clock) && s.clock <= ClockAfter(s.clock, e)
    ensures Sound(Next(s, e, budget).db, Next(s, e, budget).clock)
  {
    match e
    case Ask(attempts, call, op) =>
      AskDid(s.db, attempts, call, op, budget);
      if Deciding(attempts).Granted? {
        DidSound(s.db, Next(s, e, budget).db, s.clock, Deciding(attempts).now, budget, op);
      }
    case Tick(now) =>
      SoundLater(s.db, s.clock, now);
      RunSound(s.db, now, budget);
      RemindSound(Run(s.db, now, budget).db, now);
    case Timetable(_) =>
    case Prune(_) =>
  }

  // ---------------------------------------------------------------- every history is safe

  /** Safety: after any history of operations, refusals, failures, retries, ticks and backlogs the
      invariant holds - one blocking booking per room and hour, students' hours two apart, missed
      hours never reclaimed, every table constraint, no student's open booking under a closure,
      no-shows and their violations one to one, consumed strikes accounted for, notices exact. */
  lemma {:induction false} EveryHistoryIsSound(s: State, events: seq<Event>, budget: nat)
    requires Sound(s.db, s.clock) && Forward(s, events, budget)
    ensures Sound(Play(s, events, budget).db, Play(s, events, budget).clock)
    decreases |events|
  {
    if events != [] {
      ForwardPrefix(s, events, budget);
      EveryHistoryIsSound(s, events[..|events| - 1], budget);
      NextSound(Play(s, events[..|events| - 1], budget), events[|events| - 1], budget);
    }
  }

  /** An empty database with a valid configuration is sound. */
  lemma EmptyIsSound(site: Site, clock: int)
    requires SiteValid(site)
    ensures Sound(Db([], [], [], {}, map[], site), clock)
  {
  }

  // ---------------------------------------------------------------- nothing recorded is undone

  lemma NextEvolves(s: State, e: Event, budget: nat)
    ensures Evolves(s.db, Next(s, e, budget).db)
  {
    var next := Next(s, e, budget).db;
    EvolvesReflexive(s.db, s.db);
    match e
    case Ask(attempts, call, op) =>
      AskDid(s.db, attempts, call, op, budget);
      if Deciding(attempts).Granted? {
        DidEvolves(s.db, next, Deciding(attempts).now, budget, op);
      }
    case Tick(now) =>
      RunEvolves(s.db, now, budget);
      EvolvesReflexive(Run(s.db, now, budget).db, Remind(Run(s.db, now, budget).db, now));
      EvolvesTransitive(s.db, Run(s.db, now, budget).db, Remind(Run(s.db, now, budget).db, now));
    case Timetable(_) => EvolvesReflexive(s.db, next);
    case Prune(_) => EvolvesReflexive(s.db, next);
  }

  lemma DidEvolves(db: Db, next: Db, now: int, budget: nat, op: Op)
    requires Did(db, next, now, budget, op)
    ensures Evolves(db, next)
  {
    RunEvolves(db, now, budget);
    var rec := Run(db, now, budget).db;
    if next == db.(requests := next.requests) {
      EvolvesReflexive(db, next);
    } else if next != rec {
      BodyEvolves(rec, now, op);
      EvolvesTransitive(db, rec, Body(rec, now, op).db);
      EvolvesReflexive(Body(rec, now, op).db, next);
      EvolvesTransitive(db, Body(rec, now, op).db, next);
    }
  }

  /** Along any history: a booking that is a no-show, cancelled, rejected or completed stays so, who
      booked which hour never changes, a consumed strike stays consumed by the same suspension, and
      voids and lifts are final. */
  lemma {:induction false} EveryHistoryEvolves(s: State, events: seq<Event>, budget: nat)
    ensures Evolves(s.db, Play(s, events, budget).db)
    decreases |events|
  {
    if events == [] {
      EvolvesReflexive(s.db, s.db);
    } else {
      var before := Play(s, events[..|events| - 1], budget);
      EveryHistoryEvolves(s, events[..|events| - 1], budget);
      NextEvolves(before, events[|events| - 1], budget);
      EvolvesTransitive(s.db, before.db, Play(s, events, budget).db);
    }
  }

  // ---------------------------------------------------------------- one user's standing

  /** The event is not a staff hold by the user, nor an adjustment of a suspension of the user
      that is no longer in force. */
  predicate Behaves(s: State, e: Event, user: nat) {
    e.Ask? ==> Disciplined(s.db, ClockAfter(s.clock, e), e.op, user)
  }

  /** Suspensions that were given before a reconciliation keep their window; the ones it gives are
      in force. */
  lemma {:induction false} SuspendAllWindows(db: Db, users: seq<nat>, now: int)
    requires SiteValid(db.site)
    ensures var ss, ts := db.suspensions, SuspendAll(db, users, now).suspensions;
      && |ss| <= |ts| && ts[..|ss|] == ss
      && forall k :: |ss| <= k < |ts| ==> ActiveAt(ts[k], now)
    decreases |users|
  {
    if users != [] {
      SuspendAllWindows(db, users[..|users| - 1], now);
      PolicyValid(SuspendAll(db, users[..|users| - 1], now));
    }
  }

  /** No suspension of `ss` loses its user or its effect in `ts`, and the further ones take effect. */
  ghost predicate WindowsKept(ss: seq<Suspension>, ts: seq<Suspension>, now: int) {
    && |ss| <= |ts|
    && (forall k :: 0 <= k < |ss| ==> ts[k].user == ss[k].user && (ActiveAt(ss[k], now) ==> ActiveAt(ts[k], now)))
    && (forall k :: |ss| <= k < |ts| ==> ActiveAt(ts[k], now))
  }

  lemma SanctionWindows(db: Db, now: int)
    requires SiteValid(db.site)
    ensures WindowsKept(db.suspensions, Sanction(db, now).suspensions, now)
  {
    SuspendAllWindows(db, Offenders(db, now), now);
    var ts := ApplyThresholds(db, now).suspensions;
    assert forall k :: 0 <= k < |ts| ==> MarkAllEnded(ts, now)[k] == MarkEnded(ts[k], now);
  }

  lemma RunWindows(db: Db, now: int, budget: nat)
    requires SiteValid(db.site) && Run(db, now, budget).complete
    ensures WindowsKept(db.suspensions, Run(db, now, budget).db.suspensions, now)
  {
    CompleteRun(db, now, budget);
    SanctionWindows(Lifecycle(db, now), now);
  }

  lemma DisciplineSurvivesRun(db: Db, now: int, budget: nat, op: Op, user: nat)
    requires SiteValid(db.site) && Run(db, now, budget).complete && Disciplined(db, now, op, user)
    ensures Disciplined(Run(db, now, budget).db, now, op, user)
  {
    RunWindows(db, now, budget);
  }

  lemma DidStanding(db: Db, next: Db, clock: int, now: int, budget: nat, op: Op, user: nat)
    requires Sound(db, clock) && InStanding(db, user, clock) && clock <= now
    requires Did(db, next, now, budget, op) && Disciplined(db, now, op, user)
    ensures InStanding(next, user, now)
  {
    SoundLater(db, clock, now);
    StandingLater(db, user, clock, now);
    RunSound(db, now, budget);
    RunStanding(db, user, now, budget);
    var rec := Run(db, now, budget).db;
    if next == db.(requests := next.requests) {
      ViolationsStanding(db, next, user, now);
    } else if next != rec {
      DisciplineSurvivesRun(db, now, budget, op, user);
      BodyKeepsStanding(rec, now, op, user);
      ViolationsStanding(Body(rec, now, op).db, next, user, now);
    }
  }

  lemma NextStanding(s: State, e: Event, budget: nat, user: nat)
    requires Sound(s.db, s.clock) && InStanding(s.db, user, s.clock) && s.clock <= ClockAfter(s.clock, e)
    requires Behaves(s, e, user)
    ensures InStanding(Next(s, e, budget).db, user, Next(s, e, budget).clock)
  {
    var next := Next(s, e, budget).db;
    match e
    case Ask(attempts, call, op) =>
      AskDid(s.db, attempts, call, op, budget);
      if Deciding(attempts).Granted? {
        DidStanding(s.db, next, s.clock, Deciding(attempts).now, budget, op, user);
      }
    case Tick(now) =>
      SoundLater(s.db, s.clock, now);
      StandingLater(s.db, user, s.clock, now);
      RunStanding(s.db, user, now, budget);
      ViolationsStanding(Run(s.db, now, budget).db, Remind(Run(s.db, now, budget).db, now), user, now);
    case Timetable(_) => ViolationsStanding(s.db, next, user, s.clock);
    case Prune(_) => ViolationsStanding(s.db, next, user, s.clock);
  }

  /** Along any history in which the user takes no staff holds and the user's suspensions are
      adjusted only while in force: the user's daily bookings never exceed the largest quota ever in
      force nor the unfinished hours the largest cap, the user's suspensions never overlap, and while
      suspended the user has no request or reservation. */
  lemma {:induction false} EveryHistoryKeepsStanding(s: State, events: seq<Event>, budget: nat, user: nat)
    requires Sound(s.db, s.clock) && InStanding(s.db, user, s.clock) && Forward(s, events, budget)
    requires forall k :: 0 <= k < |events| ==> Behaves(Play(s, events[..k], budget), events[k], user)
    ensures InStanding(Play(s, events, budget).db, user, Play(s, events, budget).clock)
    decreases |events|
  {
    if events != [] {
      var front := events[..|events| - 1];
      ForwardPrefix(s, events, budget);
      assert forall k :: 0 <= k < |front| ==> front[..k] == events[..k];
      EveryHistoryIsSound(s, front, budget);
      EveryHistoryKeepsStanding(s, front, budget, user);
      NextStanding(Play(s, front, budget), events[|events| - 1], budget, user);
    }
  }

  /** A user without bookings or suspensions is in standing. */
  lemma NewcomerInStanding(db: Db, user: nat, clock: int)
    requires forall i :: 0 <= i < |db.bookings| ==> db.bookings[i].user != user
    requires forall i :: 0 <= i < |db.suspensions| ==> db.suspensions[i].user != user
    ensures InStanding(db, user, clock)
  {
    forall date
      ensures QuotaUsed(db.bookings, user, date) == 0
    {
      assert (set i | 0 <= i < |db.bookings| && ChargedTo(db.bookings[i], user, date)) == {};
    }
    assert (set i | 0 <= i < |db.bookings| && HeldBy(db.bookings[i], user, clock)) == {};
  }
}
