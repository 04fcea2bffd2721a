/** Small tables, accounts and rooms for the examples: inputs on which the code fails a promise. */
module Examples {
  import opened Slots
  import opened Tables
  import opened Rules
  import opened Reconcile
  import opened Bookings
  import opened Invariants
  import opened Ledgers
  import opened Soundness

  /** Nine o'clock on Friday, 2 January 1970, an opening hour. */
  const NINE := 26 * HOUR

  /** No closure, incident, series, policy version, override or class. */
  const DEFAULT_SITE := Site([], [], [], [], map[], [])

  const EMPTY := Db([], [], [], {}, map[], DEFAULT_SITE)

  const STAFF := User(1, true, true, EligibilityApproved, false, false, true, None, {})

  const HALL := Room(1, true, false, false, false, false, {})

  const UNTITLED := Details("", "", "")

  /** A student's reservation of the hour from nine. */
  function AtNine(user: nat, room: nat): Booking {
    NewRow(user, room, NINE, Scheduled, Some(NINE + 15 * MINUTE), false, 0, UNTITLED)
  }

  /** Tables without violations. */
  function Few(bs: seq<Booking>, ss: seq<Suspension>, outbox: set<Mail>): Db {
    Db(bs, [], ss, outbox, map[], DEFAULT_SITE)
  }

  lemma FewIsSound(bs: seq<Booking>, ss: seq<Suspension>, outbox: set<Mail>, clock: int)
    requires BookingsSound(bs, clock) && forall i :: 0 <= i < |bs| ==> Blocking(bs[i].status)
    requires SuspensionsValid(ss, clock) && forall s :: 0 <= s < |ss| ==> !ss[s].auto
    requires forall m :: m in outbox ==> !IsLifecycleNotice(m)
    ensures Sound(Few(bs, ss, outbox), clock)
  {
    forall i: nat
      ensures BookingCancelled(i) !in outbox && BookingNoShow(i) !in outbox && BookingRejected(i) !in outbox
    {
      assert IsLifecycleNotice(BookingCancelled(i)) && IsLifecycleNotice(BookingNoShow(i));
      assert IsLifecycleNotice(BookingRejected(i));
    }
  }

  lemma AtNineIsSound(clock: int)
    requires 0 <= clock
    ensures BookingsSound([AtNine(1, 1)], clock)
  {
    assert RowValid(AtNine(1, 1), clock);
  }

  lemma SanctionsAreSound(vs: seq<Violation>, ss: seq<Suspension>, clock: int)
    requires ViolationsValid(vs) && forall k :: 0 <= k < |vs| ==> !vs[k].noShow
    requires StrikesSound(vs, ss) && SuspensionsValid(ss, clock)
    ensures Sound(EMPTY.(violations := vs, suspensions := ss), clock)
  {
  }

  lemma NoRowsIsSound(clock: int)
    ensures Sound(EMPTY, clock)
  {
    FewIsSound([], [], {}, clock);
  }

  /** No run over a table that fits the budget stops. */
  lemma SmallTablesComplete(db: Db, now: int, budget: nat)
    requires |db.bookings| <= budget
    ensures Run(db, now, budget).complete
  {
  }

  /** The row of a one-hour staff hold from nine, made at the first instant of 1970. */
  const HELD_AT_NINE := HoldRow(EMPTY, 0, STAFF, HALL, NINE, UNTITLED)

  /** The hours from nine on can be held the day before, up to five of them. */
  lemma HoldsFromNine(hours: nat)
    requires 1 <= hours <= 5
    ensures FirstShut(EMPTY, HALL, 1, 9, 9 + hours).None?
    ensures StaffRefusal(EMPTY, 0, STAFF, HALL, 1, 9, 9 + hours).None?
  {
    forall h | 9 <= h <= 14
      ensures SlotOpen(EMPTY, SlotStartFor(1, h), HALL).None?
    {
      SlotStartForInverse(1, h);
    }
    assert FirstShut(EMPTY, HALL, 1, 9 + hours, 9 + hours).None?;
    OpenThrough(9, 9 + hours);
  }

  lemma {:induction false} OpenThrough(hour: int, end: int)
    requires 9 <= hour <= end <= 14
    ensures FirstShut(EMPTY, HALL, 1, hour, end).None?
    decreases end - hour
  {
    if hour < end {
      SlotStartForInverse(1, hour);
      OpenThrough(hour + 1, end);
    }
  }
}
