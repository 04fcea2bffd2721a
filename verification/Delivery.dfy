/** Several workers over one outbox: they claim batches, settle what they claimed, or die. */
module Delivery {
  import opened Slots
  import opened Tables
  import opened Outbox

  /** The stored rows and the claims workers hold. `lost` counts, for each row, the claims whose worker
      died, and `accepted` the times a mail server took the message; neither is stored. */
  datatype World = World(rows: seq<Notice>, claims: set<Claim>, lost: seq<nat>, accepted: seq<nat>)

  /** A lease skips the rows other transactions have locked. A worker that dies may have handed the message
      over before. */
  datatype Step =
    | Queue(key: string, due: int)
    | Lease(locked: set<nat>, limit: nat)
    | Settle(claim: Claim, result: Delivery)
    | Die(claim: Claim, handedOver: bool)

  datatype Event = Event(now: int, step: Step)

  function Bump(counts: seq<nat>, i: nat, counted: bool): seq<nat>
    requires i < |counts|
  {
    if counted then counts[i := counts[i] + 1] else counts
  }

  ghost predicate InShape(w: World) {
    && |w.lost| == |w.rows| && |w.accepted| == |w.rows|
    && forall c :: c in w.claims ==> c.row < |w.rows|
  }

  ghost function NewClaims(rows: seq<Notice>, ids: seq<nat>, now: int): (r: set<Claim>)
    ensures forall c :: c in r <==> c.row < |rows| && c.row in ids && c == ClaimOn(rows, c.row, now)
  {
    set i | i in ids && i < |rows| :: ClaimOn(rows, i, now)
  }

  ghost function After(w: World, e: Event): (r: World)
    requires InShape(w)
    ensures InShape(r)
  {
    match e.step
    case Queue(key, due) =>
      if Queued(w.rows, key) then w
      else World(w.rows + [Fresh(key, due)], w.claims, w.lost + [0], w.accepted + [0])
    case Lease(locked, limit) =>
      var ids := Batch(w.rows, e.now, locked, limit);
      w.(rows := LeaseAll(w.rows, ids, e.now),
         claims := w.claims + NewClaims(w.rows, ids, e.now))
    case Settle(claim, result) =>
      if claim !in w.claims then w
      else World(w.rows[claim.row := Settled(w.rows[claim.row], claim.attempts, result, claim.at)], w.claims - {claim},
                 w.lost, Bump(w.accepted, claim.row, result.Delivered?))
    case Die(claim, handedOver) =>
      if claim !in w.claims then w
      else World(w.rows, w.claims - {claim}, Bump(w.lost, claim.row, true), Bump(w.accepted, claim.row, handedOver))
  }

  ghost function Play(w: World, events: seq<Event>): (r: World)
    requires InShape(w)
    ensures InShape(r)
    decreases |events|
  {
    if events == [] then w else After(Play(w, events[..|events| - 1]), events[|events| - 1])
  }

  /** No worker still holds a claim whose lease has ended: it has settled it or died. */
  ghost predicate Timely(w: World, now: int) {
    forall c :: c in w.claims ==> now < c.until
  }

  ghost predicate EveryoneTimely(w: World, events: seq<Event>)
    requires InShape(w)
  {
    forall k :: 0 <= k < |events| ==> Timely(Play(w, events[..k]), events[k].now)
  }

  // ---------------------------------------------------------------- what timely workers keep

  ghost predicate Held(w: World, i: nat) {
    exists c :: c in w.claims && c.row == i
  }

  /** The row carries the claim it was leased under. */
  ghost predicate Backed(w: World, c: Claim)
    requires c.row < |w.rows|
  {
    var n := w.rows[c.row];
    n.progress.Pending? && n.leaseUntil == Some(c.until) && n.attempts == c.attempts && c.until == c.at + LEASE
  }

  ghost predicate RowOrderly(n: Notice, held: bool, lost: nat, accepted: nat) {
    && n.attempts <= MAX_ATTEMPTS + lost
    && (n.progress.Pending? && !held ==> n.attempts < MAX_ATTEMPTS + lost)
    && (n.progress.Pending? && !held && lost == 0 ==> n.leaseUntil.None?)
    && accepted <= lost + (if n.progress.Sent? then 1 else 0)
    && (n.progress.Sent? ==> accepted >= 1)
    && (n.progress.Exhausted? ==> n.attempts >= MAX_ATTEMPTS)
  }

  ghost predicate Orderly(w: World) {
    && InShape(w)
    && (forall c :: c in w.claims ==> Backed(w, c))
    && (forall i: nat :: i < |w.rows| ==> RowOrderly(w.rows[i], Held(w, i), w.lost[i], w.accepted[i]))
  }

  /** An outbox without rows is orderly, so the runs start somewhere. */
  lemma EmptyIsOrderly()
    ensures Orderly(World([], {}, [], []))
  {
  }

  /** No row has two live claims. */
  lemma OneClaimEach(w: World, c: Claim, d: Claim)
    requires Orderly(w) && c in w.claims && d in w.claims && c.row == d.row
    ensures c == d
  {
    assert Backed(w, c) && Backed(w, d);
  }

  lemma BatchClaimable(rows: seq<Notice>, now: int, locked: set<nat>, limit: nat)
    ensures forall i :: i in Batch(rows, now, locked, limit) ==> i < |rows| && Claimable(rows[i], now)
  {
    BatchComesFirst(rows, now, locked, limit);
  }

  lemma LeaseBacks(w: World, e: Event, c: Claim)
    requires Orderly(w) && Timely(w, e.now) && e.step.Lease? && c in After(w, e).claims
    ensures Backed(After(w, e), c)
  {
    var ids := Batch(w.rows, e.now, e.step.locked, e.step.limit);
    BatchClaimable(w.rows, e.now, e.step.locked, e.step.limit);
    if c in w.claims {
      assert Backed(w, c) && !Claimable(w.rows[c.row], e.now);
      assert c.row !in ids;
    } else {
      assert c in NewClaims(w.rows, ids, e.now);
      assert Claimable(w.rows[c.row], e.now);
    }
  }

  lemma LeaseHolds(w: World, e: Event, i: nat)
    requires InShape(w) && e.step.Lease? && i < |w.rows|
    ensures var ids := Batch(w.rows, e.now, e.step.locked, e.step.limit);
      && (Held(After(w, e), i) <==> Held(w, i) || i in ids)
      && (i in ids ==> Claimable(w.rows[i], e.now))
  {
    BatchClaimable(w.rows, e.now, e.step.locked, e.step.limit);
    var next := After(w, e);
    if i in Batch(w.rows, e.now, e.step.locked, e.step.limit) {
      assert ClaimOn(w.rows, i, e.now) in next.claims;
    }
    if Held(w, i) {
      var c :| c in w.claims && c.row == i;
      assert c in next.claims;
    }
  }

  lemma LeaseKeepsOrder(w: World, e: Event)
    requires Orderly(w) && Timely(w, e.now) && e.step.Lease?
    ensures Orderly(After(w, e))
  {
    var next := After(w, e);
    forall c | c in next.claims
      ensures Backed(next, c)
    {
      LeaseBacks(w, e, c);
    }
    forall i: nat | i < |w.rows|
      ensures RowOrderly(next.rows[i], Held(next, i), next.lost[i], next.accepted[i])
    {
      LeaseHolds(w, e, i);
      assert RowOrderly(w.rows[i], Held(w, i), w.lost[i], w.accepted[i]);
      if i in Batch(w.rows, e.now, e.step.locked, e.step.limit) {
        LeasedIsFree(w, e.now, i);
      }
    }
  }

  /** A claimable row is not held. */
  lemma LeasedIsFree(w: World, now: int, i: nat)
    requires Orderly(w) && Timely(w, now) && i < |w.rows| && Claimable(w.rows[i], now)
    ensures !Held(w, i)
  {
    forall c | c in w.claims
      ensures c.row != i
    {
      assert Backed(w, c);
    }
  }

  /** Giving up a claim leaves the other rows held or not as they were. */
  lemma OthersHeld(w: World, next: World, claim: Claim, i: nat)
    requires Orderly(w) && claim in w.claims && next.claims == w.claims - {claim}
    ensures Held(next, i) <==> Held(w, i) && i != claim.row
  {
    if Held(w, i) && i != claim.row {
      var c :| c in w.claims && c.row == i;
      assert c in next.claims;
    }
    if Held(next, i) {
      var c :| c in next.claims && c.row == i;
      if i == claim.row {
        OneClaimEach(w, c, claim);
      }
    }
  }

  lemma GivingUpKeepsOrder(w: World, e: Event, claim: Claim)
    requires Orderly(w) && claim in w.claims
    requires (e.step.Settle? || e.step.Die?) && e.step.claim == claim
    ensures Orderly(After(w, e))
  {
    var next := After(w, e);
    assert Backed(w, claim);
    forall c | c in next.claims
      ensures Backed(next, c)
    {
      assert Backed(w, c);
      if c.row == claim.row {
        OneClaimEach(w, c, claim);
      }
    }
    forall i: nat | i < |w.rows|
      ensures RowOrderly(next.rows[i], Held(next, i), next.lost[i], next.accepted[i])
    {
      OthersHeld(w, next, claim, i);
      assert RowOrderly(w.rows[i], Held(w, i), w.lost[i], w.accepted[i]);
    }
  }

  lemma QueueKeepsOrder(w: World, e: Event)
    requires Orderly(w) && e.step.Queue?
    ensures Orderly(After(w, e))
  {
    var next := After(w, e);
    forall c | c in next.claims
      ensures Backed(next, c)
    {
      assert Backed(w, c);
    }
    forall i: nat | i < |next.rows|
      ensures RowOrderly(next.rows[i], Held(next, i), next.lost[i], next.accepted[i])
    {
      assert Held(next, i) <==> Held(w, i);
      if i < |w.rows| {
        assert RowOrderly(w.rows[i], Held(w, i), w.lost[i], w.accepted[i]);
      }
    }
  }

  lemma AfterOrderly(w: World, e: Event)
    requires Orderly(w) && Timely(w, e.now)
    ensures Orderly(After(w, e))
  {
    match e.step
    case Queue(_, _) => QueueKeepsOrder(w, e);
    case Lease(_, _) => LeaseKeepsOrder(w, e);
    case Settle(claim, _) =>
      if claim in w.claims {
        GivingUpKeepsOrder(w, e, claim);
      }
    case Die(claim, _) =>
      if claim in w.claims {
        GivingUpKeepsOrder(w, e, claim);
      }
  }

  /** In any run of any number of workers that settle every claim before its lease ends or die: no row
      ever has two live claims, a row is claimed at most six times and accepted by a mail server at
      most once, each plus once for every worker that died holding it, and a row marked sent was
      accepted. */
  lemma {:induction false} EveryRunIsOrderly(w: World, events: seq<Event>)
    requires Orderly(w) && EveryoneTimely(w, events)
    ensures Orderly(Play(w, events))
    decreases |events|
  {
    if events != [] {
      var front := events[..|events| - 1];
      assert forall k :: 0 <= k < |front| ==> front[..k] == events[..k];
      EveryRunIsOrderly(w, front);
      AfterOrderly(Play(w, front), events[|events| - 1]);
    }
  }

  // ---------------------------------------------------------------- settled for good

  lemma AfterKeepsTerminal(w: World, e: Event, i: nat)
    requires Orderly(w) && Timely(w, e.now) && i < |w.rows| && !w.rows[i].progress.Pending?
    ensures i < |After(w, e).rows| && After(w, e).rows[i] == w.rows[i]
  {
    if e.step.Lease? {
      LeaseHolds(w, e, i);
    } else if (e.step.Settle? || e.step.Die?) && e.step.claim in w.claims {
      assert Backed(w, e.step.claim);
    }
  }

  /** Sent, exhausted and withdrawn rows never change again. */
  lemma {:induction false} TerminalIsFinal(w: World, events: seq<Event>, i: nat)
    requires Orderly(w) && EveryoneTimely(w, events) && i < |w.rows| && !w.rows[i].progress.Pending?
    ensures i < |Play(w, events).rows| && Play(w, events).rows[i] == w.rows[i]
    decreases |events|
  {
    if events != [] {
      var front := events[..|events| - 1];
      assert forall k :: 0 <= k < |front| ==> front[..k] == events[..k];
      EveryRunIsOrderly(w, front);
      TerminalIsFinal(w, front, i);
      AfterKeepsTerminal(Play(w, front), events[|events| - 1], i);
    }
  }

  // ---------------------------------------------------------------- late workers

  /** Settling a row that is already settled leaves its progress alone exactly when the late delivery
      ends the same way, or fails with attempts to spare. */
  lemma LateSettle(n: Notice, attempts: nat, result: Delivery, at: int)
    requires !n.progress.Pending?
    ensures Settled(n, attempts, result, at).progress == n.progress <==>
      match result
      case Delivered => n.progress.Sent?
      case Stale => n.progress.Withdrawn?
      case Failed => attempts < MAX_ATTEMPTS || n.progress.Exhausted?
  {
  }

  function OneNotice(): World {
    World([Fresh("booking_confirmation:1", 0)], {}, [0], [0])
  }

  /** A worker outlives its lease; another claims the row and sends it; the first then finds the
      message out of date. Nothing compares the claims, and the sent row ends withdrawn. */
  lemma SentIsNotFinalForLateWorkers()
    ensures var late, quick := Claim(0, 1, 0, LEASE), Claim(0, 2, LEASE, 2 * LEASE);
      var leased := After(OneNotice(), Event(0, Lease({}, 1)));
      var twice := After(leased, Event(LEASE, Lease({}, 1)));
      var sent := After(twice, Event(LEASE, Settle(quick, Delivered)));
      && late in sent.claims && sent.rows[0].progress == Sent
      && After(sent, Event(LEASE, Settle(late, Stale))).rows[0].progress == Withdrawn
  {
    var notice := OneNotice().rows[0];
    LeaseTheOnly([notice], 0);
    LeaseTheOnly([Leased(notice, 0)], LEASE);
    var leased := After(OneNotice(), Event(0, Lease({}, 1)));
    assert leased.rows == [Leased(notice, 0)] && leased.claims == {Claim(0, 1, 0, LEASE)};
    var twice := After(leased, Event(LEASE, Lease({}, 1)));
    assert twice.rows == [Leased(Leased(notice, 0), LEASE)];
    assert twice.claims == {Claim(0, 1, 0, LEASE), Claim(0, 2, LEASE, 2 * LEASE)};
  }

  lemma LeaseTheOnly(rows: seq<Notice>, now: int)
    requires |rows| == 1 && Claimable(rows[0], now)
    ensures Batch(rows, now, {}, 1) == [0]
  {
    assert QueueUpTo(rows, 0, now, {}) == [];
    assert QueueUpTo(rows, 1, now, {}) == Place(rows, [], 0);
  }
}
