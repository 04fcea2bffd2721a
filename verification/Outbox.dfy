/** The transactional outbox (core/services/outbox.py) and its drain (core/services/notifications.py).
    A row is claimed under a lease, delivered outside any lock, and then settled. */
module Outbox {
  import opened Slots
  import opened Tables

  const MAX_ATTEMPTS := 6
  const BACKOFF_MINUTES := [1, 5, 30, 60, 240]
  const LEASE := 300 * SECOND
  const BATCH_SIZE := 50

  datatype Progress = Pending | Sent | Exhausted | Withdrawn

  datatype Notice = Notice(
    key: string, nextAttempt: int, leaseUntil: Option<int>, attempts: nat,
    progress: Progress, sentAt: Option<int>)

  /** A worker's copy of a row it leased at `at`; it settles from the copy. */
  datatype Claim = Claim(row: nat, attempts: nat, at: int, until: int)

  /** How one delivery ends: accepted, failed with an error, or found to be out of date. */
  datatype Delivery = Delivered | Failed | Stale

  predicate Queued(rows: seq<Notice>, key: string) {
    exists i :: 0 <= i < |rows| && rows[i].key == key
  }

  function Fresh(key: string, due: int): Notice {
    Notice(key, due, None, 0, Pending, None)
  }

  // ---------------------------------------------------------------- the batch

  predicate Claimable(n: Notice, now: int) {
    n.progress.Pending? && n.nextAttempt <= now && (n.leaseUntil.None? || n.leaseUntil.value <= now)
  }

  predicate Earlier(rows: seq<Notice>, i: nat, j: nat)
    requires i < |rows| && j < |rows|
  {
    rows[i].nextAttempt < rows[j].nextAttempt || (rows[i].nextAttempt == rows[j].nextAttempt && i < j)
  }

  predicate InOrder(rows: seq<Notice>, ids: seq<nat>) {
    && (forall k :: 0 <= k < |ids| ==> ids[k] < |rows|)
    && (forall j, k :: 0 <= j < k < |ids| ==> Earlier(rows, ids[j], ids[k]))
  }

  function Place(rows: seq<Notice>, ids: seq<nat>, i: nat): (r: seq<nat>)
    requires i < |rows| && InOrder(rows, ids) && i !in ids
    ensures InOrder(rows, r)
    ensures forall x :: x in r <==> x in ids || x == i
  {
    if ids == [] then [i]
    else if Earlier(rows, ids[|ids| - 1], i) then ids + [i]
    else
      var last := ids[|ids| - 1];
      var front := Place(rows, ids[..|ids| - 1], i);
      assert forall x :: x in ids <==> x in ids[..|ids| - 1] || x == last;
      LastIsLatest(rows, ids, i, front);
      front + [last]
  }

  lemma LastIsLatest(rows: seq<Notice>, ids: seq<nat>, i: nat, front: seq<nat>)
    requires i < |rows| && InOrder(rows, ids) && i !in ids && ids != [] && !Earlier(rows, ids[|ids| - 1], i)
    requires InOrder(rows, front) && forall x :: x in front <==> x in ids[..|ids| - 1] || x == i
    ensures forall k :: 0 <= k < |front| ==> Earlier(rows, front[k], ids[|ids| - 1])
  {
    forall k | 0 <= k < |front|
      ensures Earlier(rows, front[k], ids[|ids| - 1])
    {
      assert front[k] in front;
      if front[k] != i {
        var m :| 0 <= m < |ids| - 1 && ids[m] == front[k];
      }
    }
  }

  /** The row is due, under no lease, and not locked by another transaction. */
  predicate Available(rows: seq<Notice>, i: nat, now: int, locked: set<nat>)
    requires i < |rows|
  {
    Claimable(rows[i], now) && i !in locked
  }

  function QueueUpTo(rows: seq<Notice>, n: nat, now: int, locked: set<nat>): (r: seq<nat>)
    requires n <= |rows|
    ensures InOrder(rows, r)
    ensures forall i :: i in r <==> 0 <= i < n && Available(rows, i, now, locked)
  {
    if n == 0 then []
    else if Available(rows, n - 1, now, locked) then Place(rows, QueueUpTo(rows, n - 1, now, locked), n - 1)
    else QueueUpTo(rows, n - 1, now, locked)
  }

  /** The rows a worker claims while other transactions hold locks on `locked`. */
  function Batch(rows: seq<Notice>, now: int, locked: set<nat>, limit: nat): (r: seq<nat>)
    ensures InOrder(rows, r)
  {
    var queue := QueueUpTo(rows, |rows|, now, locked);
    if |queue| <= limit then queue else queue[..limit]
  }

  /** No limit, and a limit of zero, mean the configured size. */
  function BatchSize(limit: Option<nat>): nat {
    if limit.None? || limit.value == 0 then BATCH_SIZE else limit.value
  }

  /** A batch is the available rows that come first: all of them if they fit the limit, and otherwise
      as many as the limit, none of them later than a row left out. */
  lemma BatchComesFirst(rows: seq<Notice>, now: int, locked: set<nat>, limit: nat)
    ensures var r := Batch(rows, now, locked, limit);
      && |r| <= limit
      && (forall k :: 0 <= k < |r| ==> Available(rows, r[k], now, locked))
      && (forall i: nat, k :: i < |rows| && Available(rows, i, now, locked) && i !in r && 0 <= k < |r| ==>
            Earlier(rows, r[k], i))
      && (|r| < limit ==> forall i: nat :: i < |rows| && Available(rows, i, now, locked) ==> i in r)
  {
    var queue, r := QueueUpTo(rows, |rows|, now, locked), Batch(rows, now, locked, limit);
    assert forall k :: 0 <= k < |r| ==> r[k] in queue;
    assert forall j :: 0 <= j < |r| ==> queue[j] in r;
    forall i: nat, k | i < |rows| && Available(rows, i, now, locked) && i !in r && 0 <= k < |r|
      ensures Earlier(rows, r[k], i)
    {
      var m :| 0 <= m < |queue| && queue[m] == i;
    }
  }

  // ---------------------------------------------------------------- leasing and settling

  function Leased(n: Notice, now: int): Notice {
    n.(leaseUntil := Some(now + LEASE), attempts := n.attempts + 1)
  }

  function LeaseAll(rows: seq<Notice>, ids: seq<nat>, now: int): (r: seq<Notice>)
    ensures |r| == |rows|
    ensures forall i: nat :: i < |rows| ==> r[i] == if i in ids then Leased(rows[i], now) else rows[i]
  {
    seq(|rows|, i requires 0 <= i < |rows| => if i in ids then Leased(rows[i], now) else rows[i])
  }

  function ClaimOn(rows: seq<Notice>, id: nat, now: int): Claim
    requires id < |rows|
  {
    Claim(id, rows[id].attempts + 1, now, now + LEASE)
  }

  function BackoffMinutes(attempts: nat): (m: int)
    ensures 1 <= m <= 240
  {
    var last := |BACKOFF_MINUTES| - 1;
    var index := if attempts - 1 < last then attempts - 1 else last;
    BACKOFF_MINUTES[if index < 0 then 0 else index]
  }

  /** The row once a claim on it is settled. What the worker knows of the row is its copy: neither
      the stored progress nor the lease is looked at. */
  function Settled(n: Notice, attempts: nat, result: Delivery, now: int): Notice {
    match result
    case Delivered => n.(progress := Sent, sentAt := Some(now), leaseUntil := None)
    case Stale => n.(progress := Withdrawn, leaseUntil := None)
    case Failed =>
      if attempts >= MAX_ATTEMPTS then n.(progress := Exhausted, leaseUntil := None)
      else n.(nextAttempt := now + BackoffMinutes(attempts) * MINUTE, leaseUntil := None)
  }

  /** A settled row can be claimed again exactly when its delivery failed with attempts to spare, from the
      end of its backoff on; its key and the attempts counted stay. */
  lemma WhenClaimableAgain(n: Notice, attempts: nat, result: Delivery, now: int, later: int)
    ensures var m := Settled(n, attempts, result, now);
      && m.key == n.key && m.attempts == n.attempts
      && (Claimable(m, later) <==>
            && n.progress.Pending? && result.Failed? && attempts < MAX_ATTEMPTS
            && now + BackoffMinutes(attempts) * MINUTE <= later)
  {
  }

  /** A row claimed and settled by one drain. */
  function Drained(n: Notice, result: Delivery, now: int): Notice {
    Settled(Leased(n, now), n.attempts + 1, result, now)
  }

  /** The row after drains at these times all of whose deliveries fail. */
  function Failing(n: Notice, times: seq<int>): Notice
    decreases |times|
  {
    if times == [] then n else Drained(Failing(n, times[..|times| - 1]), Failed, times[|times| - 1])
  }

  /** Each of the drains could claim the row. */
  predicate EachClaimed(n: Notice, times: seq<int>)
    decreases |times|
  {
    times != [] ==>
      var front := times[..|times| - 1];
      EachClaimed(n, front) && Claimable(Failing(n, front), times[|times| - 1])
  }

  /** The backoffs before attempt number `k + 1`, together. */
  function Waits(k: nat): int {
    if k == 0 then 0 else Waits(k - 1) + BackoffMinutes(k)
  }

  /** The row after `k` failed deliveries of a message queued for `due`. */
  ghost predicate OnSchedule(n: Notice, k: nat, due: int) {
    && k <= MAX_ATTEMPTS && n.attempts == k
    && n.progress == (if k == MAX_ATTEMPTS then Exhausted else Pending)
    && (k < MAX_ATTEMPTS ==> n.nextAttempt >= due + Waits(k) * MINUTE)
  }

  lemma OneMoreFailure(n: Notice, k: nat, due: int, now: int)
    requires OnSchedule(n, k, due) && Claimable(n, now)
    ensures k < MAX_ATTEMPTS && now >= due + Waits(k) * MINUTE && OnSchedule(Drained(n, Failed, now), k + 1, due)
  {
    assert Waits(k + 1) == Waits(k) + BackoffMinutes(k + 1);
  }

  lemma LastWait()
    ensures Waits(MAX_ATTEMPTS - 1) == 336
  {
    assert Waits(1) == 1 && Waits(2) == 6 && Waits(3) == 36 && Waits(4) == 96;
  }

  /** A message no server takes is tried six times and then given up: attempt `k + 1` is made at the earliest
      when the backoffs before it are over, so the last one five hours and 36 minutes after it was due. */
  lemma {:induction false} RetrySchedule(key: string, due: int, times: seq<int>)
    requires EachClaimed(Fresh(key, due), times)
    ensures OnSchedule(Failing(Fresh(key, due), times), |times|, due)
    ensures forall k :: 0 <= k < |times| ==> times[k] >= due + Waits(k) * MINUTE
    ensures |times| == MAX_ATTEMPTS ==> times[MAX_ATTEMPTS - 1] >= due + 336 * MINUTE
    decreases |times|
  {
    LastWait();
    if times != [] {
      var front := times[..|times| - 1];
      RetrySchedule(key, due, front);
      assert forall k :: 0 <= k < |front| ==> times[k] == front[k];
      OneMoreFailure(Failing(Fresh(key, due), front), |front|, due, times[|front|]);
    }
  }

  lemma InOrderDistinct(rows: seq<Notice>, ids: seq<nat>, k: nat)
    requires InOrder(rows, ids) && k < |ids|
    ensures ids[k] !in ids[..k] && ids[..k + 1] == ids[..k] + [ids[k]]
  {
  }

  /** A batch whose first `k` rows are leased, and the claims on them. */
  ghost predicate LeasedUpTo(before: seq<Notice>, ids: seq<nat>, k: nat, now: int, rows: seq<Notice>, claimed: seq<Claim>)
    requires InOrder(before, ids) && k <= |ids|
  {
    && rows == LeaseAll(before, ids[..k], now)
    && |claimed| == k
    && (forall j :: 0 <= j < k ==> claimed[j] == ClaimOn(before, ids[j], now))
  }

  lemma LeaseOneMore(before: seq<Notice>, ids: seq<nat>, k: nat, now: int, rows: seq<Notice>, claimed: seq<Claim>)
    requires InOrder(before, ids) && k < |ids| && LeasedUpTo(before, ids, k, now, rows, claimed)
    ensures ids[k] < |rows| && rows[ids[k]] == before[ids[k]]
    ensures LeasedUpTo(before, ids, k + 1, now, rows[ids[k] := Leased(before[ids[k]], now)],
                       claimed + [ClaimOn(before, ids[k], now)])
  {
    InOrderDistinct(before, ids, k);
  }

  /** How many of the deliveries ended this way. */
  function Ended(ids: seq<nat>, deliver: nat -> Delivery, result: Delivery): nat {
    if ids == [] then 0
    else Ended(ids[..|ids| - 1], deliver, result) + if deliver(ids[|ids| - 1]) == result then 1 else 0
  }

  /** The counters after the first `k` deliveries. */
  ghost predicate Tallied(ids: seq<nat>, k: nat, deliver: nat -> Delivery, sent: nat, failed: nat, stale: nat)
    requires k <= |ids|
  {
    && sent == Ended(ids[..k], deliver, Delivered)
    && failed == Ended(ids[..k], deliver, Failed)
    && stale == Ended(ids[..k], deliver, Stale)
    && sent + failed + stale == k
  }

  lemma TallyOneMore(ids: seq<nat>, k: nat, deliver: nat -> Delivery, sent: nat, failed: nat, stale: nat)
    requires k < |ids| && Tallied(ids, k, deliver, sent, failed, stale)
    ensures match deliver(ids[k])
      case Delivered => Tallied(ids, k + 1, deliver, sent + 1, failed, stale)
      case Failed => Tallied(ids, k + 1, deliver, sent, failed + 1, stale)
      case Stale => Tallied(ids, k + 1, deliver, sent, failed, stale + 1)
  {
    assert ids[..k + 1][..k] == ids[..k];
  }

  /** The rows of a batch, its first `k` claims settled. */
  ghost predicate SettledUpTo(before: seq<Notice>, ids: seq<nat>, k: nat, deliver: nat -> Delivery, now: int,
                              rows: seq<Notice>)
    requires k <= |ids|
  {
    && |rows| == |before|
    && (forall i: nat :: i < |rows| && i in ids[..k] ==> rows[i] == Drained(before[i], deliver(i), now))
    && (forall i: nat :: i < |rows| && i !in ids[..k] ==> rows[i] == if i in ids then Leased(before[i], now) else before[i])
  }

  lemma SettleOneMore(before: seq<Notice>, ids: seq<nat>, k: nat, deliver: nat -> Delivery, now: int, rows: seq<Notice>,
                      after: seq<Notice>)
    requires InOrder(before, ids) && k < |ids| && SettledUpTo(before, ids, k, deliver, now, rows)
    requires after == rows[ids[k] := Settled(rows[ids[k]], before[ids[k]].attempts + 1, deliver(ids[k]), now)]
    ensures SettledUpTo(before, ids, k + 1, deliver, now, after)
  {
    InOrderDistinct(before, ids, k);
    assert ids[k] in ids;
    assert rows[ids[k]] == Leased(before[ids[k]], now);
  }

  // ---------------------------------------------------------------- the table

  class OutboxTable {
    var rows: seq<Notice>

    constructor (contents: seq<Notice>)
      ensures rows == contents
    {
      rows := contents;
    }

    /** Queue a row unless its key is queued already. */
    method Enqueue(key: string, due: int) returns (created: bool)
      modifies this
      ensures created == !Queued(old(rows), key)
      ensures rows == if created then old(rows) + [Fresh(key, due)] else old(rows)
    {
      if Queued(rows, key) {
        return false;
      }
      rows := rows + [Fresh(key, due)];
      return true;
    }

    /** Lease a batch of due rows, one by one; rows locked by another worker are skipped. */
    method ClaimDue(now: int, locked: set<nat>, limit: Option<nat>) returns (claimed: seq<Claim>)
      modifies this
      ensures rows == LeaseAll(old(rows), Batch(old(rows), now, locked, BatchSize(limit)), now)
      ensures |claimed| == |Batch(old(rows), now, locked, BatchSize(limit))|
      ensures forall k :: 0 <= k < |claimed| ==>
        claimed[k] == ClaimOn(old(rows), Batch(old(rows), now, locked, BatchSize(limit))[k], now)
    {
      var ids := Batch(rows, now, locked, BatchSize(limit));
      ghost var before := rows;
      claimed := [];
      for k := 0 to |ids|
        invariant LeasedUpTo(before, ids, k, now, rows, claimed)
      {
        LeaseOneMore(before, ids, k, now, rows, claimed);
        var row := rows[ids[k]];
        claimed := claimed + [Claim(ids[k], row.attempts + 1, now, now + LEASE)];
        rows := rows[ids[k] := row.(leaseUntil := Some(now + LEASE), attempts := row.attempts + 1)];
      }
      assert ids[..|ids|] == ids;
    }

    method MarkSent(claim: Claim, now: int)
      requires claim.row < |rows|
      modifies this
      ensures rows == old(rows)[claim.row := Settled(old(rows)[claim.row], claim.attempts, Delivered, now)]
    {
      rows := rows[claim.row := rows[claim.row].(progress := Sent, sentAt := Some(now), leaseUntil := None)];
    }

    method MarkFailed(claim: Claim, now: int)
      requires claim.row < |rows|
      modifies this
      ensures rows == old(rows)[claim.row := Settled(old(rows)[claim.row], claim.attempts, Failed, now)]
    {
      var row := rows[claim.row];
      if claim.attempts >= MAX_ATTEMPTS {
        rows := rows[claim.row := row.(progress := Exhausted, leaseUntil := None)];
        return;
      }
      var index := if claim.attempts - 1 < |BACKOFF_MINUTES| - 1 then claim.attempts - 1 else |BACKOFF_MINUTES| - 1;
      var delay := BACKOFF_MINUTES[if index < 0 then 0 else index];
      rows := rows[claim.row := row.(nextAttempt := now + delay * MINUTE, leaseUntil := None)];
    }

    method Cancel(claim: Claim)
      requires claim.row < |rows|
      modifies this
      ensures rows == old(rows)[claim.row := Settled(old(rows)[claim.row], claim.attempts, Stale, 0)]
    {
      rows := rows[claim.row := rows[claim.row].(progress := Withdrawn, leaseUntil := None)];
    }

    /** Settle one claim as its delivery ended. */
    method Settle(claim: Claim, result: Delivery, now: int)
      requires claim.row < |rows|
      modifies this
      ensures rows == old(rows)[claim.row := Settled(old(rows)[claim.row], claim.attempts, result, now)]
    {
      match result
      case Delivered => MarkSent(claim, now);
      case Failed => MarkFailed(claim, now);
      case Stale => Cancel(claim);
    }

    /** Deliver one batch; `deliver` says how the delivery of each row ends. Every claimed row is
        settled once and counted once, and no other row changes. */
    method Drain(now: int, locked: set<nat>, limit: Option<nat>, deliver: nat -> Delivery)
      returns (claimed: nat, sent: nat, failed: nat, stale: nat)
      modifies this
      ensures claimed == sent + failed + stale
      ensures var ids := Batch(old(rows), now, locked, BatchSize(limit));
        && claimed == |ids|
        && Tallied(ids, |ids|, deliver, sent, failed, stale)
        && SettledUpTo(old(rows), ids, |ids|, deliver, now, rows)
    {
      ghost var before, ids := rows, Batch(rows, now, locked, BatchSize(limit));
      var claims := ClaimDue(now, locked, limit);
      sent, failed, stale := 0, 0, 0;
      for k := 0 to |claims|
        invariant Tallied(ids, k, deliver, sent, failed, stale)
        invariant SettledUpTo(before, ids, k, deliver, now, rows)
      {
        var claim := claims[k];
        TallyOneMore(ids, k, deliver, sent, failed, stale);
        var result := deliver(claim.row);
        ghost var settled := rows;
        Settle(claim, result, now);
        SettleOneMore(before, ids, k, deliver, now, settled, rows);
        match result
        case Delivered => sent := sent + 1;
        case Failed => failed := failed + 1;
        case Stale => stale := stale + 1;
      }
      claimed := |claims|;
    }
  }
}
