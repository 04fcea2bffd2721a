/** At most once over the histories of the whole engine, ticks, timetables and prunings included. */
module Idempotency {
  import opened Tables
  import opened Reconcile
  import opened Operations
  import opened Protocol
  import opened Machine

  /** The event as the idempotency theorems see it. */
  function MomentOf(e: Event, budget: nat): Moment {
    match e
    case Ask(attempts, call, op) => Asked(Request(attempts, budget, call, BodyFor(op)))
    case _ => Changed((db: Db) => DbAfter(db, e, budget))
  }

  function Moments(events: seq<Event>, budget: nat): (r: seq<Moment>)
    ensures |r| == |events| && forall k :: 0 <= k < |r| ==> r[k] == MomentOf(events[k], budget)
  {
    seq(|events|, k requires 0 <= k < |events| => MomentOf(events[k], budget))
  }

  /** No pruning of the history removes the key. */
  predicate KeepsKey(events: seq<Event>, key: RequestKey) {
    forall k :: 0 <= k < |events| && events[k].Prune? ==> key !in events[k].keys
  }

  lemma EventMinds(e: Event, budget: nat, key: RequestKey)
    requires e.Prune? ==> key !in e.keys
    ensures Minds(MomentOf(e, budget), key)
  {
    match e
    case Ask(_, _, op) => BodiesKeepRequests(op);
    case _ =>
      forall db: Db
        ensures SameRecord(db.requests, DbAfter(db, e, budget).requests, key)
      {
      }
  }

  lemma EachEventMinds(events: seq<Event>, budget: nat, key: RequestKey)
    requires KeepsKey(events, key)
    ensures EachMinds(Moments(events, budget), key)
  {
    forall k | 0 <= k < |events|
      ensures Minds(Moments(events, budget)[k], key)
    {
      EventMinds(events[k], budget, key);
    }
  }

  /** The engine moves the tables as these moments do. */
  lemma {:induction false} PlayIsAfter(s: State, events: seq<Event>, budget: nat)
    ensures Play(s, events, budget).db == After(s.db, Moments(events, budget))
    decreases |events|
  {
    if events != [] {
      var front := events[..|events| - 1];
      PlayIsAfter(s, front, budget);
      assert Moments(events, budget)[..|events| - 1] == Moments(front, budget);
    }
  }

  /** In any history that does not prune the key, the requests under one user, operation and key take effect
      at most once, and the record of the one that did stays as it was written. */
  lemma EveryHistoryActsOnce(s: State, events: seq<Event>, budget: nat, key: RequestKey)
    requires KeepsKey(events, key)
    ensures Effects(s.db, Moments(events, budget), key) <= 1
    ensures Effects(s.db, Moments(events, budget), key) == 1 <==>
      key !in s.db.requests && key in Play(s, events, budget).db.requests
    ensures key in s.db.requests ==>
      key in Play(s, events, budget).db.requests && Play(s, events, budget).db.requests[key] == s.db.requests[key]
  {
    EachEventMinds(events, budget, key);
    PlayIsAfter(s, events, budget);
    AtMostOnce(s.db, Moments(events, budget), key);
    if key in s.db.requests {
      RecordsAreKept(s.db, Moments(events, budget), key);
    }
  }

  /** A retry after any such history is answered with what the first request was told. */
  lemma EveryHistoryReplays(s: State, first: Event, since: seq<Event>, again: Event, budget: nat, now: int)
    requires first.Ask? && again.Ask? && Keyed(first.call) && Keyed(again.call) && KeyOf(again.call) == KeyOf(first.call)
    requires KeepsKey(since, KeyOf(first.call)) && Deciding(again.attempts) == Granted(now)
    requires TookEffect(s.db, MomentOf(first, budget).request)
    ensures var told := Serve(s.db, MomentOf(first, budget).request).reply.outcome;
      var later := Play(Next(s, first, budget), since, budget);
      var rec := Run(later.db, now, budget);
      && Next(later, again, budget).db == rec.db
      && (rec.complete ==> Serve(later.db, MomentOf(again, budget).request).reply == Retold(told, first.call, again.call))
  {
    EventMinds(first, budget, KeyOf(first.call));
    EachEventMinds(since, budget, KeyOf(first.call));
    PlayIsAfter(Next(s, first, budget), since, budget);
    RetryIsReplayed(s.db, MomentOf(first, budget).request, Moments(since, budget), MomentOf(again, budget).request, now);
  }
}
