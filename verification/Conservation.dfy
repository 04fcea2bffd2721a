/** Strike conservation: strikes are spent at most once, and only on suspensions. */
module Conservation {
  import opened Tables
  import opened Ledgers
  import opened Soundness
  import opened Machine

  /** The thresholds of the automatic suspensions the user was ever given. */
  function ThresholdsPaid(ss: seq<Suspension>, user: nat): nat {
    if ss == [] then 0
    else
      var last := ss[|ss| - 1];
      ThresholdsPaid(ss[..|ss| - 1], user) + if last.user == user && last.auto then last.threshold else 0
  }

  /** The violations of the user that count as strikes, voided or not. */
  function StrikesEver(vs: seq<Violation>, user: nat): nat {
    |set k | 0 <= k < |vs| && vs[k].user == user && vs[k].counts|
  }

  /** The user's strikes consumed by one of the first `n` suspensions. */
  ghost function SpentOn(vs: seq<Violation>, user: nat, n: nat): set<nat> {
    set k: nat | k < |vs| && vs[k].user == user && vs[k].counts && vs[k].consumedBy.Some? && vs[k].consumedBy.value < n
  }

  lemma DisjointCard(a: set<nat>, b: set<nat>)
    requires a !! b
    ensures |a + b| == |a| + |b|
  {
  }

  lemma SpentStep(vs: seq<Violation>, ss: seq<Suspension>, user: nat, n: nat)
    requires StrikesSound(vs, ss) && n < |ss|
    ensures |SpentOn(vs, user, n + 1)| ==
      |SpentOn(vs, user, n)| + if ss[n].user == user && ss[n].auto then |ConsumedIds(vs, n)| else 0
  {
    var here := if ss[n].user == user && ss[n].auto then ConsumedIds(vs, n) else {};
    assert SpentOn(vs, user, n + 1) == SpentOn(vs, user, n) + here;
    DisjointCard(SpentOn(vs, user, n), here);
  }

  /** What the first `n` suspensions cost the user is at most what was spent on them. */
  lemma {:induction false} PaidIsSpent(vs: seq<Violation>, ss: seq<Suspension>, user: nat, n: nat)
    requires StrikesSound(vs, ss) && n <= |ss|
    ensures ThresholdsPaid(ss[..n], user) <= |SpentOn(vs, user, n)|
  {
    if n > 0 {
      PaidIsSpent(vs, ss, user, n - 1);
      assert ss[..n][..n - 1] == ss[..n - 1];
      SpentStep(vs, ss, user, n - 1);
    }
  }

  /** In every sound state the thresholds of a user's automatic suspensions add up to no more than the
      strikes the user ever collected. */
  lemma SuspensionsArePaidFor(db: Db, user: nat, clock: int)
    requires Sound(db, clock)
    ensures ThresholdsPaid(db.suspensions, user) <= StrikesEver(db.violations, user)
  {
    var n := |db.suspensions|;
    assert db.suspensions[..n] == db.suspensions;
    PaidIsSpent(db.violations, db.suspensions, user, n);
    var spent := SpentOn(db.violations, user, n);
    var all := set k | 0 <= k < |db.violations| && db.violations[k].user == user && db.violations[k].counts;
    DisjointCard(spent, all - spent);
    assert all == spent + (all - spent);
  }

  /** Conservation over whole histories, through voids, lifts and adjusted ends. */
  lemma EveryHistoryConservesStrikes(s: State, events: seq<Event>, budget: nat, user: nat)
    requires Sound(s.db, s.clock) && Forward(s, events, budget)
    ensures var db := Play(s, events, budget).db;
      ThresholdsPaid(db.suspensions, user) <= StrikesEver(db.violations, user)
  {
    EveryHistoryIsSound(s, events, budget);
    SuspensionsArePaidFor(Play(s, events, budget).db, user, Play(s, events, budget).clock);
  }
}
