/** The transaction protocol of every operational write (core/services/protocol.py), for an
    arbitrary service body. */
module Protocol {
  import opened Tables
  import opened Reconcile

  /** A request as the protocol sees it. An empty key or a missing actor means no idempotency
      record. The fingerprint stands for the payload: equal exactly when the payloads are. */
  datatype Call = Call(actor: Option<nat>, operation: string, key: string, fingerprint: string)

  type BodyOf = (Db, int) -> BodyResult

  /** What the database does with one attempt: the lock wait ends first, the transaction fails
      with a serialization failure or a deadlock, or it runs with the clock read under the lock. */
  datatype Attempt = LockTimeout | Transient | Granted(now: int)

  datatype Reply = Answer(outcome: Outcome, replayed: bool) | Error

  datatype Ran = Ran(db: Db, reply: Reply)

  const MAX_RETRIES := 2

  predicate Keyed(call: Call) {
    call.key != "" && call.actor.Some?
  }

  function KeyOf(call: Call): RequestKey
    requires Keyed(call)
  {
    RequestKey(call.actor.value, call.operation, call.key)
  }

  function Rejection(code: Code): Reply {
    Answer(Outcome(false, code, []), false)
  }

  /** What a retry of a recorded request is told. */
  function Recall(prior: Recorded, call: Call): Reply {
    if prior.fingerprint != call.fingerprint then Rejection(PayloadMismatch)
    else Answer(Outcome(true, prior.code, prior.data), true)
  }

  function Classify(c: Constraint): Code {
    match c
    case RoomSlotUnique => SlotTaken
    case UserSlotUnique => AdjacencyConflict
    case RequestUnique => Busy
    case OtherConstraint => SlotTaken
  }

  /** Store the idempotency record of a success. A record that is already there makes the insert
      fail, and the stored one answers instead. */
  function Record(db: Db, call: Call, outcome: Outcome): Ran {
    if !Keyed(call) then Ran(db, Answer(outcome, false))
    else if KeyOf(call) in db.requests then Ran(db, Recall(db.requests[KeyOf(call)], call))
    else
      Ran(db.(requests := db.requests[KeyOf(call) := Recorded(call.fingerprint, outcome.code, outcome.data)]),
          Answer(outcome, false))
  }

  /** The answer once reconciliation has left `rec`; `db` is what the transaction started from. */
  function Respond(db: Db, rec: Reconciled, now: int, call: Call, body: BodyOf): Ran {
    if !rec.complete then Ran(rec.db, Rejection(Busy))
    else if Keyed(call) && KeyOf(call) in rec.db.requests
    then Ran(rec.db, Recall(rec.db.requests[KeyOf(call)], call))
    else
      var r := body(rec.db, now);
      match r.exit
      case Returned(outcome) =>
        if outcome.ok then Record(r.db, call, outcome) else Ran(rec.db, Answer(outcome, false))
      case Raised(code) => Ran(rec.db, Rejection(code))
      case ConstraintFailed(constraint) => Ran(rec.db, Rejection(Classify(constraint)))
      case Crashed => Ran(db, Error)
  }

  function RunOnce(db: Db, now: int, budget: nat, call: Call, body: BodyOf): Ran {
    Respond(db, Run(db, now, budget), now, call, body)
  }

  /** The attempts from number `attempt` on. */
  function RunFrom(db: Db, attempts: nat -> Attempt, attempt: nat, budget: nat, call: Call, body: BodyOf): Ran
    requires 1 <= attempt <= MAX_RETRIES + 1
    decreases MAX_RETRIES + 1 - attempt
  {
    match attempts(attempt)
    case LockTimeout => Ran(db, Rejection(Busy))
    case Granted(now) => RunOnce(db, now, budget, call, body)
    case Transient =>
      if attempt <= MAX_RETRIES then RunFrom(db, attempts, attempt + 1, budget, call, body) else Ran(db, Error)
  }

  function RunOperation(db: Db, attempts: nat -> Attempt, budget: nat, call: Call, body: BodyOf): Ran {
    RunFrom(db, attempts, 1, budget, call, body)
  }

  // ---------------------------------------------------------------- what a request commits

  /** A run stopped by its budget keeps the passes before the one that was too long, and only them. */
  lemma StoppedRunKeepsPrefix(db: Db, now: int, budget: nat)
    requires !Run(db, now, budget).complete
    ensures var r := Run(db, now, budget).db;
      var a := ExpireApprovals(db, now);
      var b := RecordNoShows(a, now);
      var c := StartHolds(b, now);
      || (r == db && OverBudget(Approvals, db, now, budget))
      || (r == a && OverBudget(NoShows, a, now, budget))
      || (r == b && OverBudget(Holds, b, now, budget))
      || (r == c && OverBudget(Completions, c, now, budget))
  {
  }

  /** The request is somebody's, comes under a key, and has a record there. */
  predicate HasRecord(requests: map<RequestKey, Recorded>, call: Call) {
    && call.key != "" && call.actor != None
    && RequestKey(call.actor.value, call.operation, call.key) in requests
  }

  /** What an arbitrary body leaves behind. A refusal commits the reconciled tables and nothing of
      the body; a success commits the body on top of them; an unhandled error commits nothing. */
  ghost predicate Commits(db: Db, rec: Reconciled, now: int, body: BodyOf, ran: Ran) {
    && (ran.reply.Error? ==> ran.db == db)
    && (ran.reply.Answer? && !ran.reply.outcome.ok ==> ran.db == rec.db)
    && (ran.reply.Answer? && ran.reply.replayed ==> ran.db == rec.db)
    && (ran.reply.Answer? && ran.reply.outcome.ok && !ran.reply.replayed ==>
          && rec.complete
          && Succeeded(body(rec.db, now).exit)
          && ran.db == body(rec.db, now).db.(requests := ran.db.requests)
          && ran.reply.outcome == body(rec.db, now).exit.outcome)
  }

  /** What the caller is told of a request without a record once its body has run: the outcome it returned or
      the refusal it raised, as they stand, and for each constraint that failed the code of its own. */
  ghost predicate Tells(exit: Exit, reply: Reply) {
    && (forall outcome :: exit == Returned(outcome) ==> reply == Answer(outcome, false))
    && (forall code :: exit == Raised(code) ==> reply == Answer(Outcome(false, code, []), false))
    && (exit == ConstraintFailed(RoomSlotUnique) ==> reply == Answer(Outcome(false, SlotTaken, []), false))
    && (exit == ConstraintFailed(UserSlotUnique) ==> reply == Answer(Outcome(false, AdjacencyConflict, []), false))
    && (exit == ConstraintFailed(RequestUnique) ==> reply == Answer(Outcome(false, Busy, []), false))
    && (exit == ConstraintFailed(OtherConstraint) ==> reply == Answer(Outcome(false, SlotTaken, []), false))
    && (exit == Crashed <==> reply == Error)
  }

  /** What the caller is told of a request with a record: the recorded result if the payload is the same. */
  predicate Repeats(prior: Recorded, call: Call, reply: Reply) {
    && (call.fingerprint == prior.fingerprint ==> reply == Answer(Outcome(true, prior.code, prior.data), true))
    && (call.fingerprint != prior.fingerprint ==> reply == Answer(Outcome(false, PayloadMismatch, []), false))
  }

  ghost predicate Answers(rec: Reconciled, now: int, call: Call, body: BodyOf, reply: Reply) {
    && (!rec.complete ==> reply == Answer(Outcome(false, Busy, []), false))
    && (rec.complete && HasRecord(rec.db.requests, call) ==>
          Repeats(rec.db.requests[RequestKey(call.actor.value, call.operation, call.key)], call, reply))
    && (rec.complete && !HasRecord(rec.db.requests, call) ==> Tells(body(rec.db, now).exit, reply))
  }

  /** The body said so, or the insert of a record met one. */
  predicate SaysBusy(exit: Exit) {
    || exit == Raised(Busy) || exit == ConstraintFailed(RequestUnique)
    || (exit.Returned? && exit.outcome.code == Busy)
  }

  /** Nobody is turned away as busy for any other reason, and only requests with a record are answered from it. */
  ghost predicate OnlyThen(rec: Reconciled, now: int, call: Call, body: BodyOf, reply: Reply) {
    && (reply == Answer(Outcome(false, Busy, []), false) ==>
          !rec.complete || (!HasRecord(rec.db.requests, call) && SaysBusy(body(rec.db, now).exit)))
    && (reply.Answer? && reply.replayed ==> rec.complete && HasRecord(rec.db.requests, call))
  }

  /** The record a success leaves: under the caller's key, with the payload, the code and the data of the answer.
      A request of nobody or under no key leaves none. */
  ghost predicate Records(rec: Reconciled, call: Call, ran: Ran) {
    && (ran.reply.Answer? && ran.reply.outcome.ok && !ran.reply.replayed && call.key != "" && call.actor != None ==>
          ran.db.requests == rec.db.requests[RequestKey(call.actor.value, call.operation, call.key) :=
            Recorded(call.fingerprint, ran.reply.outcome.code, ran.reply.outcome.data)])
    && (ran.reply.Answer? && !ran.reply.outcome.ok ==> ran.db.requests == rec.db.requests)
    && (ran.reply.Answer? && (ran.reply.replayed || call.key == "" || call.actor == None) ==>
          ran.db.requests == rec.db.requests)
  }

  /** Everything about one attempt: what it commits, what it answers and what it records. */
  ghost predicate Settles(db: Db, rec: Reconciled, now: int, call: Call, body: BodyOf, ran: Ran) {
    && Commits(db, rec, now, body, ran) && Records(rec, call, ran)
    && Answers(rec, now, call, body, ran.reply) && OnlyThen(rec, now, call, body, ran.reply)
  }

  lemma RespondCommits(db: Db, rec: Reconciled, now: int, call: Call, body: BodyOf)
    requires rec.complete ==> KeepsRequests(body, rec.db, now)
    ensures Settles(db, rec, now, call, body, Respond(db, rec, now, call, body))
  {
  }

  /** A success that meets a record of its own key when it stores one changes nothing more, and is answered from it. */
  lemma LostRace(db: Db, call: Call, outcome: Outcome)
    requires HasRecord(db.requests, call)
    ensures var ran := Record(db, call, outcome);
      ran.db == db && Repeats(db.requests[RequestKey(call.actor.value, call.operation, call.key)], call, ran.reply)
  {
  }

  lemma OnceCommits(db: Db, now: int, budget: nat, call: Call, body: BodyOf)
    requires forall d :: KeepsRequests(body, d, now)
    ensures Settles(db, Run(db, now, budget), now, call, body, RunOnce(db, now, budget, call, body))
  {
    RespondCommits(db, Run(db, now, budget), now, call, body);
  }

  predicate KeepsRequests(body: BodyOf, db: Db, now: int) {
    body(db, now).db.requests == db.requests
  }

  /** The attempt that decides the request, if one of the three does. */
  function Deciding(attempts: nat -> Attempt): Attempt {
    if !attempts(1).Transient? then attempts(1)
    else if !attempts(2).Transient? then attempts(2)
    else attempts(3)
  }

  /** Retries leave no trace: the request is the one deciding attempt. */
  lemma RetriesLeaveNoTrace(db: Db, attempts: nat -> Attempt, budget: nat, call: Call, body: BodyOf)
    ensures RunOperation(db, attempts, budget, call, body) ==
      match Deciding(attempts)
      case LockTimeout => Ran(db, Rejection(Busy))
      case Transient => Ran(db, Error)
      case Granted(now) => RunOnce(db, now, budget, call, body)
  {
    assert attempts(3).Transient? ==> RunFrom(db, attempts, 3, budget, call, body) == Ran(db, Error);
  }

  /** What becomes of a request whose attempts before number `k` were given up. */
  ghost predicate DecidedAt(db: Db, attempt: Attempt, k: nat, budget: nat, call: Call, body: BodyOf, ran: Ran) {
    match attempt
    case LockTimeout => ran.db == db && ran.reply == Answer(Outcome(false, Busy, []), false)
    case Granted(now) => Settles(db, Run(db, now, budget), now, call, body, ran)
    case Transient => k == 3 ==> ran.db == db && ran.reply == Error
  }

  /** The first attempt the database does not give up decides: it finds the lock taken, or answers as above. Three
      attempts given up are an error that leaves nothing behind. */
  lemma OperationCommits(db: Db, attempts: nat -> Attempt, budget: nat, call: Call, body: BodyOf, k: nat)
    requires forall d, now :: KeepsRequests(body, d, now)
    requires 1 <= k <= 3 && forall j :: 1 <= j < k ==> attempts(j) == Transient
    ensures DecidedAt(db, attempts(k), k, budget, call, body, RunOperation(db, attempts, budget, call, body))
  {
    RetriesLeaveNoTrace(db, attempts, budget, call, body);
    assert attempts(k) == Transient || Deciding(attempts) == attempts(k);
    match attempts(k)
    case Granted(now) => OnceCommits(db, now, budget, call, body);
    case _ =>
  }

  // ---------------------------------------------------------------- idempotency over whole runs

  datatype Request = Request(attempts: nat -> Attempt, budget: nat, call: Call, body: BodyOf)

  function Serve(db: Db, r: Request): Ran {
    RunOperation(db, r.attempts, r.budget, r.call, r.body)
  }

  /** What happens to the tables: a request, or anything else, such as a tick or a new timetable. */
  datatype Moment = Asked(request: Request) | Changed(change: Db -> Db)

  /** The tables after a history. */
  function After(db: Db, history: seq<Moment>): Db
    decreases |history|
  {
    if history == [] then db
    else
      var before := After(db, history[..|history| - 1]);
      match history[|history| - 1]
      case Asked(request) => Serve(before, request).db
      case Changed(change) => change(before)
  }

  /** No service body touches the idempotency table. */
  ghost predicate WellBehaved(r: Request) {
    forall db, now :: KeepsRequests(r.body, db, now)
  }

  /** The body of the request took effect: it ran, succeeded and was committed. */
  predicate TookEffect(db: Db, r: Request) {
    var ran := Serve(db, r);
    ran.reply.Answer? && ran.reply.outcome.ok && !ran.reply.replayed
  }

  /** The idempotency table after one answer. */
  function RequestsAfter(requests: map<RequestKey, Recorded>, call: Call, reply: Reply): map<RequestKey, Recorded> {
    if Keyed(call) && reply.Answer? && reply.outcome.ok && !reply.replayed
    then requests[KeyOf(call) := Recorded(call.fingerprint, reply.outcome.code, reply.outcome.data)]
    else requests
  }

  lemma RespondRequests(db: Db, rec: Reconciled, now: int, call: Call, body: BodyOf)
    requires rec.complete ==> KeepsRequests(body, rec.db, now)
    requires rec.db.requests == db.requests
    ensures var ran := Respond(db, rec, now, call, body);
      && ran.db.requests == RequestsAfter(db.requests, call, ran.reply)
      && (ran.reply.Answer? && ran.reply.replayed ==> Keyed(call) && KeyOf(call) in db.requests)
      && (Keyed(call) && ran.reply.Answer? && ran.reply.outcome.ok && !ran.reply.replayed ==> KeyOf(call) !in db.requests)
  {
  }

  /** One request adds at most its own record, exactly when its body took effect, and changes none. */
  lemma ServeRequests(db: Db, r: Request)
    requires WellBehaved(r)
    ensures Serve(db, r).db.requests == RequestsAfter(db.requests, r.call, Serve(db, r).reply)
    ensures TookEffect(db, r) && Keyed(r.call) ==> KeyOf(r.call) !in db.requests
  {
    RetriesLeaveNoTrace(db, r.attempts, r.budget, r.call, r.body);
    var attempt := Deciding(r.attempts);
    if attempt.Granted? {
      var rec := Run(db, attempt.now, r.budget);
      assert KeepsRequests(r.body, rec.db, attempt.now);
      RespondRequests(db, rec, attempt.now, r.call, r.body);
    }
  }

  predicate SameRecord(requests: map<RequestKey, Recorded>, next: map<RequestKey, Recorded>, key: RequestKey) {
    (key in requests <==> key in next) && (key in requests ==> next[key] == requests[key])
  }

  /** The record under the key is the business of requests alone: nothing else adds, changes or prunes it. */
  ghost predicate Minds(m: Moment, key: RequestKey) {
    match m
    case Asked(request) => WellBehaved(request)
    case Changed(change) => forall db: Db :: SameRecord(db.requests, change(db).requests, key)
  }

  ghost predicate EachMinds(history: seq<Moment>, key: RequestKey) {
    forall k :: 0 <= k < |history| ==> Minds(history[k], key)
  }

  /** How often bodies under one key took effect in a history. */
  function Effects(db: Db, history: seq<Moment>, key: RequestKey): nat
    decreases |history|
  {
    if history == [] then 0
    else
      var before, last := history[..|history| - 1], history[|history| - 1];
      Effects(db, before, key) +
      if last.Asked? && Keyed(last.request.call) && KeyOf(last.request.call) == key
         && TookEffect(After(db, before), last.request) then 1 else 0
  }

  lemma LastChanged(db: Db, history: seq<Moment>, key: RequestKey)
    requires history != [] && history[|history| - 1].Changed? && Minds(history[|history| - 1], key)
    ensures SameRecord(After(db, history[..|history| - 1]).requests, After(db, history).requests, key)
  {
    var before, last := After(db, history[..|history| - 1]), history[|history| - 1];
    assert SameRecord(before.requests, last.change(before).requests, key);
  }

  /** At most once: whatever the bodies, the payloads and the retries, and whatever happens in between, and
      exactly once as soon as the key has a record that was not there before. */
  lemma {:induction false} AtMostOnce(db: Db, history: seq<Moment>, key: RequestKey)
    requires EachMinds(history, key)
    ensures Effects(db, history, key) <= 1
    ensures Effects(db, history, key) == 1 <==> key !in db.requests && key in After(db, history).requests
    ensures key in db.requests ==> key in After(db, history).requests
    decreases |history|
  {
    if history != [] {
      var before, last := history[..|history| - 1], history[|history| - 1];
      AtMostOnce(db, before, key);
      assert Minds(last, key);
      match last
      case Asked(request) => ServeRequests(After(db, before), request);
      case Changed(_) => LastChanged(db, history, key);
    }
  }

  /** A record, once written, is never changed or lost. */
  lemma {:induction false} RecordsAreKept(db: Db, history: seq<Moment>, key: RequestKey)
    requires EachMinds(history, key) && key in db.requests
    ensures key in After(db, history).requests && After(db, history).requests[key] == db.requests[key]
    decreases |history|
  {
    if history != [] {
      var before, last := history[..|history| - 1], history[|history| - 1];
      RecordsAreKept(db, before, key);
      assert Minds(last, key);
      match last
      case Asked(request) => ServeRequests(After(db, before), request);
      case Changed(_) => LastChanged(db, history, key);
    }
  }

  /** What a repeated request is told of the first one's outcome. */
  function Retold(told: Outcome, first: Call, again: Call): Reply {
    if again.fingerprint == first.fingerprint then Answer(Outcome(true, told.code, told.data), true)
    else Rejection(PayloadMismatch)
  }

  /** Retry: after a keyed request took effect and any history since, the same request is answered
      with the recorded code and data, another payload is refused, and neither changes anything
      beyond reconciliation. */
  lemma RetryIsReplayed(db: Db, first: Request, since: seq<Moment>, again: Request, now: int)
    requires Keyed(first.call) && Keyed(again.call) && KeyOf(again.call) == KeyOf(first.call)
    requires WellBehaved(first) && EachMinds(since, KeyOf(first.call))
    requires Deciding(again.attempts) == Granted(now)
    ensures var later := After(Serve(db, first).db, since);
      var rec := Run(later, now, again.budget);
      TookEffect(db, first) ==>
        && Serve(later, again).db == rec.db
        && (rec.complete ==> Serve(later, again).reply == Retold(Serve(db, first).reply.outcome, first.call, again.call))
  {
    if TookEffect(db, first) {
      ServeRequests(db, first);
      RecordsAreKept(Serve(db, first).db, since, KeyOf(first.call));
      var later := After(Serve(db, first).db, since);
      RetriesLeaveNoTrace(later, again.attempts, again.budget, again.call, again.body);
    }
  }
}
