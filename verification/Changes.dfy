/** Changes that one service applies to every booking row it selects. The services select rows by
    query and save them one at a time; here a change is a function on one row. */
module Changes {
  import opened Slots
  import opened Tables

  datatype RowChange =
    | ExpireApproval(now: int)
    | Forfeit(now: int, incidents: seq<Incident>)
    | StartHold(now: int)
    | Complete(now: int)
    | CancelOpenOf(user: nat, now: int, reason: CancelReason)
    | FlagInUseOf(user: nat)
    | CancelOpenIn(room: nat, now: int)
    | FlagInUseIn(room: nat)
    | CloseOver(scope: Option<nat>, starts: int, ends: int, now: int, clock: int)
    | Disrupt(incident: nat, extent: Incident, now: int, cancelOpen: bool)
    | CancelOccurrences(series: nat, now: int)

  predicate Overlaps(b: Booking, starts: int, ends: int) {
    b.slot < ends && b.End() > starts
  }

  predicate IncidentCovers(incident: Incident, b: Booking) {
    Overlaps(b, incident.startsAt, incident.endsAt) && (incident.rooms == {} || b.room in incident.rooms)
  }

  predicate Covered(incidents: seq<Incident>, b: Booking) {
    exists k :: 0 <= k < |incidents| && IncidentCovers(incidents[k], b)
  }

  /** Past the check-in deadline without a check-in. Staff holds owe none. */
  predicate Overdue(b: Booking, now: int) {
    b.status.Scheduled? && !b.staff && b.deadline.Some? && b.deadline.value <= now
  }

  /** A booking a closure over `[starts, ends)` of `scope` meets. */
  predicate Affected(b: Booking, scope: Option<nat>, starts: int, ends: int) {
    Upcoming(b.status) && Overlaps(b, starts, ends) && (scope.None? || b.room == scope.value)
  }

  /** In use, or a staff hold whose hour has begun by `clock`. */
  predicate InProgress(b: Booking, clock: int) {
    b.status.InUse? || (b.staff && b.slot <= clock)
  }

  function Cancel(b: Booking, now: int, reason: CancelReason, late: bool): Booking {
    b.(status := Cancelled, cancelledAt := Some(now), cancelReason := Some(reason), late := late)
  }

  predicate LateAt(b: Booking, now: int) {
    now > b.slot - HOUR
  }

  function Apply(c: RowChange, b: Booking): Booking {
    match c
    case ExpireApproval(now) =>
      if b.status.PendingApproval? && b.slot <= now then b.(status := Rejected) else b
    case Forfeit(now, incidents) =>
      if Overdue(b, now) && !Covered(incidents, b) then b.(status := NoShow) else b
    case StartHold(now) =>
      if b.status.Scheduled? && b.staff && b.slot <= now < b.End()
      then b.(status := InUse, checkedInAt := Some(b.slot)) else b
    case Complete(now) =>
      if (b.status.InUse? || (b.status.Scheduled? && b.staff)) && b.End() <= now
      then b.(status := Completed, actualEnd := Some(b.End())) else b
    case CancelOpenOf(user, now, reason) =>
      if b.user == user && Open(b.status) then Cancel(b, now, reason, false) else b
    case FlagInUseOf(user) =>
      if b.user == user && b.status.InUse? then b.(needsReview := true) else b
    case CancelOpenIn(room, now) =>
      if b.room == room && Open(b.status) then Cancel(b, now, ByRoom, false) else b
    case FlagInUseIn(room) =>
      if b.room == room && b.status.InUse? then b.(needsReview := true) else b
    case CloseOver(scope, starts, ends, now, clock) =>
      if !Affected(b, scope, starts, ends) then b
      else if InProgress(b, clock) then b.(needsReview := true)
      else Cancel(b, now, ByClosure, false)
    case Disrupt(incident, extent, now, cancelOpen) =>
      if !IncidentCovers(extent, b) || !(Open(b.status) || b.status.NoShow?) then b
      else if cancelOpen && Open(b.status) then Cancel(b, now, ByIncident, false).(incident := Some(incident))
      else b.(incident := Some(incident))
    case CancelOccurrences(series, now) =>
      if b.series == Some(series) && Open(b.status) && b.slot > now
      then Cancel(b, now, BySeries, LateAt(b, now)) else b
  }

  function MapRows(bs: seq<Booking>, c: RowChange): (r: seq<Booking>)
    ensures |r| == |bs| && forall i :: 0 <= i < |bs| ==> r[i] == Apply(c, bs[i])
  {
    seq(|bs|, i requires 0 <= i < |bs| => Apply(c, bs[i]))
  }

  /** The rows the change cancels. */
  function CancelledBy(bs: seq<Booking>, c: RowChange): set<nat> {
    set i: nat | i < |bs| && Apply(c, bs[i]).status.Cancelled? && !bs[i].status.Cancelled?
  }

  function CancelMail(ids: set<nat>): set<Mail> {
    set i | i in ids :: BookingCancelled(i)
  }
}
