/** The records that accompany bookings: no-show violations, consumed strikes, suspensions and
    notices, and what every change keeps of them. */
module Ledgers {
  import opened Slots
  import opened Tables
  import opened Rules
  import opened Changes
  import opened Reconcile

  // ---------------------------------------------------------------- no-shows and their violations

  /** A booking is a no-show exactly when it has a no-show violation, which is then its only one,
      names its user and happened at its deadline. */
  ghost predicate NoShowLedger(bs: seq<Booking>, vs: seq<Violation>) {
    && (forall k :: 0 <= k < |vs| && vs[k].noShow ==>
          && vs[k].booking.Some? && vs[k].booking.value < |bs|
          && bs[vs[k].booking.value].status.NoShow?
          && vs[k].user == bs[vs[k].booking.value].user
          && vs[k].occurredAt == DeadlineOf(bs[vs[k].booking.value]))
    && (forall i: nat :: i < |bs| && bs[i].status.NoShow? ==> HasNoShow(vs, i))
    && (forall j, k :: 0 <= j < k < |vs| && vs[j].noShow && vs[k].noShow ==> vs[j].booking != vs[k].booking)
  }

  /** No booking enters or leaves NO_SHOW and nobody's deadline or user changes. */
  ghost predicate SameNoShows(bs: seq<Booking>, cs: seq<Booking>) {
    && |bs| <= |cs|
    && (forall i :: 0 <= i < |bs| ==>
          && (bs[i].status.NoShow? <==> cs[i].status.NoShow?)
          && cs[i].user == bs[i].user && DeadlineOf(cs[i]) == DeadlineOf(bs[i]))
    && (forall i :: |bs| <= i < |cs| ==> !cs[i].status.NoShow?)
  }

  /** Old violations keep what identifies them; new ones are neither no-shows nor consumed. */
  ghost predicate SameViolations(vs: seq<Violation>, ws: seq<Violation>) {
    && |vs| <= |ws|
    && (forall k :: 0 <= k < |vs| ==>
          && ws[k].user == vs[k].user && ws[k].booking == vs[k].booking && ws[k].noShow == vs[k].noShow
          && ws[k].occurredAt == vs[k].occurredAt && ws[k].expiresAt == vs[k].expiresAt
          && ws[k].counts == vs[k].counts && ws[k].consumedBy == vs[k].consumedBy)
    && (forall k :: |vs| <= k < |ws| ==> !ws[k].noShow && ws[k].consumedBy.None?)
  }

  lemma LedgerKept(bs: seq<Booking>, cs: seq<Booking>, vs: seq<Violation>, ws: seq<Violation>)
    requires NoShowLedger(bs, vs) && SameNoShows(bs, cs) && SameViolations(vs, ws)
    ensures NoShowLedger(cs, ws)
  {
    forall i: nat | i < |cs| && cs[i].status.NoShow?
      ensures HasNoShow(ws, i)
    {
      var k :| 0 <= k < |vs| && vs[k].noShow && vs[k].booking == Some(i);
      assert ws[k].noShow && ws[k].booking == Some(i);
    }
  }

  // ---------------------------------------------------------------- consumed strikes

  ghost function ConsumedIds(vs: seq<Violation>, suspension: nat): set<nat> {
    set k: nat | k < |vs| && vs[k].consumedBy == Some(suspension)
  }

  /** Consumed strikes belong to the user their automatic suspension punishes, and there are at
      least as many as the threshold it names. */
  ghost predicate StrikesSound(vs: seq<Violation>, ss: seq<Suspension>) {
    && (forall k :: 0 <= k < |vs| && vs[k].consumedBy.Some? ==>
          && vs[k].consumedBy.value < |ss| && ss[vs[k].consumedBy.value].auto
          && ss[vs[k].consumedBy.value].user == vs[k].user && vs[k].counts)
    && (forall s: nat :: s < |ss| && ss[s].auto ==> ss[s].threshold <= |ConsumedIds(vs, s)|)
  }

  ghost predicate SameSanctions(ss: seq<Suspension>, ts: seq<Suspension>) {
    && |ss| <= |ts|
    && (forall s :: 0 <= s < |ss| ==>
          && ts[s].user == ss[s].user && ts[s].auto == ss[s].auto && ts[s].threshold == ss[s].threshold
          && ts[s].startsAt == ss[s].startsAt)
    && (forall s :: |ss| <= s < |ts| ==> !ts[s].auto)
  }

  lemma StrikesKept(vs: seq<Violation>, ws: seq<Violation>, ss: seq<Suspension>, ts: seq<Suspension>)
    requires StrikesSound(vs, ss) && SameViolations(vs, ws) && SameSanctions(ss, ts)
    ensures StrikesSound(ws, ts)
  {
    forall s: nat | s < |ss| && ss[s].auto
      ensures ConsumedIds(ws, s) == ConsumedIds(vs, s)
    {
    }
  }

  // ---------------------------------------------------------------- suspensions

  ghost predicate SuspensionValid(s: Suspension, clock: int) {
    && s.startsAt <= clock
    && (s.liftedAt.Some? ==> s.liftedAt.value <= clock)
    && (s.endsAt.Some? ==> s.endsAt.value > s.startsAt)
    && (s.auto ==> s.endsAt.Some? && 1 <= s.threshold <= 10)
    && (s.endNotifiedAt.Some? ==> s.endsAt.Some? && s.endsAt.value <= s.endNotifiedAt.value <= clock)
  }

  ghost predicate SuspensionsValid(ss: seq<Suspension>, clock: int) {
    forall i :: 0 <= i < |ss| ==> SuspensionValid(ss[i], clock)
  }

  // ---------------------------------------------------------------- notices

  ghost predicate OwesCancelNotice(b: Booking) {
    b.status.Cancelled? && b.cancelReason != Some(ByAccount)
  }

  /** Exactly the cancelled bookings have a cancellation notice, except those cancelled with their
      holder's account; exactly the no-shows and the rejected requests have theirs. */
  ghost predicate MailSound(bs: seq<Booking>, outbox: set<Mail>) {
    && (forall i: nat :: BookingCancelled(i) in outbox <==> i < |bs| && OwesCancelNotice(bs[i]))
    && (forall i: nat :: BookingNoShow(i) in outbox <==> i < |bs| && bs[i].status.NoShow?)
    && (forall i: nat :: BookingRejected(i) in outbox <==> i < |bs| && bs[i].status.Rejected?)
  }

  ghost predicate IsLifecycleNotice(m: Mail) {
    m.BookingCancelled? || m.BookingNoShow? || m.BookingRejected?
  }

  /** Outbox rows of other kinds say nothing about these notices. */
  ghost predicate OnlyOtherMail(outbox: set<Mail>, more: set<Mail>) {
    outbox <= more && forall m :: m in more && IsLifecycleNotice(m) ==> m in outbox
  }

  ghost predicate SameNotices(b: Booking, c: Booking) {
    && (OwesCancelNotice(b) <==> OwesCancelNotice(c))
    && (b.status.NoShow? <==> c.status.NoShow?)
    && (b.status.Rejected? <==> c.status.Rejected?)
  }

  lemma MailKept(bs: seq<Booking>, cs: seq<Booking>, outbox: set<Mail>, more: set<Mail>)
    requires MailSound(bs, outbox) && OnlyOtherMail(outbox, more) && |bs| <= |cs|
    requires forall i :: 0 <= i < |bs| ==> SameNotices(bs[i], cs[i])
    requires forall i :: |bs| <= i < |cs| ==> Blocking(cs[i].status)
    ensures MailSound(cs, more)
  {
    forall i: nat
      ensures BookingCancelled(i) in more <==> i < |cs| && OwesCancelNotice(cs[i])
      ensures BookingNoShow(i) in more <==> i < |cs| && cs[i].status.NoShow?
      ensures BookingRejected(i) in more <==> i < |cs| && cs[i].status.Rejected?
    {
      assert IsLifecycleNotice(BookingCancelled(i)) && IsLifecycleNotice(BookingNoShow(i));
      assert IsLifecycleNotice(BookingRejected(i));
      if i < |bs| {
        assert SameNotices(bs[i], cs[i]);
      }
    }
  }

  /** Bulk changes whose cancellations are announced and which reject and forfeit nothing. */
  ghost predicate Announced(c: RowChange) {
    match c
    case ExpireApproval(_) => false
    case Forfeit(_, _) => false
    case CancelOpenOf(_, _, reason) => reason != ByAccount
    case _ => true
  }

  lemma AnnouncedRow(c: RowChange, b: Booking)
    requires Announced(c)
    ensures b.status.NoShow? <==> Apply(c, b).status.NoShow?
    ensures b.status.Rejected? <==> Apply(c, b).status.Rejected?
    ensures OwesCancelNotice(Apply(c, b)) <==>
      OwesCancelNotice(b) || (Apply(c, b).status.Cancelled? && !b.status.Cancelled?)
    ensures Apply(c, b).user == b.user && DeadlineOf(Apply(c, b)) == DeadlineOf(b)
  {
  }

  lemma AnnouncedMap(c: RowChange, bs: seq<Booking>, outbox: set<Mail>)
    requires Announced(c) && MailSound(bs, outbox)
    ensures MailSound(MapRows(bs, c), outbox + CancelMail(CancelledBy(bs, c)))
    ensures SameNoShows(bs, MapRows(bs, c))
  {
    var cs, more := MapRows(bs, c), outbox + CancelMail(CancelledBy(bs, c));
    forall i | 0 <= i < |bs|
      ensures cs[i] == Apply(c, bs[i])
    {
      AnnouncedRow(c, bs[i]);
    }
    forall i: nat
      ensures BookingCancelled(i) in more <==> i < |cs| && OwesCancelNotice(cs[i])
      ensures BookingNoShow(i) in more <==> i < |cs| && cs[i].status.NoShow?
      ensures BookingRejected(i) in more <==> i < |cs| && cs[i].status.Rejected?
    {
      if i < |bs| {
        AnnouncedRow(c, bs[i]);
      }
    }
    forall i | 0 <= i < |bs|
      ensures (bs[i].status.NoShow? <==> cs[i].status.NoShow?)
      ensures cs[i].user == bs[i].user && DeadlineOf(cs[i]) == DeadlineOf(bs[i])
    {
      AnnouncedRow(c, bs[i]);
    }
  }

  /** Cancelling an account's open bookings announces nothing and owes nothing. */
  lemma AccountMap(user: nat, now: int, bs: seq<Booking>, outbox: set<Mail>)
    requires MailSound(bs, outbox)
    requires forall i :: 0 <= i < |bs| && Open(bs[i].status) ==> bs[i].cancelReason.None?
    ensures MailSound(MapRows(bs, CancelOpenOf(user, now, ByAccount)), outbox)
    ensures SameNoShows(bs, MapRows(bs, CancelOpenOf(user, now, ByAccount)))
  {
    var cs := MapRows(bs, CancelOpenOf(user, now, ByAccount));
    forall i | 0 <= i < |bs|
      ensures SameNotices(bs[i], cs[i]) && cs[i].user == bs[i].user && DeadlineOf(cs[i]) == DeadlineOf(bs[i])
    {
    }
    MailKept(bs, cs, outbox, outbox);
  }
}
