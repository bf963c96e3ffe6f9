/** The idempotency key tells different changes apart: no two published events of a run become the same notice. */
module Idempotency {
  import opened Options
  import opened Policy
  import opened Records
  import opened Ordering
  import opened Transactions
  import opened Reconcile
  import opened Requests
  import opened Runs
  import opened Notices

  function NoticeAt(at: Time): Event -> Option<Notice> {
    (e: Event) =>
      match JobFromEvent(e, at)
      case Some(Notify(n)) => Some(n)
      case _ => None
  }

  function Published(db: Db, r: Request, hours: int, now: Time): seq<Event> {
    match Handle(db, r, hours, now)
    case Committed(_, events) => events
    case Raised(_) => []
  }

  /** The notices of the events one request publishes, at its instant. */
  function NoticesOf(s: Hub, t: Timed, hours: int): seq<Notice> {
    Collect(NoticeAt(t.at), Published(s.db, t.request, hours, t.at))
  }

  function RunNotices(s: Hub, run: seq<Timed>, hours: int): seq<Notice>
    decreases |run|
  {
    if run == [] then []
    else NoticesOf(s, run[0], hours) + RunNotices(Step(s, run[0].request, hours, run[0].at), run[1..], hours)
  }

  predicate Different(notices: seq<Notice>) {
    forall i, j :: 0 <= i < j < |notices| ==> notices[i] != notices[j]
  }

  /** The time its notices carry: the moment of a repair page, the instant of any other request. */
  function StampOf(t: Timed): Time {
    if t.request.RepairPage? then t.request.moment else t.at
  }

  /** The later page of the same reconcile run: read above every id of the earlier page. */
  predicate Continues(db: Db, r: Request, later: Request) {
    && r.RepairPage? && later.RepairPage?
    && forall id :: id in StalePage(db, r.moment, r.after, r.size) ==> later.after.Some? && id <= later.after.value
  }

  /** No two requests carry one stamp, but for the pages of one reconcile run. */
  predicate Apart(s: Hub, run: seq<Timed>, hours: int)
    decreases |run|
  {
    run == [] ||
    ((forall t :: t in run[1..] && StampOf(t) == StampOf(run[0]) ==> Continues(s.db, run[0].request, t.request))
     && Apart(Step(s, run[0].request, hours, run[0].at), run[1..], hours))
  }

  // ------------------------------------------------------------------ one request

  /** Other than a page, a request publishes at most one notifiable event, last, and stamps it with its instant. */
  lemma FewEvents(db: Db, r: Request, hours: int, now: Time)
    requires !r.RepairPage?
    ensures var events := Published(db, r, hours, now);
      && |events| <= 2
      && (|events| == 2 ==> JobFromEvent(events[0], now).None?)
      && (forall e :: e in events && e.PriorityChanged? ==> e.changedAt == now)
  {
  }

  lemma NoticeStamp(e: Event, now: Time)
    requires e.PriorityChanged? ==> e.changedAt == now
    ensures NoticeAt(now)(e).Some? ==> NoticeAt(now)(e).value.changedAt == now
  {
  }

  lemma FewNotices(s: Hub, t: Timed, hours: int)
    requires !t.request.RepairPage?
    ensures |NoticesOf(s, t, hours)| <= 1
    ensures forall n :: n in NoticesOf(s, t, hours) ==> n.changedAt == t.at
  {
    var events := Published(s.db, t.request, hours, t.at);
    FewEvents(s.db, t.request, hours, t.at);
    forall e | e in events ensures NoticeAt(t.at)(e).Some? ==> NoticeAt(t.at)(e).value.changedAt == t.at {
      NoticeStamp(e, t.at);
    }
    if |events| == 2 {
      PairCollects(NoticeAt(t.at), events[0], events[1]);
    } else if |events| == 1 {
      assert events == [events[0]];
      CollectOne(NoticeAt(t.at), events[0]);
    }
  }

  lemma RowNotice(db: Db, id: Id, moment: Time, at: Time)
    ensures var notices := Collect(NoticeAt(at), RecalculateRow(db, id, moment).events);
      |notices| <= 1 && forall n :: n in notices ==> n.kind == CONVERSATION_PRIORITY && n.changedAt == moment && n.entityId == id
  {
    var events := RecalculateRow(db, id, moment).events;
    if events != [] {
      assert events == [events[0]];
      CollectOne(NoticeAt(at), events[0]);
    }
  }

  lemma DifferentJoin(a: seq<Notice>, b: seq<Notice>)
    requires Different(a) && Different(b) && forall n :: n in a ==> n !in b
    ensures Different(a + b)
  {
    forall i, j | 0 <= i < j < |a + b| ensures (a + b)[i] != (a + b)[j] {
      if i < |a| <= j {
        assert a[i] in a && b[j - |a|] in b;
      }
    }
  }

  /** A page's notices are of its own rows, all stamped with its moment, and different. */
  lemma {:induction false} PageNotices(db: Db, ids: seq<Id>, moment: Time, at: Time)
    requires Increasing(ids)
    ensures var notices := Collect(NoticeAt(at), RowEvents(db, ids, moment));
      Different(notices) && forall n :: n in notices ==> n.changedAt == moment && n.entityId in ids
  {
    if ids == [] {
    } else {
      var first := RecalculateRow(db, ids[0], moment).events;
      RowNotice(db, ids[0], moment, at);
      PageNotices(db, ids[1..], moment, at);
      CollectConcat(NoticeAt(at), first, RowEvents(db, ids[1..], moment));
      assert ids[0] !in ids[1..];
      assert forall id :: id in ids <==> id == ids[0] || id in ids[1..];
      DifferentJoin(Collect(NoticeAt(at), first), Collect(NoticeAt(at), RowEvents(db, ids[1..], moment)));
    }
  }

  /** A request's notices carry its stamp and are different; a page's are about its rows. */
  lemma StepNotices(s: Hub, t: Timed, hours: int)
    ensures Different(NoticesOf(s, t, hours))
    ensures forall n :: n in NoticesOf(s, t, hours) ==>
      && n.changedAt == StampOf(t)
      && (t.request.RepairPage? ==> n.entityId in StalePage(s.db, t.request.moment, t.request.after, t.request.size))
  {
    if t.request.RepairPage? {
      var moment := t.request.moment;
      var page := StalePage(s.db, moment, t.request.after, t.request.size);
      PageIsStale(s.db, moment, t.request.after, t.request.size);
      ReconcileRowsEvents(s.db, page, moment);
      PageNotices(s.db, page, moment, t.at);
    } else {
      FewNotices(s, t, hours);
    }
  }

  // ------------------------------------------------------------------ the run

  /** Which request a notice of the run comes from. */
  lemma {:induction false} NoticeOrigin(s: Hub, run: seq<Timed>, hours: int, n: Notice) returns (t: Timed)
    requires n in RunNotices(s, run, hours)
    ensures t in run && n.changedAt == StampOf(t)
    ensures t.request.RepairPage? ==> Above(n.entityId, t.request.after)
    decreases |run|
  {
    if n in NoticesOf(s, run[0], hours) {
      t := run[0];
      StepNotices(s, t, hours);
      if t.request.RepairPage? {
        PageIsStale(s.db, t.request.moment, t.request.after, t.request.size);
      }
    } else {
      t := NoticeOrigin(Step(s, run[0].request, hours, run[0].at), run[1..], hours, n);
    }
  }

  lemma HeadNoticeIsNew(s: Hub, run: seq<Timed>, hours: int, n: Notice)
    requires run != [] && Apart(s, run, hours) && n in NoticesOf(s, run[0], hours)
    ensures n !in RunNotices(Step(s, run[0].request, hours, run[0].at), run[1..], hours)
  {
    var next := Step(s, run[0].request, hours, run[0].at);
    StepNotices(s, run[0], hours);
    if n in RunNotices(next, run[1..], hours) {
      var t := NoticeOrigin(next, run[1..], hours, n);
    }
  }

  /**
   Whatever requests follow one another, every notifiable event they publish becomes a notice of its own,
   so the unique key of the inbox never takes one change for another.
   */
  lemma {:induction false} NoticesAreDifferent(s: Hub, run: seq<Timed>, hours: int)
    requires Apart(s, run, hours)
    ensures Different(RunNotices(s, run, hours))
    decreases |run|
  {
    if run == [] {
    } else {
      var next := Step(s, run[0].request, hours, run[0].at);
      StepNotices(s, run[0], hours);
      NoticesAreDifferent(next, run[1..], hours);
      forall n | n in NoticesOf(s, run[0], hours) ensures n !in RunNotices(next, run[1..], hours) {
        HeadNoticeIsNew(s, run, hours, n);
      }
      DifferentJoin(NoticesOf(s, run[0], hours), RunNotices(next, run[1..], hours));
    }
  }

  // ------------------------------------------------------------------ runs whose stamps are apart

  /** No repair page carries the stamp of an earlier request. */
  predicate FreshMoments(run: seq<Timed>) {
    forall i, j :: 0 <= i < j < |run| && run[j].request.RepairPage? ==> StampOf(run[j]) != StampOf(run[i])
  }

  lemma {:induction false} TickingLater(clock: Time, run: seq<Timed>, t: Timed)
    requires Ticking(clock, run) && t in run
    ensures clock < t.at
    decreases |run|
  {
    if t == run[0] {
    } else {
      TickingLater(run[0].at, run[1..], t);
    }
  }

  /** With no two requests at one instant and a fresh moment for each repair page, stamps are apart. */
  lemma {:induction false} TickingIsApart(s: Hub, run: seq<Timed>, hours: int)
    requires Legal(s, run, hours) && Ticking(s.clock, run) && FreshMoments(run)
    ensures Apart(s, run, hours)
    decreases |run|
  {
    if run == [] {
    } else {
      forall t | t in run[1..] ensures StampOf(t) != StampOf(run[0]) {
        TickingLater(run[0].at, run[1..], t);
        var k :| 0 <= k < |run[1..]| && run[1..][k] == t;
        assert run[k + 1] == t;
      }
      assert forall i :: 0 <= i < |run[1..]| ==> run[1..][i] == run[i + 1];
      TickingIsApart(Step(s, run[0].request, hours, run[0].at), run[1..], hours);
    }
  }

  lemma TickingNoticesAreDifferent(start: Time, run: seq<Timed>, hours: int)
    requires Legal(Empty(start), run, hours) && Ticking(start, run) && FreshMoments(run)
    ensures Different(RunNotices(Empty(start), run, hours))
  {
    TickingIsApart(Empty(start), run, hours);
    NoticesAreDifferent(Empty(start), run, hours);
  }
}
