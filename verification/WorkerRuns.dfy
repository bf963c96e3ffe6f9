/**
 The worker loop of app/jobs/worker.py as a state machine: one message received, handled and deleted
 only after success, then the ticker. The queue is at-least-once: any message ever sent may come again,
 in any order, deleted or not.
 */
module WorkerRuns {
  import opened Options
  import opened Policy
  import opened Notices

  datatype Incoming = ReceiveFails | NoMessage | Message(handle: nat)

  /**
   What the surroundings decide for one turn of the loop. `fault` makes the handler raise: at the
   recipient of that index, or after the last one in the e-mail sender, or later in the commit.
   */
  datatype Turn = Turn(arrivals: seq<Job>, incoming: Incoming,
                       recipients: seq<Id>, users: set<Id>, addresses: seq<string>,
                       fault: Option<nat>, deleteFails: bool,
                       checkedAt: Time, sendFails: bool, stampedAt: Time)

  /** A delivery whose transaction committed. */
  datatype Delivery = Delivery(handle: nat, notice: Notice, recipients: seq<Id>, users: set<Id>, addresses: seq<string>)

  datatype Mail = Mail(notice: Notice, to: seq<string>)

  /** What the ticker lives on: reconcile jobs received, of any origin, and those it enqueued itself. */
  datatype Tick = ReconcileReceived(handle: nat) | ReconcileEnqueued(handle: nat, at: Time)

  datatype Worker = Worker(sent: seq<Job>, deleted: set<nat>, rows: seq<Row>, mails: seq<Mail>,
                           deliveries: seq<Delivery>, pending: bool, lastAt: Time, ticks: seq<Tick>)

  function Received(sent: seq<Job>, incoming: Incoming): Option<nat> {
    if incoming.Message? && incoming.handle < |sent| then Some(incoming.handle) else None
  }

  predicate Raises(job: Job, fault: Option<nat>) {
    match job
    case Notify(n) => !Deliverable(n) || fault.Some?
    case ReconcilePriorities => fault.Some?
    case _ => true
  }

  predicate MailsBeforeRaising(n: Notice, t: Turn) {
    && Deliverable(n) && ShouldEmail(n) && t.addresses != []
    && (t.fault.None? || t.fault.value > |t.recipients|)
  }

  /** The callback at the start of a job: a reconcile job of any origin ends the ticker's wait. */
  function Noticed(w: Worker, handle: nat, job: Job): Worker {
    if job.ReconcilePriorities? then w.(pending := false, ticks := w.ticks + [ReconcileReceived(handle)]) else w
  }

  /** The handler: all its rows if it returns, none if it raises. E-mail is not undone. */
  function HandledJob(w: Worker, handle: nat, job: Job, t: Turn): Worker {
    match job
    case Notify(n) =>
      var mailed := if MailsBeforeRaising(n, t) then w.(mails := w.mails + [Mail(n, t.addresses)]) else w;
      if Raises(job, t.fault) then mailed
      else mailed.(rows := InsertAll(w.rows, n, t.recipients, t.users),
                   deliveries := w.deliveries + [Delivery(handle, n, t.recipients, t.users, t.addresses)])
    case _ => w
  }

  function Deleted(w: Worker, handle: nat, job: Job, t: Turn): Worker {
    if Raises(job, t.fault) || t.deleteFails then w else w.(deleted := w.deleted + {handle})
  }

  function Processed(w: Worker, t: Turn): Worker {
    match Received(w.sent, t.incoming)
    case None => w
    case Some(handle) =>
      var job := w.sent[handle];
      Deleted(HandledJob(Noticed(w, handle, job), handle, job, t), handle, job, t)
  }

  /** A receive or a delete that raises skips the ticker for this turn. */
  predicate LoopError(w: Worker, t: Turn) {
    || t.incoming.ReceiveFails?
    || (Received(w.sent, t.incoming).Some?
        && !Raises(w.sent[Received(w.sent, t.incoming).value], t.fault) && t.deleteFails)
  }

  predicate Due(w: Worker, t: Turn, interval: int) {
    interval > 0 && !w.pending && t.checkedAt - w.lastAt >= interval
  }

  function Ticked(w: Worker, t: Turn, interval: int): Worker {
    if Due(w, t, interval) && !t.sendFails then
      w.(sent := w.sent + [ReconcilePriorities], pending := true, lastAt := t.stampedAt,
         ticks := w.ticks + [ReconcileEnqueued(|w.sent|, t.stampedAt)])
    else w
  }

  function Arrived(w: Worker, jobs: seq<Job>): Worker {
    w.(sent := w.sent + jobs)
  }

  function Turned(w: Worker, t: Turn, interval: int): Worker {
    var arrived := Arrived(w, t.arrivals);
    if LoopError(arrived, t) then Processed(arrived, t) else Ticked(Processed(arrived, t), t, interval)
  }

  function Started(sent: seq<Job>, interval: int, now: Time): Worker {
    Worker(sent, {}, [], [], [], false, now - (if interval > 0 then interval else 0), [])
  }

  function RunOf(w: Worker, turns: seq<Turn>, interval: int): Worker
    decreases |turns|
  {
    if turns == [] then w else RunOf(Turned(w, turns[0], interval), turns[1..], interval)
  }

  // ------------------------------------------------------------------ the inbox

  predicate Covers(d: Delivery, row: Row) {
    d.notice == row.notice && row.recipient in d.recipients && row.recipient in d.users
  }

  predicate Covered(deliveries: seq<Delivery>, row: Row) {
    exists d :: d in deliveries && Covers(d, row)
  }

  /** The notification table is the set of pairs the committed deliveries name. */
  ghost predicate RowsMatch(rows: seq<Row>, deliveries: seq<Delivery>) {
    OncePerPair(rows) && forall row :: row in rows <==> Covered(deliveries, row)
  }

  /** A message leaves the queue only after its handler returned, which for a notice is a committed delivery. */
  predicate DeletedAreDone(w: Worker) {
    forall h :: h in w.deleted ==>
      && h < |w.sent|
      && (w.sent[h].ReconcilePriorities?
          || (w.sent[h].Notify? && exists d :: d in w.deliveries && d.handle == h && d.notice == w.sent[h].notice))
  }

  predicate DeliveriesAreSent(w: Worker) {
    forall d :: d in w.deliveries ==> d.handle < |w.sent| && w.sent[d.handle] == Notify(d.notice) && Deliverable(d.notice)
  }

  ghost predicate InboxInv(w: Worker) {
    RowsMatch(w.rows, w.deliveries) && DeletedAreDone(w) && DeliveriesAreSent(w)
  }

  lemma OneMoreDelivery(rows: seq<Row>, deliveries: seq<Delivery>, d: Delivery)
    requires RowsMatch(rows, deliveries)
    ensures RowsMatch(InsertAll(rows, d.notice, d.recipients, d.users), deliveries + [d])
  {
    InsertAllExactly(rows, d.notice, d.recipients, d.users);
    forall row ensures Covered(deliveries + [d], row) <==> Covered(deliveries, row) || Covers(d, row) {
      CoveredByOneMore(deliveries, d, row);
    }
  }

  lemma CoveredByOneMore(deliveries: seq<Delivery>, d: Delivery, row: Row)
    ensures Covered(deliveries + [d], row) <==> Covered(deliveries, row) || Covers(d, row)
  {
  }

  lemma MoreSentKeeps(w: Worker, after: Worker, jobs: seq<Job>)
    requires InboxInv(w)
    requires after.sent == w.sent + jobs && after.deleted == w.deleted && after.rows == w.rows
    requires after.deliveries == w.deliveries
    ensures InboxInv(after)
  {
  }

  lemma HandledKeeps(w: Worker, h: nat, t: Turn)
    requires InboxInv(w) && h < |w.sent|
    ensures InboxInv(HandledJob(w, h, w.sent[h], t))
    ensures HandledJob(w, h, w.sent[h], t).sent == w.sent
    ensures w.sent[h].Notify? && !Raises(w.sent[h], t.fault) ==>
      exists d :: d in HandledJob(w, h, w.sent[h], t).deliveries && d.handle == h && d.notice == w.sent[h].notice
  {
    if w.sent[h].Notify? && !Raises(w.sent[h], t.fault) {
      var d := Delivery(h, w.sent[h].notice, t.recipients, t.users, t.addresses);
      OneMoreDelivery(w.rows, w.deliveries, d);
      assert forall x :: x in w.deliveries + [d] <==> x in w.deliveries || x == d;
    }
  }

  lemma ProcessedKeeps(w: Worker, t: Turn)
    requires InboxInv(w)
    ensures InboxInv(Processed(w, t))
  {
    match Received(w.sent, t.incoming)
    case None =>
    case Some(h) =>
      var noticed := Noticed(w, h, w.sent[h]);
      MoreSentKeeps(w, noticed, []);
      HandledKeeps(noticed, h, t);
  }

  lemma TurnedKeeps(w: Worker, t: Turn, interval: int)
    requires InboxInv(w)
    ensures InboxInv(Turned(w, t, interval))
  {
    var arrived := Arrived(w, t.arrivals);
    MoreSentKeeps(w, arrived, t.arrivals);
    ProcessedKeeps(arrived, t);
    var done := Processed(arrived, t);
    if Ticked(done, t, interval) != done {
      MoreSentKeeps(done, Ticked(done, t, interval), [ReconcilePriorities]);
    }
  }

  lemma {:induction false} RunKeepsInbox(w: Worker, turns: seq<Turn>, interval: int)
    requires InboxInv(w)
    ensures InboxInv(RunOf(w, turns, interval))
    decreases |turns|
  {
    if turns == [] {
    } else {
      TurnedKeeps(w, turns[0], interval);
      RunKeepsInbox(Turned(w, turns[0], interval), turns[1..], interval);
    }
  }

  /**
   Exactly once out of at least once: after any run, with any failures, repeats and reorderings, the
   table holds one row for a recipient and a notice if a delivery of that notice to that recipient, who
   is a user, committed, and no row otherwise. Every deleted notify job has had such a delivery.
   */
  lemma InboxIsExactlyOnce(sent: seq<Job>, turns: seq<Turn>, interval: int, now: Time)
    ensures var w := RunOf(Started(sent, interval, now), turns, interval);
      && (forall i, j :: 0 <= i < j < |w.rows| ==> w.rows[i] != w.rows[j])
      && (forall row :: row in w.rows <==> Covered(w.deliveries, row))
      && DeletedAreDone(w) && DeliveriesAreSent(w)
  {
    RunKeepsInbox(Started(sent, interval, now), turns, interval);
  }

  /** The handler raised in this turn, or nothing was received: tables and queue deletions are untouched. */
  lemma RaisingChangesNothing(w: Worker, t: Turn)
    requires Received(w.sent, t.incoming).Some? ==> Raises(w.sent[Received(w.sent, t.incoming).value], t.fault)
    ensures Processed(w, t).rows == w.rows && Processed(w, t).deleted == w.deleted
    ensures Processed(w, t).deliveries == w.deliveries
  {
  }

  /** A reconcile job, or a notice with all its names and a known kind. */
  predicate WellFormed(job: Job) {
    || job.ReconcilePriorities?
    || (job.Notify?
        && job.notice.entityType != "" && job.notice.previous != "" && job.notice.current != ""
        && (job.notice.kind == "ORDER_ITEM_STATUS_CHANGED" || job.notice.kind == "CONVERSATION_STATUS_CHANGED"
            || job.notice.kind == "CONVERSATION_PRIORITY_CHANGED"))
  }

  /**
   What receiving a message does, exactly: a well-formed job on which nothing fails leaves the queue if the
   delete works, a notice's delivery is then committed, and an alert is mailed once its recipients are served.
   */
  lemma ReceivedExactly(w: Worker, t: Turn, h: nat)
    requires t.incoming == Message(h) && h < |w.sent|
    ensures var after, job := Processed(w, t), w.sent[h];
      var works := WellFormed(job) && t.fault.None?;
      && after.deleted == (if works && !t.deleteFails then w.deleted + {h} else w.deleted)
      && after.deliveries == (if works && job.Notify?
            then w.deliveries + [Delivery(h, job.notice, t.recipients, t.users, t.addresses)] else w.deliveries)
      && after.mails == (if job.Notify? && WellFormed(job) && ShouldEmail(job.notice) && t.addresses != []
                            && (t.fault.Some? ==> t.fault.value > |t.recipients|)
            then w.mails + [Mail(job.notice, t.addresses)] else w.mails)
      && after.pending == (w.pending && !job.ReconcilePriorities?)
  {
    if w.sent[h].Notify? {
      DeliverableExactly(w.sent[h].notice);
    }
  }

  /** The turn receives a notify job, or an unusable one, whose handler raises. */
  predicate FailsToDeliver(w: Worker, t: Turn) {
    var received := Received(w.sent, t.incoming);
    received.Some? && !w.sent[received.value].ReconcilePriorities? && Raises(w.sent[received.value], t.fault)
  }

  function WithoutFailure(w: Worker, t: Turn): Turn {
    if FailsToDeliver(Arrived(w, t.arrivals), t) then t.(incoming := NoMessage) else t
  }

  /** The same turns, those whose delivery fails receiving nothing instead. */
  function WithoutFailures(w: Worker, turns: seq<Turn>, interval: int): seq<Turn>
    decreases |turns|
  {
    if turns == [] then []
    else [WithoutFailure(w, turns[0])] + WithoutFailures(Turned(w, turns[0], interval), turns[1..], interval)
  }

  /** All but the mails, which no rollback takes back. */
  function Bare(w: Worker): Worker {
    w.(mails := [])
  }

  lemma FailedTurnIsBare(w: Worker, t: Turn, interval: int)
    ensures Bare(Turned(w, WithoutFailure(w, t), interval)) == Bare(Turned(w, t, interval))
  {
  }

  lemma BareProcessed(a: Worker, b: Worker, t: Turn)
    requires Bare(a) == Bare(b)
    ensures Bare(Processed(a, t)) == Bare(Processed(b, t))
  {
  }

  lemma BareTurned(a: Worker, b: Worker, t: Turn, interval: int)
    requires Bare(a) == Bare(b)
    ensures Bare(Turned(a, t, interval)) == Bare(Turned(b, t, interval))
  {
    BareProcessed(Arrived(a, t.arrivals), Arrived(b, t.arrivals), t);
  }

  /** Failed deliveries might as well not have been received: but for mails, the run ends in the same worker. */
  lemma {:induction false} FailuresLeaveOnlyMail(w: Worker, like: Worker, turns: seq<Turn>, interval: int)
    requires Bare(w) == Bare(like)
    ensures Bare(RunOf(like, WithoutFailures(w, turns, interval), interval)) == Bare(RunOf(w, turns, interval))
    decreases |turns|
  {
    if turns == [] {
    } else {
      var t := WithoutFailure(w, turns[0]);
      FailedTurnIsBare(w, turns[0], interval);
      BareTurned(w, like, t, interval);
      FailuresLeaveOnlyMail(Turned(w, turns[0], interval), Turned(like, t, interval), turns[1..], interval);
      var rest := WithoutFailures(Turned(w, turns[0], interval), turns[1..], interval);
      assert ([t] + rest)[1..] == rest;
    }
  }

  // ------------------------------------------------------------------ fixed recipients

  /** Recipients and users stay what they are throughout the run. */
  predicate Fixed(turns: seq<Turn>, to: Notice -> seq<Id>, users: set<Id>, sent: Worker, interval: int)
    decreases |turns|
  {
    turns == [] ||
    (var arrived := Arrived(sent, turns[0].arrivals);
     var received := Received(arrived.sent, turns[0].incoming);
     && turns[0].users == users
     && (received.Some? && arrived.sent[received.value].Notify? ==>
           turns[0].recipients == to(arrived.sent[received.value].notice))
     && Fixed(turns[1..], to, users, Turned(sent, turns[0], interval), interval))
  }

  predicate AllTo(w: Worker, to: Notice -> seq<Id>, users: set<Id>) {
    forall d :: d in w.deliveries ==> d.recipients == to(d.notice) && d.users == users
  }

  lemma TurnedAllTo(w: Worker, t: Turn, to: Notice -> seq<Id>, users: set<Id>, interval: int)
    requires AllTo(w, to, users) && Fixed([t], to, users, w, interval)
    ensures AllTo(Turned(w, t, interval), to, users)
  {
  }

  lemma {:induction false} RunAllTo(w: Worker, turns: seq<Turn>, to: Notice -> seq<Id>, users: set<Id>, interval: int)
    requires AllTo(w, to, users) && Fixed(turns, to, users, w, interval)
    ensures AllTo(RunOf(w, turns, interval), to, users)
    decreases |turns|
  {
    if turns == [] {
    } else {
      assert [turns[0]][1..] == [];
      TurnedAllTo(w, turns[0], to, users, interval);
      RunAllTo(Turned(w, turns[0], interval), turns[1..], to, users, interval);
    }
  }

  /**
   With fixed recipients a notify job that has left the queue has notified every one of them exactly
   when they are all users; a recipient who is not is passed over in silence.
   */
  lemma DeletedJobNotified(sent: seq<Job>, turns: seq<Turn>, to: Notice -> seq<Id>, users: set<Id>,
                           interval: int, now: Time, h: nat)
    requires Fixed(turns, to, users, Started(sent, interval, now), interval)
    requires var w := RunOf(Started(sent, interval, now), turns, interval);
      h in w.deleted && h < |w.sent| && w.sent[h].Notify?
    ensures var w := RunOf(Started(sent, interval, now), turns, interval);
      var n := w.sent[h].notice;
      && (forall r :: r in to(n) && r in users ==> Row(r, n) in w.rows)
      && ((forall r :: r in to(n) ==> Row(r, n) in w.rows) <==> (forall r :: r in to(n) ==> r in users))
  {
    var w := RunOf(Started(sent, interval, now), turns, interval);
    InboxIsExactlyOnce(sent, turns, interval, now);
    RunAllTo(Started(sent, interval, now), turns, to, users, interval);
    var n := w.sent[h].notice;
    var d :| d in w.deliveries && d.handle == h && d.notice == n;
    forall r | r in to(n) ensures Row(r, n) in w.rows <==> r in users {
      if r in users {
        assert Covers(d, Row(r, n));
      }
    }
  }

  lemma {:induction false} SentGrows(w: Worker, turns: seq<Turn>, interval: int)
    ensures w.sent <= RunOf(w, turns, interval).sent
    decreases |turns|
  {
    if turns == [] {
    } else {
      TurnSendsMore(w, turns[0], interval);
      SentGrows(Turned(w, turns[0], interval), turns[1..], interval);
    }
  }

  lemma TurnSendsMore(w: Worker, t: Turn, interval: int)
    ensures w.sent <= Turned(w, t, interval).sent
  {
  }

  lemma {:induction false} SendKeepsPlace(events: seq<Outgoing>, k: nat)
    requires k < |events| && SentJob(events[k]).Some?
    ensures SentJob(events[k]).value in Collect(SentJob, events)
  {
    if k == 0 {
    } else {
      SendKeepsPlace(events[1..], k - 1);
    }
  }

  /** The jobs are on the queue at the start or arrive in some turn. */
  predicate ReachQueue(jobs: seq<Job>, sent: seq<Job>, turns: seq<Turn>) {
    jobs == sent || exists t :: t in turns && t.arrivals == jobs
  }

  lemma {:induction false} ArrivedIsSent(w: Worker, turns: seq<Turn>, interval: int, jobs: seq<Job>, job: Job)
    requires ReachQueue(jobs, w.sent, turns) && job in jobs
    ensures job in RunOf(w, turns, interval).sent
    decreases |turns|
  {
    SentGrows(w, turns, interval);
    if jobs != w.sent {
      var next := Turned(w, turns[0], interval);
      TurnSendsMore(w, turns[0], interval);
      if turns[0].arrivals == jobs {
        assert job in next.sent;
        SentGrows(next, turns[1..], interval);
      } else {
        ArrivedIsSent(next, turns[1..], interval, jobs, job);
      }
    }
  }

  /**
   From a published event to the inbox: an event whose send did not fail, whenever it is published, is a
   job on the queue, and once any copy of that job has left the queue every recipient who is a user has
   exactly one notification of it.
   */
  lemma PublishedEventIsNotified(events: seq<Outgoing>, k: nat, sent: seq<Job>, turns: seq<Turn>,
                                 to: Notice -> seq<Id>, users: set<Id>, interval: int, now: Time)
    requires k < |events| && SentJob(events[k]).Some? && ReachQueue(Collect(SentJob, events), sent, turns)
    requires Fixed(turns, to, users, Started(sent, interval, now), interval)
    ensures var w := RunOf(Started(sent, interval, now), turns, interval);
      var job := SentJob(events[k]).value;
      && job.Notify? && Deliverable(job.notice) && OncePerPair(w.rows) && job in w.sent
      && forall h :: h in w.deleted && h < |w.sent| && w.sent[h] == job ==>
           forall r :: r in to(job.notice) && r in users ==> Row(r, job.notice) in w.rows
  {
    var w := RunOf(Started(sent, interval, now), turns, interval);
    var job := SentJob(events[k]).value;
    BridgeJobsAreDeliverable(events[k].event, events[k].at);
    SendKeepsPlace(events, k);
    ArrivedIsSent(Started(sent, interval, now), turns, interval, Collect(SentJob, events), job);
    InboxIsExactlyOnce(sent, turns, interval, now);
    forall h | h in w.deleted && h < |w.sent| && w.sent[h] == job
      ensures forall r :: r in to(job.notice) && r in users ==> Row(r, job.notice) in w.rows
    {
      DeletedJobNotified(sent, turns, to, users, interval, now, h);
    }
  }

  // ------------------------------------------------------------------ e-mail

  /** Only alerts are mailed, and a committed alert whose turn had addresses has been mailed to them. */
  ghost predicate MailsMatch(w: Worker) {
    && (forall m :: m in w.mails ==> ShouldEmail(m.notice) && m.to != [])
    && (forall d :: d in w.deliveries && ShouldEmail(d.notice) && d.addresses != [] ==> Mail(d.notice, d.addresses) in w.mails)
  }

  lemma HandledMails(w: Worker, h: nat, job: Job, t: Turn)
    requires MailsMatch(w)
    ensures MailsMatch(HandledJob(w, h, job, t))
  {
  }

  lemma TurnedMails(w: Worker, t: Turn, interval: int)
    requires MailsMatch(w)
    ensures MailsMatch(Turned(w, t, interval))
  {
    var arrived := Arrived(w, t.arrivals);
    var received := Received(arrived.sent, t.incoming);
    if received.Some? {
      HandledMails(Noticed(arrived, received.value, arrived.sent[received.value]), received.value, arrived.sent[received.value], t);
    }
  }

  lemma {:induction false} RunKeepsMails(w: Worker, turns: seq<Turn>, interval: int)
    requires MailsMatch(w)
    ensures MailsMatch(RunOf(w, turns, interval))
    decreases |turns|
  {
    if turns == [] {
    } else {
      TurnedMails(w, turns[0], interval);
      RunKeepsMails(Turned(w, turns[0], interval), turns[1..], interval);
    }
  }

  /** E-mail leaves before the commit, so an alert that committed was mailed, possibly more than once. */
  lemma AlertsAreMailed(sent: seq<Job>, turns: seq<Turn>, interval: int, now: Time)
    ensures var w := RunOf(Started(sent, interval, now), turns, interval);
      && (forall m :: m in w.mails ==> ShouldEmail(m.notice) && m.to != [])
      && (forall d :: d in w.deliveries && ShouldEmail(d.notice) && d.addresses != [] ==> Mail(d.notice, d.addresses) in w.mails)
  {
    RunKeepsMails(Started(sent, interval, now), turns, interval);
  }
}
