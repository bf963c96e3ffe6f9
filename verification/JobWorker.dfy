/** The worker in place: channel, notify handler, one message at a time, ticker. */
module JobWorker {
  import opened Options
  import opened Policy
  import opened Notices
  import opened WorkerRuns

  /** A database session over the notification table. */
  class InboxSession {
    var rows: seq<Row>

    constructor (rows: seq<Row>)
      ensures this.rows == rows
    {
      this.rows := rows;
    }

    /** Insert in a savepoint; an integrity error rolls back to it and is reported as already there. */
    method Send(row: Row, users: set<Id>) returns (inserted: bool)
      modifies this
      ensures inserted <==> Insertable(old(rows), row, users)
      ensures rows == if inserted then old(rows) + [row] else old(rows)
    {
      var savepoint := rows;
      rows := rows + [row];
      inserted := row.recipient in users && row !in savepoint;
      if !inserted {
        rows := savepoint;
      }
    }
  }

  datatype Processing = Idle | Handled | LoopFailed

  class JobWorker {
    var sent: seq<Job>
    var deleted: set<nat>
    var rows: seq<Row>
    var mails: seq<Mail>
    var pending: bool
    var lastAt: Time
    ghost var deliveries: seq<Delivery>
    ghost var ticks: seq<Tick>

    ghost function View(): Worker
      reads this
    {
      Worker(sent, deleted, rows, mails, deliveries, pending, lastAt, ticks)
    }

    constructor (sent: seq<Job>, interval: int, now: Time)
      ensures View() == Started(sent, interval, now)
    {
      this.sent, deleted, rows, mails, deliveries := sent, {}, [], [], [];
      pending, ticks := false, [];
      lastAt := now - (if interval > 0 then interval else 0);
    }

    /** Queue the published events, in order; an event whose send fails is skipped. */
    method EnqueueNotifiable(events: seq<Outgoing>)
      modifies this`sent
      ensures sent == old(sent) + Collect(SentJob, events)
    {
      var i := 0;
      while i < |events|
        invariant 0 <= i <= |events|
        invariant sent + Collect(SentJob, events[i..]) == old(sent) + Collect(SentJob, events)
      {
        assert events[i..][0] == events[i] && events[i..][1..] == events[i + 1..];
        var job := JobFromEvent(events[i].event, events[i].at);
        if job.Some? && !events[i].fails {
          sent := sent + [job.value];
        }
        i := i + 1;
      }
    }

    /** Insert for each recipient in turn, then mail; false if it raises on the way. */
    method ProcessNotifyJob(session: InboxSession, n: Notice, t: Turn) returns (ok: bool, created: nat, ignored: nat)
      modifies session, this`mails
      ensures ok <==> !Raises(Notify(n), t.fault)
      ensures mails == if MailsBeforeRaising(n, t) then old(mails) + [Mail(n, t.addresses)] else old(mails)
      ensures ok ==> session.rows == InsertAll(old(session.rows), n, t.recipients, t.users)
      ensures ok ==> created + ignored == |t.recipients| && |session.rows| == old(|session.rows|) + created
    {
      created, ignored := 0, 0;
      if !Deliverable(n) {
        return false, 0, 0;
      }
      var i := 0;
      while i < |t.recipients|
        invariant 0 <= i <= |t.recipients|
        invariant mails == old(mails) && (t.fault.Some? ==> t.fault.value >= i)
        invariant InsertAll(session.rows, n, t.recipients[i..], t.users) == InsertAll(old(session.rows), n, t.recipients, t.users)
        invariant created + ignored == i && |session.rows| == old(|session.rows|) + created
      {
        if t.fault == Some(i) {
          return false, created, ignored;
        }
        assert t.recipients[i..][0] == t.recipients[i] && t.recipients[i..][1..] == t.recipients[i + 1..];
        var inserted := session.Send(Row(t.recipients[i], n), t.users);
        if inserted {
          created := created + 1;
        } else {
          ignored := ignored + 1;
        }
        i := i + 1;
      }
      if ShouldEmail(n) && t.addresses != [] {
        if t.fault == Some(|t.recipients|) {
          return false, created, ignored;
        }
        mails := mails + [Mail(n, t.addresses)];
      }
      return t.fault.None?, created, ignored;
    }

    /** One session for one job: committed if the job returns, rolled back if it raises. */
    method HandleNotify(handle: nat, n: Notice, t: Turn) returns (ok: bool)
      modifies this
      ensures ok <==> !Raises(Notify(n), t.fault)
      ensures View() == HandledJob(old(View()), handle, Notify(n), t)
    {
      var session := new InboxSession(rows);
      var created, ignored;
      ok, created, ignored := ProcessNotifyJob(session, n, t);
      if ok {
        rows := session.rows;
        deliveries := deliveries + [Delivery(handle, n, t.recipients, t.users, t.addresses)];
      }
    }

    method RunJob(handle: nat, job: Job, t: Turn) returns (ok: bool)
      modifies this
      ensures ok <==> !Raises(job, t.fault)
      ensures View() == HandledJob(Noticed(old(View()), handle, job), handle, job, t)
    {
      match job
      case Notify(n) =>
        ok := HandleNotify(handle, n, t);
      case ReconcilePriorities =>
        pending := false;
        ticks := ticks + [ReconcileReceived(handle)];
        ok := t.fault.None?;
      case _ =>
        ok := false;
    }

    /** At most one message: delete it only after its handler returned. */
    method ProcessOnce(t: Turn) returns (r: Processing)
      modifies this
      ensures View() == Processed(old(View()), t)
      ensures r == LoopFailed <==> LoopError(old(View()), t)
    {
      match t.incoming
      case ReceiveFails =>
        return LoopFailed;
      case NoMessage =>
        return Idle;
      case Message(handle) =>
        if handle >= |sent| {
          return Idle;
        }
        var ok := RunJob(handle, sent[handle], t);
        if !ok {
          return Handled;
        }
        if t.deleteFails {
          return LoopFailed;
        }
        deleted := deleted + {handle};
        return Handled;
    }

    method TickOnce(t: Turn, interval: int)
      modifies this
      ensures View() == Ticked(old(View()), t, interval)
    {
      if interval > 0 && !pending && t.checkedAt - lastAt >= interval {
        if !t.sendFails {
          ticks := ticks + [ReconcileEnqueued(|sent|, t.stampedAt)];
          sent := sent + [ReconcilePriorities];
          pending := true;
          lastAt := t.stampedAt;
        }
      }
    }

    method Accept(jobs: seq<Job>)
      modifies this`sent
      ensures View() == Arrived(old(View()), jobs)
    {
      sent := sent + jobs;
    }

    /** The loop, for as many turns as it is given before it is told to stop. */
    method Run(turns: seq<Turn>, interval: int)
      modifies this
      ensures View() == RunOf(old(View()), turns, interval)
    {
      var i := 0;
      while i < |turns|
        invariant 0 <= i <= |turns|
        invariant RunOf(View(), turns[i..], interval) == RunOf(old(View()), turns, interval)
      {
        assert turns[i..][0] == turns[i] && turns[i..][1..] == turns[i + 1..];
        Accept(turns[i].arrivals);
        var r := ProcessOnce(turns[i]);
        if r != LoopFailed {
          TickOnce(turns[i], interval);
        }
        i := i + 1;
      }
    }
  }
}
