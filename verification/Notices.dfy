/** From published events to notices, and what delivering one notice writes: app/notifications. */
module Notices {
  import opened Options
  import opened Policy
  import opened Records

  /** The parameters of a notify job; with the recipient they are the unique key of the inbox. */
  datatype Notice = Notice(kind: string, entityType: string, entityId: Id,
                           previous: string, current: string, changedAt: Time)

  const ITEM_STATUS := "ORDER_ITEM_STATUS_CHANGED"
  const CONVERSATION_STATUS := "CONVERSATION_STATUS_CHANGED"
  const CONVERSATION_PRIORITY := "CONVERSATION_PRIORITY_CHANGED"
  const ORDER_ITEM := "ORDER_ITEM"
  const CONVERSATION := "CONVERSATION"

  /** `Unreadable` is any body whose parsing raises: the envelope, the entity id or the time of the change. */
  datatype Job = Notify(notice: Notice) | ReconcilePriorities | UnknownType | Unreadable

  datatype Row = Row(recipient: Id, notice: Notice)

  // ------------------------------------------------------------------ the bridge

  function StatusName(status: ItemStatus): string {
    match status
    case Placed => "placed"
    case Preparing => "preparing"
    case InTransit => "in_transit"
    case Delivered => "delivered"
    case Cancelled => "cancelled"
  }

  function PriorityName(priority: Priority): string {
    match priority
    case Low => "low"
    case Medium => "medium"
    case High => "high"
    case Critical => "critical"
  }

  function JobFromEvent(e: Event, now: Time): Option<Job> {
    match e
    case ItemStatusChanged(id, before, after) =>
      Some(Notify(Notice(ITEM_STATUS, ORDER_ITEM, id, StatusName(before), StatusName(after), now)))
    case ConversationClosed(id, _) =>
      Some(Notify(Notice(CONVERSATION_STATUS, CONVERSATION, id, "open", "closed", now)))
    case PriorityChanged(id, before, after, changedAt) =>
      Some(Notify(Notice(CONVERSATION_PRIORITY, CONVERSATION, id, PriorityName(before), PriorityName(after), changedAt)))
    case _ => None
  }

  /** One published event on its way to the queue: when it is turned into a job, and whether the send fails. */
  datatype Outgoing = Outgoing(event: Event, at: Time, fails: bool)

  function SentJob(o: Outgoing): Option<Job> {
    if o.fails then None else JobFromEvent(o.event, o.at)
  }

  // ------------------------------------------------------------------ the handler

  /** What the handler checks before it writes anything: parameters present, kind known. */
  predicate Deliverable(n: Notice) {
    && n.kind != "" && n.entityType != "" && n.previous != "" && n.current != ""
    && (n.kind == ITEM_STATUS || n.kind == CONVERSATION_STATUS || n.kind == CONVERSATION_PRIORITY)
  }

  predicate ShouldEmail(n: Notice) {
    n.kind == CONVERSATION_PRIORITY && (n.current == "high" || n.current == "critical")
  }

  /** The foreign key and the unique key both accept the row. */
  predicate Insertable(rows: seq<Row>, row: Row, users: set<Id>) {
    row.recipient in users && row !in rows
  }

  /** One insert per recipient, each in a savepoint of its own. */
  function InsertAll(rows: seq<Row>, n: Notice, recipients: seq<Id>, users: set<Id>): seq<Row>
    decreases |recipients|
  {
    if recipients == [] then rows
    else
      var row := Row(recipients[0], n);
      InsertAll(if Insertable(rows, row, users) then rows + [row] else rows, n, recipients[1..], users)
  }

  predicate OncePerPair(rows: seq<Row>) {
    forall i, j :: 0 <= i < j < |rows| ==> rows[i] != rows[j]
  }

  lemma OneMoreRow(rows: seq<Row>, row: Row)
    requires OncePerPair(rows) && row !in rows
    ensures OncePerPair(rows + [row])
    ensures forall x :: x in rows + [row] <==> x in rows || x == row
  {
  }

  /** Delivering a notice adds exactly the rows its recipients miss, never a second copy. */
  lemma {:induction false} InsertAllExactly(rows: seq<Row>, n: Notice, recipients: seq<Id>, users: set<Id>)
    requires OncePerPair(rows)
    ensures var after := InsertAll(rows, n, recipients, users);
      && rows <= after && OncePerPair(after)
      && forall row :: row in after <==>
           row in rows || (row.notice == n && row.recipient in recipients && row.recipient in users)
    decreases |recipients|
  {
    if recipients == [] {
    } else {
      var row := Row(recipients[0], n);
      assert forall r :: r in recipients <==> r == recipients[0] || r in recipients[1..];
      if Insertable(rows, row, users) {
        OneMoreRow(rows, row);
        InsertAllExactly(rows + [row], n, recipients[1..], users);
      } else {
        InsertAllExactly(rows, n, recipients[1..], users);
      }
    }
  }

  /** Delivering the same notice to the same recipients again writes nothing. */
  lemma {:induction false} RedeliveryIsSilent(rows: seq<Row>, n: Notice, recipients: seq<Id>, users: set<Id>)
    requires forall r :: r in recipients && r in users ==> Row(r, n) in rows
    ensures InsertAll(rows, n, recipients, users) == rows
    decreases |recipients|
  {
    if recipients == [] {
    } else {
      assert recipients[0] in recipients;
      RedeliveryIsSilent(rows, n, recipients[1..], users);
    }
  }

  /** The bridge only ever sends what the handler accepts. */
  lemma BridgeJobsAreDeliverable(e: Event, now: Time)
    requires JobFromEvent(e, now).Some?
    ensures JobFromEvent(e, now).value.Notify? && Deliverable(JobFromEvent(e, now).value.notice)
  {
  }

  // ------------------------------------------------------------------ what a notice says

  lemma PriorityNamesTell(p: Priority)
    ensures PriorityName(p) == "low" <==> p == Low
    ensures PriorityName(p) == "medium" <==> p == Medium
    ensures PriorityName(p) == "high" <==> p == High
    ensures PriorityName(p) == "critical" <==> p == Critical
  {
    assert |"low"| == 3 && |"high"| == 4 && |"medium"| == 6 && |"critical"| == 8;
  }

  lemma StatusNamesTell(status: ItemStatus)
    ensures StatusName(status) == "placed" <==> status == Placed
    ensures StatusName(status) == "preparing" <==> status == Preparing
    ensures StatusName(status) == "in_transit" <==> status == InTransit
    ensures StatusName(status) == "delivered" <==> status == Delivered
    ensures StatusName(status) == "cancelled" <==> status == Cancelled
  {
    assert |"placed"| == 6 && |"in_transit"| == 10;
    assert "preparing"[0] == 'p' && "delivered"[0] == 'd' && "cancelled"[0] == 'c';
  }

  /** A change of priority is announced with its conversation, its ends in their order, and its own time. */
  lemma PriorityNoticeTells(e: Event, now: Time)
    requires e.PriorityChanged?
    ensures JobFromEvent(e, now).Some? && JobFromEvent(e, now).value.Notify?
    ensures var n := JobFromEvent(e, now).value.notice;
      && n.kind == "CONVERSATION_PRIORITY_CHANGED" && n.entityType == "CONVERSATION" && n.entityId == e.conversationId
      && n.previous == PriorityName(e.fromPriority) && n.current == PriorityName(e.toPriority) && n.changedAt == e.changedAt
  {
  }

  /** It is an alert exactly if the conversation becomes high or critical. */
  lemma AlertExactly(e: Event, now: Time)
    requires e.PriorityChanged? && JobFromEvent(e, now).Some? && JobFromEvent(e, now).value.Notify?
    ensures ShouldEmail(JobFromEvent(e, now).value.notice) <==> e.toPriority == High || e.toPriority == Critical
  {
    PriorityNamesTell(e.toPriority);
  }

  lemma OtherNoticesTell(e: Event, now: Time)
    requires !e.PriorityChanged?
    ensures JobFromEvent(e, now) ==
      if e.ItemStatusChanged? then
        Some(Notify(Notice("ORDER_ITEM_STATUS_CHANGED", "ORDER_ITEM", e.itemId,
                           StatusName(e.fromStatus), StatusName(e.toStatus), now)))
      else if e.ConversationClosed? then
        Some(Notify(Notice("CONVERSATION_STATUS_CHANGED", "CONVERSATION", e.conversationId, "open", "closed", now)))
      else None
    ensures forall n :: JobFromEvent(e, now) == Some(Notify(n)) ==> !ShouldEmail(n)
  {
    assert |ITEM_STATUS| == 25 && |CONVERSATION_STATUS| == 27 && |CONVERSATION_PRIORITY| == 29;
  }

  /** A notice's job is handled without raising exactly if nothing fails on the way, all its names are there and its kind is known. */
  lemma DeliverableExactly(n: Notice)
    ensures Deliverable(n) <==>
      && n.entityType != "" && n.previous != "" && n.current != ""
      && (n.kind == "ORDER_ITEM_STATUS_CHANGED" || n.kind == "CONVERSATION_STATUS_CHANGED"
          || n.kind == "CONVERSATION_PRIORITY_CHANGED")
  {
    assert |ITEM_STATUS| == 25 && |CONVERSATION_STATUS| == 27 && |CONVERSATION_PRIORITY| == 29;
  }
}
