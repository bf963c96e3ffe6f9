/**
 What each request does to the tables, as a function of the tables it found: the conversation
 rules of app/communication/lifecycle.py and priority.py, the Ops override of
 app/support/priority_ops.py and the item routes of app/orders/routes.py.

 A request is one atomic step taken at one instant. A step that raises commits nothing.
 */
module Transactions {
  import opened Options
  import opened Policy
  import opened Records
  import opened ItemStatuses
  import opened Ordering

  // ------------------------------------------------------------------ lifecycle

  predicate IsInactive(c: Conversation, hours: int, now: Time) {
    c.open && c.lastInteractionAt <= now - hours * HOUR
  }

  predicate OpenFor(conversations: map<Id, Conversation>, id: Id, itemId: Id) {
    id in conversations && conversations[id].open && conversations[id].itemId == itemId
  }

  predicate AnyOpenFor(conversations: map<Id, Conversation>, itemId: Id) {
    exists id :: id in conversations && OpenFor(conversations, id, itemId)
  }

  predicate HasOpen(db: Db, itemId: Id) {
    AnyOpenFor(db.conversations, itemId)
  }

  function NewConversation(itemId: Id, item: Item, reason: Reason, now: Time): Conversation {
    Conversation(itemId, reason, true, now, now, now,
                 CalculatePriority(reason, item.status, now, item.price, now), None, Some(now))
  }

  /**
   Create or reuse. `seen` holds the conversations as the first SELECT saw them, which other requests
   may have changed since; `id` is the key of the row to insert. The partial unique index turns the
   insert into a reuse when an open conversation exists after all, unless that one has been closed again
   by the second SELECT (`vanished`), when the violation is raised.
   */
  function OpenConversation(db: Db, id: Id, itemId: Id, reason: Reason, seen: map<Id, Conversation>, vanished: bool,
                            now: Time): Outcome {
    if AnyOpenFor(seen, itemId) then Committed(db, [])
    else if itemId !in db.items then Raised(NotFound)
    else if HasOpen(db, itemId) then (if vanished then Raised(IntegrityError) else Committed(db, []))
    else
      Committed(db.(conversations := db.conversations[id := NewConversation(itemId, db.items[itemId], reason, now)]),
                [ConversationCreated(id, itemId)])
  }

  function CloseForInactivity(db: Db, id: Id, now: Time): Outcome
    requires id in db.conversations && db.conversations[id].open
  {
    var c := db.conversations[id].(open := false, updatedAt := now, lastInteractionAt := now);
    Committed(db.(conversations := db.conversations[id := c],
                  messages := db.messages + [Message(id, System, InactivityNotice, now)]),
              [MessageCreated(|db.messages|, id), ConversationClosed(id, Inactivity)])
  }

  /** Any participant's read of a conversation, which closes it first if it has gone inactive. */
  function ReadConversation(db: Db, id: Id, hours: int, now: Time): Outcome {
    if id !in db.conversations then Raised(NotFound)
    else if IsInactive(db.conversations[id], hours, now) then CloseForInactivity(db, id, now)
    else Committed(db, [])
  }

  /** The batch close of one listed id; a row that is gone or locked by another request is skipped. */
  function CloseOneInactive(db: Db, id: Id, locked: bool, hours: int, now: Time): Outcome {
    if locked || id !in db.conversations then Committed(db, []) else ReadConversation(db, id, hours, now)
  }

  /** An inactive conversation is closed and then found closed, so the request raises and closes nothing. */
  function CloseManually(db: Db, id: Id, hours: int, now: Time): Outcome {
    if id !in db.conversations then Raised(NotFound)
    else if !db.conversations[id].open || IsInactive(db.conversations[id], hours, now) then Raised(InvalidTransition)
    else
      Committed(db.(conversations := db.conversations[id := db.conversations[id].(open := false, updatedAt := now)]),
                [ConversationClosed(id, Manual)])
  }

  function PostMessage(db: Db, id: Id, who: Participant, text: string, hours: int, now: Time): Outcome {
    if id !in db.conversations then Raised(NotFound)
    else if !db.conversations[id].open || IsInactive(db.conversations[id], hours, now) then Raised(InvalidTransition)
    else
      var c := db.conversations[id].(updatedAt := now, lastInteractionAt := now);
      Committed(db.(conversations := db.conversations[id := c],
                    messages := db.messages + [Message(id, User(who), Text(text), now)]),
                [MessageCreated(|db.messages|, id)])
  }

  // ------------------------------------------------------------------ priority

  function Recalculated(c: Conversation, item: Item, now: Time): Conversation {
    var p := CalculatePriority(c.reason, item.status, c.createdAt, item.price, now);
    if p != c.calculated then c.(calculated := p, updatedAt := now, calculatedAt := Some(now))
    else c.(calculatedAt := Some(now))
  }

  /** A priority event is recorded only when the effective priority moves. */
  function PriorityEvents(id: Id, before: Priority, after: Priority, now: Time): seq<Event> {
    if after != before then [PriorityChanged(id, before, after, now)] else []
  }

  /** The conversation is there and its foreign key holds. */
  predicate HasItem(db: Db, id: Id) {
    id in db.conversations && db.conversations[id].itemId in db.items
  }

  /** One row of a refresh or of a reconcile page; a row without its item joins to nothing. */
  function RecalculateRow(db: Db, id: Id, now: Time): Written {
    if !HasItem(db, id) then Written(db, [])
    else
      var c := db.conversations[id];
      var after := Recalculated(c, db.items[c.itemId], now);
      Written(db.(conversations := db.conversations[id := after]),
              PriorityEvents(id, c.Effective(), after.Effective(), now))
  }

  function Refresh(db: Db, id: Id, now: Time): Outcome {
    if !HasItem(db, id) then Raised(NotFound)
    else Committed(RecalculateRow(db, id, now).db, RecalculateRow(db, id, now).events)
  }

  function MarkCritical(db: Db, id: Id, justification: string, now: Time): Outcome {
    if id !in db.conversations then Raised(NotFound)
    else if db.conversations[id].override == Some(Critical) then Raised(InvalidTransition)
    else
      var c := db.conversations[id];
      var after := c.(override := Some(Critical), updatedAt := now);
      Committed(db.(conversations := db.conversations[id := after],
                    comments := db.comments + [Comment(c.itemId, justification)]),
                [CommentCreated(|db.comments|, c.itemId)] + PriorityEvents(id, c.Effective(), after.Effective(), now))
  }

  function UnmarkCritical(db: Db, id: Id, now: Time): Outcome {
    if id !in db.conversations then Raised(NotFound)
    else if db.conversations[id].override.None? then Raised(InvalidTransition)
    else
      var c := db.conversations[id];
      var after := c.(override := None, updatedAt := now);
      Committed(db.(conversations := db.conversations[id := after]),
                PriorityEvents(id, c.Effective(), after.Effective(), now))
  }

  // ------------------------------------------------------------------ reconcile

  /** An open row of the inner join that the stale predicate selects. */
  predicate StaleRow(db: Db, id: Id, now: Time) {
    && HasItem(db, id)
    && var c := db.conversations[id];
       c.open && IsStale(now, c.createdAt, c.lastInteractionAt,
                         Some(db.items[c.itemId].statusUpdatedAt), c.calculatedAt)
  }

  predicate Above(id: Id, after: Option<Id>) {
    after.Some? ==> id > after.value
  }

  function StaleIds(db: Db, now: Time, after: Option<Id>): set<Id> {
    set id | id in db.conversations && StaleRow(db, id, now) && Above(id, after)
  }

  function StalePage(db: Db, now: Time, after: Option<Id>, size: nat): seq<Id> {
    Take(Ascending(StaleIds(db, now, after)), size)
  }

  /** The rows of a page, recalculated in order. */
  function ReconcileRows(db: Db, ids: seq<Id>, now: Time): Written
    decreases |ids|
  {
    if ids == [] then Written(db, [])
    else Then(RecalculateRow(db, ids[0], now), ReconcileRows(RecalculateRow(db, ids[0], now).db, ids[1..], now))
  }

  function Then(first: Written, second: Written): Written {
    Written(second.db, first.events + second.events)
  }

  // ------------------------------------------------------------------ order items

  function Settle(db: Db, itemId: Id, move: ItemMove): Outcome {
    match move
    case Refused => Raised(InvalidTransition)
    case Moved(item, events) => Committed(db.(items := db.items[itemId := item]), events)
  }

  function Advance(db: Db, itemId: Id, target: ItemStatus, now: Time): Outcome {
    if itemId !in db.items then Raised(NotFound)
    else Settle(db, itemId, AdvanceItem(itemId, db.items[itemId], target, now))
  }

  function Cancel(db: Db, itemId: Id, who: Participant, now: Time): Outcome {
    if itemId !in db.items then Raised(NotFound)
    else Settle(db, itemId, CancelItem(itemId, db.items[itemId], who, now))
  }

  function PlaceItem(db: Db, itemId: Id, offerId: Id, quantity: nat, price: int, now: Time): Outcome {
    Committed(db.(items := db.items[itemId := Item(offerId, quantity, price, Placed, now, now)]), [])
  }
}
