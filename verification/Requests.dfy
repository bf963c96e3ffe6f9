/** The requests of the API and of the jobs, and the effect of each on one conversation. */
module Requests {
  import opened Options
  import opened Policy
  import opened Records
  import opened Ordering
  import opened Transactions
  import opened Reconcile

  datatype Request =
    | Place(itemId: Id, offerId: Id, quantity: nat, price: int)
    | AdvanceTo(itemId: Id, target: ItemStatus)
    | CancelBy(itemId: Id, canceller: Participant)
    | Open(newId: Id, itemId: Id, reason: Reason, seen: map<Id, Conversation>, vanished: bool)
    | Read(id: Id)
    | CloseListed(id: Id, locked: bool)
    | CloseNow(id: Id)
    | Post(id: Id, author: Participant, text: string)
    | RefreshNow(id: Id)
    | Mark(id: Id, justification: string)
    | Unmark(id: Id)
    | RepairPage(moment: Time, after: Option<Id>, size: nat)

  function Handle(db: Db, r: Request, hours: int, now: Time): Outcome {
    match r
    case Place(itemId, offerId, quantity, price) => PlaceItem(db, itemId, offerId, quantity, price, now)
    case AdvanceTo(itemId, target) => Advance(db, itemId, target, now)
    case CancelBy(itemId, who) => Cancel(db, itemId, who, now)
    case Open(newId, itemId, reason, seen, vanished) => OpenConversation(db, newId, itemId, reason, seen, vanished, now)
    case Read(id) => ReadConversation(db, id, hours, now)
    case CloseListed(id, locked) => CloseOneInactive(db, id, locked, hours, now)
    case CloseNow(id) => CloseManually(db, id, hours, now)
    case Post(id, who, text) => PostMessage(db, id, who, text, hours, now)
    case RefreshNow(id) => Refresh(db, id, now)
    case Mark(id, justification) => MarkCritical(db, id, justification, now)
    case Unmark(id) => UnmarkCritical(db, id, now)
    case RepairPage(moment, after, size) =>
      var w := ReconcileRows(db, StalePage(db, moment, after, size), moment);
      Committed(w.db, w.events)
  }

  /** New keys are fresh, and a repair page carries a moment taken before the page runs. */
  predicate Enabled(db: Db, r: Request, now: Time) {
    match r
    case Place(itemId, _, _, _) => itemId !in db.items
    case Open(newId, _, _, _, _) => newId !in db.conversations
    case RepairPage(moment, _, _) => moment <= now
    case _ => true
  }

  // ------------------------------------------------------------------ views of the log

  function MessagesOf(id: Id): Message -> Option<Message> {
    (m: Message) => if m.conversationId == id then Some(m) else None
  }

  function ClosingsOf(id: Id): Event -> Option<ClosedBy> {
    (e: Event) => if e.ConversationClosed? && e.conversationId == id then Some(e.closedBy) else None
  }

  function TrailOf(id: Id): Event -> Option<(Priority, Priority)> {
    (e: Event) => if e.PriorityChanged? && e.conversationId == id then Some((e.fromPriority, e.toPriority)) else None
  }

  function StatusesOf(id: Id): Event -> Option<(ItemStatus, ItemStatus)> {
    (e: Event) => if e.ItemStatusChanged? && e.itemId == id then Some((e.fromStatus, e.toStatus)) else None
  }

  // ------------------------------------------------------------------ one conversation

  /** What a committed request did to one conversation. */
  datatype Change =
    | Untouched
    | Posted(author: Participant, text: string)
    | TimedOut
    | ClosedByHand
    | Repaired(moment: Time)
    | Overridden(override: Option<Priority>)

  function ChangeOf(db: Db, r: Request, hours: int, now: Time, id: Id): Change
    requires id in db.conversations
  {
    var c := db.conversations[id];
    match r
    case Read(i) => if i == id && IsInactive(c, hours, now) then TimedOut else Untouched
    case CloseListed(i, locked) => if i == id && !locked && IsInactive(c, hours, now) then TimedOut else Untouched
    case CloseNow(i) => if i == id then ClosedByHand else Untouched
    case Post(i, who, text) => if i == id then Posted(who, text) else Untouched
    case RefreshNow(i) => if i == id then Repaired(now) else Untouched
    case Mark(i, _) => if i == id then Overridden(Some(Critical)) else Untouched
    case Unmark(i) => if i == id then Overridden(None) else Untouched
    case RepairPage(moment, after, size) =>
      if id in StalePage(db, moment, after, size) then Repaired(moment) else Untouched
    case _ => Untouched
  }

  function Changed(c: Conversation, item: Item, change: Change, now: Time): Conversation {
    match change
    case Untouched => c
    case Posted(_, _) => c.(updatedAt := now, lastInteractionAt := now)
    case TimedOut => c.(open := false, updatedAt := now, lastInteractionAt := now)
    case ClosedByHand => c.(open := false, updatedAt := now)
    case Repaired(moment) => Recalculated(c, item, moment)
    case Overridden(o) => c.(override := o, updatedAt := now)
  }

  function NewMessages(id: Id, change: Change, now: Time): seq<Message> {
    match change
    case Posted(who, text) => [Message(id, User(who), Text(text), now)]
    case TimedOut => [Message(id, System, InactivityNotice, now)]
    case _ => []
  }

  function NewClosings(change: Change): seq<ClosedBy> {
    match change
    case TimedOut => [Inactivity]
    case ClosedByHand => [Manual]
    case _ => []
  }

  function NewTrail(before: Priority, after: Priority): seq<(Priority, Priority)> {
    if after != before then [(before, after)] else []
  }

  predicate WellFormed(db: Db) {
    forall id :: id in db.conversations ==> db.conversations[id].itemId in db.items
  }

  /** The request's whole effect on conversation `id`, in the table and in the log. */
  ghost predicate Effect(db: Db, after: Db, events: seq<Event>, id: Id, change: Change, now: Time)
    requires HasItem(db, id)
  {
    var c := db.conversations[id];
    && id in after.conversations
    && after.conversations[id] == Changed(c, db.items[c.itemId], change, now)
    && db.messages <= after.messages
    && Collect(MessagesOf(id), after.messages[|db.messages|..]) == NewMessages(id, change, now)
    && Collect(ClosingsOf(id), events) == NewClosings(change)
    && Collect(TrailOf(id), events) == NewTrail(c.Effective(), after.conversations[id].Effective())
  }

  /** If the request commits, its effect on the conversation is the change computed from what it found. */
  ghost predicate EffectOf(db: Db, r: Request, id: Id, hours: int, now: Time)
    requires HasItem(db, id)
  {
    var o := Handle(db, r, hours, now);
    o.Committed? ==> Effect(db, o.db, o.events, id, ChangeOf(db, r, hours, now, id), now)
  }

  lemma PairCollects<U>(f: Event -> Option<U>, a: Event, b: Event)
    ensures Collect(f, [a, b]) == AsSeq(f(a)) + AsSeq(f(b))
  {
    assert [a, b][1..] == [b];
    CollectOne(f, b);
  }

  /** One recalculated row, seen from any conversation. */
  lemma RecalculateRowTrail(db: Db, row: Id, id: Id, now: Time)
    requires HasItem(db, row) && id in db.conversations
    ensures Collect(TrailOf(id), RecalculateRow(db, row, now).events) ==
      if row == id then NewTrail(db.conversations[id].Effective(), RecalculateRow(db, row, now).db.conversations[id].Effective())
      else []
    ensures Collect(ClosingsOf(id), RecalculateRow(db, row, now).events) == []
  {
  }

  /** A page seen from one conversation: its own recalculation if the page holds it, nothing otherwise. */
  lemma {:induction false} RepairPageTrail(db: Db, ids: seq<Id>, id: Id, moment: Time)
    requires HasItem(db, id) && Increasing(ids) && forall i :: i in ids ==> HasItem(db, i)
    ensures Collect(ClosingsOf(id), RowEvents(db, ids, moment)) == []
    ensures Collect(TrailOf(id), RowEvents(db, ids, moment)) ==
      if id in ids then
        NewTrail(db.conversations[id].Effective(), RecalculateRow(db, id, moment).db.conversations[id].Effective())
      else []
  {
    if ids == [] {
    } else {
      var first := RecalculateRow(db, ids[0], moment).events;
      RecalculateRowTrail(db, ids[0], id, moment);
      RepairPageTrail(db, ids[1..], id, moment);
      CollectConcat(TrailOf(id), first, RowEvents(db, ids[1..], moment));
      CollectConcat(ClosingsOf(id), first, RowEvents(db, ids[1..], moment));
      if id == ids[0] {
        assert id !in ids[1..];
      }
    }
  }

  lemma RepairPageRow(db: Db, page: seq<Id>, id: Id, moment: Time)
    requires HasItem(db, id) && Increasing(page)
    ensures SameFrame(db, ReconcileRows(db, page, moment).db)
    ensures ReconcileRows(db, page, moment).db.conversations[id] ==
      if id in page then Recalculated(db.conversations[id], db.items[db.conversations[id].itemId], moment)
      else db.conversations[id]
  {
    ReconcileRowsFrame(db, page, moment);
    if id in page {
      ReconcileRowsAt(db, page, moment, id);
    } else {
      ReconcileRowsElsewhere(db, page, moment, id);
    }
  }

  lemma PageEffect(db: Db, page: seq<Id>, id: Id, moment: Time, now: Time)
    requires HasItem(db, id) && Increasing(page) && (forall i :: i in page ==> HasItem(db, i))
    ensures var w := ReconcileRows(db, page, moment);
      Effect(db, w.db, w.events, id, if id in page then Repaired(moment) else Untouched, now)
  {
    RepairPageRow(db, page, id, moment);
    ReconcileRowsEvents(db, page, moment);
    RepairPageTrail(db, page, id, moment);
  }

  lemma RepairPageEffect(db: Db, moment: Time, cursor: Option<Id>, size: nat, id: Id, hours: int, now: Time)
    requires HasItem(db, id)
    ensures EffectOf(db, RepairPage(moment, cursor, size), id, hours, now)
  {
    var page := StalePage(db, moment, cursor, size);
    PageIsStale(db, moment, cursor, size);
    assert forall i :: i in page ==> StaleRow(db, i, moment);
    PageEffect(db, page, id, moment, now);
  }

  lemma InactiveCloseEffect(db: Db, i: Id, hours: int, now: Time, id: Id)
    requires HasItem(db, id)
    ensures EffectOf(db, Read(i), id, hours, now)
  {
    var o := ReadConversation(db, i, hours, now);
    if o.Committed? && |o.events| == 2 {
      PairCollects(ClosingsOf(id), o.events[0], o.events[1]);
      PairCollects(TrailOf(id), o.events[0], o.events[1]);
    }
  }

  lemma CancelEffect(db: Db, itemId: Id, who: Participant, hours: int, now: Time, id: Id)
    requires HasItem(db, id)
    ensures EffectOf(db, CancelBy(itemId, who), id, hours, now)
  {
    var o := Cancel(db, itemId, who, now);
    if o.Committed? && |o.events| == 2 {
      PairCollects(ClosingsOf(id), o.events[0], o.events[1]);
      PairCollects(TrailOf(id), o.events[0], o.events[1]);
    }
  }

  lemma PostEffect(db: Db, i: Id, who: Participant, text: string, hours: int, now: Time, id: Id)
    requires HasItem(db, id)
    ensures EffectOf(db, Post(i, who, text), id, hours, now)
  {
  }

  lemma CloseNowEffect(db: Db, i: Id, hours: int, now: Time, id: Id)
    requires HasItem(db, id)
    ensures EffectOf(db, CloseNow(i), id, hours, now)
  {
  }

  lemma RefreshEffect(db: Db, i: Id, hours: int, now: Time, id: Id)
    requires HasItem(db, id)
    ensures EffectOf(db, RefreshNow(i), id, hours, now)
  {
  }

  lemma MarkEffect(db: Db, i: Id, justification: string, hours: int, now: Time, id: Id)
    requires HasItem(db, id)
    ensures EffectOf(db, Mark(i, justification), id, hours, now)
  {
    var o := MarkCritical(db, i, justification, now);
    if o.Committed? && |o.events| == 2 {
      PairCollects(ClosingsOf(id), o.events[0], o.events[1]);
      PairCollects(TrailOf(id), o.events[0], o.events[1]);
    }
  }

  lemma UnmarkEffect(db: Db, i: Id, hours: int, now: Time, id: Id)
    requires HasItem(db, id)
    ensures EffectOf(db, Unmark(i), id, hours, now)
  {
  }

  /** Every committed request does to every conversation exactly what its change says, and nothing to the others. */
  lemma RequestEffect(db: Db, r: Request, hours: int, now: Time, id: Id)
    requires WellFormed(db) && Enabled(db, r, now) && id in db.conversations
    ensures EffectOf(db, r, id, hours, now)
  {
    match r
    case Place(_, _, _, _) =>
    case AdvanceTo(_, _) =>
    case CancelBy(itemId, who) => CancelEffect(db, itemId, who, hours, now, id);
    case Open(_, _, _, _, _) =>
    case Read(i) => InactiveCloseEffect(db, i, hours, now, id);
    case CloseListed(i, locked) => InactiveCloseEffect(db, i, hours, now, id);
    case CloseNow(i) => CloseNowEffect(db, i, hours, now, id);
    case Post(i, who, text) => PostEffect(db, i, who, text, hours, now, id);
    case RefreshNow(i) => RefreshEffect(db, i, hours, now, id);
    case Mark(i, justification) => MarkEffect(db, i, justification, hours, now, id);
    case Unmark(i) => UnmarkEffect(db, i, hours, now, id);
    case RepairPage(moment, cursor, size) => RepairPageEffect(db, moment, cursor, size, id, hours, now);
  }
}
