/**
 The imperative form: a session whose methods change the rows and record events as the backend's
 do, and a server that commits and publishes what a session did or drops all of it.
 */
module Server {
  import opened Options
  import opened Policy
  import opened Records
  import opened ItemStatuses
  import opened Ordering
  import Spec = Transactions
  import opened Reconcile
  import opened Requests
  import opened Runs
  import opened CloseInactive
  import ItemListing

  /** What a reconcile run reports: `kept` counts the rows whose calculated priority stayed. */
  datatype ReconcileResult = ReconcileResult(found: nat, processed: nat, updated: nat, kept: nat)

  class Session {
    var items: map<Id, Item>
    var conversations: map<Id, Conversation>
    var messages: seq<Message>
    var comments: seq<Comment>
    var pending: seq<Event>

    function View(): Db
      reads this
    {
      Db(items, conversations, messages, comments)
    }

    constructor (db: Db)
      ensures View() == db && pending == []
    {
      items, conversations, messages, comments := db.items, db.conversations, db.messages, db.comments;
      pending := [];
    }

    /** The session now holds what the outcome commits, on top of what was pending. */
    ghost predicate Holds(o: Outcome, before: seq<Event>)
      reads this
    {
      o.Committed? && View() == o.db && pending == before + o.events
    }

    method RecordEvent(e: Event)
      modifies this`pending
      ensures pending == old(pending) + [e]
    {
      pending := pending + [e];
    }

    // ---------------------------------------------------------------- lifecycle

    /** SELECT of the item's open conversation, from the conversations as the statement sees them. */
    method OpenForItem(visible: map<Id, Conversation>, itemId: Id) returns (found: Option<Id>)
      ensures found.Some? <==> Spec.AnyOpenFor(visible, itemId)
      ensures found.Some? ==> Spec.OpenFor(visible, found.value, itemId)
    {
      if id :| id in visible && Spec.OpenFor(visible, id, itemId) {
        return Some(id);
      }
      return None;
    }

    /**
     The conversation returned was open for the item when it was read: by the first SELECT, by the second,
     or as the row just inserted, which is when it counts as created.
     */
    method GetOrCreateConversation(id: Id, itemId: Id, reason: Reason, seen: map<Id, Conversation>, vanished: bool, now: Time)
      returns (ok: bool, conversation: Id, created: bool)
      modifies this
      ensures ok <==> Spec.OpenConversation(old(View()), id, itemId, reason, seen, vanished, now).Committed?
      ensures ok ==> Holds(Spec.OpenConversation(old(View()), id, itemId, reason, seen, vanished, now), old(pending))
      ensures ok && created ==> conversation == id && Spec.OpenFor(conversations, id, itemId)
      ensures ok && created ==> conversations == old(conversations)[id := conversations[id]]
      ensures ok && !created ==> conversations == old(conversations) && pending == old(pending)
      ensures ok && !created ==> Spec.OpenFor(if Spec.AnyOpenFor(seen, itemId) then seen else conversations, conversation, itemId)
    {
      var existing := OpenForItem(seen, itemId);
      if existing.Some? {
        return true, existing.value, false;
      }
      if itemId !in items {
        return false, id, false;
      }
      var item := items[itemId];
      var priority := CalculatePriority(reason, item.status, now, item.price, now);
      existing := OpenForItem(conversations, itemId);
      if existing.Some? {
        return !vanished, existing.value, false;
      }
      conversations := conversations[id := Conversation(itemId, reason, true, now, now, now, priority, None, Some(now))];
      RecordEvent(ConversationCreated(id, itemId));
      return true, id, true;
    }

    method CloseForInactivity(id: Id, now: Time) returns (closed: bool)
      requires id in conversations
      modifies this
      ensures closed == old(conversations[id].open)
      ensures !closed ==> View() == old(View()) && pending == old(pending)
      ensures closed ==> Holds(Spec.CloseForInactivity(old(View()), id, now), old(pending))
    {
      if !conversations[id].open {
        return false;
      }
      var messageId := |messages|;
      messages := messages + [Message(id, System, InactivityNotice, now)];
      conversations := conversations[id := conversations[id].(open := false)];
      conversations := conversations[id := conversations[id].(updatedAt := now, lastInteractionAt := now)];
      RecordEvent(MessageCreated(messageId, id));
      RecordEvent(ConversationClosed(id, Inactivity));
      return true;
    }

    method MaybeCloseInactive(id: Id, hours: int, now: Time) returns (closed: bool)
      requires id in conversations
      modifies this
      ensures Holds(Spec.ReadConversation(old(View()), id, hours, now), old(pending))
      ensures closed == Spec.IsInactive(old(conversations[id]), hours, now)
    {
      closed := false;
      if Spec.IsInactive(conversations[id], hours, now) {
        closed := CloseForInactivity(id, now);
      }
    }

    /** The batch's per-id step: skip a row that is gone, locked or no longer inactive. */
    method CloseOneInactive(id: Id, locked: bool, hours: int, now: Time) returns (closed: bool)
      modifies this
      ensures Holds(Spec.CloseOneInactive(old(View()), id, locked, hours, now), old(pending))
      ensures closed <==> !locked && id in old(conversations) && Spec.IsInactive(old(conversations[id]), hours, now)
    {
      closed := false;
      if !locked && id in conversations {
        closed := MaybeCloseInactive(id, hours, now);
      }
    }

    /** The loop behind the list of an item's conversations. */
    method ListConversations(listing: seq<Id>, hours: int, now: Time)
      modifies this
      ensures Written(View(), pending)
           == Spec.Then(Written(old(View()), old(pending)), ItemListing.CloseInTurn(old(View()), listing, hours, now))
    {
      ghost var goal := ItemListing.CloseInTurn(View(), listing, hours, now);
      ghost var ahead := goal;
      var i := 0;
      while i < |listing|
        invariant 0 <= i <= |listing|
        invariant ahead == ItemListing.CloseInTurn(View(), listing[i..], hours, now)
        invariant ahead.db == goal.db && pending + ahead.events == old(pending) + goal.events
      {
        assert listing[i..][0] == listing[i] && listing[i..][1..] == listing[i + 1..];
        ghost var first := ItemListing.Looked(View(), listing[i], hours, now);
        Regroup(pending, first.events, ItemListing.CloseInTurn(first.db, listing[i + 1..], hours, now).events);
        if listing[i] in conversations && conversations[listing[i]].open {
          var _ := MaybeCloseInactive(listing[i], hours, now);
        }
        ahead := ItemListing.CloseInTurn(View(), listing[i + 1..], hours, now);
        i := i + 1;
      }
    }

    method CloseBySeller(id: Id, hours: int, now: Time) returns (ok: bool)
      modifies this
      ensures ok <==> Spec.CloseManually(old(View()), id, hours, now).Committed?
      ensures ok ==> Holds(Spec.CloseManually(old(View()), id, hours, now), old(pending))
    {
      if id !in conversations {
        return false;
      }
      var _ := MaybeCloseInactive(id, hours, now);
      if !conversations[id].open {
        return false;
      }
      conversations := conversations[id := conversations[id].(open := false, updatedAt := now)];
      RecordEvent(ConversationClosed(id, Manual));
      return true;
    }

    method AddMessage(id: Id, who: Participant, text: string, hours: int, now: Time) returns (ok: bool)
      modifies this
      ensures ok <==> Spec.PostMessage(old(View()), id, who, text, hours, now).Committed?
      ensures ok ==> Holds(Spec.PostMessage(old(View()), id, who, text, hours, now), old(pending))
    {
      if id !in conversations {
        return false;
      }
      var _ := MaybeCloseInactive(id, hours, now);
      if !conversations[id].open {
        return false;
      }
      var messageId := |messages|;
      messages := messages + [Message(id, User(who), Text(text), now)];
      conversations := conversations[id := conversations[id].(updatedAt := now, lastInteractionAt := now)];
      RecordEvent(MessageCreated(messageId, id));
      return true;
    }

    // ---------------------------------------------------------------- priority

    /** Recalculates one row in place; true if the calculated priority changed. */
    method ApplyCalculatedPriority(id: Id, now: Time) returns (changed: bool)
      requires Spec.HasItem(View(), id)
      modifies this
      ensures View() == Spec.RecalculateRow(old(View()), id, now).db
      ensures pending == old(pending) + Spec.RecalculateRow(old(View()), id, now).events
      ensures changed <==> conversations[id].calculated != old(conversations[id].calculated)
    {
      var c, item := conversations[id], items[conversations[id].itemId];
      var before := c.Effective();
      var calculated := CalculatePriority(c.reason, item.status, c.createdAt, item.price, now);
      changed := calculated != c.calculated;
      if changed {
        c := c.(calculated := calculated, updatedAt := now);
      }
      c := c.(calculatedAt := Some(now));
      conversations := conversations[id := c];
      var after := c.Effective();
      if after != before {
        RecordEvent(PriorityChanged(id, before, after, now));
      }
    }

    method RefreshCalculatedPriority(id: Id, now: Time) returns (ok: bool)
      modifies this
      ensures ok <==> Spec.Refresh(old(View()), id, now).Committed?
      ensures ok ==> Holds(Spec.Refresh(old(View()), id, now), old(pending))
    {
      if id !in conversations || conversations[id].itemId !in items {
        return false;
      }
      var _ := ApplyCalculatedPriority(id, now);
      return true;
    }

    method ApplyCritical(id: Id, justification: string, now: Time) returns (ok: bool)
      modifies this
      ensures ok <==> Spec.MarkCritical(old(View()), id, justification, now).Committed?
      ensures ok ==> Holds(Spec.MarkCritical(old(View()), id, justification, now), old(pending))
    {
      if id !in conversations || conversations[id].override == Some(Critical) {
        return false;
      }
      var c := conversations[id];
      var before := c.Effective();
      RecordEvent(CommentCreated(|comments|, c.itemId));
      comments := comments + [Comment(c.itemId, justification)];
      c := c.(override := Some(Critical), updatedAt := now);
      conversations := conversations[id := c];
      var after := c.Effective();
      if after != before {
        RecordEvent(PriorityChanged(id, before, after, now));
      }
      return true;
    }

    method RemoveCritical(id: Id, now: Time) returns (ok: bool)
      modifies this
      ensures ok <==> Spec.UnmarkCritical(old(View()), id, now).Committed?
      ensures ok ==> Holds(Spec.UnmarkCritical(old(View()), id, now), old(pending))
    {
      if id !in conversations || conversations[id].override.None? {
        return false;
      }
      var c := conversations[id];
      var before := c.Effective();
      c := c.(override := None, updatedAt := now);
      conversations := conversations[id := c];
      var after := c.Effective();
      if after != before {
        RecordEvent(PriorityChanged(id, before, after, now));
      }
      return true;
    }

    // ---------------------------------------------------------------- order items

    method UpdateOrderItemStatus(itemId: Id, target: ItemStatus, now: Time) returns (ok: bool)
      modifies this
      ensures ok <==> Spec.Advance(old(View()), itemId, target, now).Committed?
      ensures ok ==> Holds(Spec.Advance(old(View()), itemId, target, now), old(pending))
    {
      if itemId !in items {
        return false;
      }
      var item := items[itemId];
      if target == item.status {
        assert items[itemId := item] == items;
        return true;
      }
      if Forward(item.status) != Some(target) {
        return false;
      }
      items := items[itemId := item.(status := target, updatedAt := now, statusUpdatedAt := now)];
      RecordEvent(ItemStatusChanged(itemId, item.status, target));
      return true;
    }

    method CancelOrderItem(itemId: Id, who: Participant, now: Time) returns (ok: bool)
      modifies this
      ensures ok <==> Spec.Cancel(old(View()), itemId, who, now).Committed?
      ensures ok ==> Holds(Spec.Cancel(old(View()), itemId, who, now), old(pending))
    {
      if itemId !in items {
        return false;
      }
      var item := items[itemId];
      if item.status == Cancelled {
        assert items[itemId := item] == items;
        return true;
      }
      if !CanCancel(item.status, who) {
        return false;
      }
      var restore := RestoresStock(item.status);
      items := items[itemId := item.(status := Cancelled, updatedAt := now, statusUpdatedAt := now)];
      RecordEvent(ItemCancelled(itemId, restore));
      RecordEvent(ItemStatusChanged(itemId, item.status, Cancelled));
      return true;
    }
  }

  class Server {
    var db: Db
    var published: seq<Event>
    var clock: Time

    function State(): Hub
      reads this
    {
      Hub(db, published, clock)
    }

    constructor (start: Time)
      ensures State() == Empty(start)
    {
      db, published, clock := Db(map[], map[], [], []), [], start;
    }

    /** Commit, then publish what the session recorded. */
    method Commit(session: Session)
      modifies this`db, this`published
      ensures db == session.View() && published == old(published) + session.pending
    {
      db := session.View();
      published := published + session.pending;
    }

    /** One request in one session: committed and published if it returns, dropped if it raises. */
    method Serve(r: Request, hours: int, now: Time) returns (ok: bool)
      modifies this
      ensures State() == Step(old(State()), r, hours, now)
      ensures ok <==> Handle(old(db), r, hours, now).Committed?
    {
      var session := new Session(db);
      ok := Dispatch(session, r, hours, now);
      Finish(session, ok, now);
    }

    /** The end of a session: commit and publish, or roll back by dropping it. */
    method Finish(session: Session, ok: bool, now: Time)
      modifies this
      ensures State() == if ok then Hub(session.View(), old(published) + session.pending, now)
                         else Hub(old(db), old(published), now)
    {
      if ok {
        Commit(session);
      }
      clock := now;
    }

    method Dispatch(session: Session, r: Request, hours: int, now: Time) returns (ok: bool)
      requires session.pending == []
      modifies session
      ensures ok <==> Handle(old(session.View()), r, hours, now).Committed?
      ensures ok ==> session.Holds(Handle(old(session.View()), r, hours, now), [])
    {
      match r
      case Place(itemId, offerId, quantity, price) =>
        session.items := session.items[itemId := Item(offerId, quantity, price, Placed, now, now)];
        ok := true;
      case AdvanceTo(itemId, target) => ok := session.UpdateOrderItemStatus(itemId, target, now);
      case CancelBy(itemId, who) => ok := session.CancelOrderItem(itemId, who, now);
      case Open(newId, itemId, reason, seen, vanished) =>
        var conversation, created;
        ok, conversation, created := session.GetOrCreateConversation(newId, itemId, reason, seen, vanished, now);
      case CloseNow(id) => ok := session.CloseBySeller(id, hours, now);
      case Post(id, who, text) => ok := session.AddMessage(id, who, text, hours, now);
      case RefreshNow(id) => ok := session.RefreshCalculatedPriority(id, now);
      case Mark(id, justification) => ok := session.ApplyCritical(id, justification, now);
      case Unmark(id) => ok := session.RemoveCritical(id, now);
      case RepairPage(moment, after, size) =>
        var page, _ := ReconcilePage(session, moment, after, size);
        ok := true;
      case Read(id) =>
        ok := id in session.conversations;
        if ok {
          var _ := session.MaybeCloseInactive(id, hours, now);
        }
      case CloseListed(id, locked) =>
        var _ := session.CloseOneInactive(id, locked, hours, now);
        ok := true;
    }

    /** Row i of a page, its predecessors recalculated from the tables the page was read from. */
    method RecalculateNext(session: Session, page: seq<Id>, i: nat, moment: Time, ghost start: Db) returns (changed: bool)
      requires i < |page| && Increasing(page) && Spec.HasItem(start, page[i])
      requires Written(session.View(), session.pending) == Spec.ReconcileRows(start, page[..i], moment)
      modifies session
      ensures Written(session.View(), session.pending) == Spec.ReconcileRows(start, page[..i + 1], moment)
      ensures |MovingIn(start, page[..i + 1], moment)| == |MovingIn(start, page[..i], moment)| + (if changed then 1 else 0)
    {
      PageRow(start, page, i, moment);
      PageGrows(start, page, i, moment);
      MovingInGrows(start, page, i, moment);
      changed := session.ApplyCalculatedPriority(page[i], moment);
    }

    /** The rows of a page, recalculated one after the other in one session. */
    method RecalculatePage(session: Session, page: seq<Id>, moment: Time) returns (updated: nat)
      requires session.pending == [] && Increasing(page)
      requires forall id :: id in page ==> Spec.HasItem(session.View(), id)
      modifies session
      ensures Written(session.View(), session.pending) == Spec.ReconcileRows(old(session.View()), page, moment)
      ensures updated == |MovingIn(old(session.View()), page, moment)| <= |page|
    {
      ghost var start := session.View();
      updated := 0;
      var i := 0;
      while i < |page|
        invariant 0 <= i <= |page|
        invariant Written(session.View(), session.pending) == Spec.ReconcileRows(start, page[..i], moment)
        invariant updated == |MovingIn(start, page[..i], moment)| <= i
      {
        var changed := RecalculateNext(session, page, i, moment, start);
        if changed {
          updated := updated + 1;
        }
        i := i + 1;
      }
      assert page[..i] == page;
    }

    /** The body of one reconcile transaction: list a page, recalculate each of its rows. */
    method ReconcilePage(session: Session, moment: Time, after: Option<Id>, size: nat)
      returns (page: seq<Id>, updated: nat)
      requires session.pending == []
      modifies session
      ensures page == Spec.StalePage(old(session.View()), moment, after, size)
      ensures Written(session.View(), session.pending) == Spec.ReconcileRows(old(session.View()), page, moment)
      ensures updated == |MovingIn(old(session.View()), page, moment)| <= |page|
    {
      page := Spec.StalePage(session.View(), moment, after, size);
      PageIsStale(session.View(), moment, after, size);
      assert forall id :: id in page ==> Spec.StaleRow(session.View(), id, moment);
      updated := RecalculatePage(session, page, moment);
    }

    /** One transaction of the job: a page read, its rows recalculated, committed and published. */
    method RepairNextPage(moment: Time, after: Option<Id>, size: nat) returns (page: seq<Id>, updated: nat)
      modifies this`db, this`published
      ensures page == Spec.StalePage(old(db), moment, after, size)
      ensures db == Spec.ReconcileRows(old(db), page, moment).db
      ensures published == old(published) + Spec.ReconcileRows(old(db), page, moment).events
      ensures updated == |MovingIn(old(db), page, moment)| <= |page|
    {
      var session := new Session(db);
      page, updated := ReconcilePage(session, moment, after, size);
      Commit(session);
    }

    /** The reconcile job: pages above a cursor, one transaction each, until one comes back empty. */
    method RunReconcile(moment: Time, pageSize: Option<nat>, configured: nat) returns (r: ReconcileResult)
      modifies this`db, this`published
      ensures configured > 0 || (pageSize.Some? && pageSize.value > 0) ==>
        && db == OnePass(old(db), moment).db && published == old(published) + OnePass(old(db), moment).events
        && r.found == |Spec.StaleIds(old(db), moment, None)|
        && r.updated == |Moving(old(db), Spec.StaleIds(old(db), moment, None), moment)|
      ensures r.found == r.processed == r.updated + r.kept
      ensures configured == 0 && (pageSize.None? || pageSize.value == 0) ==>
        db == old(db) && published == old(published) && r.found == 0
    {
      var size := PageSize(pageSize, configured);
      PagedIsOnePass(db, moment, size);
      var found: nat, processed: nat, updated: nat, kept: nat := 0, 0, 0, 0;
      var after: Option<Id> := None;
      ghost var ahead := AheadOf(db, moment, None, size);
      ghost var goal, log := ahead, published;
      while true
        invariant ahead == AheadOf(db, moment, after, size)
        invariant ahead.writes.db == goal.writes.db
        invariant published + ahead.writes.events == log + goal.writes.events
        invariant found == processed == updated + kept
        invariant size == 0 ==> found == 0
        invariant found + ahead.found == goal.found
        invariant updated + ahead.moving == goal.moving
        decreases ahead.found
      {
        ghost var before, was := db, published;
        var page, moved := RepairNextPage(moment, after, size);
        if page == [] {
          NothingAhead(before, moment, after, size);
          break;
        }
        PageShrinksAhead(before, was, moment, after, size);
        found := found + |page|;
        processed := processed + |page|;
        updated := updated + moved;
        kept := kept + (|page| - moved);
        after := Some(page[|page| - 1]);
        ahead := AheadOf(db, moment, after, size);
      }
      r := ReconcileResult(found, processed, updated, kept);
    }

    /** Other requests, served one after the other. */
    method ServeAll(run: seq<Timed>, hours: int)
      modifies this
      ensures State() == Execute(old(State()), run, hours)
    {
      var i := 0;
      while i < |run|
        invariant 0 <= i <= |run|
        invariant Execute(State(), run[i..], hours) == Execute(old(State()), run, hours)
      {
        assert run[i..][0] == run[i] && run[i..][1..] == run[i + 1..];
        var _ := Serve(run[i].request, hours, run[i].at);
        i := i + 1;
      }
    }

    /**
     The inactivity job: ids listed in one transaction, then one transaction for each. `schedule` says
     what others commit before the k-th of those, whether its row is locked, and when it runs.
     */
    method RunCloseInactive(hours: int, listedAt: Time, schedule: nat -> Slot) returns (ids: seq<Id>, closed: nat)
      modifies this
      ensures Distinct(ids) && forall id :: id in ids <==> id in Eligible(old(db), hours, listedAt)
      ensures State() == RunBatch(old(State()), ids, seq(|ids|, schedule), hours).hub
      ensures closed == |RunBatch(old(State()), ids, seq(|ids|, schedule), hours).closed|
    {
      ids := Ascending(Eligible(db, hours, listedAt));
      AscendingIncreases(Eligible(db, hours, listedAt));
      closed := CloseEach(ids, seq(|ids|, schedule), hours);
    }

    method CloseEach(ids: seq<Id>, slots: seq<Slot>, hours: int) returns (closed: nat)
      requires |ids| == |slots|
      modifies this
      ensures State() == RunBatch(old(State()), ids, slots, hours).hub
      ensures closed == |RunBatch(old(State()), ids, slots, hours).closed|
    {
      ghost var ahead := RunBatch(State(), ids, slots, hours);
      ghost var goal := ahead;
      closed := 0;
      var k := 0;
      assert ids[0..] == ids && slots[0..] == slots;
      while k < |ids|
        invariant 0 <= k <= |ids|
        invariant ahead == RunBatch(State(), ids[k..], slots[k..], hours)
        invariant ahead.hub == goal.hub
        invariant closed + |ahead.closed| == |goal.closed|
      {
        BatchFrom(State(), ids, slots, k, hours);
        var picked := ServeSlot(ids[k], slots[k], hours);
        ahead := RunBatch(State(), ids[k + 1..], slots[k + 1..], hours);
        if picked {
          closed := closed + 1;
        }
        k := k + 1;
      }
    }

    method ServeSlot(id: Id, slot: Slot, hours: int) returns (picked: bool)
      modifies this
      ensures State() == AfterSlot(old(State()), id, slot, hours)
      ensures picked <==> Picked(Execute(old(State()), slot.others, hours), id, slot, hours)
    {
      ServeAll(slot.others, hours);
      picked := CloseListedId(id, slot, hours);
    }

    method CloseListedId(id: Id, slot: Slot, hours: int) returns (picked: bool)
      modifies this
      ensures State() == Step(old(State()), CloseListed(id, slot.locked), hours, slot.at)
      ensures picked <==> Picked(old(State()), id, slot, hours)
    {
      var session := new Session(db);
      picked := session.CloseOneInactive(id, slot.locked, hours, slot.at);
      Commit(session);
      clock := slot.at;
    }
  }
}
