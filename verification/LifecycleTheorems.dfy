/** Conversations and order items over whole runs: what is unique, what is final, what is counted. */
module LifecycleTheorems {
  import opened Options
  import opened Policy
  import opened Records
  import opened ItemStatuses
  import opened Transactions
  import opened Reconcile
  import opened Requests
  import opened Runs
  import opened RunInvariant
  import opened RunTheorems

  // ------------------------------------------------------------------ conversations

  lemma {:induction false} LatestIsGreatest(start: Time, messages: seq<Message>)
    ensures start <= Latest(start, messages)
    ensures forall m :: m in messages ==> m.createdAt <= Latest(start, messages)
    ensures Latest(start, messages) == start || exists m :: m in messages && m.createdAt == Latest(start, messages)
    decreases |messages|
  {
    if messages == [] {
    } else {
      var k := |messages| - 1;
      LatestIsGreatest(start, messages[..k]);
      assert messages[k] in messages;
      assert forall m :: m in messages ==> m in messages[..k] || m == messages[k];
    }
  }

  lemma {:induction false} MessagesOfHolds(id: Id, messages: seq<Message>)
    ensures forall m :: m in Collect(MessagesOf(id), messages) <==> m in messages && m.conversationId == id
  {
    if messages == [] {
    } else {
      MessagesOfHolds(id, messages[1..]);
      assert forall m :: m in messages <==> m == messages[0] || m in messages[1..];
    }
  }

  /** In every reachable state an item has at most one open conversation, however many creations raced. */
  lemma AtMostOneOpen(start: Time, run: seq<Timed>, hours: int, a: Id, b: Id)
    requires Legal(Empty(start), run, hours)
    requires var db := Execute(Empty(start), run, hours).db;
      && a in db.conversations && b in db.conversations
      && db.conversations[a].open && db.conversations[b].open
      && db.conversations[a].itemId == db.conversations[b].itemId
    ensures a == b
  {
    ReachableInv(start, run, hours);
  }

  /** In every reachable state a conversation's last interaction is the latest of its creation and its messages. */
  lemma LastInteractionIsLatest(start: Time, run: seq<Timed>, hours: int, id: Id)
    requires Legal(Empty(start), run, hours) && id in Execute(Empty(start), run, hours).db.conversations
    ensures var db := Execute(Empty(start), run, hours).db;
      var c := db.conversations[id];
      && c.createdAt <= c.lastInteractionAt
      && (forall m :: m in db.messages && m.conversationId == id ==> m.createdAt <= c.lastInteractionAt)
      && (c.lastInteractionAt == c.createdAt
          || exists m :: m in db.messages && m.conversationId == id && m.createdAt == c.lastInteractionAt)
  {
    var s := Execute(Empty(start), run, hours);
    ReachableInv(start, run, hours);
    assert History(s, id);
    LatestIsGreatest(s.db.conversations[id].createdAt, Collect(MessagesOf(id), s.db.messages));
    MessagesOfHolds(id, s.db.messages);
  }

  /**
   In every reachable state an open conversation was never closed, a closed one was closed exactly once,
   and it holds one system message if inactivity closed it and none otherwise.
   */
  lemma ClosedExactlyOnce(start: Time, run: seq<Timed>, hours: int, id: Id)
    requires Legal(Empty(start), run, hours) && id in Execute(Empty(start), run, hours).db.conversations
    ensures var s := Execute(Empty(start), run, hours);
      var closings := Collect(ClosingsOf(id), s.log);
      && |closings| == (if s.db.conversations[id].open then 0 else 1)
      && |Collect(SystemOnly(), Collect(MessagesOf(id), s.db.messages))| == (if closings == [Inactivity] then 1 else 0)
  {
    ReachableInv(start, run, hours);
    assert History(Execute(Empty(start), run, hours), id);
  }

  lemma ClosedStep(s: Hub, r: Request, hours: int, now: Time, id: Id)
    requires Inv(s) && Enabled(s.db, r, now) && id in s.db.conversations && !s.db.conversations[id].open
    ensures var after := Step(s, r, hours, now);
      && id in after.db.conversations && !after.db.conversations[id].open
      && after.db.conversations[id].lastInteractionAt == s.db.conversations[id].lastInteractionAt
      && Collect(MessagesOf(id), after.db.messages) == Collect(MessagesOf(id), s.db.messages)
      && Collect(ClosingsOf(id), after.log) == Collect(ClosingsOf(id), s.log)
  {
    var o := Handle(s.db, r, hours, now);
    if o.Committed? {
      RequestEffect(s.db, r, hours, now, id);
      CommittedIsPossible(s.db, r, hours, now, id);
      CollectGrows(MessagesOf(id), s.db.messages, o.db.messages);
      CollectConcat(ClosingsOf(id), s.log, o.events);
    }
  }

  /** Closed is final: no run reopens the conversation, adds to its messages, or closes it again. */
  lemma {:induction false} ClosedIsFinal(s: Hub, run: seq<Timed>, hours: int, id: Id)
    requires Inv(s) && Legal(s, run, hours) && id in s.db.conversations && !s.db.conversations[id].open
    ensures var after := Execute(s, run, hours);
      && id in after.db.conversations && !after.db.conversations[id].open
      && after.db.conversations[id].lastInteractionAt == s.db.conversations[id].lastInteractionAt
      && Collect(MessagesOf(id), after.db.messages) == Collect(MessagesOf(id), s.db.messages)
      && Collect(ClosingsOf(id), after.log) == Collect(ClosingsOf(id), s.log)
    decreases |run|
  {
    if run == [] {
    } else {
      ClosedStep(s, run[0].request, hours, run[0].at, id);
      StepKeepsInv(s, run[0].request, hours, run[0].at);
      ClosedIsFinal(Step(s, run[0].request, hours, run[0].at), run[1..], hours, id);
    }
  }

  /** Messages are only ever appended: a run keeps every message there was, in place. */
  lemma {:induction false} MessagesAreImmutable(s: Hub, run: seq<Timed>, hours: int)
    ensures s.db.messages <= Execute(s, run, hours).db.messages
    decreases |run|
  {
    if run == [] {
    } else {
      if Handle(s.db, run[0].request, hours, run[0].at).Committed? {
        KnownKept(s.db, run[0].request, hours, run[0].at);
      }
      MessagesAreImmutable(Step(s, run[0].request, hours, run[0].at), run[1..], hours);
    }
  }

  /**
   A create makes a new conversation exactly if the item is there and neither the first SELECT nor the
   tables show one open for it; the new one is open, fresh in all its times and ranked by the policy.
   */
  lemma CreatesExactly(s: Hub, r: Request, hours: int, now: Time)
    requires r.Open? && r.newId !in s.db.conversations
    ensures r.newId in Step(s, r, hours, now).db.conversations <==>
      && r.itemId in s.db.items
      && (forall id :: id in r.seen && r.seen[id].itemId == r.itemId ==> !r.seen[id].open)
      && (forall id :: id in s.db.conversations && s.db.conversations[id].itemId == r.itemId ==> !s.db.conversations[id].open)
    ensures r.newId in Step(s, r, hours, now).db.conversations ==>
      var c, item := Step(s, r, hours, now).db.conversations[r.newId], s.db.items[r.itemId];
      && c.open && c.itemId == r.itemId && c.reason == r.reason && c.override.None?
      && c.createdAt == c.updatedAt == c.lastInteractionAt == now && c.calculatedAt == Some(now)
      && c.calculated == CalculatePriority(r.reason, item.status, now, item.price, now)
  {
  }

  // ------------------------------------------------------------------ a close that raises away

  predicate OnlyWrites(run: seq<Timed>, id: Id) {
    forall t :: t in run ==> (t.request.Post? || t.request.CloseNow?) && t.request.id == id
  }

  /**
   Posting to, or manually closing, a conversation that has gone inactive raises after the lazy close,
   and the rollback undoes that close: however many such requests come, the conversation stays open,
   without its notice, and nothing is published.
   */
  lemma {:induction false} InactiveStaysOpenUnderWrites(s: Hub, run: seq<Timed>, hours: int, id: Id)
    requires Legal(s, run, hours) && OnlyWrites(run, id)
    requires id in s.db.conversations && IsInactive(s.db.conversations[id], hours, s.clock)
    ensures Execute(s, run, hours).db == s.db && Execute(s, run, hours).log == s.log
    decreases |run|
  {
    if run == [] {
    } else {
      assert run[0] in run;
      assert Handle(s.db, run[0].request, hours, run[0].at) == Raised(InvalidTransition);
      InactiveStaysOpenUnderWrites(Step(s, run[0].request, hours, run[0].at), run[1..], hours, id);
    }
  }

  predicate Closes(r: Request, id: Id, inactive: bool) {
    || (r == Read(id) && inactive)
    || (r == CloseListed(id, false) && inactive)
    || (r == CloseNow(id) && !inactive)
  }

  lemma ClosingChange(db: Db, r: Request, hours: int, now: Time, id: Id)
    requires id in db.conversations && db.conversations[id].open
    ensures Closes(r, id, IsInactive(db.conversations[id], hours, now)) ==> Handle(db, r, hours, now).Committed?
    ensures Handle(db, r, hours, now).Committed? ==>
      (Closes(r, id, IsInactive(db.conversations[id], hours, now)) <==>
       NewClosings(ChangeOf(db, r, hours, now, id)) != [])
  {
  }

  /**
   Exactly when a request closes an open conversation: a read or a batch pick that finds it inactive
   at that instant, or a manual close that does not.
   */
  lemma ClosesExactly(s: Hub, r: Request, hours: int, now: Time, id: Id)
    requires WellFormed(s.db) && Enabled(s.db, r, now) && id in s.db.conversations && s.db.conversations[id].open
    ensures id in Step(s, r, hours, now).db.conversations
    ensures !Step(s, r, hours, now).db.conversations[id].open
       <==> Closes(r, id, IsInactive(s.db.conversations[id], hours, now))
  {
    var o, c := Handle(s.db, r, hours, now), s.db.conversations[id];
    ClosingChange(s.db, r, hours, now, id);
    if o.Committed? {
      var change := ChangeOf(s.db, r, hours, now, id);
      RequestEffect(s.db, r, hours, now, id);
      assert o.db.conversations[id] == Changed(c, s.db.items[c.itemId], change, now);
      ChangedOpen(c, s.db.items[c.itemId], change, now);
    }
  }

  lemma ChangedOpen(c: Conversation, item: Item, change: Change, now: Time)
    requires c.open
    ensures Changed(c, item, change, now).open <==> NewClosings(change) == []
  {
  }

  // ------------------------------------------------------------------ order items

  lemma RowEventsMoveNoItem(db: Db, ids: seq<Id>, moment: Time, itemId: Id)
    ensures Collect(StatusesOf(itemId), RowEvents(db, ids, moment)) == []
  {
    RowEventsAreKnown(db, ids, moment);
    CollectNothing(StatusesOf(itemId), RowEvents(db, ids, moment));
  }

  lemma ItemStep(s: Hub, r: Request, hours: int, now: Time, itemId: Id)
    requires Enabled(s.db, r, now) && itemId in s.db.items
    ensures var after := Step(s, r, hours, now);
      && itemId in after.db.items && s.log <= after.log
      && StatusPath(Collect(StatusesOf(itemId), Since(s, after)), s.db.items[itemId].status, after.db.items[itemId].status)
  {
    var after := Step(s, r, hours, now);
    var o := Handle(s.db, r, hours, now);
    if o.Committed? {
      assert Since(s, after) == o.events;
      ItemEvents(s.db, r, hours, now, itemId);
    } else {
      assert Since(s, after) == [];
    }
  }

  lemma ItemEvents(db: Db, r: Request, hours: int, now: Time, itemId: Id)
    requires Enabled(db, r, now) && itemId in db.items && Handle(db, r, hours, now).Committed?
    ensures var o := Handle(db, r, hours, now);
      && itemId in o.db.items
      && StatusPath(Collect(StatusesOf(itemId), o.events), db.items[itemId].status, o.db.items[itemId].status)
  {
    var o := Handle(db, r, hours, now);
    if r.RepairPage? {
      var page := StalePage(db, r.moment, r.after, r.size);
      PageIsStale(db, r.moment, r.after, r.size);
      ReconcileRowsFrame(db, page, r.moment);
      ReconcileRowsEvents(db, page, r.moment);
      RowEventsMoveNoItem(db, page, r.moment, itemId);
    } else if |o.events| == 2 {
      PairCollects(StatusesOf(itemId), o.events[0], o.events[1]);
    } else if |o.events| == 1 {
      assert o.events == [o.events[0]];
      CollectOne(StatusesOf(itemId), o.events[0]);
    }
  }

  lemma {:induction false} ItemRun(s: Hub, run: seq<Timed>, hours: int, itemId: Id)
    requires Legal(s, run, hours) && itemId in s.db.items
    ensures var after := Execute(s, run, hours);
      && itemId in after.db.items && s.log <= after.log
      && StatusPath(Collect(StatusesOf(itemId), Since(s, after)), s.db.items[itemId].status, after.db.items[itemId].status)
    decreases |run|
  {
    var after := Execute(s, run, hours);
    LogGrows(s, run, hours);
    if run == [] {
      assert Since(s, after) == [];
    } else {
      var next := Step(s, run[0].request, hours, run[0].at);
      ItemStep(s, run[0].request, hours, run[0].at, itemId);
      ItemRun(next, run[1..], hours, itemId);
      LogGrows(next, run[1..], hours);
      SinceSplits(StatusesOf(itemId), s, next, after);
      StatusPathJoins(Collect(StatusesOf(itemId), Since(s, next)), Collect(StatusesOf(itemId), Since(next, after)),
                      s.db.items[itemId].status, next.db.items[itemId].status, after.db.items[itemId].status);
    }
  }

  /**
   Whatever run follows, the published changes of an item are a path of allowed moves from its status
   to its later one: at most three from placed, none at all from delivered or cancelled, and every step
   between the two when it was not cancelled.
   */
  lemma ItemLogIsAShortPath(s: Hub, run: seq<Timed>, hours: int, itemId: Id)
    requires Legal(s, run, hours) && itemId in s.db.items
    ensures var after := Execute(s, run, hours);
      && itemId in after.db.items && s.log <= after.log
      && var trail := Collect(StatusesOf(itemId), Since(s, after));
      && StatusPath(trail, s.db.items[itemId].status, after.db.items[itemId].status)
      && |trail| + StepsLeft(after.db.items[itemId].status) <= StepsLeft(s.db.items[itemId].status)
      && (after.db.items[itemId].status != Cancelled ==>
            |trail| + StepsLeft(after.db.items[itemId].status) == StepsLeft(s.db.items[itemId].status))
      && (StepsLeft(s.db.items[itemId].status) == 0 ==> trail == [] && after.db.items[itemId].status == s.db.items[itemId].status)
  {
    var after := Execute(s, run, hours);
    ItemRun(s, run, hours, itemId);
    StatusPathIsShort(Collect(StatusesOf(itemId), Since(s, after)), s.db.items[itemId].status, after.db.items[itemId].status);
  }

  /**
   Exactly when a request moves an item: forward by one step, to cancelled for a buyer with two steps left
   or a seller with one. It stamps both of the item's times; asking again for what is already so changes nothing.
   */
  lemma MovesExactly(s: Hub, itemId: Id, target: ItemStatus, who: Participant, hours: int, now: Time)
    requires itemId in s.db.items
    ensures var item, status := s.db.items[itemId], s.db.items[itemId].status;
      var advanced, cancelled := Handle(s.db, AdvanceTo(itemId, target), hours, now), Handle(s.db, CancelBy(itemId, who), hours, now);
      && (advanced.Committed? <==>
            target == status || (status != Cancelled && target != Cancelled && StepsLeft(status) == StepsLeft(target) + 1))
      && (cancelled.Committed? <==> status == Cancelled || StepsLeft(status) >= (if who == Buyer then 2 else 1))
      && (advanced.Committed? && target == status ==> advanced.db == s.db && advanced.events == [])
      && (cancelled.Committed? && status == Cancelled ==> cancelled.db == s.db && cancelled.events == [])
      && (advanced.Committed? && target != status ==>
            advanced.db.items[itemId] == item.(status := target, updatedAt := now, statusUpdatedAt := now))
      && (cancelled.Committed? && status != Cancelled ==>
            cancelled.db.items[itemId] == item.(status := Cancelled, updatedAt := now, statusUpdatedAt := now))
  {
    RulesInSteps(s.db.items[itemId].status, target);
    assert s.db.items[itemId := s.db.items[itemId]] == s.db.items;
  }

  /** An item's whole log so far: a path from placed to its status, or nothing for an item not placed yet. */
  ghost predicate WholeTrail(s: Hub, itemId: Id) {
    if itemId in s.db.items then StatusPath(Collect(StatusesOf(itemId), s.log), Placed, s.db.items[itemId].status)
    else Collect(StatusesOf(itemId), s.log) == []
  }

  /** No request says anything about an item that is not there, and an item appears as placed. */
  lemma UnplacedItemEvents(db: Db, r: Request, hours: int, now: Time, itemId: Id)
    requires Enabled(db, r, now) && itemId !in db.items && Handle(db, r, hours, now).Committed?
    ensures var o := Handle(db, r, hours, now);
      && Collect(StatusesOf(itemId), o.events) == []
      && (itemId in o.db.items ==> o.db.items[itemId].status == Placed)
  {
    var o := Handle(db, r, hours, now);
    if r.RepairPage? {
      var page := StalePage(db, r.moment, r.after, r.size);
      PageIsStale(db, r.moment, r.after, r.size);
      ReconcileRowsFrame(db, page, r.moment);
      ReconcileRowsEvents(db, page, r.moment);
      RowEventsMoveNoItem(db, page, r.moment, itemId);
    } else {
      CollectNothing(StatusesOf(itemId), o.events);
    }
  }

  lemma WholeTrailStep(s: Hub, r: Request, hours: int, now: Time, itemId: Id)
    requires Enabled(s.db, r, now) && WholeTrail(s, itemId)
    ensures WholeTrail(Step(s, r, hours, now), itemId)
  {
    var o := Handle(s.db, r, hours, now);
    if o.Committed? {
      CollectConcat(StatusesOf(itemId), s.log, o.events);
      if itemId in s.db.items {
        ItemEvents(s.db, r, hours, now, itemId);
        StatusPathJoins(Collect(StatusesOf(itemId), s.log), Collect(StatusesOf(itemId), o.events),
                        Placed, s.db.items[itemId].status, o.db.items[itemId].status);
      } else {
        UnplacedItemEvents(s.db, r, hours, now, itemId);
      }
    }
  }

  lemma {:induction false} WholeTrailRun(s: Hub, run: seq<Timed>, hours: int, itemId: Id)
    requires Legal(s, run, hours) && WholeTrail(s, itemId)
    ensures WholeTrail(Execute(s, run, hours), itemId)
    decreases |run|
  {
    if run == [] {
    } else {
      WholeTrailStep(s, run[0].request, hours, run[0].at, itemId);
      WholeTrailRun(Step(s, run[0].request, hours, run[0].at), run[1..], hours, itemId);
    }
  }

  /**
   In every reachable state everything ever published about an item's status is a path of allowed moves
   from placed to its present status: at most three, and every step between the two unless cancelled.
   */
  lemma ItemLogStartsAtPlaced(start: Time, run: seq<Timed>, hours: int, itemId: Id)
    requires Legal(Empty(start), run, hours) && itemId in Execute(Empty(start), run, hours).db.items
    ensures var s := Execute(Empty(start), run, hours);
      var trail, status := Collect(StatusesOf(itemId), s.log), s.db.items[itemId].status;
      && StatusPath(trail, Placed, status) && |trail| <= 3
      && (status != Cancelled ==> |trail| == 3 - StepsLeft(status))
  {
    var s := Execute(Empty(start), run, hours);
    WholeTrailRun(Empty(start), run, hours, itemId);
    StatusPathIsShort(Collect(StatusesOf(itemId), s.log), Placed, s.db.items[itemId].status);
  }
}
