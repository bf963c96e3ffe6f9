/** The invariant of every run, one request at a time. */
module RunInvariant {
  import opened Options
  import opened Policy
  import opened Records
  import opened Transactions
  import opened Reconcile
  import opened Requests
  import opened Runs

  // ------------------------------------------------------------------ items

  /** Items are only added, and an item that moves is stamped with the instant it moves. */
  lemma ItemsKept(db: Db, r: Request, hours: int, now: Time)
    requires Enabled(db, r, now) && Handle(db, r, hours, now).Committed?
    ensures var after := Handle(db, r, hours, now).db;
      forall id :: id in after.items ==>
        if id in db.items && after.items[id].status == db.items[id].status then after.items[id] == db.items[id]
        else after.items[id].statusUpdatedAt == now
    ensures db.items.Keys <= Handle(db, r, hours, now).db.items.Keys
  {
    if r.RepairPage? {
      ReconcileRowsFrame(db, StalePage(db, r.moment, r.after, r.size), r.moment);
    }
  }

  // ------------------------------------------------------------------ one existing conversation

  /** What a change needs of the row it happens to; every committed request provides it. */
  predicate Possible(c: Conversation, change: Change, now: Time) {
    match change
    case Untouched => true
    case Posted(_, _) => c.open
    case TimedOut => c.open
    case ClosedByHand => c.open
    case Repaired(moment) => moment <= now
    case Overridden(o) => if o.None? then c.override.Some? else o == Some(Critical) && c.override != o
  }

  lemma CommittedIsPossible(db: Db, r: Request, hours: int, now: Time, id: Id)
    requires id in db.conversations && Enabled(db, r, now) && Handle(db, r, hours, now).Committed?
    ensures Possible(db.conversations[id], ChangeOf(db, r, hours, now, id), now)
  {
  }

  lemma LatestOfOne(start: Time, messages: seq<Message>, m: Message)
    ensures Latest(start, messages + [m]) == if m.createdAt > Latest(start, messages) then m.createdAt else Latest(start, messages)
  {
  }

  /** A change that adds no message. */
  lemma ConsistentWithout(id: Id, c: Conversation, item: Item, messages: seq<Message>, closings: seq<ClosedBy>,
                          change: Change, now: Time)
    requires Consistent(id, c, messages, closings) && Possible(c, change, now) && NewMessages(id, change, now) == []
    ensures Consistent(id, Changed(c, item, change, now), messages, closings + NewClosings(change))
  {
    assert closings + [] == closings;
    if change.ClosedByHand? {
      assert (closings + NewClosings(change))[0] == Manual;
    }
  }

  /** A change that adds one. */
  lemma ConsistentWith(id: Id, c: Conversation, item: Item, messages: seq<Message>, closings: seq<ClosedBy>,
                       change: Change, m: Message, now: Time)
    requires Consistent(id, c, messages, closings) && Possible(c, change, now) && c.lastInteractionAt <= now
    requires NewMessages(id, change, now) == [m]
    ensures Consistent(id, Changed(c, item, change, now), messages + [m], closings + NewClosings(change))
  {
    CollectConcat(SystemOnly(), messages, [m]);
    CollectOne(SystemOnly(), m);
    LatestOfOne(c.createdAt, messages, m);
    assert closings + [] == closings;
  }

  lemma ConsistentKept(id: Id, c: Conversation, item: Item, messages: seq<Message>, closings: seq<ClosedBy>,
                       change: Change, now: Time)
    requires Consistent(id, c, messages, closings) && Possible(c, change, now) && c.lastInteractionAt <= now
    ensures Consistent(id, Changed(c, item, change, now), messages + NewMessages(id, change, now),
                       closings + NewClosings(change))
  {
    var added := NewMessages(id, change, now);
    if added == [] {
      ConsistentWithout(id, c, item, messages, closings, change, now);
      assert messages + added == messages;
    } else {
      assert added == [added[0]];
      ConsistentWith(id, c, item, messages, closings, change, added[0], now);
    }
  }

  /** An effect on one conversation carries its history along. */
  lemma HistoryKept(s: Hub, after: Hub, events: seq<Event>, id: Id, change: Change)
    requires HasItem(s.db, id) && History(s, id) && s.db.conversations[id].lastInteractionAt <= after.clock
    requires Possible(s.db.conversations[id], change, after.clock)
    requires Effect(s.db, after.db, events, id, change, after.clock) && after.log == s.log + events
    ensures History(after, id)
  {
    var c := s.db.conversations[id];
    ConsistentKept(id, c, s.db.items[c.itemId], Collect(MessagesOf(id), s.db.messages), Collect(ClosingsOf(id), s.log),
                   change, after.clock);
    CollectGrows(MessagesOf(id), s.db.messages, after.db.messages);
    CollectConcat(ClosingsOf(id), s.log, events);
  }

  lemma RowKept(c: Conversation, item: Item, change: Change, clock: Time, now: Time)
    requires Possible(c, change, now) && clock <= now
    requires c.createdAt <= clock && c.lastInteractionAt <= clock && Overridable(c)
    requires c.calculatedAt.Some? ==> c.calculatedAt.value <= clock
    ensures var after := Changed(c, item, change, now);
      && after.createdAt == c.createdAt && after.itemId == c.itemId
      && (after.open ==> c.open)
      && after.lastInteractionAt <= now && Overridable(after)
      && (after.calculatedAt.Some? ==> after.calculatedAt.value <= now)
  {
  }

  lemma ConversationKept(s: Hub, r: Request, hours: int, now: Time, id: Id)
    requires WellFormed(s.db) && s.clock <= now && Enabled(s.db, r, now) && id in s.db.conversations
    requires History(s, id) && Timely(s, id) && Overridable(s.db.conversations[id])
    ensures var after := Step(s, r, hours, now);
      && HasItem(after.db, id) && History(after, id) && Timely(after, id)
      && Overridable(after.db.conversations[id])
      && after.db.conversations[id].itemId == s.db.conversations[id].itemId
      && (after.db.conversations[id].open ==> s.db.conversations[id].open)
  {
    var o := Handle(s.db, r, hours, now);
    if o.Committed? {
      var c, change := s.db.conversations[id], ChangeOf(s.db, r, hours, now, id);
      RequestEffect(s.db, r, hours, now, id);
      CommittedIsPossible(s.db, r, hours, now, id);
      ItemsKept(s.db, r, hours, now);
      RowKept(c, s.db.items[c.itemId], change, s.clock, now);
      HistoryKept(s, Hub(o.db, s.log + o.events, now), o.events, id, change);
    }
  }

  // ------------------------------------------------------------------ new conversations

  lemma NewRow(db: Db, r: Request, hours: int, now: Time, id: Id)
    requires Handle(db, r, hours, now).Committed?
    requires id in Handle(db, r, hours, now).db.conversations && id !in db.conversations
    ensures var o := Handle(db, r, hours, now);
      && r.Open? && r.newId == id && r.itemId in db.items && !HasOpen(db, r.itemId)
      && o.db == db.(conversations := db.conversations[id := NewConversation(r.itemId, db.items[r.itemId], r.reason, now)])
      && o.events == [ConversationCreated(id, r.itemId)]
  {
    if r.RepairPage? {
      ReconcileRowsFrame(db, StalePage(db, r.moment, r.after, r.size), r.moment);
    }
  }

  lemma UnknownCollects(s: Hub, id: Id)
    requires Known(s.db, s.log, s.db.messages) && id !in s.db.conversations
    ensures Collect(MessagesOf(id), s.db.messages) == []
    ensures Collect(ClosingsOf(id), s.log) == []
    ensures Collect(TrailOf(id), s.log) == []
  {
    CollectNothing(MessagesOf(id), s.db.messages);
    CollectNothing(ClosingsOf(id), s.log);
    CollectNothing(TrailOf(id), s.log);
  }

  lemma NewConversationHistory(s: Hub, r: Request, hours: int, now: Time, id: Id)
    requires Inv(s) && Enabled(s.db, r, now)
    requires id in Step(s, r, hours, now).db.conversations && id !in s.db.conversations
    ensures var after := Step(s, r, hours, now);
      && HasItem(after.db, id) && History(after, id) && Timely(after, id)
      && Overridable(after.db.conversations[id])
      && Collect(TrailOf(id), after.log) == []
  {
    NewRow(s.db, r, hours, now, id);
    UnknownCollects(s, id);
    var e := ConversationCreated(id, r.itemId);
    CollectConcat(ClosingsOf(id), s.log, [e]);
    CollectConcat(TrailOf(id), s.log, [e]);
  }

  // ------------------------------------------------------------------ the whole tables

  lemma OneOpenKept(s: Hub, r: Request, hours: int, now: Time)
    requires Inv(s) && s.clock <= now && Enabled(s.db, r, now)
    ensures OneOpenPerItem(Step(s, r, hours, now).db)
  {
    var after := Step(s, r, hours, now).db;
    forall id | id in after.conversations && id in s.db.conversations
      ensures after.conversations[id].itemId == s.db.conversations[id].itemId
      ensures after.conversations[id].open ==> s.db.conversations[id].open
    {
      ConversationKept(s, r, hours, now, id);
    }
    forall id | id in after.conversations && id !in s.db.conversations
      ensures r.Open? && r.newId == id && after.conversations[id].itemId == r.itemId && !HasOpen(s.db, r.itemId)
    {
      NewRow(s.db, r, hours, now, id);
    }
  }

  lemma {:induction false} RowEventsAreKnown(db: Db, ids: seq<Id>, moment: Time)
    ensures forall e :: e in RowEvents(db, ids, moment) ==> About(e).Some? && About(e).value in db.conversations
  {
    if ids == [] {
    } else {
      RowEventsAreKnown(db, ids[1..], moment);
    }
  }

  lemma KnownKept(db: Db, r: Request, hours: int, now: Time)
    requires Handle(db, r, hours, now).Committed?
    ensures var o := Handle(db, r, hours, now);
      && db.conversations.Keys <= o.db.conversations.Keys
      && db.messages <= o.db.messages
      && Known(o.db, o.events, o.db.messages[|db.messages|..])
  {
    if r.RepairPage? {
      var page := StalePage(db, r.moment, r.after, r.size);
      PageIsStale(db, r.moment, r.after, r.size);
      ReconcileRowsFrame(db, page, r.moment);
      ReconcileRowsEvents(db, page, r.moment);
      RowEventsAreKnown(db, page, r.moment);
    }
  }

  lemma KnownGrows(s: Hub, o: Outcome)
    requires Known(s.db, s.log, s.db.messages) && o.Committed?
    requires s.db.conversations.Keys <= o.db.conversations.Keys && s.db.messages <= o.db.messages
    requires Known(o.db, o.events, o.db.messages[|s.db.messages|..])
    ensures Known(o.db, s.log + o.events, o.db.messages)
  {
  }

  lemma KnownStep(s: Hub, r: Request, hours: int, now: Time)
    requires Known(s.db, s.log, s.db.messages)
    ensures var after := Step(s, r, hours, now); Known(after.db, after.log, after.db.messages)
  {
    var o := Handle(s.db, r, hours, now);
    if o.Committed? {
      KnownKept(s.db, r, hours, now);
      KnownGrows(s, o);
    }
  }

  lemma ItemsStep(s: Hub, r: Request, hours: int, now: Time)
    requires s.clock <= now && Enabled(s.db, r, now)
    requires forall id :: id in s.db.items ==> s.db.items[id].statusUpdatedAt <= s.clock
    ensures forall id :: id in Step(s, r, hours, now).db.items ==>
              Step(s, r, hours, now).db.items[id].statusUpdatedAt <= now
  {
    if Handle(s.db, r, hours, now).Committed? {
      ItemsKept(s.db, r, hours, now);
    }
  }

  /** Every request, raising or not, keeps the invariant. */
  lemma StepKeepsInv(s: Hub, r: Request, hours: int, now: Time)
    requires Inv(s) && s.clock <= now && Enabled(s.db, r, now)
    ensures Inv(Step(s, r, hours, now))
  {
    var after := Step(s, r, hours, now);
    KnownStep(s, r, hours, now);
    OneOpenKept(s, r, hours, now);
    ItemsStep(s, r, hours, now);
    forall id | id in after.db.conversations
      ensures HasItem(after.db, id) && History(after, id) && Timely(after, id)
      ensures Overridable(after.db.conversations[id])
    {
      if id in s.db.conversations {
        ConversationKept(s, r, hours, now, id);
      } else {
        NewConversationHistory(s, r, hours, now, id);
      }
    }
  }

  lemma {:induction false} RunKeepsInv(s: Hub, run: seq<Timed>, hours: int)
    requires Inv(s) && Legal(s, run, hours)
    ensures Inv(Execute(s, run, hours))
    decreases |run|
  {
    if run == [] {
    } else {
      StepKeepsInv(s, run[0].request, hours, run[0].at);
      RunKeepsInv(Step(s, run[0].request, hours, run[0].at), run[1..], hours);
    }
  }

  /** Every reachable state satisfies the invariant. */
  lemma ReachableInv(start: Time, run: seq<Timed>, hours: int)
    requires Legal(Empty(start), run, hours)
    ensures Inv(Execute(Empty(start), run, hours))
  {
    RunKeepsInv(Empty(start), run, hours);
  }
}
