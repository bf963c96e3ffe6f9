/** When conversations of a running hub can tie in the Ops queue. */
module QueueTies {
  import opened Options
  import opened Policy
  import opened Records
  import opened Transactions
  import opened Requests
  import opened Runs
  import opened RunInvariant
  import opened OpsQueue

  /** No two conversations share the time of their last interaction. */
  predicate DistinctInteractions(db: Db) {
    forall a, b :: a in db.conversations && b in db.conversations && a != b ==>
      db.conversations[a].lastInteractionAt != db.conversations[b].lastInteractionAt
  }

  /** The one conversation a request can give a new interaction time, or a first one. */
  predicate Interacts(r: Request, id: Id) {
    match r
    case Open(newId, _, _, _, _) => newId == id
    case Read(i) => i == id
    case CloseListed(i, _) => i == id
    case Post(i, _, _) => i == id
    case _ => false
  }

  predicate Touches(change: Change) {
    change.Posted? || change.TimedOut?
  }

  lemma OnlyInteractionsTouch(db: Db, r: Request, hours: int, now: Time, id: Id)
    requires id in db.conversations && Touches(ChangeOf(db, r, hours, now, id))
    ensures Interacts(r, id)
  {
  }

  lemma ChangedInteraction(c: Conversation, item: Item, change: Change, now: Time)
    ensures Changed(c, item, change, now).lastInteractionAt == if Touches(change) then now else c.lastInteractionAt
  {
  }

  lemma KnownInteractionAfter(db: Db, r: Request, hours: int, now: Time, id: Id)
    requires WellFormed(db) && Enabled(db, r, now) && Handle(db, r, hours, now).Committed? && id in db.conversations
    ensures id in Handle(db, r, hours, now).db.conversations
    ensures Handle(db, r, hours, now).db.conversations[id].lastInteractionAt ==
      if Touches(ChangeOf(db, r, hours, now, id)) then now else db.conversations[id].lastInteractionAt
  {
    var c := db.conversations[id];
    RequestEffect(db, r, hours, now, id);
    ChangedInteraction(c, db.items[c.itemId], ChangeOf(db, r, hours, now, id), now);
  }

  /** Conversations a request does not interact with keep their interaction time; one it does may take the present. */
  lemma InteractionAfter(s: Hub, r: Request, hours: int, now: Time, id: Id)
    requires Inv(s) && Enabled(s.db, r, now) && Handle(s.db, r, hours, now).Committed?
    requires id in Handle(s.db, r, hours, now).db.conversations
    ensures var last := Handle(s.db, r, hours, now).db.conversations[id].lastInteractionAt;
      || (Interacts(r, id) && last == now)
      || (id in s.db.conversations && last == s.db.conversations[id].lastInteractionAt)
  {
    if id in s.db.conversations {
      KnownInteractionAfter(s.db, r, hours, now, id);
      if Touches(ChangeOf(s.db, r, hours, now, id)) {
        OnlyInteractionsTouch(s.db, r, hours, now, id);
      }
    } else {
      NewRow(s.db, r, hours, now, id);
    }
  }

  lemma DistinctStep(s: Hub, r: Request, hours: int, now: Time)
    requires Inv(s) && s.clock < now && Enabled(s.db, r, now) && DistinctInteractions(s.db)
    ensures DistinctInteractions(Step(s, r, hours, now).db)
  {
    if Handle(s.db, r, hours, now).Committed? {
      var after := Handle(s.db, r, hours, now).db.conversations;
      forall a, b | a in after && b in after && a != b ensures after[a].lastInteractionAt != after[b].lastInteractionAt {
        InteractionAfter(s, r, hours, now, a);
        InteractionAfter(s, r, hours, now, b);
        assert a in s.db.conversations ==> Timely(s, a);
        assert b in s.db.conversations ==> Timely(s, b);
      }
    }
  }

  lemma {:induction false} DistinctRun(s: Hub, run: seq<Timed>, hours: int)
    requires Inv(s) && Legal(s, run, hours) && Ticking(s.clock, run) && DistinctInteractions(s.db)
    ensures DistinctInteractions(Execute(s, run, hours).db)
    decreases |run|
  {
    if run == [] {
    } else {
      DistinctStep(s, run[0].request, hours, run[0].at);
      StepKeepsInv(s, run[0].request, hours, run[0].at);
      DistinctRun(Step(s, run[0].request, hours, run[0].at), run[1..], hours);
    }
  }

  /** Rows the queue's statement joins from these tables: at most one for a conversation, with its priorities and times. */
  predicate ReadFrom(entries: seq<Entry>, db: Db) {
    && (forall e :: e in entries ==>
          && e.conversationId in db.conversations
          && var c := db.conversations[e.conversationId];
             e.open == c.open && e.calculated == c.calculated && e.override == c.override
             && e.lastInteractionAt == c.lastInteractionAt)
    && (forall a, b :: a in entries && b in entries && a.conversationId == b.conversationId ==> a == b)
  }

  lemma DistinctMeansNoTies(entries: seq<Entry>, db: Db, f: Filter)
    requires ReadFrom(entries, db) && DistinctInteractions(db)
    ensures NoTies(Rows(entries, f))
  {
    forall e | e in Rows(entries, f) ensures e in entries {
      RowsExactly(entries, f, e);
    }
  }

  /** When no two requests share an instant, the queue of every reachable state can be paged safely, whatever the filter. */
  lemma TickingQueueIsSafe(start: Time, run: seq<Timed>, hours: int, entries: seq<Entry>, f: Filter)
    requires Legal(Empty(start), run, hours) && Ticking(start, run) && !BadNumber(f)
    requires ReadFrom(entries, Execute(Empty(start), run, hours).db)
    ensures DistinctInteractions(Execute(Empty(start), run, hours).db)
    ensures PagingIsSafe(entries, f)
  {
    DistinctRun(Empty(start), run, hours);
    DistinctMeansNoTies(entries, Execute(Empty(start), run, hours).db, f);
    PagingIsSafeExactly(entries, f);
  }

  // ------------------------------------------------------------------ what the queue shows

  /** An entry's place in the queue of a reachable state depends on its effective priority and its last interaction. */
  lemma UrgencyOf(start: Time, run: seq<Timed>, hours: int, entries: seq<Entry>, f: Filter, e: Entry)
    requires Legal(Empty(start), run, hours) && ReadFrom(entries, Execute(Empty(start), run, hours).db)
    requires e in Rows(entries, f)
    ensures e.conversationId in Execute(Empty(start), run, hours).db.conversations
    ensures var c := Execute(Empty(start), run, hours).db.conversations[e.conversationId];
      c.open && SqlEffective(e.calculated, e.override) == c.Effective() && e.lastInteractionAt == c.lastInteractionAt
  {
    RowsExactly(entries, f, e);
    QueueRanksEffectivePriority(start, run, hours, e.conversationId);
  }

  /**
   In every reachable state, whatever the filter, the queue shows open conversations by effective priority,
   highest first, and newest interaction first within one; so do its pages and the preview, which are cut from it.
   */
  lemma MostUrgentFirst(start: Time, run: seq<Timed>, hours: int, entries: seq<Entry>, f: Filter,
                        listing: seq<Entry>, i: nat, j: nat)
    requires Legal(Empty(start), run, hours) && ReadFrom(entries, Execute(Empty(start), run, hours).db)
    requires Listing(listing, Rows(entries, f)) && i < j < |listing|
    ensures var conversations := Execute(Empty(start), run, hours).db.conversations;
      && listing[i].conversationId in conversations && listing[j].conversationId in conversations
      && var a, b := conversations[listing[i].conversationId], conversations[listing[j].conversationId];
      && a.open && b.open
      && (Rank(a.Effective()) > Rank(b.Effective())
          || (a.Effective() == b.Effective() && a.lastInteractionAt >= b.lastInteractionAt))
  {
    SameMembers(listing, Rows(entries, f), listing[i]);
    SameMembers(listing, Rows(entries, f), listing[j]);
    UrgencyOf(start, run, hours, entries, f, listing[i]);
    UrgencyOf(start, run, hours, entries, f, listing[j]);
    BeforeExactly(listing[i], listing[j]);
  }

  /** A page, and the preview, keeps the order of the listing it is cut from. */
  lemma CutsKeepOrder(listing: seq<Entry>, offset: nat, limit: nat, i: nat)
    requires i < |OffsetLimit(listing, offset, limit)|
    ensures i < limit && offset + i < |listing| && OffsetLimit(listing, offset, limit)[i] == listing[offset + i]
  {
  }

  /** Two items, and a conversation of each opened at one instant. */
  function TiedRun(): seq<Timed> {
    [Timed(Place(0, 0, 1, 100), 0), Timed(Place(1, 0, 1, 100), 0),
     Timed(Open(0, 0, Elogio, map[], false), 0), Timed(Open(1, 1, Elogio, map[], false), 0)]
  }

  function TiedEntries(): seq<Entry> {
    [Entry(0, true, 0, 0, 1, 1, Low, None, 0), Entry(1, true, 0, 1, 1, 2, Low, None, 0)]
  }

  function TiedItems(): map<Id, Item> {
    map[0 := Item(0, 1, 100, Placed, 0, 0), 1 := Item(0, 1, 100, Placed, 0, 0)]
  }

  /** The hub after the first two and after all four requests. */
  function TwoItems(): Hub { Hub(Db(TiedItems(), map[], [], []), [], 0) }

  function TwoTied(): Hub {
    var c := NewConversation(0, TiedItems()[0], Elogio, 0);
    Hub(Db(TiedItems(), map[0 := c, 1 := c.(itemId := 1)], [], []), [ConversationCreated(0, 0), ConversationCreated(1, 1)], 0)
  }

  lemma ItemsPlaced()
    ensures Legal(Empty(0), TiedRun()[..2], 120) && Execute(Empty(0), TiedRun()[..2], 120) == TwoItems()
  {
    var run := TiedRun()[..2];
    var first := Step(Empty(0), run[0].request, 120, 0);
    var second := Step(first, run[1].request, 120, 0);
    assert second.db.items == TiedItems();
    assert run[1..] == [run[1]] && [run[1]][1..] == [];
    assert Legal(second, [], 120) && Legal(first, run[1..], 120);
    assert Execute(first, run[1..], 120) == second;
  }

  lemma ConversationsOpened()
    ensures Legal(TwoItems(), TiedRun()[2..], 120) && Execute(TwoItems(), TiedRun()[2..], 120) == TwoTied()
  {
    var run := TiedRun()[2..];
    var first := Step(TwoItems(), run[0].request, 120, 0);
    var second := Step(first, run[1].request, 120, 0);
    assert !HasOpen(TwoItems().db, 0);
    assert first.db.conversations == map[0 := NewConversation(0, TiedItems()[0], Elogio, 0)];
    assert !HasOpen(first.db, 1);
    assert second.db.conversations == TwoTied().db.conversations;
    assert run[1..] == [run[1]] && [run[1]][1..] == [];
    assert Legal(second, [], 120) && Legal(first, run[1..], 120);
    assert Execute(first, run[1..], 120) == second;
  }

  lemma {:induction false} ExecuteJoins(s: Hub, a: seq<Timed>, b: seq<Timed>, hours: int)
    requires Legal(s, a, hours) && Legal(Execute(s, a, hours), b, hours)
    ensures Legal(s, a + b, hours) && Execute(s, a + b, hours) == Execute(Execute(s, a, hours), b, hours)
    decreases |a|
  {
    if a == [] {
      assert a + b == b;
    } else {
      assert (a + b)[0] == a[0] && (a + b)[1..] == a[1..] + b;
      ExecuteJoins(Step(s, a[0].request, hours, a[0].at), a[1..], b, hours);
    }
  }

  lemma TiedStateIsReachable()
    ensures Legal(Empty(0), TiedRun(), 120) && Execute(Empty(0), TiedRun(), 120) == TwoTied()
  {
    ItemsPlaced();
    ConversationsOpened();
    ExecuteJoins(Empty(0), TiedRun()[..2], TiedRun()[2..], 120);
    assert TiedRun()[..2] + TiedRun()[2..] == TiedRun();
  }

  /** Two conversations opened at one instant tie, and paging their queue is not safe. */
  lemma SharedInstantBreaksPaging()
    ensures Legal(Empty(0), TiedRun(), 120)
    ensures ReadFrom(TiedEntries(), Execute(Empty(0), TiedRun(), 120).db)
    ensures !PagingIsSafe(TiedEntries(), NO_FILTER)
  {
    TiedStateIsReachable();
    TiedEntriesRead();
    TiedRows();
    PagingIsSafeExactly(TiedEntries(), NO_FILTER);
  }

  lemma TiedEntriesRead()
    ensures ReadFrom(TiedEntries(), TwoTied().db)
  {
    assert CalculatePriority(Elogio, Placed, 0, 100, 0) == Low;
    assert TwoTied().db.conversations[1].calculated == Low;
  }

  lemma TiedRows()
    ensures !NoTies(Rows(TiedEntries(), NO_FILTER))
  {
    var a, b := TiedEntries()[0], TiedEntries()[1];
    assert TiedEntries() == [a] + [b];
    CollectConcat(SelectedBy(NO_FILTER), [a], [b]);
    CollectOne(SelectedBy(NO_FILTER), a);
    CollectOne(SelectedBy(NO_FILTER), b);
    assert Rows(TiedEntries(), NO_FILTER) == [a, b];
    assert a in [a, b] && b in [a, b];
  }
}
