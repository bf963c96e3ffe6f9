/** What holds over whole runs of the hub, for every interleaving of requests and jobs. */
module RunTheorems {
  import opened Options
  import opened Policy
  import opened Records
  import opened ItemStatuses
  import opened Transactions
  import opened Reconcile
  import opened Cache
  import opened Requests
  import opened Runs
  import opened RunInvariant

  // ------------------------------------------------------------------ cache soundness

  ghost predicate AllSound(db: Db) {
    forall id :: id in db.conversations && HasItem(db, id) ==> Sound(db.conversations[id], db.items[db.conversations[id].itemId])
  }

  /** One conversation through one change, its item as it was. */
  lemma SoundThroughChange(c: Conversation, item: Item, change: Change, now: Time)
    requires Sound(c, item) && c.lastInteractionAt <= now
    requires c.calculatedAt.Some? ==> c.calculatedAt.value <= now
    ensures Sound(Changed(c, item, change, now), item)
  {
    SoundExactly(c, item);
    SoundExactly(Changed(c, item, change, now), item);
    if change.Repaired? {
      RecalculatedIsSound(c, item, change.moment);
    }
  }

  lemma SoundAtBirth(itemId: Id, item: Item, reason: Reason, now: Time)
    ensures Sound(NewConversation(itemId, item, reason, now), item)
  {
  }

  /** The item the request moves, if it moves one, and where to. */
  function MovesTo(db: Db, r: Request): Option<(Id, ItemStatus)> {
    match r
    case AdvanceTo(itemId, target) =>
      if itemId in db.items && Forward(db.items[itemId].status) == Some(target) then Some((itemId, target)) else None
    case CancelBy(itemId, who) =>
      if itemId in db.items && CanCancel(db.items[itemId].status, who) then Some((itemId, Cancelled)) else None
    case _ => None
  }

  predicate MovesItem(db: Db, r: Request, itemId: Id) {
    MovesTo(db, r).Some? && MovesTo(db, r).value.0 == itemId
  }

  /** Only the two item routes move an item that is already there, and they leave conversations alone. */
  lemma ItemAfter(db: Db, r: Request, hours: int, now: Time, itemId: Id)
    requires Enabled(db, r, now) && itemId in db.items
    ensures MovesTo(db, r).Some? ==> Handle(db, r, hours, now).Committed?
    ensures Handle(db, r, hours, now).Committed? ==>
      && itemId in Handle(db, r, hours, now).db.items
      && Handle(db, r, hours, now).db.items[itemId] ==
           if MovesItem(db, r, itemId) then Touch(db.items[itemId], MovesTo(db, r).value.1, now) else db.items[itemId]
  {
    if r.RepairPage? {
      ReconcileRowsFrame(db, StalePage(db, r.moment, r.after, r.size), r.moment);
    }
  }

  /** A status change the request makes is one that every conversation of the item tolerates. */
  predicate KeepsCaches(db: Db, r: Request, now: Time) {
    forall id :: id in db.conversations && HasItem(db, id) && MovesItem(db, r, db.conversations[id].itemId) ==>
      Tolerates(db.conversations[id], db.items[db.conversations[id].itemId], MovesTo(db, r).value.1, now)
  }

  lemma SoundConversationStep(s: Hub, r: Request, hours: int, now: Time, id: Id)
    requires WellFormed(s.db) && s.clock <= now && Enabled(s.db, r, now) && id in s.db.conversations
    requires Timely(s, id) && Handle(s.db, r, hours, now).Committed?
    requires Sound(s.db.conversations[id], s.db.items[s.db.conversations[id].itemId])
    ensures var after, c := Handle(s.db, r, hours, now).db, s.db.conversations[id];
      && HasItem(after, id)
      && (Sound(after.conversations[id], after.items[after.conversations[id].itemId]) <==>
          (MovesItem(s.db, r, c.itemId) ==> Tolerates(c, s.db.items[c.itemId], MovesTo(s.db, r).value.1, now)))
  {
    var c, change := s.db.conversations[id], ChangeOf(s.db, r, hours, now, id);
    RequestEffect(s.db, r, hours, now, id);
    ItemAfter(s.db, r, hours, now, c.itemId);
    if MovesItem(s.db, r, c.itemId) {
      StatusChangeKeepsSoundExactly(c, s.db.items[c.itemId], MovesTo(s.db, r).value.1, now);
    } else {
      SoundThroughChange(c, s.db.items[c.itemId], change, now);
    }
  }

  lemma SoundOfNewRow(s: Hub, r: Request, hours: int, now: Time, id: Id)
    requires Inv(s) && Enabled(s.db, r, now) && Handle(s.db, r, hours, now).Committed?
    requires id !in s.db.conversations && HasItem(Handle(s.db, r, hours, now).db, id)
    ensures var after := Handle(s.db, r, hours, now).db;
      Sound(after.conversations[id], after.items[after.conversations[id].itemId])
  {
    NewRow(s.db, r, hours, now, id);
    SoundAtBirth(r.itemId, s.db.items[r.itemId], r.reason, now);
  }

  /** Exactly when a request leaves every cache sound: each conversation of the item it moves, if any, tolerates the move. */
  lemma SoundStepExactly(s: Hub, r: Request, hours: int, now: Time)
    requires Inv(s) && AllSound(s.db) && s.clock <= now && Enabled(s.db, r, now)
    ensures AllSound(Step(s, r, hours, now).db) <==> KeepsCaches(s.db, r, now)
  {
    var after := Step(s, r, hours, now).db;
    if Handle(s.db, r, hours, now).Committed? {
      forall id | id in s.db.conversations
        ensures HasItem(after, id)
        ensures Sound(after.conversations[id], after.items[after.conversations[id].itemId]) <==>
          (MovesItem(s.db, r, s.db.conversations[id].itemId) ==>
             Tolerates(s.db.conversations[id], s.db.items[s.db.conversations[id].itemId], MovesTo(s.db, r).value.1, now))
      {
        SoundConversationStep(s, r, hours, now, id);
      }
      forall id | id !in s.db.conversations && HasItem(after, id)
        ensures Sound(after.conversations[id], after.items[after.conversations[id].itemId])
      {
        SoundOfNewRow(s, r, hours, now, id);
      }
    } else {
      NothingMoves(s.db, r, hours, now);
    }
  }

  lemma NothingMoves(db: Db, r: Request, hours: int, now: Time)
    requires Enabled(db, r, now) && Handle(db, r, hours, now).Raised?
    ensures MovesTo(db, r).None?
  {
  }

  /** Every status change of the run is one that the conversations of its item tolerate. */
  predicate CachesKept(s: Hub, run: seq<Timed>, hours: int)
    decreases |run|
  {
    run == [] ||
    (KeepsCaches(s.db, run[0].request, run[0].at)
     && CachesKept(Step(s, run[0].request, hours, run[0].at), run[1..], hours))
  }

  /** The caches are sound before the run and after each of its requests. */
  ghost predicate SoundThroughout(s: Hub, run: seq<Timed>, hours: int)
    decreases |run|
  {
    AllSound(s.db) && (run != [] ==> SoundThroughout(Step(s, run[0].request, hours, run[0].at), run[1..], hours))
  }

  /** Exactly the runs whose status changes are all tolerated keep the caches sound throughout. */
  lemma {:induction false} CachesStaySoundExactly(s: Hub, run: seq<Timed>, hours: int)
    requires Inv(s) && AllSound(s.db) && Legal(s, run, hours)
    ensures SoundThroughout(s, run, hours) <==> CachesKept(s, run, hours)
    ensures SoundThroughout(s, run, hours) ==> AllSound(Execute(s, run, hours).db)
    decreases |run|
  {
    if run == [] {
    } else {
      var next := Step(s, run[0].request, hours, run[0].at);
      SoundStepExactly(s, run[0].request, hours, run[0].at);
      StepKeepsInv(s, run[0].request, hours, run[0].at);
      if AllSound(next.db) {
        CachesStaySoundExactly(next, run[1..], hours);
      }
    }
  }

  /** When no two requests share an instant, every status change is tolerated. */
  lemma {:induction false} TickingKeepsCaches(s: Hub, run: seq<Timed>, hours: int)
    requires Inv(s) && Legal(s, run, hours) && Ticking(s.clock, run)
    ensures CachesKept(s, run, hours)
    decreases |run|
  {
    if run == [] {
    } else {
      assert forall id :: id in s.db.conversations ==> Timely(s, id);
      StepKeepsInv(s, run[0].request, hours, run[0].at);
      TickingKeepsCaches(Step(s, run[0].request, hours, run[0].at), run[1..], hours);
    }
  }

  /**
   After any run of requests, repair pages with moments taken at any earlier time included, a
   conversation that is not stale has the cached priority the policy gives at that instant, provided no
   item moves at the very instant one of its conversations was last calculated, or such a move does not
   change the verdict.
   */
  lemma CacheIsSoundOverRuns(start: Time, run: seq<Timed>, hours: int, id: Id, now: Time)
    requires Legal(Empty(start), run, hours) && CachesKept(Empty(start), run, hours)
    requires id in Execute(Empty(start), run, hours).db.conversations
    ensures HasItem(Execute(Empty(start), run, hours).db, id)
    ensures var db := Execute(Empty(start), run, hours).db;
      var c, item := db.conversations[id], db.items[db.conversations[id].itemId];
      !StaleAt(c, item, now) ==> c.calculated == PolicyAt(c, item, now)
  {
    ReachableInv(start, run, hours);
    CachesStaySoundExactly(Empty(start), run, hours);
  }

  /**
   The proviso is needed: when an item leaves preparing at the very instant its conversation was
   opened, the conversation is not stale and its cached priority is not the policy's.
   */
  lemma SameInstantBreaksTheCache()
    ensures var run := [Timed(Place(0, 0, 1, 50_000), 0), Timed(AdvanceTo(0, Preparing), 0),
                        Timed(Open(0, 0, Atraso, map[], false), 0), Timed(AdvanceTo(0, InTransit), 0)];
      && Legal(Empty(0), run, 120)
      && var db := Execute(Empty(0), run, 120).db;
      && HasItem(db, 0) && !StaleAt(db.conversations[0], db.items[0], 0)
      && db.conversations[0].calculated == Medium && PolicyAt(db.conversations[0], db.items[0], 0) == High
  {
  }

  // ------------------------------------------------------------------ the priority log

  /** Each change starts where the previous one ended, moves, and the last one ends at `end`. */
  predicate Chain(trail: seq<(Priority, Priority)>, start: Priority, end: Priority) {
    if trail == [] then start == end
    else trail[0].0 == start && trail[0].1 != start && Chain(trail[1..], trail[0].1, end)
  }

  lemma {:induction false} ChainJoins(a: seq<(Priority, Priority)>, b: seq<(Priority, Priority)>,
                                      start: Priority, middle: Priority, end: Priority)
    requires Chain(a, start, middle) && Chain(b, middle, end)
    ensures Chain(a + b, start, end)
  {
    if a == [] {
      assert a + b == b;
    } else {
      ChainJoins(a[1..], b, a[0].1, middle, end);
      assert (a + b)[1..] == a[1..] + b;
    }
  }

  /** The events published since `s`. */
  function Since(s: Hub, later: Hub): seq<Event>
    requires s.log <= later.log
  {
    later.log[|s.log|..]
  }

  lemma {:induction false} LogGrows(s: Hub, run: seq<Timed>, hours: int)
    ensures s.log <= Execute(s, run, hours).log
    decreases |run|
  {
    if run == [] {
    } else {
      LogGrows(Step(s, run[0].request, hours, run[0].at), run[1..], hours);
    }
  }

  lemma SinceSplits<U>(f: Event -> Option<U>, a: Hub, b: Hub, c: Hub)
    requires a.log <= b.log <= c.log
    ensures a.log <= c.log
    ensures Collect(f, Since(a, c)) == Collect(f, Since(a, b)) + Collect(f, Since(b, c))
  {
    assert Since(a, c) == Since(a, b) + Since(b, c);
    CollectConcat(f, Since(a, b), Since(b, c));
  }

  lemma ChainStep(s: Hub, r: Request, hours: int, now: Time, id: Id)
    requires WellFormed(s.db) && Enabled(s.db, r, now) && id in s.db.conversations
    ensures var after := Step(s, r, hours, now);
      && id in after.db.conversations && s.log <= after.log
      && Chain(Collect(TrailOf(id), Since(s, after)), s.db.conversations[id].Effective(), after.db.conversations[id].Effective())
  {
    var o := Handle(s.db, r, hours, now);
    if o.Committed? {
      RequestEffect(s.db, r, hours, now, id);
      assert Since(s, Step(s, r, hours, now)) == o.events;
    } else {
      assert Since(s, Step(s, r, hours, now)) == [];
    }
  }

  lemma {:induction false} ChainRun(s: Hub, run: seq<Timed>, hours: int, id: Id)
    requires Inv(s) && Legal(s, run, hours) && id in s.db.conversations
    ensures var after := Execute(s, run, hours);
      && id in after.db.conversations && s.log <= after.log
      && Chain(Collect(TrailOf(id), Since(s, after)), s.db.conversations[id].Effective(), after.db.conversations[id].Effective())
    decreases |run|
  {
    var after := Execute(s, run, hours);
    LogGrows(s, run, hours);
    if run == [] {
      assert Since(s, after) == [];
    } else {
      var next := Step(s, run[0].request, hours, run[0].at);
      StepKeepsInv(s, run[0].request, hours, run[0].at);
      ChainStep(s, run[0].request, hours, run[0].at, id);
      ChainRun(next, run[1..], hours, id);
      LogGrows(next, run[1..], hours);
      SinceSplits(TrailOf(id), s, next, after);
      ChainJoins(Collect(TrailOf(id), Since(s, next)), Collect(TrailOf(id), Since(next, after)),
                 s.db.conversations[id].Effective(), next.db.conversations[id].Effective(),
                 after.db.conversations[id].Effective());
    }
  }

  /**
   From the request that opens a conversation on, whatever follows, its published priority changes
   lead step by step from the policy's verdict at creation to its present effective priority.
   */
  lemma PriorityLogReplays(s: Hub, r: Request, now: Time, rest: seq<Timed>, hours: int, id: Id)
    requires Inv(s) && s.clock <= now && Enabled(s.db, r, now)
    requires id !in s.db.conversations && id in Step(s, r, hours, now).db.conversations
    requires Legal(Step(s, r, hours, now), rest, hours)
    ensures r.Open? && r.itemId in s.db.items
    ensures var after := Execute(Step(s, r, hours, now), rest, hours);
      && id in after.db.conversations
      && Chain(Collect(TrailOf(id), after.log),
               CalculatePriority(r.reason, s.db.items[r.itemId].status, now, s.db.items[r.itemId].price, now),
               after.db.conversations[id].Effective())
  {
    var born := Step(s, r, hours, now);
    var after := Execute(born, rest, hours);
    NewRow(s.db, r, hours, now, id);
    NewConversationHistory(s, r, hours, now, id);
    StepKeepsInv(s, r, hours, now);
    ChainRun(born, rest, hours, id);
    CollectGrows(TrailOf(id), born.log, after.log);
    assert [] + Collect(TrailOf(id), Since(born, after)) == Collect(TrailOf(id), Since(born, after));
  }

  /** Applying or removing the override, when it does not raise, publishes exactly one change for its conversation. */
  lemma OverrideSpeaksOnce(s: Hub, r: Request, hours: int, now: Time)
    requires Inv(s) && (r.Mark? || r.Unmark?) && Handle(s.db, r, hours, now).Committed?
    ensures r.id in s.db.conversations
    ensures Collect(TrailOf(r.id), Handle(s.db, r, hours, now).events) ==
      if r.Mark? then [(s.db.conversations[r.id].calculated, Critical)] else [(Critical, s.db.conversations[r.id].calculated)]
  {
    assert Enabled(s.db, r, now);
    RequestEffect(s.db, r, hours, now, r.id);
  }
}
