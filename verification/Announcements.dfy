/** What people are told over a whole run: the notices of a conversation or an item replay what happened to it. */
module Announcements {
  import opened Options
  import opened Policy
  import opened Records
  import opened ItemStatuses
  import opened Requests
  import opened Runs
  import opened RunInvariant
  import opened RunTheorems
  import opened LifecycleTheorems
  import opened Notices
  import opened Idempotency

  type Names = (string, string)

  /** What is said of one conversation's priority, of one item's status, and of one conversation's closing. */
  function PriorityTold(id: Id): Notice -> Option<Names> {
    (n: Notice) => if n.kind == "CONVERSATION_PRIORITY_CHANGED" && n.entityId == id then Some((n.previous, n.current)) else None
  }

  function StatusTold(itemId: Id): Notice -> Option<Names> {
    (n: Notice) => if n.kind == "ORDER_ITEM_STATUS_CHANGED" && n.entityId == itemId then Some((n.previous, n.current)) else None
  }

  function ClosingTold(id: Id): Notice -> Option<Names> {
    (n: Notice) => if n.kind == "CONVERSATION_STATUS_CHANGED" && n.entityId == id then Some((n.previous, n.current)) else None
  }

  function PriorityNames(): ((Priority, Priority)) -> Option<Names> {
    (p: (Priority, Priority)) => Some((PriorityName(p.0), PriorityName(p.1)))
  }

  function StatusNames(): ((ItemStatus, ItemStatus)) -> Option<Names> {
    (s: (ItemStatus, ItemStatus)) => Some((StatusName(s.0), StatusName(s.1)))
  }

  function OpenToClosed(): ClosedBy -> Option<Names> {
    (how: ClosedBy) => Some(("open", "closed"))
  }

  // ------------------------------------------------------------------ notices follow the log

  /** Whenever the event is announced, the notice says of the event what `h` does. */
  ghost predicate Tells<U(!new)>(g: Notice -> Option<U>, h: Event -> Option<U>) {
    forall e, at :: Through(NoticeAt(at), g)(e) == h(e)
  }

  lemma StepFollowsLog<U(!new)>(s: Hub, t: Timed, hours: int, g: Notice -> Option<U>, h: Event -> Option<U>)
    requires Tells(g, h)
    ensures var next := Step(s, t.request, hours, t.at);
      s.log <= next.log && Collect(g, NoticesOf(s, t, hours)) == Collect(h, Since(s, next))
  {
    var events := Published(s.db, t.request, hours, t.at);
    CollectThrough(NoticeAt(t.at), g, events);
    CollectSame(Through(NoticeAt(t.at), g), h, events);
    assert Since(s, Step(s, t.request, hours, t.at)) == events;
  }

  /** Read through such a pair, the notices of a run are the events it published. */
  lemma {:induction false} NoticesFollowLog<U(!new)>(s: Hub, run: seq<Timed>, hours: int,
                                                     g: Notice -> Option<U>, h: Event -> Option<U>)
    requires Tells(g, h)
    ensures s.log <= Execute(s, run, hours).log
    ensures Collect(g, RunNotices(s, run, hours)) == Collect(h, Since(s, Execute(s, run, hours)))
    decreases |run|
  {
    LogGrows(s, run, hours);
    if run == [] {
      assert Since(s, s) == [];
    } else {
      var next := Step(s, run[0].request, hours, run[0].at);
      StepFollowsLog(s, run[0], hours, g, h);
      NoticesFollowLog(next, run[1..], hours, g, h);
      CollectConcat(g, NoticesOf(s, run[0], hours), RunNotices(next, run[1..], hours));
      SinceSplits(h, s, next, Execute(s, run, hours));
    }
  }

  /** From the start of the hub: the notices told of an entity are its log, put in names. */
  lemma ToldFromStart<U, V(!new)>(start: Time, run: seq<Timed>, hours: int,
                                  g: Notice -> Option<V>, f: Event -> Option<U>, names: U -> Option<V>)
    requires Tells(g, Through(f, names))
    ensures Collect(g, RunNotices(Empty(start), run, hours)) == Collect(names, Collect(f, Execute(Empty(start), run, hours).log))
  {
    NoticesFollowLog(Empty(start), run, hours, g, Through(f, names));
    CollectThrough(f, names, Execute(Empty(start), run, hours).log);
    assert Since(Empty(start), Execute(Empty(start), run, hours)) == Execute(Empty(start), run, hours).log;
  }

  lemma PriorityTells(id: Id)
    ensures Tells(PriorityTold(id), Through(TrailOf(id), PriorityNames()))
  {
    forall e, at ensures Through(NoticeAt(at), PriorityTold(id))(e) == Through(TrailOf(id), PriorityNames())(e) {
      if e.PriorityChanged? {
        PriorityNoticeTells(e, at);
      } else {
        OtherNoticesTell(e, at);
        KindsDiffer();
      }
    }
  }

  lemma StatusTells(itemId: Id)
    ensures Tells(StatusTold(itemId), Through(StatusesOf(itemId), StatusNames()))
  {
    forall e, at ensures Through(NoticeAt(at), StatusTold(itemId))(e) == Through(StatusesOf(itemId), StatusNames())(e) {
      KindsDiffer();
      if e.PriorityChanged? {
        PriorityNoticeTells(e, at);
      } else {
        OtherNoticesTell(e, at);
      }
    }
  }

  lemma ClosingTells(id: Id)
    ensures Tells(ClosingTold(id), Through(ClosingsOf(id), OpenToClosed()))
  {
    forall e, at ensures Through(NoticeAt(at), ClosingTold(id))(e) == Through(ClosingsOf(id), OpenToClosed())(e) {
      KindsDiffer();
      if e.PriorityChanged? {
        PriorityNoticeTells(e, at);
      } else {
        OtherNoticesTell(e, at);
      }
    }
  }

  lemma KindsDiffer()
    ensures "CONVERSATION_PRIORITY_CHANGED" != "ORDER_ITEM_STATUS_CHANGED"
    ensures "CONVERSATION_PRIORITY_CHANGED" != "CONVERSATION_STATUS_CHANGED"
    ensures "ORDER_ITEM_STATUS_CHANGED" != "CONVERSATION_STATUS_CHANGED"
  {
    assert |"CONVERSATION_PRIORITY_CHANGED"| == 29 && |"ORDER_ITEM_STATUS_CHANGED"| == 25;
    assert |"CONVERSATION_STATUS_CHANGED"| == 27;
  }

  // ------------------------------------------------------------------ what they replay

  /** Each announcement starts where the one before it ended, and the last one ends at `end`. */
  predicate Links(told: seq<Names>, start: string, end: string) {
    if told == [] then start == end else told[0].0 == start && Links(told[1..], told[0].1, end)
  }

  lemma {:induction false} ChainIsTold(trail: seq<(Priority, Priority)>, start: Priority, end: Priority)
    requires Chain(trail, start, end)
    ensures Links(Collect(PriorityNames(), trail), PriorityName(start), PriorityName(end))
  {
    if trail == [] {
    } else {
      var told := Collect(PriorityNames(), trail);
      ChainIsTold(trail[1..], trail[0].1, end);
      assert told[1..] == Collect(PriorityNames(), trail[1..]);
    }
  }

  lemma {:induction false} PathIsTold(trail: seq<(ItemStatus, ItemStatus)>, start: ItemStatus, end: ItemStatus)
    requires StatusPath(trail, start, end)
    ensures Links(Collect(StatusNames(), trail), StatusName(start), StatusName(end))
  {
    if trail == [] {
    } else {
      var told := Collect(StatusNames(), trail);
      PathIsTold(trail[1..], trail[0].1, end);
      assert told[1..] == Collect(StatusNames(), trail[1..]);
    }
  }

  /** A conversation's whole priority log is a chain that ends at its effective priority. */
  ghost predicate WholeChain(s: Hub, id: Id)
    requires id in s.db.conversations
  {
    exists first :: Chain(Collect(TrailOf(id), s.log), first, s.db.conversations[id].Effective())
  }

  lemma WholeChainStep(s: Hub, t: Timed, hours: int, id: Id)
    requires Inv(s) && s.clock <= t.at && Enabled(s.db, t.request, t.at)
    requires id in s.db.conversations ==> WholeChain(s, id)
    ensures var next := Step(s, t.request, hours, t.at); id in next.db.conversations ==> WholeChain(next, id)
  {
    var next := Step(s, t.request, hours, t.at);
    if id in s.db.conversations {
      var first :| Chain(Collect(TrailOf(id), s.log), first, s.db.conversations[id].Effective());
      ChainStep(s, t.request, hours, t.at, id);
      CollectGrows(TrailOf(id), s.log, next.log);
      ChainJoins(Collect(TrailOf(id), s.log), Collect(TrailOf(id), Since(s, next)), first,
                 s.db.conversations[id].Effective(), next.db.conversations[id].Effective());
    } else if id in next.db.conversations {
      NewConversationHistory(s, t.request, hours, t.at, id);
      assert Chain(Collect(TrailOf(id), next.log), next.db.conversations[id].Effective(), next.db.conversations[id].Effective());
    }
  }

  lemma {:induction false} WholeChainRun(s: Hub, run: seq<Timed>, hours: int, id: Id)
    requires Inv(s) && Legal(s, run, hours) && (id in s.db.conversations ==> WholeChain(s, id))
    ensures id in Execute(s, run, hours).db.conversations ==> WholeChain(Execute(s, run, hours), id)
    decreases |run|
  {
    if run == [] {
    } else {
      WholeChainStep(s, run[0], hours, id);
      StepKeepsInv(s, run[0].request, hours, run[0].at);
      WholeChainRun(Step(s, run[0].request, hours, run[0].at), run[1..], hours, id);
    }
  }

  /**
   What people are told of a conversation's priority, over any run, is a sequence of changes each of which
   starts where the one before ended, and the last of which ends at the name of its effective priority.
   */
  lemma PriorityIsToldAsItWent(start: Time, run: seq<Timed>, hours: int, id: Id)
    requires Legal(Empty(start), run, hours) && id in Execute(Empty(start), run, hours).db.conversations
    ensures var s := Execute(Empty(start), run, hours);
      var told := Collect(PriorityTold(id), RunNotices(Empty(start), run, hours));
      && told == Collect(PriorityNames(), Collect(TrailOf(id), s.log))
      && exists first :: Links(told, PriorityName(first), PriorityName(s.db.conversations[id].Effective()))
  {
    var s := Execute(Empty(start), run, hours);
    PriorityTells(id);
    ToldFromStart(start, run, hours, PriorityTold(id), TrailOf(id), PriorityNames());
    ReachableInv(start, [], hours);
    WholeChainRun(Empty(start), run, hours, id);
    var first :| Chain(Collect(TrailOf(id), s.log), first, s.db.conversations[id].Effective());
    ChainIsTold(Collect(TrailOf(id), s.log), first, s.db.conversations[id].Effective());
  }

  /** What people are told of an item leads in the same way from "placed" to the name of its status. */
  lemma StatusIsToldAsItWent(start: Time, run: seq<Timed>, hours: int, itemId: Id)
    requires Legal(Empty(start), run, hours) && itemId in Execute(Empty(start), run, hours).db.items
    ensures var told := Collect(StatusTold(itemId), RunNotices(Empty(start), run, hours));
      && told == Collect(StatusNames(), Collect(StatusesOf(itemId), Execute(Empty(start), run, hours).log))
      && Links(told, "placed", StatusName(Execute(Empty(start), run, hours).db.items[itemId].status))
  {
    var s := Execute(Empty(start), run, hours);
    StatusTells(itemId);
    ToldFromStart(start, run, hours, StatusTold(itemId), StatusesOf(itemId), StatusNames());
    ItemLogStartsAtPlaced(start, run, hours, itemId);
    PathIsTold(Collect(StatusesOf(itemId), s.log), Placed, s.db.items[itemId].status);
  }

  /** The closing of a conversation is told once, as "open" to "closed", if it is closed, and never if it is open. */
  lemma ClosingIsToldOnce(start: Time, run: seq<Timed>, hours: int, id: Id)
    requires Legal(Empty(start), run, hours) && id in Execute(Empty(start), run, hours).db.conversations
    ensures Collect(ClosingTold(id), RunNotices(Empty(start), run, hours)) ==
      if Execute(Empty(start), run, hours).db.conversations[id].open then [] else [("open", "closed")]
  {
    var closings := Collect(ClosingsOf(id), Execute(Empty(start), run, hours).log);
    ClosingTells(id);
    ToldFromStart(start, run, hours, ClosingTold(id), ClosingsOf(id), OpenToClosed());
    ClosedExactlyOnce(start, run, hours, id);
    if |closings| == 1 {
      assert closings == [closings[0]];
      CollectOne(OpenToClosed(), closings[0]);
    }
  }
}
