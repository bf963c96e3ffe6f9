/** The hub as it runs: committed tables, published events, and a clock that does not go back. */
module Runs {
  import opened Options
  import opened Policy
  import opened Records
  import opened Transactions
  import opened Requests

  datatype Hub = Hub(db: Db, log: seq<Event>, clock: Time)

  function Empty(start: Time): Hub { Hub(Db(map[], map[], [], []), [], start) }

  /** One request at one instant; a request that raises leaves tables and log as they were. */
  function Step(s: Hub, r: Request, hours: int, now: Time): Hub {
    match Handle(s.db, r, hours, now)
    case Raised(_) => s.(clock := now)
    case Committed(db, events) => Hub(db, s.log + events, now)
  }

  datatype Timed = Timed(request: Request, at: Time)

  function Execute(s: Hub, run: seq<Timed>, hours: int): Hub
    decreases |run|
  {
    if run == [] then s else Execute(Step(s, run[0].request, hours, run[0].at), run[1..], hours)
  }

  /** Every request of the run is enabled when it comes, at a time not before the clock. */
  predicate Legal(s: Hub, run: seq<Timed>, hours: int)
    decreases |run|
  {
    run == [] ||
    (s.clock <= run[0].at && Enabled(s.db, run[0].request, run[0].at)
     && Legal(Step(s, run[0].request, hours, run[0].at), run[1..], hours))
  }

  /** No two requests of the run, nor the first and the clock, share an instant. */
  predicate Ticking(clock: Time, run: seq<Timed>)
    decreases |run|
  {
    run == [] || (clock < run[0].at && Ticking(run[0].at, run[1..]))
  }

  // ------------------------------------------------------------------ the invariant

  /** Latest of a start time and the times of some messages. */
  function Latest(start: Time, messages: seq<Message>): Time
    decreases |messages|
  {
    if messages == [] then start
    else
      var last, before := messages[|messages| - 1].createdAt, Latest(start, messages[..|messages| - 1]);
      if last > before then last else before
  }

  function SystemOnly(): Message -> Option<Message> {
    (m: Message) => if m.author.System? then Some(m) else None
  }

  /** What a conversation's messages and closings, over the whole history, say about its row. */
  predicate Consistent(id: Id, c: Conversation, messages: seq<Message>, closings: seq<ClosedBy>) {
    && c.lastInteractionAt == Latest(c.createdAt, messages)
    && (c.open ==> closings == [])
    && (!c.open ==> |closings| == 1)
    && Collect(SystemOnly(), messages) ==
         (if closings == [Inactivity] then [Message(id, System, InactivityNotice, c.lastInteractionAt)] else [])
  }

  ghost predicate History(s: Hub, id: Id)
    requires id in s.db.conversations
  {
    Consistent(id, s.db.conversations[id], Collect(MessagesOf(id), s.db.messages), Collect(ClosingsOf(id), s.log))
  }

  predicate Timely(s: Hub, id: Id)
    requires HasItem(s.db, id)
  {
    var c := s.db.conversations[id];
    && c.createdAt <= s.clock && c.lastInteractionAt <= s.clock
    && (c.calculatedAt.Some? ==> c.calculatedAt.value <= s.clock)
  }

  predicate Overridable(c: Conversation) {
    c.calculated != Critical && (c.override.None? || c.override == Some(Critical))
  }

  predicate OneOpenPerItem(db: Db) {
    forall a, b :: a in db.conversations && b in db.conversations && a != b
      && db.conversations[a].itemId == db.conversations[b].itemId
      ==> !db.conversations[a].open || !db.conversations[b].open
  }

  /** The conversation an event is about, if it is about one. */
  function About(e: Event): Option<Id> {
    match e
    case ConversationCreated(id, _) => Some(id)
    case MessageCreated(_, id) => Some(id)
    case ConversationClosed(id, _) => Some(id)
    case PriorityChanged(id, _, _, _) => Some(id)
    case _ => None
  }

  predicate Known(db: Db, log: seq<Event>, messages: seq<Message>) {
    && (forall e :: e in log && About(e).Some? ==> About(e).value in db.conversations)
    && (forall m :: m in messages ==> m.conversationId in db.conversations)
  }

  ghost predicate Inv(s: Hub) {
    && WellFormed(s.db)
    && OneOpenPerItem(s.db)
    && Known(s.db, s.log, s.db.messages)
    && (forall id :: id in s.db.items ==> s.db.items[id].statusUpdatedAt <= s.clock)
    && (forall id :: id in s.db.conversations ==>
          History(s, id) && Timely(s, id) && Overridable(s.db.conversations[id]))
  }
}
