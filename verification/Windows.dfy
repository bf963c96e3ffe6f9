/** The 24-hour message windows of app/communication/lifecycle.py and routes.py, walked backwards. */
module Windows {
  import opened Options
  import opened Policy
  import opened Records

  const DAY: int := 24 * HOUR

  datatype Window = Window(from: Time, to: Time, exclusiveTo: bool)

  function MessageWindow(before: Option<Time>, now: Time): Window {
    match before
    case None => Window(now - DAY, now, false)
    case Some(b) => Window(b - DAY, b, true)
  }

  /** A `before` in the future is refused. */
  predicate BeforeAccepted(before: Option<Time>, now: Time) {
    before.Some? ==> before.value <= now
  }

  predicate Under(to: Time, exclusive: bool, t: Time) {
    if exclusive then t < to else t <= to
  }

  function UpTo(to: Time, exclusive: bool): Message -> Option<Message> {
    (m: Message) => if Under(to, exclusive, m.createdAt) then Some(m) else None
  }

  function ShownIn(w: Window): Message -> Option<Message> {
    (m: Message) => if w.from <= m.createdAt && Under(w.to, w.exclusiveTo, m.createdAt) then Some(m) else None
  }

  /** The rows the window's filters select from a conversation's messages. */
  function Selected(messages: seq<Message>, w: Window): seq<Message> {
    Collect(ShownIn(w), messages)
  }

  predicate HasOlder(messages: seq<Message>, w: Window) {
    exists m :: m in messages && m.createdAt < w.from
  }

  predicate OldestFirst(page: seq<Message>) {
    forall i, j :: 0 <= i < j < |page| ==> page[i].createdAt <= page[j].createdAt
  }

  /** A result of ORDER BY created_at over some rows: those rows in time order, ties in any order. */
  predicate Lists(page: seq<Message>, rows: seq<Message>) {
    OldestFirst(page) && multiset(page) == multiset(rows)
  }

  function Oldest(messages: seq<Message>): Time
    requires messages != []
  {
    if |messages| == 1 then messages[0].createdAt
    else if messages[0].createdAt <= Oldest(messages[1..]) then messages[0].createdAt
    else Oldest(messages[1..])
  }

  lemma {:induction false} OldestIsLeast(messages: seq<Message>)
    requires messages != []
    ensures forall m :: m in messages ==> Oldest(messages) <= m.createdAt
    ensures exists m :: m in messages && m.createdAt == Oldest(messages)
  {
    if |messages| > 1 {
      OldestIsLeast(messages[1..]);
      assert forall m :: m in messages <==> m == messages[0] || m in messages[1..];
    } else {
      assert messages[0] in messages;
    }
  }

  function Gap(messages: seq<Message>, w: Window): nat {
    if messages == [] || w.from <= Oldest(messages) then 0 else w.from - Oldest(messages)
  }

  /** The windows a client sees that passes each returned `from` as the next `before` until there is nothing older. */
  function Walk(messages: seq<Message>, w: Window): (walk: seq<Window>)
    ensures walk != [] && walk[0] == w
    decreases Gap(messages, w)
  {
    if HasOlder(messages, w) then
      OldestIsLeast(messages);
      [w] + Walk(messages, MessageWindow(Some(w.from), w.to))
    else [w]
  }

  /** Pages in the order a client shows them: each older page goes in front. */
  function Prepended(pages: seq<seq<Message>>): seq<Message> {
    if pages == [] then [] else Prepended(pages[1..]) + pages[0]
  }

  /** What one request shows: the day before `before`, or the day up to now and now itself. */
  lemma WindowShowsADay(messages: seq<Message>, before: Option<Time>, now: Time, m: Message)
    ensures BeforeAccepted(before, now) <==> before.None? || !(before.value > now)
    ensures var w := MessageWindow(before, now);
      && (m in Selected(messages, w) <==>
            m in messages &&
            match before
            case None => now - 86_400_000_000 <= m.createdAt <= now
            case Some(b) => b - 86_400_000_000 <= m.createdAt < b)
      && (HasOlder(messages, w) <==>
            exists x :: x in messages && x.createdAt < (if before.None? then now else before.value) - 86_400_000_000)
  {
    CollectedHas(ShownIn(MessageWindow(before, now)), messages, m);
  }

  lemma {:induction false} CollectedHas(f: Message -> Option<Message>, messages: seq<Message>, m: Message)
    requires forall x :: f(x).Some? ==> f(x).value == x
    ensures m in Collect(f, messages) <==> m in messages && f(m).Some?
  {
    if messages == [] {
    } else {
      CollectedHas(f, messages[1..], m);
      assert m in messages <==> m == messages[0] || m in messages[1..];
      assert m in AsSeq(f(messages[0])) <==> m == messages[0] && f(m).Some?;
    }
  }

  // ------------------------------------------------------------------ tiling

  lemma {:induction false} Collected(f: Message -> Option<Message>, messages: seq<Message>)
    requires forall m :: f(m).Some? ==> f(m).value == m
    ensures forall m :: m in Collect(f, messages) ==> f(m).Some?
  {
    if messages == [] {
    } else {
      Collected(f, messages[1..]);
    }
  }

  lemma ListedSatisfy(page: seq<Message>, f: Message -> Option<Message>, messages: seq<Message>)
    requires forall m :: f(m).Some? ==> f(m).value == m
    requires Lists(page, Collect(f, messages))
    ensures forall i :: 0 <= i < |page| ==> f(page[i]).Some?
  {
    Collected(f, messages);
    forall i | 0 <= i < |page| ensures f(page[i]).Some? {
      assert page[i] in multiset(page);
      assert page[i] in Collect(f, messages);
    }
  }

  /** What is under a window's end is what is older than the window and what the window shows. */
  lemma {:induction false} WindowSplits(messages: seq<Message>, w: Window)
    requires w.from < w.to
    ensures multiset(Collect(UpTo(w.to, w.exclusiveTo), messages))
         == multiset(Collect(UpTo(w.from, true), messages)) + multiset(Selected(messages, w))
  {
    if messages == [] {
    } else {
      WindowSplits(messages[1..], w);
      SplitOne(messages[0], w);
    }
  }

  lemma SplitOne(m: Message, w: Window)
    requires w.from < w.to
    ensures multiset(AsSeq(UpTo(w.to, w.exclusiveTo)(m)))
         == multiset(AsSeq(UpTo(w.from, true)(m))) + multiset(AsSeq(ShownIn(w)(m)))
  {
  }

  lemma {:induction false} NothingOlder(messages: seq<Message>, w: Window)
    requires !HasOlder(messages, w)
    ensures Collect(UpTo(w.from, true), messages) == []
  {
    CollectNothing(UpTo(w.from, true), messages);
  }

  lemma ListsJoin(older: seq<Message>, newer: seq<Message>, olderRows: seq<Message>, newerRows: seq<Message>,
                  rows: seq<Message>, bound: Time)
    requires Lists(older, olderRows) && Lists(newer, newerRows)
    requires multiset(rows) == multiset(olderRows) + multiset(newerRows)
    requires forall i :: 0 <= i < |older| ==> older[i].createdAt < bound
    requires forall i :: 0 <= i < |newer| ==> bound <= newer[i].createdAt
    ensures Lists(older + newer, rows)
  {
  }

  ghost predicate PagesOf(pages: seq<seq<Message>>, messages: seq<Message>, walk: seq<Window>) {
    |pages| == |walk| && forall k :: 0 <= k < |walk| ==> Lists(pages[k], Selected(messages, walk[k]))
  }

  lemma OlderThenWindow(messages: seq<Message>, w: Window, older: seq<Message>, newer: seq<Message>)
    requires w.from < w.to && Lists(newer, Selected(messages, w))
    requires Lists(older, Collect(UpTo(w.from, true), messages))
    ensures Lists(older + newer, Collect(UpTo(w.to, w.exclusiveTo), messages))
  {
    WindowSplits(messages, w);
    ListedSatisfy(newer, ShownIn(w), messages);
    ListedSatisfy(older, UpTo(w.from, true), messages);
    ListsJoin(older, newer, Collect(UpTo(w.from, true), messages), Selected(messages, w),
              Collect(UpTo(w.to, w.exclusiveTo), messages), w.from);
  }

  lemma PagesRest(pages: seq<seq<Message>>, messages: seq<Message>, w: Window, rest: seq<Window>)
    requires PagesOf(pages, messages, [w] + rest)
    ensures Lists(pages[0], Selected(messages, w)) && PagesOf(pages[1..], messages, rest)
  {
    assert ([w] + rest)[0] == w;
    forall k | 0 <= k < |rest| ensures Lists(pages[1..][k], Selected(messages, rest[k])) {
      assert ([w] + rest)[k + 1] == rest[k];
    }
  }

  lemma {:induction false} WindowsTileFrom(messages: seq<Message>, w: Window, pages: seq<seq<Message>>)
    requires w.from < w.to && PagesOf(pages, messages, Walk(messages, w))
    ensures Lists(Prepended(pages), Collect(UpTo(w.to, w.exclusiveTo), messages))
    decreases |pages|
  {
    if HasOlder(messages, w) {
      var next := Window(w.from - DAY, w.from, true);
      PagesRest(pages, messages, w, Walk(messages, next));
      WindowsTileFrom(messages, next, pages[1..]);
    } else {
      PagesRest(pages, messages, w, []);
      NothingOlder(messages, w);
    }
    OlderThenWindow(messages, w, Prepended(pages[1..]), pages[0]);
  }

  /**
   Started without a `before`, the windows put in front of one another list every message up to the
   first reading of the clock, each exactly once, oldest first.
   */
  lemma WindowsTileHistory(messages: seq<Message>, now: Time, pages: seq<seq<Message>>)
    requires PagesOf(pages, messages, Walk(messages, MessageWindow(None, now)))
    ensures Lists(Prepended(pages), Collect(UpTo(now, false), messages))
  {
    WindowsTileFrom(messages, MessageWindow(None, now), pages);
  }

  // ------------------------------------------------------------------ the shape of the walk

  lemma {:induction false} WalkFrom(messages: seq<Message>, w: Window, k: nat)
    requires k < |Walk(messages, w)|
    ensures Walk(messages, w)[k] == if k == 0 then w else Window(w.from - k * DAY, w.from - (k - 1) * DAY, true)
    ensures HasOlder(messages, Walk(messages, w)[k]) <==> k + 1 < |Walk(messages, w)|
    decreases k
  {
    if k == 0 {
    } else {
      var next := Window(w.from - DAY, w.from, true);
      assert HasOlder(messages, w);
      assert Walk(messages, w)[k] == Walk(messages, next)[k - 1];
      WalkFrom(messages, next, k - 1);
    }
  }

  /**
   The k-th window is the k-th day before the first clock reading. The walk ends with the first day that
   leaves nothing older, so its length is the oldest message's age in days, rounded up, and at least one.
   */
  lemma WalkIsDays(messages: seq<Message>, now: Time, k: nat)
    requires k < |Walk(messages, MessageWindow(None, now))|
    ensures var walk := Walk(messages, MessageWindow(None, now));
      && walk[k] == Window(now - (k + 1) * DAY, now - k * DAY, k > 0)
      && ((k + 1 < |walk|) <==> exists m :: m in messages && m.createdAt < now - (k + 1) * DAY)
  {
    WalkFrom(messages, MessageWindow(None, now), k);
    assert now - DAY - k * DAY == now - (k + 1) * DAY;
    assert now - DAY - (k - 1) * DAY == now - k * DAY;
  }

  /** Each `from` the API returns is accepted as the next request's `before`, at any later clock. */
  lemma ReturnedBoundIsAccepted(before: Option<Time>, now: Time, later: Time)
    requires BeforeAccepted(before, now) && now <= later
    ensures BeforeAccepted(Some(MessageWindow(before, now).from), later)
  {
  }

  /** Messages posted after the first request change no window of the walk. */
  lemma LaterMessagesDoNotShow(messages: seq<Message>, later: seq<Message>, now: Time, w: Window)
    requires w.to <= now && (forall m :: m in later ==> m.createdAt > now)
    requires w.from < w.to
    ensures Selected(messages + later, w) == Selected(messages, w)
    ensures HasOlder(messages + later, w) <==> HasOlder(messages, w)
  {
    CollectConcat(ShownIn(w), messages, later);
    CollectNothing(ShownIn(w), later);
    assert forall m :: m in messages + later <==> m in messages || m in later;
  }
}
