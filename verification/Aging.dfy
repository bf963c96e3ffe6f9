/**
 How often a conversation nobody writes to is repaired: over any non-decreasing sequence of run
 times it is processed once at first and then once for each age bucket it grows into.
 */
module Aging {
  import opened Options
  import opened Policy
  import opened Records
  import opened Ordering
  import opened Transactions
  import opened Cache
  import opened Reconcile

  predicate NonDecreasing(times: seq<Time>) {
    forall i, j :: 0 <= i <= j < |times| ==> times[i] <= times[j]
  }

  predicate Stale(c: Conversation, item: Item, now: Time) {
    c.open && StaleAt(c, item, now)
  }

  function AfterRun(c: Conversation, item: Item, now: Time): Conversation {
    if Stale(c, item, now) then Recalculated(c, item, now) else c
  }

  /** How many runs at the given times process the row. */
  function TimesProcessed(c: Conversation, item: Item, times: seq<Time>): nat
    decreases |times|
  {
    if times == [] then 0
    else (if Stale(c, item, times[0]) then 1 else 0) + TimesProcessed(AfterRun(c, item, times[0]), item, times[1..])
  }

  /** How many whole paged runs at the given times, nothing else happening, find the conversation stale. */
  function TimesFound(db: Db, id: Id, times: seq<Time>): nat
    decreases |times|
  {
    if times == [] then 0
    else (if id in StaleIds(db, times[0], None) then 1 else 0) + TimesFound(OnePass(db, times[0]).db, id, times[1..])
  }

  /** A row of the table ages alone. */
  lemma {:induction false} TimesFoundIsTimesProcessed(db: Db, id: Id, times: seq<Time>)
    requires HasItem(db, id)
    ensures TimesFound(db, id, times)
         == TimesProcessed(db.conversations[id], db.items[db.conversations[id].itemId], times)
    decreases |times|
  {
    if times == [] {
    } else {
      OnePassAt(db, times[0], id);
      ReconcileRowsFrame(db, Ascending(StaleIds(db, times[0], None)), times[0]);
      TimesFoundIsTimesProcessed(OnePass(db, times[0]).db, id, times[1..]);
    }
  }

  /** The row's own stamps do not lie ahead of the clock. */
  predicate Settled(c: Conversation, item: Item, now: Time) {
    c.lastInteractionAt <= now && item.statusUpdatedAt <= now
  }

  predicate From(start: Time, times: seq<Time>) {
    NonDecreasing(times) && (times != [] ==> start <= times[0])
  }

  lemma FromRest(start: Time, times: seq<Time>)
    requires From(start, times) && times != []
    ensures From(times[0], times[1..]) && From(start, times[1..])
  {
  }

  /** A stamped row is processed only when it has grown into a later bucket. */
  lemma {:induction false} StampedRowAges(c: Conversation, item: Item, start: Time, times: seq<Time>)
    requires From(start, times) && Stamped(c, item)
    requires AgeBucketRank(c.calculatedAt.value - c.createdAt) <= AgeBucketRank(start - c.createdAt)
    ensures TimesProcessed(c, item, times) <= 4 - AgeBucketRank(c.calculatedAt.value - c.createdAt)
    decreases |times|
  {
    if times == [] {
    } else {
      var now := times[0];
      FromRest(start, times);
      LabelsAreRanks(now - c.createdAt, c.calculatedAt.value - c.createdAt);
      StampedRowAges(AfterRun(c, item, now), item, now, times[1..]);
    }
  }

  lemma {:induction false} ClosedIsNeverProcessed(c: Conversation, item: Item, times: seq<Time>)
    requires !c.open
    ensures TimesProcessed(c, item, times) == 0
    decreases |times|
  {
    if times == [] {
    } else {
      ClosedIsNeverProcessed(c, item, times[1..]);
    }
  }

  /** The row will not be found stale forever by runs whose clock starts at `start`. */
  predicate Converges(c: Conversation, item: Item, start: Time) {
    !Stale(c, item, start) || Settled(c, item, start)
  }

  lemma {:induction false} ProcessedAtMostFive(c: Conversation, item: Item, start: Time, times: seq<Time>)
    requires From(start, times) && Converges(c, item, start)
    ensures TimesProcessed(c, item, times) <= 5
    decreases |times|
  {
    if !c.open {
      ClosedIsNeverProcessed(c, item, times);
    } else if !Stale(c, item, start) {
      LabelsAreRanks(start - c.createdAt, c.calculatedAt.value - c.createdAt);
      StampedRowAges(c, item, start, times);
    } else if times != [] {
      FromRest(start, times);
      if Stale(c, item, times[0]) {
        StampedRowAges(AfterRun(c, item, times[0]), item, times[0], times[1..]);
      } else {
        ProcessedAtMostFive(c, item, start, times[1..]);
      }
    }
  }

  /** A stale row with a stamp ahead of the clock is found again by every run at that clock. */
  lemma {:induction false} FutureStampIsProcessedEachTime(c: Conversation, item: Item, now: Time, n: nat)
    requires !Converges(c, item, now)
    ensures TimesProcessed(c, item, seq(n, _ => now)) == n
    decreases n
  {
    if n == 0 {
    } else {
      var times := seq(n, _ => now);
      assert times[1..] == seq(n - 1, _ => now);
      FutureStampIsProcessedEachTime(AfterRun(c, item, now), item, now, n - 1);
    }
  }

  /**
   Five processings bound every sequence of runs whose clock starts at `start` exactly when the row is
   not stale at `start` or carries no interaction or status time ahead of it.
   */
  lemma FiveIsTheBoundExactly(c: Conversation, item: Item, start: Time)
    ensures (forall times :: From(start, times) ==> TimesProcessed(c, item, times) <= 5)
       <==> Converges(c, item, start)
  {
    if Converges(c, item, start) {
      forall times | From(start, times) ensures TimesProcessed(c, item, times) <= 5 {
        ProcessedAtMostFive(c, item, start, times);
      }
    } else {
      FutureStampIsProcessedEachTime(c, item, start, 6);
      assert From(start, seq(6, _ => start));
    }
  }

  /** In the table: a conversation left alone is found by at most five runs. */
  lemma FoundAtMostFive(db: Db, id: Id, start: Time, times: seq<Time>)
    requires HasItem(db, id) && From(start, times)
    requires Converges(db.conversations[id], db.items[db.conversations[id].itemId], start)
    ensures TimesFound(db, id, times) <= 5
  {
    TimesFoundIsTimesProcessed(db, id, times);
    ProcessedAtMostFive(db.conversations[id], db.items[db.conversations[id].itemId], start, times);
  }

  /** The bound is met: a conversation never calculated, visited in each of its buckets, is processed five times. */
  lemma FiveIsReached(c: Conversation, item: Item)
    requires c.open && c.calculatedAt.None? && c.createdAt == 0 && Settled(c, item, 0)
    ensures TimesProcessed(c, item, [0, 4 * HOUR, 12 * HOUR, 24 * HOUR, 48 * HOUR]) == 5
  {
    var times := [0, 4 * HOUR, 12 * HOUR, 24 * HOUR, 48 * HOUR];
    var c1 := AfterRun(c, item, 0);
    var c2 := AfterRun(c1, item, 4 * HOUR);
    var c3 := AfterRun(c2, item, 12 * HOUR);
    var c4 := AfterRun(c3, item, 24 * HOUR);
    LabelsAreRanks(4 * HOUR, 0);
    LabelsAreRanks(12 * HOUR, 4 * HOUR);
    LabelsAreRanks(24 * HOUR, 12 * HOUR);
    LabelsAreRanks(48 * HOUR, 24 * HOUR);
    assert c1.calculatedAt == Some(0) && c2.calculatedAt == Some(4 * HOUR);
    assert c3.calculatedAt == Some(12 * HOUR) && c4.calculatedAt == Some(24 * HOUR);
    assert TimesProcessed(c4, item, times[1..][1..][1..][1..]) == 1;
    assert TimesProcessed(c3, item, times[1..][1..][1..]) == 2;
    assert TimesProcessed(c2, item, times[1..][1..]) == 3;
    assert TimesProcessed(c1, item, times[1..]) == 4;
  }
}
