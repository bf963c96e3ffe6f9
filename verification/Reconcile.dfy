/**
 The paged repair of app/communication/reconcile.py: pages read above a cursor from a set their own
 writes keep shrinking, against one ascending pass over the rows that were stale at the start.
 */
module Reconcile {
  import opened Options
  import opened Policy
  import opened Records
  import opened Ordering
  import opened Transactions

  /** The loop of pages, each one transaction, until a page comes back empty. */
  function Paged(db: Db, now: Time, after: Option<Id>, size: nat): Written
    decreases |StaleIds(db, now, after)|
  {
    var page := StalePage(db, now, after, size);
    if page == [] then Written(db, [])
    else
      var first := ReconcileRows(db, page, now);
      NextPage(db, now, after, size);
      Then(first, Paged(first.db, now, Some(page[|page| - 1]), size))
  }

  /** A page size that is absent, or zero, gives way to the configured one. */
  function PageSize(asked: Option<nat>, configured: nat): nat {
    if asked.Some? && asked.value != 0 then asked.value else configured
  }

  function OnePass(db: Db, now: Time): Written {
    ReconcileRows(db, Ascending(StaleIds(db, now, None)), now)
  }

  /** What a reconcile never touches: the other tables, the set of rows and the item each row belongs to. */
  predicate SameFrame(a: Db, b: Db) {
    && a.items == b.items && a.messages == b.messages && a.comments == b.comments
    && a.conversations.Keys == b.conversations.Keys
  }

  lemma {:induction false} ReconcileRowsFrame(db: Db, ids: seq<Id>, now: Time)
    ensures SameFrame(db, ReconcileRows(db, ids, now).db)
    decreases |ids|
  {
    if ids == [] {
    } else {
      var row := RecalculateRow(db, ids[0], now).db;
      assert row.conversations.Keys == db.conversations.Keys;
      ReconcileRowsFrame(row, ids[1..], now);
    }
  }

  /** A row outside the page is untouched. */
  lemma {:induction false} ReconcileRowsElsewhere(db: Db, ids: seq<Id>, now: Time, id: Id)
    requires id in db.conversations && id !in ids
    ensures id in ReconcileRows(db, ids, now).db.conversations
    ensures ReconcileRows(db, ids, now).db.conversations[id] == db.conversations[id]
    decreases |ids|
  {
    if ids == [] {
    } else {
      ReconcileRowsElsewhere(RecalculateRow(db, ids[0], now).db, ids[1..], now, id);
    }
  }

  /** Each row of an increasing page is recalculated exactly once, from the row the page found. */
  lemma {:induction false} ReconcileRowsAt(db: Db, ids: seq<Id>, now: Time, id: Id)
    requires Increasing(ids) && id in ids && HasItem(db, id)
    ensures id in ReconcileRows(db, ids, now).db.conversations
    ensures ReconcileRows(db, ids, now).db.conversations[id]
         == Recalculated(db.conversations[id], db.items[db.conversations[id].itemId], now)
    decreases |ids|
  {
    var row := RecalculateRow(db, ids[0], now).db;
    assert Increasing(ids[1..]);
    if id == ids[0] {
      ReconcileRowsElsewhere(row, ids[1..], now, id);
    } else {
      ReconcileRowsAt(row, ids[1..], now, id);
    }
  }

  lemma ThenAssociates(a: Written, b: Written, c: Written)
    ensures Then(a, Then(b, c)) == Then(Then(a, b), c)
  {
  }

  lemma {:induction false} ReconcileRowsJoin(db: Db, a: seq<Id>, b: seq<Id>, now: Time)
    ensures ReconcileRows(db, a + b, now)
         == Then(ReconcileRows(db, a, now), ReconcileRows(ReconcileRows(db, a, now).db, b, now))
    decreases |a|
  {
    if a == [] {
      assert a + b == b;
    } else {
      var row := RecalculateRow(db, a[0], now);
      var x := ReconcileRows(row.db, a[1..], now);
      assert (a + b)[0] == a[0] && (a + b)[1..] == a[1..] + b;
      ReconcileRowsJoin(row.db, a[1..], b, now);
      ThenAssociates(row, x, ReconcileRows(x.db, b, now));
    }
  }

  /** The first n stale rows leave every stale row above them alone. */
  lemma RowAboveIsUntouched(db: Db, now: Time, after: Option<Id>, n: nat, id: Id)
    requires 0 < n <= |StaleIds(db, now, after)| && id in db.conversations
    requires id > Ascending(StaleIds(db, now, after))[n - 1]
    ensures var done := ReconcileRows(db, Ascending(StaleIds(db, now, after))[..n], now).db;
      id in done.conversations && done.conversations[id] == db.conversations[id]
    ensures Above(id, after)
  {
    var all := Ascending(StaleIds(db, now, after));
    AscendingIncreases(StaleIds(db, now, after));
    assert all[n - 1] in all;
    IncreasingCut(all, n, id);
    ReconcileRowsElsewhere(db, all[..n], now, id);
  }

  /** After recalculating the first n stale rows, the stale rows above the n-th are the ones that were stale there. */
  lemma StaleAboveIsUntouched(db: Db, now: Time, after: Option<Id>, n: nat)
    requires 0 < n <= |StaleIds(db, now, after)|
    ensures var all := Ascending(StaleIds(db, now, after));
      StaleIds(ReconcileRows(db, all[..n], now).db, now, Some(all[n - 1]))
         == set x | x in StaleIds(db, now, after) && x > all[n - 1]
  {
    var all := Ascending(StaleIds(db, now, after));
    var done := ReconcileRows(db, all[..n], now).db;
    ReconcileRowsFrame(db, all[..n], now);
    forall id | id in db.conversations && id > all[n - 1]
      ensures StaleRow(done, id, now) == StaleRow(db, id, now) && Above(id, after)
    {
      RowAboveIsUntouched(db, now, after, n, id);
    }
  }

  lemma PageIsPrefix(db: Db, now: Time, after: Option<Id>, size: nat)
    ensures var all, page := Ascending(StaleIds(db, now, after)), StalePage(db, now, after, size);
      && |page| <= |all| && page == all[..|page|]
      && (page == [] && size > 0 ==> all == [])
  {
  }

  /** What the next page starts from. */
  lemma NextPage(db: Db, now: Time, after: Option<Id>, size: nat)
    requires StalePage(db, now, after, size) != []
    ensures var page := StalePage(db, now, after, size);
      var rest := StaleIds(ReconcileRows(db, page, now).db, now, Some(page[|page| - 1]));
      && |page| <= |StaleIds(db, now, after)|
      && Ascending(rest) == Ascending(StaleIds(db, now, after))[|page|..]
      && |rest| == |StaleIds(db, now, after)| - |page|
  {
    var stale, page := StaleIds(db, now, after), StalePage(db, now, after, size);
    PageIsPrefix(db, now, after, size);
    StaleAboveIsUntouched(db, now, after, |page|);
    AscendingAbove(stale, |page|);
    var rest := StaleIds(ReconcileRows(db, page, now).db, now, Some(page[|page| - 1]));
    assert |rest| == |Ascending(rest)|;
  }

  /** Whatever the page size, the paged loop is one pass over the stale rows above the cursor. */
  lemma {:induction false} PagedFromCursor(db: Db, now: Time, after: Option<Id>, size: nat)
    requires size > 0
    ensures Paged(db, now, after, size) == ReconcileRows(db, Ascending(StaleIds(db, now, after)), now)
    decreases |StaleIds(db, now, after)|
  {
    var all, page := Ascending(StaleIds(db, now, after)), StalePage(db, now, after, size);
    PageIsPrefix(db, now, after, size);
    if page == [] {
    } else {
      NextPage(db, now, after, size);
      var first := ReconcileRows(db, page, now);
      PagedFromCursor(first.db, now, Some(page[|page| - 1]), size);
      assert page + all[|page|..] == all;
      ReconcileRowsJoin(db, page, all[|page|..], now);
    }
  }

  /** The paged run ends in the tables and the event list of one ascending pass, for every page size. */
  lemma PagedIsOnePass(db: Db, now: Time, size: nat)
    ensures size > 0 ==> Paged(db, now, None, size) == OnePass(db, now)
    ensures size == 0 ==> Paged(db, now, None, size) == Written(db, [])
  {
    if size > 0 {
      PagedFromCursor(db, now, None, size);
    }
  }

  // ------------------------------------------------------------------ row by row

  /** One pass recalculates the rows that were stale and no other. */
  lemma OnePassAt(db: Db, now: Time, id: Id)
    requires id in db.conversations
    ensures id in OnePass(db, now).db.conversations
    ensures OnePass(db, now).db.conversations[id] ==
      if StaleRow(db, id, now) then Recalculated(db.conversations[id], db.items[db.conversations[id].itemId], now)
      else db.conversations[id]
  {
    var all := Ascending(StaleIds(db, now, None));
    AscendingIncreases(StaleIds(db, now, None));
    if StaleRow(db, id, now) {
      ReconcileRowsAt(db, all, now, id);
    } else {
      ReconcileRowsElsewhere(db, all, now, id);
    }
  }

  /** The events of a list of rows, each read off the row the run found. */
  function RowEvents(db: Db, ids: seq<Id>, now: Time): seq<Event> {
    if ids == [] then [] else RecalculateRow(db, ids[0], now).events + RowEvents(db, ids[1..], now)
  }

  lemma {:induction false} RowEventsOfLaterRows(db: Db, first: Id, ids: seq<Id>, now: Time)
    requires first !in ids
    ensures RowEvents(RecalculateRow(db, first, now).db, ids, now) == RowEvents(db, ids, now)
  {
    if ids == [] {
    } else {
      RowEventsOfLaterRows(db, first, ids[1..], now);
    }
  }

  lemma {:induction false} ReconcileRowsEvents(db: Db, ids: seq<Id>, now: Time)
    requires Increasing(ids)
    ensures ReconcileRows(db, ids, now).events == RowEvents(db, ids, now)
    decreases |ids|
  {
    if ids == [] {
    } else {
      assert ids[0] !in ids[1..];
      ReconcileRowsEvents(RecalculateRow(db, ids[0], now).db, ids[1..], now);
      RowEventsOfLaterRows(db, ids[0], ids[1..], now);
    }
  }

  /** The events of a run come in ascending id order, one for each stale row whose effective priority moves. */
  lemma OnePassEvents(db: Db, now: Time)
    ensures OnePass(db, now).events == RowEvents(db, Ascending(StaleIds(db, now, None)), now)
  {
    AscendingIncreases(StaleIds(db, now, None));
    ReconcileRowsEvents(db, Ascending(StaleIds(db, now, None)), now);
  }

  // ------------------------------------------------------------------ fixpoint

  /** The row's own stamps lie ahead of the run's clock. */
  predicate StampedAfter(db: Db, id: Id, now: Time)
    requires HasItem(db, id)
  {
    db.conversations[id].lastInteractionAt > now || db.items[db.conversations[id].itemId].statusUpdatedAt > now
  }

  lemma StaleAfterOnePass(db: Db, now: Time, id: Id)
    requires id in db.conversations
    ensures id in OnePass(db, now).db.conversations
    ensures StaleRow(OnePass(db, now).db, id, now) <==> StaleRow(db, id, now) && StampedAfter(db, id, now)
  {
    OnePassAt(db, now, id);
    ReconcileRowsFrame(db, Ascending(StaleIds(db, now, None)), now);
  }

  /**
   What is still stale right after a run is exactly the stale rows whose interaction or status time
   lies after the run's clock; with none of those the run leaves nothing for a second one to find.
   */
  lemma RunLeavesOnlyFutureStamps(db: Db, now: Time)
    ensures StaleIds(OnePass(db, now).db, now, None)
         == set id | id in StaleIds(db, now, None) && StampedAfter(db, id, now)
  {
    var after := OnePass(db, now).db;
    ReconcileRowsFrame(db, Ascending(StaleIds(db, now, None)), now);
    forall id | id in db.conversations
      ensures StaleRow(after, id, now) <==> StaleRow(db, id, now) && StampedAfter(db, id, now)
    {
      StaleAfterOnePass(db, now, id);
    }
  }

  predicate UpToDate(db: Db, id: Id, now: Time) {
    HasItem(db, id) && Recalculated(db.conversations[id], db.items[db.conversations[id].itemId], now) == db.conversations[id]
  }

  lemma {:induction false} UpToDateRowsStay(db: Db, ids: seq<Id>, now: Time)
    requires forall id :: id in ids ==> UpToDate(db, id, now)
    ensures ReconcileRows(db, ids, now) == Written(db, [])
    decreases |ids|
  {
    if ids == [] {
    } else {
      assert UpToDate(db, ids[0], now);
      assert db.conversations[ids[0] := db.conversations[ids[0]]] == db.conversations;
      assert RecalculateRow(db, ids[0], now) == Written(db, []);
      UpToDateRowsStay(db, ids[1..], now);
    }
  }

  /** A second run at the same clock changes no row and emits nothing, even where it still finds rows. */
  lemma SecondRunIsSilent(db: Db, now: Time, size: nat)
    ensures Paged(OnePass(db, now).db, now, None, size) == Written(OnePass(db, now).db, [])
  {
    var after := OnePass(db, now).db;
    var again := Ascending(StaleIds(after, now, None));
    RunLeavesOnlyFutureStamps(db, now);
    ReconcileRowsFrame(db, Ascending(StaleIds(db, now, None)), now);
    AscendingIncreases(StaleIds(after, now, None));
    forall id | id in again ensures UpToDate(after, id, now) {
      assert id in StaleIds(db, now, None);
      OnePassAt(db, now, id);
    }
    UpToDateRowsStay(after, again, now);
    PagedIsOnePass(after, now, size);
  }

  // ------------------------------------------------------------------ pages among other requests

  /**
   The ids visited when other requests commit between pages: page k is read from `snapshots[k]`,
   whatever the tables have become by then.
   */
  function Visits(snapshots: seq<Db>, now: Time, after: Option<Id>, size: nat): seq<Id> {
    if snapshots == [] then []
    else
      var page := StalePage(snapshots[0], now, after, size);
      if page == [] then [] else page + Visits(snapshots[1..], now, Some(page[|page| - 1]), size)
  }

  /** A page is increasing, above the cursor, and made of rows stale in the tables it was read from. */
  lemma PageIsStale(db: Db, now: Time, after: Option<Id>, size: nat)
    ensures Increasing(StalePage(db, now, after, size))
    ensures forall id :: id in StalePage(db, now, after, size) ==> StaleRow(db, id, now) && Above(id, after)
  {
    PageIsPrefix(db, now, after, size);
    AscendingIncreases(StaleIds(db, now, after));
    assert forall id :: id in StalePage(db, now, after, size) ==> id in Ascending(StaleIds(db, now, after));
  }

  /** No interference makes a run visit a row twice, or go back over ids it has passed. */
  lemma {:induction false} VisitsIncrease(snapshots: seq<Db>, now: Time, after: Option<Id>, size: nat)
    ensures Increasing(Visits(snapshots, now, after, size))
    ensures forall id :: id in Visits(snapshots, now, after, size) ==> Above(id, after)
  {
    if snapshots == [] {
    } else {
      var page := StalePage(snapshots[0], now, after, size);
      PageIsStale(snapshots[0], now, after, size);
      if page != [] {
        var last := page[|page| - 1];
        var rest := Visits(snapshots[1..], now, Some(last), size);
        assert last in page;
        VisitsIncrease(snapshots[1..], now, Some(last), size);
        assert forall id :: id in rest ==> id > last;
        IncreasingJoins(page, rest);
        assert Above(last, after);
      }
    }
  }

  /** The run goes on until it reads an empty page. */
  predicate EndsEmpty(snapshots: seq<Db>, now: Time, after: Option<Id>, size: nat) {
    snapshots != [] &&
    (var page := StalePage(snapshots[0], now, after, size);
     page == [] || EndsEmpty(snapshots[1..], now, Some(page[|page| - 1]), size))
  }

  lemma OffPageIsAbove(db: Db, now: Time, after: Option<Id>, size: nat, id: Id)
    requires size > 0 && id in StaleIds(db, now, after) && id !in StalePage(db, now, after, size)
    ensures var page := StalePage(db, now, after, size); page != [] && id > page[|page| - 1]
  {
    var stale, page := StaleIds(db, now, after), StalePage(db, now, after, size);
    PageIsPrefix(db, now, after, size);
    AscendingHas(stale, id);
    AscendingIncreases(stale);
    assert page != [];
    IncreasingCut(Ascending(stale), |page|, id);
  }

  /** The tables the run is reading when its cursor passes the id. */
  function PassedIn(snapshots: seq<Db>, now: Time, after: Option<Id>, size: nat, id: Id): (db: Db)
    requires EndsEmpty(snapshots, now, after, size)
    ensures db in snapshots
  {
    var page := StalePage(snapshots[0], now, after, size);
    if page == [] || id <= page[|page| - 1] then snapshots[0]
    else PassedIn(snapshots[1..], now, Some(page[|page| - 1]), size, id)
  }

  /** The page that passes a row holds it exactly if the row is stale in the tables the page is read from. */
  lemma PassingPage(db: Db, now: Time, after: Option<Id>, size: nat, id: Id)
    requires size > 0 && Above(id, after)
    requires var page := StalePage(db, now, after, size); page == [] || id <= page[|page| - 1]
    ensures id in StalePage(db, now, after, size) <==> StaleRow(db, id, now)
  {
    PageIsStale(db, now, after, size);
    if StaleRow(db, id, now) && id !in StalePage(db, now, after, size) {
      OffPageIsAbove(db, now, after, size, id);
    }
  }

  lemma IncreasingLast(ids: seq<Id>, id: Id)
    requires Increasing(ids) && id in ids
    ensures id <= ids[|ids| - 1]
  {
    var k :| 0 <= k < |ids| && ids[k] == id;
  }

  lemma NotVisitedBelow(snapshots: seq<Db>, now: Time, last: Id, size: nat, id: Id)
    requires id <= last
    ensures id !in Visits(snapshots, now, Some(last), size)
  {
    VisitsIncrease(snapshots, now, Some(last), size);
  }

  lemma OnPage(db: Db, now: Time, after: Option<Id>, size: nat, id: Id)
    requires id in StalePage(db, now, after, size)
    ensures var page := StalePage(db, now, after, size); id <= page[|page| - 1]
  {
    PageIsStale(db, now, after, size);
    IncreasingLast(StalePage(db, now, after, size), id);
  }

  lemma VisitsUnfold(snapshots: seq<Db>, now: Time, after: Option<Id>, size: nat, id: Id)
    requires snapshots != []
    ensures var page := StalePage(snapshots[0], now, after, size);
      id in Visits(snapshots, now, after, size) <==>
        id in page || (page != [] && id in Visits(snapshots[1..], now, Some(page[|page| - 1]), size))
  {
  }

  /** An id the first page does not reach is visited if the rest of the run visits it. */
  lemma VisitedLater(snapshots: seq<Db>, now: Time, after: Option<Id>, size: nat, id: Id)
    requires snapshots != []
    requires var page := StalePage(snapshots[0], now, after, size); page != [] && id > page[|page| - 1]
    ensures var page := StalePage(snapshots[0], now, after, size);
      id in Visits(snapshots, now, after, size) <==> id in Visits(snapshots[1..], now, Some(page[|page| - 1]), size)
  {
    VisitsUnfold(snapshots, now, after, size, id);
    if id in StalePage(snapshots[0], now, after, size) {
      OnPage(snapshots[0], now, after, size, id);
    }
  }

  /** An id the first page passes is visited on it or not at all. */
  lemma VisitedNow(snapshots: seq<Db>, now: Time, after: Option<Id>, size: nat, id: Id)
    requires snapshots != []
    requires var page := StalePage(snapshots[0], now, after, size); page == [] || id <= page[|page| - 1]
    ensures id in Visits(snapshots, now, after, size) <==> id in StalePage(snapshots[0], now, after, size)
  {
    var page := StalePage(snapshots[0], now, after, size);
    VisitsUnfold(snapshots, now, after, size, id);
    if page != [] {
      NotVisitedBelow(snapshots[1..], now, page[|page| - 1], size, id);
    }
  }

  /** The tables the run reads as the id's page is reached show whether it is visited. */
  predicate VisitedIfStale(snapshots: seq<Db>, now: Time, after: Option<Id>, size: nat, id: Id)
    requires EndsEmpty(snapshots, now, after, size)
  {
    id in Visits(snapshots, now, after, size) <==> StaleRow(PassedIn(snapshots, now, after, size, id), id, now)
  }

  lemma VisitedIfStaleNow(snapshots: seq<Db>, now: Time, after: Option<Id>, size: nat, id: Id)
    requires size > 0 && EndsEmpty(snapshots, now, after, size) && Above(id, after)
    requires var page := StalePage(snapshots[0], now, after, size); page == [] || id <= page[|page| - 1]
    ensures VisitedIfStale(snapshots, now, after, size, id)
  {
    VisitedNow(snapshots, now, after, size, id);
    PassingPage(snapshots[0], now, after, size, id);
  }

  lemma VisitedIfStaleLater(snapshots: seq<Db>, now: Time, after: Option<Id>, size: nat, id: Id, last: Id)
    requires EndsEmpty(snapshots, now, after, size)
    requires var page := StalePage(snapshots[0], now, after, size); page != [] && last == page[|page| - 1] && id > last
    requires VisitedIfStale(snapshots[1..], now, Some(last), size, id)
    ensures VisitedIfStale(snapshots, now, after, size, id)
  {
    VisitedLater(snapshots, now, after, size, id);
  }

  /** Whatever is committed between pages, a finished run visits a row exactly if it is stale in the tables it reads as it passes. */
  lemma {:induction false} VisitsExactly(snapshots: seq<Db>, now: Time, after: Option<Id>, size: nat, id: Id)
    requires size > 0 && EndsEmpty(snapshots, now, after, size) && Above(id, after)
    ensures VisitedIfStale(snapshots, now, after, size, id)
  {
    var page := StalePage(snapshots[0], now, after, size);
    if page == [] || id <= page[|page| - 1] {
      VisitedIfStaleNow(snapshots, now, after, size, id);
    } else {
      var last := page[|page| - 1];
      VisitsExactly(snapshots[1..], now, Some(last), size, id);
      VisitedIfStaleLater(snapshots, now, after, size, id, last);
    }
  }

  /** A row that a finished run does not visit was not stale in some of the tables it read. */
  lemma VisitsAll(snapshots: seq<Db>, now: Time, after: Option<Id>, size: nat, id: Id)
    requires size > 0 && EndsEmpty(snapshots, now, after, size) && Above(id, after)
    ensures id in Visits(snapshots, now, after, size) || exists db :: db in snapshots && !StaleRow(db, id, now)
  {
    VisitsExactly(snapshots, now, after, size, id);
    assert PassedIn(snapshots, now, after, size, id) in snapshots;
  }

  // ------------------------------------------------------------------ counting

  /** Recalculating the row gives it another calculated priority. */
  predicate Moves(db: Db, id: Id, now: Time) {
    HasItem(db, id)
    && Recalculated(db.conversations[id], db.items[db.conversations[id].itemId], now).calculated != db.conversations[id].calculated
  }

  function MovingIn(db: Db, page: seq<Id>, now: Time): set<Id> {
    set id | id in page && Moves(db, id, now)
  }

  /** Row i of a page, when its turn comes, is the row the page found. */
  lemma PageRow(db: Db, page: seq<Id>, i: nat, now: Time)
    requires i < |page| && Increasing(page) && HasItem(db, page[i])
    ensures HasItem(ReconcileRows(db, page[..i], now).db, page[i])
    ensures Moves(ReconcileRows(db, page[..i], now).db, page[i], now) == Moves(db, page[i], now)
  {
    ReconcileRowsFrame(db, page[..i], now);
    ReconcileRowsElsewhere(db, page[..i], now, page[i]);
  }

  lemma PageGrows(db: Db, page: seq<Id>, i: nat, now: Time)
    requires i < |page|
    ensures ReconcileRows(db, page[..i + 1], now)
         == Then(ReconcileRows(db, page[..i], now), RecalculateRow(ReconcileRows(db, page[..i], now).db, page[i], now))
  {
    assert page[..i + 1] == page[..i] + [page[i]];
    ReconcileRowsJoin(db, page[..i], [page[i]], now);
    assert ReconcileRows(ReconcileRows(db, page[..i], now).db, [page[i]], now)
        == Then(RecalculateRow(ReconcileRows(db, page[..i], now).db, page[i], now), Written(RecalculateRow(ReconcileRows(db, page[..i], now).db, page[i], now).db, []));
  }

  lemma MovingInGrows(db: Db, page: seq<Id>, i: nat, now: Time)
    requires i < |page| && Increasing(page)
    ensures |MovingIn(db, page[..i + 1], now)| == |MovingIn(db, page[..i], now)| + (if Moves(db, page[i], now) then 1 else 0)
  {
    assert page[..i + 1] == page[..i] + [page[i]];
    assert page[i] !in page[..i];
    assert MovingIn(db, page[..i + 1], now)
        == MovingIn(db, page[..i], now) + (if Moves(db, page[i], now) then {page[i]} else {});
  }

  function Moving(db: Db, ids: set<Id>, now: Time): set<Id> {
    set id | id in ids && Moves(db, id, now)
  }

  /** A stale row is on the page or still stale above it. */
  lemma StillAhead(db: Db, now: Time, after: Option<Id>, size: nat, id: Id)
    requires StalePage(db, now, after, size) != []
    ensures var page := StalePage(db, now, after, size);
      && (id in StaleIds(ReconcileRows(db, page, now).db, now, Some(page[|page| - 1])) <==>
          id in StaleIds(db, now, after) && id !in page)
      && (id in page ==> id in StaleIds(db, now, after))
  {
    var stale, page := StaleIds(db, now, after), StalePage(db, now, after, size);
    PageIsPrefix(db, now, after, size);
    NextPage(db, now, after, size);
    AscendingHas(stale, id);
    AscendingHas(StaleIds(ReconcileRows(db, page, now).db, now, Some(page[|page| - 1])), id);
    AscendingSplits(stale, |page|, id);
  }

  /** A row off the page is unchanged by it, and so is what a recalculation would do to it. */
  lemma MovesElsewhere(db: Db, ids: seq<Id>, now: Time, id: Id)
    requires id in db.conversations && id !in ids
    ensures Moves(ReconcileRows(db, ids, now).db, id, now) == Moves(db, id, now)
  {
    ReconcileRowsFrame(db, ids, now);
    ReconcileRowsElsewhere(db, ids, now, id);
  }

  lemma MovingAbove(db: Db, now: Time, after: Option<Id>, size: nat, id: Id)
    requires StalePage(db, now, after, size) != []
    ensures var page := StalePage(db, now, after, size);
      var done, last := ReconcileRows(db, page, now).db, page[|page| - 1];
      && (id in Moving(done, StaleIds(done, now, Some(last)), now) <==>
          id in Moving(db, StaleIds(db, now, after), now) && id !in page)
      && (id in page ==> id in StaleIds(db, now, after))
  {
    var page := StalePage(db, now, after, size);
    StillAhead(db, now, after, size, id);
    if id in StaleIds(db, now, after) && id !in page {
      MovesElsewhere(db, page, now, id);
    }
  }

  /** The rows a run has still to change are those of the page and those above it. */
  lemma NextPageMoves(db: Db, now: Time, after: Option<Id>, size: nat)
    requires StalePage(db, now, after, size) != []
    ensures var page := StalePage(db, now, after, size);
      var done, last := ReconcileRows(db, page, now).db, page[|page| - 1];
      |Moving(db, StaleIds(db, now, after), now)|
        == |MovingIn(db, page, now)| + |Moving(done, StaleIds(done, now, Some(last)), now)|
  {
    var page := StalePage(db, now, after, size);
    var done, last := ReconcileRows(db, page, now).db, page[|page| - 1];
    var all, rest := Moving(db, StaleIds(db, now, after), now), Moving(done, StaleIds(done, now, Some(last)), now);
    forall id
      ensures id in rest <==> id in all && id !in page
      ensures id in MovingIn(db, page, now) <==> id in all && id in page
    {
      MovingAbove(db, now, after, size, id);
    }
    assert all == MovingIn(db, page, now) + rest;
  }

  /** What a run has still to do above its cursor: writes, rows to find, rows to change. */
  datatype Ahead = Ahead(writes: Written, found: nat, moving: nat)

  function AheadOf(db: Db, now: Time, after: Option<Id>, size: nat): Ahead {
    Ahead(Paged(db, now, after, size), |StaleIds(db, now, after)|, |Moving(db, StaleIds(db, now, after), now)|)
  }

  lemma NothingAhead(db: Db, now: Time, after: Option<Id>, size: nat)
    requires StalePage(db, now, after, size) == []
    ensures AheadOf(db, now, after, size).writes == Written(db, [])
    ensures size > 0 ==> AheadOf(db, now, after, size) == Ahead(Written(db, []), 0, 0)
  {
  }

  lemma PageAhead(db: Db, now: Time, after: Option<Id>, size: nat)
    requires StalePage(db, now, after, size) != []
    ensures size > 0
    ensures var page := StalePage(db, now, after, size);
      var w := ReconcileRows(db, page, now);
      var rest := AheadOf(w.db, now, Some(page[|page| - 1]), size);
      AheadOf(db, now, after, size)
        == Ahead(Then(w, rest.writes), |page| + rest.found, |MovingIn(db, page, now)| + rest.moving)
  {
    NextPage(db, now, after, size);
    NextPageMoves(db, now, after, size);
  }

  /** One page done: what was ahead of it is what it did and what is ahead now. */
  lemma PageShrinksAhead(db: Db, log: seq<Event>, now: Time, after: Option<Id>, size: nat)
    requires StalePage(db, now, after, size) != []
    ensures var page := StalePage(db, now, after, size);
      var w := ReconcileRows(db, page, now);
      var rest, was := AheadOf(w.db, now, Some(page[|page| - 1]), size), AheadOf(db, now, after, size);
      && size > 0
      && rest.writes.db == was.writes.db && (log + w.events) + rest.writes.events == log + was.writes.events
      && |page| + rest.found == was.found && |MovingIn(db, page, now)| + rest.moving == was.moving
  {
    var page := StalePage(db, now, after, size);
    var w := ReconcileRows(db, page, now);
    PageAhead(db, now, after, size);
    Regroup(log, w.events, AheadOf(w.db, now, Some(page[|page| - 1]), size).writes.events);
  }

  lemma Regroup(a: seq<Event>, b: seq<Event>, c: seq<Event>)
    ensures a + (b + c) == (a + b) + c
  {
  }
}
