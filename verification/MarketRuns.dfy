/** Whole runs of the market, from an empty one. */
module MarketRuns {
  import opened Options
  import opened Policy
  import opened Records
  import opened ItemStatuses
  import opened Checkout
  import opened Market
  import opened MarketInvariant

  function NoMarket(): Market { Market(map[], map[], [], [], map[]) }

  predicate Runnable(m: Market, run: seq<Move>)
    decreases |run|
  {
    run == [] || (CanMove(m, run[0]) && Runnable(After(m, run[0]), run[1..]))
  }

  function Run(m: Market, run: seq<Move>): Market
    requires Runnable(m, run)
    decreases |run|
  {
    if run == [] then m else Run(After(m, run[0]), run[1..])
  }

  lemma {:induction false} RunKeeps(m: Market, run: seq<Move>)
    requires Inv(m) && Runnable(m, run)
    ensures Inv(Run(m, run))
    decreases |run|
  {
    if run == [] {
    } else {
      MoveKeeps(m, run[0]);
      RunKeeps(After(m, run[0]), run[1..]);
    }
  }

  /**
   Over every interleaving, each offer's committed stock plus the quantities its purchases keep out of
   stock is the stock its seller granted, and neither a committed stock nor a stock a checkout is
   working on is ever negative.
   */
  lemma StockIsConserved(run: seq<Move>, o: Id)
    requires Runnable(NoMarket(), run) && o in Run(NoMarket(), run).offers
    ensures var m := Run(NoMarket(), run);
      && o in m.granted
      && m.offers[o].stock + Held(m.purchases, o) == m.granted[o]
      && m.offers[o].stock >= 0
      && forall c :: LockedBy(m, c, o) ==> m.carts[c].own[o].stock >= 0
  {
    var m := Run(NoMarket(), run);
    RunKeeps(NoMarket(), run);
    forall c | LockedBy(m, c, o) ensures m.carts[c].own[o].stock >= 0 {
      assert CartOk(m.offers, m.carts[c]);
    }
  }

  /**
   An order commits whole: one purchase for each line of its cart, numbered from one in payload order,
   at the price the buyer expected whatever sellers have done to prices since.
   */
  lemma CommittedOrderIsWhole(run: seq<Move>, c: Id, orderId: Id, buyerId: Id, now: Time)
    requires Runnable(NoMarket(), run) && CanMove(Run(NoMarket(), run), Commit(c, orderId, buyerId, now))
    ensures var m := Run(NoMarket(), run);
      var after := After(m, Commit(c, orderId, buyerId, now));
      && after.purchases == m.purchases + Purchases(orderId, m.carts[c].lines, 0, now)
      && after.log == m.log + [OrderCreated(orderId, buyerId)]
      && after.offers.Keys == m.offers.Keys
      && forall o :: o in m.offers ==> after.offers[o].stock == m.offers[o].stock - Taken(m.carts[c].lines, o)
  {
    var m := Run(NoMarket(), run);
    RunKeeps(NoMarket(), run);
    var cart := m.carts[c];
    assert CartOk(m.offers, cart);
    assert cart.lines[..cart.next] == cart.lines;
    BoughtIsPurchases(orderId, cart.lines, cart.prices, 0, now);
    forall o | o in m.offers && o !in cart.own ensures Taken(cart.lines, o) == 0 {
      NothingTaken(cart.lines, o);
    }
  }

  /** Nothing a checkout does before it commits, refused or aborted, shows in the tables or the log. */
  lemma UncommittedIsInvisible(m: Market, v: Move)
    requires CanMove(m, v)
    requires v.Begin? || v.ValidateNext? || v.StartConsuming? || v.ConsumeNext? || v.Abort?
    ensures After(m, v) == m.(carts := After(m, v).carts)
  {
  }

  /** The cart a step belongs to, if it is a checkout's. */
  function CartOf(v: Move): Option<Id> {
    match v
    case Begin(c, _) => Some(c)
    case ValidateNext(c) => Some(c)
    case StartConsuming(c) => Some(c)
    case ConsumeNext(c) => Some(c)
    case Commit(c, _, _, _) => Some(c)
    case Abort(c) => Some(c)
    case _ => None
  }

  function NotOf(c: Id): Move -> Option<Move> {
    (v: Move) => if CartOf(v) == Some(c) then None else Some(v)
  }

  /** The run without the steps of one cart. */
  function Erased(run: seq<Move>, c: Id): seq<Move> {
    Collect(NotOf(c), run)
  }

  function Hidden(m: Market, c: Id): Market {
    m.(carts := Without(m.carts, c))
  }

  lemma OwnMoveHidden(m: Market, v: Move, c: Id)
    requires CanMove(m, v) && CartOf(v) == Some(c) && !v.Commit?
    ensures Hidden(After(m, v), c) == Hidden(m, c)
  {
    UncommittedIsInvisible(m, v);
    assert Without(After(m, v).carts, c) == Without(m.carts, c);
  }

  lemma StillUnlocked(m: Market, c: Id, o: Id)
    requires Unlocked(m, o)
    ensures Unlocked(Hidden(m, c), o)
  {
    assert forall x :: LockedBy(Hidden(m, c), x, o) ==> LockedBy(m, x, o);
  }

  lemma OtherCanMove(m: Market, v: Move, c: Id)
    requires CanMove(m, v) && CartOf(v) != Some(c)
    ensures CanMove(Hidden(m, c), v)
  {
    forall o | Unlocked(m, o) ensures Unlocked(Hidden(m, c), o) {
      StillUnlocked(m, c, o);
    }
  }

  lemma WithoutOther(carts: map<Id, Cart>, c: Id, x: Id, cart: Cart)
    requires x != c
    ensures Without(carts, c)[x := cart] == Without(carts[x := cart], c)
    ensures Without(Without(carts, c), x) == Without(Without(carts, x), c)
  {
  }

  lemma OtherCartHidden(m: Market, v: Move, c: Id)
    requires CanMove(m, v) && CartOf(v).Some? && CartOf(v) != Some(c) && CanMove(Hidden(m, c), v)
    ensures After(Hidden(m, c), v) == Hidden(After(m, v), c)
  {
    var x := CartOf(v).value;
    var after := After(m, v).carts;
    if x in after {
      WithoutOther(m.carts, c, x, after[x]);
    } else {
      WithoutOther(m.carts, c, x, m.carts[x]);
    }
  }

  lemma OtherMoveHidden(m: Market, v: Move, c: Id)
    requires CanMove(m, v) && CartOf(v) != Some(c) && CanMove(Hidden(m, c), v)
    ensures After(Hidden(m, c), v) == Hidden(After(m, v), c)
  {
    if CartOf(v).Some? {
      OtherCartHidden(m, v, c);
    }
  }

  lemma {:induction false} ErasedRun(m: Market, run: seq<Move>, c: Id)
    requires Runnable(m, run) && forall v :: v in run && CartOf(v) == Some(c) ==> !v.Commit?
    ensures Runnable(Hidden(m, c), Erased(run, c))
    ensures Run(Hidden(m, c), Erased(run, c)) == Hidden(Run(m, run), c)
    decreases |run|
  {
    if run == [] {
    } else {
      assert run[0] in run;
      ErasedRun(After(m, run[0]), run[1..], c);
      var rest := Erased(run[1..], c);
      if CartOf(run[0]) == Some(c) {
        OwnMoveHidden(m, run[0], c);
        assert Erased(run, c) == rest;
      } else {
        OtherCanMove(m, run[0], c);
        OtherMoveHidden(m, run[0], c);
        assert Erased(run, c)[0] == run[0] && Erased(run, c)[1..] == rest;
      }
    }
  }

  /**
   A checkout that never commits might as well not have been: without its steps the run goes through as
   before and ends with the same offers, purchases and log.
   */
  lemma UncommittedLeavesNoTrace(run: seq<Move>, c: Id)
    requires Runnable(NoMarket(), run) && forall v :: v in run && CartOf(v) == Some(c) ==> !v.Commit?
    ensures Runnable(NoMarket(), Erased(run, c))
    ensures var with, without := Run(NoMarket(), run), Run(NoMarket(), Erased(run, c));
      with.offers == without.offers && with.purchases == without.purchases && with.log == without.log
  {
    assert Hidden(NoMarket(), c) == NoMarket();
    ErasedRun(NoMarket(), run, c);
  }

  // ------------------------------------------------------------------ stock comes back at most once

  function CancelsOf(i: Id): Event -> Option<bool> {
    (e: Event) => if e.ItemCancelled? && e.itemId == i then Some(e.restoredStock) else None
  }

  /** What the row of a purchase remembers of its cancellation. */
  function Remembered(purchases: seq<Purchase>, i: nat): seq<bool> {
    if i < |purchases| && purchases[i].cancelledFrom.Some? then [RestoresStock(purchases[i].cancelledFrom.value)] else []
  }

  /** The cancellations published for a purchase are exactly the one its row remembers. */
  predicate CancelLogOf(m: Market, i: nat) {
    Collect(CancelsOf(i), m.log) == Remembered(m.purchases, i)
  }

  lemma NewPurchasesRemember(purchases: seq<Purchase>, bought: seq<Purchase>, i: nat)
    requires forall k :: 0 <= k < |bought| ==> bought[k].cancelledFrom.None?
    ensures Remembered(purchases + bought, i) == Remembered(purchases, i)
  {
  }

  lemma OtherEvents(log: seq<Event>, events: seq<Event>, i: nat)
    requires forall e :: e in events ==> !e.ItemCancelled?
    ensures Collect(CancelsOf(i), log + events) == Collect(CancelsOf(i), log)
  {
    CollectConcat(CancelsOf(i), log, events);
    CollectNothing(CancelsOf(i), events);
  }

  lemma CancelEventsOf(index: nat, item: Item, who: Participant, now: Time, i: nat)
    requires CancelItem(index, item, who, now).Moved?
    ensures Collect(CancelsOf(i), CancelItem(index, item, who, now).events) ==
      if index == i && item.status != Cancelled then [RestoresStock(item.status)] else []
  {
    if item.status != Cancelled {
      var cancelled, changed := ItemCancelled(index, RestoresStock(item.status)), ItemStatusChanged(index, item.status, Cancelled);
      assert [cancelled, changed] == [cancelled] + [changed];
      CollectConcat(CancelsOf(i), [cancelled], [changed]);
      CollectOne(CancelsOf(i), cancelled);
      CollectOne(CancelsOf(i), changed);
    }
  }

  lemma CancelKeepsLog(m: Market, index: nat, who: Participant, now: Time, i: nat)
    requires index < |m.purchases| && PurchaseOk(m, m.purchases[index]) && CancelLogOf(m, i)
    ensures CancelLogOf(CancelAt(m, index, who, now), i)
  {
    var item := m.purchases[index].item;
    if CancelItem(index, item, who, now).Moved? && item.status != Cancelled {
      CancelEventsOf(index, item, who, now, i);
      CollectConcat(CancelsOf(i), m.log, CancelItem(index, item, who, now).events);
    }
  }

  lemma AdvanceKeepsLog(m: Market, index: nat, target: ItemStatus, now: Time, i: nat)
    requires index < |m.purchases| && CancelLogOf(m, i)
    ensures CancelLogOf(AdvanceAt(m, index, target, now), i)
  {
    var move := AdvanceItem(index, m.purchases[index].item, target, now);
    if move.Moved? {
      OtherEvents(m.log, move.events, i);
    }
  }

  lemma CommitKeepsLog(m: Market, c: Id, orderId: Id, buyerId: Id, now: Time, i: nat)
    requires CanMove(m, Commit(c, orderId, buyerId, now)) && CartOk(m.offers, m.carts[c]) && CancelLogOf(m, i)
    ensures CancelLogOf(CommitCart(m, c, orderId, buyerId, now), i)
  {
    var cart := m.carts[c];
    OtherEvents(m.log, [OrderCreated(orderId, buyerId)], i);
    BoughtIsPurchases(orderId, cart.lines, cart.prices, 0, now);
    NewPurchasesRemember(m.purchases, Purchases(orderId, cart.lines, 0, now), i);
  }

  lemma CancelLogKept(m: Market, v: Move, i: nat)
    requires Inv(m) && CanMove(m, v) && CancelLogOf(m, i)
    ensures CancelLogOf(After(m, v), i)
  {
    match v
    case CancelPurchase(index, who, now) => CancelKeepsLog(m, index, who, now, i);
    case AdvancePurchase(index, target, now) => AdvanceKeepsLog(m, index, target, now, i);
    case Commit(c, orderId, buyerId, now) => CommitKeepsLog(m, c, orderId, buyerId, now, i);
    case ConsumeNext(c) => ConsumeKeepsLog(m, c, i);
    case _ =>
  }

  lemma ConsumeKeepsLog(m: Market, c: Id, i: nat)
    requires CanMove(m, ConsumeNext(c)) && CancelLogOf(m, i)
    ensures CancelLogOf(Consume(m, c), i)
  {
  }

  lemma {:induction false} CancelLogRun(m: Market, run: seq<Move>, i: nat)
    requires Inv(m) && Runnable(m, run) && CancelLogOf(m, i)
    ensures CancelLogOf(Run(m, run), i)
    decreases |run|
  {
    if run == [] {
    } else {
      CancelLogKept(m, run[0], i);
      MoveKeeps(m, run[0]);
      CancelLogRun(After(m, run[0]), run[1..], i);
    }
  }

  /**
   In every reachable market a purchase was cancelled at most once, and its stock was restored only if
   that happened before it left the seller.
   */
  lemma RestoredAtMostOnce(run: seq<Move>, i: nat)
    requires Runnable(NoMarket(), run) && i < |Run(NoMarket(), run).purchases|
    ensures var m := Run(NoMarket(), run);
      var p := m.purchases[i];
      Collect(CancelsOf(i), m.log) ==
        if p.item.status == Cancelled then [p.cancelledFrom == Some(Placed) || p.cancelledFrom == Some(Preparing)] else []
  {
    var m := Run(NoMarket(), run);
    CancelLogRun(NoMarket(), run, i);
    RunKeeps(NoMarket(), run);
    assert PurchaseOk(m, m.purchases[i]);
  }
}
