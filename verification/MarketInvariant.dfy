/** Stock is conserved and never oversold, whatever interleaving of checkouts, cancels and edits. */
module MarketInvariant {
  import opened Options
  import opened Policy
  import opened Records
  import opened ItemStatuses
  import opened Checkout
  import opened Market

  /** Committed stock plus what purchases hold is what the seller granted, and stock is never negative. */
  predicate Conserved(m: Market) {
    forall o :: o in m.offers ==>
      && o in m.granted
      && m.offers[o].stock >= 0
      && m.offers[o].stock + Held(m.purchases, o) == m.granted[o]
  }

  predicate PurchaseOk(m: Market, p: Purchase) {
    && p.item.offerId in m.offers
    && (p.item.status == Cancelled <==> p.cancelledFrom.Some?)
    && (p.cancelledFrom.Some? ==> CanCancel(p.cancelledFrom.value, Seller))
  }

  function OffersIn(lines: seq<Line>): set<Id> {
    if lines == [] then {} else {lines[0].offerId} + OffersIn(lines[1..])
  }

  lemma {:induction false} OffersInGrows(lines: seq<Line>, next: nat)
    requires next < |lines|
    ensures OffersIn(lines[..next + 1]) == OffersIn(lines[..next]) + {lines[next].offerId}
  {
    if next == 0 {
      assert lines[..1][1..] == [] && lines[..0] == [];
    } else {
      OffersInGrows(lines[1..], next - 1);
      assert lines[1..][..next] == lines[..next + 1][1..];
      assert lines[1..][..next - 1] == lines[..next][1..];
    }
  }

  lemma {:induction false} NothingTaken(lines: seq<Line>, o: Id)
    requires o !in OffersIn(lines)
    ensures Taken(lines, o) == 0
  {
    if lines == [] {
    } else {
      NothingTaken(lines[1..], o);
    }
  }

  lemma TakenGrows(lines: seq<Line>, next: nat, o: Id)
    requires next < |lines|
    ensures Taken(lines[..next + 1], o)
         == Taken(lines[..next], o) + (if lines[next].offerId == o then lines[next].quantity else 0)
  {
    assert lines[..next + 1] == lines[..next] + [lines[next]];
    TakenJoins(lines[..next], [lines[next]], o);
  }

  /** The rows a cart has locked are the committed rows less what its lines so far have taken from them. */
  ghost predicate OwnOk(offers: map<Id, Offer>, lines: seq<Line>, own: map<Id, Offer>) {
    && own.Keys == OffersIn(lines)
    && (forall o :: o in own ==>
          && o in offers
          && own[o] == offers[o].(stock := offers[o].stock - Taken(lines, o))
          && own[o].stock >= 0)
  }

  predicate PricesOk(lines: seq<Line>, prices: seq<int>) {
    |prices| <= |lines| && forall k :: 0 <= k < |prices| ==> prices[k] == lines[k].expectedPrice
  }

  ghost predicate CartOk(offers: map<Id, Offer>, cart: Cart) {
    && cart.next <= |cart.lines|
    && match cart
       case Validating(lines, read, problems, next) =>
         |read| + |problems| == next && (problems == [] ==> PricesOk(lines, PricesOf(read)))
       case Consuming(lines, prices, own, next) =>
         |prices| == |lines| && PricesOk(lines, prices) && OwnOk(offers, lines[..next], own)
  }

  ghost predicate Exclusive(m: Market) {
    forall a, b, o :: a != b && LockedBy(m, a, o) ==> !LockedBy(m, b, o)
  }

  ghost predicate Inv(m: Market) {
    && Conserved(m)
    && m.offers.Keys <= m.granted.Keys
    && (forall p :: p in m.purchases ==> PurchaseOk(m, p))
    && (forall c :: c in m.carts ==> CartOk(m.offers, m.carts[c]))
    && Exclusive(m)
  }

  // ------------------------------------------------------------------ rows and carts

  /** Rows change only where no other cart holds them: the other carts stay as they were. */
  lemma CartsKeep(m: Market, after: map<Id, Offer>, c: Id)
    requires c in m.carts && CartOk(m.offers, m.carts[c])
    requires forall o :: LockedBy(m, c, o) ==> o in after && o in m.offers && after[o] == m.offers[o]
    ensures CartOk(after, m.carts[c])
  {
  }

  /** One more conditional UPDATE on top of a cart's own rows. */
  lemma ConsumeKeepsOwn(offers: map<Id, Offer>, lines: seq<Line>, own: map<Id, Offer>, next: nat)
    requires next < |lines| && OwnOk(offers, lines[..next], own)
    requires ConsumeStock(offers + own, lines[next]).Some?
    ensures OwnOk(offers, lines[..next + 1], own[lines[next].offerId := ConsumeStock(offers + own, lines[next]).value])
  {
    var line := lines[next];
    OffersInGrows(lines, next);
    forall o ensures Taken(lines[..next + 1], o) == Taken(lines[..next], o) + (if line.offerId == o then line.quantity else 0) {
      TakenGrows(lines, next, o);
    }
    if line.offerId !in own {
      NothingTaken(lines[..next], line.offerId);
    }
  }

  lemma {:induction false} BoughtIsPurchases(orderId: Id, lines: seq<Line>, prices: seq<int>, from: nat, now: Time)
    requires |prices| == |lines| && PricesOk(lines, prices)
    ensures Bought(orderId, lines, prices, from, now) == Purchases(orderId, lines, from, now)
    decreases |lines|
  {
    if lines == [] {
    } else {
      forall k | 0 <= k < |prices[1..]| ensures prices[1..][k] == lines[1..][k].expectedPrice {
        assert prices[k + 1] == lines[k + 1].expectedPrice;
      }
      BoughtIsPurchases(orderId, lines[1..], prices[1..], from + 1, now);
    }
  }

  // ------------------------------------------------------------------ one step

  /** Dropping, adding or advancing one cart leaves the rest of the market's facts alone. */
  lemma OnlyCartsMove(m: Market, after: Market, c: Id)
    requires Inv(m) && after == m.(carts := after.carts)
    requires forall x :: x in after.carts && x != c ==> x in m.carts && after.carts[x] == m.carts[x]
    requires c in after.carts ==> CartOk(m.offers, after.carts[c])
    requires forall o :: LockedBy(after, c, o) ==> LockedBy(m, c, o) || Unlocked(m, o)
    ensures Inv(after)
  {
    assert forall x, o :: x != c ==> (LockedBy(after, x, o) ==> LockedBy(m, x, o));
  }

  lemma ValidateKeeps(m: Market, c: Id)
    requires Inv(m) && CanMove(m, ValidateNext(c))
    ensures Inv(After(m, ValidateNext(c)))
  {
    var cart := m.carts[c];
    var done := Validate(m, cart);
    if done.problems == [] {
      assert PricesOf(done.read) == PricesOf(cart.read) + [m.offers[cart.lines[cart.next].offerId].price];
    }
    OnlyCartsMove(m, After(m, ValidateNext(c)), c);
  }

  lemma StartKeeps(m: Market, c: Id)
    requires Inv(m) && CanMove(m, StartConsuming(c))
    ensures Inv(After(m, StartConsuming(c)))
  {
    OnlyCartsMove(m, After(m, StartConsuming(c)), c);
  }

  lemma ConsumedCartOk(offers: map<Id, Offer>, cart: Cart, offer: Offer)
    requires cart.Consuming? && cart.next < |cart.lines| && CartOk(offers, cart)
    requires ConsumeStock(offers + cart.own, cart.lines[cart.next]) == Some(offer)
    ensures CartOk(offers, cart.(own := cart.own[cart.lines[cart.next].offerId := offer], next := cart.next + 1))
  {
    ConsumeKeepsOwn(offers, cart.lines, cart.own, cart.next);
  }

  /** A cart moves on and locks at most one more row, which was its own or free. */
  lemma CartMovesOn(m: Market, c: Id, cart: Cart, o: Id)
    requires Inv(m) && c in m.carts && m.carts[c].Consuming? && cart.Consuming? && CartOk(m.offers, cart)
    requires cart.own.Keys == m.carts[c].own.Keys + {o}
    requires LockedBy(m, c, o) || Unlocked(m, o)
    ensures Inv(m.(carts := m.carts[c := cart]))
  {
    OnlyCartsMove(m, m.(carts := m.carts[c := cart]), c);
  }

  lemma CartDropped(m: Market, c: Id)
    requires Inv(m)
    ensures Inv(m.(carts := Without(m.carts, c)))
  {
    OnlyCartsMove(m, m.(carts := Without(m.carts, c)), c);
  }

  lemma ConsumeTakes(m: Market, c: Id, offer: Offer)
    requires Inv(m) && CanMove(m, ConsumeNext(c))
    requires ConsumeStock(m.offers + m.carts[c].own, m.carts[c].lines[m.carts[c].next]) == Some(offer)
    ensures Inv(Consume(m, c))
  {
    var cart := m.carts[c];
    var o := cart.lines[cart.next].offerId;
    CartIsOk(m, c);
    ConsumedCartOk(m.offers, cart, offer);
    CartMovesOn(m, c, cart.(own := cart.own[o := offer], next := cart.next + 1), o);
  }

  lemma CartIsOk(m: Market, c: Id)
    requires Inv(m) && c in m.carts
    ensures CartOk(m.offers, m.carts[c])
  {
  }

  lemma ConsumeKeeps(m: Market, c: Id)
    requires Inv(m) && CanMove(m, ConsumeNext(c))
    ensures Inv(Consume(m, c))
  {
    var consumed := ConsumeStock(m.offers + m.carts[c].own, m.carts[c].lines[m.carts[c].next]);
    if consumed.None? {
      CartDropped(m, c);
    } else {
      ConsumeTakes(m, c, consumed.value);
    }
  }

  /** At commit the cart's rows become the committed ones and its lines become purchases. */
  lemma CommitConserves(m: Market, c: Id, orderId: Id, buyerId: Id, now: Time)
    requires Inv(m) && CanMove(m, Commit(c, orderId, buyerId, now))
    ensures Conserved(After(m, Commit(c, orderId, buyerId, now)))
  {
    var cart := m.carts[c];
    var bought := Purchases(orderId, cart.lines, 0, now);
    assert cart.lines[..cart.next] == cart.lines;
    BoughtIsPurchases(orderId, cart.lines, cart.prices, 0, now);
    forall o | o in m.offers
      ensures (m.offers + cart.own)[o].stock == m.offers[o].stock - Taken(cart.lines, o)
      ensures Held(m.purchases + bought, o) == Held(m.purchases, o) + Taken(cart.lines, o)
    {
      HeldJoins(m.purchases, bought, o);
      PurchasesHold(orderId, cart.lines, 0, now, o);
      if o !in cart.own {
        NothingTaken(cart.lines, o);
      }
    }
  }

  lemma {:induction false} OffersInHas(lines: seq<Line>, k: nat)
    requires k < |lines|
    ensures lines[k].offerId in OffersIn(lines)
  {
    if k == 0 {
    } else {
      OffersInHas(lines[1..], k - 1);
    }
  }

  lemma BoughtAreOk(after: Market, orderId: Id, lines: seq<Line>, now: Time)
    requires OffersIn(lines) <= after.offers.Keys
    ensures forall p :: p in Purchases(orderId, lines, 0, now) ==> PurchaseOk(after, p)
  {
    var bought := Purchases(orderId, lines, 0, now);
    forall p | p in bought ensures PurchaseOk(after, p) {
      var k :| 0 <= k < |bought| && bought[k] == p;
      OffersInHas(lines, k);
    }
  }

  lemma SamePurchasesOk(m: Market, after: Market)
    requires (forall p :: p in m.purchases ==> PurchaseOk(m, p)) && m.offers.Keys <= after.offers.Keys
    ensures forall p :: p in m.purchases ==> PurchaseOk(after, p)
  {
  }

  lemma CommitPurchasesOk(m: Market, c: Id, orderId: Id, buyerId: Id, now: Time)
    requires Inv(m) && CanMove(m, Commit(c, orderId, buyerId, now))
    ensures var after := After(m, Commit(c, orderId, buyerId, now));
      forall p :: p in after.purchases ==> PurchaseOk(after, p)
  {
    var cart, after := m.carts[c], After(m, Commit(c, orderId, buyerId, now));
    assert CartOk(m.offers, cart);
    assert cart.lines[..cart.next] == cart.lines;
    BoughtIsPurchases(orderId, cart.lines, cart.prices, 0, now);
    BoughtAreOk(after, orderId, cart.lines, now);
    SamePurchasesOk(m, after);
  }

  /** The other carts do not notice a commit: it writes no row they have locked. */
  lemma CommitCartsOk(m: Market, c: Id, after: Market)
    requires Inv(m) && c in m.carts && m.carts[c].Consuming?
    requires after.carts == Without(m.carts, c) && after.offers == m.offers + m.carts[c].own
    ensures (forall x :: x in after.carts ==> CartOk(after.offers, after.carts[x])) && Exclusive(after)
  {
    assert CartOk(m.offers, m.carts[c]);
    forall x | x in after.carts ensures CartOk(after.offers, after.carts[x]) {
      assert CartOk(m.offers, m.carts[x]);
      CartMissesCommit(m, c, x);
      CartsKeep(m, after.offers, x);
    }
    assert forall x, o :: LockedBy(after, x, o) ==> LockedBy(m, x, o);
  }

  lemma CartMissesCommit(m: Market, c: Id, x: Id)
    requires Exclusive(m) && c in m.carts && x in m.carts && x != c && m.carts[c].Consuming?
    requires CartOk(m.offers, m.carts[x])
    ensures forall o :: LockedBy(m, x, o) ==> o in m.offers && (m.offers + m.carts[c].own)[o] == m.offers[o]
  {
    forall o | LockedBy(m, x, o) ensures o in m.offers && (m.offers + m.carts[c].own)[o] == m.offers[o] {
      assert !LockedBy(m, c, o);
    }
  }

  lemma CommitKeeps(m: Market, c: Id, orderId: Id, buyerId: Id, now: Time)
    requires Inv(m) && CanMove(m, Commit(c, orderId, buyerId, now))
    ensures Inv(After(m, Commit(c, orderId, buyerId, now)))
  {
    var after := After(m, Commit(c, orderId, buyerId, now));
    CommitConserves(m, c, orderId, buyerId, now);
    CommitPurchasesOk(m, c, orderId, buyerId, now);
    CommitCartsOk(m, c, after);
    assert CartOk(m.offers, m.carts[c]);
  }

  /** A single-step write to one unlocked row keeps every cart. */
  lemma RowWriteKeepsCarts(m: Market, after: Market, o: Id)
    requires Inv(m) && Unlocked(m, o) && after.carts == m.carts
    requires forall x :: x in m.offers && x != o ==> x in after.offers && after.offers[x] == m.offers[x]
    ensures forall c :: c in after.carts ==> CartOk(after.offers, after.carts[c])
    ensures Exclusive(after)
  {
    forall c | c in after.carts ensures CartOk(after.offers, after.carts[c]) {
      CartsKeep(m, after.offers, c);
    }
    assert forall c, x :: LockedBy(after, c, x) <==> LockedBy(m, c, x);
  }

  lemma OfferMoveKeeps(m: Market, v: Move)
    requires Inv(m) && CanMove(m, v) && (v.CreateOffer? || v.EditOffer? || v.DeleteOffer?)
    ensures Inv(After(m, v))
  {
    var after := After(m, v);
    if v.CreateOffer? {
      assert v.offerId !in m.offers;
      NothingHeldOfUnknown(m, v.offerId);
      forall c | c in m.carts ensures !LockedBy(m, c, v.offerId) {
        assert CartOk(m.offers, m.carts[c]);
      }
    }
    RowWriteKeepsCarts(m, after, v.offerId);
  }

  lemma {:induction false} NotHeld(purchases: seq<Purchase>, o: Id)
    requires forall p :: p in purchases ==> p.item.offerId != o
    ensures Held(purchases, o) == 0
  {
    if purchases == [] {
    } else {
      assert purchases[0] in purchases;
      NotHeld(purchases[1..], o);
    }
  }

  lemma NothingHeldOfUnknown(m: Market, o: Id)
    requires Inv(m) && o !in m.offers
    ensures Held(m.purchases, o) == 0
  {
    forall p | p in m.purchases ensures p.item.offerId != o {
      assert PurchaseOk(m, p);
    }
    NotHeld(m.purchases, o);
  }

  /** Replacing a purchase by one of the same offer, restoring to stock exactly what it stops holding, conserves. */
  lemma PurchaseMoveKeeps(m: Market, after: Market, i: nat, p: Purchase, restored: nat)
    requires Inv(m) && i < |m.purchases| && PurchaseOk(m, p)
    requires p.item.offerId == m.purchases[i].item.offerId
    requires restored == 0 || Unlocked(m, p.item.offerId)
    requires after.purchases == m.purchases[i := p] && after.granted == m.granted && after.carts == m.carts
    requires after.offers == m.offers[p.item.offerId :=
      m.offers[p.item.offerId].(stock := m.offers[p.item.offerId].stock + restored)]
    requires (if HoldsStock(m.purchases[i]) then m.purchases[i].item.quantity else 0)
          == (if HoldsStock(p) then p.item.quantity else 0) + restored
    ensures Inv(after)
  {
    var o := p.item.offerId;
    forall x | x in after.offers ensures after.offers[x].stock + Held(after.purchases, x) == after.granted[x] {
      HeldAt(m.purchases, i, p, x);
    }
    forall q | q in after.purchases ensures PurchaseOk(after, q) {
      assert q == p || q in m.purchases;
      assert PurchaseOk(m, q);
    }
    if restored == 0 {
      assert after.offers == m.offers;
      assert forall c, x :: LockedBy(after, c, x) <==> LockedBy(m, c, x);
    } else {
      RowWriteKeepsCarts(m, after, o);
    }
  }

  lemma CancelKeeps(m: Market, i: nat, who: Participant, now: Time)
    requires Inv(m) && CanMove(m, CancelPurchase(i, who, now))
    ensures Inv(After(m, CancelPurchase(i, who, now)))
  {
    var p := m.purchases[i];
    assert PurchaseOk(m, p);
    match CancelItem(i, p.item, who, now)
    case Refused =>
    case Moved(item, events) =>
      if events != [] {
        var q := p.(item := item, cancelledFrom := Some(p.item.status));
        PurchaseMoveKeeps(m, After(m, CancelPurchase(i, who, now)), i, q,
                          if RestoresStock(p.item.status) then p.item.quantity else 0);
      }
  }

  lemma AdvanceKeeps(m: Market, i: nat, target: ItemStatus, now: Time)
    requires Inv(m) && CanMove(m, AdvancePurchase(i, target, now))
    ensures Inv(After(m, AdvancePurchase(i, target, now)))
  {
    var p := m.purchases[i];
    assert PurchaseOk(m, p);
    match AdvanceItem(i, p.item, target, now)
    case Refused =>
    case Moved(item, events) =>
      assert m.offers[p.item.offerId := m.offers[p.item.offerId]] == m.offers;
      PurchaseMoveKeeps(m, After(m, AdvancePurchase(i, target, now)), i, p.(item := item), 0);
  }

  lemma MoveKeeps(m: Market, v: Move)
    requires Inv(m) && CanMove(m, v)
    ensures Inv(After(m, v))
  {
    match v
    case CreateOffer(_, _) => OfferMoveKeeps(m, v);
    case EditOffer(_, _, _, _) => OfferMoveKeeps(m, v);
    case DeleteOffer(_) => OfferMoveKeeps(m, v);
    case Begin(c, _) => OnlyCartsMove(m, After(m, v), c);
    case ValidateNext(c) => ValidateKeeps(m, c);
    case StartConsuming(c) => StartKeeps(m, c);
    case ConsumeNext(c) => ConsumeKeeps(m, c);
    case Commit(c, orderId, buyerId, now) => CommitKeeps(m, c, orderId, buyerId, now);
    case Abort(c) => CartDropped(m, c);
    case AdvancePurchase(i, target, now) => AdvanceKeeps(m, i, target, now);
    case CancelPurchase(i, who, now) => CancelKeeps(m, i, who, now);
  }
}
