/**
 Checkouts as they interleave. A checkout is many steps: it reads its offers one by one, then runs one
 conditional UPDATE per line, each of which locks its offer's row until the transaction commits or is
 rolled back. Cancels, advances and sellers' edits are single steps that need the row they write unlocked.
 */
module Market {
  import opened Options
  import opened Policy
  import opened Records
  import opened ItemStatuses
  import opened Checkout

  /** One checkout in progress; `own` holds the rows it has updated and locked, as it sees them. */
  datatype Cart =
    | Validating(lines: seq<Line>, read: seq<Offer>, problems: seq<Rejection>, next: nat)
    | Consuming(lines: seq<Line>, prices: seq<int>, own: map<Id, Offer>, next: nat)

  /** `granted` records, for each offer, its initial stock plus the net of its seller's stock edits. */
  datatype Market = Market(offers: map<Id, Offer>, granted: map<Id, int>, purchases: seq<Purchase>,
                           log: seq<Event>, carts: map<Id, Cart>)

  datatype Move =
    | CreateOffer(offerId: Id, offer: Offer)
    | EditOffer(offerId: Id, newPrice: Option<int>, newStock: Option<nat>, newAvailable: Option<bool>)
    | DeleteOffer(offerId: Id)
    | Begin(cart: Id, lines: seq<Line>)
    | ValidateNext(cart: Id)
    | StartConsuming(cart: Id)
    | ConsumeNext(cart: Id)
    | Commit(cart: Id, orderId: Id, buyerId: Id, now: Time)
    | Abort(cart: Id)
    | AdvancePurchase(index: nat, target: ItemStatus, now: Time)
    | CancelPurchase(index: nat, who: Participant, now: Time)

  predicate LockedBy(m: Market, cart: Id, offerId: Id) {
    cart in m.carts && m.carts[cart].Consuming? && offerId in m.carts[cart].own
  }

  predicate Unlocked(m: Market, offerId: Id) {
    forall cart :: cart in m.carts ==> !LockedBy(m, cart, offerId)
  }

  /** The step can be taken now: its objects exist, ids are fresh, and the rows it writes are not locked by others. */
  predicate CanMove(m: Market, v: Move) {
    match v
    case CreateOffer(o, offer) => o !in m.granted && offer.stock >= 0
    case EditOffer(o, _, _, _) => o in m.offers && Unlocked(m, o)
    case DeleteOffer(o) => o in m.offers && Unlocked(m, o) && (forall p :: p in m.purchases ==> p.item.offerId != o)
    case Begin(c, lines) => c !in m.carts
    case ValidateNext(c) => c in m.carts && m.carts[c].Validating? && m.carts[c].next < |m.carts[c].lines|
    case StartConsuming(c) =>
      && c in m.carts && m.carts[c].Validating? && m.carts[c].next == |m.carts[c].lines| && m.carts[c].problems == []
    case ConsumeNext(c) =>
      && c in m.carts && m.carts[c].Consuming? && m.carts[c].next < |m.carts[c].lines|
      && (LockedBy(m, c, m.carts[c].lines[m.carts[c].next].offerId)
          || Unlocked(m, m.carts[c].lines[m.carts[c].next].offerId))
    case Commit(c, _, _, _) => c in m.carts && m.carts[c].Consuming? && m.carts[c].next == |m.carts[c].lines|
    case Abort(c) => c in m.carts
    case AdvancePurchase(i, _, _) => i < |m.purchases|
    case CancelPurchase(i, _, _) => i < |m.purchases| && Unlocked(m, m.purchases[i].item.offerId)
  }

  function Edited(offer: Offer, price: Option<int>, stock: Option<nat>, available: Option<bool>): Offer {
    Offer(if price.Some? then price.value else offer.price,
          if stock.Some? then stock.value else offer.stock,
          if available.Some? then available.value else offer.available)
  }

  function Validate(m: Market, cart: Cart): Cart
    requires cart.Validating? && cart.next < |cart.lines|
  {
    var line := cart.lines[cart.next];
    match ValidateItem(m.offers, line)
    case Some(problem) => cart.(problems := cart.problems + [problem], next := cart.next + 1)
    case None => cart.(read := cart.read + [m.offers[line.offerId]], next := cart.next + 1)
  }

  function Without<K, V>(m: map<K, V>, k: K): map<K, V> {
    map x | x in m && x != k :: m[x]
  }

  /** The next line's conditional UPDATE, run on the rows as the cart's transaction sees them. A refused UPDATE rolls the whole transaction back, which drops its cart and its locks. */
  function Consume(m: Market, c: Id): Market
    requires CanMove(m, ConsumeNext(c))
  {
    var cart := m.carts[c];
    var line := cart.lines[cart.next];
    match ConsumeStock(m.offers + cart.own, line)
    case None => m.(carts := Without(m.carts, c))
    case Some(offer) => m.(carts := m.carts[c := cart.(own := cart.own[line.offerId := offer], next := cart.next + 1)])
  }

  function PricesOf(read: seq<Offer>): seq<int> {
    seq(|read|, i requires 0 <= i < |read| => read[i].price)
  }

  function CommitCart(m: Market, c: Id, orderId: Id, buyerId: Id, now: Time): Market
    requires CanMove(m, Commit(c, orderId, buyerId, now))
  {
    var cart := m.carts[c];
    Market(m.offers + cart.own, m.granted, m.purchases + Bought(orderId, cart.lines, cart.prices, 0, now),
           m.log + [OrderCreated(orderId, buyerId)], Without(m.carts, c))
  }

  /** The purchases a cart inserts, at the prices of the offers as it read them. */
  function Bought(orderId: Id, lines: seq<Line>, prices: seq<int>, from: nat, now: Time): seq<Purchase> {
    if lines == [] || prices == [] then []
    else [Purchase(orderId, from + 1, Item(lines[0].offerId, lines[0].quantity, prices[0], Placed, now, now), None)]
         + Bought(orderId, lines[1..], prices[1..], from + 1, now)
  }

  function CancelAt(m: Market, i: nat, who: Participant, now: Time): Market
    requires i < |m.purchases|
  {
    var p := m.purchases[i];
    match CancelItem(i, p.item, who, now)
    case Refused => m
    case Moved(item, events) =>
      if events == [] then m
      else
        var cancelled := m.(purchases := m.purchases[i := p.(item := item, cancelledFrom := Some(p.item.status))],
                            log := m.log + events);
        if RestoresStock(p.item.status) && p.item.offerId in m.offers then
          cancelled.(offers := m.offers[p.item.offerId :=
            m.offers[p.item.offerId].(stock := m.offers[p.item.offerId].stock + p.item.quantity)])
        else cancelled
  }

  function AdvanceAt(m: Market, i: nat, target: ItemStatus, now: Time): Market
    requires i < |m.purchases|
  {
    match AdvanceItem(i, m.purchases[i].item, target, now)
    case Refused => m
    case Moved(item, events) =>
      m.(purchases := m.purchases[i := m.purchases[i].(item := item)], log := m.log + events)
  }

  /** The market after one step. */
  function After(m: Market, v: Move): Market
    requires CanMove(m, v)
  {
    match v
    case CreateOffer(o, offer) => m.(offers := m.offers[o := offer], granted := m.granted[o := offer.stock])
    case EditOffer(o, price, stock, available) =>
      var after := Edited(m.offers[o], price, stock, available);
      m.(offers := m.offers[o := after],
         granted := m.granted[o := (if o in m.granted then m.granted[o] else 0) + after.stock - m.offers[o].stock])
    case DeleteOffer(o) => m.(offers := Without(m.offers, o))
    case Begin(c, lines) => m.(carts := m.carts[c := Validating(lines, [], [], 0)])
    case ValidateNext(c) => m.(carts := m.carts[c := Validate(m, m.carts[c])])
    case StartConsuming(c) => m.(carts := m.carts[c := Consuming(m.carts[c].lines, PricesOf(m.carts[c].read), map[], 0)])
    case ConsumeNext(c) => Consume(m, c)
    case Commit(c, orderId, buyerId, now) => CommitCart(m, c, orderId, buyerId, now)
    case Abort(c) => m.(carts := Without(m.carts, c))
    case AdvancePurchase(i, target, now) => AdvanceAt(m, i, target, now)
    case CancelPurchase(i, who, now) => CancelAt(m, i, who, now)
  }
}
