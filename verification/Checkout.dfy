/** Atomic purchase, app/orders/checkout.py, and the stock side of app/orders/routes.py. */
module Checkout {
  import opened Options
  import opened Policy
  import opened Records

  datatype Offer = Offer(price: int, stock: int, available: bool)

  datatype Line = Line(offerId: Id, quantity: nat, expectedPrice: int)

  datatype Cause = Missing | Unavailable | InsufficientStock | PriceChanged

  /** A line that needs review, with the offer as it was found, if it was found. */
  datatype Rejection = Rejection(line: Line, cause: Cause, offer: Option<Offer>)

  /** A purchased line. `cancelledFrom` remembers the status a cancelled item was cancelled in. */
  datatype Purchase = Purchase(orderId: Id, line: nat, item: Item, cancelledFrom: Option<ItemStatus>)

  function Find(offers: map<Id, Offer>, id: Id): Option<Offer> {
    if id in offers then Some(offers[id]) else None
  }

  function ValidateItem(offers: map<Id, Offer>, line: Line): Option<Rejection> {
    match Find(offers, line.offerId)
    case None => Some(Rejection(line, Missing, None))
    case Some(offer) =>
      if !offer.available then Some(Rejection(line, Unavailable, Some(offer)))
      else if offer.stock < line.quantity then Some(Rejection(line, InsufficientStock, Some(offer)))
      else if offer.price != line.expectedPrice then Some(Rejection(line, PriceChanged, Some(offer)))
      else None
  }

  /** The conditional UPDATE: the offer with its stock reduced, if the WHERE clause matches it. */
  function ConsumeStock(offers: map<Id, Offer>, line: Line): Option<Offer> {
    match Find(offers, line.offerId)
    case None => None
    case Some(offer) =>
      if offer.stock >= line.quantity && offer.available then Some(offer.(stock := offer.stock - line.quantity)) else None
  }

  function ProblemIn(offers: map<Id, Offer>): Line -> Option<Rejection> {
    (line: Line) => ValidateItem(offers, line)
  }

  /** First phase: the invalid lines, in payload order. */
  function Problems(offers: map<Id, Offer>, lines: seq<Line>): seq<Rejection> {
    Collect(ProblemIn(offers), lines)
  }

  /** What a buyer may take for granted of an accepted line: the offer is there and on sale, has enough in stock, and costs what was expected. */
  predicate Buyable(offers: map<Id, Offer>, line: Line) {
    && line.offerId in offers && offers[line.offerId].available
    && line.quantity <= offers[line.offerId].stock && offers[line.offerId].price == line.expectedPrice
  }

  /** A line is rejected exactly if it is not buyable, and the cause says which condition of the offer fails first. */
  lemma RejectedExactly(offers: map<Id, Offer>, line: Line)
    ensures ValidateItem(offers, line).None? <==> Buyable(offers, line)
    ensures ValidateItem(offers, line).Some? ==>
      var r, there := ValidateItem(offers, line).value, line.offerId in offers;
      && r.line == line && r.offer == (if there then Some(offers[line.offerId]) else None)
      && (r.cause == Missing <==> !there)
      && (r.cause == Unavailable <==> there && !offers[line.offerId].available)
      && (r.cause == InsufficientStock <==>
            there && offers[line.offerId].available && line.quantity > offers[line.offerId].stock)
      && (r.cause == PriceChanged <==>
            there && offers[line.offerId].available && line.quantity <= offers[line.offerId].stock
            && offers[line.offerId].price != line.expectedPrice)
  {
  }

  function LineOf(): Rejection -> Option<Line> {
    (r: Rejection) => Some(r.line)
  }

  function NotBuyable(offers: map<Id, Offer>): Line -> Option<Line> {
    (line: Line) => if Buyable(offers, line) then None else Some(line)
  }

  /** The rejections are of exactly the lines that are not buyable, in payload order. */
  lemma {:induction false} ProblemsListNotBuyable(offers: map<Id, Offer>, lines: seq<Line>)
    ensures Collect(LineOf(), Problems(offers, lines)) == Collect(NotBuyable(offers), lines)
  {
    if lines == [] {
    } else {
      var first := AsSeq(ValidateItem(offers, lines[0]));
      RejectedExactly(offers, lines[0]);
      ProblemsListNotBuyable(offers, lines[1..]);
      CollectConcat(LineOf(), first, Problems(offers, lines[1..]));
      assert Collect(LineOf(), first) == AsSeq(NotBuyable(offers)(lines[0]));
    }
  }

  /** A conditional UPDATE matches exactly an offer on sale with enough in stock, and takes from its stock only. */
  lemma ConsumesExactly(offers: map<Id, Offer>, line: Line)
    ensures ConsumeStock(offers, line).Some? <==>
      line.offerId in offers && offers[line.offerId].available && line.quantity <= offers[line.offerId].stock
    ensures ConsumeStock(offers, line).Some? ==>
      var before, after := offers[line.offerId], ConsumeStock(offers, line).value;
      after.stock + line.quantity == before.stock && after.price == before.price && after.available == before.available
  {
  }

  datatype Consumption = Consumed(offers: map<Id, Offer>) | Short(line: Line, found: Option<Offer>)

  /** Second phase: one conditional UPDATE for each line, stopping at the first that matches no row. */
  function ConsumeAll(offers: map<Id, Offer>, lines: seq<Line>): Consumption {
    if lines == [] then Consumed(offers)
    else
      match ConsumeStock(offers, lines[0])
      case None => Short(lines[0], Find(offers, lines[0].offerId))
      case Some(offer) => ConsumeAll(offers[lines[0].offerId := offer], lines[1..])
  }

  /** The purchases of an order: lines numbered from one in payload order, each at the price the buyer expected. */
  function Purchases(orderId: Id, lines: seq<Line>, from: nat, now: Time): (r: seq<Purchase>)
    ensures |r| == |lines|
    ensures forall k :: 0 <= k < |lines| ==>
      r[k] == Purchase(orderId, from + k + 1,
                       Item(lines[k].offerId, lines[k].quantity, lines[k].expectedPrice, Placed, now, now), None)
  {
    if lines == [] then []
    else [Purchase(orderId, from + 1, Item(lines[0].offerId, lines[0].quantity, lines[0].expectedPrice, Placed, now, now), None)]
         + Purchases(orderId, lines[1..], from + 1, now)
  }

  // ------------------------------------------------------------------ accounting

  /** Quantity the lines take from an offer. */
  function Taken(lines: seq<Line>, offerId: Id): nat {
    if lines == [] then 0
    else (if lines[0].offerId == offerId then lines[0].quantity else 0) + Taken(lines[1..], offerId)
  }

  /** A purchase keeps its quantity out of stock unless it was cancelled before leaving the seller. */
  predicate HoldsStock(p: Purchase) {
    if p.item.status == Cancelled then p.cancelledFrom == Some(InTransit) else true
  }

  /** Quantity of an offer that the purchases keep out of stock. */
  function Held(purchases: seq<Purchase>, offerId: Id): nat {
    if purchases == [] then 0
    else (if purchases[0].item.offerId == offerId && HoldsStock(purchases[0]) then purchases[0].item.quantity else 0)
         + Held(purchases[1..], offerId)
  }

  lemma {:induction false} HeldJoins(a: seq<Purchase>, b: seq<Purchase>, offerId: Id)
    ensures Held(a + b, offerId) == Held(a, offerId) + Held(b, offerId)
  {
    if a == [] {
      assert a + b == b;
    } else {
      HeldJoins(a[1..], b, offerId);
      assert (a + b)[1..] == a[1..] + b;
    }
  }

  /** Replacing one purchase moves the held quantity by what that purchase holds before and after. */
  lemma {:induction false} HeldAt(purchases: seq<Purchase>, i: nat, p: Purchase, offerId: Id)
    requires i < |purchases|
    ensures Held(purchases[i := p], offerId) + Held([purchases[i]], offerId)
         == Held(purchases, offerId) + Held([p], offerId)
  {
    if i == 0 {
      assert purchases[0 := p][1..] == purchases[1..];
    } else {
      HeldAt(purchases[1..], i - 1, p, offerId);
      assert purchases[i := p][1..] == purchases[1..][i - 1 := p];
    }
  }

  lemma {:induction false} TakenJoins(a: seq<Line>, b: seq<Line>, offerId: Id)
    ensures Taken(a + b, offerId) == Taken(a, offerId) + Taken(b, offerId)
  {
    if a == [] {
      assert a + b == b;
    } else {
      TakenJoins(a[1..], b, offerId);
      assert (a + b)[1..] == a[1..] + b;
    }
  }

  lemma {:induction false} TakenByPresence(lines: seq<Line>, offerId: Id)
    ensures forall l :: l in lines && l.offerId == offerId ==> l.quantity <= Taken(lines, offerId)
    ensures (forall l :: l in lines ==> l.offerId != offerId) ==> Taken(lines, offerId) == 0
  {
    if lines == [] {
    } else {
      TakenByPresence(lines[1..], offerId);
      assert forall l :: l in lines <==> l == lines[0] || l in lines[1..];
    }
  }

  /** New purchases hold exactly what their lines took. */
  lemma {:induction false} PurchasesHold(orderId: Id, lines: seq<Line>, from: nat, now: Time, offerId: Id)
    ensures Held(Purchases(orderId, lines, from, now), offerId) == Taken(lines, offerId)
    decreases |lines|
  {
    if lines == [] {
    } else {
      PurchasesHold(orderId, lines[1..], from + 1, now, offerId);
      assert Purchases(orderId, lines, from, now)[1..] == Purchases(orderId, lines[1..], from + 1, now);
    }
  }

  // ------------------------------------------------------------------ when a checkout goes through

  predicate OnSale(offers: map<Id, Offer>, lines: seq<Line>) {
    forall l :: l in lines ==> l.offerId in offers && offers[l.offerId].available
  }

  /** Every offer has in stock what all the lines together take from it. */
  predicate Covered(offers: map<Id, Offer>, lines: seq<Line>) {
    forall l :: l in lines && l.offerId in offers ==> Taken(lines, l.offerId) <= offers[l.offerId].stock
  }

  /** What the UPDATEs leave: each stock less what was taken, everything else as it was. */
  predicate Reduced(before: map<Id, Offer>, after: map<Id, Offer>, lines: seq<Line>) {
    && after.Keys == before.Keys
    && forall id :: id in before ==> after[id] == before[id].(stock := before[id].stock - Taken(lines, id))
  }

  /** Offers on sale: consuming in order succeeds exactly when every stock covers its lines together. */
  lemma {:induction false} ConsumeAllExactly(offers: map<Id, Offer>, lines: seq<Line>)
    requires OnSale(offers, lines)
    ensures ConsumeAll(offers, lines).Consumed? <==> Covered(offers, lines)
    ensures ConsumeAll(offers, lines).Consumed? ==> Reduced(offers, ConsumeAll(offers, lines).offers, lines)
    decreases |lines|
  {
    if lines == [] {
    } else {
      var first, rest := lines[0], lines[1..];
      assert first in lines;
      TakenByPresence(lines, first.offerId);
      if offers[first.offerId].stock >= first.quantity {
        var next := offers[first.offerId := ConsumeStock(offers, first).value];
        assert OnSale(next, rest);
        ConsumeAllExactly(next, rest);
        CoveredAfterFirst(offers, lines);
      }
    }
  }

  lemma CoveredAfterFirst(offers: map<Id, Offer>, lines: seq<Line>)
    requires lines != [] && OnSale(offers, lines) && offers[lines[0].offerId].stock >= lines[0].quantity
    ensures var next := offers[lines[0].offerId := ConsumeStock(offers, lines[0]).value];
      Covered(next, lines[1..]) <==> Covered(offers, lines)
  {
    var first, rest := lines[0], lines[1..];
    var next := offers[first.offerId := ConsumeStock(offers, first).value];
    assert first in lines;
    assert forall l :: l in lines <==> l == first || l in rest;
    if Covered(next, rest) {
      forall l | l in lines && l.offerId in offers ensures Taken(lines, l.offerId) <= offers[l.offerId].stock {
        TakenByPresence(rest, l.offerId);
        if k :| k in rest && k.offerId == l.offerId {
          assert Taken(rest, k.offerId) <= next[k.offerId].stock;
        }
      }
    }
    if Covered(offers, lines) {
      forall l | l in rest && l.offerId in next ensures Taken(rest, l.offerId) <= next[l.offerId].stock {
        assert l in lines;
      }
    }
  }

  predicate Valid(offers: map<Id, Offer>, lines: seq<Line>) {
    forall l :: l in lines ==> ValidateItem(offers, l).None?
  }

  predicate DistinctOffers(lines: seq<Line>) {
    forall i, j :: 0 <= i < j < |lines| ==> lines[i].offerId != lines[j].offerId
  }

  lemma {:induction false} NoProblemsMeansValid(offers: map<Id, Offer>, lines: seq<Line>)
    ensures Problems(offers, lines) == [] <==> Valid(offers, lines)
  {
    if lines == [] {
    } else {
      NoProblemsMeansValid(offers, lines[1..]);
      assert forall l :: l in lines <==> l == lines[0] || l in lines[1..];
      assert Problems(offers, lines) == AsSeq(ValidateItem(offers, lines[0])) + Problems(offers, lines[1..]);
    }
  }

  lemma {:induction false} DistinctTakes(lines: seq<Line>, i: nat)
    requires DistinctOffers(lines) && i < |lines|
    ensures Taken(lines, lines[i].offerId) == lines[i].quantity
  {
    if i == 0 {
      forall l | l in lines[1..] ensures l.offerId != lines[0].offerId {
        var k :| 0 <= k < |lines[1..]| && lines[1..][k] == l;
        assert lines[k + 1] == l;
      }
      TakenByPresence(lines[1..], lines[0].offerId);
    } else {
      assert lines[1..][i - 1] == lines[i];
      DistinctTakes(lines[1..], i - 1);
    }
  }

  /**
   Nothing interfering, a checkout whose lines all validate goes through exactly when each stock covers
   all the lines on it together; with one line for each offer, as the API demands, it always does.
   */
  lemma ValidatedCheckoutGoesThrough(offers: map<Id, Offer>, lines: seq<Line>)
    requires Valid(offers, lines)
    ensures ConsumeAll(offers, lines).Consumed? <==> Covered(offers, lines)
    ensures ConsumeAll(offers, lines).Consumed? ==> Reduced(offers, ConsumeAll(offers, lines).offers, lines)
    ensures DistinctOffers(lines) ==> ConsumeAll(offers, lines).Consumed?
  {
    assert OnSale(offers, lines);
    ConsumeAllExactly(offers, lines);
    if DistinctOffers(lines) {
      forall l | l in lines && l.offerId in offers ensures Taken(lines, l.offerId) <= offers[l.offerId].stock {
        var i :| 0 <= i < |lines| && lines[i] == l;
        DistinctTakes(lines, i);
      }
    }
  }

  /** Two lines on one offer can both validate and still be refused together. */
  lemma RepeatedOfferCanFallShort()
    ensures var offers := map[0 := Offer(100, 5, true)];
      var lines := [Line(0, 3, 100), Line(0, 3, 100)];
      Valid(offers, lines) && ConsumeAll(offers, lines).Short?
  {
  }
}
