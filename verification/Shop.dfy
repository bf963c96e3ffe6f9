/**
 Checkout and cancel as the backend runs them, in place: a session that reads and updates rows, and a
 shop that commits and publishes what a session did or drops all of it.
 */
module Shop {
  import opened Options
  import opened Policy
  import opened Records
  import opened ItemStatuses
  import opened Checkout
  import opened Market
  import opened MarketInvariant

  datatype Receipt = Accepted | Rejected(problems: seq<Rejection>)

  /** What a buyer is told when no other transaction interferes. */
  function ReceiptFor(offers: map<Id, Offer>, lines: seq<Line>): Receipt {
    if Problems(offers, lines) != [] then Rejected(Problems(offers, lines))
    else
      match ConsumeAll(offers, lines)
      case Consumed(_) => Accepted
      case Short(line, found) => Rejected([Rejection(line, InsufficientStock, found)])
  }

  /** With nobody in between, a checkout is accepted exactly if each line is buyable and each stock covers its lines together. */
  lemma AcceptedExactly(offers: map<Id, Offer>, lines: seq<Line>)
    ensures ReceiptFor(offers, lines).Accepted? <==>
      (forall l :: l in lines ==> Buyable(offers, l)) && Covered(offers, lines)
  {
    NoProblemsMeansValid(offers, lines);
    forall l | l in lines ensures ValidateItem(offers, l).None? <==> Buyable(offers, l) {
      RejectedExactly(offers, l);
    }
    if Problems(offers, lines) == [] {
      ValidatedCheckoutGoesThrough(offers, lines);
    }
  }

  /** With one line for each offer, as the API demands, exactly if each line is buyable. */
  lemma DistinctAcceptedExactly(offers: map<Id, Offer>, lines: seq<Line>)
    requires forall i, j :: 0 <= i < j < |lines| ==> lines[i].offerId != lines[j].offerId
    ensures ReceiptFor(offers, lines).Accepted? <==>
      forall l :: l in lines ==>
        && l.offerId in offers && offers[l.offerId].available
        && l.quantity <= offers[l.offerId].stock && offers[l.offerId].price == l.expectedPrice
  {
    AcceptedExactly(offers, lines);
    NoProblemsMeansValid(offers, lines);
    forall l | l in lines ensures ValidateItem(offers, l).None? <==> Buyable(offers, l) {
      RejectedExactly(offers, l);
    }
    if Problems(offers, lines) == [] {
      ValidatedCheckoutGoesThrough(offers, lines);
    }
  }

  lemma ProblemsGrow(offers: map<Id, Offer>, lines: seq<Line>, i: nat)
    requires i < |lines|
    ensures Problems(offers, lines[..i + 1]) == Problems(offers, lines[..i]) + AsSeq(ValidateItem(offers, lines[i]))
  {
    assert lines[..i + 1] == lines[..i] + [lines[i]];
    CollectConcat(ProblemIn(offers), lines[..i], [lines[i]]);
    CollectOne(ProblemIn(offers), lines[i]);
  }

  lemma OneMoreRead(lines: seq<Line>, read: seq<Offer>, offer: Offer)
    requires PricesOk(lines, PricesOf(read)) && |read| < |lines| && offer.price == lines[|read|].expectedPrice
    ensures PricesOk(lines, PricesOf(read + [offer]))
  {
    assert PricesOf(read + [offer]) == PricesOf(read) + [offer.price];
  }

  class Till {
    var offers: map<Id, Offer>
    var purchases: seq<Purchase>
    var pending: seq<Event>

    constructor (offers: map<Id, Offer>, purchases: seq<Purchase>)
      ensures this.offers == offers && this.purchases == purchases && pending == []
    {
      this.offers, this.purchases, pending := offers, purchases, [];
    }

    method Consume(line: Line) returns (ok: bool)
      modifies this`offers
      ensures ok <==> ConsumeStock(old(offers), line).Some?
      ensures offers == if ok then old(offers)[line.offerId := ConsumeStock(old(offers), line).value] else old(offers)
    {
      ok := line.offerId in offers && offers[line.offerId].stock >= line.quantity && offers[line.offerId].available;
      if ok {
        offers := offers[line.offerId := offers[line.offerId].(stock := offers[line.offerId].stock - line.quantity)];
      }
    }

    /** First pass: every line is looked at, and the rejected ones are collected in payload order. */
    method ValidateAll(lines: seq<Line>) returns (problems: seq<Rejection>, read: seq<Offer>)
      ensures problems == Problems(offers, lines)
      ensures problems == [] ==> |read| == |lines| && PricesOk(lines, PricesOf(read))
    {
      problems, read := [], [];
      var i := 0;
      while i < |lines|
        invariant 0 <= i <= |lines|
        invariant problems == Problems(offers, lines[..i])
        invariant problems == [] ==> |read| == i && PricesOk(lines, PricesOf(read))
      {
        ProblemsGrow(offers, lines, i);
        var problem := ValidateItem(offers, lines[i]);
        if problem.Some? {
          problems := problems + [problem.value];
        } else {
          if problems == [] {
            OneMoreRead(lines, read, offers[lines[i].offerId]);
          }
          read := read + [offers[lines[i].offerId]];
        }
        i := i + 1;
      }
      assert lines[..i] == lines;
    }

    /** Second pass: one conditional UPDATE and one new row for each line, up to the first refusal. */
    method ConsumeEach(lines: seq<Line>, read: seq<Offer>, orderId: Id, now: Time) returns (short: Option<Line>)
      requires |read| == |lines| && PricesOk(lines, PricesOf(read))
      modifies this
      ensures pending == old(pending)
      ensures match ConsumeAll(old(offers), lines)
              case Consumed(after) =>
                short.None? && offers == after && purchases == old(purchases) + Purchases(orderId, lines, 0, now)
              case Short(line, found) => short == Some(line) && Find(offers, line.offerId) == found
    {
      ghost var goal := ConsumeAll(offers, lines);
      var i := 0;
      while i < |lines|
        invariant 0 <= i <= |lines|
        invariant pending == old(pending)
        invariant ConsumeAll(offers, lines[i..]) == goal
        invariant purchases + Purchases(orderId, lines[i..], i, now) == old(purchases) + Purchases(orderId, lines, 0, now)
      {
        var line := lines[i];
        assert lines[i..][0] == line && lines[i..][1..] == lines[i + 1..];
        var ok := Consume(line);
        if !ok {
          return Some(line);
        }
        assert PricesOf(read)[i] == line.expectedPrice;
        var item := Item(line.offerId, line.quantity, read[i].price, Placed, now, now);
        Regroup(purchases, Purchase(orderId, i + 1, item, None), Purchases(orderId, lines[i + 1..], i + 1, now));
        purchases := purchases + [Purchase(orderId, i + 1, item, None)];
        i := i + 1;
      }
      return None;
    }

    method PlaceOrder(buyerId: Id, lines: seq<Line>, orderId: Id, now: Time) returns (r: Receipt)
      requires pending == []
      modifies this
      ensures r == ReceiptFor(old(offers), lines)
      ensures r.Accepted? ==> offers == ConsumeAll(old(offers), lines).offers
      ensures r.Accepted? ==> purchases == old(purchases) + Purchases(orderId, lines, 0, now)
      ensures r.Accepted? ==> pending == [OrderCreated(orderId, buyerId)]
    {
      var problems, read := ValidateAll(lines);
      if problems != [] {
        return Rejected(problems);
      }
      var short := ConsumeEach(lines, read, orderId, now);
      match short
      case Some(line) =>
        return Rejected([Rejection(line, InsufficientStock, Find(offers, line.offerId))]);
      case None =>
        pending := pending + [OrderCreated(orderId, buyerId)];
        return Accepted;
    }

    method UpdateOrderItemStatus(i: nat, target: ItemStatus, now: Time) returns (ok: bool)
      requires i < |purchases| && pending == []
      modifies this`purchases, this`pending
      ensures ok <==> AdvanceItem(i, old(purchases[i].item), target, now).Moved?
      ensures ok ==> var before := Market(offers, map[], old(purchases), [], map[]);
                     AdvanceAt(before, i, target, now) == Market(offers, map[], purchases, pending, map[])
    {
      var p := purchases[i];
      if target == p.item.status {
        assert purchases[i := p] == purchases;
        return true;
      }
      if Forward(p.item.status) != Some(target) {
        return false;
      }
      purchases := purchases[i := p.(item := p.item.(status := target, updatedAt := now, statusUpdatedAt := now))];
      pending := pending + [ItemStatusChanged(i, p.item.status, target)];
      return true;
    }

    method CancelOrderItem(i: nat, who: Participant, now: Time) returns (ok: bool)
      requires i < |purchases| && pending == []
      modifies this
      ensures ok <==> CancelItem(i, old(purchases[i].item), who, now).Moved?
      ensures ok ==> var before := Market(old(offers), map[], old(purchases), [], map[]);
                     CancelAt(before, i, who, now) == Market(offers, map[], purchases, pending, map[])
    {
      var p := purchases[i];
      if p.item.status == Cancelled {
        return true;
      }
      if !CanCancel(p.item.status, who) {
        return false;
      }
      var restore := RestoresStock(p.item.status);
      var item := p.item.(status := Cancelled, updatedAt := now, statusUpdatedAt := now);
      purchases := purchases[i := Purchase(p.orderId, p.line, item, Some(p.item.status))];
      if restore && item.offerId in offers {
        offers := offers[item.offerId := offers[item.offerId].(stock := offers[item.offerId].stock + item.quantity)];
      }
      pending := pending + [ItemCancelled(i, restore)];
      pending := pending + [ItemStatusChanged(i, p.item.status, Cancelled)];
      return true;
    }
  }

  lemma Regroup(a: seq<Purchase>, p: Purchase, b: seq<Purchase>)
    ensures a + ([p] + b) == (a + [p]) + b
  {
  }

  class Shop {
    var offers: map<Id, Offer>
    var purchases: seq<Purchase>
    var published: seq<Event>
    ghost var granted: map<Id, int>

    /** The committed tables, with no checkout under way. */
    ghost function View(): Market
      reads this
    {
      Market(offers, granted, purchases, published, map[])
    }

    constructor ()
      ensures View() == Market(map[], map[], [], [], map[])
    {
      offers, purchases, published, granted := map[], [], [], map[];
    }

    method Commit(till: Till)
      modifies this`offers, this`purchases, this`published
      ensures offers == till.offers && purchases == till.purchases && published == old(published) + till.pending
    {
      offers, purchases, published := till.offers, till.purchases, published + till.pending;
    }

    /** A rejected checkout leaves tables and log as they were; an accepted one commits the whole order. */
    method PlaceOrder(buyerId: Id, lines: seq<Line>, orderId: Id, now: Time) returns (r: Receipt)
      modifies this`offers, this`purchases, this`published
      ensures r == ReceiptFor(old(offers), lines)
      ensures r.Rejected? ==> View() == old(View())
      ensures r.Accepted? ==> View() == old(View()).(offers := ConsumeAll(old(offers), lines).offers,
                                                     purchases := old(purchases) + Purchases(orderId, lines, 0, now),
                                                     log := old(published) + [OrderCreated(orderId, buyerId)])
    {
      var till := new Till(offers, purchases);
      r := till.PlaceOrder(buyerId, lines, orderId, now);
      if r.Accepted? {
        Commit(till);
      }
    }

    method UpdateOrderItemStatus(i: nat, target: ItemStatus, now: Time) returns (ok: bool)
      requires i < |purchases|
      modifies this`offers, this`purchases, this`published
      ensures View() == AdvanceAt(old(View()), i, target, now)
      ensures ok <==> AdvanceItem(i, old(purchases[i].item), target, now).Moved?
    {
      var till := new Till(offers, purchases);
      ok := till.UpdateOrderItemStatus(i, target, now);
      if ok {
        Commit(till);
      }
    }

    method CancelOrderItem(i: nat, who: Participant, now: Time) returns (ok: bool)
      requires i < |purchases|
      modifies this`offers, this`purchases, this`published
      ensures View() == CancelAt(old(View()), i, who, now)
      ensures ok <==> CancelItem(i, old(purchases[i].item), who, now).Moved?
    {
      var till := new Till(offers, purchases);
      ok := till.CancelOrderItem(i, who, now);
      if ok {
        Commit(till);
      }
    }

    method UpdateOffer(o: Id, price: Option<int>, stock: Option<nat>, available: Option<bool>) returns (ok: bool)
      modifies this`offers, this`granted
      ensures ok <==> o in old(offers)
      ensures View() == if ok then After(old(View()), EditOffer(o, price, stock, available)) else old(View())
    {
      ok := o in offers;
      if ok {
        var offer := offers[o];
        granted := granted[o := (if o in granted then granted[o] else 0) - offer.stock];
        if price.Some? {
          offer := offer.(price := price.value);
        }
        if stock.Some? {
          offer := offer.(stock := stock.value);
        }
        if available.Some? {
          offer := offer.(available := available.value);
        }
        granted := granted[o := granted[o] + offer.stock];
        offers := offers[o := offer];
      }
    }
  }
}
