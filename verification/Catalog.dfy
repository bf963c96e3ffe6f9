/** Catalog rows and their order: frontend/src/features/catalog. Prices keep their text and compare by amount. */
module Catalog {
  import opened Options
  import opened Policy
  import opened Sorting

  datatype Price = Price(text: string, cents: int)

  datatype Offer = Offer(productId: Id, sellerId: Id, sellerName: string, price: Price, stock: int, available: bool)

  datatype Seller = Seller(id: Id, name: string)

  /** `amount` is the lowest price as a number, which the sort reads off the text. */
  datatype Row = Row(productId: Id, lowest: Option<string>, highest: Option<string>, amount: Option<int>,
                     sellerCount: nat, sellerNames: seq<string>, offerCount: nat, inStock: bool)

  // ------------------------------------------------------------------ the nested specification

  predicate IsPurchasable(o: Offer) { o.available && o.stock > 0 }

  function PurchasableOf(productId: Id): Offer -> Option<Offer> {
    (o: Offer) => if IsPurchasable(o) && o.productId == productId then Some(o) else None
  }

  /** A product's purchasable offers, filtered out of all of them. */
  function OffersOf(productId: Id, offers: seq<Offer>): seq<Offer> {
    Collect(PurchasableOf(productId), offers)
  }

  /** `best` is the first of the offers whose price nothing undercuts. */
  predicate FirstLowest(mine: seq<Offer>, best: Offer) {
    exists i :: 0 <= i < |mine| && mine[i] == best
      && (forall j :: 0 <= j < |mine| ==> best.price.cents <= mine[j].price.cents)
      && (forall j :: 0 <= j < i ==> best.price.cents < mine[j].price.cents)
  }

  predicate FirstHighest(mine: seq<Offer>, best: Offer) {
    exists i :: 0 <= i < |mine| && mine[i] == best
      && (forall j :: 0 <= j < |mine| ==> mine[j].price.cents <= best.price.cents)
      && (forall j :: 0 <= j < i ==> mine[j].price.cents < best.price.cents)
  }

  predicate Offered(mine: seq<Offer>, seller: Id) {
    exists o :: o in mine && o.sellerId == seller
  }

  /** The seller's first offer comes before any offer of the other's. */
  predicate AppearsBefore(mine: seq<Offer>, first: Id, second: Id) {
    exists a :: 0 <= a < |mine| && mine[a].sellerId == first && forall b :: 0 <= b <= a ==> mine[b].sellerId != second
  }

  /** The name on the seller's last offer. */
  predicate LastName(mine: seq<Offer>, seller: Seller) {
    exists a :: 0 <= a < |mine| && mine[a].sellerId == seller.id && mine[a].sellerName == seller.name
      && forall b :: a < b < |mine| ==> mine[b].sellerId != seller.id
  }

  predicate Has(sellers: seq<Seller>, id: Id) {
    sellers != [] && (sellers[0].id == id || Has(sellers[1..], id))
  }

  ghost predicate Cover(mine: seq<Offer>, sellers: seq<Seller>) {
    forall id :: Offered(mine, id) <==> Has(sellers, id)
  }

  predicate InOrder(mine: seq<Offer>, sellers: seq<Seller>) {
    forall i, j :: 0 <= i < j < |sellers| ==> AppearsBefore(mine, sellers[i].id, sellers[j].id)
  }

  predicate LastNames(mine: seq<Offer>, sellers: seq<Seller>) {
    forall i :: 0 <= i < |sellers| ==> LastName(mine, sellers[i])
  }

  /** Each seller with an offer once, in the order their first offers appear, under the name last seen. */
  ghost predicate SellersOf(mine: seq<Offer>, sellers: seq<Seller>) {
    Cover(mine, sellers) && Distinct(sellers) && InOrder(mine, sellers) && LastNames(mine, sellers)
  }

  predicate Distinct(sellers: seq<Seller>) {
    forall i, j :: 0 <= i < j < |sellers| ==> sellers[i].id != sellers[j].id
  }

  function Names(sellers: seq<Seller>): seq<string> {
    seq(|sellers|, i requires 0 <= i < |sellers| => sellers[i].name)
  }

  /** The row says exactly what the product's purchasable offers say. */
  ghost predicate Summarises(row: Row, productId: Id, mine: seq<Offer>) {
    && row.productId == productId && row.offerCount == |mine| && (row.inStock <==> mine != [])
    && row.sellerCount == |row.sellerNames|
    && (exists sellers :: SellersOf(mine, sellers) && row.sellerNames == Names(sellers))
    && (mine == [] ==> row.lowest.None? && row.highest.None? && row.amount.None?)
    && (mine != [] ==>
          && (exists o :: FirstLowest(mine, o) && row.lowest == Some(o.price.text) && row.amount == Some(o.price.cents))
          && (exists o :: FirstHighest(mine, o) && row.highest == Some(o.price.text)))
  }

  // ------------------------------------------------------------------ one pass

  function Group(groups: map<Id, seq<Offer>>, productId: Id): seq<Offer> {
    if productId in groups then groups[productId] else []
  }

  /** The Map of arrays: each purchasable offer pushed onto its product's array. */
  method GroupOffers(offers: seq<Offer>) returns (groups: map<Id, seq<Offer>>)
    ensures forall id :: Group(groups, id) == OffersOf(id, offers)
  {
    groups := map[];
    var i := 0;
    while i < |offers|
      invariant 0 <= i <= |offers|
      invariant forall id :: Group(groups, id) == OffersOf(id, offers[..i])
    {
      var offer := offers[i];
      forall id ensures OffersOf(id, offers[..i + 1]) == OffersOf(id, offers[..i]) + AsSeq(PurchasableOf(id)(offer)) {
        OneMoreOffer(id, offers, i);
      }
      if IsPurchasable(offer) {
        if offer.productId in groups {
          groups := groups[offer.productId := groups[offer.productId] + [offer]];
        } else {
          groups := groups[offer.productId := [offer]];
        }
      }
      i := i + 1;
    }
    assert offers[..i] == offers;
  }

  lemma OneMoreOffer(id: Id, offers: seq<Offer>, i: nat)
    requires i < |offers|
    ensures OffersOf(id, offers[..i + 1]) == OffersOf(id, offers[..i]) + AsSeq(PurchasableOf(id)(offers[i]))
  {
    assert offers[..i + 1] == offers[..i] + [offers[i]];
    CollectConcat(PurchasableOf(id), offers[..i], [offers[i]]);
    CollectOne(PurchasableOf(id), offers[i]);
  }

  /** Map.set on a seller: a known seller keeps its place and takes the new name, a new one goes last. */
  function SetSeller(sellers: seq<Seller>, id: Id, name: string): seq<Seller> {
    if sellers == [] then [Seller(id, name)]
    else if sellers[0].id == id then [Seller(id, name)] + sellers[1..]
    else [sellers[0]] + SetSeller(sellers[1..], id, name)
  }

  /** Where each entry of the table after a set comes from. */
  lemma {:induction false} SetSellerAt(sellers: seq<Seller>, id: Id, name: string, i: nat)
    requires Distinct(sellers) && i < |SetSeller(sellers, id, name)|
    ensures var s := SetSeller(sellers, id, name)[i];
      if i < |sellers| then s == (if sellers[i].id == id then Seller(id, name) else sellers[i])
      else i == |sellers| && s == Seller(id, name) && !Has(sellers, id)
  {
    if sellers != [] && sellers[0].id != id && i > 0 {
      assert Distinct(sellers[1..]) by {
        assert forall k :: 0 <= k < |sellers[1..]| ==> sellers[1..][k] == sellers[k + 1];
      }
      SetSellerAt(sellers[1..], id, name, i - 1);
    }
  }

  lemma {:induction false} SetSellerHas(sellers: seq<Seller>, id: Id, name: string, other: Id)
    ensures Has(SetSeller(sellers, id, name), other) <==> Has(sellers, other) || id == other
  {
    if sellers != [] && sellers[0].id != id {
      SetSellerHas(sellers[1..], id, name, other);
    } else {
      assert Has([], other) == false;
    }
  }

  lemma {:induction false} HasMember(sellers: seq<Seller>, i: nat)
    requires i < |sellers|
    ensures Has(sellers, sellers[i].id)
  {
    if i == 0 {
    } else {
      HasMember(sellers[1..], i - 1);
    }
  }

  lemma LastNameGrows(mine: seq<Offer>, o: Offer, s: Seller)
    requires s == Seller(o.sellerId, o.sellerName) || (LastName(mine, s) && s.id != o.sellerId)
    ensures LastName(mine + [o], s)
  {
    var more := mine + [o];
    if s.id != o.sellerId {
      var a :| 0 <= a < |mine| && mine[a].sellerId == s.id && mine[a].sellerName == s.name
        && forall b :: a < b < |mine| ==> mine[b].sellerId != s.id;
      assert more[a] == mine[a];
    } else {
      assert more[|mine|] == o;
    }
  }

  lemma AppearsBeforeGrows(mine: seq<Offer>, o: Offer, first: Id, second: Id)
    requires AppearsBefore(mine, first, second) || (Offered(mine, first) && !Offered(mine, second))
    ensures AppearsBefore(mine + [o], first, second)
  {
    if Offered(mine, first) && !Offered(mine, second) {
      var x :| x in mine && x.sellerId == first;
      var a :| 0 <= a < |mine| && mine[a] == x;
      assert forall b :: 0 <= b <= a ==> mine[b] in mine;
    }
    var a :| 0 <= a < |mine| && mine[a].sellerId == first && forall b :: 0 <= b <= a ==> mine[b].sellerId != second;
    assert (mine + [o])[a] == mine[a];
  }

  lemma OfferedGrows(mine: seq<Offer>, o: Offer, id: Id)
    ensures Offered(mine + [o], id) <==> Offered(mine, id) || o.sellerId == id
  {
  }

  lemma OneMoreCover(mine: seq<Offer>, sellers: seq<Seller>, o: Offer)
    requires Cover(mine, sellers)
    ensures Cover(mine + [o], SetSeller(sellers, o.sellerId, o.sellerName))
  {
    forall id ensures Offered(mine + [o], id) <==> Has(SetSeller(sellers, o.sellerId, o.sellerName), id) {
      OfferedGrows(mine, o, id);
      SetSellerHas(sellers, o.sellerId, o.sellerName, id);
    }
  }

  lemma OneMoreName(mine: seq<Offer>, sellers: seq<Seller>, o: Offer, i: nat)
    requires Distinct(sellers) && LastNames(mine, sellers) && i < |SetSeller(sellers, o.sellerId, o.sellerName)|
    ensures LastName(mine + [o], SetSeller(sellers, o.sellerId, o.sellerName)[i])
  {
    SetSellerAt(sellers, o.sellerId, o.sellerName, i);
    LastNameGrows(mine, o, SetSeller(sellers, o.sellerId, o.sellerName)[i]);
  }

  lemma OneMoreInOrder(mine: seq<Offer>, sellers: seq<Seller>, o: Offer, i: nat, j: nat)
    requires SellersOf(mine, sellers) && i < j < |SetSeller(sellers, o.sellerId, o.sellerName)|
    ensures var after := SetSeller(sellers, o.sellerId, o.sellerName);
      after[i].id != after[j].id && AppearsBefore(mine + [o], after[i].id, after[j].id)
  {
    SetSellerAt(sellers, o.sellerId, o.sellerName, i);
    SetSellerAt(sellers, o.sellerId, o.sellerName, j);
    HasMember(sellers, i);
    if j < |sellers| {
      assert AppearsBefore(mine, sellers[i].id, sellers[j].id);
      AppearsBeforeGrows(mine, o, sellers[i].id, sellers[j].id);
    } else {
      AppearsBeforeGrows(mine, o, sellers[i].id, o.sellerId);
    }
  }

  lemma OneMoreSeller(mine: seq<Offer>, sellers: seq<Seller>, o: Offer)
    requires SellersOf(mine, sellers)
    ensures SellersOf(mine + [o], SetSeller(sellers, o.sellerId, o.sellerName))
  {
    var after := SetSeller(sellers, o.sellerId, o.sellerName);
    OneMoreCover(mine, sellers, o);
    forall i | 0 <= i < |after| ensures LastName(mine + [o], after[i]) {
      OneMoreName(mine, sellers, o, i);
    }
    forall i, j | 0 <= i < j < |after|
      ensures after[i].id != after[j].id && AppearsBefore(mine + [o], after[i].id, after[j].id)
    {
      OneMoreInOrder(mine, sellers, o, i, j);
    }
  }

  /** The row of one product, from its group. */
  method Summarise(productId: Id, mine: seq<Offer>) returns (row: Row)
    ensures Summarises(row, productId, mine)
  {
    if mine == [] {
      assert SellersOf(mine, []) && Names([]) == [];
      return Row(productId, None, None, None, 0, [], 0, false);
    }
    var lowest, highest, sellers := ScanOffers(mine);
    row := Row(productId, Some(lowest.price.text), Some(highest.price.text), Some(lowest.price.cents),
               |sellers|, Names(sellers), |mine|, true);
  }

  /** Offer `low` is the first lowest of the first `i`, and of those before itself. */
  predicate LowestOf(mine: seq<Offer>, i: nat, low: nat) {
    && i <= |mine| && low < |mine|
    && (forall j :: 0 <= j < i ==> mine[low].price.cents <= mine[j].price.cents)
    && (forall j :: 0 <= j < low ==> mine[low].price.cents < mine[j].price.cents)
  }

  predicate HighestOf(mine: seq<Offer>, i: nat, high: nat) {
    && i <= |mine| && high < |mine|
    && (forall j :: 0 <= j < i ==> mine[j].price.cents <= mine[high].price.cents)
    && (forall j :: 0 <= j < high ==> mine[j].price.cents < mine[high].price.cents)
  }

  lemma OneMoreSellerAt(mine: seq<Offer>, sellers: seq<Seller>, i: nat)
    requires i < |mine| && SellersOf(mine[..i], sellers)
    ensures SellersOf(mine[..i + 1], SetSeller(sellers, mine[i].sellerId, mine[i].sellerName))
  {
    OneMoreSeller(mine[..i], sellers, mine[i]);
    assert mine[..i + 1] == mine[..i] + [mine[i]];
  }

  method ScanOffers(mine: seq<Offer>) returns (lowest: Offer, highest: Offer, sellers: seq<Seller>)
    requires mine != []
    ensures FirstLowest(mine, lowest) && FirstHighest(mine, highest) && SellersOf(mine, sellers)
  {
    lowest, highest, sellers := mine[0], mine[0], [];
    ghost var low, high := 0, 0;
    var i := 0;
    while i < |mine|
      invariant 0 <= i <= |mine|
      invariant LowestOf(mine, i, low) && mine[low] == lowest
      invariant HighestOf(mine, i, high) && mine[high] == highest
      invariant SellersOf(mine[..i], sellers)
    {
      OneMoreSellerAt(mine, sellers, i);
      sellers := SetSeller(sellers, mine[i].sellerId, mine[i].sellerName);
      if mine[i].price.cents < lowest.price.cents {
        lowest, low := mine[i], i;
      }
      if mine[i].price.cents > highest.price.cents {
        highest, high := mine[i], i;
      }
      i := i + 1;
    }
    assert mine[..i] == mine;
  }

  /** The row of a product, told from all the offers. */
  ghost predicate RowOf(row: Row, productId: Id, offers: seq<Offer>) {
    Summarises(row, productId, OffersOf(productId, offers))
  }

  /** A product's offers that a buyer can take: its own, on sale, with at least one in stock. */
  lemma {:induction false} OffersOfExactly(productId: Id, offers: seq<Offer>, o: Offer)
    ensures o in OffersOf(productId, offers) <==> o in offers && o.productId == productId && o.available && o.stock >= 1
  {
    if offers == [] {
    } else {
      OffersOfExactly(productId, offers[1..], o);
      assert o in offers <==> o == offers[0] || o in offers[1..];
    }
  }

  /** An offer of the product that a buyer can take. */
  predicate Takeable(o: Offer, productId: Id, offers: seq<Offer>) {
    o in offers && o.productId == productId && o.available && o.stock >= 1
  }

  /**
   What a row says of all the offers: in stock exactly if one can be taken, its lowest price is asked by one
   and undercut by none, its highest asked by one and exceeded by none.
   */
  lemma RowTellsOffers(row: Row, productId: Id, offers: seq<Offer>)
    requires RowOf(row, productId, offers)
    ensures row.inStock <==> exists o :: Takeable(o, productId, offers)
    ensures row.inStock <==> row.amount.Some?
    ensures row.inStock ==>
      && (exists o :: Takeable(o, productId, offers) && row.lowest == Some(o.price.text) && row.amount == Some(o.price.cents))
      && (forall o :: Takeable(o, productId, offers) ==> row.amount.value <= o.price.cents)
      && (exists o :: Takeable(o, productId, offers) && row.highest == Some(o.price.text)
            && forall other :: Takeable(other, productId, offers) ==> other.price.cents <= o.price.cents)
  {
    var mine := OffersOf(productId, offers);
    forall o ensures o in mine <==> Takeable(o, productId, offers) {
      OffersOfExactly(productId, offers, o);
    }
    if mine != [] {
      assert mine[0] in mine;
      var best :| FirstLowest(mine, best) && row.lowest == Some(best.price.text) && row.amount == Some(best.price.cents);
      assert best in mine;
      var top :| FirstHighest(mine, top) && row.highest == Some(top.price.text);
      assert top in mine;
    }
  }

  /** A row counts each seller of an offer that can be taken once. */
  lemma RowCountsSellers(row: Row, productId: Id, offers: seq<Offer>)
    requires RowOf(row, productId, offers)
    ensures row.sellerCount == |set o | o in offers && Takeable(o, productId, offers) :: o.sellerId|
  {
    var mine := OffersOf(productId, offers);
    forall o ensures o in mine <==> Takeable(o, productId, offers) {
      OffersOfExactly(productId, offers, o);
    }
    var sellers :| SellersOf(mine, sellers) && row.sellerNames == Names(sellers);
    SellersCounted(mine, sellers);
    assert (set o | o in offers && Takeable(o, productId, offers) :: o.sellerId) == set o | o in mine :: o.sellerId;
  }

  lemma SellersCounted(mine: seq<Offer>, sellers: seq<Seller>)
    requires SellersOf(mine, sellers)
    ensures |set o | o in mine :: o.sellerId| == |sellers|
  {
    DistinctIds(sellers);
    var ids := set s | s in sellers :: s.id;
    var offering := set o | o in mine :: o.sellerId;
    forall id ensures id in offering <==> id in ids {
      HasExactly(sellers, id);
      assert Offered(mine, id) <==> id in offering;
    }
    assert offering == ids;
  }

  lemma {:induction false} HasExactly(sellers: seq<Seller>, id: Id)
    ensures Has(sellers, id) <==> id in set s | s in sellers :: s.id
  {
    if sellers != [] {
      HasExactly(sellers[1..], id);
      assert forall s :: s in sellers <==> s == sellers[0] || s in sellers[1..];
    }
  }

  lemma {:induction false} DistinctIds(sellers: seq<Seller>)
    requires Distinct(sellers)
    ensures |set s | s in sellers :: s.id| == |sellers|
  {
    if sellers != [] {
      DistinctIds(sellers[1..]);
      assert (set s | s in sellers :: s.id) == {sellers[0].id} + set s | s in sellers[1..] :: s.id;
    }
  }

  method RowFor(productId: Id, mine: seq<Offer>, offers: seq<Offer>) returns (row: Row)
    requires mine == OffersOf(productId, offers)
    ensures RowOf(row, productId, offers)
  {
    row := Summarise(productId, mine);
  }

  /** Rows for the first products, in order. */
  ghost predicate RowsFor(rows: seq<Row>, products: seq<Id>, offers: seq<Offer>)
    requires |rows| <= |products|
    decreases |rows|
  {
    if rows == [] then true
    else
      var last := |rows| - 1;
      RowOf(rows[last], products[last], offers) && RowsFor(rows[..last], products, offers)
  }

  lemma OneRowMore(rows: seq<Row>, row: Row, products: seq<Id>, offers: seq<Offer>)
    requires |rows| < |products| && RowsFor(rows, products, offers) && RowOf(row, products[|rows|], offers)
    ensures RowsFor(rows + [row], products, offers)
  {
    assert (rows + [row])[..|rows|] == rows;
  }

  lemma {:induction false} RowsForAt(rows: seq<Row>, products: seq<Id>, offers: seq<Offer>, k: nat)
    requires k < |rows| <= |products| && RowsFor(rows, products, offers)
    ensures RowOf(rows[k], products[k], offers)
    decreases |rows|
  {
    if k < |rows| - 1 {
      RowsForAt(rows[..|rows| - 1], products, offers, k);
    }
  }

  /** One pass over the offers, then one row for each product in order: the same rows as filtering per product. */
  method DeriveCatalogRows(products: seq<Id>, offers: seq<Offer>) returns (rows: seq<Row>)
    ensures |rows| == |products|
    ensures forall k :: 0 <= k < |rows| ==> RowOf(rows[k], products[k], offers)
  {
    var groups := GroupOffers(offers);
    rows := [];
    while |rows| < |products|
      invariant |rows| <= |products| && RowsFor(rows, products, offers)
    {
      var row := RowFor(products[|rows|], Group(groups, products[|rows|]), offers);
      OneRowMore(rows, row, products, offers);
      rows := rows + [row];
    }
    forall k | 0 <= k < |rows| ensures RowOf(rows[k], products[k], offers) {
      RowsForAt(rows, products, offers, k);
    }
  }

  // ------------------------------------------------------------------ order by price

  datatype Direction = Ascending | Descending

  function Compare(direction: Direction, a: Row, b: Row): int {
    match (a.amount, b.amount)
    case (None, None) => 0
    case (None, Some(_)) => 1
    case (Some(_), None) => -1
    case (Some(x), Some(y)) => if direction.Ascending? then x - y else y - x
  }

  function NotAfter(direction: Direction): (Row, Row) -> bool {
    (a: Row, b: Row) => Compare(direction, a, b) <= 0
  }

  /** The comparator is consistent, which is what makes the sort well defined. */
  lemma ComparatorIsConsistent(direction: Direction)
    ensures TotalPreorder(NotAfter(direction))
    ensures forall a, b :: (Compare(direction, a, b) > 0 <==> Compare(direction, b, a) < 0)
  {
  }

  function SortByPrice(rows: seq<Row>, direction: Direction): seq<Row> {
    Sort(NotAfter(direction), rows)
  }

  function Unpriced(): Row -> Option<Row> {
    (r: Row) => if r.amount.None? then Some(r) else None
  }

  lemma {:induction false} UnpricedTie(rows: seq<Row>, direction: Direction, r: Row)
    requires r.amount.None?
    ensures Collect(TiesWith(NotAfter(direction), r), rows) == Collect(Unpriced(), rows)
  {
    if rows == [] {
    } else {
      UnpricedTie(rows[1..], direction, r);
    }
  }

  /**
   Any stable sort with this comparator gives this result: the same rows, by price in the direction asked
   for, rows of one price in their original order, and in both directions the rows without a price last,
   among themselves as they came.
   */
  lemma PriceSort(rows: seq<Row>, direction: Direction, result: seq<Row>)
    requires StablySorted(NotAfter(direction), result, rows)
    ensures result == SortByPrice(rows, direction) && multiset(result) == multiset(rows)
    ensures forall i, j :: 0 <= i < j < |result| ==> (result[i].amount.None? ==> result[j].amount.None?)
    ensures Collect(Unpriced(), result) == Collect(Unpriced(), rows)
    ensures forall i, j :: 0 <= i < j < |result| && result[i].amount.Some? && result[j].amount.Some? ==>
              if direction.Ascending? then result[i].amount.value <= result[j].amount.value
              else result[i].amount.value >= result[j].amount.value
  {
    ComparatorIsConsistent(direction);
    SortIsStable(NotAfter(direction), rows);
    StableSortIsUnique(NotAfter(direction), result, SortByPrice(rows, direction));
    forall i, j | 0 <= i < j < |result| ensures Compare(direction, result[i], result[j]) <= 0 {
      assert NotAfter(direction)(result[i], result[j]);
    }
    var blank := Row(0, None, None, None, 0, [], 0, false);
    UnpricedTie(result, direction, blank);
    UnpricedTie(rows, direction, blank);
  }

  /** What the sort finds exists for every list of rows. */
  lemma PriceSortExists(rows: seq<Row>, direction: Direction)
    ensures StablySorted(NotAfter(direction), SortByPrice(rows, direction), rows)
  {
    ComparatorIsConsistent(direction);
    SortIsStable(NotAfter(direction), rows);
  }
}
