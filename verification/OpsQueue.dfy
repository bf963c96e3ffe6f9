/** The Ops queue of app/support/priority_ops.py: SQL priority, order, filters, pages and preview. */
module OpsQueue {
  import opened Options
  import opened Policy
  import opened Ordering
  import opened Numbers
  import Sorting
  import opened Runs
  import opened RunInvariant

  /** One joined row of the queue statement. */
  datatype Entry = Entry(conversationId: Id, open: bool, sellerId: Id, itemId: Id, number: nat, line: nat,
                         calculated: Priority, override: Option<Priority>, lastInteractionAt: Time)

  datatype Filter = Filter(sellerId: Option<Id>, itemId: Option<Id>, publicNumber: string, effective: Option<Priority>)

  const NO_FILTER := Filter(None, None, "", None)

  /** The CASE over the override; a null override is not equal to anything. */
  function SqlEffective(calculated: Priority, override: Option<Priority>): Priority {
    if override == Some(Critical) then Critical else calculated
  }

  function PriorityRank(e: Entry): nat {
    match SqlEffective(e.calculated, e.override)
    case Critical => 0
    case High => 1
    case Medium => 2
    case Low => 3
  }

  /** The two notions of effective priority part exactly at an override that is neither critical nor redundant. */
  lemma SqlEffectiveAgrees(calculated: Priority, override: Option<Priority>)
    ensures SqlEffective(calculated, override) == EffectivePriority(calculated, override) <==>
      override.None? || override == Some(Critical) || override == Some(calculated)
  {
  }

  /** No reachable conversation has such an override, so the queue ranks by the priority everyone else sees. */
  lemma QueueRanksEffectivePriority(start: Time, run: seq<Timed>, hours: int, id: Id)
    requires Legal(Empty(start), run, hours) && id in Execute(Empty(start), run, hours).db.conversations
    ensures var c := Execute(Empty(start), run, hours).db.conversations[id];
      SqlEffective(c.calculated, c.override) == c.Effective()
  {
    ReachableInv(start, run, hours);
    SqlEffectiveAgrees(Execute(Empty(start), run, hours).db.conversations[id].calculated,
                       Execute(Empty(start), run, hours).db.conversations[id].override);
  }

  // ------------------------------------------------------------------ filters

  /** The filter by public number; an invalid number raises before anything is queried. */
  predicate BadNumber(f: Filter) {
    f.publicNumber != "" && ParsePublicNumber(Ascii(), f.publicNumber).None?
  }

  /** That is, exactly if one is given and it is not digits, or digits, a dash and digits, in white space or not. */
  lemma BadNumberExactly(f: Filter)
    ensures BadNumber(f) <==> f.publicNumber != "" && !NumberPattern(Ascii(), Strip(Ascii(), f.publicNumber))
  {
    AsciiReadsAscii();
    ParsesExactly(Ascii(), Strip(Ascii(), f.publicNumber));
  }

  predicate NumberMatches(publicNumber: string, e: Entry) {
    publicNumber == "" ||
    match ParsePublicNumber(Ascii(), publicNumber)
    case None => false
    case Some(n) => n.order == e.number && (n.line.Some? ==> n.line.value == e.line)
  }

  predicate Selects(f: Filter, e: Entry) {
    && e.open
    && (f.sellerId.Some? ==> e.sellerId == f.sellerId.value)
    && (f.itemId.Some? ==> e.itemId == f.itemId.value)
    && NumberMatches(f.publicNumber, e)
    && (f.effective.Some? ==> SqlEffective(e.calculated, e.override) == f.effective.value)
  }

  function SelectedBy(f: Filter): Entry -> Option<Entry> {
    (e: Entry) => if Selects(f, e) then Some(e) else None
  }

  function Rows(entries: seq<Entry>, f: Filter): seq<Entry> {
    Collect(SelectedBy(f), entries)
  }

  /** A row is selected exactly if its conversation is open and it meets each filter that is set. */
  lemma RowsExactly(entries: seq<Entry>, f: Filter, e: Entry)
    ensures e in Rows(entries, f) <==>
      && e in entries && e.open
      && (f.sellerId.None? || f.sellerId == Some(e.sellerId))
      && (f.itemId.None? || f.itemId == Some(e.itemId))
      && (f.effective.None? || f.effective == Some(SqlEffective(e.calculated, e.override)))
      && (f.publicNumber == ""
          || ParsePublicNumber(Ascii(), f.publicNumber) == Some(PublicNumber(e.number, None))
          || ParsePublicNumber(Ascii(), f.publicNumber) == Some(PublicNumber(e.number, Some(e.line))))
  {
    CollectHas(SelectedBy(f), entries, e);
  }

  lemma {:induction false} CollectHas(f: Entry -> Option<Entry>, entries: seq<Entry>, e: Entry)
    requires forall x :: f(x).Some? ==> f(x).value == x
    ensures e in Collect(f, entries) <==> e in entries && f(e).Some?
  {
    if entries == [] {
    } else {
      CollectHas(f, entries[1..], e);
      assert e in entries <==> e == entries[0] || e in entries[1..];
      assert e in AsSeq(f(entries[0])) <==> e == entries[0] && f(e).Some?;
    }
  }

  /** Filtering by an item's own printed number selects that item's rows only. */
  lemma ItemNumberSelects(e: Entry, number: nat, line: nat)
    ensures NumberMatches(ItemNumber(number, line), e) <==> e.number == number && e.line == line
    ensures NumberMatches(PrintNat(number), e) <==> e.number == number
  {
    AsciiReadsAscii();
    NumbersRoundTrip(Ascii(), number, line);
    PrintedDigits(Ascii(), number);
  }

  // ------------------------------------------------------------------ order

  /** ORDER BY rank, then newest interaction first. */
  predicate Before(a: Entry, b: Entry) {
    PriorityRank(a) < PriorityRank(b) ||
    (PriorityRank(a) == PriorityRank(b) && a.lastInteractionAt >= b.lastInteractionAt)
  }

  /** That is the more urgent row first, by the policy's own ranking, and of equally urgent ones the newer interaction. */
  lemma BeforeExactly(a: Entry, b: Entry)
    ensures var x, y := Rank(SqlEffective(a.calculated, a.override)), Rank(SqlEffective(b.calculated, b.override));
      Before(a, b) <==> x > y || (x == y && a.lastInteractionAt >= b.lastInteractionAt)
  {
  }

  predicate Ordered(listing: seq<Entry>) {
    forall i, j :: 0 <= i < j < |listing| ==> Before(listing[i], listing[j])
  }

  /** A result the database may return for the ordered statement; rows that tie may come in any order. */
  predicate Listing(listing: seq<Entry>, rows: seq<Entry>) {
    Ordered(listing) && multiset(listing) == multiset(rows)
  }

  /** No two different rows tie. */
  predicate NoTies(rows: seq<Entry>) {
    forall a, b :: a in rows && b in rows && Before(a, b) && Before(b, a) ==> a == b
  }

  lemma SameMembers(a: seq<Entry>, b: seq<Entry>, e: Entry)
    requires multiset(a) == multiset(b)
    ensures e in a <==> e in b
  {
    assert e in multiset(a) <==> e in multiset(b);
  }

  lemma HeadsAgree(a: seq<Entry>, b: seq<Entry>)
    requires a != [] && b != [] && Ordered(a) && Ordered(b) && multiset(a) == multiset(b) && NoTies(a)
    ensures a[0] == b[0]
  {
    SameMembers(a, b, a[0]);
    SameMembers(a, b, b[0]);
    assert a[0] in a && b[0] in b;
    var i :| 0 <= i < |a| && a[i] == b[0];
    var j :| 0 <= j < |b| && b[j] == a[0];
    assert i > 0 ==> Before(a[0], b[0]);
    assert j > 0 ==> Before(b[0], a[0]);
  }

  lemma TailRows(a: seq<Entry>)
    requires a != []
    ensures a == [a[0]] + a[1..] && multiset(a[1..]) == multiset(a) - multiset{a[0]}
    ensures forall e :: e in a[1..] ==> e in a
  {
    assert a == [a[0]] + a[1..];
  }

  /** Without ties there is one order only. */
  lemma {:induction false} OneOrder(a: seq<Entry>, b: seq<Entry>)
    requires Ordered(a) && Ordered(b) && multiset(a) == multiset(b) && NoTies(a)
    ensures a == b
    decreases |a|
  {
    if a == [] || b == [] {
      assert |multiset(a)| == |a| && |multiset(b)| == |b|;
    } else {
      HeadsAgree(a, b);
      TailRows(a);
      TailRows(b);
      OneOrder(a[1..], b[1..]);
    }
  }

  // ------------------------------------------------------------------ pages

  function OffsetLimit(listing: seq<Entry>, offset: nat, limit: nat): seq<Entry> {
    var from := if offset < |listing| then offset else |listing|;
    var to := if from + limit < |listing| then from + limit else |listing|;
    listing[from..to]
  }

  datatype Page = Page(items: seq<Entry>, page: nat, pageSize: nat, total: nat)

  /** The response to one request, given the listing the database produced for it. */
  function OpenQueue(entries: seq<Entry>, f: Filter, page: nat, pageSize: nat, listing: seq<Entry>): Page
    requires page >= 1 && !BadNumber(f)
  {
    Page(OffsetLimit(listing, (page - 1) * pageSize, pageSize), page, pageSize, |Rows(entries, f)|)
  }

  function Preview(limit: nat, listing: seq<Entry>): seq<Entry> {
    OffsetLimit(listing, 0, limit)
  }

  /** The items of the first pages of the same queue, each page cut from a listing of its own. */
  function FirstPages(entries: seq<Entry>, f: Filter, size: nat, listings: seq<seq<Entry>>): seq<Entry>
    requires !BadNumber(f)
    decreases |listings|
  {
    if listings == [] then []
    else
      var last := |listings| - 1;
      FirstPages(entries, f, size, listings[..last]) + OpenQueue(entries, f, |listings|, size, listings[last]).items
  }

  /** Each listing is an order the database may give the rows. */
  predicate Listings(listings: seq<seq<Entry>>, rows: seq<Entry>) {
    forall k :: 0 <= k < |listings| ==> Listing(listings[k], rows)
  }

  lemma NextPage(listing: seq<Entry>, offset: nat, limit: nat)
    ensures Take(listing, offset) + OffsetLimit(listing, offset, limit) == Take(listing, offset + limit)
  {
  }

  lemma OnePageMore(listing: seq<Entry>, size: nat, count: nat)
    requires count > 0
    ensures Take(listing, (count - 1) * size) + OffsetLimit(listing, (count - 1) * size, size) == Take(listing, count * size)
  {
  }

  lemma FirstPagesEnd(entries: seq<Entry>, f: Filter, size: nat, listings: seq<seq<Entry>>, last: nat)
    requires !BadNumber(f) && |listings| == last + 1
    ensures FirstPages(entries, f, size, listings) ==
      FirstPages(entries, f, size, listings[..last]) + OffsetLimit(listings[last], last * size, size)
  {
  }

  /** Whatever listings the pages are cut from, they show what is shown at their places. */
  lemma {:induction false} PagesShow(entries: seq<Entry>, f: Filter, size: nat, listings: seq<seq<Entry>>, shown: seq<Entry>)
    requires !BadNumber(f)
    requires forall k :: 0 <= k < |listings| ==> OffsetLimit(listings[k], k * size, size) == OffsetLimit(shown, k * size, size)
    ensures FirstPages(entries, f, size, listings) == Take(shown, |listings| * size)
    decreases |listings|
  {
    if listings == [] {
    } else {
      var last := |listings| - 1;
      FirstPagesEnd(entries, f, size, listings, last);
      PagesShow(entries, f, size, listings[..last], shown);
      OnePageMore(shown, size, |listings|);
    }
  }

  lemma SameOrder(rows: seq<Entry>, a: seq<Entry>, b: seq<Entry>)
    requires NoTies(rows) && Listing(a, rows) && Listing(b, rows)
    ensures a == b
  {
    forall e, g | e in a && g in a && Before(e, g) && Before(g, e) ensures e == g {
      SameMembers(a, rows, e);
      SameMembers(a, rows, g);
    }
    OneOrder(a, b);
  }

  /** When no two selected rows tie, the pages are consecutive pieces of the one order. */
  lemma QueuePagesAreTakes(entries: seq<Entry>, f: Filter, size: nat, listings: seq<seq<Entry>>, listing: seq<Entry>)
    requires !BadNumber(f) && NoTies(Rows(entries, f))
    requires Listings(listings, Rows(entries, f)) && Listing(listing, Rows(entries, f))
    ensures FirstPages(entries, f, size, listings) == Take(listing, |listings| * size)
  {
    forall k | 0 <= k < |listings| ensures listings[k] == listing {
      SameOrder(Rows(entries, f), listings[k], listing);
    }
    PagesShow(entries, f, size, listings, listing);
  }

  lemma EnoughIsAll(listing: seq<Entry>, rows: seq<Entry>, n: nat)
    requires Listing(listing, rows) && n >= |rows|
    ensures Take(listing, n) == listing
  {
    SameLength(listing, rows);
  }

  /**
   When no two selected rows tie, the pages of a queue that does not change in between are consecutive
   pieces of its one order: enough of them give every selected row exactly once, and `total` says how
   many there are.
   */
  lemma QueuePagesTile(entries: seq<Entry>, f: Filter, size: nat, listings: seq<seq<Entry>>, listing: seq<Entry>)
    requires !BadNumber(f) && NoTies(Rows(entries, f))
    requires Listings(listings, Rows(entries, f)) && Listing(listing, Rows(entries, f))
    ensures FirstPages(entries, f, size, listings) == Take(listing, |listings| * size)
    ensures forall k :: 0 <= k < |listings| ==>
              var shown := OpenQueue(entries, f, k + 1, size, listings[k]);
              shown.page == k + 1 && shown.pageSize == size && shown.total == |listing|
    ensures |listings| * size >= |Rows(entries, f)| ==>
              Listing(FirstPages(entries, f, size, listings), Rows(entries, f))
  {
    QueuePagesAreTakes(entries, f, size, listings, listing);
    SameLength(listing, Rows(entries, f));
    var n := |listings| * size;
    if n >= |Rows(entries, f)| {
      EnoughIsAll(listing, Rows(entries, f), n);
    }
  }

  lemma SameLength(a: seq<Entry>, b: seq<Entry>)
    requires multiset(a) == multiset(b)
    ensures |a| == |b|
  {
    assert |multiset(a)| == |a| && |multiset(b)| == |b|;
  }

  lemma PreviewIsPrefix(entries: seq<Entry>, limit: nat, listing: seq<Entry>, previewed: seq<Entry>)
    requires NoTies(Rows(entries, NO_FILTER))
    requires Listing(listing, Rows(entries, NO_FILTER)) && Listing(previewed, Rows(entries, NO_FILTER))
    ensures Preview(limit, previewed) == Take(listing, limit)
    ensures Preview(limit, previewed) == OpenQueue(entries, NO_FILTER, 1, limit, listing).items
  {
    SameOrder(Rows(entries, NO_FILTER), listing, previewed);
  }

  // ------------------------------------------------------------------ exactly when paging is safe

  /** Whatever orders the database gives and whatever the page size, enough pages give each selected row exactly once. */
  ghost predicate PagingIsSafe(entries: seq<Entry>, f: Filter)
    requires !BadNumber(f)
  {
    forall size: nat, listings: seq<seq<Entry>> ::
      Listings(listings, Rows(entries, f)) && |listings| * size >= |Rows(entries, f)| ==>
        multiset(FirstPages(entries, f, size, listings)) == multiset(Rows(entries, f))
  }

  function InOrder(rows: seq<Entry>): seq<Entry> {
    Sorting.Sort(Before, rows)
  }

  lemma InOrderLists(rows: seq<Entry>)
    ensures Listing(InOrder(rows), rows)
  {
    Sorting.SortIsStable(Before, rows);
  }

  /** Two tied rows of a listing can change places. */
  lemma TiedRowsSwap(listing: seq<Entry>, i: nat, j: nat, rows: seq<Entry>)
    requires i < |listing| && j < |listing| && Listing(listing, rows)
    requires Before(listing[i], listing[j]) && Before(listing[j], listing[i])
    ensures Listing(listing[i := listing[j]][j := listing[i]], rows)
  {
    var swapped := listing[i := listing[j]][j := listing[i]];
    forall k, l | 0 <= k < l < |swapped| ensures Before(swapped[k], swapped[l]) {
      assert Before(listing[k], listing[l]);
    }
  }

  /** Listings for n pages, of which only that of page j is another. */
  function OtherOnPage(listing: seq<Entry>, other: seq<Entry>, j: nat, n: nat): seq<seq<Entry>> {
    seq(n, k => if k == j then other else listing)
  }

  lemma OneRowShown(listing: seq<Entry>, other: seq<Entry>, j: nat, k: nat)
    requires j < |listing| == |other| && k < |listing|
    ensures OffsetLimit(if k == j then other else listing, k, 1) == OffsetLimit(listing[j := other[j]], k, 1)
  {
    assert OffsetLimit(if k == j then other else listing, k, 1) == [if k == j then other[j] else listing[k]];
  }

  lemma SingleRowPages(entries: seq<Entry>, f: Filter, listing: seq<Entry>, other: seq<Entry>, j: nat)
    requires !BadNumber(f) && j < |listing| == |other|
    ensures FirstPages(entries, f, 1, OtherOnPage(listing, other, j, |listing|)) == listing[j := other[j]]
  {
    var listings := OtherOnPage(listing, other, j, |listing|);
    forall k | 0 <= k < |listings|
      ensures OffsetLimit(listings[k], k * 1, 1) == OffsetLimit(listing[j := other[j]], k * 1, 1)
    {
      OneRowShown(listing, other, j, k);
    }
    PagesShow(entries, f, 1, listings, listing[j := other[j]]);
  }

  lemma OneRowReplaced(s: seq<Entry>, j: nat, e: Entry)
    requires j < |s| && s[j] != e
    ensures multiset(s[j := e])[e] == multiset(s)[e] + 1
  {
    assert multiset(s[j := e]) == multiset(s) - multiset{s[j]} + multiset{e};
  }

  /** The listings that cut page j from an order in which rows i and j have changed places. */
  function SwapOnPage(listing: seq<Entry>, i: nat, j: nat): seq<seq<Entry>>
    requires i < |listing| && j < |listing|
  {
    OtherOnPage(listing, listing[i := listing[j]][j := listing[i]], j, |listing|)
  }

  lemma SwapOnPageLists(listing: seq<Entry>, i: nat, j: nat, rows: seq<Entry>)
    requires i < |listing| && j < |listing| && Listing(listing, rows)
    requires Before(listing[i], listing[j]) && Before(listing[j], listing[i])
    ensures Listings(SwapOnPage(listing, i, j), rows) && |SwapOnPage(listing, i, j)| * 1 >= |rows|
  {
    TiedRowsSwap(listing, i, j, rows);
    SameLength(listing, rows);
  }

  /** Row i is then shown on page j as well, in place of row j. */
  lemma SwapOnPageShows(entries: seq<Entry>, f: Filter, listing: seq<Entry>, i: nat, j: nat)
    requires !BadNumber(f) && i < |listing| && j < |listing| && listing[i] != listing[j]
    ensures multiset(FirstPages(entries, f, 1, SwapOnPage(listing, i, j)))[listing[i]] == multiset(listing)[listing[i]] + 1
  {
    var other := listing[i := listing[j]][j := listing[i]];
    SingleRowPages(entries, f, listing, other, j);
    OneRowReplaced(listing, j, listing[i]);
  }

  lemma SwapLosesARow(entries: seq<Entry>, f: Filter, listing: seq<Entry>, i: nat, j: nat)
    requires !BadNumber(f) && Listing(listing, Rows(entries, f))
    requires i < |listing| && j < |listing| && listing[i] != listing[j]
    requires Before(listing[i], listing[j]) && Before(listing[j], listing[i])
    ensures !PagingIsSafe(entries, f)
  {
    SwapOnPageLists(listing, i, j, Rows(entries, f));
    SwapOnPageShows(entries, f, listing, i, j);
  }

  /** If two different selected rows tie, some orders lose one of them to the other. */
  lemma TiesLoseARow(entries: seq<Entry>, f: Filter)
    requires !BadNumber(f) && !NoTies(Rows(entries, f))
    ensures !PagingIsSafe(entries, f)
  {
    var rows := Rows(entries, f);
    var a, b :| a in rows && b in rows && Before(a, b) && Before(b, a) && a != b;
    var listing := InOrder(rows);
    InOrderLists(rows);
    SameMembers(listing, rows, a);
    SameMembers(listing, rows, b);
    var i :| 0 <= i < |listing| && listing[i] == a;
    var j :| 0 <= j < |listing| && listing[j] == b;
    SwapLosesARow(entries, f, listing, i, j);
  }

  /** Paging the queue is safe for every page size and every order the database may choose exactly when no two selected rows tie. */
  lemma PagingIsSafeExactly(entries: seq<Entry>, f: Filter)
    requires !BadNumber(f)
    ensures PagingIsSafe(entries, f) <==> NoTies(Rows(entries, f))
  {
    if NoTies(Rows(entries, f)) {
      forall size: nat, listings: seq<seq<Entry>>
        | Listings(listings, Rows(entries, f)) && |listings| * size >= |Rows(entries, f)|
        ensures multiset(FirstPages(entries, f, size, listings)) == multiset(Rows(entries, f))
      {
        InOrderLists(Rows(entries, f));
        QueuePagesTile(entries, f, size, listings, InOrder(Rows(entries, f)));
      }
    } else {
      TiesLoseARow(entries, f);
    }
  }
}
