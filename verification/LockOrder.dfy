/** Checkouts wait for one another's row locks, in payload order: when some checkout can always go on. */
module LockOrder {
  import opened Policy
  import opened Checkout
  import opened Market
  import opened MarketInvariant
  import opened MarketRuns
  import opened SoloCheckout

  /** The cart's next UPDATE waits for a row another cart has locked. */
  predicate Blocked(m: Market, c: Id) {
    && c in m.carts && m.carts[c].Consuming? && m.carts[c].next < |m.carts[c].lines|
    && !CanMove(m, ConsumeNext(c))
  }

  /** A cart that does not wait reads on, starts consuming, consumes or commits, or has problems and is rejected. */
  lemma UnblockedGoesOn(m: Market, c: Id, orderId: Id, buyerId: Id, now: Time)
    requires c in m.carts && CartOk(m.offers, m.carts[c]) && !Blocked(m, c)
    ensures || CanMove(m, ValidateNext(c)) || CanMove(m, StartConsuming(c))
            || CanMove(m, ConsumeNext(c)) || CanMove(m, Commit(c, orderId, buyerId, now))
            || (m.carts[c].Validating? && m.carts[c].problems != [])
  {
  }

  /** Every payload names its offers in one common order. */
  predicate InOneOrder(m: Market, rank: Id -> int) {
    forall c :: c in m.carts ==> RanksRise(m.carts[c].lines, rank)
  }

  predicate RanksRise(lines: seq<Line>, rank: Id -> int) {
    forall i, j :: 0 <= i < j < |lines| ==> rank(lines[i].offerId) < rank(lines[j].offerId)
  }

  function NextRank(m: Market, rank: Id -> int, c: Id): int
    requires Blocked(m, c)
  {
    rank(m.carts[c].lines[m.carts[c].next].offerId)
  }

  lemma {:induction false} LastToWait(m: Market, rank: Id -> int, waiting: set<Id>) returns (c: Id)
    requires waiting != {} && forall x :: x in waiting ==> Blocked(m, x)
    ensures c in waiting && forall x :: x in waiting ==> NextRank(m, rank, x) <= NextRank(m, rank, c)
    decreases |waiting|
  {
    var one :| one in waiting;
    if waiting == {one} {
      c := one;
    } else {
      var rest := waiting - {one};
      c := LastToWait(m, rank, rest);
      assert forall x :: x in waiting <==> x == one || x in rest;
      if NextRank(m, rank, c) < NextRank(m, rank, one) {
        c := one;
      }
    }
  }

  lemma {:induction false} LockedWasConsumed(lines: seq<Line>, n: nat, o: Id) returns (k: nat)
    requires n <= |lines| && o in OffersIn(lines[..n])
    ensures k < n && lines[k].offerId == o
    decreases n
  {
    OffersInGrows(lines, n - 1);
    if lines[n - 1].offerId == o {
      k := n - 1;
    } else {
      k := LockedWasConsumed(lines, n - 1, o);
    }
  }

  /** A blocked cart waits for one whose own next row ranks higher. */
  lemma WaitsForHigher(m: Market, rank: Id -> int, c: Id) returns (d: Id)
    requires Inv(m) && InOneOrder(m, rank) && Blocked(m, c)
    ensures d in m.carts && (Blocked(m, d) ==> NextRank(m, rank, c) < NextRank(m, rank, d))
  {
    var o := m.carts[c].lines[m.carts[c].next].offerId;
    d :| d in m.carts && LockedBy(m, d, o);
    CartIsOk(m, d);
    var cart := m.carts[d];
    var k := LockedWasConsumed(cart.lines, cart.next, o);
    assert RanksRise(cart.lines, rank);
  }

  /**
   When all payloads lock in one common order, whatever the order, checkouts under way never all wait:
   one of them can go on, so their locks are released in the end.
   */
  lemma OrderedCheckoutsGoOn(run: seq<Move>, rank: Id -> int)
    requires Runnable(NoMarket(), run) && Run(NoMarket(), run).carts != map[]
    requires InOneOrder(Run(NoMarket(), run), rank)
    ensures exists c :: c in Run(NoMarket(), run).carts && !Blocked(Run(NoMarket(), run), c)
  {
    var m := Run(NoMarket(), run);
    RunKeeps(NoMarket(), run);
    if forall c :: c in m.carts ==> Blocked(m, c) {
      var some :| some in m.carts;
      var c := LastToWait(m, rank, m.carts.Keys);
      var d := WaitsForHigher(m, rank, c);
    }
  }

  // ------------------------------------------------------------------ crossed payloads

  function FirstLine(c: Id, lines: seq<Line>): seq<Move> {
    ReadRun(c, lines) + [StartConsuming(c), ConsumeNext(c)]
  }

  /** A checkout that has consumed its first line and no other. */
  predicate HoldsFirst(m: Market, c: Id, lines: seq<Line>) {
    && c in m.carts && m.carts[c].Consuming? && m.carts[c].lines == lines && lines != []
    && m.carts[c].next == 1 && m.carts[c].own.Keys == {lines[0].offerId}
  }

  lemma FirstLineConsumed(m: Market, c: Id, lines: seq<Line>)
    requires c !in m.carts && Valid(m.offers, lines) && lines != [] && Unlocked(m, lines[0].offerId)
    ensures Runnable(m, FirstLine(c, lines))
    ensures var after := Run(m, FirstLine(c, lines));
      HoldsFirst(after, c, lines) && after == m.(carts := m.carts[c := after.carts[c]])
  {
    SoloReads(m, c, lines);
    var read := Run(m, ReadRun(c, lines));
    var started := After(read, StartConsuming(c));
    assert lines[0] in lines;
    forall x | x in started.carts ensures !LockedBy(started, x, lines[0].offerId) {
      assert x in m.carts ==> !LockedBy(m, x, lines[0].offerId);
    }
    assert started.offers + map[] == m.offers;
    SoloCheckout.Alone(started, ConsumeNext(c));
    assert [StartConsuming(c), ConsumeNext(c)][1..] == [ConsumeNext(c)];
    RunJoins(m, ReadRun(c, lines), [StartConsuming(c), ConsumeNext(c)]);
    SameCartTwice(m.carts, c, started.carts[c], Run(m, FirstLine(c, lines)).carts[c]);
    SameCartTwice(m.carts, c, read.carts[c], started.carts[c]);
  }

  lemma WaitingForOther(m: Market, c: Id, d: Id, lines: seq<Line>)
    requires c != d && |lines| == 2 && HoldsFirst(m, c, lines) && LockedBy(m, d, lines[1].offerId)
    requires lines[0].offerId != lines[1].offerId
    ensures Blocked(m, c)
  {
  }

  /** Two checkouts that name two offers in opposite orders can each come to wait for the other. */
  lemma CrossedCheckoutsBlock(m: Market, a: Id, b: Id, x: Line, y: Line)
    requires a != b && a !in m.carts && b !in m.carts && x.offerId != y.offerId
    requires Valid(m.offers, [x, y]) && Unlocked(m, x.offerId) && Unlocked(m, y.offerId)
    ensures var run := FirstLine(a, [x, y]) + FirstLine(b, [y, x]);
      Runnable(m, run) && Blocked(Run(m, run), a) && Blocked(Run(m, run), b)
  {
    FirstLineConsumed(m, a, [x, y]);
    var first := Run(m, FirstLine(a, [x, y]));
    forall l | l in [y, x] ensures ValidateItem(first.offers, l).None? {
      assert l in [x, y];
    }
    forall c | c in first.carts ensures !LockedBy(first, c, y.offerId) {
      assert c in m.carts ==> !LockedBy(m, c, y.offerId);
    }
    FirstLineConsumed(first, b, [y, x]);
    RunJoins(m, FirstLine(a, [x, y]), FirstLine(b, [y, x]));
    var both := Run(first, FirstLine(b, [y, x]));
    assert both.carts[a] == first.carts[a];
    WaitingForOther(both, a, b, [x, y]);
    WaitingForOther(both, b, a, [y, x]);
  }
}
