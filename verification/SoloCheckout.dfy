/** One checkout stepping through the market with nobody in its way is the straight-line checkout. */
module SoloCheckout {
  import opened Policy
  import opened Records
  import opened Checkout
  import opened Market
  import opened MarketInvariant
  import opened MarketRuns
  import opened Shop

  function Times(v: Move, n: nat): seq<Move> {
    if n == 0 then [] else [v] + Times(v, n - 1)
  }

  lemma {:induction false} RunJoins(m: Market, a: seq<Move>, b: seq<Move>)
    requires Runnable(m, a) && Runnable(Run(m, a), b)
    ensures Runnable(m, a + b) && Run(m, a + b) == Run(Run(m, a), b)
    decreases |a|
  {
    if a == [] {
      assert a + b == b;
    } else {
      RunJoins(After(m, a[0]), a[1..], b);
      assert (a + b)[0] == a[0] && (a + b)[1..] == a[1..] + b;
    }
  }

  lemma Alone(m: Market, v: Move)
    requires CanMove(m, v)
    ensures Runnable(m, [v]) && Run(m, [v]) == After(m, v)
  {
  }

  lemma RunFirst(m: Market, v: Move, n: nat)
    requires n > 0 && CanMove(m, v) && Runnable(After(m, v), Times(v, n - 1))
    ensures Runnable(m, Times(v, n)) && Run(m, Times(v, n)) == Run(After(m, v), Times(v, n - 1))
  {
  }

  /** A cart that reads only what the buyer expected has its whole payload read, at the expected prices. */
  lemma {:induction false} ReadsAll(m: Market, c: Id, n: nat)
    requires c in m.carts && m.carts[c].Validating? && m.carts[c].next + n == |m.carts[c].lines|
    requires m.carts[c].problems == [] && |m.carts[c].read| == m.carts[c].next
    requires PricesOk(m.carts[c].lines, PricesOf(m.carts[c].read))
    requires Valid(m.offers, m.carts[c].lines)
    ensures Runnable(m, Times(ValidateNext(c), n))
    ensures var after := Run(m, Times(ValidateNext(c), n));
      && c in after.carts && after == m.(carts := m.carts[c := after.carts[c]])
      && after.carts[c].Validating? && after.carts[c].problems == []
      && after.carts[c].lines == m.carts[c].lines
      && after.carts[c].next == |after.carts[c].read| == |after.carts[c].lines|
      && PricesOk(after.carts[c].lines, PricesOf(after.carts[c].read))
    decreases n
  {
    if n == 0 {
      assert m.carts[c := m.carts[c]] == m.carts;
    } else {
      var next := After(m, ValidateNext(c));
      ReadsOne(m.offers, m.carts[c]);
      ReadsAll(next, c, n - 1);
      RunFirst(m, ValidateNext(c), n);
      SameCartTwice(m.carts, c, next.carts[c], Run(next, Times(ValidateNext(c), n - 1)).carts[c]);
    }
  }

  lemma ReadsOne(offers: map<Id, Offer>, cart: Cart)
    requires cart.Validating? && cart.next < |cart.lines| && |cart.read| == cart.next
    requires Valid(offers, cart.lines) && PricesOk(cart.lines, PricesOf(cart.read))
    ensures ValidateItem(offers, cart.lines[cart.next]).None?
    ensures PricesOk(cart.lines, PricesOf(cart.read + [offers[cart.lines[cart.next].offerId]]))
  {
  }

  predicate Free(m: Market, c: Id, lines: seq<Line>) {
    forall l :: l in lines ==> LockedBy(m, c, l.offerId) || Unlocked(m, l.offerId)
  }

  /** The rows as the cart's transaction sees them. */
  function Seen(m: Market, c: Id): map<Id, Offer>
    requires c in m.carts && m.carts[c].Consuming?
  {
    m.offers + m.carts[c].own
  }

  /** From one market to the other only this cart moved, to this line. */
  predicate OnlyCart(m: Market, after: Market, c: Id, lines: seq<Line>, prices: seq<int>, next: nat) {
    && c in after.carts && after == m.(carts := m.carts[c := after.carts[c]])
    && after.carts[c].Consuming? && after.carts[c].lines == lines && after.carts[c].prices == prices
    && after.carts[c].next == next
  }

  lemma OnlyCartTwice(m: Market, middle: Market, after: Market, c: Id, lines: seq<Line>, prices: seq<int>, k: nat, n: nat)
    requires OnlyCart(m, middle, c, lines, prices, k) && OnlyCart(middle, after, c, lines, prices, n)
    ensures OnlyCart(m, after, c, lines, prices, n)
  {
  }

  lemma ConsumesOne(m: Market, c: Id)
    requires c in m.carts && m.carts[c].Consuming? && m.carts[c].next < |m.carts[c].lines|
    requires Free(m, c, m.carts[c].lines)
    requires ConsumeAll(Seen(m, c), m.carts[c].lines[m.carts[c].next..]).Consumed?
    ensures CanMove(m, ConsumeNext(c))
    ensures var next, cart := After(m, ConsumeNext(c)), m.carts[c];
      && OnlyCart(m, next, c, cart.lines, cart.prices, cart.next + 1)
      && Free(next, c, cart.lines)
      && ConsumeAll(Seen(next, c), cart.lines[cart.next + 1..]) == ConsumeAll(Seen(m, c), cart.lines[cart.next..])
  {
    var cart := m.carts[c];
    var line := cart.lines[cart.next];
    assert line in cart.lines;
    var offer := ConsumeStock(Seen(m, c), line).value;
    assert cart.lines[cart.next..][0] == line && cart.lines[cart.next..][1..] == cart.lines[cart.next + 1..];
    assert m.offers + cart.own[line.offerId := offer] == Seen(m, c)[line.offerId := offer];
    var next := After(m, ConsumeNext(c));
    forall l | l in cart.lines ensures LockedBy(next, c, l.offerId) || Unlocked(next, l.offerId) {
      if l.offerId != line.offerId {
        assert forall x :: LockedBy(next, x, l.offerId) <==> LockedBy(m, x, l.offerId);
      }
    }
  }

  lemma {:induction false} ConsumesAll(m: Market, c: Id, n: nat)
    requires c in m.carts && m.carts[c].Consuming? && m.carts[c].next + n == |m.carts[c].lines|
    requires Free(m, c, m.carts[c].lines)
    requires ConsumeAll(Seen(m, c), m.carts[c].lines[m.carts[c].next..]).Consumed?
    ensures Runnable(m, Times(ConsumeNext(c), n))
    ensures var after, cart := Run(m, Times(ConsumeNext(c), n)), m.carts[c];
      && OnlyCart(m, after, c, cart.lines, cart.prices, |cart.lines|)
      && Seen(after, c) == ConsumeAll(Seen(m, c), cart.lines[cart.next..]).offers
    decreases n
  {
    if n == 0 {
      assert m.carts[c := m.carts[c]] == m.carts;
      assert m.carts[c].lines[m.carts[c].next..] == [];
    } else {
      var next, cart := After(m, ConsumeNext(c)), m.carts[c];
      ConsumesOne(m, c);
      ConsumesAll(next, c, n - 1);
      RunFirst(m, ConsumeNext(c), n);
      OnlyCartTwice(m, next, Run(m, Times(ConsumeNext(c), n)), c, cart.lines, cart.prices, cart.next + 1, |cart.lines|);
    }
  }

  lemma SameCartTwice(carts: map<Id, Cart>, c: Id, first: Cart, second: Cart)
    ensures carts[c := first][c := second] == carts[c := second]
  {
  }

  function ReadRun(c: Id, lines: seq<Line>): seq<Move> {
    [Begin(c, lines)] + Times(ValidateNext(c), |lines|)
  }

  function ConsumeRun(c: Id, n: nat): seq<Move> {
    [StartConsuming(c)] + Times(ConsumeNext(c), n)
  }

  function SoloRun(c: Id, lines: seq<Line>, orderId: Id, buyerId: Id, now: Time): seq<Move> {
    ReadRun(c, lines) + ConsumeRun(c, |lines|) + [Commit(c, orderId, buyerId, now)]
  }

  lemma SoloReads(m: Market, c: Id, lines: seq<Line>)
    requires c !in m.carts && Valid(m.offers, lines)
    ensures Runnable(m, ReadRun(c, lines))
    ensures var after := Run(m, ReadRun(c, lines));
      && CanMove(after, StartConsuming(c)) && after == m.(carts := m.carts[c := after.carts[c]])
      && after.carts[c].lines == lines && |after.carts[c].read| == |lines|
      && PricesOk(lines, PricesOf(after.carts[c].read))
  {
    var begun := After(m, Begin(c, lines));
    Alone(m, Begin(c, lines));
    ReadsAll(begun, c, |lines|);
    RunJoins(m, [Begin(c, lines)], Times(ValidateNext(c), |lines|));
    var after := Run(m, ReadRun(c, lines));
    assert begun.carts[c := after.carts[c]] == m.carts[c := after.carts[c]];
  }

  lemma SoloConsumes(m: Market, c: Id)
    requires CanMove(m, StartConsuming(c)) && (forall l :: l in m.carts[c].lines ==> Unlocked(m, l.offerId))
    requires |m.carts[c].read| == |m.carts[c].lines|
    requires ConsumeAll(m.offers, m.carts[c].lines).Consumed?
    ensures Runnable(m, ConsumeRun(c, |m.carts[c].lines|))
    ensures var after, cart := Run(m, ConsumeRun(c, |m.carts[c].lines|)), m.carts[c];
      && OnlyCart(m, after, c, cart.lines, PricesOf(cart.read), |cart.lines|)
      && Seen(after, c) == ConsumeAll(m.offers, cart.lines).offers
  {
    var started, lines := After(m, StartConsuming(c)), m.carts[c].lines;
    Alone(m, StartConsuming(c));
    assert Seen(started, c) == m.offers && lines[0..] == lines;
    forall l | l in lines ensures Unlocked(started, l.offerId) {
      assert forall x :: LockedBy(started, x, l.offerId) ==> LockedBy(m, x, l.offerId);
    }
    ConsumesAll(started, c, |lines|);
    RunJoins(m, [StartConsuming(c)], Times(ConsumeNext(c), |lines|));
    OnlyCartTwice(m, started, Run(m, ConsumeRun(c, |lines|)), c, lines, PricesOf(m.carts[c].read), 0, |lines|);
  }

  /**
   A checkout whose offers nobody has locked, whose lines all validate and whose stocks cover them can
   run to its commit, and then leaves exactly the tables and the log the straight-line checkout leaves.
   */
  lemma SoloCheckoutCommits(m: Market, c: Id, lines: seq<Line>, orderId: Id, buyerId: Id, now: Time)
    requires c !in m.carts && (forall l :: l in lines ==> Unlocked(m, l.offerId))
    requires ReceiptFor(m.offers, lines).Accepted?
    ensures Runnable(m, SoloRun(c, lines, orderId, buyerId, now))
    ensures Run(m, SoloRun(c, lines, orderId, buyerId, now))
         == m.(offers := ConsumeAll(m.offers, lines).offers,
               purchases := m.purchases + Purchases(orderId, lines, 0, now),
               log := m.log + [OrderCreated(orderId, buyerId)])
  {
    NoProblemsMeansValid(m.offers, lines);
    SoloReads(m, c, lines);
    var read := Run(m, ReadRun(c, lines));
    forall l | l in lines ensures Unlocked(read, l.offerId) {
      assert forall x :: LockedBy(read, x, l.offerId) ==> LockedBy(m, x, l.offerId);
    }
    SoloConsumes(read, c);
    var consumed := Run(read, ConsumeRun(c, |lines|));
    RunJoins(m, ReadRun(c, lines), ConsumeRun(c, |lines|));
    Alone(consumed, Commit(c, orderId, buyerId, now));
    RunJoins(m, ReadRun(c, lines) + ConsumeRun(c, |lines|), [Commit(c, orderId, buyerId, now)]);
    BoughtIsPurchases(orderId, lines, consumed.carts[c].prices, 0, now);
    assert Without(consumed.carts, c) == m.carts;
  }

  // ------------------------------------------------------------------ and only then

  predicate SoloMove(v: Move, c: Id) {
    (v.ValidateNext? || v.StartConsuming? || v.ConsumeNext? || v.Commit?) && v.cart == c
  }

  /** One checkout's own steps, from its payload to a commit, nobody else moving. */
  predicate CommitsAlone(m: Market, run: seq<Move>, c: Id, lines: seq<Line>) {
    && run != [] && run[0] == Begin(c, lines)
    && (forall v :: v in run[1..] ==> SoloMove(v, c))
    && Runnable(m, run) && HasCommit(run)
  }

  predicate HasCommit(run: seq<Move>) {
    exists v :: v in run && v.Commit?
  }

  /** How far the cart has come, told by the straight-line checkout. */
  predicate OnTrack(m: Market, c: Id, offers: map<Id, Offer>, lines: seq<Line>) {
    && m.offers == offers && c in m.carts && m.carts[c].lines == lines && m.carts[c].next <= |lines|
    && match m.carts[c]
       case Validating(_, read, problems, next) => problems == Problems(offers, lines[..next])
       case Consuming(_, _, own, next) =>
         Problems(offers, lines) == [] && ConsumeAll(offers, lines) == ConsumeAll(offers + own, lines[next..])
  }

  lemma StepsOnTrack(m: Market, v: Move, c: Id, offers: map<Id, Offer>, lines: seq<Line>)
    requires OnTrack(m, c, offers, lines) && SoloMove(v, c) && !v.Commit? && CanMove(m, v)
    ensures c in After(m, v).carts ==> OnTrack(After(m, v), c, offers, lines)
  {
    var cart := m.carts[c];
    match v
    case ValidateNext(_) => ProblemsGrow(offers, lines, cart.next);
    case StartConsuming(_) =>
      assert lines[..cart.next] == lines && lines[0..] == lines && offers + map[] == offers;
    case ConsumeNext(_) =>
      var line := lines[cart.next];
      assert lines[cart.next..][0] == line && lines[cart.next..][1..] == lines[cart.next + 1..];
      if ConsumeStock(offers + cart.own, line).Some? {
        var offer := ConsumeStock(offers + cart.own, line).value;
        assert offers + cart.own[line.offerId := offer] == (offers + cart.own)[line.offerId := offer];
      }
    case _ =>
  }

  lemma {:induction false} CommitMeansAccepted(m: Market, run: seq<Move>, c: Id, offers: map<Id, Offer>, lines: seq<Line>)
    requires c in m.carts ==> OnTrack(m, c, offers, lines)
    requires Runnable(m, run) && (forall v :: v in run ==> SoloMove(v, c)) && HasCommit(run)
    ensures ReceiptFor(offers, lines).Accepted?
    decreases |run|
  {
    assert run[0] in run;
    if run[0].Commit? {
      assert lines[|lines|..] == [];
    } else {
      StepsOnTrack(m, run[0], c, offers, lines);
      var v :| v in run && v.Commit?;
      assert v in run[1..];
      CommitMeansAccepted(After(m, run[0]), run[1..], c, offers, lines);
    }
  }

  lemma {:induction false} TimesOnly(v: Move, n: nat)
    ensures forall x :: x in Times(v, n) ==> x == v
  {
    if n == 0 {
    } else {
      TimesOnly(v, n - 1);
    }
  }

  lemma SoloRunIsSolo(c: Id, lines: seq<Line>, orderId: Id, buyerId: Id, now: Time)
    ensures var run := SoloRun(c, lines, orderId, buyerId, now);
      && run[0] == Begin(c, lines) && HasCommit(run) && forall v :: v in run[1..] ==> SoloMove(v, c)
  {
    var n := |lines|;
    var run := SoloRun(c, lines, orderId, buyerId, now);
    TimesOnly(ValidateNext(c), n);
    TimesOnly(ConsumeNext(c), n);
    assert run[1..] == Times(ValidateNext(c), n) + ConsumeRun(c, n) + [Commit(c, orderId, buyerId, now)];
    assert run[|run| - 1] == Commit(c, orderId, buyerId, now);
  }

  /** Alone in the machine a checkout can reach its commit exactly if the straight-line checkout accepts it. */
  lemma SoloCheckoutCommitsExactly(m: Market, c: Id, lines: seq<Line>)
    requires c !in m.carts && (forall l :: l in lines ==> Unlocked(m, l.offerId))
    ensures (exists run :: CommitsAlone(m, run, c, lines)) <==> ReceiptFor(m.offers, lines).Accepted?
  {
    if ReceiptFor(m.offers, lines).Accepted? {
      SoloCheckoutCommits(m, c, lines, 0, 0, 0);
      SoloRunIsSolo(c, lines, 0, 0, 0);
      assert CommitsAlone(m, SoloRun(c, lines, 0, 0, 0), c, lines);
    }
    if run: seq<Move> :| CommitsAlone(m, run, c, lines) {
      var v :| v in run && v.Commit?;
      assert v in run[1..];
      CommitMeansAccepted(After(m, run[0]), run[1..], c, m.offers, lines);
    }
  }
}
