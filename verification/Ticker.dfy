/** The rate and the backlog of the worker's reconcile ticker. */
module Ticker {
  import opened Options
  import opened Policy
  import opened Notices
  import opened WorkerRuns

  function EnqueueTimes(): Tick -> Option<Time> {
    (x: Tick) => if x.ReconcileEnqueued? then Some(x.at) else None
  }

  function Receipts(): Tick -> Option<Tick> {
    (x: Tick) => if x.ReconcileReceived? then Some(x) else None
  }

  /** When the ticker has enqueued, oldest first. */
  function Times(ticks: seq<Tick>): seq<Time> {
    Collect(EnqueueTimes(), ticks)
  }

  predicate Spaced(times: seq<Time>, interval: int) {
    forall i :: 0 < i < |times| ==> times[i] - times[i - 1] >= interval
  }

  predicate Separated(ticks: seq<Tick>) {
    forall i :: 0 < i < |ticks| && ticks[i].ReconcileEnqueued? ==> ticks[i - 1].ReconcileReceived?
  }

  predicate TicksOk(pending: bool, lastAt: Time, ticks: seq<Tick>, interval: int) {
    && (pending <==> ticks != [] && ticks[|ticks| - 1].ReconcileEnqueued?)
    && Separated(ticks)
    && (Times(ticks) != [] ==> Times(ticks)[|Times(ticks)| - 1] == lastAt)
    && Spaced(Times(ticks), interval)
    && (interval <= 0 ==> Times(ticks) == [])
  }

  predicate TickInv(w: Worker, interval: int) {
    TicksOk(w.pending, w.lastAt, w.ticks, interval)
  }

  lemma OneMoreTick(ticks: seq<Tick>, x: Tick)
    ensures Times(ticks + [x]) == Times(ticks) + AsSeq(EnqueueTimes()(x))
  {
    CollectConcat(EnqueueTimes(), ticks, [x]);
    CollectOne(EnqueueTimes(), x);
  }

  lemma ReceivedKeepsTicks(pending: bool, lastAt: Time, ticks: seq<Tick>, handle: nat, interval: int)
    requires TicksOk(pending, lastAt, ticks, interval)
    ensures TicksOk(false, lastAt, ticks + [ReconcileReceived(handle)], interval)
  {
    OneMoreTick(ticks, ReconcileReceived(handle));
  }

  lemma EnqueuedKeepsTicks(lastAt: Time, ticks: seq<Tick>, handle: nat, at: Time, interval: int)
    requires TicksOk(false, lastAt, ticks, interval) && interval > 0 && at - lastAt >= interval
    ensures TicksOk(true, at, ticks + [ReconcileEnqueued(handle, at)], interval)
  {
    OneMoreTick(ticks, ReconcileEnqueued(handle, at));
  }

  /** Of the ticker's own fields a job touches only what the callback touches. */
  lemma ProcessedFields(w: Worker, t: Turn)
    ensures var after, received := Processed(w, t), Received(w.sent, t.incoming);
      var noticed := if received.Some? then Noticed(w, received.value, w.sent[received.value]) else w;
      after.ticks == noticed.ticks && after.pending == noticed.pending && after.lastAt == noticed.lastAt
  {
  }

  lemma ProcessedTicks(w: Worker, t: Turn, interval: int)
    requires TickInv(w, interval)
    ensures TickInv(Processed(w, t), interval)
  {
    ProcessedFields(w, t);
    var received := Received(w.sent, t.incoming);
    if received.Some? {
      ReceivedKeepsTicks(w.pending, w.lastAt, w.ticks, received.value, interval);
    }
  }

  lemma TickedKeeps(w: Worker, t: Turn, interval: int)
    requires TickInv(w, interval) && t.checkedAt <= t.stampedAt
    ensures TickInv(Ticked(w, t, interval), interval)
  {
    if Due(w, t, interval) {
      EnqueuedKeepsTicks(w.lastAt, w.ticks, |w.sent|, t.stampedAt, interval);
    }
  }

  lemma TurnedKeepsTicks(w: Worker, t: Turn, interval: int)
    requires TickInv(w, interval) && t.checkedAt <= t.stampedAt
    ensures TickInv(Turned(w, t, interval), interval)
  {
    var arrived := Arrived(w, t.arrivals);
    ProcessedTicks(arrived, t, interval);
    TickedKeeps(Processed(arrived, t), t, interval);
  }

  /** Within a turn the clock is read twice, and the second reading is not the earlier one. */
  predicate ClockOk(turns: seq<Turn>) {
    forall t :: t in turns ==> t.checkedAt <= t.stampedAt
  }

  lemma {:induction false} RunKeepsTicks(w: Worker, turns: seq<Turn>, interval: int)
    requires TickInv(w, interval) && ClockOk(turns)
    ensures TickInv(RunOf(w, turns, interval), interval)
    decreases |turns|
  {
    if turns == [] {
    } else {
      assert turns[0] in turns;
      TurnedKeepsTicks(w, turns[0], interval);
      RunKeepsTicks(Turned(w, turns[0], interval), turns[1..], interval);
    }
  }

  lemma {:induction false} SpacedOut(times: seq<Time>, interval: int, i: nat, j: nat)
    requires Spaced(times, interval) && i <= j < |times|
    ensures times[j] - times[i] >= (j - i) * interval
    decreases j
  {
    if i < j {
      SpacedOut(times, interval, i, j - 1);
      assert (j - i) * interval == (j - 1 - i) * interval + interval;
    }
  }

  /** When the ticker last enqueued; a first job counts from an interval before the start. */
  function LastEnqueue(ticks: seq<Tick>, interval: int, start: Time): Time {
    var times := Times(ticks);
    if times != [] then times[|times| - 1] else if interval > 0 then start - interval else start
  }

  /** The last reconcile job enqueued has not been followed by any receipt of one. */
  predicate Waiting(ticks: seq<Tick>) {
    ticks != [] && ticks[|ticks| - 1].ReconcileEnqueued?
  }

  lemma TurnKeepsLast(w: Worker, t: Turn, interval: int, start: Time)
    requires w.lastAt == LastEnqueue(w.ticks, interval, start)
    ensures Turned(w, t, interval).lastAt == LastEnqueue(Turned(w, t, interval).ticks, interval, start)
    ensures var arrived := Arrived(w, t.arrivals);
      var before := Processed(arrived, t);
      && Times(before.ticks) == Times(w.ticks)
      && (|Times(Turned(w, t, interval).ticks)| > |Times(w.ticks)| <==>
            !LoopError(arrived, t) && Due(before, t, interval) && !t.sendFails)
  {
    var arrived := Arrived(w, t.arrivals);
    ProcessedFields(arrived, t);
    var received := Received(arrived.sent, t.incoming);
    if received.Some? {
      OneMoreTick(w.ticks, ReconcileReceived(received.value));
    }
    var before := Processed(arrived, t);
    OneMoreTick(before.ticks, ReconcileEnqueued(|before.sent|, t.stampedAt));
  }

  lemma {:induction false} RunKeepsLast(w: Worker, turns: seq<Turn>, interval: int, start: Time)
    requires w.lastAt == LastEnqueue(w.ticks, interval, start)
    ensures RunOf(w, turns, interval).lastAt == LastEnqueue(RunOf(w, turns, interval).ticks, interval, start)
    decreases |turns|
  {
    if turns == [] {
    } else {
      TurnKeepsLast(w, turns[0], interval, start);
      RunKeepsLast(Turned(w, turns[0], interval), turns[1..], interval, start);
    }
  }

  /**
   When the ticker enqueues, after any run: exactly in a turn in which neither the queue nor a delete fails,
   at an interval or more from its last enqueue, if some reconcile job was received since or is in this turn.
   */
  lemma EnqueuesExactly(sent: seq<Job>, turns: seq<Turn>, interval: int, start: Time, t: Turn)
    requires ClockOk(turns)
    ensures var w := RunOf(Started(sent, interval, start), turns, interval);
      var queue := w.sent + t.arrivals;
      var received := Received(queue, t.incoming);
      |Times(Turned(w, t, interval).ticks)| > |Times(w.ticks)| <==>
        && !t.incoming.ReceiveFails? && !t.sendFails
        && !(received.Some? && !Raises(queue[received.value], t.fault) && t.deleteFails)
        && interval > 0 && t.checkedAt - LastEnqueue(w.ticks, interval, start) >= interval
        && (Waiting(w.ticks) ==> received.Some? && queue[received.value].ReconcilePriorities?)
  {
    var w := RunOf(Started(sent, interval, start), turns, interval);
    RunKeepsTicks(Started(sent, interval, start), turns, interval);
    RunKeepsLast(Started(sent, interval, start), turns, interval, start);
    TurnKeepsLast(w, t, interval, start);
    ProcessedFields(Arrived(w, t.arrivals), t);
  }

  /** Whatever the handlers and the queue do, enqueues keep their distance: N of them span N - 1 intervals. */
  lemma TickerRate(sent: seq<Job>, turns: seq<Turn>, interval: int, now: Time, i: nat, j: nat)
    requires ClockOk(turns)
    ensures var times := Times(RunOf(Started(sent, interval, now), turns, interval).ticks);
      && (interval <= 0 ==> times == [])
      && (i <= j < |times| ==> times[j] - times[i] >= (j - i) * interval)
  {
    var w := RunOf(Started(sent, interval, now), turns, interval);
    RunKeepsTicks(Started(sent, interval, now), turns, interval);
    if i <= j < |Times(w.ticks)| {
      SpacedOut(Times(w.ticks), interval, i, j);
    }
  }

  lemma {:induction false} EnqueuesByReceipts(ticks: seq<Tick>)
    requires Separated(ticks)
    ensures |Times(ticks)| <= |Collect(Receipts(), ticks)| + 1
    ensures ticks != [] && ticks[0].ReconcileReceived? ==> |Times(ticks)| <= |Collect(Receipts(), ticks)|
    decreases |ticks|
  {
    if |ticks| > 1 {
      var first, rest := ticks[0], ticks[1..];
      assert Separated(rest) by {
        assert forall i :: 0 < i < |rest| ==> rest[i] == ticks[i + 1] && rest[i - 1] == ticks[i];
      }
      EnqueuesByReceipts(rest);
      if first.ReconcileEnqueued? {
        assert rest[0] == ticks[1];
        assert rest[0].ReconcileReceived?;
      }
    } else if |ticks| == 1 {
      assert ticks == [ticks[0]];
      CollectOne(EnqueueTimes(), ticks[0]);
      CollectOne(Receipts(), ticks[0]);
    }
  }

  /**
   Between two enqueues some reconcile job was received, of whatever origin, so the ticker enqueues at
   most one job more than the worker receives.
   */
  lemma TickerBacklog(sent: seq<Job>, turns: seq<Turn>, interval: int, now: Time, i: nat, j: nat)
    requires ClockOk(turns)
    ensures var ticks := RunOf(Started(sent, interval, now), turns, interval).ticks;
      && |Times(ticks)| <= |Collect(Receipts(), ticks)| + 1
      && (i < j < |ticks| && ticks[i].ReconcileEnqueued? && ticks[j].ReconcileEnqueued? ==>
            exists k :: i < k < j && ticks[k].ReconcileReceived?)
  {
    var ticks := RunOf(Started(sent, interval, now), turns, interval).ticks;
    RunKeepsTicks(Started(sent, interval, now), turns, interval);
    EnqueuesByReceipts(ticks);
    if i < j < |ticks| && ticks[i].ReconcileEnqueued? && ticks[j].ReconcileEnqueued? {
      assert ticks[j - 1].ReconcileReceived?;
    }
  }

  // ------------------------------------------------------------------ the ticker's own jobs

  function AfterTick(waiting: set<nat>, x: Tick): set<nat> {
    if x.ReconcileEnqueued? then waiting + {x.handle} else waiting - {x.handle}
  }

  /** The jobs the ticker enqueued that have not been received since. */
  function Unreceived(ticks: seq<Tick>): set<nat>
    decreases |ticks|
  {
    if ticks == [] then {} else AfterTick(Unreceived(ticks[..|ticks| - 1]), ticks[|ticks| - 1])
  }

  /** At no time are two of the ticker's jobs unreceived. */
  predicate NeverTwoUnreceived(ticks: seq<Tick>) {
    forall n :: 0 <= n <= |ticks| ==> |Unreceived(ticks[..n])| <= 1
  }

  predicate ReceivedBetween(ticks: seq<Tick>, i: nat, j: nat)
    requires i < |ticks| && j <= |ticks|
  {
    exists k :: i < k < j && ticks[k] == ReconcileReceived(ticks[i].handle)
  }

  /** Before the ticker enqueues again, the job it enqueued last is itself received. */
  predicate AnsweredInTurn(ticks: seq<Tick>) {
    forall i, j :: 0 <= i < j < |ticks| && ticks[i].ReconcileEnqueued? && ticks[j].ReconcileEnqueued? ==>
      ReceivedBetween(ticks, i, j)
  }

  predicate FreshHandles(ticks: seq<Tick>, bound: nat) {
    && (forall i :: 0 <= i < |ticks| && ticks[i].ReconcileEnqueued? ==> ticks[i].handle < bound)
    && (forall i, j :: 0 <= i < j < |ticks| && ticks[i].ReconcileEnqueued? && ticks[j].ReconcileEnqueued? ==>
          ticks[i].handle != ticks[j].handle)
  }

  lemma UnreceivedGrows(ticks: seq<Tick>, n: nat)
    requires n < |ticks|
    ensures Unreceived(ticks[..n + 1]) == AfterTick(Unreceived(ticks[..n]), ticks[n])
  {
    assert ticks[..n + 1][..n] == ticks[..n];
  }

  /** An enqueued job stays unreceived until it is received. */
  lemma {:induction false} StaysUnreceived(ticks: seq<Tick>, i: nat, n: nat)
    requires i < n <= |ticks| && ticks[i].ReconcileEnqueued? && !ReceivedBetween(ticks, i, n)
    ensures ticks[i].handle in Unreceived(ticks[..n])
    decreases n
  {
    UnreceivedGrows(ticks, n - 1);
    if n > i + 1 {
      StaysUnreceived(ticks, i, n - 1);
    }
  }

  /** What is unreceived was enqueued and not received since. */
  lemma {:induction false} UnreceivedWasEnqueued(ticks: seq<Tick>, n: nat, h: nat) returns (i: nat)
    requires n <= |ticks| && h in Unreceived(ticks[..n])
    ensures i < n && ticks[i].ReconcileEnqueued? && ticks[i].handle == h && !ReceivedBetween(ticks, i, n)
    decreases n
  {
    UnreceivedGrows(ticks, n - 1);
    if ticks[n - 1].ReconcileEnqueued? && ticks[n - 1].handle == h {
      i := n - 1;
    } else {
      i := UnreceivedWasEnqueued(ticks, n - 1, h);
    }
  }

  lemma AnsweredMeansOne(ticks: seq<Tick>, n: nat, a: nat, b: nat)
    requires AnsweredInTurn(ticks) && n <= |ticks| && a in Unreceived(ticks[..n]) && b in Unreceived(ticks[..n])
    ensures a == b
  {
    var i := UnreceivedWasEnqueued(ticks, n, a);
    var j := UnreceivedWasEnqueued(ticks, n, b);
  }

  lemma AtMostOneMember(s: set<nat>)
    requires forall a, b :: a in s && b in s ==> a == b
    ensures |s| <= 1
  {
    if s != {} {
      var a :| a in s;
      assert s == {a};
    }
  }

  lemma TwoMembers(s: set<nat>, a: nat, b: nat)
    requires a in s && b in s && a != b
    ensures |s| > 1
  {
    assert |s - {a}| == |s| - 1 && b in s - {a};
  }

  lemma UnansweredMeansTwo(ticks: seq<Tick>, i: nat, j: nat, bound: nat)
    requires FreshHandles(ticks, bound) && i < j < |ticks| && ticks[i].ReconcileEnqueued? && ticks[j].ReconcileEnqueued?
    requires !ReceivedBetween(ticks, i, j)
    ensures |Unreceived(ticks[..j + 1])| > 1
  {
    StaysUnreceived(ticks, i, j);
    UnreceivedGrows(ticks, j);
    TwoMembers(Unreceived(ticks[..j + 1]), ticks[i].handle, ticks[j].handle);
  }

  lemma NeverTwoExactly(ticks: seq<Tick>, bound: nat)
    requires FreshHandles(ticks, bound)
    ensures NeverTwoUnreceived(ticks) <==> AnsweredInTurn(ticks)
  {
    if AnsweredInTurn(ticks) {
      forall n | 0 <= n <= |ticks| ensures |Unreceived(ticks[..n])| <= 1 {
        forall a, b | a in Unreceived(ticks[..n]) && b in Unreceived(ticks[..n]) ensures a == b {
          AnsweredMeansOne(ticks, n, a, b);
        }
        AtMostOneMember(Unreceived(ticks[..n]));
      }
    }
    if NeverTwoUnreceived(ticks) {
      forall i, j | 0 <= i < j < |ticks| && ticks[i].ReconcileEnqueued? && ticks[j].ReconcileEnqueued?
        ensures ReceivedBetween(ticks, i, j)
      {
        if !ReceivedBetween(ticks, i, j) {
          UnansweredMeansTwo(ticks, i, j, bound);
        }
      }
    }
  }

  lemma MoreHandles(ticks: seq<Tick>, bound: nat, more: nat)
    requires FreshHandles(ticks, bound) && bound <= more
    ensures FreshHandles(ticks, more)
    ensures forall h :: FreshHandles(ticks + [ReconcileReceived(h)], more)
    ensures forall at :: FreshHandles(ticks + [ReconcileEnqueued(more, at)], more + 1)
  {
  }

  lemma ProcessedSent(w: Worker, t: Turn)
    ensures Processed(w, t).sent == w.sent
  {
  }

  lemma TurnedHandles(w: Worker, t: Turn, interval: int)
    requires FreshHandles(w.ticks, |w.sent|)
    ensures FreshHandles(Turned(w, t, interval).ticks, |Turned(w, t, interval).sent|)
  {
    var arrived := Arrived(w, t.arrivals);
    MoreHandles(w.ticks, |w.sent|, |arrived.sent|);
    ProcessedFields(arrived, t);
    ProcessedSent(arrived, t);
    MoreHandles(Processed(arrived, t).ticks, |arrived.sent|, |arrived.sent|);
  }

  lemma {:induction false} RunHandles(w: Worker, turns: seq<Turn>, interval: int)
    requires FreshHandles(w.ticks, |w.sent|)
    ensures FreshHandles(RunOf(w, turns, interval).ticks, |RunOf(w, turns, interval).sent|)
    decreases |turns|
  {
    if turns == [] {
    } else {
      TurnedHandles(w, turns[0], interval);
      RunHandles(Turned(w, turns[0], interval), turns[1..], interval);
    }
  }

  /** Two of the ticker's jobs are unreceived at some time exactly if one is enqueued before the one before it is received. */
  lemma OwnBacklogExactly(sent: seq<Job>, turns: seq<Turn>, interval: int, now: Time)
    ensures var ticks := RunOf(Started(sent, interval, now), turns, interval).ticks;
      NeverTwoUnreceived(ticks) <==> AnsweredInTurn(ticks)
  {
    var w := RunOf(Started(sent, interval, now), turns, interval);
    RunHandles(Started(sent, interval, now), turns, interval);
    NeverTwoExactly(w.ticks, |w.sent|);
  }

  // ------------------------------------------------------------------ no other reconcile jobs

  predicate NoReconciles(jobs: seq<Job>) {
    forall job :: job in jobs ==> !job.ReconcilePriorities?
  }

  /** No turn brings reconcile jobs from elsewhere. */
  predicate NoneArrive(turns: seq<Turn>) {
    forall t :: t in turns ==> NoReconciles(t.arrivals)
  }

  function Handles(incoming: Incoming): set<nat> {
    if incoming.Message? then {incoming.handle} else {}
  }

  /** No turn brings a message again that an earlier turn, or `seen`, brought. */
  predicate NoRedelivery(turns: seq<Turn>, seen: set<nat>)
    decreases |turns|
  {
    turns == [] || (Handles(turns[0].incoming) !! seen && NoRedelivery(turns[1..], seen + Handles(turns[0].incoming)))
  }

  /** Every receipt is of a job of the ticker's that was waiting. */
  predicate ReceivesOwn(ticks: seq<Tick>) {
    forall i :: 0 <= i < |ticks| && ticks[i].ReconcileReceived? ==> ticks[i].handle in Unreceived(ticks[..i])
  }

  predicate OnlyOwn(w: Worker, seen: set<nat>) {
    && ReceivesOwn(w.ticks)
    && forall h :: 0 <= h < |w.sent| && w.sent[h].ReconcilePriorities? && h !in seen ==> h in Unreceived(w.ticks)
  }

  lemma {:induction false} OneAtATime(ticks: seq<Tick>)
    requires Separated(ticks) && ReceivesOwn(ticks)
    ensures Unreceived(ticks) ==
      if ticks != [] && ticks[|ticks| - 1].ReconcileEnqueued? then {ticks[|ticks| - 1].handle} else {}
    decreases |ticks|
  {
    if ticks == [] {
    } else {
      var before := ticks[..|ticks| - 1];
      assert forall i :: 0 <= i < |before| ==> before[i] == ticks[i] && before[..i] == ticks[..i];
      OneAtATime(before);
    }
  }

  lemma OneMoreOwnTick(ticks: seq<Tick>, x: Tick)
    requires ReceivesOwn(ticks) && (x.ReconcileReceived? ==> x.handle in Unreceived(ticks))
    ensures ReceivesOwn(ticks + [x])
    ensures Unreceived(ticks + [x]) == AfterTick(Unreceived(ticks), x)
  {
    var more := ticks + [x];
    assert more[..|ticks|] == ticks;
    assert forall i :: 0 <= i < |ticks| ==> more[..i] == ticks[..i];
  }

  lemma ArrivedOnlyOwn(w: Worker, jobs: seq<Job>, seen: set<nat>)
    requires OnlyOwn(w, seen) && NoReconciles(jobs)
    ensures OnlyOwn(Arrived(w, jobs), seen)
  {
    var more := w.sent + jobs;
    forall h | |w.sent| <= h < |more| ensures !more[h].ReconcilePriorities? {
      assert more[h] in jobs;
    }
  }

  lemma ProcessedOnlyOwn(w: Worker, t: Turn, seen: set<nat>)
    requires OnlyOwn(w, seen) && Handles(t.incoming) !! seen
    ensures OnlyOwn(Processed(w, t), seen + Handles(t.incoming))
  {
    ProcessedFields(w, t);
    ProcessedSent(w, t);
    var received := Received(w.sent, t.incoming);
    if received.Some? && w.sent[received.value].ReconcilePriorities? {
      assert received.value !in seen;
      OneMoreOwnTick(w.ticks, ReconcileReceived(received.value));
    }
  }

  lemma TickedOnlyOwn(w: Worker, t: Turn, interval: int, seen: set<nat>)
    requires OnlyOwn(w, seen)
    ensures OnlyOwn(Ticked(w, t, interval), seen)
  {
    OneMoreOwnTick(w.ticks, ReconcileEnqueued(|w.sent|, t.stampedAt));
  }

  lemma {:induction false} RunOnlyOwn(w: Worker, turns: seq<Turn>, interval: int, seen: set<nat>)
    requires OnlyOwn(w, seen) && NoneArrive(turns) && NoRedelivery(turns, seen)
    ensures ReceivesOwn(RunOf(w, turns, interval).ticks)
    decreases |turns|
  {
    if turns == [] {
    } else {
      var t := turns[0];
      assert t in turns;
      ArrivedOnlyOwn(w, t.arrivals, seen);
      ProcessedOnlyOwn(Arrived(w, t.arrivals), t, seen);
      TickedOnlyOwn(Processed(Arrived(w, t.arrivals), t), t, interval, seen + Handles(t.incoming));
      RunOnlyOwn(Turned(w, t, interval), turns[1..], interval, seen + Handles(t.incoming));
    }
  }

  /** A prefix of a trace that receives only its own does so too. */
  lemma PrefixReceivesOwn(ticks: seq<Tick>, n: nat)
    requires Separated(ticks) && ReceivesOwn(ticks) && n <= |ticks|
    ensures Separated(ticks[..n]) && ReceivesOwn(ticks[..n])
  {
    forall i | 0 <= i < n && ticks[..n][i].ReconcileReceived? ensures ticks[..n][i].handle in Unreceived(ticks[..n][..i]) {
      assert ticks[..n][..i] == ticks[..i];
    }
  }

  lemma OwnReceiptsNeverTwo(ticks: seq<Tick>)
    requires Separated(ticks) && ReceivesOwn(ticks)
    ensures NeverTwoUnreceived(ticks)
  {
    forall n | 0 <= n <= |ticks| ensures |Unreceived(ticks[..n])| <= 1 {
      PrefixReceivesOwn(ticks, n);
      OneAtATime(ticks[..n]);
    }
  }

  /** With no reconcile jobs but the ticker's, each received once at most, never two of them are unreceived. */
  lemma AloneNeverTwo(sent: seq<Job>, turns: seq<Turn>, interval: int, now: Time)
    requires NoReconciles(sent) && ClockOk(turns) && NoneArrive(turns) && NoRedelivery(turns, {})
    ensures NeverTwoUnreceived(RunOf(Started(sent, interval, now), turns, interval).ticks)
  {
    var start := Started(sent, interval, now);
    RunKeepsTicks(start, turns, interval);
    RunOnlyOwn(start, turns, interval, {});
    OwnReceiptsNeverTwo(RunOf(start, turns, interval).ticks);
  }

  // ------------------------------------------------------------------ exactly which surroundings

  /** What a worker's surroundings may do: send reconcile jobs of their own, deliver a message more than once. */
  datatype Surroundings = Surroundings(sendReconciles: bool, redeliver: bool)

  predicate Possible(turns: seq<Turn>, around: Surroundings) {
    && ClockOk(turns)
    && (around.sendReconciles || NoneArrive(turns))
    && (around.redeliver || NoRedelivery(turns, {}))
  }

  /** Whatever such surroundings do, the ticker never has two of its jobs unreceived. */
  ghost predicate SafeAmong(sent: seq<Job>, interval: int, now: Time, around: Surroundings) {
    forall turns :: Possible(turns, around) ==>
      NeverTwoUnreceived(RunOf(Started(sent, interval, now), turns, interval).ticks)
  }

  lemma {:induction false} NoTimesNothingWaits(ticks: seq<Tick>)
    requires Times(ticks) == []
    ensures NeverTwoUnreceived(ticks)
    decreases |ticks|
  {
    if ticks == [] {
    } else {
      var before, last := ticks[..|ticks| - 1], ticks[|ticks| - 1];
      assert ticks == before + [last];
      OneMoreTick(before, last);
      NoTimesNothingWaits(before);
      forall n | 0 <= n <= |ticks| ensures |Unreceived(ticks[..n])| <= 1 {
        if n < |ticks| {
          assert ticks[..n] == before[..n];
        } else {
          assert ticks[..n] == ticks && before[..|before|] == before;
        }
      }
    }
  }

  function QuietTurn(arrivals: seq<Job>, incoming: Incoming, at: Time): Turn {
    Turn(arrivals, incoming, [], {}, [], None, false, at, false, at)
  }

  /** A quiet turn that ends the wait, if there is one, and finds the interval over enqueues. */
  lemma QuietTurnEnqueues(w: Worker, incoming: Incoming, at: Time, interval: int)
    requires interval > 0 && at - w.lastAt >= interval
    requires match incoming
             case ReceiveFails => false
             case NoMessage => !w.pending
             case Message(h) => h < |w.sent| && w.sent[h].ReconcilePriorities?
    ensures var after := Turned(w, QuietTurn([], incoming, at), interval);
      && after.ticks == w.ticks + (if incoming.Message? then [ReconcileReceived(incoming.handle)] else [])
                        + [ReconcileEnqueued(|w.sent|, at)]
      && after.sent == w.sent + [ReconcilePriorities] && after.lastAt == at
  {
    assert w.sent + [] == w.sent;
  }

  /** The message is handed out once the wait is on, and again in each of the turns that follow. */
  lemma TwoEnqueues(sent: seq<Job>, h: nat, interval: int, now: Time)
    requires interval > 0 && h <= |sent| && (sent + [ReconcilePriorities])[h].ReconcilePriorities?
    ensures var turns := [QuietTurn([], NoMessage, now), QuietTurn([], Message(h), now + interval)];
      var w := RunOf(Started(sent, interval, now), turns, interval);
      && w.ticks == [ReconcileEnqueued(|sent|, now), ReconcileReceived(h), ReconcileEnqueued(|sent| + 1, now + interval)]
      && w.sent == sent + [ReconcilePriorities, ReconcilePriorities] && w.lastAt == now + interval
  {
    var turns := [QuietTurn([], NoMessage, now), QuietTurn([], Message(h), now + interval)];
    var start := Started(sent, interval, now);
    QuietTurnEnqueues(start, NoMessage, now, interval);
    var first := Turned(start, turns[0], interval);
    QuietTurnEnqueues(first, Message(h), now + interval, interval);
    var second := Turned(first, turns[1], interval);
    assert RunOf(first, turns[1..], interval) == RunOf(second, turns[1..][1..], interval) == second;
  }

  lemma OneDelivery(first: Turn, second: Turn)
    requires first.incoming.NoMessage?
    ensures NoRedelivery([first, second], {})
  {
    assert [first, second][1..] == [second] && [second][1..] == [];
    assert NoRedelivery([second], {} + Handles(first.incoming));
  }

  /** Any reconcile job on the queue that is not the ticker's ends the wait for the ticker's own. */
  lemma ForeignJobLeavesTwo(sent: seq<Job>, h: nat, interval: int, now: Time)
    requires interval > 0 && h < |sent| && sent[h].ReconcilePriorities?
    ensures var turns := [QuietTurn([], NoMessage, now), QuietTurn([], Message(h), now + interval)];
      && Possible(turns, Surroundings(false, false))
      && !NeverTwoUnreceived(RunOf(Started(sent, interval, now), turns, interval).ticks)
  {
    var turns := [QuietTurn([], NoMessage, now), QuietTurn([], Message(h), now + interval)];
    TwoEnqueues(sent, h, interval, now);
    OneDelivery(turns[0], turns[1]);
    assert !ReceivedBetween(RunOf(Started(sent, interval, now), turns, interval).ticks, 0, 2);
    OwnBacklogExactly(sent, turns, interval, now);
  }

  /** The same when such a job arrives. */
  lemma ArrivalLeavesTwo(sent: seq<Job>, interval: int, now: Time)
    requires interval > 0
    ensures var turns := [QuietTurn([ReconcilePriorities], NoMessage, now), QuietTurn([], Message(|sent|), now + interval)];
      && Possible(turns, Surroundings(true, false))
      && !NeverTwoUnreceived(RunOf(Started(sent, interval, now), turns, interval).ticks)
  {
    var turns := [QuietTurn([ReconcilePriorities], NoMessage, now), QuietTurn([], Message(|sent|), now + interval)];
    var more := sent + [ReconcilePriorities];
    var there := [QuietTurn([], NoMessage, now), turns[1]];
    ForeignJobLeavesTwo(more, |sent|, interval, now);
    assert Arrived(Started(more, interval, now), []) == Arrived(Started(sent, interval, now), [ReconcilePriorities]);
    assert Turned(Started(more, interval, now), there[0], interval) == Turned(Started(sent, interval, now), turns[0], interval);
    assert turns[1..] == there[1..];
    OneDelivery(turns[0], turns[1]);
  }

  function TwiceDelivered(h: nat, interval: int, now: Time): seq<Turn> {
    [QuietTurn([], NoMessage, now), QuietTurn([], Message(h), now + interval), QuietTurn([], Message(h), now + 2 * interval)]
  }

  lemma ThreeEnqueues(sent: seq<Job>, interval: int, now: Time)
    requires interval > 0
    ensures var n := |sent|;
      RunOf(Started(sent, interval, now), TwiceDelivered(n, interval, now), interval).ticks ==
        [ReconcileEnqueued(n, now), ReconcileReceived(n), ReconcileEnqueued(n + 1, now + interval),
         ReconcileReceived(n), ReconcileEnqueued(n + 2, now + 2 * interval)]
  {
    var turns := TwiceDelivered(|sent|, interval, now);
    var start := Started(sent, interval, now);
    TwoEnqueues(sent, |sent|, interval, now);
    assert turns[..2] == [turns[0], turns[1]];
    QuietTurnEnqueues(RunOf(start, turns[..2], interval), Message(|sent|), now + 2 * interval, interval);
    ThreeTurns(start, turns, interval);
  }

  /** The ticker's own job delivered twice ends two waits, the second for a job not received. */
  lemma RedeliveryLeavesTwo(sent: seq<Job>, interval: int, now: Time)
    requires interval > 0
    ensures Possible(TwiceDelivered(|sent|, interval, now), Surroundings(false, true))
    ensures !NeverTwoUnreceived(RunOf(Started(sent, interval, now), TwiceDelivered(|sent|, interval, now), interval).ticks)
  {
    ThreeEnqueues(sent, interval, now);
    assert !ReceivedBetween(RunOf(Started(sent, interval, now), TwiceDelivered(|sent|, interval, now), interval).ticks, 2, 4);
    OwnBacklogExactly(sent, TwiceDelivered(|sent|, interval, now), interval, now);
  }

  lemma ThreeTurns(w: Worker, turns: seq<Turn>, interval: int)
    requires |turns| == 3
    ensures RunOf(w, turns, interval) == Turned(RunOf(w, turns[..2], interval), turns[2], interval)
  {
    var first := Turned(w, turns[0], interval);
    var second := Turned(first, turns[1], interval);
    assert turns[..2][1..] == [turns[1]] && [turns[1]][1..] == [];
    assert RunOf(first, [turns[1]], interval) == second;
    assert turns[1..][1..] == [turns[2]] && [turns[2]][1..] == [];
    assert RunOf(second, [turns[2]], interval) == Turned(second, turns[2], interval);
  }

  /**
   Exactly when the ticker never has two of its own jobs unreceived, whatever handlers and queue do: it
   is switched off, or it starts on a queue without reconcile jobs, nobody else sends any, and no message
   is delivered twice.
   */
  lemma NeverTwoAmongExactly(sent: seq<Job>, interval: int, now: Time, around: Surroundings)
    ensures SafeAmong(sent, interval, now, around) <==>
      interval <= 0 || (NoReconciles(sent) && !around.sendReconciles && !around.redeliver)
  {
    if interval <= 0 {
      forall turns | Possible(turns, around)
        ensures NeverTwoUnreceived(RunOf(Started(sent, interval, now), turns, interval).ticks)
      {
        RunKeepsTicks(Started(sent, interval, now), turns, interval);
        NoTimesNothingWaits(RunOf(Started(sent, interval, now), turns, interval).ticks);
      }
    } else if !NoReconciles(sent) {
      var h :| 0 <= h < |sent| && sent[h].ReconcilePriorities?;
      ForeignJobLeavesTwo(sent, h, interval, now);
    } else if around.sendReconciles {
      ArrivalLeavesTwo(sent, interval, now);
    } else if around.redeliver {
      RedeliveryLeavesTwo(sent, interval, now);
    } else {
      forall turns | Possible(turns, around)
        ensures NeverTwoUnreceived(RunOf(Started(sent, interval, now), turns, interval).ticks)
      {
        AloneNeverTwo(sent, turns, interval, now);
      }
    }
  }
}
