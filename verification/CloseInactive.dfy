/**
 The batch close of app/communication/close_inactive.py: ids are listed once, then each is closed in
 a transaction of its own, with any requests of others committed in between.
 */
module CloseInactive {
  import opened Options
  import opened Policy
  import opened Records
  import opened Ordering
  import opened Transactions
  import opened Requests
  import opened Runs
  import opened RunInvariant
  import opened LifecycleTheorems

  /** Before one per-id transaction: what others commit, whether the row is locked, and the instant of the transaction. */
  datatype Slot = Slot(others: seq<Timed>, locked: bool, at: Time)

  datatype Batch = Batch(hub: Hub, closed: seq<Id>)

  function Eligible(db: Db, hours: int, now: Time): set<Id> {
    set id | id in db.conversations && IsInactive(db.conversations[id], hours, now)
  }

  /** The transaction for one listed id closes it. */
  predicate Picked(s: Hub, id: Id, slot: Slot, hours: int) {
    id in s.db.conversations && !slot.locked && IsInactive(s.db.conversations[id], hours, slot.at)
  }

  /** Others' requests, then the transaction for one listed id. */
  function AfterSlot(s: Hub, id: Id, slot: Slot, hours: int): Hub {
    Step(Execute(s, slot.others, hours), CloseListed(id, slot.locked), hours, slot.at)
  }

  predicate LegalSlot(s: Hub, slot: Slot, hours: int) {
    Legal(s, slot.others, hours) && Execute(s, slot.others, hours).clock <= slot.at
  }

  function Report(picked: bool, id: Id, rest: seq<Id>): seq<Id> {
    if picked then [id] + rest else rest
  }

  lemma ReportWithout(picked: bool, other: Id, rest: seq<Id>, id: Id)
    requires id !in rest && (id == other ==> !picked)
    ensures id !in Report(picked, other, rest)
  {
  }

  function RunBatch(s: Hub, ids: seq<Id>, slots: seq<Slot>, hours: int): Batch
    requires |ids| == |slots|
    decreases |ids|
  {
    if ids == [] then Batch(s, [])
    else
      var rest := RunBatch(AfterSlot(s, ids[0], slots[0], hours), ids[1..], slots[1..], hours);
      Batch(rest.hub, Report(Picked(Execute(s, slots[0].others, hours), ids[0], slots[0], hours), ids[0], rest.closed))
  }

  /** The batch from its k-th id on. */
  lemma BatchFrom(s: Hub, ids: seq<Id>, slots: seq<Slot>, k: nat, hours: int)
    requires k < |ids| == |slots|
    ensures var rest := RunBatch(AfterSlot(s, ids[k], slots[k], hours), ids[k + 1..], slots[k + 1..], hours);
      RunBatch(s, ids[k..], slots[k..], hours)
        == Batch(rest.hub, Report(Picked(Execute(s, slots[k].others, hours), ids[k], slots[k], hours), ids[k], rest.closed))
  {
  }

  predicate LegalBatch(s: Hub, ids: seq<Id>, slots: seq<Slot>, hours: int)
    requires |ids| == |slots|
    decreases |ids|
  {
    ids == [] ||
    (LegalSlot(s, slots[0], hours) && LegalBatch(AfterSlot(s, ids[0], slots[0], hours), ids[1..], slots[1..], hours))
  }

  lemma DistinctPrepend(id: Id, ids: seq<Id>)
    requires Distinct(ids) && id !in ids
    ensures Distinct([id] + ids)
    ensures forall x :: x in [id] + ids <==> x == id || x in ids
  {
  }

  /** Closed by inactivity, at the instant its one system message carries. */
  ghost predicate ClosedByInactivity(s: Hub, id: Id) {
    && id in s.db.conversations && !s.db.conversations[id].open
    && Collect(ClosingsOf(id), s.log) == [Inactivity]
    && Collect(SystemOnly(), Collect(MessagesOf(id), s.db.messages))
         == [Message(id, System, InactivityNotice, s.db.conversations[id].lastInteractionAt)]
  }

  /** What inactivity closed stays so through one slot of the batch, and is not picked again. */
  lemma StaysClosedSlot(s: Hub, other: Id, slot: Slot, hours: int, id: Id)
    requires Inv(s) && LegalSlot(s, slot, hours)
    requires ClosedByInactivity(s, id)
    ensures ClosedByInactivity(AfterSlot(s, other, slot, hours), id)
    ensures id == other ==> !Picked(Execute(s, slot.others, hours), other, slot, hours)
  {
    ClosedIsFinal(s, slot.others, hours, id);
    RunKeepsInv(s, slot.others, hours);
    ClosedStep(Execute(s, slot.others, hours), CloseListed(other, slot.locked), hours, slot.at, id);
  }

  lemma SlotKeepsInv(s: Hub, id: Id, slot: Slot, hours: int)
    requires Inv(s) && LegalSlot(s, slot, hours)
    ensures Inv(Execute(s, slot.others, hours))
    ensures Inv(AfterSlot(s, id, slot, hours))
  {
    RunKeepsInv(s, slot.others, hours);
    StepKeepsInv(Execute(s, slot.others, hours), CloseListed(id, slot.locked), hours, slot.at);
  }

  /** What inactivity closed stays so through the rest of the batch. */
  lemma {:induction false} StaysClosed(s: Hub, ids: seq<Id>, slots: seq<Slot>, hours: int, id: Id)
    requires |ids| == |slots| && Inv(s) && LegalBatch(s, ids, slots, hours)
    requires ClosedByInactivity(s, id)
    ensures ClosedByInactivity(RunBatch(s, ids, slots, hours).hub, id)
    ensures id !in RunBatch(s, ids, slots, hours).closed
    decreases |ids|
  {
    if ids == [] {
    } else {
      var next := AfterSlot(s, ids[0], slots[0], hours);
      SlotKeepsInv(s, ids[0], slots[0], hours);
      StaysClosedSlot(s, ids[0], slots[0], hours, id);
      StaysClosed(next, ids[1..], slots[1..], hours, id);
      ReportWithout(Picked(Execute(s, slots[0].others, hours), ids[0], slots[0], hours), ids[0],
                    RunBatch(next, ids[1..], slots[1..], hours).closed, id);
    }
  }

  /** A picked conversation was inactive at that instant and is now closed by inactivity. */
  lemma PickedCloses(s: Hub, id: Id, slot: Slot, hours: int)
    requires Inv(s) && s.clock <= slot.at && Picked(s, id, slot, hours)
    ensures ClosedByInactivity(Step(s, CloseListed(id, slot.locked), hours, slot.at), id)
  {
    var r := CloseListed(id, slot.locked);
    var after := Step(s, r, hours, slot.at);
    RequestEffect(s.db, r, hours, slot.at, id);
    StepKeepsInv(s, r, hours, slot.at);
    CollectConcat(ClosingsOf(id), s.log, Handle(s.db, r, hours, slot.at).events);
    assert History(s, id) && History(after, id);
    assert [] + [Inactivity] == [Inactivity];
  }

  /** One slot of the batch on top of what the rest of it closes. */
  lemma ReportHolds(s: Hub, ids: seq<Id>, slots: seq<Slot>, hours: int, rest: Batch)
    requires |ids| == |slots| && ids != [] && Inv(s) && LegalBatch(s, ids, slots, hours)
    requires rest == RunBatch(AfterSlot(s, ids[0], slots[0], hours), ids[1..], slots[1..], hours)
    requires Distinct(rest.closed)
    requires Picked(Execute(s, slots[0].others, hours), ids[0], slots[0], hours)
    ensures Distinct([ids[0]] + rest.closed) && ClosedByInactivity(rest.hub, ids[0])
  {
    SlotKeepsInv(s, ids[0], slots[0], hours);
    PickedCloses(Execute(s, slots[0].others, hours), ids[0], slots[0], hours);
    StaysClosed(AfterSlot(s, ids[0], slots[0], hours), ids[1..], slots[1..], hours, ids[0]);
    DistinctPrepend(ids[0], rest.closed);
  }

  /**
   Whatever others do between its transactions, the batch reports each id at most once, and what it
   reports ends closed by inactivity with one system message.
   */
  lemma {:induction false} BatchClosesWhatItReports(s: Hub, ids: seq<Id>, slots: seq<Slot>, hours: int)
    requires |ids| == |slots| && Inv(s) && LegalBatch(s, ids, slots, hours)
    ensures Distinct(RunBatch(s, ids, slots, hours).closed)
    ensures forall id :: id in RunBatch(s, ids, slots, hours).closed ==>
              id in ids && ClosedByInactivity(RunBatch(s, ids, slots, hours).hub, id)
    decreases |ids|
  {
    if ids == [] {
    } else {
      var next := AfterSlot(s, ids[0], slots[0], hours);
      var rest := RunBatch(next, ids[1..], slots[1..], hours);
      SlotKeepsInv(s, ids[0], slots[0], hours);
      BatchClosesWhatItReports(next, ids[1..], slots[1..], hours);
      if Picked(Execute(s, slots[0].others, hours), ids[0], slots[0], hours) {
        ReportHolds(s, ids, slots, hours, rest);
      }
    }
  }

  // ------------------------------------------------------------------ the report is exact

  /** The hub as the batch's k-th own transaction finds it. */
  function HubBefore(s: Hub, ids: seq<Id>, slots: seq<Slot>, k: nat, hours: int): Hub
    requires k < |ids| == |slots|
    decreases k
  {
    if k == 0 then Execute(s, slots[0].others, hours)
    else HubBefore(AfterSlot(s, ids[0], slots[0], hours), ids[1..], slots[1..], k - 1, hours)
  }

  predicate IsOpen(s: Hub, id: Id) {
    id in s.db.conversations && s.db.conversations[id].open
  }

  /** The transaction itself, not anyone else's, closes the conversation. */
  predicate TurnCloses(before: Hub, listed: Id, slot: Slot, hours: int, id: Id) {
    IsOpen(before, id) && !IsOpen(Step(before, CloseListed(listed, slot.locked), hours, slot.at), id)
  }

  /** The k-th own transaction closes the conversation, and closes it for being inactive at that instant. */
  predicate ClosedInTurn(s: Hub, ids: seq<Id>, slots: seq<Slot>, k: nat, hours: int, id: Id)
    requires k < |ids| == |slots|
  {
    var before := HubBefore(s, ids, slots, k, hours);
    && TurnCloses(before, ids[k], slots[k], hours, id)
    && IsInactive(before.db.conversations[id], hours, slots[k].at)
  }

  /** A turn closes its own listed conversation if it finds it unlocked and inactive, and closes nothing else. */
  lemma TurnClosesExactly(before: Hub, listed: Id, slot: Slot, hours: int, id: Id)
    requires Inv(before)
    ensures TurnCloses(before, listed, slot, hours, id) <==> id == listed && Picked(before, id, slot, hours)
  {
    if IsOpen(before, id) {
      ClosesExactly(before, CloseListed(listed, slot.locked), hours, slot.at, id);
    }
  }

  lemma ClosedInLaterTurn(s: Hub, ids: seq<Id>, slots: seq<Slot>, k: nat, hours: int, id: Id)
    requires 0 < k < |ids| == |slots|
    ensures ClosedInTurn(s, ids, slots, k, hours, id)
       <==> ClosedInTurn(AfterSlot(s, ids[0], slots[0], hours), ids[1..], slots[1..], k - 1, hours, id)
  {
  }

  ghost predicate ClosedInSomeTurn(s: Hub, ids: seq<Id>, slots: seq<Slot>, hours: int, id: Id)
    requires |ids| == |slots|
  {
    exists k :: 0 <= k < |ids| && ClosedInTurn(s, ids, slots, k, hours, id)
  }

  lemma SomeTurnIsFirstOrLater(s: Hub, ids: seq<Id>, slots: seq<Slot>, hours: int, id: Id)
    requires |ids| == |slots| && ids != []
    ensures ClosedInSomeTurn(s, ids, slots, hours, id) <==>
      ClosedInTurn(s, ids, slots, 0, hours, id)
      || ClosedInSomeTurn(AfterSlot(s, ids[0], slots[0], hours), ids[1..], slots[1..], hours, id)
  {
    var next := AfterSlot(s, ids[0], slots[0], hours);
    if ClosedInSomeTurn(s, ids, slots, hours, id) && !ClosedInTurn(s, ids, slots, 0, hours, id) {
      var k :| 0 <= k < |ids| && ClosedInTurn(s, ids, slots, k, hours, id);
      ClosedInLaterTurn(s, ids, slots, k, hours, id);
    }
    if ClosedInSomeTurn(next, ids[1..], slots[1..], hours, id) {
      var k :| 0 <= k < |ids[1..]| && ClosedInTurn(next, ids[1..], slots[1..], k, hours, id);
      ClosedInLaterTurn(s, ids, slots, k + 1, hours, id);
    }
  }

  /**
   Whatever others do between its transactions, the batch reports exactly the conversations that its own
   transactions close, each of them inactive at the instant of the transaction that closes it.
   */
  lemma {:induction false} BatchReportIsExact(s: Hub, ids: seq<Id>, slots: seq<Slot>, hours: int, id: Id)
    requires |ids| == |slots| && Inv(s) && LegalBatch(s, ids, slots, hours)
    ensures id in RunBatch(s, ids, slots, hours).closed <==> ClosedInSomeTurn(s, ids, slots, hours, id)
    decreases |ids|
  {
    if ids == [] {
    } else {
      SlotKeepsInv(s, ids[0], slots[0], hours);
      TurnClosesExactly(Execute(s, slots[0].others, hours), ids[0], slots[0], hours, id);
      BatchReportIsExact(AfterSlot(s, ids[0], slots[0], hours), ids[1..], slots[1..], hours, id);
      SomeTurnIsFirstOrLater(s, ids, slots, hours, id);
    }
  }

  /** No own transaction of the batch closes anything but its listed conversation, found inactive at that instant. */
  lemma {:induction false} TurnsCloseOnlyInactive(s: Hub, ids: seq<Id>, slots: seq<Slot>, hours: int, k: nat, id: Id)
    requires k < |ids| == |slots| && Inv(s) && LegalBatch(s, ids, slots, hours)
    requires TurnCloses(HubBefore(s, ids, slots, k, hours), ids[k], slots[k], hours, id)
    ensures id == ids[k] && !slots[k].locked && ClosedInTurn(s, ids, slots, k, hours, id)
    decreases k
  {
    SlotKeepsInv(s, ids[0], slots[0], hours);
    if k == 0 {
      TurnClosesExactly(Execute(s, slots[0].others, hours), ids[0], slots[0], hours, id);
    } else {
      TurnsCloseOnlyInactive(AfterSlot(s, ids[0], slots[0], hours), ids[1..], slots[1..], hours, k - 1, id);
    }
  }

  // ------------------------------------------------------------------ alone

  predicate Alone(slots: seq<Slot>, start: Time) {
    slots == [] || (slots[0].others == [] && !slots[0].locked && start <= slots[0].at && Alone(slots[1..], slots[0].at))
  }

  /** With nobody else at work, ids inactive at the start are all still open and inactive when their turn comes. */
  lemma {:induction false} AloneClosesAll(s: Hub, ids: seq<Id>, slots: seq<Slot>, hours: int, listed: Time)
    requires |ids| == |slots| && Distinct(ids) && Alone(slots, listed)
    requires forall id :: id in ids ==> id in Eligible(s.db, hours, listed)
    ensures RunBatch(s, ids, slots, hours).closed == ids
    ensures var after := RunBatch(s, ids, slots, hours).hub.db.conversations;
      && after.Keys == s.db.conversations.Keys
      && (forall id :: id in s.db.conversations && id !in ids ==> after[id] == s.db.conversations[id])
      && (forall id :: id in ids ==> id in after && !after[id].open)
    decreases |ids|
  {
    if ids == [] {
    } else {
      var next := AfterSlot(s, ids[0], slots[0], hours);
      assert next == Step(s, CloseListed(ids[0], false), hours, slots[0].at);
      assert ids[0] in ids && ids[0] in Eligible(s.db, hours, listed);
      assert next.db.conversations.Keys == s.db.conversations.Keys;
      assert forall id :: id in s.db.conversations && id != ids[0] ==> next.db.conversations[id] == s.db.conversations[id];
      assert !next.db.conversations[ids[0]].open;
      assert ids[0] !in ids[1..];
      forall id | id in ids[1..] ensures id in Eligible(next.db, hours, slots[0].at) {
        assert id in ids && id in Eligible(s.db, hours, listed);
      }
      AloneClosesAll(next, ids[1..], slots[1..], hours, slots[0].at);
    }
  }

  /** Alone, the batch closes exactly the listed set, and a listing at the same instant then comes back empty. */
  lemma AloneLeavesNothing(s: Hub, ids: seq<Id>, slots: seq<Slot>, hours: int, listed: Time)
    requires |ids| == |slots| && Distinct(ids) && Alone(slots, listed)
    requires forall id :: id in ids <==> id in Eligible(s.db, hours, listed)
    ensures RunBatch(s, ids, slots, hours).closed == ids
    ensures Eligible(RunBatch(s, ids, slots, hours).hub.db, hours, listed) == {}
  {
    AloneClosesAll(s, ids, slots, hours, listed);
  }
}
