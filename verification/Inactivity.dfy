/** Inactivity told from the messages themselves, in every state the hub can reach. */
module Inactivity {
  import opened Policy
  import opened Records
  import opened Transactions
  import opened Requests
  import opened Runs
  import opened RunInvariant
  import opened LifecycleTheorems
  import opened CloseInactive

  /** Neither created nor written to, by anyone, within the last `hours` hours. */
  predicate Silent(db: Db, id: Id, hours: int, now: Time)
    requires id in db.conversations
  {
    var cutoff := now - hours * 3_600_000_000;
    && db.conversations[id].createdAt <= cutoff
    && forall m :: m in db.messages && m.conversationId == id ==> m.createdAt <= cutoff
  }

  /** An open conversation of a reachable state is inactive exactly if it is silent. */
  lemma InactiveIsSilent(start: Time, run: seq<Timed>, hours: int, id: Id, now: Time)
    requires Legal(Empty(start), run, hours) && id in Execute(Empty(start), run, hours).db.conversations
    ensures var db := Execute(Empty(start), run, hours).db;
      db.conversations[id].open ==> (IsInactive(db.conversations[id], hours, now) <==> Silent(db, id, hours, now))
  {
    LastInteractionIsLatest(start, run, hours, id);
  }

  /** A read, and an unlocked turn of the batch, close an open conversation exactly if it is silent. */
  lemma ClosesExactlySilent(start: Time, run: seq<Timed>, hours: int, id: Id, locked: bool, now: Time)
    requires Legal(Empty(start), run, hours) && Execute(Empty(start), run, hours).clock <= now
    requires id in Execute(Empty(start), run, hours).db.conversations
    requires Execute(Empty(start), run, hours).db.conversations[id].open
    ensures var s := Execute(Empty(start), run, hours);
      && id in Step(s, Read(id), hours, now).db.conversations
      && id in Step(s, CloseListed(id, locked), hours, now).db.conversations
      && (!Step(s, Read(id), hours, now).db.conversations[id].open <==> Silent(s.db, id, hours, now))
      && (!Step(s, CloseListed(id, locked), hours, now).db.conversations[id].open <==> !locked && Silent(s.db, id, hours, now))
  {
    var s := Execute(Empty(start), run, hours);
    ReachableInv(start, run, hours);
    InactiveIsSilent(start, run, hours, id, now);
    ClosesExactly(s, Read(id), hours, now, id);
    ClosesExactly(s, CloseListed(id, locked), hours, now, id);
  }

  /** Posting to an open conversation, and closing it by hand, are refused exactly if it is silent. */
  lemma RefusedExactlySilent(start: Time, run: seq<Timed>, hours: int, id: Id, who: Participant, text: string, now: Time)
    requires Legal(Empty(start), run, hours) && id in Execute(Empty(start), run, hours).db.conversations
    requires Execute(Empty(start), run, hours).db.conversations[id].open
    ensures var db := Execute(Empty(start), run, hours).db;
      && (Handle(db, Post(id, who, text), hours, now).Raised? <==> Silent(db, id, hours, now))
      && (Handle(db, CloseNow(id), hours, now).Raised? <==> Silent(db, id, hours, now))
  {
    InactiveIsSilent(start, run, hours, id, now);
  }

  /** The batch lists exactly the open conversations that are silent. */
  lemma ListedExactlySilent(start: Time, run: seq<Timed>, hours: int, id: Id, now: Time)
    requires Legal(Empty(start), run, hours)
    ensures var db := Execute(Empty(start), run, hours).db;
      id in Eligible(db, hours, now) <==>
        id in db.conversations && db.conversations[id].open && Silent(db, id, hours, now)
  {
    if id in Execute(Empty(start), run, hours).db.conversations {
      InactiveIsSilent(start, run, hours, id, now);
    }
  }
}
