/** When a persisted priority may be trusted: the cache is sound if not being stale means being right. */
module Cache {
  import opened Options
  import opened Policy
  import opened Records
  import opened ItemStatuses
  import opened Transactions

  function PolicyAt(c: Conversation, item: Item, now: Time): Priority {
    CalculatePriority(c.reason, item.status, c.createdAt, item.price, now)
  }

  predicate StaleAt(c: Conversation, item: Item, now: Time) {
    IsStale(now, c.createdAt, c.lastInteractionAt, Some(item.statusUpdatedAt), c.calculatedAt)
  }

  /** At every instant at which the row is not stale, its cached priority is what the policy says then. */
  ghost predicate Sound(c: Conversation, item: Item) {
    forall now :: !StaleAt(c, item, now) ==> c.calculated == PolicyAt(c, item, now)
  }

  /** The last calculation is not older than the last interaction or status change. */
  predicate Stamped(c: Conversation, item: Item) {
    && c.calculatedAt.Some?
    && c.lastInteractionAt <= c.calculatedAt.value
    && item.statusUpdatedAt <= c.calculatedAt.value
  }

  /** Soundness at all instants comes down to one: the instant of the last calculation. */
  lemma SoundExactly(c: Conversation, item: Item)
    ensures Sound(c, item) <==> (Stamped(c, item) ==> c.calculated == PolicyAt(c, item, c.calculatedAt.value))
  {
  }

  lemma RecalculatedIsSound(c: Conversation, item: Item, moment: Time)
    ensures Sound(Recalculated(c, item, moment), item)
  {
  }

  /**
   The status change comes strictly after the last calculation, or an interaction already did, or the
   new status happens not to move the policy's verdict.
   */
  predicate Tolerates(c: Conversation, item: Item, status: ItemStatus, now: Time) {
    || c.calculatedAt.None?
    || c.calculatedAt.value < now
    || c.calculatedAt.value < c.lastInteractionAt
    || CalculatePriority(c.reason, status, c.createdAt, item.price, c.calculatedAt.value) == c.calculated
  }

  /** Exactly when a status change leaves a cache that may be trusted. */
  lemma StatusChangeKeepsSoundExactly(c: Conversation, item: Item, status: ItemStatus, now: Time)
    ensures Sound(c, Touch(item, status, now)) <==> Tolerates(c, item, status, now)
  {
    SoundExactly(c, Touch(item, status, now));
  }
}
