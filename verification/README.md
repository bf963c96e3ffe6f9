# Market hub: verified model

A marketplace backend sells offers to buyers, lets buyer and seller talk about each order item, ranks those
conversations for an operations team, and notifies people of what changed. This project models the parts of it
where correctness is least obvious and proves what they promise.

`dafny verify dfyconfig.toml` checks everything.

## What is modelled

**Conversations, items and priority.** The tables are maps and sequences in one `Db`. Every API request and every
transaction of a job is a function from the tables it finds to the tables it commits and the events it publishes, or to
the error it raises (`Transactions`). A request that raises commits nothing. `Runs` lets requests of all kinds, repair
pages and batch closes follow one another in any order. `RunInvariant` keeps one invariant over all of them, and
`RunTheorems` and `LifecycleTheorems` draw the whole-run results from it: the persisted priority is right whenever it
is not stale, the published priority changes replay to the current one, at most one conversation of an item is open,
closed is final. `Inactivity` tells from the messages which conversations close. `Server` is the same in place: a
session whose methods assign rows and record events, and a server that commits and publishes or drops; each method
equals the function it implements.

**Repair of the priority cache.** `StaleQuery` is the SQL predicate as an expression tree under three-valued logic.
`Reconcile` is the loop of pages whose own writes shrink the set it pages over, and one ascending pass it is equal to.
`Aging` bounds how often a conversation left alone is repaired.

**Stock.** `Market` is a machine of interleaved checkouts, each of which reads its offers, then runs one conditional
UPDATE per line and holds the row locks until it commits or rolls back, among cancels and sellers' edits.
`MarketInvariant` and `MarketRuns` prove that stock is conserved and never negative. `Checkout` and `Shop` are the
checkout without interference, and `SoloCheckout` shows that it is one of the interleavings. `LockOrder` is about who
waits for whom.

**Jobs and notifications.** `Notices`, `WorkerRuns` and `JobWorker` are the bridge from events to jobs, the worker loop
over an at-least-once queue, and the idempotent inbox; `Idempotency` shows that its key keeps changes apart,
`Announcements` that what people are told replays what happened, and `Ticker` is the worker's rate-limited enqueue.

**Reads.** `Windows` (24-hour message windows), `OpsQueue` and `QueueTies` (ordered and paged queue), `Catalog` and `Sorting` (one-pass
join and stable price sort), `Numbers` (public numbers).

Times and ages are microseconds, prices are cents, policy weights are hundredths, ids are natural numbers in the order
the database compares them.

## Assumptions

- A request, a page of a repair and a per-conversation transaction of the batch each happen at one instant and in one
  atomic step; rows they write are locked. Checkouts are the exception: they are modelled step by step.
- The clock never goes back. Two requests may share an instant. The soundness of the priority cache needs one proviso,
  because the comparisons in `is_stale` are strict: an item must not move at the very instant one of its conversations
  was last calculated, unless the move leaves the verdict as it was. `CachesStaySoundExactly` shows that this is exactly
  what it needs, `TickingKeepsCaches` that a clock which ticks between requests provides it, and
  `SameInstantBreaksTheCache` is a run without it.
- A timestamp is the instant of its transaction, so the race of a time taken before a later commit is not in the model.
- The UPDATE of a checkout sees the latest committed row, its own transaction's writes included.
- The partial unique index and the foreign keys hold. What the first SELECT of a create returned, and whether the row
  the index then refused the insert for is gone by the second SELECT, are the parameters `seen` and `vanished` of
  `OpenConversation`. The text library is a table of digits and white space that reads ASCII right.

## Where code and documentation differ

- `docs/P6.2_Notification.md` section 9 leaves the time of the change out of the idempotency key. The table's unique
  constraint has it (`app/notifications/models.py:28-39`), and the model follows the table.

## Behaviour worth knowing

- A message or a manual close that finds the conversation inactive closes it and then raises, and the rollback takes the
  close back with it: `InactiveStaysOpenUnderWrites`. Only a read or the batch closes for inactivity: `ClosesExactly`.
- Pages of the Ops queue are safe exactly when no two selected conversations share rank and interaction time:
  `PagingIsSafeExactly`. A clock that ticks between requests rules such ties out (`TickingQueueIsSafe`); two requests at
  one instant can make one (`SharedInstantBreaksPaging`).
- Any reconcile job the worker receives, not only its own, and any second delivery of its own, ends the ticker's wait. So
  it never has two of its jobs unreceived exactly if it is off, or it starts on a queue without reconcile jobs, nobody
  else sends any and nothing is delivered twice: `NeverTwoAmongExactly`.
- Checkouts lock offers in payload order. Two that name two offers in opposite orders can each wait for the other
  (`CrossedCheckoutsBlock`); when all payloads keep to one order some checkout can always go on (`OrderedCheckoutsGoOn`).
- The Ops queue's SQL priority is the effective priority only while overrides are null, critical or redundant:
  `SqlEffectiveAgrees`. Every reachable override is: `QueueRanksEffectivePriority`.
- Support, exchange and return weigh differently only on paper: no item, age or price tells their verdicts apart
  (`ReasonsOrderExactly`).

## Model

| member | source | states |
|---|---|---|
| Policy.AgeBucketRank | app/communication/priority.py:40-45 | the rank is decided by the four boundaries, for every age, negative ones too |
| Policy.CalculatePriority | app/communication/priority.py:93-109 | the policy never answers critical |
| Policy.LabelsAreRanks | app/communication/priority.py:48-50 | comparing bucket labels is comparing bucket ranks |
| Policy.PriorityRisesWithAge | app/communication/priority.py:77-109 | everything else fixed, the verdict never falls as time passes |
| Policy.ValueWeight | app/communication/priority.py:57-66 | the weight of a price is fixed by four boundaries, both ways, and each price has one of the five weights |
| Policy.Classify | app/communication/priority.py:69-74 | low up to 1.00, medium up to 2.25, high above, and never critical |
| Policy.PriorityRisesWithPrice | app/communication/priority.py:57-109 | everything else fixed, the verdict never falls as the price rises |
| Policy.VerdictInSteps | app/communication/priority.py:8-109 | the whole policy without weights: status, age and price each count the boundaries they passed, and reason fixes how many make medium and high |
| Policy.ReasonsOrderExactly | app/communication/priority.py:8-17 | a reason never makes a conversation more urgent than another exactly if it asks for as many steps or more; each strict step of the order makes a difference somewhere |
| Policy.StatusesOrderExactly | app/communication/priority.py:19-28 | so for statuses: cancelled, delivered, placed, preparing, in transit, each different from the next somewhere |
| Policy.UnstalePolicyAgrees | app/communication/priority.py:116-130 | while not stale, the policy asked now answers what it answered at the last calculation |
| StaleQuery.BucketRankExprEvaluates | app/communication/reconcile.py:33-35 | the SQL CASE computes the Python bucket rank, and the last bucket for a NULL age |
| StaleQuery.BucketMovedEvaluates | app/communication/reconcile.py:45-49 | the guarded comparison of buckets is false on a NULL stamp and otherwise compares the Python labels |
| StaleQuery.StaleClauseIsIsStale | app/communication/reconcile.py:38-50 | the SQL predicate is TRUE exactly when `is_stale` is true, and unknown exactly on unstale rows without a status time |
| Cache.SoundExactly | app/communication/priority.py:116-130 | trusting the cache at every instant comes down to its value at the instant of the last calculation |
| Cache.RecalculatedIsSound | app/communication/priority.py:133-169 | a recalculation at any moment leaves a cache that may be trusted whenever it is not stale |
| Cache.StatusChangeKeepsSoundExactly | app/orders/routes.py:52-55 | a status change keeps the cache sound exactly if it is strictly later than the stamp, or an interaction was, or the verdict does not move |
| RunTheorems.SoundStepExactly | app/orders/routes.py:262-318 | a request keeps every cache sound exactly if each conversation of an item it moves tolerates the move |
| RunTheorems.CachesStaySoundExactly | app/communication/priority.py:116-169 | the caches are sound throughout a run exactly if all its status changes are tolerated |
| RunTheorems.TickingKeepsCaches | app/communication/priority.py:126-129 | with no two requests at one instant every status change is tolerated |
| Reconcile.ReconcileRowsAt | app/communication/reconcile.py:103-108 | each row of a page is recalculated exactly once, from the row the page found |
| Reconcile.ReconcileRowsElsewhere | app/communication/reconcile.py:103-108 | rows outside the page are untouched |
| Reconcile.NextPage | app/communication/reconcile.py:62-72 | after a page is repaired, what is stale above its last id is the rest of what was stale at the start |
| Reconcile.PagedFromCursor | app/communication/reconcile.py:97-109 | from any cursor and for every page size the loop is one ascending pass over the stale rows above it |
| Reconcile.PagedIsOnePass | app/communication/reconcile.py:97-109 | the result does not depend on the page size, and a page size of zero does nothing |
| Reconcile.OnePassAt | app/communication/reconcile.py:80-116 | a run recalculates the open stale rows and leaves every other row as it was |
| Reconcile.OnePassEvents | app/communication/reconcile.py:97-109 | a run's events are those of each stale row by itself, in ascending id order |
| Reconcile.RunLeavesOnlyFutureStamps | app/communication/priority.py:116-157 | what is stale right after a run is exactly the stale rows stamped ahead of its clock |
| Reconcile.SecondRunIsSilent | app/communication/reconcile.py:80-116 | a second run at the same clock changes nothing and emits nothing |
| Reconcile.VisitsIncrease | app/communication/reconcile.py:97-109 | with anything committed between pages, a run visits no row twice and never goes back |
| Reconcile.VisitsExactly | app/communication/reconcile.py:97-109 | with anything committed between pages, a run that ends visits a row exactly if it is stale in the tables read as the cursor passes it |
| Reconcile.VisitsAll | app/communication/reconcile.py:97-109 | a row such a run does not visit was not stale in some of the tables it read |
| Reconcile.NextPageMoves | app/communication/reconcile.py:103-108 | the rows whose priority will change are those of the page and those still ahead |
| Reconcile.PageShrinksAhead | app/communication/reconcile.py:97-109 | writes, events and counts still ahead shrink by exactly what a page did |
| Aging.ProcessedAtMostFive | app/communication/priority.py:30-45 | over non-decreasing run times a row left alone is processed at most five times |
| Aging.FiveIsTheBoundExactly | app/communication/priority.py:116-130 | five bounds every such sequence exactly when the row is not stale at the start or not stamped ahead of it |
| Aging.FutureStampIsProcessedEachTime | app/communication/priority.py:126-129 | a stale row stamped ahead of the clock is processed again by every run at that clock |
| Aging.FoundAtMostFive | app/communication/reconcile.py:80-116 | in the table, whole paged runs find a conversation left alone at most five times |
| Aging.FiveIsReached | app/communication/priority.py:30-45 | the bound is met |
| Requests.RequestEffect | app/communication/lifecycle.py:102-180 | every committed request does to each conversation, its messages, its closings and its priority log exactly one described change, and nothing to the others |
| Requests.PageEffect | app/communication/reconcile.py:103-108 | seen from one conversation a page is its recalculation with at most one priority event, or nothing |
| RunInvariant.StepKeepsInv | app/database.py:28-39 | every request, committed or rolled back, keeps the invariant of tables, log and clock |
| RunInvariant.OneOpenKept | app/communication/models.py:21-27 | no request makes two conversations of one item open, a creation raced by another included |
| RunInvariant.ReachableInv | app/database.py:28-39 | the invariant holds in every state any run reaches |
| RunTheorems.CacheIsSoundOverRuns | app/communication/priority.py:116-169 | after any run whose status changes are tolerated, a conversation not stale at an instant has the priority the policy gives at that instant |
| RunTheorems.SameInstantBreaksTheCache | app/communication/priority.py:126-129 | a run with two requests at one instant after which an unstale cache is wrong |
| RunTheorems.PriorityLogReplays | app/communication/priority.py:158-168 | the published changes of a conversation form a chain from its creation priority to its effective one, no link standing still |
| RunTheorems.OverrideSpeaksOnce | app/support/priority_ops.py:72-116 | setting or removing critical, when it does not raise, publishes exactly one change |
| LifecycleTheorems.AtMostOneOpen | app/communication/lifecycle.py:56-99 | in every reachable state an item has at most one open conversation |
| LifecycleTheorems.CreatesExactly | app/communication/lifecycle.py:56-99 | a create inserts exactly if the item is there and neither the first SELECT nor the index finds an open conversation of it; the new row is open and ranked by the policy at that instant |
| LifecycleTheorems.LastInteractionIsLatest | app/communication/lifecycle.py:42-44 | the last interaction is the latest of the creation and all message times |
| LifecycleTheorems.ClosedExactlyOnce | app/communication/lifecycle.py:102-150 | a conversation has one close event if closed and none if open, and one system message exactly if inactivity closed it |
| LifecycleTheorems.ClosedIsFinal | app/communication/lifecycle.py:102-180 | no run reopens a closed conversation, adds to its messages or closes it again |
| LifecycleTheorems.MessagesAreImmutable | app/communication/models.py:47-48 | runs only ever append messages |
| LifecycleTheorems.InactiveStaysOpenUnderWrites | app/communication/lifecycle.py:137-166 | messages and manual closes on an inactive conversation all raise and leave it open, unpublished and without notice |
| LifecycleTheorems.ClosesExactly | app/communication/lifecycle.py:127-150 | a request closes an open conversation exactly if it reads or picks it inactive, or closes it by hand while it is not |
| Inactivity.ClosesExactlySilent | app/communication/lifecycle.py:34-39 | in every reachable state a read, and an unlocked turn of the batch, closes an open conversation exactly if neither its creation nor any of its messages is within the last hours given |
| Inactivity.RefusedExactlySilent | app/communication/lifecycle.py:137-166 | posting to an open conversation, or closing it by hand, is refused exactly then |
| Inactivity.ListedExactlySilent | app/communication/close_inactive.py:31-40 | the batch lists exactly the open conversations of which that holds |
| LifecycleTheorems.ItemLogIsAShortPath | app/orders/routes.py:262-318 | from any state on, an item's published changes are a path of allowed moves: at most three from placed, none from delivered or cancelled, every step in between unless cancelled |
| LifecycleTheorems.MovesExactly | app/orders/routes.py:262-318 | which advances and cancels commit, for each status, target and role; what they write, and that asking for what is already so changes nothing |
| LifecycleTheorems.ItemLogStartsAtPlaced | app/orders/routes.py:262-318 | in every reachable state all that was ever published of an item is such a path from placed, of at most three moves |
| ItemStatuses.StatusPathIsShort | app/orders/status.py:6-31 | each allowed move uses up a step an item has left, exactly one unless it cancels |
| ItemStatuses.RulesInSteps | app/orders/status.py:6-31 | forward is one step; buyers cancel, and stock comes back, with two steps left or more, sellers with one |
| CloseInactive.BatchClosesWhatItReports | app/communication/close_inactive.py:54-69 | whatever others commit in between, each reported id is reported once and ends closed by inactivity with one system message |
| CloseInactive.BatchReportIsExact | app/communication/close_inactive.py:54-69 | whatever others commit in between, the batch reports exactly the conversations its own transactions close, each inactive at its closing instant |
| CloseInactive.TurnsCloseOnlyInactive | app/communication/close_inactive.py:43-51 | an own transaction closes nothing but its listed conversation, unlocked and inactive at that instant |
| CloseInactive.PickedCloses | app/communication/close_inactive.py:43-51 | a conversation the batch picks is inactive at that instant and is closed with its notice |
| CloseInactive.StaysClosed | app/communication/close_inactive.py:54-69 | what inactivity closed is not picked again by the rest of the batch |
| CloseInactive.AloneLeavesNothing | app/communication/close_inactive.py:31-69 | alone, the batch closes exactly the listed set and a listing at the same instant is empty |
| ItemListing.ListingIsOneRead | app/communication/routes.py:109-137 | listing an item's conversations does what reading its one inactive conversation does, in whatever order they are listed |
| Server.Session.GetOrCreateConversation | app/communication/lifecycle.py:56-99 | reuses, creates with the policy's verdict, or raises on a missing item or a violation it cannot explain; what it returns was open for the item when read, and counts as created exactly if it was inserted |
| Server.Session.CloseForInactivity | app/communication/lifecycle.py:102-124 | message, close and two events once; nothing on a closed conversation |
| Server.Session.MaybeCloseInactive | app/communication/lifecycle.py:127-134 | closes exactly if inactive at that instant |
| Server.Session.CloseOneInactive | app/communication/close_inactive.py:43-51 | skips a row gone, locked or no longer inactive, and says whether it closed one |
| Server.Session.ListConversations | app/communication/routes.py:123-129 | the loop equals the fold over the listed rows |
| Server.Session.CloseBySeller | app/communication/lifecycle.py:137-150 | lazy close, then close by hand or raise |
| Server.Session.AddMessage | app/communication/lifecycle.py:161-180 | lazy close, then message and new interaction time or raise |
| Server.Session.ApplyCalculatedPriority | app/communication/priority.py:133-169 | recalculates and stamps the row, records an event only if the effective priority moves, returns whether the calculated one did |
| Server.Session.RefreshCalculatedPriority | app/support/priority_ops.py:63-69 | one recalculation, or an error for a missing row |
| Server.Session.ApplyCritical | app/support/priority_ops.py:72-94 | comment, override and at most one event; raises if already critical |
| Server.Session.RemoveCritical | app/support/priority_ops.py:97-116 | removes the override and records the change; raises without one |
| Server.Session.UpdateOrderItemStatus | app/orders/routes.py:262-282 | one forward step with its stamps and event; repeating the status changes nothing |
| Server.Session.CancelOrderItem | app/orders/routes.py:290-318 | the item's side of a cancel: its status, stamps and two events where the role may; repeating changes nothing |
| Server.Server.Serve | app/database.py:28-39 | one request in one session equals `Step`: committed then published, or dropped |
| Server.Server.RecalculatePage | app/communication/reconcile.py:103-108 | the page loop equals the fold, and counts the rows whose priority changed |
| Server.Server.RunReconcile | app/communication/reconcile.py:80-116 | ends in the tables and events of one pass for every page size; found and processed are the stale rows, updated those whose verdict moved |
| Server.Server.RunCloseInactive | app/communication/close_inactive.py:54-69 | lists the inactive ids, runs one transaction each among others' requests and returns how many it closed |
| Server.Server.CloseEach | app/communication/close_inactive.py:65-69 | the counting loop over the listed ids equals the batch |
| Checkout.Purchases | app/orders/checkout.py:75-88 | lines numbered from one in payload order, at the expected price |
| Checkout.ConsumeAllExactly | app/orders/checkout.py:48-54 | offers on sale: all UPDATEs match exactly if each stock covers its lines together, and then each stock falls by what was taken |
| Checkout.RejectedExactly | app/orders/checkout.py:33-45 | a line validates exactly if its offer is there, on sale, has at least that many and costs what was expected; each cause says which of these fails first |
| Checkout.ProblemsListNotBuyable | app/orders/checkout.py:57-69 | the rejected lines are exactly those of which that fails, in payload order |
| Checkout.ConsumesExactly | app/orders/checkout.py:48-54 | the conditional UPDATE matches exactly an offer on sale with at least that many, and lowers its stock alone |
| Checkout.NoProblemsMeansValid | app/orders/checkout.py:33-69 | the first pass rejects nothing exactly if every line validates |
| Checkout.ValidatedCheckoutGoesThrough | app/orders/checkout.py:57-93 | without interference a validated checkout succeeds exactly if stocks cover its lines, and always with distinct offers |
| Checkout.RepeatedOfferCanFallShort | app/orders/schemas.py:25-30 | why the API demands distinct offers: two lines on one offer can validate and still fall short |
| Checkout.PurchasesHold | app/orders/seed.py:343-356 | new purchases keep out of stock exactly what their lines took |
| Shop.Till.ValidateAll | app/orders/checkout.py:58-69 | collects exactly the invalid lines in order, and otherwise has read every line at its expected price |
| Shop.AcceptedExactly | app/orders/checkout.py:57-93 | without interference a checkout is accepted exactly if every line is buyable and stocks cover the lines together |
| Shop.DistinctAcceptedExactly | app/orders/checkout.py:57-93 | with distinct offers exactly if every line is buyable, the last unit included |
| Shop.Till.ConsumeEach | app/orders/checkout.py:75-88 | consumes and inserts line by line, or stops at the first refused line with the offer as found |
| Shop.Shop.PlaceOrder | app/orders/checkout.py:57-93 | a rejection leaves tables and log as they were and names the lines; an accepted order commits whole and publishes once |
| Shop.Shop.UpdateOrderItemStatus | app/orders/routes.py:262-282 | in place it equals the machine's advance; a repeat changes nothing |
| Shop.Shop.CancelOrderItem | app/orders/routes.py:290-318 | cancels and restores stock depending on the state left |
| Shop.Shop.UpdateOffer | app/catalog/offers.py:89-101 | edits the given fields and accounts the stock difference to the seller |
| SoloCheckout.SoloCheckoutCommitsExactly | app/orders/checkout.py:57-93 | alone in the machine a checkout can reach its commit exactly if the straight-line checkout accepts it |
| SoloCheckout.SoloCheckoutCommits | app/orders/checkout.py:57-93 | an unhindered checkout of the machine reaches its commit and leaves what the straight-line checkout leaves |
| MarketInvariant.ConsumeKeepsOwn | app/orders/checkout.py:48-54 | one more conditional UPDATE keeps a cart's own rows equal to the committed rows less what its lines took, none negative |
| MarketInvariant.CommitConserves | app/orders/checkout.py:75-93 | committing turns what a cart took into what its purchases hold |
| MarketInvariant.PurchaseMoveKeeps | app/orders/routes.py:297-305 | replacing a purchase conserves stock if exactly what it stops holding is restored |
| MarketInvariant.MoveKeeps | app/orders/checkout.py:57-93 | every step of every checkout, cancel, advance and edit keeps conservation, non-negative stock and exclusive locks |
| MarketRuns.StockIsConserved | app/orders/seed.py:343-356 | over every interleaving, stock plus held quantities is what the seller granted, and no committed or working stock is negative |
| MarketRuns.CommittedOrderIsWhole | app/orders/checkout.py:75-93 | an order commits one purchase per line, in order, at expected prices whatever sellers edited since, and each stock falls by what was taken |
| MarketRuns.UncommittedLeavesNoTrace | app/database.py:28-39 | without the steps of a checkout that never commits a run goes through as before and ends with the same offers, purchases and log |
| LockOrder.OrderedCheckoutsGoOn | app/orders/checkout.py:75-78 | when all payloads lock in one common order, checkouts under way never all wait |
| LockOrder.UnblockedGoesOn | app/orders/checkout.py:57-93 | a checkout that does not wait has a step of its own or is rejected |
| LockOrder.CrossedCheckoutsBlock | app/orders/checkout.py:75-78 | two checkouts naming two offers in opposite orders can come to wait for each other |
| MarketRuns.RestoredAtMostOnce | app/orders/routes.py:297-311 | a purchase is cancelled at most once, and its stock restored only if it had not left the seller |
| Notices.InsertAllExactly | app/notifications/service.py:62-77 | delivering adds exactly the missing rows of recipients who are users, never a second copy |
| Notices.RedeliveryIsSilent | app/notifications/channel.py:20-27 | delivering again to the same recipients writes nothing |
| Notices.BridgeJobsAreDeliverable | app/notifications/bridge.py:21-60 | every job the bridge makes passes the handler's checks |
| Notices.PriorityNoticeTells | app/notifications/bridge.py:48-59 | a priority change is announced from its old name to its new one, of its conversation and at its own time |
| Notices.OtherNoticesTell | app/notifications/bridge.py:24-47 | an item move is announced from its old status to its new one, a close as open to closed, anything else not at all; none of them is an alert |
| Notices.PriorityNamesTell | app/communication/priority.py:69-74 | the four priority names tell the priorities apart |
| Notices.StatusNamesTell | app/orders/status.py:6-10 | the five status names tell the statuses apart |
| Notices.AlertExactly | app/notifications/delivery.py:8-10 | a priority change is an alert exactly if it ends at high or critical |
| Notices.DeliverableExactly | app/notifications/service.py:21-57 | the handler takes a notice exactly if its names are all there and its kind is one of the three |
| Announcements.PriorityIsToldAsItWent | app/notifications/bridge.py:48-59 | over any run the priority notices of a conversation are its published changes put in names: each starts where the last ended, and the last ends at the effective priority |
| Announcements.StatusIsToldAsItWent | app/notifications/bridge.py:24-35 | over any run the notices of an item lead from placed to its status in the same way |
| Announcements.ClosingIsToldOnce | app/notifications/bridge.py:36-47 | over any run the close of a conversation is told once, open to closed, if it is closed, and never if it is open |
| Idempotency.NoticesAreDifferent | app/notifications/models.py:28-38 | while requests' stamps are apart, but for the pages of one reconcile run, no two published events become the same notice |
| Idempotency.TickingNoticesAreDifferent | app/notifications/bridge.py:21-60 | with no two requests at one instant and fresh repair moments the unique key never takes one change for another |
| WorkerRuns.InboxIsExactlyOnce | app/notifications/models.py:28-39 | under failures, repeats and reordering the table has one row per recipient and notice with a committed delivery and no other, and deleted jobs are done |
| WorkerRuns.ReceivedExactly | app/jobs/worker.py:21-41 | what a received message does: a well-formed job on which nothing fails has its delivery committed and leaves the queue if the delete works, any other stays; an alert is mailed once its recipients are served |
| WorkerRuns.RaisingChangesNothing | app/jobs/handlers.py:27-37 | a handler that raises leaves rows and queue as they were |
| WorkerRuns.FailuresLeaveOnlyMail | app/jobs/handlers.py:27-37 | without its failed deliveries a run ends in the same worker, but for mails |
| WorkerRuns.DeletedJobNotified | app/jobs/worker.py:21-41 | a job off the queue has notified all its recipients exactly when they are all users |
| WorkerRuns.PublishedEventIsNotified | app/notifications/bridge.py:63-84 | an event published before or during the run whose send did not fail is a job, and once any copy of it leaves the queue each user among its recipients has one row |
| WorkerRuns.AlertsAreMailed | app/notifications/service.py:111-142 | only alerts are mailed, and a committed alert whose turn resolved addresses has been mailed to them |
| Ticker.TickerRate | app/jobs/worker.py:67-87 | N enqueues span at least N - 1 intervals whatever handlers and queue do; none without a positive interval |
| Ticker.EnqueuesExactly | app/jobs/worker.py:67-87 | after any run a turn enqueues exactly if nothing failed in it, the interval has passed since the last enqueue and a reconcile job was received since |
| Ticker.TickerBacklog | app/jobs/worker.py:71-82 | between two enqueues some reconcile job was received, so enqueues exceed receipts by one at most |
| Ticker.NeverTwoAmongExactly | app/jobs/worker.py:67-87 | never two of the ticker's own jobs are unreceived, whatever handlers and queue do, exactly if it is off, or no reconcile job is there or sent by others and no message is delivered twice |
| Ticker.AloneNeverTwo | app/jobs/worker.py:71-82 | with no reconcile jobs from elsewhere and no redelivery, never two of them are unreceived |
| Ticker.ForeignJobLeavesTwo | app/jobs/worker.py:71-73 | any reconcile job found on the queue can end the wait for the ticker's own and leave two unreceived |
| Ticker.ArrivalLeavesTwo | app/jobs/worker.py:71-73 | so can one that arrives |
| Ticker.RedeliveryLeavesTwo | app/jobs/worker.py:71-73 | so can a second delivery of the ticker's own |
| JobWorker.InboxSession.Send | app/notifications/channel.py:20-27 | inserts if both keys accept the row, otherwise leaves the session at its savepoint |
| JobWorker.JobWorker.ProcessNotifyJob | app/notifications/service.py:21-108 | one insert per recipient in order, created and ignored counted, mail last |
| JobWorker.JobWorker.HandleNotify | app/jobs/handlers.py:27-37 | commits the job's rows if it returns and drops them if it raises |
| JobWorker.JobWorker.ProcessOnce | app/jobs/worker.py:21-41 | handles at most one message and deletes it only after success |
| JobWorker.JobWorker.EnqueueNotifiable | app/notifications/bridge.py:63-84 | queues the notifiable events in order, skipping failed sends |
| JobWorker.JobWorker.Run | app/jobs/worker.py:51-87 | the loop equals the run of the state machine, turn by turn |
| Windows.WindowsTileHistory | app/communication/routes.py:207-230 | windows walked back by the returned bound and put in front of one another list each message up to the first clock once, oldest first |
| Windows.WalkIsDays | app/communication/lifecycle.py:183-191 | the k-th window is the k-th day back, and the walk ends with the first that leaves nothing older |
| Windows.WindowShowsADay | app/communication/lifecycle.py:183-202 | one request shows exactly the messages of the 24 hours up to now, now included, or before the bound, the bound excluded; and says exactly whether something is older |
| Windows.ReturnedBoundIsAccepted | app/communication/lifecycle.py:194-202 | a returned bound is never refused as the next `before` |
| Windows.LaterMessagesDoNotShow | app/communication/routes.py:207-230 | messages posted during the walk change none of its windows |
| OpsQueue.SqlEffectiveAgrees | app/support/priority_ops.py:29-32 | the SQL priority is the effective one exactly if the override is null, critical or redundant |
| OpsQueue.QueueRanksEffectivePriority | app/communication/priority.py:112-113 | in every reachable state the queue ranks by the effective priority |
| OpsQueue.BeforeExactly | app/support/priority_ops.py:34-39 | the SQL order is by priority, highest first, then by newest interaction |
| OpsQueue.BadNumberExactly | app/orders/numbers.py:29-37 | the queue refuses a filter exactly if a number is given and, stripped, is not one |
| OpsQueue.RowsExactly | app/support/priority_ops.py:130-162 | a row is selected exactly if its conversation is open and it meets each filter that is set |
| QueueTies.MostUrgentFirst | app/support/priority_ops.py:163-167 | in every reachable state and for every filter the queue lists open conversations by effective priority, highest first, newest interaction first within one |
| QueueTies.CutsKeepOrder | app/support/priority_ops.py:163-187 | a page, and the preview, shows rows of the listing in the order they stand there, from its offset on |
| OpsQueue.ItemNumberSelects | app/orders/numbers.py:29-37 | filtering by a printed number selects that item, or that order |
| OpsQueue.OneOrder | app/support/priority_ops.py:163-167 | without ties the database can return one order only |
| OpsQueue.QueuePagesTile | app/support/priority_ops.py:143-176 | without ties pages are consecutive pieces of that order, enough of them give every selected row once, `total` counts them, and each page says its number and size |
| OpsQueue.PreviewIsPrefix | app/support/priority_ops.py:179-189 | the preview is the first page of the unfiltered queue |
| OpsQueue.TiesLoseARow | app/support/priority_ops.py:163-167 | if two different selected rows tie, some orders show one of them twice and lose a row |
| QueueTies.TickingQueueIsSafe | app/support/priority_ops.py:143-176 | with no two requests at one instant no two conversations share an interaction time and every filtered queue is paged safely |
| QueueTies.SharedInstantBreaksPaging | app/support/priority_ops.py:163-167 | a reachable state, two conversations opened at one instant, whose queue is not paged safely |
| OpsQueue.PagingIsSafeExactly | app/support/priority_ops.py:143-176 | every page size and every order the database may choose gives each selected row exactly once, exactly if no two selected rows tie |
| Catalog.GroupOffers | frontend/src/features/catalog/catalogRows.ts:34-45 | one pass groups, for every product, what filtering all offers gives |
| Catalog.OneMoreSeller | frontend/src/features/catalog/catalogRows.ts:63-65 | a set on the seller map keeps first-appearance order, distinctness and last names |
| Catalog.ScanOffers | frontend/src/features/catalog/catalogRows.ts:61-72 | first lowest, first highest, and the distinct sellers in order of first appearance |
| Catalog.DeriveCatalogRows | frontend/src/features/catalog/catalogRows.ts:33-84 | a row for each product in order, summarising exactly its purchasable offers |
| Catalog.RowTellsOffers | frontend/src/features/catalog/catalogRows.ts:47-84 | a product is in stock exactly if an offer of it is available with at least one left; its lowest price is asked by such an offer and undercut by none, its highest exceeded by none |
| Catalog.RowCountsSellers | frontend/src/features/catalog/catalogRows.ts:63-81 | the seller count is the number of different sellers of such offers |
| Catalog.OffersOfExactly | frontend/src/features/catalog/catalogRows.ts:23-45 | the offers grouped under a product are exactly its available ones with stock |
| Catalog.ComparatorIsConsistent | frontend/src/features/catalog/catalogSort.ts:37-49 | the price comparator is a consistent total preorder in both directions |
| Catalog.PriceSort | frontend/src/features/catalog/catalogSort.ts:25-50 | any stable sort gives one result: same rows, by price, ties as they came, unpriced last in both directions |
| Catalog.PriceSortExists | frontend/src/features/catalog/catalogSort.ts:37-49 | every list of rows has such a sort |
| Sorting.StableSortIsUnique | frontend/src/features/catalog/catalogSort.ts:37-49 | two stable sorts of the same rows agree |
| Numbers.NumbersRoundTrip | app/orders/numbers.py:13-26 | parsing a printed item or order number gives it back, whatever other scripts' digits are read |
| Numbers.ParsesNothingElse | app/orders/numbers.py:18-26 | what parses is decimal digits, of any script, or such digits, a dash and such digits |
| Numbers.ParsesExactly | app/orders/numbers.py:18-26 | where ASCII is read right, what is left after stripping parses exactly if it has that form |
| Numbers.ParsesPair | app/orders/numbers.py:18-26 | digits, a dash and digits parse to their two values |
| Numbers.QueryNumbersParse | app/orders/numbers.py:9-10 | a number the API lets through never makes the parser raise |
| Numbers.CanonicalPrintParsesTheSame | app/orders/numbers.py:13-26 | printing what was parsed and parsing again changes nothing |
| Numbers.PaddingIsIgnored | app/orders/numbers.py:18-26 | white space around a printed number makes no difference |
| Numbers.LeadingZero | app/orders/numbers.py:24-25 | nor does a leading zero |
| Numbers.ItemNumbersAreDistinct | app/orders/numbers.py:13-15 | different items have different public numbers |

## Left out

- Server.Session.CancelOrderItem: writes the item and its events; the offer's stock it restores is in `Shop.Shop.CancelOrderItem` and in the interleaved machine, because conversations never read stock.
- Numbers.NumbersRoundTrip: without the 4300-digit limit of Python's int.
- WorkerRuns.InboxIsExactlyOnce: one worker; a second one would contend on the same unique key.
- WorkerRuns.AlertsAreMailed: e-mail is not idempotent, so nothing bounds how often an alert is mailed.
- JobWorker.JobWorker.RunJob: a reconcile job only counts as received and as done or failed here; what it does to the tables is `Server.Server.RunReconcile`.
- Catalog.PriceSort: sorting by name depends on `localeCompare` and is left out.
- FastAPI routing, schemas, authentication, roles and ownership filters: plumbing and access control.
- Which users a notice concerns (app/notifications/recipients.py): a parameter, fixed or varying from delivery to delivery.
- The SQS adapter, JSON bodies and the dead-letter queue: the queue is any at-least-once queue, and a body is the job it parses to or is unreadable.
- SQLAlchemy's identity map and the isolation levels of PostgreSQL: see the assumptions.
- Binary floating point in ages and prices: exact integers.
- Notification titles, e-mail text and logging.
- Seed data, migrations, health checks, dashboards and read-only listings of orders: they keep no state of their own and
  decide nothing the rules above depend on.
- React components, hooks and the HTTP client, and the search normalisation of the catalog.
