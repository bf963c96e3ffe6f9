/** Status rules of an order item: app/orders/status.py and the two routes that move an item. */
module ItemStatuses {
  import opened Options
  import opened Policy
  import opened Records

  function Forward(current: ItemStatus): Option<ItemStatus> {
    match current
    case Placed => Some(Preparing)
    case Preparing => Some(InTransit)
    case InTransit => Some(Delivered)
    case _ => None
  }

  predicate CanCancel(current: ItemStatus, who: Participant) {
    match who
    case Buyer => current == Placed || current == Preparing
    case Seller => current == Placed || current == Preparing || current == InTransit
  }

  predicate RestoresStock(current: ItemStatus) {
    current == Placed || current == Preparing
  }

  datatype ItemMove = Moved(item: Item, events: seq<Event>) | Refused

  function Touch(item: Item, status: ItemStatus, now: Time): Item {
    item.(status := status, updatedAt := now, statusUpdatedAt := now)
  }

  function AdvanceItem(id: Id, item: Item, target: ItemStatus, now: Time): ItemMove {
    if target == item.status then Moved(item, [])
    else if Forward(item.status) != Some(target) then Refused
    else Moved(Touch(item, target, now), [ItemStatusChanged(id, item.status, target)])
  }

  function CancelItem(id: Id, item: Item, who: Participant, now: Time): ItemMove {
    if item.status == Cancelled then Moved(item, [])
    else if !CanCancel(item.status, who) then Refused
    else Moved(Touch(item, Cancelled, now),
               [ItemCancelled(id, RestoresStock(item.status)), ItemStatusChanged(id, item.status, Cancelled)])
  }

  /** Steps an item can still take forward; delivered and cancelled items have none. */
  function StepsLeft(status: ItemStatus): nat {
    match status
    case Placed => 3
    case Preparing => 2
    case InTransit => 1
    case Delivered => 0
    case Cancelled => 0
  }

  /** Forward is one step; a buyer may cancel, and stock comes back, with two steps left at least, and a seller may cancel with one. */
  lemma RulesInSteps(current: ItemStatus, target: ItemStatus)
    ensures Forward(current) == Some(target) <==>
      current != Cancelled && target != Cancelled && StepsLeft(current) == StepsLeft(target) + 1
    ensures CanCancel(current, Buyer) <==> StepsLeft(current) >= 2
    ensures CanCancel(current, Seller) <==> StepsLeft(current) >= 1
    ensures RestoresStock(current) <==> StepsLeft(current) >= 2
  {
  }

  /** The transitions the API allows at all, whoever asks. */
  predicate Allowed(from: ItemStatus, to: ItemStatus) {
    Forward(from) == Some(to) || (to == Cancelled && CanCancel(from, Seller))
  }

  /** A path of allowed transitions between two statuses. */
  predicate StatusPath(trail: seq<(ItemStatus, ItemStatus)>, start: ItemStatus, end: ItemStatus) {
    if trail == [] then start == end
    else trail[0].0 == start && Allowed(start, trail[0].1) && StatusPath(trail[1..], trail[0].1, end)
  }

  lemma {:induction false} StatusPathJoins(a: seq<(ItemStatus, ItemStatus)>, b: seq<(ItemStatus, ItemStatus)>,
                                           start: ItemStatus, middle: ItemStatus, end: ItemStatus)
    requires StatusPath(a, start, middle) && StatusPath(b, middle, end)
    ensures StatusPath(a + b, start, end)
  {
    if a == [] {
      assert a + b == b;
    } else {
      StatusPathJoins(a[1..], b, a[0].1, middle, end);
      assert (a + b)[1..] == a[1..] + b;
    }
  }

  /**
   Every transition uses up a step, so a path is never longer than the steps it uses up; one that does
   not end in a cancellation takes every step between its ends.
   */
  lemma {:induction false} StatusPathIsShort(trail: seq<(ItemStatus, ItemStatus)>, start: ItemStatus, end: ItemStatus)
    requires StatusPath(trail, start, end)
    ensures |trail| + StepsLeft(end) <= StepsLeft(start)
    ensures end != Cancelled ==> |trail| + StepsLeft(end) == StepsLeft(start)
    ensures StepsLeft(start) == 0 ==> trail == [] && end == start
  {
    if trail == [] {
    } else {
      StatusPathIsShort(trail[1..], trail[0].1, end);
    }
  }
}
