/** Listing an item's conversations, which closes the inactive ones on the way: app/communication/routes.py. */
module ItemListing {
  import opened Policy
  import opened Records
  import opened Ordering
  import opened Transactions
  import opened Runs

  /** The listed rows one after the other, each locked, looked at again and closed if inactive. */
  function CloseInTurn(db: Db, listing: seq<Id>, hours: int, now: Time): Written
    decreases |listing|
  {
    if listing == [] then Written(db, [])
    else
      var first := Looked(db, listing[0], hours, now);
      Then(first, CloseInTurn(first.db, listing[1..], hours, now))
  }

  /** One listed row; nothing happens to a row that is gone. */
  function Looked(db: Db, id: Id, hours: int, now: Time): Written {
    match ReadConversation(db, id, hours, now)
    case Committed(after, events) => Written(after, events)
    case Raised(_) => Written(db, [])
  }

  predicate OfItem(db: Db, listing: seq<Id>, itemId: Id) {
    forall id :: id in listing ==> id in db.conversations && db.conversations[id].itemId == itemId
  }

  predicate NoneInactive(db: Db, listing: seq<Id>, hours: int, now: Time) {
    forall id :: id in listing && id in db.conversations ==> !IsInactive(db.conversations[id], hours, now)
  }

  lemma {:induction false} NothingToClose(db: Db, listing: seq<Id>, hours: int, now: Time)
    requires NoneInactive(db, listing, hours, now)
    ensures CloseInTurn(db, listing, hours, now) == Written(db, [])
    decreases |listing|
  {
    if listing == [] {
    } else {
      assert listing[0] in listing;
      NothingToClose(db, listing[1..], hours, now);
    }
  }

  lemma OthersAreClosed(db: Db, listing: seq<Id>, itemId: Id, id: Id, hours: int, now: Time)
    requires OneOpenPerItem(db) && OfItem(db, listing, itemId) && id !in listing
    requires id in db.conversations && db.conversations[id].itemId == itemId && IsInactive(db.conversations[id], hours, now)
    ensures NoneInactive(Looked(db, id, hours, now).db, listing, hours, now)
  {
  }

  /**
   At most one conversation of an item is open, so listing the item does to the tables and the log what
   reading its one inactive conversation does, in whatever order the rows are listed.
   */
  lemma {:induction false} ListingIsOneRead(db: Db, listing: seq<Id>, itemId: Id, id: Id, hours: int, now: Time)
    requires OneOpenPerItem(db) && OfItem(db, listing, itemId) && Distinct(listing)
    requires id in listing && IsInactive(db.conversations[id], hours, now)
    ensures CloseInTurn(db, listing, hours, now) == Looked(db, id, hours, now)
    decreases |listing|
  {
    var first, rest := listing[0], listing[1..];
    assert first in listing;
    if id == first {
      OthersAreClosed(db, rest, itemId, id, hours, now);
      NothingToClose(Looked(db, id, hours, now).db, rest, hours, now);
    } else {
      assert id in rest;
      assert Looked(db, first, hours, now) == Written(db, []);
      ListingIsOneRead(db, rest, itemId, id, hours, now);
    }
  }
}
