/** The rows and domain events that the transactions of the backend read, write and publish. */
module Records {
  import opened Options
  import opened Policy

  datatype Item = Item(offerId: Id, quantity: nat, price: int, status: ItemStatus,
                       updatedAt: Time, statusUpdatedAt: Time)

  datatype Conversation = Conversation(
    itemId: Id, reason: Reason, open: bool,
    createdAt: Time, updatedAt: Time, lastInteractionAt: Time,
    calculated: Priority, override: Option<Priority>, calculatedAt: Option<Time>)
  {
    function Effective(): Priority { EffectivePriority(calculated, override) }
  }

  datatype Participant = Buyer | Seller

  datatype Author = User(who: Participant) | System

  datatype Body = Text(text: string) | InactivityNotice

  datatype Message = Message(conversationId: Id, author: Author, body: Body, createdAt: Time)

  datatype Comment = Comment(itemId: Id, text: string)

  datatype ClosedBy = Inactivity | Manual

  datatype Event =
    | OrderCreated(orderId: Id, buyerId: Id)
    | ItemStatusChanged(itemId: Id, fromStatus: ItemStatus, toStatus: ItemStatus)
    | ItemCancelled(itemId: Id, restoredStock: bool)
    | ConversationCreated(conversationId: Id, itemId: Id)
    | MessageCreated(messageId: nat, conversationId: Id)
    | ConversationClosed(conversationId: Id, closedBy: ClosedBy)
    | PriorityChanged(conversationId: Id, fromPriority: Priority, toPriority: Priority, changedAt: Time)
    | CommentCreated(commentId: nat, itemId: Id)

  datatype Error = NotFound | InvalidTransition | IntegrityError

  /** The tables of one database, as a transaction sees them. */
  datatype Db = Db(items: map<Id, Item>, conversations: map<Id, Conversation>,
                   messages: seq<Message>, comments: seq<Comment>)

  /** Tables after some writes, and the events those writes recorded. */
  datatype Written = Written(db: Db, events: seq<Event>)

  /** What a transaction comes to: the tables it commits and the events it publishes, or the error it raises. */
  datatype Outcome = Committed(db: Db, events: seq<Event>) | Raised(error: Error)
}
