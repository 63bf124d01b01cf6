/** Thread replies under a message and the per-user thread subscription flag. */
module Threads {
  import opened Wrappers
  import opened Schema
  import Text

  /** The row `sendThreadReply` inserts: it lives in the parent's conversation, points at
      the parent, and stores null for empty or absent content and file. */
  function NewReply(id: Id, parent: Message, parentId: Id, sender: UserId, content: Option<string>, fileUrl: Option<string>, now: Time)
    : (m: Message)
    ensures m.id == id && m.conversation == parent.conversation && m.parent == Some(parentId) && m.sender == sender
    ensures m.content == Text.NonEmpty(content) && m.fileUrl == Text.NonEmpty(fileUrl)
    ensures m.createdAt == now && m.editedAt.None? && m.deletedAt.None?
  {
    Message(id, parent.conversation, sender, Text.NonEmpty(content), Text.NonEmpty(fileUrl), Some(parentId), now, None, None)
  }

  /** `sendThreadReply`. Unlike a top-level send it never touches the conversation row:
      only `messages` and the id counter are in its frame. */
  method SendThreadReply(
    db: Db, user: Option<UserId>, parentId: Id, content: Option<string>, fileUrl: Option<string>,
    now: Time, failure: Option<string>)
    returns (r: Result<Message>)
    requires db.Valid()
    modifies db`messages, db`nextId
    ensures db.Valid()
    ensures user.None? ==> r == Err("Unauthorized") && unchanged(db)
    ensures user.Some? && parentId !in old(db.messages) ==> r == Err("Parent message not found") && unchanged(db)
    ensures user.Some? && parentId in old(db.messages) && failure.Some? ==> r == Err(failure.value) && unchanged(db)
    ensures user.Some? && parentId in old(db.messages) && failure.None? ==>
      var m := NewReply(old(db.nextId), old(db.messages)[parentId], parentId, user.value, content, fileUrl, now);
      r == Ok(m) && db.messages == old(db.messages)[m.id := m] && db.nextId == old(db.nextId) + 1
  {
    if user.None? {
      return Err("Unauthorized");
    }
    if parentId !in db.messages {
      return Err("Parent message not found");
    }
    var parent := db.messages[parentId];
    if failure.Some? {
      return Err(failure.value);
    }
    var id := db.FreshId();
    var reply := NewReply(id, parent, parentId, user.value, content, fileUrl, now);
    db.messages := db.messages[id := reply];
    r := Ok(reply);
  }

  /** `getThreadCount`: the count the backend function answers, with 0 for an error
      (`answer` is `Err`), for a null answer, and of course for 0 itself. */
  function ThreadCount(answer: Result<Option<nat>>): (n: nat)
    ensures answer.Err? || answer == Ok(None) ==> n == 0
    ensures answer.Ok? && answer.value.Some? ==> n == answer.value.value
  {
    match answer
    case Err(_) => 0
    case Ok(None) => 0
    case Ok(Some(k)) => k
  }

  /** `getThreadMessages`: the replies the backend function lists, or none for a null
      answer; an error is rethrown, and a missing caller is refused. */
  function ThreadMessages(user: Option<UserId>, answer: Result<Option<seq<Message>>>): (r: Result<seq<Message>>)
    ensures user.None? ==> r == Err("Unauthorized")
    ensures user.Some? && answer.Err? ==> r == Err(answer.error)
    ensures user.Some? && answer.Ok? ==> r == Ok(answer.value.GetOr([]))
  {
    if user.None? then Err("Unauthorized")
    else if answer.Err? then Err(answer.error)
    else Ok(answer.value.GetOr([]))
  }

  /** The upsert of `subscribeToThread` (`subscribed` true) and `unsubscribeFromThread`
      (false): one row per (user, message), overwritten by the latest call. */
  method SetThreadSubscription(db: Db, user: Option<UserId>, messageId: Id, subscribed: bool, failure: Option<string>)
    returns (r: Outcome)
    modifies db`threadSubscriptions
    ensures user.None? ==> r == Failed("Unauthorized") && db.threadSubscriptions == old(db.threadSubscriptions)
    ensures user.Some? && failure.Some? ==> r == Failed(failure.value) && db.threadSubscriptions == old(db.threadSubscriptions)
    ensures user.Some? && failure.None? ==>
      r == Done && db.threadSubscriptions == old(db.threadSubscriptions)[(user.value, messageId) := subscribed]
  {
    if user.None? {
      return Failed("Unauthorized");
    }
    if failure.Some? {
      return Failed(failure.value);
    }
    db.threadSubscriptions := db.threadSubscriptions[(user.value, messageId) := subscribed];
    r := Done;
  }

  method SubscribeToThread(db: Db, user: Option<UserId>, messageId: Id, failure: Option<string>)
    returns (r: Outcome)
    modifies db`threadSubscriptions
    ensures user.None? || failure.Some? ==> db.threadSubscriptions == old(db.threadSubscriptions) && r.Failed?
    ensures user.Some? && failure.None? ==>
      r == Done && db.threadSubscriptions == old(db.threadSubscriptions)[(user.value, messageId) := true]
  {
    r := SetThreadSubscription(db, user, messageId, true, failure);
  }

  method UnsubscribeFromThread(db: Db, user: Option<UserId>, messageId: Id, failure: Option<string>)
    returns (r: Outcome)
    modifies db`threadSubscriptions
    ensures user.None? || failure.Some? ==> db.threadSubscriptions == old(db.threadSubscriptions) && r.Failed?
    ensures user.Some? && failure.None? ==>
      r == Done && db.threadSubscriptions == old(db.threadSubscriptions)[(user.value, messageId) := false]
  {
    r := SetThreadSubscription(db, user, messageId, false, failure);
  }

  /** Subscribing and then unsubscribing leaves the flag false: the last call wins, and
      no other user's or message's flag moves. */
  method SubscribeThenUnsubscribe(db: Db, u: UserId, messageId: Id)
    modifies db`threadSubscriptions
    ensures db.threadSubscriptions == old(db.threadSubscriptions)[(u, messageId) := false]
  {
    var a := SubscribeToThread(db, Some(u), messageId, None);
    var b := UnsubscribeFromThread(db, Some(u), messageId, None);
  }
}
