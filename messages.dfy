/** The sender's server actions on messages: sending, editing and deleting. */
module Messages {
  import opened Wrappers
  import opened Schema
  import Text

  /** The conversations after `update conversations set updated_at = t where id = c`. */
  function Touched(convs: seq<Conversation>, c: Id, t: Time): (r: seq<Conversation>)
    ensures |r| == |convs|
    ensures forall i :: 0 <= i < |r| ==> r[i] == if convs[i].id == c then convs[i].(updatedAt := t) else convs[i]
  {
    if convs == [] then []
    else [if convs[0].id == c then convs[0].(updatedAt := t) else convs[0]] + Touched(convs[1..], c, t)
  }

  /** Touching a conversation changes no identifier, so the store invariant is kept. */
  lemma TouchedKeepsIds(convs: seq<Conversation>, c: Id, t: Time)
    ensures forall i :: 0 <= i < |convs| ==> Touched(convs, c, t)[i].id == convs[i].id
    ensures forall i :: 0 <= i < |convs| ==> Touched(convs, c, t)[i].updatedAt == (if convs[i].id == c then t else convs[i].updatedAt)
  {
  }

  /** The row `sendMessage` inserts: the caller is the sender, and an empty or absent
      content or file URL is stored as null. */
  function NewMessage(id: Id, conversation: Id, sender: UserId, content: Option<string>, fileUrl: Option<string>, now: Time)
    : (m: Message)
    ensures m.id == id && m.conversation == conversation && m.sender == sender
    ensures m.content.Some? <==> content.Some? && content.value != []
    ensures m.fileUrl.Some? <==> fileUrl.Some? && fileUrl.value != []
    ensures m.content.Some? ==> m.content == content
    ensures m.fileUrl.Some? ==> m.fileUrl == fileUrl
    ensures m.parent.None? && m.editedAt.None? && m.deletedAt.None? && m.createdAt == now
  {
    Message(id, conversation, sender, Text.NonEmpty(content), Text.NonEmpty(fileUrl), None, now, None, None)
  }

  /** `sendMessage`. The insert needs no membership and no content: a message with neither
      text nor file is stored. After a successful insert the conversation's `updated_at`
      is set; the result of that update is not checked, so `bumpFailed` leaves it as it
      was without affecting the outcome. A failed insert, `failure`, is thrown before any
      update. */
  method SendMessage(
    db: Db, user: Option<UserId>, conversationId: Id, content: Option<string>, fileUrl: Option<string>,
    now: Time, failure: Option<string>, bumpFailed: bool)
    returns (r: Result<Message>)
    requires db.Valid()
    modifies db`messages, db`conversations, db`nextId
    ensures db.Valid()
    ensures user.None? ==> r == Err("Unauthorized") && unchanged(db)
    ensures user.Some? && failure.Some? ==> r == Err(failure.value) && unchanged(db)
    ensures user.Some? && failure.None? ==>
      var m := NewMessage(old(db.nextId), conversationId, user.value, content, fileUrl, now);
      && r == Ok(m)
      && db.messages == old(db.messages)[m.id := m]
      && db.nextId == old(db.nextId) + 1
      && db.conversations == if bumpFailed then old(db.conversations) else Touched(old(db.conversations), conversationId, now)
  {
    if user.None? {
      return Err("Unauthorized");
    }
    if failure.Some? {
      return Err(failure.value);
    }
    var id := db.FreshId();
    var message := NewMessage(id, conversationId, user.value, content, fileUrl, now);
    db.messages := db.messages[id := message];
    if !bumpFailed {
      TouchedKeepsIds(db.conversations, conversationId, now);
      db.conversations := Touched(db.conversations, conversationId, now);
    }
    r := Ok(message);
  }

  /** Whether message `id` exists and was sent by `u`: the `id = … and sender_id = …`
      filter of edits and deletes. */
  predicate OwnMessage(messages: map<Id, Message>, id: Id, u: UserId) {
    id in messages && messages[id].sender == u
  }

  /** `editMessage`: the caller's own message gets the new content, untrimmed, and an edit
      time; any other message is left alone and nothing is returned for it. */
  method EditMessage(db: Db, user: Option<UserId>, messageId: Id, content: string, now: Time, failure: Option<string>)
    returns (r: Result<Option<Message>>)
    modifies db`messages
    ensures user.None? ==> r == Err("Unauthorized") && db.messages == old(db.messages)
    ensures user.Some? && failure.Some? ==> r == Err(failure.value) && db.messages == old(db.messages)
    ensures user.Some? && failure.None? && !OwnMessage(old(db.messages), messageId, user.value) ==>
      r == Ok(None) && db.messages == old(db.messages)
    ensures user.Some? && failure.None? && OwnMessage(old(db.messages), messageId, user.value) ==>
      var m := old(db.messages)[messageId].(content := Some(content), editedAt := Some(now));
      r == Ok(Some(m)) && db.messages == old(db.messages)[messageId := m]
  {
    if user.None? {
      return Err("Unauthorized");
    }
    if failure.Some? {
      return Err(failure.value);
    }
    if !OwnMessage(db.messages, messageId, user.value) {
      return Ok(None);
    }
    var m := db.messages[messageId].(content := Some(content), editedAt := Some(now));
    db.messages := db.messages[messageId := m];
    r := Ok(Some(m));
  }

  /** `deleteMessage` by the sender: the row is removed for good, and only when it is the
      caller's own. */
  method DeleteMessage(db: Db, user: Option<UserId>, messageId: Id, failure: Option<string>)
    returns (r: Outcome)
    modifies db`messages
    ensures user.None? ==> r == Failed("Unauthorized") && db.messages == old(db.messages)
    ensures user.Some? && failure.Some? ==> r == Failed(failure.value) && db.messages == old(db.messages)
    ensures user.Some? && failure.None? ==>
      r == Done
      && db.messages == if OwnMessage(old(db.messages), messageId, user.value) then old(db.messages) - {messageId}
                        else old(db.messages)
  {
    if user.None? {
      return Failed("Unauthorized");
    }
    if failure.Some? {
      return Failed(failure.value);
    }
    if OwnMessage(db.messages, messageId, user.value) {
      db.messages := db.messages - {messageId};
    }
    r := Done;
  }

  /** Messages of other senders are never changed by the sender's edit or delete. */
  method OthersUntouched(db: Db, u: UserId, messageId: Id, content: string, now: Time, other: Id)
    modifies db`messages
    requires other in db.messages && db.messages[other].sender != u
    ensures other in db.messages && db.messages[other] == old(db.messages[other])
  {
    var edited := EditMessage(db, Some(u), messageId, content, now, None);
    var deleted := DeleteMessage(db, Some(u), messageId, None);
  }
}
