/** Read receipts: the caller marks the other participants' messages in a conversation
    as read. */
module ReadReceipts {
  import opened Wrappers
  import opened Schema

  /** The lookup `messages where conversation_id = c and sender_id <> u`. */
  function UnreadCandidates(messages: map<Id, Message>, c: Id, u: UserId): (ids: set<Id>)
    ensures forall k :: k in ids <==> k in messages && messages[k].conversation == c && messages[k].sender != u
  {
    set k | k in messages && messages[k].conversation == c && messages[k].sender != u
  }

  /** The receipts after the upsert on (message_id, user_id): one row per listed message
      for `u`, stamped `now`, overwriting an earlier stamp; every other row kept. */
  function Upserted(receipts: map<(Id, UserId), Time>, ids: set<Id>, u: UserId, now: Time)
    : (r: map<(Id, UserId), Time>)
    ensures forall k :: k in ids ==> (k, u) in r && r[(k, u)] == now
    ensures forall key :: key in r <==> key in receipts || (key.1 == u && key.0 in ids)
    ensures forall key :: key in receipts && !(key.1 == u && key.0 in ids) ==> r[key] == receipts[key]
  {
    var keys := set k | k in ids :: (k, u);
    var stamped := map key | key in keys :: now;
    receipts + stamped
  }

  /** `markMessagesAsRead`. Nothing is written when the conversation has no message from
      anyone else, or when the lookup yields nothing (`lookupFailed`). A failed upsert is
      only logged: the call still returns normally with nothing written. */
  method MarkMessagesAsRead(db: Db, user: Option<UserId>, conversationId: Id, now: Time, lookupFailed: bool, upsertFailed: bool)
    returns (r: Outcome)
    modifies db`receipts
    ensures user.None? ==> r == Failed("Unauthorized") && db.receipts == old(db.receipts)
    ensures user.Some? ==> r == Done
    ensures user.Some? ==>
      var ids := UnreadCandidates(old(db.messages), conversationId, user.value);
      db.receipts == if lookupFailed || ids == {} || upsertFailed then old(db.receipts)
                     else Upserted(old(db.receipts), ids, user.value, now)
  {
    if user.None? {
      return Failed("Unauthorized");
    }
    var ids := if lookupFailed then {} else UnreadCandidates(db.messages, conversationId, user.value);
    if ids == {} {
      return Done;
    }
    if !upsertFailed {
      db.receipts := Upserted(db.receipts, ids, user.value, now);
    }
    r := Done;
  }

  /** After a successful marking every message of the others in the conversation has a
      receipt for the caller, and none of the caller's own messages gained one. */
  lemma MarkedCoversOthersOnly(
    receipts: map<(Id, UserId), Time>, messages: map<Id, Message>, c: Id, u: UserId, now: Time)
    ensures var ids := UnreadCandidates(messages, c, u);
      var after := if ids == {} then receipts else Upserted(receipts, ids, u, now);
      && (forall k :: k in messages && messages[k].conversation == c && messages[k].sender != u ==> (k, u) in after)
      && (forall k :: k in messages && messages[k].sender == u ==> ((k, u) in after <==> (k, u) in receipts))
  {
  }

  /** `getReadReceipts`: the receipts of the listed messages; a failed query gives none. */
  function ReadReceiptsFor(receipts: map<(Id, UserId), Time>, messageIds: seq<Id>, failed: bool)
    : (r: set<(Id, UserId, Time)>)
    ensures failed ==> r == {}
    ensures !failed ==> forall m, u, t :: (m, u, t) in r <==> (m, u) in receipts && receipts[(m, u)] == t && m in messageIds
  {
    if failed then {}
    else set key | key in receipts && key.0 in messageIds :: (key.0, key.1, receipts[key])
  }
}
