/** The lookup both client screens run before opening a direct message with another user:
    the other user's `conversation_members` rows in conversations the caller belongs to,
    each joined with its conversation row (an inner join), and the two inserts that create
    a conversation when none is found. */
module DmLookup {
  import opened Wrappers
  import opened Schema
  import Lists

  /** The conversation row with that id, if any. */
  function ConversationById(convs: seq<Conversation>, id: Id): (r: Option<Conversation>)
    ensures r.Some? ==> r.value in convs && r.value.id == id
    ensures r.None? <==> forall i :: 0 <= i < |convs| ==> convs[i].id != id
  {
    var k := Lists.FirstWhere(convs, (c: Conversation) => c.id == id);
    if k < |convs| then Some(convs[k]) else None
  }

  /** A row of the join: a membership row and the conversation it points at. */
  datatype Joined = Joined(member: Membership, conversation: Conversation)

  /** The rows of `rows` (a slice of the membership table `all`) that belong to `other`
      and to a conversation `me` is a member of, with their conversation, in table order.
      Rows whose conversation does not exist drop out of the inner join. */
  function SharedRows(convs: seq<Conversation>, all: seq<Membership>, rows: seq<Membership>, me: UserId, other: UserId)
    : (r: seq<Joined>)
    ensures forall j :: j in r <==>
      && j.member in rows && j.member.user == other && IsMember(all, j.member.conversation, me)
      && ConversationById(convs, j.member.conversation) == Some(j.conversation)
    decreases rows
  {
    if rows == [] then []
    else
      var m := rows[0];
      var c := ConversationById(convs, m.conversation);
      var rest := SharedRows(convs, all, rows[1..], me, other);
      assert forall x :: x in rows <==> x == m || x in rows[1..];
      if m.user == other && IsMember(all, m.conversation, me) && c.Some? then [Joined(m, c.value)] + rest else rest
  }

  /** `conversationIds`: the conversations of the caller's membership rows. */
  function MyConversationIds(members: seq<Membership>, me: UserId): (ids: seq<Id>)
    ensures forall c :: c in ids <==> IsMember(members, c, me)
  {
    if members == [] then []
    else
      var last := members[|members| - 1];
      var init := MyConversationIds(members[..|members| - 1], me);
      assert forall c :: IsMember(members, c, me) <==> IsMember(members[..|members| - 1], c, me) || (last.conversation == c && last.user == me) by {
        assert members == members[..|members| - 1] + [last];
        forall c ensures MemberIds(members, c) == MemberIds(members[..|members| - 1], c) + MemberIds([last], c) {
          MemberIdsAppend(members[..|members| - 1], [last], c);
        }
      }
      init + (if last.user == me then [last.conversation] else [])
  }

  /** Every joined row is a conversation of both users. */
  lemma SharedRowsAreShared(convs: seq<Conversation>, members: seq<Membership>, me: UserId, other: UserId, j: Joined)
    requires j in SharedRows(convs, members, members, me, other)
    ensures j.conversation in convs && j.conversation.id == j.member.conversation
    ensures IsMember(members, j.member.conversation, me) && IsMember(members, j.member.conversation, other)
  {
    assert j.member in members && j.member.user == other;
  }

  /** Without a conversation of the caller's there is nothing to join. */
  lemma {:induction false} NoConversationsNoRows(
    convs: seq<Conversation>, all: seq<Membership>, rows: seq<Membership>, me: UserId, other: UserId)
    requires MyConversationIds(all, me) == []
    ensures SharedRows(convs, all, rows, me, other) == []
    decreases rows
  {
    if rows != [] {
      assert rows[0].conversation !in MyConversationIds(all, me);
      NoConversationsNoRows(convs, all, rows[1..], me, other);
    }
  }

  /** The join runs row by row: joining two slices is joining each. */
  lemma {:induction false} SharedRowsAppend(
    convs: seq<Conversation>, all: seq<Membership>, a: seq<Membership>, b: seq<Membership>, me: UserId, other: UserId)
    ensures SharedRows(convs, all, a + b, me, other) == SharedRows(convs, all, a, me, other) + SharedRows(convs, all, b, me, other)
    decreases a
  {
    if a == [] {
      assert a + b == b;
    } else {
      assert (a + b)[0] == a[0];
      assert (a + b)[1..] == a[1..] + b;
      SharedRowsAppend(convs, all, a[1..], b, me, other);
    }
  }

  /** The conversation insert and then the member insert, which can fail after the
      conversation exists; nothing is rolled back. */
  method InsertConversation(db: Db, row: Conversation, rows: seq<Membership>, membersFailed: bool)
    requires db.Valid() && row.id == db.nextId
    requires forall i :: 0 <= i < |rows| ==> rows[i].conversation == row.id
    modifies db`conversations, db`members, db`nextId
    ensures db.Valid() && db.nextId == old(db.nextId) + 1
    ensures db.conversations == old(db.conversations) + [row]
    ensures membersFailed ==> db.members == old(db.members)
    ensures !membersFailed ==> db.members == old(db.members) + rows
  {
    var id := db.FreshId();
    db.conversations := db.conversations + [row];
    if !membersFailed {
      db.members := db.members + rows;
      assert forall i :: |old(db.members)| <= i < |db.members| ==> db.members[i] == rows[i - |old(db.members)|];
    }
  }
}
