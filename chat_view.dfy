/** `ChatView`: the open conversation's message list and typing list, and the reducers the
    realtime handlers apply to them. Delivery of the events is not modelled; each handler
    is an operation on the view's state. */
module ChatScreen {
  import opened Wrappers
  import opened Schema
  import Lists
  import Peers

  /** The avatar of the header: the peer's for a DM, none otherwise. */
  function HeaderAvatar(c: Peers.ConversationView, current: UserId): (a: Option<string>)
    ensures Peers.Peer(c, current).Some? ==> a == Peers.Peer(c, current).value.profile.avatarUrl
    ensures Peers.Peer(c, current).None? ==> a.None?
  {
    var peer := Peers.Peer(c, current);
    if peer.Some? then peer.value.profile.avatarUrl else None
  }

  function CreatedAscending(m: Message): int { 0 - m.createdAt as int }

  /** The messages of conversation `c` without `deleted_at`. */
  function Visible(c: Id): Message -> bool {
    (m: Message) => m.conversation == c && m.deletedAt.None?
  }

  /** The messages created at time `t`. */
  function CreatedAt(t: int): Message -> bool {
    (m: Message) => m.createdAt as int == t
  }

  /** The initial query: the conversation's messages without `deleted_at`, each as often
      as the table holds it, by `created_at` ascending. `table` is the table in the order
      the backend scans it. */
  function LoadQuery(table: seq<Message>, c: Id): (r: seq<Message>)
    ensures forall m :: m in r <==> m in table && m.conversation == c && m.deletedAt.None?
    ensures multiset(r) == multiset(Lists.Filter(table, Visible(c)))
    ensures forall i, j :: 0 <= i < j < |r| ==> r[i].createdAt <= r[j].createdAt
  {
    Lists.FilterMembers(table, Visible(c));
    var r := Lists.SortDesc(Lists.Filter(table, Visible(c)), CreatedAscending);
    Lists.SortDescMembers(Lists.Filter(table, Visible(c)), CreatedAscending);
    assert forall i, j :: 0 <= i < j < |r| ==> CreatedAscending(r[i]) >= CreatedAscending(r[j]);
    r
  }

  /** The scan order decides the order of messages with equal timestamps: they come in
      the order the table holds them. */
  lemma LoadQueryStable(table: seq<Message>, c: Id, t: int)
    ensures Lists.Filter(LoadQuery(table, c), CreatedAt(t)) == Lists.Filter(Lists.Filter(table, Visible(c)), CreatedAt(t))
  {
    Lists.SortDescStable(Lists.Filter(table, Visible(c)), CreatedAscending, CreatedAt(t), 0 - t);
  }

  /** UPDATE: the payload row replaces every message with its id; nothing moves. */
  function Updated(prev: seq<Message>, row: Message): (r: seq<Message>)
    ensures |r| == |prev|
    ensures forall i :: 0 <= i < |r| ==> r[i].id == prev[i].id
    ensures forall i :: 0 <= i < |r| ==> (prev[i].id == row.id ==> r[i] == row) && (prev[i].id != row.id ==> r[i] == prev[i])
  {
    seq(|prev|, i requires 0 <= i < |prev| => if prev[i].id == row.id then row else prev[i])
  }

  /** Applying the same UPDATE twice is applying it once. */
  lemma UpdateIdempotent(prev: seq<Message>, row: Message)
    ensures Updated(Updated(prev, row), row) == Updated(prev, row)
  {
  }

  function IdOf(m: Message): Id { m.id }

  /** DELETE: every message with that id goes; the rest keep their order. */
  function Deleted(prev: seq<Message>, id: Id): (r: seq<Message>)
    ensures |r| <= |prev|
    ensures forall m :: m in r <==> m in prev && m.id != id
    ensures forall m :: multiset(r)[m] == if m.id != id then multiset(prev)[m] else 0
    ensures Lists.Subsequence(r, prev)
  {
    var p := (m: Message) => m.id != id;
    Lists.FilterMembers(prev, p);
    Lists.FilterSubsequence(prev, p);
    forall m ensures multiset(Lists.Filter(prev, p))[m] == if m.id != id then multiset(prev)[m] else 0 {
      Lists.FilterCount(prev, p, m);
    }
    Lists.Filter(prev, p)
  }

  /** Deleting again changes nothing, and a list with distinct ids stays distinct. */
  lemma DeleteIdempotent(prev: seq<Message>, id: Id)
    ensures Deleted(Deleted(prev, id), id) == Deleted(prev, id)
    ensures Lists.DistinctBy(prev, IdOf) ==> Lists.DistinctBy(Deleted(prev, id), IdOf)
  {
    var p := (m: Message) => m.id != id;
    Lists.FilterIdempotent(prev, p);
    if Lists.DistinctBy(prev, IdOf) {
      Lists.FilterDistinctBy(prev, p, IdOf);
    }
  }

  /** An entry of the typing list. */
  datatype Typist = Typist(user: UserId, username: string)

  function TypistId(t: Typist): UserId { t.user }

  /** The typing reducer for a broadcast `(user, username, isTyping)`. The viewer's own
      events are ignored; a start adds the user unless already listed; a stop removes
      every entry of the user. */
  function Typing(prev: seq<Typist>, current: UserId, user: UserId, username: string, isTyping: bool): (r: seq<Typist>)
    ensures user == current ==> r == prev
    ensures user != current && isTyping && (exists i :: 0 <= i < |prev| && prev[i].user == user) ==> r == prev
    ensures user != current && isTyping && (forall i :: 0 <= i < |prev| ==> prev[i].user != user) ==>
      r == prev + [Typist(user, username)]
    ensures user != current && !isTyping ==> forall t :: t in r <==> t in prev && t.user != user
    ensures user != current && !isTyping ==>
      && (forall t :: multiset(r)[t] == if t.user != user then multiset(prev)[t] else 0)
      && Lists.Subsequence(r, prev)
  {
    if user == current then prev
    else if isTyping then
      if Lists.FirstWhere(prev, (t: Typist) => t.user == user) < |prev| then prev else prev + [Typist(user, username)]
    else
      var p := (t: Typist) => t.user != user;
      Lists.FilterMembers(prev, p);
      Lists.FilterSubsequence(prev, p);
      forall t ensures multiset(Lists.Filter(prev, p))[t] == if t.user != user then multiset(prev)[t] else 0 {
        Lists.FilterCount(prev, p, t);
      }
      Lists.Filter(prev, p)
  }

  /** The invariant the reducer keeps: each user at most once, and never the viewer. */
  predicate TypingValid(list: seq<Typist>, current: UserId) {
    Lists.DistinctBy(list, TypistId) && forall i :: 0 <= i < |list| ==> list[i].user != current
  }

  lemma TypingKeepsValid(prev: seq<Typist>, current: UserId, user: UserId, username: string, isTyping: bool)
    requires TypingValid(prev, current)
    ensures TypingValid(Typing(prev, current, user, username, isTyping), current)
  {
    var r := Typing(prev, current, user, username, isTyping);
    if user != current && !isTyping {
      var p := (t: Typist) => t.user != user;
      Lists.FilterDistinctBy(prev, p, TypistId);
      Lists.FilterMembers(prev, p);
      assert forall i :: 0 <= i < |r| ==> r[i] in prev;
    }
  }

  /** A user who starts and then stops typing leaves the list as it was before. */
  lemma StartThenStop(prev: seq<Typist>, current: UserId, user: UserId, username: string)
    requires TypingValid(prev, current) && user != current
    requires forall i :: 0 <= i < |prev| ==> prev[i].user != user
    ensures Typing(Typing(prev, current, user, username, true), current, user, username, false) == prev
  {
    var p := (t: Typist) => t.user != user;
    Lists.FilterAppend(prev, [Typist(user, username)], p);
    Lists.FilterKeepsAll(prev, p);
    assert Lists.Filter([Typist(user, username)], p) == [];
  }

  class ChatView {
    const conversation: Peers.ConversationView
    const current: UserId
    var messages: seq<Message>
    var loading: bool
    var typingUsers: seq<Typist>

    predicate Valid()
      reads this
    {
      TypingValid(typingUsers, current)
    }

    constructor (conversation: Peers.ConversationView, current: UserId)
      ensures Valid()
      ensures this.conversation == conversation && this.current == current
      ensures messages == [] && loading && typingUsers == []
    {
      this.conversation := conversation;
      this.current := current;
      messages := [];
      loading := true;
      typingUsers := [];
    }

    /** `loadMessages`: the query's rows replace the list unless it failed; loading ends
        either way. */
    method Load(table: seq<Message>, failed: bool)
      modifies this`messages, this`loading
      ensures !loading
      ensures !failed ==> messages == LoadQuery(table, conversation.id)
      ensures failed ==> messages == old(messages)
    {
      if !failed {
        messages := LoadQuery(table, conversation.id);
      }
      loading := false;
    }

    /** INSERT: the inserted row, fetched again with its sender, is appended when the
        fetch returns it. */
    method OnInsert(fetched: Option<Message>)
      modifies this`messages
      ensures fetched.Some? ==> messages == old(messages) + [fetched.value]
      ensures fetched.None? ==> messages == old(messages)
    {
      if fetched.Some? {
        messages := messages + [fetched.value];
      }
    }

    method OnUpdate(row: Message)
      modifies this`messages
      ensures messages == Updated(old(messages), row)
    {
      messages := Updated(messages, row);
    }

    method OnDelete(id: Id)
      modifies this`messages
      ensures messages == Deleted(old(messages), id)
    {
      messages := Deleted(messages, id);
    }

    /** A reaction change re-renders the same list. */
    method OnReactionChange()
      modifies this`messages
      ensures messages == old(messages)
    {
      messages := messages[..];
    }

    method OnTyping(user: UserId, username: string, isTyping: bool)
      requires Valid()
      modifies this`typingUsers
      ensures Valid()
      ensures typingUsers == Typing(old(typingUsers), current, user, username, isTyping)
    {
      TypingKeepsValid(typingUsers, current, user, username, isTyping);
      typingUsers := Typing(typingUsers, current, user, username, isTyping);
    }
  }
}
