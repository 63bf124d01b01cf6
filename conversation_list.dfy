/** The sidebar's `loadConversations`: the caller's conversations, newest activity first,
    each with its latest message only. The reload it runs on every message insert and on
    every new membership of the caller is a repeat of the same load. */
module ConversationList {
  import opened Wrappers
  import opened Schema
  import Lists
  import Peers

  /** The message columns the sidebar selects. */
  datatype MessagePreview = MessagePreview(content: Option<string>, createdAt: Time, sender: UserId)

  /** A row of the conversations query: the conversation and its members, its
      `updated_at`, and every message it has, deleted ones included. */
  datatype ConversationRow = ConversationRow(view: Peers.ConversationView, updatedAt: Time, messages: seq<MessagePreview>)

  /** A listed conversation: the row with `is_group` derived and at most one message. */
  datatype Listed = Listed(view: Peers.ConversationView, updatedAt: Time, isGroup: bool, messages: seq<MessagePreview>)

  function MessageTime(m: MessagePreview): int { m.createdAt }
  function RowTime(r: ConversationRow): int { r.updatedAt }
  function ListedTime(l: Listed): int { l.updatedAt }

  /** The newest message of a row: the first after a sort on `created_at` descending. */
  function Newest(messages: seq<MessagePreview>): (r: seq<MessagePreview>)
    ensures |r| <= 1 && (|r| == 0 <==> messages == [])
    ensures |r| == 1 ==> r[0] in messages && forall m :: m in messages ==> m.createdAt <= r[0].createdAt
  {
    var sorted := Lists.SortDesc(messages, MessageTime);
    Lists.SortDescMembers(messages, MessageTime);
    HeadIsLatest(sorted);
    Lists.Take(sorted, 1)
  }

  lemma HeadIsLatest(sorted: seq<MessagePreview>)
    requires Lists.SortedDesc(sorted, MessageTime)
    ensures sorted != [] ==> forall m :: m in sorted ==> m.createdAt <= sorted[0].createdAt
  {
    forall m | m in sorted ensures m.createdAt <= sorted[0].createdAt {
      var k :| 0 <= k < |sorted| && sorted[k] == m;
      if k > 0 {
        assert MessageTime(sorted[0]) >= MessageTime(sorted[k]);
      }
    }
  }

  /** The shape a row takes in the list. */
  function Shaped(row: ConversationRow): (l: Listed)
    ensures l.view == row.view && l.updatedAt == row.updatedAt
    ensures l.isGroup <==> row.view.kind == Group
    ensures l.messages == Newest(row.messages)
  {
    Listed(row.view, row.updatedAt, row.view.kind == Group, Newest(row.messages))
  }

  /** `.in('id', ids)`: the rows of the caller's conversations. */
  function Mine(ids: seq<Id>): ConversationRow -> bool {
    (row: ConversationRow) => row.view.id in ids
  }

  /** The rows updated at time `t`. */
  function AtTime(t: int): ConversationRow -> bool {
    (row: ConversationRow) => RowTime(row) == t
  }

  /** The rows of the conversations the caller belongs to, each as often as the table
      holds it, by `updated_at` descending. */
  function Rows(table: seq<ConversationRow>, ids: seq<Id>): (rows: seq<ConversationRow>)
    ensures forall row :: row in rows <==> row in table && row.view.id in ids
    ensures multiset(rows) == multiset(Lists.Filter(table, Mine(ids)))
    ensures Lists.SortedDesc(rows, RowTime)
  {
    Lists.FilterMembers(table, Mine(ids));
    Lists.SortDescMembers(Lists.Filter(table, Mine(ids)), RowTime);
    Lists.SortDesc(Lists.Filter(table, Mine(ids)), RowTime)
  }

  /** Rows updated at the same time keep their table order. */
  lemma RowsStable(table: seq<ConversationRow>, ids: seq<Id>, t: int)
    ensures Lists.Filter(Rows(table, ids), AtTime(t)) == Lists.Filter(Lists.Filter(table, Mine(ids)), AtTime(t))
  {
    Lists.SortDescStable(Lists.Filter(table, Mine(ids)), RowTime, AtTime(t), t);
  }

  /** The second query with the shaping `map`. */
  function Listing(table: seq<ConversationRow>, ids: seq<Id>): (r: seq<Listed>)
    ensures |r| == |Rows(table, ids)| && forall i :: 0 <= i < |r| ==> r[i] == Shaped(Rows(table, ids)[i])
  {
    Lists.Map(Rows(table, ids), Shaped)
  }

  /** A listed entry is the shape of one of the caller's rows, and every such row is
      listed. */
  lemma ListingMembers(table: seq<ConversationRow>, ids: seq<Id>)
    ensures forall l :: l in Listing(table, ids) <==> exists row :: row in table && row.view.id in ids && l == Shaped(row)
  {
    var rows := Rows(table, ids);
    var r := Listing(table, ids);
    forall l | l in r ensures exists row :: row in table && row.view.id in ids && l == Shaped(row) {
      var i :| 0 <= i < |r| && r[i] == l;
      assert rows[i] in rows;
    }
    forall row | row in table && row.view.id in ids ensures Shaped(row) in r {
      var i :| 0 <= i < |rows| && rows[i] == row;
      assert r[i] == Shaped(row);
    }
  }

  /** Shaping keeps the order of the rows. */
  lemma ListingSorted(table: seq<ConversationRow>, ids: seq<Id>)
    ensures Lists.SortedDesc(Listing(table, ids), ListedTime)
  {
    var rows := Rows(table, ids);
    var r := Listing(table, ids);
    forall i, j | 0 <= i < j < |r| ensures ListedTime(r[i]) >= ListedTime(r[j]) {
      assert RowTime(rows[i]) >= RowTime(rows[j]);
    }
  }

  /** The list holds exactly the caller's conversations, each once per row, newest
      activity first, each with its newest message only. */
  lemma ListingIsTheCallers(table: seq<ConversationRow>, ids: seq<Id>)
    ensures forall l :: l in Listing(table, ids) <==> exists row :: row in table && row.view.id in ids && l == Shaped(row)
    ensures multiset(Listing(table, ids)) == multiset(Lists.Map(Lists.Filter(table, Mine(ids)), Shaped))
    ensures Lists.SortedDesc(Listing(table, ids), ListedTime)
    ensures forall l :: l in Listing(table, ids) ==> l.view.id in ids && |l.messages| <= 1
  {
    ListingMembers(table, ids);
    ListingSorted(table, ids);
    Lists.MapPermutation(Rows(table, ids), Lists.Filter(table, Mine(ids)), Shaped);
  }

  class Sidebar {
    var conversations: seq<Listed>
    var loading: bool
    /** Whether the failure alert has been shown. */
    var alerted: bool

    constructor ()
      ensures conversations == [] && loading && !alerted
    {
      conversations := [];
      loading := true;
      alerted := false;
    }

    /** `loadConversations`. `memberIds` is the first query's answer, the ids of the
        conversations the caller is a member of; `table` is what the second query reads
        and `failed` its error. An error in either query shows the alert and keeps the
        list; loading ends in every case. */
    method Load(memberIds: Result<seq<Id>>, table: seq<ConversationRow>, failed: bool)
      modifies this
      ensures !loading
      ensures memberIds.Err? ==> conversations == old(conversations) && alerted
      ensures memberIds == Ok([]) ==> conversations == [] && alerted == old(alerted)
      ensures memberIds.Ok? && memberIds.value != [] && failed ==> conversations == old(conversations) && alerted
      ensures memberIds.Ok? && memberIds.value != [] && !failed ==>
        conversations == Listing(table, memberIds.value) && alerted == old(alerted)
    {
      if memberIds.Err? {
        alerted := true;
      } else if memberIds.value == [] {
        conversations := [];
      } else if failed {
        alerted := true;
      } else {
        conversations := Listing(table, memberIds.value);
      }
      loading := false;
    }
  }
}
