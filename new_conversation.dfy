/** `NewConversationModal`: the people search, the group selection, and the creation of a
    direct message or a group straight from the client. Backend failures are parameters;
    `navigated` records the conversations the router was sent to, `alerts` the alert
    messages shown, in order. */
module NewConversation {
  import opened Wrappers
  import opened Schema
  import Text
  import Lists
  import Conversations
  import DmLookup

  /** A profile row the search returns. */
  datatype UserHit = UserHit(id: UserId, username: string, email: string, avatarUrl: Option<string>)

  datatype Tab = DmTab | GroupTab

  const SearchLimit: nat := 10
  const MinQueryLength: nat := 2

  const CreateDmFailed := "Failed to create conversation"
  const CreateGroupFailed := "Failed to create group"
  const GroupIncomplete := "Please enter a group name and select at least one member"

  /** `toggleUserSelection`: a selected id is removed, any other id is appended. */
  function Toggled(selected: seq<UserId>, id: UserId): (r: seq<UserId>)
    ensures id in selected ==> forall u :: u in r <==> u in selected && u != id
    ensures id !in selected ==> r == selected + [id]
  {
    if id in selected then
      var p := (u: UserId) => u != id;
      Lists.FilterMembers(selected, p);
      Lists.Filter(selected, p)
    else selected + [id]
  }

  /** Toggling an id that was not selected twice gives the selection back. */
  lemma ToggleTwiceRestores(selected: seq<UserId>, id: UserId)
    requires id !in selected
    ensures Toggled(Toggled(selected, id), id) == selected
  {
    var p := (u: UserId) => u != id;
    Lists.FilterAppend(selected, [id], p);
    Lists.FilterKeepsAll(selected, p);
    assert Lists.Filter([id], p) == [];
  }

  /** Toggling any id twice leaves the same ids selected; a selected id moves to the end. */
  lemma ToggleTwiceSameIds(selected: seq<UserId>, id: UserId)
    ensures forall u :: u in Toggled(Toggled(selected, id), id) <==> u in selected
  {
    if id !in selected {
      ToggleTwiceRestores(selected, id);
    }
  }

  /** The selection never lists an id twice. */
  lemma ToggleKeepsNoDup(selected: seq<UserId>, id: UserId)
    requires Lists.NoDup(selected)
    ensures Lists.NoDup(Toggled(selected, id))
  {
    if id in selected {
      Lists.FilterNoDup(selected, (u: UserId) => u != id);
    }
  }

  /** The guard of `handleSearch`: blank once trimmed, or fewer than two characters
      before trimming. */
  predicate SearchSkipped(query: string) {
    Text.IsBlank(query) || |query| < MinQueryLength
  }

  /** The results after `handleSearch(query)`: cleared by the guard; otherwise the first
      ten matches, or the previous results when the query fails. */
  function SearchResults(prev: seq<UserHit>, query: string, matches: seq<UserHit>, failed: bool): (r: seq<UserHit>)
    ensures SearchSkipped(query) ==> r == []
    ensures !SearchSkipped(query) && failed ==> r == prev
    ensures !SearchSkipped(query) && !failed ==> |r| <= SearchLimit && r <= matches
    ensures !SearchSkipped(query) && !failed && |matches| <= SearchLimit ==> r == matches
  {
    if SearchSkipped(query) then [] else if failed then prev else Lists.Take(matches, SearchLimit)
  }

  /** A one-character query is never sent, whatever it is. */
  lemma ShortQuerySkipped(c: char)
    ensures SearchSkipped([c])
  {
  }

  /** The DM the modal reuses: not a group by `is_group`, and of type `dm`. */
  predicate Reusable(j: DmLookup.Joined) {
    !j.conversation.isGroup && j.conversation.kind == Dm
  }

  /** The conversation of the first reusable joined row. */
  function ExistingDm(shared: seq<DmLookup.Joined>): (r: Option<Id>)
    ensures r.Some? <==> exists i :: 0 <= i < |shared| && Reusable(shared[i])
    ensures r.Some? ==> exists i ::
      && 0 <= i < |shared| && Reusable(shared[i]) && r.value == shared[i].member.conversation
      && forall k :: 0 <= k < i ==> !Reusable(shared[k])
  {
    var k := Lists.FirstWhere(shared, Reusable);
    if k < |shared| then Some(shared[k].member.conversation) else None
  }

  /** The whole lookup of `createDirectMessage` on the tables. */
  function ExistingFor(convs: seq<Conversation>, members: seq<Membership>, me: UserId, other: UserId): Option<Id> {
    ExistingDm(DmLookup.SharedRows(convs, members, members, me, other))
  }

  /** A reused conversation is a `dm` row with `is_group` false that both users belong to. */
  lemma ReusedIsSharedDm(convs: seq<Conversation>, members: seq<Membership>, me: UserId, other: UserId)
    requires ExistingFor(convs, members, me, other).Some?
    ensures exists c ::
      && c in convs && c.id == ExistingFor(convs, members, me, other).value && c.kind == Dm && !c.isGroup
      && IsMember(members, c.id, me) && IsMember(members, c.id, other)
  {
    var shared := DmLookup.SharedRows(convs, members, members, me, other);
    var i :| 0 <= i < |shared| && Reusable(shared[i]) && ExistingFor(convs, members, me, other).value == shared[i].member.conversation;
    assert shared[i] in shared;
    DmLookup.SharedRowsAreShared(convs, members, me, other, shared[i]);
  }

  /** A DM row marked as a group is never reused, even when it is the only shared one. */
  lemma GroupFlaggedDmNotReused(c: Conversation, me: UserId, other: UserId)
    requires c.kind == Dm && c.isGroup
    ensures ExistingFor([c], [Membership(c.id, me, None), Membership(c.id, other, None)], me, other).None?
  {
    var members := [Membership(c.id, me, None), Membership(c.id, other, None)];
    var shared := DmLookup.SharedRows([c], members, members, me, other);
    forall j | j in shared ensures !Reusable(j) {
      assert DmLookup.ConversationById([c], j.member.conversation) == Some(j.conversation);
    }
  }

  /** The `group` row: the name as typed, untrimmed; `is_group` keeps its default. */
  function NewGroup(id: Id, title: string, creator: UserId, now: Time): Conversation {
    Conversation(id, Group, Some(title), creator, false, None, now, now)
  }

  /** The member rows of a new DM: the creator as admin, the peer as member. */
  function DmMembers(id: Id, creator: UserId, other: UserId): seq<Membership> {
    [Membership(id, creator, Some(Admin)), Membership(id, other, Some(Member))]
  }

  /** The member rows of a new group: the creator as admin, then each selected id as
      member, in selection order. */
  function GroupMembers(id: Id, creator: UserId, selected: seq<UserId>): (rows: seq<Membership>)
    ensures |rows| == |selected| + 1
    ensures rows[0] == Membership(id, creator, Some(Admin))
    ensures forall i :: 0 <= i < |selected| ==> rows[i + 1] == Membership(id, selected[i], Some(Member))
  {
    [Membership(id, creator, Some(Admin))] + seq(|selected|, i requires 0 <= i < |selected| => Membership(id, selected[i], Some(Member)))
  }

  /** Every row of a new group belongs to it. */
  lemma GroupMembersBelong(id: Id, creator: UserId, selected: seq<UserId>)
    ensures forall i :: 0 <= i < |GroupMembers(id, creator, selected)| ==> GroupMembers(id, creator, selected)[i].conversation == id
  {
    var rows := GroupMembers(id, creator, selected);
    forall i | 0 <= i < |rows| ensures rows[i].conversation == id {
      if i > 0 {
        assert rows[(i - 1) + 1] == Membership(id, selected[i - 1], Some(Member));
      }
    }
  }

  /** A new group's members, as the conversation's member join lists them, are the
      creator followed by the selection. */
  lemma {:induction false} GroupMemberIds(members: seq<Membership>, id: Id, creator: UserId, selected: seq<UserId>)
    requires forall i :: 0 <= i < |members| ==> members[i].conversation != id
    ensures MemberIds(members + GroupMembers(id, creator, selected), id) == [creator] + selected
    decreases |selected|
  {
    if selected == [] {
      Conversations.NoRowsNoMembers(members, id);
      assert members + GroupMembers(id, creator, selected) == members + [Membership(id, creator, Some(Admin))];
      MemberIdsSnoc(members, Membership(id, creator, Some(Admin)), id);
    } else {
      var init, last := selected[..|selected| - 1], selected[|selected| - 1];
      GroupMemberIds(members, id, creator, init);
      GroupMembersSnoc(members, id, creator, selected);
      MemberIdsSnoc(members + GroupMembers(id, creator, init), Membership(id, last, Some(Member)), id);
      assert MemberIds(members + GroupMembers(id, creator, selected), id) == ([creator] + init) + [last];
      assert ([creator] + init) + [last] == [creator] + selected;
    }
  }

  /** The rows for a selection are those for all but its last id, then the last id's. */
  lemma GroupMembersSnoc(members: seq<Membership>, id: Id, creator: UserId, selected: seq<UserId>)
    requires selected != []
    ensures members + GroupMembers(id, creator, selected)
      == (members + GroupMembers(id, creator, selected[..|selected| - 1])) + [Membership(id, selected[|selected| - 1], Some(Member))]
  {
    var init := selected[..|selected| - 1];
    var rows, shorter := GroupMembers(id, creator, selected), GroupMembers(id, creator, init);
    assert rows == shorter + [Membership(id, selected[|selected| - 1], Some(Member))] by {
      forall i | 0 <= i < |rows| ensures rows[i] == (shorter + [Membership(id, selected[|selected| - 1], Some(Member))])[i] {
        if 0 < i < |rows| - 1 {
          assert rows[(i - 1) + 1] == Membership(id, selected[i - 1], Some(Member));
          assert shorter[(i - 1) + 1] == Membership(id, init[i - 1], Some(Member));
        } else if i == |rows| - 1 && i > 0 {
          assert rows[(i - 1) + 1] == Membership(id, selected[i - 1], Some(Member));
        }
      }
    }
  }

  /** A new DM is a pair DM of the two users in the server's sense. */
  lemma NewDmIsPair(members: seq<Membership>, id: Id, creator: UserId, other: UserId, now: Time)
    requires forall i :: 0 <= i < |members| ==> members[i].conversation != id
    ensures MemberIds(members + DmMembers(id, creator, other), id) == [creator, other]
    ensures Conversations.IsPairDm(members + DmMembers(id, creator, other), Conversations.NewDm(id, creator, now), creator, other)
  {
    assert DmMembers(id, creator, other) == GroupMembers(id, creator, [other]);
    GroupMemberIds(members, id, creator, [other]);
  }

  /** The two queries of `createDirectMessage` before any insert: the caller's
      memberships, and when there are some, the shared rows; a failed second query counts
      as no match. */
  method LookupDm(db: Db, me: UserId, other: UserId, lookupFailed: bool) returns (existing: Option<Id>)
    ensures existing == if lookupFailed then None else ExistingFor(db.conversations, db.members, me, other)
  {
    var mine := DmLookup.MyConversationIds(db.members, me);
    if |mine| == 0 || lookupFailed {
      if |mine| == 0 {
        DmLookup.NoConversationsNoRows(db.conversations, db.members, db.members, me, other);
      }
      return None;
    }
    existing := ExistingDm(DmLookup.SharedRows(db.conversations, db.members, db.members, me, other));
  }

  /** How an attempt to open a conversation ended. */
  datatype Opened = Reused(id: Id) | Created(id: Id) | Refused

  /** The backend steps of `createDirectMessage(other)`: an unknown caller or a failed
      membership query throws; a failed shared-rows query is ignored; a reusable DM is
      returned; otherwise a DM is inserted, then its two member rows. */
  method OpenDm(
    db: Db, user: Option<UserId>, other: UserId, now: Time,
    myConversationsFailed: bool, lookupFailed: bool, conversationFailed: bool, membersFailed: bool)
    returns (o: Opened)
    requires db.Valid()
    modifies db`conversations, db`members, db`nextId
    ensures db.Valid()
    ensures user.None? || myConversationsFailed ==>
      o == Refused && db.conversations == old(db.conversations) && db.members == old(db.members)
    ensures user.Some? && !myConversationsFailed ==>
      var e := if lookupFailed then None else ExistingFor(old(db.conversations), old(db.members), user.value, other);
      && (e.Some? ==> o == Reused(e.value) && db.conversations == old(db.conversations) && db.members == old(db.members))
      && (e.None? && conversationFailed ==>
            o == Refused && db.conversations == old(db.conversations) && db.members == old(db.members))
      && (e.None? && !conversationFailed ==>
            && db.conversations == old(db.conversations) + [Conversations.NewDm(old(db.nextId), user.value, now)]
            && (membersFailed ==> o == Refused && db.members == old(db.members))
            && (!membersFailed ==>
                  o == Created(old(db.nextId)) && db.members == old(db.members) + DmMembers(old(db.nextId), user.value, other)))
  {
    if user.None? || myConversationsFailed {
      return Refused;
    }
    var existing := LookupDm(db, user.value, other, lookupFailed);
    if existing.Some? {
      return Reused(existing.value);
    }
    if conversationFailed {
      return Refused;
    }
    var id := db.nextId;
    DmLookup.InsertConversation(db, Conversations.NewDm(id, user.value, now), DmMembers(id, user.value, other), membersFailed);
    o := if membersFailed then Refused else Created(id);
  }

  /** The backend steps of `createGroup` after its guard: an unknown caller throws; the
      group row is inserted, then its member rows. */
  method OpenGroup(
    db: Db, user: Option<UserId>, title: string, selected: seq<UserId>, now: Time,
    conversationFailed: bool, membersFailed: bool)
    returns (o: Opened)
    requires db.Valid()
    modifies db`conversations, db`members, db`nextId
    ensures db.Valid() && !o.Reused?
    ensures user.None? || conversationFailed ==>
      o == Refused && db.conversations == old(db.conversations) && db.members == old(db.members)
    ensures user.Some? && !conversationFailed ==>
      && db.conversations == old(db.conversations) + [NewGroup(old(db.nextId), title, user.value, now)]
      && (membersFailed ==> o == Refused && db.members == old(db.members))
      && (!membersFailed ==>
            o == Created(old(db.nextId)) && db.members == old(db.members) + GroupMembers(old(db.nextId), user.value, selected))
  {
    if user.None? || conversationFailed {
      return Refused;
    }
    var id := db.nextId;
    GroupMembersBelong(id, user.value, selected);
    DmLookup.InsertConversation(db, NewGroup(id, title, user.value, now), GroupMembers(id, user.value, selected), membersFailed);
    o := if membersFailed then Refused else Created(id);
  }

  class Modal {
    var open: bool
    var activeTab: Tab
    var loading: bool
    var searchQuery: string
    var searchResults: seq<UserHit>
    var searching: bool
    var selected: seq<UserId>
    var groupName: string
    /** The routes pushed, as conversation ids. */
    var navigated: seq<Id>
    var alerts: seq<string>

    /** The selection holds each id once. */
    predicate Valid()
      reads this
    {
      Lists.NoDup(selected)
    }

    constructor ()
      ensures Valid()
      ensures !open && activeTab == DmTab && !loading && searchQuery == [] && searchResults == []
      ensures !searching && selected == [] && groupName == [] && navigated == [] && alerts == []
    {
      open, activeTab, loading := false, DmTab, false;
      searchQuery, searchResults, searching := [], [], false;
      selected, groupName := [], [];
      navigated, alerts := [], [];
    }

    /** `handleSearch(query)`; `matches` are the profiles whose username or email contains
        the query, as the backend lists them. */
    method Search(query: string, matches: seq<UserHit>, failed: bool)
      modifies this`searchQuery, this`searchResults, this`searching
      ensures searchQuery == query
      ensures SearchSkipped(query) ==> searching == old(searching)
      ensures searchResults == SearchResults(old(searchResults), query, matches, failed)
      ensures !SearchSkipped(query) ==> !searching
    {
      searchQuery := query;
      if SearchSkipped(query) {
        searchResults := [];
        return;
      }
      searching := true;
      if !failed {
        searchResults := Lists.Take(matches, SearchLimit);
      }
      searching := false;
    }

    method ToggleUser(id: UserId)
      requires Valid()
      modifies this`selected
      ensures Valid()
      ensures selected == Toggled(old(selected), id)
    {
      ToggleKeepsNoDup(selected, id);
      selected := Toggled(selected, id);
    }

    method SetGroupName(name: string)
      modifies this`groupName
      ensures groupName == name
    {
      groupName := name;
    }

    method SetTab(tab: Tab)
      modifies this`activeTab
      ensures activeTab == tab
    {
      activeTab := tab;
    }

    method SetOpen(b: bool)
      modifies this`open
      ensures open == b
    {
      open := b;
    }

    /** `resetState`. */
    method Reset()
      modifies this`searchQuery, this`searchResults, this`selected, this`groupName, this`activeTab
      ensures Valid()
      ensures searchQuery == [] && searchResults == [] && selected == [] && groupName == [] && activeTab == DmTab
    {
      searchQuery, searchResults, selected, groupName, activeTab := [], [], [], [], DmTab;
    }


    /** The screen's reaction to an attempt: a refusal alerts `failure`; a reused DM is
        opened; a created conversation is opened and the form reset. */
    method Finish(o: Opened, failure: string)
      requires Valid()
      modifies this`alerts, this`navigated, this`open, this`loading
      modifies this`searchQuery, this`searchResults, this`selected, this`groupName, this`activeTab
      ensures Valid() && !loading && searching == old(searching)
      ensures o.Refused? ==>
        && alerts == old(alerts) + [failure] && navigated == old(navigated) && open == old(open)
        && selected == old(selected) && groupName == old(groupName) && searchQuery == old(searchQuery)
        && searchResults == old(searchResults) && activeTab == old(activeTab)
      ensures o.Reused? ==>
        && alerts == old(alerts) && navigated == old(navigated) + [o.id] && !open
        && selected == old(selected) && groupName == old(groupName) && searchQuery == old(searchQuery)
        && searchResults == old(searchResults) && activeTab == old(activeTab)
      ensures o.Created? ==>
        && alerts == old(alerts) && navigated == old(navigated) + [o.id] && !open
        && searchQuery == [] && searchResults == [] && selected == [] && groupName == [] && activeTab == DmTab
    {
      match o {
        case Refused =>
          alerts := alerts + [failure];
        case Reused(id) =>
          navigated := navigated + [id];
          open := false;
        case Created(id) =>
          navigated := navigated + [id];
          open := false;
          Reset();
      }
      loading := false;
    }

    /** `createDirectMessage(other)`: the backend steps, then the screen's reaction. */
    method CreateDirectMessage(
      db: Db, user: Option<UserId>, other: UserId, now: Time,
      myConversationsFailed: bool, lookupFailed: bool, conversationFailed: bool, membersFailed: bool)
      returns (o: Opened)
      requires db.Valid() && Valid()
      modifies this`alerts, this`navigated, this`open, this`loading
      modifies this`searchQuery, this`searchResults, this`selected, this`groupName, this`activeTab
      modifies db`conversations, db`members, db`nextId
      ensures db.Valid() && Valid() && !loading && searching == old(searching)
      ensures user.None? || myConversationsFailed ==>
        o == Refused && db.conversations == old(db.conversations) && db.members == old(db.members)
      ensures user.Some? && !myConversationsFailed ==>
        var e := if lookupFailed then None else ExistingFor(old(db.conversations), old(db.members), user.value, other);
        && (e.Some? ==> o == Reused(e.value) && db.conversations == old(db.conversations) && db.members == old(db.members))
        && (e.None? && conversationFailed ==>
              o == Refused && db.conversations == old(db.conversations) && db.members == old(db.members))
        && (e.None? && !conversationFailed ==>
              && db.conversations == old(db.conversations) + [Conversations.NewDm(old(db.nextId), user.value, now)]
              && (membersFailed ==> o == Refused && db.members == old(db.members))
              && (!membersFailed ==>
                    o == Created(old(db.nextId)) && db.members == old(db.members) + DmMembers(old(db.nextId), user.value, other)))
      ensures o.Refused? ==>
        && alerts == old(alerts) + [CreateDmFailed] && navigated == old(navigated) && open == old(open)
        && selected == old(selected) && groupName == old(groupName) && searchQuery == old(searchQuery)
        && searchResults == old(searchResults) && activeTab == old(activeTab)
      ensures o.Reused? ==>
        && alerts == old(alerts) && navigated == old(navigated) + [o.id] && !open
        && selected == old(selected) && groupName == old(groupName) && searchQuery == old(searchQuery)
        && searchResults == old(searchResults) && activeTab == old(activeTab)
      ensures o.Created? ==>
        && alerts == old(alerts) && navigated == old(navigated) + [o.id] && !open
        && searchQuery == [] && searchResults == [] && selected == [] && groupName == [] && activeTab == DmTab
    {
      loading := true;
      o := OpenDm(db, user, other, now, myConversationsFailed, lookupFailed, conversationFailed, membersFailed);
      Finish(o, CreateDmFailed);
    }

    /** `createGroup`, on the typed name and the current selection: refused with an alert
        and no request when the name is blank or nobody is selected. */
    method CreateGroup(db: Db, user: Option<UserId>, now: Time, conversationFailed: bool, membersFailed: bool)
      returns (o: Opened)
      requires db.Valid() && Valid()
      modifies this`alerts, this`navigated, this`open, this`loading
      modifies this`searchQuery, this`searchResults, this`selected, this`groupName, this`activeTab
      modifies db`conversations, db`members, db`nextId
      ensures db.Valid() && Valid() && !o.Reused? && searching == old(searching)
      ensures
        if Text.IsBlank(old(groupName)) || old(selected) == [] then
          && o == Refused && db.conversations == old(db.conversations) && db.members == old(db.members)
          && alerts == old(alerts) + [GroupIncomplete] && navigated == old(navigated) && loading == old(loading)
          && selected == old(selected) && groupName == old(groupName) && open == old(open)
          && searchQuery == old(searchQuery) && searchResults == old(searchResults) && activeTab == old(activeTab)
        else
          && !loading
          && (user.None? || conversationFailed ==>
                o == Refused && db.conversations == old(db.conversations) && db.members == old(db.members))
          && (user.Some? && !conversationFailed ==>
                && db.conversations == old(db.conversations) + [NewGroup(old(db.nextId), old(groupName), user.value, now)]
                && (membersFailed ==> o == Refused && db.members == old(db.members))
                && (!membersFailed ==>
                      && o == Created(old(db.nextId))
                      && db.members == old(db.members) + GroupMembers(old(db.nextId), user.value, old(selected))))
          && (o.Refused? ==>
                && alerts == old(alerts) + [CreateGroupFailed] && navigated == old(navigated) && open == old(open)
                && selected == old(selected) && groupName == old(groupName) && searchQuery == old(searchQuery)
                && searchResults == old(searchResults) && activeTab == old(activeTab))
      ensures o.Created? ==>
        && alerts == old(alerts) && navigated == old(navigated) + [o.id] && !open
        && searchQuery == [] && searchResults == [] && selected == [] && groupName == [] && activeTab == DmTab
    {
      if Text.IsBlank(groupName) || selected == [] {
        alerts := alerts + [GroupIncomplete];
        return Refused;
      }
      loading := true;
      o := OpenGroup(db, user, groupName, selected, now, conversationFailed, membersFailed);
      Finish(o, CreateGroupFailed);
    }
  }

  /** A created group lists the creator and then the selection as its members. */
  method CreatedGroupMembers(m: Modal, db: Db, user: UserId, now: Time)
    requires db.Valid() && m.Valid()
    requires !Text.IsBlank(m.groupName) && m.selected != []
    modifies m, db`conversations, db`members, db`nextId
    ensures MemberIds(db.members, old(db.nextId)) == [user] + old(m.selected)
    ensures m.navigated == old(m.navigated) + [old(db.nextId)]
  {
    GroupMemberIds(db.members, db.nextId, user, m.selected);
    var o := m.CreateGroup(db, Some(user), now, false, false);
  }
}
