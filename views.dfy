/** The conversation as the chat screens receive it, joined with its members' profiles,
    and the header the chat view and the sidebar item both derive from it. */
module Peers {
  import opened Wrappers
  import opened Schema
  import Text
  import Lists

  /** The profile columns the screens join onto a member. */
  datatype ProfileView = ProfileView(username: string, displayName: Option<string>, avatarUrl: Option<string>)

  /** A `conversation_members` row with its profile. */
  datatype MemberView = MemberView(user: UserId, role: Option<Role>, profile: ProfileView)

  /** A conversation with its members, in the order the query returned them. */
  datatype ConversationView = ConversationView(
    id: Id, kind: ConversationKind, title: Option<string>, avatarUrl: Option<string>, members: seq<MemberView>)

  /** The first member of a DM who is not the viewer; none for a group. */
  function Peer(c: ConversationView, current: UserId): (m: Option<MemberView>)
    ensures m.Some? <==> c.kind == Dm && exists i :: 0 <= i < |c.members| && c.members[i].user != current
    ensures m.Some? ==> exists i ::
      && 0 <= i < |c.members| && c.members[i] == m.value && m.value.user != current
      && forall j :: 0 <= j < i ==> c.members[j].user == current
  {
    if c.kind != Dm then None
    else
      var k := Lists.FirstWhere(c.members, (m: MemberView) => m.user != current);
      if k < |c.members| then Some(c.members[k]) else None
  }

  /** The title shown: the peer's display name, else the peer's username; without a peer
      the conversation's title, else "Group Chat". */
  function Title(c: ConversationView, current: UserId): (t: string)
    ensures Peer(c, current).Some? ==>
      var p := Peer(c, current).value.profile;
      t == if Text.NonEmpty(p.displayName).Some? then p.displayName.value else p.username
    ensures Peer(c, current).None? ==>
      t == if Text.NonEmpty(c.title).Some? then c.title.value else "Group Chat"
  {
    var peer := Peer(c, current);
    if peer.Some? then Text.NonEmpty(peer.value.profile.displayName).GetOr(peer.value.profile.username)
    else Text.NonEmpty(c.title).GetOr("Group Chat")
  }

  /** A conversation without a peer always has a title to show. */
  lemma GroupTitleNotEmpty(c: ConversationView, current: UserId)
    requires Peer(c, current).None?
    ensures Title(c, current) != []
  {
  }

  /** In a DM of the viewer and one other user, the peer is that user, whatever order the
      members come in. */
  lemma PairDmPeer(c: ConversationView, current: UserId, other: MemberView)
    requires c.kind == Dm && other.user != current
    requires |c.members| == 2 && exists i :: 0 <= i < 2 && c.members[i] == other && c.members[1 - i].user == current
    ensures Peer(c, current) == Some(other)
  {
    var i :| 0 <= i < 2 && c.members[i] == other && c.members[1 - i].user == current;
    var k := Lists.FirstWhere(c.members, (m: MemberView) => m.user != current);
    assert k == i;
  }

  /** Whether the viewer's own membership row has the admin role. */
  function ViewerIsAdmin(c: ConversationView, current: UserId): (b: bool)
    ensures b <==> exists i ::
      && 0 <= i < |c.members| && c.members[i].user == current && c.members[i].role == Some(Admin)
      && forall j :: 0 <= j < i ==> c.members[j].user != current
  {
    var k := Lists.FirstWhere(c.members, (m: MemberView) => m.user == current);
    k < |c.members| && c.members[k].role == Some(Admin)
  }
}
