/** The backend tables the server actions read and write, held in one store object. Row
    identifiers the backend generates are drawn from a counter; user identifiers are the
    authentication subject strings. Timestamps are milliseconds on an abstract clock. */
module Schema {
  import opened Wrappers

  type UserId = string
  type Id = nat
  type Time = nat

  /** The `type` column of `conversations`. */
  datatype ConversationKind = Dm | Group

  /** A row of `conversations`. `isGroup` is the separate boolean column some clients read;
      rows created without it hold the column default, false. */
  datatype Conversation = Conversation(
    id: Id, kind: ConversationKind, title: Option<string>, createdBy: UserId, isGroup: bool,
    avatarUrl: Option<string>, createdAt: Time, updatedAt: Time)

  datatype Role = Admin | Member

  /** A row of `conversation_members`; `role` is None when the client sent none. */
  datatype Membership = Membership(conversation: Id, user: UserId, role: Option<Role>)

  /** A row of `messages`. `parent` is set on thread replies; `deletedAt` on soft deletion. */
  datatype Message = Message(
    id: Id, conversation: Id, sender: UserId, content: Option<string>, fileUrl: Option<string>,
    parent: Option<Id>, createdAt: Time, editedAt: Option<Time>, deletedAt: Option<Time>)

  /** A row of `message_reactions`; the table is unique on all three columns. */
  datatype Reaction = Reaction(message: Id, user: UserId, emoji: string)

  /** The `UserStatus` values. */
  datatype Presence = Online | Away | Offline

  /** A row of `user_status`, keyed by user. */
  datatype StatusRow = StatusRow(status: Presence, lastSeen: Time)

  datatype ReportReason = Spam | Harassment | Inappropriate | Other
  datatype ReportStatus = Pending | Reviewed | Resolved | Dismissed

  /** A report names either a message (`reported_message_id`) or a user (`reported_user_id`). */
  datatype ReportTarget = AboutMessage(message: Id) | AboutUser(user: UserId)

  /** A row of `reports`. */
  datatype Report = Report(
    id: Id, reporter: UserId, target: ReportTarget, reason: ReportReason, description: Option<string>,
    status: ReportStatus, resolvedBy: Option<UserId>, resolvedAt: Option<Time>,
    adminNotes: Option<string>, createdAt: Time)

  /** A row of `banned_users`. */
  datatype Ban = Ban(
    id: Id, user: UserId, bannedBy: UserId, reason: string, permanent: bool, expiresAt: Option<Time>,
    bannedAt: Time)

  /** A row of `profiles`, keyed by user. */
  datatype Profile = Profile(
    username: string, displayName: Option<string>, bio: Option<string>,
    avatarUrl: Option<string>, updatedAt: Time)

  /** A row of `search_history`. */
  datatype SearchEntry = SearchEntry(user: UserId, query: string, conversation: Option<Id>, createdAt: Time)

  /** The Open Graph summary of a page. */
  datatype LinkPreview = LinkPreview(
    url: string, title: Option<string>, description: Option<string>, imageUrl: Option<string>,
    siteName: Option<string>, faviconUrl: Option<string>)

  /** A row of `link_previews`, keyed by URL. */
  datatype CachedPreview = CachedPreview(preview: LinkPreview, fetchedAt: Time, expiresAt: Time)

  /** A row of `message_links`: the preview of the link at `position` in a message. */
  datatype MessageLink = MessageLink(message: Id, previewUrl: string, position: nat)

  /** The backend store. Tables the code lists in some order are sequences in insertion
      order; tables it only reads by their primary or unique key are maps or sets. */
  class Db {
    var conversations: seq<Conversation>
    var members: seq<Membership>
    var messages: map<Id, Message>
    var reactions: set<Reaction>
    var receipts: map<(Id, UserId), Time>
    var statuses: map<UserId, StatusRow>
    var threadSubscriptions: map<(UserId, Id), bool>
    var reports: seq<Report>
    var admins: map<UserId, string>
    var bans: seq<Ban>
    var profiles: map<UserId, Profile>
    var searchHistory: seq<SearchEntry>
    var linkPreviews: map<string, CachedPreview>
    var messageLinks: seq<MessageLink>
    var messageFiles: set<string>
    var avatarFiles: set<string>
    var nextId: Id

    /** Generated identifiers are unique: every stored id is below the counter, and each
        keyed row carries its own key. */
    predicate Valid()
      reads this
    {
      && (forall i :: 0 <= i < |conversations| ==> conversations[i].id < nextId)
      && (forall i, j :: 0 <= i < j < |conversations| ==> conversations[i].id != conversations[j].id)
      && (forall i :: 0 <= i < |members| ==> members[i].conversation < nextId)
      && (forall k :: k in messages ==> k < nextId && messages[k].id == k)
      && (forall i :: 0 <= i < |reports| ==> reports[i].id < nextId)
      && (forall i :: 0 <= i < |bans| ==> bans[i].id < nextId)
    }

    constructor ()
      ensures Valid()
      ensures conversations == [] && members == [] && messages == map[] && reactions == {}
      ensures receipts == map[] && statuses == map[] && threadSubscriptions == map[]
      ensures reports == [] && admins == map[] && bans == [] && profiles == map[]
      ensures searchHistory == [] && linkPreviews == map[] && messageLinks == []
      ensures messageFiles == {} && avatarFiles == {} && nextId == 0
    {
      conversations, members, messages, reactions := [], [], map[], {};
      receipts, statuses, threadSubscriptions := map[], map[], map[];
      reports, admins, bans, profiles := [], map[], [], map[];
      searchHistory, linkPreviews, messageLinks := [], map[], [];
      messageFiles, avatarFiles, nextId := {}, {}, 0;
    }

    /** A fresh row identifier. */
    method FreshId() returns (id: Id)
      modifies this`nextId
      ensures id == old(nextId) && nextId == id + 1
    {
      id := nextId;
      nextId := nextId + 1;
    }
  }

  /** The `conversation_members` join of conversation `c`: its members' ids in table order. */
  function MemberIds(members: seq<Membership>, c: Id): (ids: seq<UserId>)
    ensures |ids| <= |members|
    ensures forall u :: u in ids <==> exists m :: m in members && m.conversation == c && m.user == u
  {
    if members == [] then []
    else
      var last := members[|members| - 1];
      assert forall m :: m in members <==> m in members[..|members| - 1] || m == last;
      MemberIds(members[..|members| - 1], c) + (if last.conversation == c then [last.user] else [])
  }

  /** Adding rows for other conversations leaves the members of `c` as they were. */
  lemma {:induction false} MemberIdsAppend(members: seq<Membership>, more: seq<Membership>, c: Id)
    ensures MemberIds(members + more, c) == MemberIds(members, c) + MemberIds(more, c)
  {
    if more != [] {
      assert (members + more)[..|members + more| - 1] == members + more[..|more| - 1];
      MemberIdsAppend(members, more[..|more| - 1], c);
    } else {
      assert members + more == members;
    }
  }

  /** One more row adds its user when it is a row of `c`. */
  lemma MemberIdsSnoc(members: seq<Membership>, m: Membership, c: Id)
    ensures MemberIds(members + [m], c) == MemberIds(members, c) + (if m.conversation == c then [m.user] else [])
  {
    assert (members + [m])[..|members|] == members;
  }

  /** Whether `u` is a member of conversation `c`. */
  predicate IsMember(members: seq<Membership>, c: Id, u: UserId) {
    u in MemberIds(members, c)
  }

  /** The conversations whose `type` is `dm`, in table order. */
  function Dms(convs: seq<Conversation>): (r: seq<Conversation>)
    ensures forall c :: c in r <==> c in convs && c.kind == Dm
    ensures |r| <= |convs|
  {
    if convs == [] then []
    else Dms(convs[..|convs| - 1]) + (if convs[|convs| - 1].kind == Dm then [convs[|convs| - 1]] else [])
  }

  /** The `admin_users` lookup every moderation action starts with: a row for the user. */
  predicate IsAdmin(admins: map<UserId, string>, u: UserId) {
    u in admins
  }
}
