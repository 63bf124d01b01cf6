/** `UserCard`: the search result card whose button opens a direct message with the
    card's user, reusing the first shared `dm` conversation or creating one. Failures of
    the two lookup queries leave no data and are not checked; failed inserts throw, and
    every throw is caught and logged. */
module UserCard {
  import opened Wrappers
  import opened Schema
  import Lists
  import Conversations
  import DmLookup

  /** The conversation of the first joined row whose conversation is of type `dm`; the
      number of its members is not looked at. */
  function FirstSharedDm(shared: seq<DmLookup.Joined>): (r: Option<Id>)
    ensures r.Some? <==> exists i :: 0 <= i < |shared| && shared[i].conversation.kind == Dm
    ensures r.Some? ==> exists i ::
      && 0 <= i < |shared| && shared[i].conversation.kind == Dm && r.value == shared[i].member.conversation
      && forall k :: 0 <= k < i ==> shared[k].conversation.kind != Dm
  {
    var k := Lists.FirstWhere(shared, (j: DmLookup.Joined) => j.conversation.kind == Dm);
    if k < |shared| then Some(shared[k].member.conversation) else None
  }

  /** The card's whole lookup on the tables. */
  function SharedDmFor(convs: seq<Conversation>, members: seq<Membership>, me: UserId, other: UserId): Option<Id> {
    FirstSharedDm(DmLookup.SharedRows(convs, members, members, me, other))
  }

  /** A reused conversation is a `dm` row both users belong to. */
  lemma ReusedIsShared(convs: seq<Conversation>, members: seq<Membership>, me: UserId, other: UserId)
    requires SharedDmFor(convs, members, me, other).Some?
    ensures exists c ::
      && c in convs && c.id == SharedDmFor(convs, members, me, other).value && c.kind == Dm
      && IsMember(members, c.id, me) && IsMember(members, c.id, other)
  {
    var shared := DmLookup.SharedRows(convs, members, members, me, other);
    var i :| 0 <= i < |shared| && shared[i].conversation.kind == Dm
      && SharedDmFor(convs, members, me, other).value == shared[i].member.conversation;
    assert shared[i] in shared;
    DmLookup.SharedRowsAreShared(convs, members, me, other, shared[i]);
  }

  /** A `dm` with a third member is still reused. */
  lemma CrowdedDmReused(c: Conversation, me: UserId, other: UserId, third: UserId)
    requires c.kind == Dm
    ensures SharedDmFor([c], [Membership(c.id, me, None), Membership(c.id, other, None), Membership(c.id, third, None)], me, other)
            == Some(c.id)
  {
    var members := [Membership(c.id, me, None), Membership(c.id, other, None), Membership(c.id, third, None)];
    var shared := DmLookup.SharedRows([c], members, members, me, other);
    assert members[0] in members;
    assert IsMember(members, c.id, me);
    assert DmLookup.ConversationById([c], c.id) == Some(c);
    assert DmLookup.Joined(members[1], c) in shared;
  }

  /** The member rows of a new DM: both users, no role given. */
  function DmMembers(id: Id, me: UserId, other: UserId): (rows: seq<Membership>)
    ensures forall i :: 0 <= i < |rows| ==> rows[i].conversation == id && rows[i].role.None?
  {
    [Membership(id, me, None), Membership(id, other, None)]
  }

  /** A new DM made by the card is a pair DM of the two users in the server's sense. */
  lemma NewDmIsPair(members: seq<Membership>, id: Id, me: UserId, other: UserId, now: Time)
    requires forall i :: 0 <= i < |members| ==> members[i].conversation != id
    ensures MemberIds(members + DmMembers(id, me, other), id) == [me, other]
    ensures Conversations.IsPairDm(members + DmMembers(id, me, other), Conversations.NewDm(id, me, now), me, other)
  {
    var more := DmMembers(id, me, other);
    MemberIdsAppend(members, more, id);
    Conversations.NoRowsNoMembers(members, id);
    assert more[..1] == [Membership(id, me, None)] && more[..0] == [];
  }

  /** The backend steps of `handleMessage`: the conversation id it resolves, or the
      error it throws. */
  method ResolveDm(
    db: Db, current: Option<UserId>, other: UserId, now: Time,
    lookupFailed: bool, conversationFailure: Option<string>, membersFailure: Option<string>)
    returns (r: Result<Id>)
    requires db.Valid()
    modifies db`conversations, db`members, db`nextId
    ensures db.Valid()
    ensures current.None? ==>
      r == Err("Not authenticated") && db.conversations == old(db.conversations) && db.members == old(db.members)
    ensures current.Some? ==>
      var e := if lookupFailed then None else SharedDmFor(old(db.conversations), old(db.members), current.value, other);
      && (e.Some? ==> r == Ok(e.value) && db.conversations == old(db.conversations) && db.members == old(db.members))
      && (e.None? && conversationFailure.Some? ==>
            && r == Err(conversationFailure.value)
            && db.conversations == old(db.conversations) && db.members == old(db.members))
      && (e.None? && conversationFailure.None? ==>
            && db.conversations == old(db.conversations) + [Conversations.NewDm(old(db.nextId), current.value, now)]
            && (membersFailure.Some? ==> r == Err(membersFailure.value) && db.members == old(db.members))
            && (membersFailure.None? ==>
                  r == Ok(old(db.nextId)) && db.members == old(db.members) + DmMembers(old(db.nextId), current.value, other)))
  {
    if current.None? {
      return Err("Not authenticated");
    }
    var me := current.value;
    var conversationId: Option<Id> := None;
    var mine := DmLookup.MyConversationIds(db.members, me);
    if |mine| > 0 && !lookupFailed {
      conversationId := SharedDmFor(db.conversations, db.members, me, other);
    } else if |mine| == 0 {
      DmLookup.NoConversationsNoRows(db.conversations, db.members, db.members, me, other);
    }
    if conversationId.None? {
      if conversationFailure.Some? {
        return Err(conversationFailure.value);
      }
      var id := db.nextId;
      DmLookup.InsertConversation(db, Conversations.NewDm(id, me, now), DmMembers(id, me, other), membersFailure.Some?);
      if membersFailure.Some? {
        return Err(membersFailure.value);
      }
      conversationId := Some(id);
    }
    r := Ok(conversationId.value);
  }

  /** What the card does to its surroundings, in order. */
  datatype Effect = Closed | Navigated(conversation: Id)

  class Card {
    /** The card's user. */
    const user: UserId
    /** Whether the card was given an `onClose`. */
    const closable: bool
    var loading: bool
    var effects: seq<Effect>
    /** The errors written to the console. */
    var logged: seq<string>

    constructor (user: UserId, closable: bool)
      ensures this.user == user && this.closable == closable
      ensures !loading && effects == [] && logged == []
    {
      this.user := user;
      this.closable := closable;
      loading := false;
      effects := [];
      logged := [];
    }

    /** The screen's side of `handleMessage`: a resolved id closes the card, when it can
        be closed, and then navigates; an error is logged and not rethrown. */
    method Settle(r: Result<Id>)
      modifies this`loading, this`effects, this`logged
      ensures !loading
      ensures r.Ok? ==>
        && effects == old(effects) + (if closable then [Closed] else []) + [Navigated(r.value)]
        && logged == old(logged)
      ensures r.Err? ==> effects == old(effects) && logged == old(logged) + [r.error]
    {
      if r.Ok? {
        if closable {
          effects := effects + [Closed];
        }
        effects := effects + [Navigated(r.value)];
      } else {
        logged := logged + [r.error];
      }
      loading := false;
    }

    /** `handleMessage`. */
    method HandleMessage(
      db: Db, current: Option<UserId>, now: Time,
      lookupFailed: bool, conversationFailure: Option<string>, membersFailure: Option<string>)
      returns (r: Result<Id>)
      requires db.Valid()
      modifies this`loading, this`effects, this`logged, db`conversations, db`members, db`nextId
      ensures db.Valid() && !loading
      ensures current.None? ==>
        r == Err("Not authenticated") && db.conversations == old(db.conversations) && db.members == old(db.members)
      ensures current.Some? ==>
        var e := if lookupFailed then None else SharedDmFor(old(db.conversations), old(db.members), current.value, user);
        && (e.Some? ==> r == Ok(e.value) && db.conversations == old(db.conversations) && db.members == old(db.members))
        && (e.None? && conversationFailure.Some? ==>
              && r == Err(conversationFailure.value)
              && db.conversations == old(db.conversations) && db.members == old(db.members))
        && (e.None? && conversationFailure.None? ==>
              && db.conversations == old(db.conversations) + [Conversations.NewDm(old(db.nextId), current.value, now)]
              && (membersFailure.Some? ==> r == Err(membersFailure.value) && db.members == old(db.members))
              && (membersFailure.None? ==>
                    r == Ok(old(db.nextId)) && db.members == old(db.members) + DmMembers(old(db.nextId), current.value, user)))
      ensures r.Ok? ==>
        && effects == old(effects) + (if closable then [Closed] else []) + [Navigated(r.value)]
        && logged == old(logged)
      ensures r.Err? ==> effects == old(effects) && logged == old(logged) + [r.error]
    {
      loading := true;
      r := ResolveDm(db, current, user, now, lookupFailed, conversationFailure, membersFailure);
      Settle(r);
    }
  }

  /** A second click for the same pair, with nothing failing, reuses the DM the first
      click created and creates nothing more. */
  method SecondClickReuses(card: Card, db: Db, me: UserId, now: Time, later: Time)
    returns (first: Result<Id>, second: Result<Id>)
    requires db.Valid()
    requires SharedDmFor(db.conversations, db.members, me, card.user).None?
    modifies card`loading, card`effects, card`logged, db`conversations, db`members, db`nextId
    ensures first.Ok? && first == second
    ensures |db.conversations| == |old(db.conversations)| + 1
  {
    first := card.HandleMessage(db, Some(me), now, false, None, None);
    var id := first.value;
    NewDmIsPair(old(db.members), id, me, card.user, now);
    ReuseAfterCreate(old(db.conversations), old(db.members), id, me, card.user, now);
    second := card.HandleMessage(db, Some(me), later, false, None, None);
  }

  /** The rows that were there before a creation still join to no `dm`. */
  lemma {:induction false} OldRowsStillNoDm(convs: seq<Conversation>, members: seq<Membership>, id: Id, me: UserId, other: UserId, now: Time)
    requires forall i :: 0 <= i < |convs| ==> convs[i].id < id
    requires forall i, j :: 0 <= i < j < |convs| ==> convs[i].id != convs[j].id
    requires forall i :: 0 <= i < |members| ==> members[i].conversation < id
    requires SharedDmFor(convs, members, me, other).None?
    ensures forall j :: j in DmLookup.SharedRows(convs + [Conversations.NewDm(id, me, now)], members + DmMembers(id, me, other), members, me, other) ==>
      j.conversation.kind != Dm
  {
    var convs' := convs + [Conversations.NewDm(id, me, now)];
    var more := DmMembers(id, me, other);
    var all := members + more;
    var before := DmLookup.SharedRows(convs, members, members, me, other);
    forall j | j in DmLookup.SharedRows(convs', all, members, me, other) ensures j.conversation.kind != Dm {
      var cid := j.member.conversation;
      var c := j.conversation;
      assert c in convs' && c.id == cid && cid < id;
      assert c in convs;
      MemberIdsAppend(members, more, cid);
      Conversations.NoRowsNoMembers(more, cid);
      var c' := DmLookup.ConversationById(convs, cid);
      assert c'.Some? by {
        var k :| 0 <= k < |convs| && convs[k] == c;
      }
      assert j in before;
    }
  }

  /** The new rows of a creation join to the new DM. */
  lemma {:induction false} NewRowsJoinNewDm(convs: seq<Conversation>, members: seq<Membership>, id: Id, me: UserId, other: UserId, now: Time)
    requires forall i :: 0 <= i < |convs| ==> convs[i].id < id
    requires forall i :: 0 <= i < |members| ==> members[i].conversation < id
    ensures DmLookup.Joined(Membership(id, other, None), Conversations.NewDm(id, me, now))
      in DmLookup.SharedRows(convs + [Conversations.NewDm(id, me, now)], members + DmMembers(id, me, other), DmMembers(id, me, other), me, other)
  {
    var dm := Conversations.NewDm(id, me, now);
    var convs' := convs + [dm];
    NewDmIsPair(members, id, me, other, now);
    assert convs'[|convs|].id == id;
  }

  /** After a creation the lookup finds the new DM: the rows that were there before
      still join to no `dm`, and the new rows join to the new one. */
  lemma {:induction false} ReuseAfterCreate(convs: seq<Conversation>, members: seq<Membership>, id: Id, me: UserId, other: UserId, now: Time)
    requires forall i :: 0 <= i < |convs| ==> convs[i].id < id
    requires forall i, j :: 0 <= i < j < |convs| ==> convs[i].id != convs[j].id
    requires forall i :: 0 <= i < |members| ==> members[i].conversation < id
    requires SharedDmFor(convs, members, me, other).None?
    ensures SharedDmFor(convs + [Conversations.NewDm(id, me, now)], members + DmMembers(id, me, other), me, other) == Some(id)
  {
    var dm := Conversations.NewDm(id, me, now);
    var convs' := convs + [dm];
    var more := DmMembers(id, me, other);
    var all := members + more;
    DmLookup.SharedRowsAppend(convs', all, members, more, me, other);
    OldRowsStillNoDm(convs, members, id, me, other, now);
    NewRowsJoinNewDm(convs, members, id, me, other, now);
    FirstDmInSecondPart(
      DmLookup.SharedRows(convs', all, members, me, other), DmLookup.SharedRows(convs', all, more, me, other),
      DmLookup.Joined(Membership(id, other, None), dm), id);
  }

  /** When only the second slice has `dm` rows and they all point at `id`, the first
      shared DM is `id`. */
  lemma FirstDmInSecondPart(a: seq<DmLookup.Joined>, b: seq<DmLookup.Joined>, row: DmLookup.Joined, id: Id)
    requires forall j :: j in a ==> j.conversation.kind != Dm
    requires row in b && row.conversation.kind == Dm
    requires forall j :: j in b ==> j.member.conversation == id
    ensures FirstSharedDm(a + b) == Some(id)
  {
    var shared := a + b;
    assert shared[|a| + Lists.FirstIndex(b, row)] == row;
    var i :| 0 <= i < |shared| && shared[i].conversation.kind == Dm && FirstSharedDm(shared).value == shared[i].member.conversation;
    assert i >= |a|;
    assert shared[i] in b;
  }
}
