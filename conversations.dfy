/** The server actions on conversations: finding or creating the direct-message
    conversation between the caller and another user, and listing the caller's
    conversations. */
module Conversations {
  import opened Wrappers
  import opened Schema
  import Lists

  /** The match `createOrGetDM` looks for: the conversation has exactly two member rows,
      and both the caller and the other user are among them. */
  predicate IsPairDm(members: seq<Membership>, c: Conversation, u: UserId, other: UserId) {
    var ids := MemberIds(members, c.id);
    |ids| == 2 && u in ids && other in ids
  }

  /** The index of the first matching conversation in query order, or -1. */
  function FirstPairDm(dms: seq<Conversation>, members: seq<Membership>, u: UserId, other: UserId): (k: int)
    ensures -1 <= k < |dms|
    ensures k >= 0 ==> IsPairDm(members, dms[k], u, other)
    ensures forall j :: 0 <= j < |dms| && (k < 0 || j < k) ==> !IsPairDm(members, dms[j], u, other)
  {
    if dms == [] then -1
    else if IsPairDm(members, dms[0], u, other) then 0
    else
      var k := FirstPairDm(dms[1..], members, u, other);
      if k < 0 then -1 else k + 1
  }

  /** The row `createOrGetDM` and the new-conversation modal insert: a `dm` created by the
      caller, with no title. */
  function NewDm(id: Id, creator: UserId, now: Time): Conversation {
    Conversation(id, Dm, None, creator, false, None, now, now)
  }

  /** The search loop of `createOrGetDM`: walks the listed conversations in order and stops
      at the first whose member ids are exactly two and include both users. */
  method FindPairDm(dms: seq<Conversation>, members: seq<Membership>, u: UserId, other: UserId)
    returns (existing: Option<Id>)
    ensures FirstPairDm(dms, members, u, other) < 0 <==> existing.None?
    ensures existing.Some? ==> existing.value == dms[FirstPairDm(dms, members, u, other)].id
  {
    existing := None;
    var i := 0;
    while i < |dms|
      invariant 0 <= i <= |dms|
      invariant forall j :: 0 <= j < i ==> !IsPairDm(members, dms[j], u, other)
    {
      var memberIds := MemberIds(members, dms[i].id);
      if |memberIds| == 2 && u in memberIds && other in memberIds {
        assert FirstPairDm(dms, members, u, other) == i;
        existing := Some(dms[i].id);
        break;
      }
      i := i + 1;
    }
  }

  /** The creating half of `createOrGetDM`: a `dm` row, then both member rows. */
  method InsertDm(db: Db, u: UserId, other: UserId, now: Time, convFailure: Option<string>, membersFailure: Option<string>)
    returns (r: Result<Id>)
    requires db.Valid()
    modifies db`conversations, db`members, db`nextId
    ensures db.Valid()
    ensures convFailure.Some? ==> r == Err(convFailure.value) && unchanged(db)
    ensures convFailure.None? ==>
      && db.conversations == old(db.conversations) + [NewDm(old(db.nextId), u, now)]
      && db.nextId == old(db.nextId) + 1
      && (membersFailure.Some? ==> r == Err(membersFailure.value) && db.members == old(db.members))
      && (membersFailure.None? ==>
            && r == Ok(old(db.nextId))
            && db.members == old(db.members) + [Membership(old(db.nextId), u, None), Membership(old(db.nextId), other, None)])
  {
    if convFailure.Some? {
      return Err(convFailure.value);
    }
    var id := db.FreshId();
    db.conversations := db.conversations + [NewDm(id, u, now)];
    if membersFailure.Some? {
      return Err(membersFailure.value);
    }
    db.members := db.members + [Membership(id, u, None), Membership(id, other, None)];
    r := Ok(id);
  }

  /** `createOrGetDM`. The lookup lists the `dm` conversations with their members; a failed
      lookup (`lookupFailed`) yields no list and the search is skipped. The first listed
      conversation with exactly the two users is returned. Otherwise a `dm` row is
      inserted and then both member rows; the member insert can fail after the
      conversation exists, which is not rolled back. */
  method CreateOrGetDM(
    db: Db, user: Option<UserId>, other: UserId, now: Time,
    lookupFailed: bool, convFailure: Option<string>, membersFailure: Option<string>)
    returns (r: Result<Id>)
    requires db.Valid()
    modifies db`conversations, db`members, db`nextId
    ensures db.Valid()
    ensures user.None? ==> r == Err("Unauthorized") && unchanged(db)
    ensures user.Some? ==>
      var dms := Dms(old(db.conversations));
      var k := if lookupFailed then -1 else FirstPairDm(dms, old(db.members), user.value, other);
      && (k >= 0 ==> r == Ok(dms[k].id) && unchanged(db))
      && (k < 0 && convFailure.Some? ==> r == Err(convFailure.value) && unchanged(db))
      && (k < 0 && convFailure.None? ==>
            && db.conversations == old(db.conversations) + [NewDm(old(db.nextId), user.value, now)]
            && db.nextId == old(db.nextId) + 1
            && (membersFailure.Some? ==> r == Err(membersFailure.value) && db.members == old(db.members))
            && (membersFailure.None? ==>
                  && r == Ok(old(db.nextId))
                  && db.members == old(db.members)
                       + [Membership(old(db.nextId), user.value, None), Membership(old(db.nextId), other, None)]))
  {
    if user.None? {
      return Err("Unauthorized");
    }
    var dms := if lookupFailed then [] else Dms(db.conversations);
    var existing := FindPairDm(dms, db.members, user.value, other);
    if existing.Some? {
      return Ok(existing.value);
    }
    r := InsertDm(db, user.value, other, now, convFailure, membersFailure);
  }

  /** A conversation without member rows has no members. */
  lemma {:induction false} NoRowsNoMembers(members: seq<Membership>, c: Id)
    requires forall i :: 0 <= i < |members| ==> members[i].conversation != c
    ensures MemberIds(members, c) == []
  {
    if members != [] {
      NoRowsNoMembers(members[..|members| - 1], c);
    }
  }

  /** The two member rows of a new conversation are its only ones. */
  lemma NewDmMembers(members: seq<Membership>, id: Id, u: UserId, other: UserId)
    requires forall i :: 0 <= i < |members| ==> members[i].conversation < id
    ensures MemberIds(members + [Membership(id, u, None), Membership(id, other, None)], id) == [u, other]
  {
    MemberIdsAppend(members, [Membership(id, u, None), Membership(id, other, None)], id);
    NoRowsNoMembers(members, id);
    PairIds(Membership(id, u, None), Membership(id, other, None), id);
  }

  /** Two rows of `c` list their two users. */
  lemma PairIds(a: Membership, b: Membership, c: Id)
    requires a.conversation == c && b.conversation == c
    ensures MemberIds([a, b], c) == [a.user, b.user]
  {
    MemberIdsSnoc([], a, c);
    MemberIdsSnoc([a], b, c);
    assert [] + [a] == [a] && [a] + [b] == [a, b];
  }

  /** Rows of a new conversation leave the members of the older ones as they were. */
  lemma OldDmsUnchanged(dms: seq<Conversation>, members: seq<Membership>, more: seq<Membership>, id: Id, u: UserId, other: UserId)
    requires forall i :: 0 <= i < |dms| ==> dms[i].id < id
    requires forall i :: 0 <= i < |more| ==> more[i].conversation == id
    ensures forall j :: 0 <= j < |dms| ==> (IsPairDm(members + more, dms[j], u, other) <==> IsPairDm(members, dms[j], u, other))
  {
    forall j | 0 <= j < |dms| ensures MemberIds(members + more, dms[j].id) == MemberIds(members, dms[j].id) {
      MemberIdsAppend(members, more, dms[j].id);
      NoRowsNoMembers(more, dms[j].id);
    }
  }

  /** A pair DM after none is the first one. */
  lemma {:induction false} FirstPairDmSnoc(dms: seq<Conversation>, x: Conversation, members: seq<Membership>, u: UserId, other: UserId)
    requires forall j :: 0 <= j < |dms| ==> !IsPairDm(members, dms[j], u, other)
    requires IsPairDm(members, x, u, other)
    ensures FirstPairDm(dms + [x], members, u, other) == |dms|
  {
    var all := dms + [x];
    if dms == [] {
      assert all[0] == x;
    } else {
      assert all[0] == dms[0];
      assert all[1..] == dms[1..] + [x];
      FirstPairDmSnoc(dms[1..], x, members, u, other);
    }
  }

  /** After a creation the new conversation is the caller's pair DM: no earlier one matched,
      their member lists are untouched, and the new one has exactly the two users. */
  lemma {:induction false} CreatedDmIsFound(convs: seq<Conversation>, members: seq<Membership>, id: Id, u: UserId, other: UserId, now: Time)
    requires forall i :: 0 <= i < |convs| ==> convs[i].id < id
    requires forall i :: 0 <= i < |members| ==> members[i].conversation < id
    requires FirstPairDm(Dms(convs), members, u, other) < 0
    ensures FirstPairDm(
              Dms(convs + [NewDm(id, u, now)]),
              members + [Membership(id, u, None), Membership(id, other, None)], u, other)
            == |Dms(convs)|
  {
    var convs' := convs + [NewDm(id, u, now)];
    var more := [Membership(id, u, None), Membership(id, other, None)];
    var dms := Dms(convs);
    assert convs'[..|convs'| - 1] == convs;
    assert Dms(convs') == dms + [NewDm(id, u, now)];
    assert forall i :: 0 <= i < |dms| ==> dms[i] in convs;
    OldDmsUnchanged(dms, members, more, id, u, other);
    NewDmMembers(members, id, u, other);
    FirstPairDmSnoc(dms, NewDm(id, u, now), members + more, u, other);
  }

  /** Two successive calls for the same pair, with the backend never failing, return the
      same conversation and create at most one. */
  method CreateOrGetDMTwice(db: Db, u: UserId, other: UserId, now: Time, later: Time)
    returns (first: Result<Id>, second: Result<Id>)
    requires db.Valid()
    modifies db`conversations, db`members, db`nextId
    ensures first.Ok? && first == second
    ensures |db.conversations| <= |old(db.conversations)| + 1
  {
    first := CreateOrGetDM(db, Some(u), other, now, false, None, None);
    ghost var convs := db.conversations;
    ghost var members := db.members;
    if |db.conversations| != |old(db.conversations)| {
      CreatedDmIsFound(old(db.conversations), old(db.members), old(db.nextId), u, other, now);
    }
    second := CreateOrGetDM(db, Some(u), other, later, false, None, None);
  }

  function UpdatedAt(c: Conversation): int { c.updatedAt }

  /** The conversations `u` has a member row in. */
  function MemberOf(members: seq<Membership>, u: UserId): Conversation -> bool {
    (c: Conversation) => IsMember(members, c.id, u)
  }

  /** The conversations updated at time `t`. */
  function UpdatedAtTime(t: int): Conversation -> bool {
    (c: Conversation) => UpdatedAt(c) == t
  }

  /** `getConversations`: the conversations with a member row for the caller, each as
      often as the table holds it, most recently updated first. */
  function GetConversations(convs: seq<Conversation>, members: seq<Membership>, user: Option<UserId>, failure: Option<string>)
    : (r: Result<seq<Conversation>>)
    ensures user.None? ==> r == Err("Unauthorized")
    ensures user.Some? && failure.Some? ==> r == Err(failure.value)
    ensures user.Some? && failure.None? ==> r.Ok?
    ensures r.Ok? ==> user.Some? && forall c :: c in r.value <==> c in convs && IsMember(members, c.id, user.value)
    ensures r.Ok? ==> multiset(r.value) == multiset(Lists.Filter(convs, MemberOf(members, user.value)))
    ensures r.Ok? ==> Lists.SortedDesc(r.value, UpdatedAt)
  {
    if user.None? then Err("Unauthorized")
    else if failure.Some? then Err(failure.value)
    else
      var mine := Lists.Filter(convs, MemberOf(members, user.value));
      Lists.FilterMembers(convs, MemberOf(members, user.value));
      var sorted := Lists.SortDesc(mine, UpdatedAt);
      assert forall c :: c in sorted <==> c in multiset(mine);
      Ok(sorted)
  }

  /** Among conversations updated at the same time, table order is kept. */
  lemma GetConversationsStable(convs: seq<Conversation>, members: seq<Membership>, u: UserId, t: int)
    ensures var r := GetConversations(convs, members, Some(u), None);
      r.Ok? && Lists.Filter(r.value, UpdatedAtTime(t)) == Lists.Filter(Lists.Filter(convs, MemberOf(members, u)), UpdatedAtTime(t))
  {
    Lists.SortDescStable(Lists.Filter(convs, MemberOf(members, u)), UpdatedAt, UpdatedAtTime(t), t);
  }
}
