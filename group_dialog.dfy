/** `CreateGroupDialog`: the group form with its title, the member search and the chosen
    members. The group itself is created by a `createGroup` server action that is not
    part of this model: its answer (the new id or a failure) is a parameter, and the
    requests made to it are recorded in `requests`. */
module GroupDialog {
  import opened Wrappers
  import opened Schema
  import Text
  import Lists

  /** A user row of `searchUsers`. */
  datatype UserRow = UserRow(id: UserId, username: string, displayName: Option<string>, avatarUrl: Option<string>)

  /** What `createGroup` is called with. */
  datatype GroupRequest = GroupRequest(title: string, memberIds: seq<UserId>)

  const CreateFailed := "Failed to create group"

  function IdOf(u: UserRow): UserId { u.id }

  /** Whether a user with that id is among `users`. */
  predicate Listed(users: seq<UserRow>, id: UserId) {
    exists i :: 0 <= i < |users| && users[i].id == id
  }

  /** The search rows that are not already chosen, in the order found. */
  function Unchosen(found: seq<UserRow>, chosen: seq<UserRow>): (r: seq<UserRow>)
    ensures forall u :: u in r <==> u in found && !Listed(chosen, u.id)
  {
    var p := (u: UserRow) => !Listed(chosen, u.id);
    Lists.FilterMembers(found, p);
    Lists.Filter(found, p)
  }

  /** `removeMember(id)`: every chosen member with that id leaves, the rest stay in order. */
  function Removed(chosen: seq<UserRow>, id: UserId): (r: seq<UserRow>)
    ensures forall u :: u in r <==> u in chosen && u.id != id
    ensures !Listed(r, id)
  {
    var p := (u: UserRow) => u.id != id;
    Lists.FilterMembers(chosen, p);
    var r := Lists.Filter(chosen, p);
    assert forall i :: 0 <= i < |r| ==> r[i] in r;
    r
  }

  /** The ids passed to `createGroup`: the chosen members' ids, in the order chosen. */
  function IdsOf(chosen: seq<UserRow>): (ids: seq<UserId>)
    ensures |ids| == |chosen|
    ensures forall i :: 0 <= i < |chosen| ==> ids[i] == chosen[i].id
  {
    seq(|chosen|, i requires 0 <= i < |chosen| => chosen[i].id)
  }

  /** The request `handleCreate` makes: none when the title is blank or nobody is chosen;
      otherwise the trimmed title, which is then not empty, and the chosen ids. */
  function Request(title: string, chosen: seq<UserRow>): (r: Option<GroupRequest>)
    ensures r.None? <==> Text.IsBlank(title) || chosen == []
    ensures r.Some? ==> r.value.title == Text.Trim(title) && r.value.title != []
    ensures r.Some? ==> r.value.memberIds == IdsOf(chosen) && r.value.memberIds != []
  {
    if Text.IsBlank(title) || chosen == [] then None else Some(GroupRequest(Text.Trim(title), IdsOf(chosen)))
  }

  /** The invariant of the form: every member is chosen once, and no search result is
      already chosen. */
  predicate Disjoint(chosen: seq<UserRow>, results: seq<UserRow>) {
    && Lists.DistinctBy(chosen, IdOf)
    && forall i :: 0 <= i < |results| ==> !Listed(chosen, results[i].id)
  }

  /** Adding a shown result keeps the invariant, and the added user is no longer shown. */
  lemma AddKeepsDisjoint(chosen: seq<UserRow>, results: seq<UserRow>, user: UserRow)
    requires Disjoint(chosen, results) && user in results
    ensures Disjoint(chosen + [user], Removed(results, user.id))
  {
    var chosen' := chosen + [user];
    var results' := Removed(results, user.id);
    forall i | 0 <= i < |results'| ensures !Listed(chosen', results'[i].id) {
      assert results'[i] in results;
      var k :| 0 <= k < |results| && results[k] == results'[i];
      forall j | 0 <= j < |chosen'| ensures chosen'[j].id != results'[i].id {
        if j == |chosen| {
          assert results'[i].id != user.id;
        }
      }
    }
    var k :| 0 <= k < |results| && results[k] == user;
    assert forall i, j :: 0 <= i < j < |chosen'| ==> IdOf(chosen'[i]) != IdOf(chosen'[j]) by {
      forall i, j | 0 <= i < j < |chosen'| ensures IdOf(chosen'[i]) != IdOf(chosen'[j]) {
        if j == |chosen| {
          assert !Listed(chosen, user.id);
        }
      }
    }
  }

  /** Removing a member keeps the invariant. */
  lemma RemoveKeepsDisjoint(chosen: seq<UserRow>, results: seq<UserRow>, id: UserId)
    requires Disjoint(chosen, results)
    ensures Disjoint(Removed(chosen, id), results)
  {
    var p := (u: UserRow) => u.id != id;
    Lists.FilterDistinctBy(chosen, p, IdOf);
    var r := Removed(chosen, id);
    forall i, j | 0 <= i < |results| && 0 <= j < |r| ensures r[j].id != results[i].id {
      assert r[j] in r;
      assert r[j] in chosen;
    }
  }

  /** Removing a member just added takes the selection back to what it was. */
  lemma AddThenRemove(chosen: seq<UserRow>, results: seq<UserRow>, user: UserRow)
    requires Disjoint(chosen, results) && user in results
    ensures Removed(chosen + [user], user.id) == chosen
  {
    var p := (u: UserRow) => u.id != user.id;
    var k :| 0 <= k < |results| && results[k] == user;
    Lists.FilterAppend(chosen, [user], p);
    Lists.FilterKeepsAll(chosen, p);
    assert Lists.Filter([user], p) == [];
  }

  /** A fresh search keeps the invariant. */
  lemma SearchKeepsDisjoint(chosen: seq<UserRow>, found: seq<UserRow>)
    requires Lists.DistinctBy(chosen, IdOf)
    ensures Disjoint(chosen, Unchosen(found, chosen))
  {
    var r := Unchosen(found, chosen);
    assert forall i :: 0 <= i < |r| ==> r[i] in r;
  }

  class Dialog {
    var open: bool
    var title: string
    var searchQuery: string
    var searchResults: seq<UserRow>
    var chosen: seq<UserRow>
    var loading: bool
    var searching: bool
    var requests: seq<GroupRequest>
    var navigated: seq<Id>
    var alerts: seq<string>

    predicate Valid()
      reads this
    {
      Disjoint(chosen, searchResults)
    }

    constructor ()
      ensures Valid()
      ensures !open && title == [] && searchQuery == [] && searchResults == [] && chosen == []
      ensures !loading && !searching && requests == [] && navigated == [] && alerts == []
    {
      open, title, searchQuery, searchResults, chosen := false, [], [], [], [];
      loading, searching, requests, navigated, alerts := false, false, [], [], [];
    }

    method SetTitle(t: string)
      modifies this`title
      ensures title == t
    {
      title := t;
    }

    method SetQuery(q: string)
      modifies this`searchQuery
      ensures searchQuery == q
    {
      searchQuery := q;
    }

    /** `handleSearch`, run on the debounced query: a blank query clears the results; a
        failed search keeps them; otherwise the rows found that are not chosen. */
    method Search(query: string, found: seq<UserRow>, failed: bool)
      requires Valid()
      modifies this`searchResults, this`searching
      ensures Valid() && !searching
      ensures Text.IsBlank(query) ==> searchResults == []
      ensures !Text.IsBlank(query) && failed ==> searchResults == old(searchResults)
      ensures !Text.IsBlank(query) && !failed ==> searchResults == Unchosen(found, chosen)
    {
      if Text.IsBlank(query) {
        searchResults := [];
        searching := false;
        return;
      }
      searching := true;
      if !failed {
        SearchKeepsDisjoint(chosen, found);
        searchResults := Unchosen(found, chosen);
      }
      searching := false;
    }

    /** `addMember(user)`, offered for each shown result. */
    method AddMember(user: UserRow)
      requires Valid() && user in searchResults
      modifies this`chosen, this`searchResults, this`searchQuery
      ensures Valid()
      ensures chosen == old(chosen) + [user]
      ensures searchResults == Removed(old(searchResults), user.id)
      ensures searchQuery == []
    {
      AddKeepsDisjoint(chosen, searchResults, user);
      chosen := chosen + [user];
      searchResults := Removed(searchResults, user.id);
      searchQuery := [];
    }

    /** `removeMember(id)`. */
    method RemoveMember(id: UserId)
      requires Valid()
      modifies this`chosen
      ensures Valid()
      ensures chosen == Removed(old(chosen), id)
    {
      RemoveKeepsDisjoint(chosen, searchResults, id);
      chosen := Removed(chosen, id);
    }

    /** The request sent and its answer handled: on success the form is reset and closed
        and the new group opened; on failure an alert. */
    method Submit(request: GroupRequest, answer: Result<Id>)
      requires Valid()
      modifies this`loading, this`requests, this`title, this`chosen, this`searchQuery, this`open
      modifies this`navigated, this`alerts
      ensures Valid() && !loading && requests == old(requests) + [request]
      ensures searchResults == old(searchResults) && searching == old(searching)
      ensures
        if answer.Ok? then
          && title == [] && chosen == [] && searchQuery == [] && !open
          && navigated == old(navigated) + [answer.value] && alerts == old(alerts)
        else
          && title == old(title) && chosen == old(chosen) && searchQuery == old(searchQuery)
          && open == old(open) && navigated == old(navigated) && alerts == old(alerts) + [CreateFailed]
    {
      loading := true;
      requests := requests + [request];
      if answer.Ok? {
        title := [];
        chosen := [];
        searchQuery := [];
        open := false;
        navigated := navigated + [answer.value];
      } else {
        alerts := alerts + [CreateFailed];
      }
      loading := false;
    }

    /** `handleCreate`. `answer` is what `createGroup` returns for the request: the new
        group's id, or the error it throws. Without a request nothing happens. */
    method Create(answer: Result<Id>)
      requires Valid()
      modifies this`loading, this`requests, this`title, this`chosen, this`searchQuery, this`open
      modifies this`navigated, this`alerts
      ensures Valid()
      ensures searchResults == old(searchResults) && searching == old(searching)
      ensures
        var request := Request(old(title), old(chosen));
        if request.None? then
          && requests == old(requests) && title == old(title) && chosen == old(chosen)
          && searchQuery == old(searchQuery) && loading == old(loading) && open == old(open)
          && navigated == old(navigated) && alerts == old(alerts)
        else if answer.Ok? then
          && requests == old(requests) + [request.value] && !loading
          && title == [] && chosen == [] && searchQuery == [] && !open
          && navigated == old(navigated) + [answer.value] && alerts == old(alerts)
        else
          && requests == old(requests) + [request.value] && !loading
          && title == old(title) && chosen == old(chosen) && searchQuery == old(searchQuery)
          && open == old(open) && navigated == old(navigated) && alerts == old(alerts) + [CreateFailed]
    {
      var request := Request(title, chosen);
      if request.Some? {
        Submit(request.value, answer);
      }
    }
  }
}
