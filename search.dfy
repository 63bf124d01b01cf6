/** Message search and the per-user search history. */
module Search {
  import opened Wrappers
  import opened Schema
  import Text
  import Lists

  /** The answer both search actions return: the hits and an error text, never a throw
      except for a missing caller. */
  datatype SearchAnswer = SearchAnswer(data: seq<Message>, error: Option<string>)

  /** The guard both searches start with, before any caller check: fewer than two
      characters once trimmed. */
  predicate TooShort(query: string) {
    |Text.Trim(query)| < 2
  }

  /** The default `limit` of `searchMessages`. */
  const DefaultSearchLimit: nat := 50

  /** Sends the trimmed query to the backend search and turns its answer into a
      `SearchAnswer`: a null answer is no hits, an error is reported in the answer. */
  function Run(answer: Result<Option<seq<Message>>>): (a: SearchAnswer)
    ensures answer.Err? ==> a == SearchAnswer([], Some(answer.error))
    ensures answer.Ok? ==> a == SearchAnswer(answer.value.GetOr([]), None)
  {
    match answer
    case Err(e) => SearchAnswer([], Some(e))
    case Ok(hits) => SearchAnswer(hits.GetOr([]), None)
  }

  /** `searchMessages`. `searchAll(user, query, limit)` is the backend search over every
      conversation, called with the trimmed query. */
  function SearchMessages(
    query: string, limit: Option<nat>, user: Option<UserId>,
    searchAll: (UserId, string, nat) -> Result<Option<seq<Message>>>)
    : (r: Result<SearchAnswer>)
    ensures TooShort(query) ==> r == Ok(SearchAnswer([], Some("Query too short")))
    ensures !TooShort(query) && user.None? ==> r == Err("Unauthorized")
    ensures !TooShort(query) && user.Some? ==>
      r == Ok(Run(searchAll(user.value, Text.Trim(query), limit.GetOr(DefaultSearchLimit))))
  {
    if TooShort(query) then Ok(SearchAnswer([], Some("Query too short")))
    else if user.None? then Err("Unauthorized")
    else Ok(Run(searchAll(user.value, Text.Trim(query), limit.GetOr(DefaultSearchLimit))))
  }

  /** `searchInConversation`, with the conversation-scoped backend search. */
  function SearchInConversation(
    conversation: Id, query: string, user: Option<UserId>,
    searchIn: (Id, UserId, string) -> Result<Option<seq<Message>>>)
    : (r: Result<SearchAnswer>)
    ensures TooShort(query) ==> r == Ok(SearchAnswer([], Some("Query too short")))
    ensures !TooShort(query) && user.None? ==> r == Err("Unauthorized")
    ensures !TooShort(query) && user.Some? ==> r == Ok(Run(searchIn(conversation, user.value, Text.Trim(query))))
  {
    if TooShort(query) then Ok(SearchAnswer([], Some("Query too short")))
    else if user.None? then Err("Unauthorized")
    else Ok(Run(searchIn(conversation, user.value, Text.Trim(query))))
  }

  /** A query too short is answered before the caller or the backend is consulted. */
  lemma ShortQueryNeedsNothing(
    query: string, limit: Option<nat>, user: Option<UserId>, other: Option<UserId>,
    searchAll: (UserId, string, nat) -> Result<Option<seq<Message>>>,
    anyOther: (UserId, string, nat) -> Result<Option<seq<Message>>>)
    requires TooShort(query)
    ensures SearchMessages(query, limit, user, searchAll) == SearchMessages(query, limit, other, anyOther)
  {
  }

  /** `saveSearchHistory`: nothing for a missing caller; otherwise one row with the
      trimmed query. The insert's answer is not checked, so a failed insert (`failed`)
      leaves the table as it was without any error. */
  method SaveSearchHistory(db: Db, user: Option<UserId>, query: string, conversation: Option<Id>, now: Time, failed: bool)
    modifies db`searchHistory
    ensures user.None? || failed ==> db.searchHistory == old(db.searchHistory)
    ensures user.Some? && !failed ==>
      db.searchHistory == old(db.searchHistory) + [SearchEntry(user.value, Text.Trim(query), conversation, now)]
  {
    if user.None? {
      return;
    }
    if !failed {
      db.searchHistory := db.searchHistory + [SearchEntry(user.value, Text.Trim(query), conversation, now)];
    }
  }

  function EntryTime(e: SearchEntry): int { e.createdAt }

  /** The default `limit` of `getRecentSearches`. */
  const DefaultRecentLimit: nat := 10

  /** The history rows of user `u`. */
  function ByUser(u: UserId): SearchEntry -> bool {
    (e: SearchEntry) => e.user == u
  }

  /** The query of `getRecentSearches`: the user's `limit` newest history rows, newest
      first, as many as there are up to that limit, none repeated more often than the
      table holds it. */
  function RecentRows(history: seq<SearchEntry>, u: UserId, limit: nat): (page: seq<SearchEntry>)
    ensures |page| <= limit && Lists.SortedDesc(page, EntryTime)
    ensures var mine := Lists.Filter(history, ByUser(u));
      |page| == (if limit < |mine| then limit else |mine|) && multiset(page) <= multiset(mine)
    ensures forall e :: e in page ==> e in history && e.user == u
    ensures forall e, f :: e in history && e.user == u && e !in page && f in page ==> EntryTime(f) >= EntryTime(e)
  {
    Lists.TopWhere(history, ByUser(u), EntryTime, limit)
  }

  function Queries(page: seq<SearchEntry>): (qs: seq<string>)
    ensures |qs| == |page| && forall i :: 0 <= i < |page| ==> qs[i] == page[i].query
  {
    seq(|page|, i requires 0 <= i < |page| => page[i].query)
  }

  /** Some row with query `q` is at least as recent as every row with query `q'`. */
  predicate UsedNoEarlier(page: seq<SearchEntry>, q: string, q': string) {
    exists e :: e in page && e.query == q && forall f :: f in page && f.query == q' ==> e.createdAt >= f.createdAt
  }

  /** `getRecentSearches`: the distinct queries among the newest `limit` rows of the
      caller (10 when absent), in order of their newest use. The limit applies to rows
      before duplicates are removed, so repeated queries make the list shorter. A missing
      caller, or a failed query, gives none. */
  function GetRecentSearches(history: seq<SearchEntry>, user: Option<UserId>, limit: Option<nat>, failed: bool)
    : (r: seq<string>)
    ensures user.None? || failed ==> r == []
    ensures Lists.NoDup(r) && |r| <= limit.GetOr(DefaultRecentLimit)
    ensures user.Some? && !failed ==>
      var page := RecentRows(history, user.value, limit.GetOr(DefaultRecentLimit));
      && (forall q :: q in r <==> exists e :: e in page && e.query == q)
      && (forall i, j :: 0 <= i < j < |r| ==> UsedNoEarlier(page, r[i], r[j]))
  {
    if user.None? || failed then []
    else
      var n := limit.GetOr(DefaultRecentLimit);
      var page := RecentRows(history, user.value, n);
      var unique := Lists.Dedup(Queries(page));
      NewestUseOrder(page, unique);
      QueriesOfPage(page);
      assert Lists.Take(unique, n) == unique;
      Lists.Take(unique, n)
  }

  /** The queries of a page are the queries of its rows. */
  lemma QueriesOfPage(page: seq<SearchEntry>)
    ensures forall q :: q in Queries(page) <==> exists e :: e in page && e.query == q
  {
    var qs := Queries(page);
    forall q | q in qs ensures exists e :: e in page && e.query == q {
      var k :| 0 <= k < |qs| && qs[k] == q;
      assert page[k] in page;
    }
    forall e | e in page ensures e.query in qs {
      var k :| 0 <= k < |page| && page[k] == e;
      assert qs[k] == e.query;
    }
  }

  /** The order `Array.from(new Set(...))` leaves on the queries of a newest-first page. */
  lemma NewestUseOrder(page: seq<SearchEntry>, unique: seq<string>)
    requires Lists.SortedDesc(page, EntryTime) && unique == Lists.Dedup(Queries(page))
    ensures forall i, j :: 0 <= i < j < |unique| ==> UsedNoEarlier(page, unique[i], unique[j])
  {
    var qs := Queries(page);
    Lists.DedupKeepsFirstOccurrenceOrder(qs);
    forall i, j | 0 <= i < j < |unique|
      ensures UsedNoEarlier(page, unique[i], unique[j])
    {
      assert unique[i] in qs && unique[j] in qs;
      var a := Lists.FirstIndex(qs, unique[i]);
      var b := Lists.FirstIndex(qs, unique[j]);
      assert a < b;
      forall f | f in page && f.query == unique[j] ensures page[a].createdAt >= f.createdAt {
        var k :| 0 <= k < |page| && page[k] == f;
        if k < b {
          assert false;
        }
        assert EntryTime(page[a]) >= EntryTime(page[k]);
      }
      var e := page[a];
      assert e in page && e.query == unique[i];
      assert forall f :: f in page && f.query == unique[j] ==> e.createdAt >= f.createdAt;
    }
  }

  /** `clearSearchHistory`: every row of the caller goes; other users' rows stay. */
  method ClearSearchHistory(db: Db, user: Option<UserId>, failure: Option<string>)
    returns (r: Outcome)
    modifies db`searchHistory
    ensures user.None? ==> r == Failed("Unauthorized") && db.searchHistory == old(db.searchHistory)
    ensures user.Some? && failure.Some? ==> r == Failed(failure.value) && db.searchHistory == old(db.searchHistory)
    ensures user.Some? && failure.None? ==>
      && r == Done
      && (forall e :: e in db.searchHistory <==> e in old(db.searchHistory) && e.user != user.value)
      && GetRecentSearches(db.searchHistory, user, None, false) == []
  {
    if user.None? {
      return Failed("Unauthorized");
    }
    if failure.Some? {
      return Failed(failure.value);
    }
    var u := user.value;
    var p := (e: SearchEntry) => e.user != u;
    Lists.FilterMembers(db.searchHistory, p);
    db.searchHistory := Lists.Filter(db.searchHistory, p);
    NothingRecent(db.searchHistory, u);
    r := Done;
  }

  /** After the caller's rows are gone, the caller has no recent searches. */
  lemma NothingRecent(history: seq<SearchEntry>, u: UserId)
    requires forall e :: e in history ==> e.user != u
    ensures GetRecentSearches(history, Some(u), None, false) == []
  {
    var page := RecentRows(history, u, DefaultRecentLimit);
    assert Queries(page) == [];
  }
}
