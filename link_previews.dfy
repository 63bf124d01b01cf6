/** Link previews: the Open Graph summary of a page, its cache in `link_previews`, and the
    previews attached to a message in `message_links`. */
module LinkPreviews {
  import opened Wrappers
  import opened Schema
  import Text
  import Lists

  /** What the HTML of a fetched page offers, each value as the attribute or text the
      document lookup returns (possibly empty). `favicon` is the already resolved icon URL
      the favicon lookup settles on. */
  datatype PageMeta = PageMeta(
    ogTitle: Option<string>, titleTag: Option<string>, ogDescription: Option<string>,
    metaDescription: Option<string>, ogImage: Option<string>, ogSiteName: Option<string>,
    favicon: Option<string>)

  const MaxTitle: nat := 200
  const MaxDescription: nat := 300

  /** 7 days in milliseconds. */
  const CacheLifetime: nat := 7 * 24 * 60 * 60 * 1000

  /** `a || b` on optional strings. */
  function Or(a: Option<string>, b: Option<string>): (r: Option<string>)
    ensures r == if Text.NonEmpty(a).Some? then a else b
  {
    if Text.NonEmpty(a).Some? then a else b
  }

  /** `s?.substring(0, n) || null`. */
  function Clip(s: Option<string>, n: nat): (r: Option<string>)
    ensures r.Some? ==> s.Some? && r.value != [] && r.value <= s.value && |r.value| <= n
    ensures n > 0 && s.Some? && s.value != [] ==> r.Some?
    ensures s.Some? && |s.value| <= n ==> r == Text.NonEmpty(s)
    ensures s.Some? && |s.value| > n ==> r == if n == 0 then None else Some(s.value[..n])
  {
    if s.None? then None else Text.NonEmpty(Some(Lists.Take(s.value, n)))
  }

  /** The preview of a page that could not be fetched or parsed: nothing but its URL. */
  function Bare(url: string): (p: LinkPreview)
    ensures p.url == url && p.title.None? && p.description.None?
    ensures p.imageUrl.None? && p.siteName.None? && p.faviconUrl.None?
  {
    LinkPreview(url, None, None, None, None, None)
  }

  /** `fetchMetadata`. `page` is None when the fetch fails, the status is not OK or the
      document cannot be read. The title is the Open Graph title or else the `<title>`
      text, the description the Open Graph or else the plain meta description, each
      clipped and null when empty. An image URL not starting with "http" is resolved
      against the page URL by `resolve`, which yields None when that fails. */
  function FetchMetadata(url: string, page: Option<PageMeta>, resolve: string -> Option<string>): (p: LinkPreview)
    ensures p.url == url
    ensures page.None? ==> p == Bare(url)
    ensures p.title.Some? ==> |p.title.value| <= MaxTitle && p.title.value != []
    ensures p.description.Some? ==> |p.description.value| <= MaxDescription && p.description.value != []
    ensures page.Some? ==> p.title == Clip(Or(page.value.ogTitle, page.value.titleTag), MaxTitle)
    ensures page.Some? ==> p.description == Clip(Or(page.value.ogDescription, page.value.metaDescription), MaxDescription)
    ensures page.Some? ==> p.siteName == Text.NonEmpty(page.value.ogSiteName) && p.faviconUrl == page.value.favicon
    ensures page.Some? ==>
      (var image := Text.NonEmpty(page.value.ogImage);
       p.imageUrl == if image.Some? && !Text.StartsWith(image.value, "http") then resolve(image.value) else image)
  {
    if page.None? then Bare(url)
    else
      var m := page.value;
      var image := Text.NonEmpty(m.ogImage);
      LinkPreview(
        url,
        Clip(Or(m.ogTitle, m.titleTag), MaxTitle),
        Clip(Or(m.ogDescription, m.metaDescription), MaxDescription),
        if image.Some? && !Text.StartsWith(image.value, "http") then resolve(image.value) else image,
        Text.NonEmpty(m.ogSiteName),
        m.favicon)
  }

  /** Every cached row is stored under its own URL. */
  predicate KeyedByUrl(cache: map<string, CachedPreview>) {
    forall k :: k in cache ==> cache[k].preview.url == k
  }

  /** Whether `url` has a cache row that has not expired: `expires_at > now`. */
  predicate Fresh(cache: map<string, CachedPreview>, url: string, now: Time) {
    url in cache && cache[url].expiresAt > now
  }

  /** `getLinkPreview`. A fresh cache row is returned as stored. Otherwise the page is
      fetched and upserted by URL with a 7-day expiry; when the upsert fails the fetched
      preview is returned anyway and nothing is stored. */
  method GetLinkPreview(
    db: Db, url: string, now: Time, page: Option<PageMeta>, resolve: string -> Option<string>, saveFailed: bool)
    returns (p: LinkPreview)
    requires KeyedByUrl(db.linkPreviews)
    modifies db`linkPreviews
    ensures KeyedByUrl(db.linkPreviews)
    ensures p.url == url
    ensures Fresh(old(db.linkPreviews), url, now) ==>
      p == old(db.linkPreviews)[url].preview && db.linkPreviews == old(db.linkPreviews)
    ensures !Fresh(old(db.linkPreviews), url, now) ==> p == FetchMetadata(url, page, resolve)
    ensures !Fresh(old(db.linkPreviews), url, now) && saveFailed ==> db.linkPreviews == old(db.linkPreviews)
    ensures !Fresh(old(db.linkPreviews), url, now) && !saveFailed ==>
      db.linkPreviews == old(db.linkPreviews)[url := CachedPreview(p, now, now + CacheLifetime)]
  {
    if Fresh(db.linkPreviews, url, now) {
      return db.linkPreviews[url].preview;
    }
    p := FetchMetadata(url, page, resolve);
    if !saveFailed {
      db.linkPreviews := db.linkPreviews[url := CachedPreview(p, now, now + CacheLifetime)];
    }
  }

  /** A preview just stored is served from the cache, without fetching, for 7 days. */
  method CachedForAWeek(
    db: Db, url: string, now: Time, later: Time, page: Option<PageMeta>, another: Option<PageMeta>,
    resolve: string -> Option<string>)
    returns (first: LinkPreview, second: LinkPreview)
    requires KeyedByUrl(db.linkPreviews) && !Fresh(db.linkPreviews, url, now)
    requires now <= later < now + CacheLifetime
    modifies db`linkPreviews
    ensures first == second == FetchMetadata(url, page, resolve)
  {
    first := GetLinkPreview(db, url, now, page, resolve, false);
    second := GetLinkPreview(db, url, later, another, resolve, false);
  }

  /** The URLs `getLinksFromMessage` looks up: the distinct matches, at most three, in
      order of first occurrence. */
  function PreviewUrls(matches: seq<string>): (urls: seq<string>)
    ensures |urls| <= 3 && Lists.NoDup(urls)
    ensures forall u :: u in urls ==> u in matches
    ensures |urls| < 3 ==> forall u :: u in matches ==> u in urls
    ensures matches == [] ==> urls == []
    ensures forall i, j :: 0 <= i < j < |urls| ==>
      urls[i] in matches && urls[j] in matches && Lists.FirstIndex(matches, urls[i]) < Lists.FirstIndex(matches, urls[j])
    ensures forall u, v :: u in matches && u !in urls && v in urls ==>
      v in matches && Lists.FirstIndex(matches, v) < Lists.FirstIndex(matches, u)
  {
    Lists.TakeDedupFirst(matches, 3);
    Lists.Take(Lists.Dedup(matches), 3)
  }

  /** What `getLinkPreview` answers for `url` against `cache`: the fresh cached row, or
      else the fetched metadata. */
  function Served(cache: map<string, CachedPreview>, url: string, now: Time, page: Option<PageMeta>, resolve: string -> Option<string>)
    : (p: LinkPreview)
    ensures p.url == url || Fresh(cache, url, now)
    ensures KeyedByUrl(cache) ==> p.url == url
  {
    if Fresh(cache, url, now) then cache[url].preview else FetchMetadata(url, page, resolve)
  }

  /** The cache after `getLinkPreview` ran for each of the distinct `urls` against
      `before`: a URL with a fresh row keeps it; any other URL gets its fetched preview
      with a 7-day expiry, unless its own upsert fails (it is in `saveFailed`); every other
      key is left alone. */
  ghost predicate StoredFetched(
    before: map<string, CachedPreview>, after: map<string, CachedPreview>, urls: seq<string>, now: Time,
    pages: string -> Option<PageMeta>, resolve: string -> Option<string>, saveFailed: set<string>)
  {
    && (forall key :: key in after <==> key in before || (key in urls && key !in saveFailed))
    && (forall key :: key in before && (key in saveFailed || key !in urls || Fresh(before, key, now)) ==>
          key in after && after[key] == before[key])
    && (forall key :: key in urls && key !in saveFailed && !Fresh(before, key, now) ==>
          key in after && after[key] == CachedPreview(FetchMetadata(key, pages(key), resolve), now, now + CacheLifetime))
  }

  /** One more lookup, for a URL not looked up before, extends `StoredFetched` by that URL
      and answers what it would have answered against the cache before all of them. */
  lemma StoredStep(
    before: map<string, CachedPreview>, mid: map<string, CachedPreview>, after: map<string, CachedPreview>,
    urls: seq<string>, i: nat, now: Time, pages: string -> Option<PageMeta>, resolve: string -> Option<string>,
    saveFailed: set<string>, p: LinkPreview)
    requires Lists.NoDup(urls) && i < |urls|
    requires StoredFetched(before, mid, urls[..i], now, pages, resolve, saveFailed)
    requires Fresh(mid, urls[i], now) ==> p == mid[urls[i]].preview && after == mid
    requires !Fresh(mid, urls[i], now) ==> p == FetchMetadata(urls[i], pages(urls[i]), resolve)
    requires !Fresh(mid, urls[i], now) && urls[i] in saveFailed ==> after == mid
    requires !Fresh(mid, urls[i], now) && urls[i] !in saveFailed ==>
      after == mid[urls[i] := CachedPreview(p, now, now + CacheLifetime)]
    ensures p == Served(before, urls[i], now, pages(urls[i]), resolve)
    ensures StoredFetched(before, after, urls[..i + 1], now, pages, resolve, saveFailed)
  {
    NotLookedUpYet(urls, i);
    UntouchedKey(before, mid, urls[..i], urls[i], now, pages, resolve, saveFailed);
    assert urls[..i + 1] == urls[..i] + [urls[i]];
    if Fresh(mid, urls[i], now) || urls[i] in saveFailed {
      StoredKept(before, mid, urls[..i], urls[i], now, pages, resolve, saveFailed);
    } else {
      StoredAdded(before, mid, urls[..i], urls[i], now, pages, resolve, saveFailed);
    }
  }

  lemma NotLookedUpYet(urls: seq<string>, i: nat)
    requires Lists.NoDup(urls) && i < |urls|
    ensures urls[i] !in urls[..i]
  {
    forall k | 0 <= k < i ensures urls[..i][k] != urls[i] {
      assert urls[..i][k] == urls[k];
    }
  }

  /** A URL not looked up yet still has its row from before. */
  lemma UntouchedKey(
    before: map<string, CachedPreview>, mid: map<string, CachedPreview>, done: seq<string>, u: string,
    now: Time, pages: string -> Option<PageMeta>, resolve: string -> Option<string>, saveFailed: set<string>)
    requires StoredFetched(before, mid, done, now, pages, resolve, saveFailed) && u !in done
    ensures u in mid <==> u in before
    ensures u in before ==> mid[u] == before[u]
    ensures Fresh(mid, u, now) <==> Fresh(before, u, now)
  {
  }

  /** A lookup that answers from the cache, or whose upsert fails, changes nothing. */
  lemma StoredKept(
    before: map<string, CachedPreview>, mid: map<string, CachedPreview>, done: seq<string>, u: string,
    now: Time, pages: string -> Option<PageMeta>, resolve: string -> Option<string>, saveFailed: set<string>)
    requires StoredFetched(before, mid, done, now, pages, resolve, saveFailed) && u !in done
    requires Fresh(before, u, now) || u in saveFailed
    ensures StoredFetched(before, mid, done + [u], now, pages, resolve, saveFailed)
  {
    assert forall key :: key in done + [u] <==> key in done || key == u;
  }

  /** A lookup that fetches and stores adds exactly its own row. */
  lemma StoredAdded(
    before: map<string, CachedPreview>, mid: map<string, CachedPreview>, done: seq<string>, u: string,
    now: Time, pages: string -> Option<PageMeta>, resolve: string -> Option<string>, saveFailed: set<string>)
    requires StoredFetched(before, mid, done, now, pages, resolve, saveFailed) && u !in done
    requires !Fresh(before, u, now) && u !in saveFailed
    ensures StoredFetched(
      before, mid[u := CachedPreview(FetchMetadata(u, pages(u), resolve), now, now + CacheLifetime)],
      done + [u], now, pages, resolve, saveFailed)
  {
    assert forall key :: key in done + [u] <==> key in done || key == u;
  }

  /** `getLinksFromMessage`. `matches` is what the message's URL pattern matched in
      content order (that pattern is not part of this model). The lookups run for the
      unique URLs; `pages(u)` is the fetch result for `u`. The URLs are distinct, so each
      lookup reads and writes only its own key and the order they run in does not matter.
      `getLinkPreview` never answers null, so the null filter drops nothing: there is one
      preview per URL. Each lookup upserts on its own; `saveFailed` holds the URLs whose
      upsert errs. */
  method GetLinksFromMessage(
    db: Db, matches: seq<string>, now: Time, pages: string -> Option<PageMeta>,
    resolve: string -> Option<string>, saveFailed: set<string>)
    returns (previews: seq<LinkPreview>)
    requires KeyedByUrl(db.linkPreviews)
    modifies db`linkPreviews
    ensures KeyedByUrl(db.linkPreviews)
    ensures |previews| == |PreviewUrls(matches)|
    ensures forall k :: 0 <= k < |previews| ==> previews[k].url == PreviewUrls(matches)[k]
    ensures forall k :: 0 <= k < |previews| ==>
      var u := PreviewUrls(matches)[k];
      previews[k] == Served(old(db.linkPreviews), u, now, pages(u), resolve)
    ensures StoredFetched(old(db.linkPreviews), db.linkPreviews, PreviewUrls(matches), now, pages, resolve, saveFailed)
    ensures matches == [] ==> previews == [] && db.linkPreviews == old(db.linkPreviews)
  {
    var urls := PreviewUrls(matches);
    previews := [];
    var i := 0;
    assert urls[..0] == [];
    while i < |urls|
      invariant 0 <= i <= |urls| && |previews| == i
      invariant KeyedByUrl(db.linkPreviews)
      invariant forall k :: 0 <= k < i ==> previews[k] == Served(old(db.linkPreviews), urls[k], now, pages(urls[k]), resolve)
      invariant StoredFetched(old(db.linkPreviews), db.linkPreviews, urls[..i], now, pages, resolve, saveFailed)
    {
      previews := LookUpNext(db, urls, i, previews, now, pages, resolve, saveFailed, old(db.linkPreviews));
      i := i + 1;
    }
    assert urls[..i] == urls;
    if matches == [] {
      StoredNothing(old(db.linkPreviews), db.linkPreviews, now, pages, resolve, saveFailed);
    }
  }

  /** The lookup of `urls[i]`, its answer appended to those for the URLs before it. */
  method LookUpNext(
    db: Db, urls: seq<string>, i: nat, previews: seq<LinkPreview>, now: Time, pages: string -> Option<PageMeta>,
    resolve: string -> Option<string>, saveFailed: set<string>, ghost before: map<string, CachedPreview>)
    returns (r: seq<LinkPreview>)
    requires Lists.NoDup(urls) && i < |urls| && |previews| == i
    requires KeyedByUrl(db.linkPreviews)
    requires forall k :: 0 <= k < i ==> previews[k] == Served(before, urls[k], now, pages(urls[k]), resolve)
    requires StoredFetched(before, db.linkPreviews, urls[..i], now, pages, resolve, saveFailed)
    modifies db`linkPreviews
    ensures KeyedByUrl(db.linkPreviews) && |r| == i + 1
    ensures forall k :: 0 <= k < i + 1 ==> r[k] == Served(before, urls[k], now, pages(urls[k]), resolve)
    ensures StoredFetched(before, db.linkPreviews, urls[..i + 1], now, pages, resolve, saveFailed)
  {
    ghost var mid := db.linkPreviews;
    var p := GetLinkPreview(db, urls[i], now, pages(urls[i]), resolve, urls[i] in saveFailed);
    StoredStep(before, mid, db.linkPreviews, urls, i, now, pages, resolve, saveFailed, p);
    r := previews + [p];
  }

  /** With no URL looked up the cache is as it was. */
  lemma StoredNothing(
    before: map<string, CachedPreview>, after: map<string, CachedPreview>, now: Time,
    pages: string -> Option<PageMeta>, resolve: string -> Option<string>, saveFailed: set<string>)
    requires StoredFetched(before, after, [], now, pages, resolve, saveFailed)
    ensures after == before
  {
  }

  /** The `message_links` rows for a message's preview URLs: one per URL, its position the
      URL's index. */
  function LinkRows(messageId: Id, urls: seq<string>): (rows: seq<MessageLink>)
    ensures |rows| == |urls|
    ensures forall k :: 0 <= k < |rows| ==> rows[k] == MessageLink(messageId, urls[k], k)
  {
    seq(|urls|, k requires 0 <= k < |urls| => MessageLink(messageId, urls[k], k))
  }

  /** The rows whose insert succeeds: those at a position not in `failed`. */
  function Inserted(failed: set<nat>): MessageLink -> bool {
    (row: MessageLink) => row.position !in failed
  }

  function UrlOf(p: LinkPreview): string { p.url }

  /** `saveLinkPreviewsForMessage`: the inserting loop. Nothing is written without
      previews. The error of each insert is not looked at: an insert that fails (its
      position is in `failed`) leaves its row out and the loop goes on. */
  method SaveLinkRows(db: Db, messageId: Id, previews: seq<LinkPreview>, failed: set<nat>)
    modifies db`messageLinks
    ensures db.messageLinks == old(db.messageLinks) + Lists.Filter(LinkRows(messageId, Lists.Map(previews, UrlOf)), Inserted(failed))
  {
    var all := LinkRows(messageId, Lists.Map(previews, UrlOf));
    if |previews| == 0 {
      assert all == [];
      return;
    }
    var i := 0;
    while i < |previews|
      invariant 0 <= i <= |previews|
      invariant db.messageLinks == old(db.messageLinks) + Lists.Filter(all[..i], Inserted(failed))
    {
      var row := MessageLink(messageId, previews[i].url, i);
      assert all[..i + 1] == all[..i] + [row];
      assert (all[..i] + [row])[..i] == all[..i];
      if i !in failed {
        db.messageLinks := db.messageLinks + [row];
      }
      i := i + 1;
    }
    assert all[..i] == all;
  }

  /** `saveLinkPreviewsForMessage`: look the links up, then record one row per preview
      whose insert succeeds. */
  method SaveLinkPreviewsForMessage(
    db: Db, messageId: Id, matches: seq<string>, now: Time, pages: string -> Option<PageMeta>,
    resolve: string -> Option<string>, saveFailed: set<string>, failed: set<nat>)
    requires KeyedByUrl(db.linkPreviews)
    modifies db`linkPreviews, db`messageLinks
    ensures KeyedByUrl(db.linkPreviews)
    ensures StoredFetched(old(db.linkPreviews), db.linkPreviews, PreviewUrls(matches), now, pages, resolve, saveFailed)
    ensures db.messageLinks == old(db.messageLinks) + Lists.Filter(LinkRows(messageId, PreviewUrls(matches)), Inserted(failed))
    ensures failed == {} ==> db.messageLinks == old(db.messageLinks) + LinkRows(messageId, PreviewUrls(matches))
  {
    var previews := GetLinksFromMessage(db, matches, now, pages, resolve, saveFailed);
    SaveLinkRows(db, messageId, previews, failed);
    assert Lists.Map(previews, UrlOf) == PreviewUrls(matches);
    if failed == {} {
      Lists.FilterKeepsAll(LinkRows(messageId, PreviewUrls(matches)), Inserted(failed));
    }
  }

  /** `getMessageLinkPreviews`: the previews the backend function lists, or none. */
  function GetMessageLinkPreviews(answer: Option<seq<LinkPreview>>): (r: seq<LinkPreview>)
    ensures answer.None? ==> r == []
    ensures answer.Some? ==> r == answer.value
  {
    answer.GetOr([])
  }
}
