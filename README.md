# Campfire, modelled in Dafny

Campfire is a chat application on a hosted backend. The backend stores the tables, delivers realtime events and authenticates users. This repository writes the rules around those services by hand, and those rules are what this project models and proves things about:

- **Server actions** (`app/actions/*.ts`) are methods over one `Schema.Db` object. It holds every backend table as a field: conversations, members, messages, reactions, read receipts, user status, thread subscriptions, reports, admins, bans, profiles, storage buckets, search history and link previews. Each `modifies` clause names exactly the tables the action writes. The signed-in user is an `Option<UserId>` (`None` when there are no claims). The clock is a `Time` parameter. Each backend failure the code handles is a boolean or `Option` parameter, so every error path the source takes is a case of the contract. Check-then-insert sequences are one atomic step.
- **Read queries** become functions over the tables, with their filter, order and limit: reactions grouped by emoji, conversation lists, recent searches, banned users and reports.
- **Validators and string helpers**: file and avatar checks, storage paths, the URL scanner, link de-duplication and truncation, the base64 codec behind `btoa`/`atob` and its URL-safe form, message previews, the "is typing" sentence and the `m:ss` duration.
- **Client components** with state become classes whose fields are the component's state, and whose methods are its handlers and the events it receives: presence timers, chat and sidebar lists, the composer, the message item, the dialogs, the forms, the toast queue and the voice recorder. Timers, browser events and server answers arrive as method calls and parameters. Pure render logic becomes functions.

Shared pieces live in their own modules. `Wrappers` holds `Option` and `Result`. `Lists` holds filtering, de-duplication and a stable descending sort, with their lemmas. `Text` holds trimming, splitting, padding and decimal numerals, with their lemmas. `Schema` holds the rows and the `Db` class.

## Model

| member | source | states |
|---|---|---|
| Reactions.AddReaction | app/actions/reactions.ts:9-47 | "Unauthorized" and no change without a user; a triple already present gives `success:false` and no change; a backend error is thrown and changes nothing; otherwise exactly the caller's triple is added |
| Reactions.RemoveReaction | app/actions/reactions.ts:52-83 | "Unauthorized" without a user; on success exactly the (message, caller, emoji) triple is gone and every other row is kept; an error changes nothing |
| Reactions.Toggled | app/actions/reactions.ts:181-187 | the toggled triple is present afterwards iff it was absent before; every other triple keeps its membership |
| Reactions.ToggleTwice | app/actions/reactions.ts:181-187 | toggling one triple twice gives back the original set |
| Reactions.ToggleReaction | app/actions/reactions.ts:155-188 | "Unauthorized" without a user; after a lookup that answered, success replies `Ok(true)` with the set being the toggle of the caller's triple; after a failed lookup the add path runs: the triple is added, or the duplicate reply `Ok(false)` comes back when it was there; a write error changes nothing |
| Reactions.ToggleTwiceRestores | app/actions/reactions.ts:155-188 | two successful toggles of the same emoji leave the reaction table as it was |
| Reactions.RowsOf | app/actions/reactions.ts:92-95 | the rows kept are exactly the table rows on that message |
| Reactions.EmojiIndex | app/actions/reactions.ts:104 | the `acc[emoji]` lookup among the groups built so far: an index holding that emoji, or -1 exactly when no group has it (inherited names never reach it: `Reduce` throws first) |
| Reactions.AddRowSummarises | app/actions/reactions.ts:103-113 | one step of the `reduce` keeps the summary exact for one more row |
| Reactions.AddRowSum | app/actions/reactions.ts:111 | one step of the `reduce` raises the total of the counts by exactly one |
| Reactions.AddRowCovers | app/actions/reactions.ts:104-110 | after one step every emoji that occurs in the rows still has a group |
| Reactions.AddRowGroups | app/actions/reactions.ts:104-112 | after one step each emoji has at most one group, and each group's `userIds` are exactly the users of that emoji, with `count` equal to their number and positive |
| Reactions.CountRow | app/actions/reactions.ts:103-113 | one step of the `reduce` as an update of the accumulator: a new emoji first gets a group with count 0 and no users at the end, then that emoji's group gains one in `count` and the row's user at the end of `userIds`; the result is exactly `AddRow`, the step that `AddRowSummarises` and `AddRowGroups` are proved about |
| Reactions.GroupedSummarises | app/actions/reactions.ts:102-119 | the whole `reduce` summarises its rows: one group per emoji that occurs, counts summing to the number of rows, `userIds` of length `count` |
| Reactions.Reduce | app/actions/reactions.ts:102-119 | the `reduce` throws exactly when some row's emoji is an inherited name of `{}`; otherwise its result is `Grouped` of the rows |
| Reactions.GetMessageReactions | app/actions/reactions.ts:89-123 | a query error is thrown; a row whose emoji is a name `{}` inherits from `Object.prototype` makes the call reject with the `push` TypeError, exactly then; otherwise the groups summarise the message's rows, are sorted by non-increasing count, and are a permutation of the `reduce` result |
| Reactions.SortedSummarises | app/actions/reactions.ts:122 | sorting by count keeps every summary property |
| Reactions.UserReactionsForMessage | app/actions/reactions.ts:128-150 | [] when unauthenticated or on a query error; otherwise an emoji is listed iff the caller's triple on that message exists |
| Reactions.EmojisBy | app/actions/reactions.ts:139-149 | an emoji is listed iff the table holds that (message, user, emoji) triple |
| Schema.MemberIds | app/actions/conversations.ts:30 | the member ids of a conversation are exactly the users with a member row for it |
| Schema.Dms | app/actions/conversations.ts:18-24 | the conversations listed are exactly those of type `dm` |
| Conversations.FirstPairDm | app/actions/conversations.ts:26-40 | the index found holds a conversation with exactly the two users as members, and no earlier conversation does; -1 iff none does |
| Conversations.FindPairDm | app/actions/conversations.ts:27-40 | the `for` loop with `break` finds nothing iff no listed DM has exactly the two members, and otherwise returns the id of the first such DM |
| Conversations.InsertDm | app/actions/conversations.ts:46-70 | a failed conversation insert is thrown and writes nothing; otherwise one new `dm` created by the caller is added; a failed membership insert is thrown and the conversation stays; otherwise the caller and the other user become its two members |
| Conversations.CreateOrGetDM | app/actions/conversations.ts:6-75 | "Unauthorized" and no writes without claims; the first existing pair DM in query order is returned with no writes; otherwise the insert outcomes above, with no rollback |
| Conversations.NoRowsNoMembers | app/actions/conversations.ts:30 | a conversation without member rows has no member ids |
| Conversations.NewDmMembers | app/actions/conversations.ts:61-66 | the new conversation's members are exactly the caller and the other user |
| Conversations.OldDmsUnchanged | app/actions/conversations.ts:61-66 | the new member rows do not change whether any older conversation is the pair's DM |
| Conversations.FirstPairDmSnoc | app/actions/conversations.ts:29-38 | when no listed DM matches and a matching one is appended, the search finds the appended one |
| Conversations.CreatedDmIsFound | app/actions/conversations.ts:28-66 | after a creation, the search of a second call finds exactly the conversation just created |
| Conversations.CreateOrGetDMTwice | app/actions/conversations.ts:6-75 | two successive calls for one pair, with a backend that does not fail, return the same id and create at most one conversation |
| Conversations.GetConversations | app/actions/conversations.ts:77-107 | "Unauthorized" without claims; a query error is thrown; otherwise a permutation of the conversations the caller is a member of (each as often as in the table), ordered by `updated_at` descending |
| Conversations.GetConversationsStable | app/actions/conversations.ts:96-100 | among conversations with equal `updated_at`, the result keeps table order (the model's choice for ties, which the query leaves open) |
| Messages.Touched | app/actions/messages.ts:40-43 | the list keeps its length; only the rows with that id get the new `updated_at`, every other row is unchanged |
| Messages.TouchedKeepsIds | app/actions/messages.ts:40-43 | touching keeps every id and changes `updated_at` only for the matching conversation |
| Messages.NewMessage | app/actions/messages.ts:26-31 | the sender is the caller; content and file URL are null iff absent or empty and are otherwise the values given; no parent, edit or delete time |
| Messages.SendMessage | app/actions/messages.ts:6-48 | "Unauthorized" and no change without claims; a failed insert is thrown before any update; otherwise exactly the new row is added and the conversation's `updated_at` is set, with no content or membership check |
| Messages.EditMessage | app/actions/messages.ts:50-72 | "Unauthorized" without claims; only the caller's own message with that id gets the new untrimmed content and an edit time; every other row is unchanged |
| Messages.DeleteMessage | app/actions/messages.ts:74-90 | "Unauthorized" without claims; only the caller's own row with that id is removed for good; every other row is unchanged |
| Messages.OthersUntouched | app/actions/messages.ts:66-87 | another sender's message is unchanged by the caller's edit and delete |
| Threads.NewReply | app/actions/threads.ts:90-96 | the reply is in the parent's conversation, points at the parent, has the caller as sender, and null content or file when these are empty or absent |
| Threads.SendThreadReply | app/actions/threads.ts:57-116 | "Unauthorized", then "Parent message not found", with no insert; an insert error is thrown; otherwise exactly the reply is added, and the conversation row is outside the frame, so `updated_at` is not touched |
| Threads.ThreadCount | app/actions/threads.ts:37-52 | 0 on an error or a null answer, otherwise the count answered |
| Threads.ThreadMessages | app/actions/threads.ts:8-32 | "Unauthorized" without a user; an error is rethrown; a null answer gives [] |
| Threads.SetThreadSubscription | app/actions/threads.ts:132-158 | the upsert keyed on (user, message): on success exactly that key gets the flag and nothing else changes; without a user or on an error nothing changes |
| Threads.SubscribeToThread | app/actions/threads.ts:121-141 | success writes `subscribed = true` for (caller, message) and nothing else; otherwise no change |
| Threads.UnsubscribeFromThread | app/actions/threads.ts:143-163 | success writes `subscribed = false` for (caller, message) and nothing else; otherwise no change |
| Threads.SubscribeThenUnsubscribe | app/actions/threads.ts:132-158 | subscribe followed by unsubscribe leaves the flag false, and no other key moves: the last call wins |
| ReadReceipts.UnreadCandidates | app/actions/read-receipts.ts:15-19 | the ids listed are exactly the messages of the conversation whose sender is not the caller |
| ReadReceipts.Upserted | app/actions/read-receipts.ts:28-39 | every listed message gets a receipt for the caller stamped now, overwriting an earlier one; the key set grows by exactly those pairs; every other receipt is kept |
| ReadReceipts.MarkMessagesAsRead | app/actions/read-receipts.ts:5-44 | "Unauthorized" and no change without claims; nothing is written when no message of another sender is found; a failed upsert is only logged; otherwise the upsert above |
| ReadReceipts.MarkedCoversOthersOnly | app/actions/read-receipts.ts:15-39 | afterwards every message of the others in the conversation has a receipt for the caller, and the caller's own messages gained none |
| ReadReceipts.ReadReceiptsFor | app/actions/read-receipts.ts:46-65 | [] on a query error; otherwise exactly the receipts of the listed messages |
| UserStatus.UpdateUserStatus | app/actions/user-status.ts:7-34 | returns silently with no write when unauthenticated; a failed upsert is rethrown with no change; otherwise the caller's single row is the new status with `last_seen` now, and every other user's row is unchanged |
| UserStatus.GetUserStatus | app/actions/user-status.ts:36-53 | "offline" with `last_seen` null on a lookup error or a missing row; otherwise the stored status and time |
| UserStatus.GetMultipleUserStatuses | app/actions/user-status.ts:55-69 | [] on an error; otherwise exactly the stored rows of the listed users |
| UserStatus.UpdateThenGet | app/actions/user-status.ts:17-53 | a status just written is read back with its time |
| Reports.NewReport | app/actions/reports.ts:55-112 | a new report names the caller and its target, starts "pending" and unresolved, and stores null for an empty or absent description |
| Reports.FileReport | app/actions/reports.ts:43-117 | a repeat by the same reporter about the same target is refused with no write; an insert error is thrown; otherwise exactly one new report is appended; at most one report per (reporter, target) is kept |
| Reports.ReportMessage | app/actions/reports.ts:9-69 | checks in order: "Unauthorized", "Message not found", "Cannot report your own message", "You have already reported this message", the insert error; each refusal writes nothing; success appends one pending report about the message |
| Reports.ReportUser | app/actions/reports.ts:71-120 | checks in order: "Unauthorized", "Cannot report yourself", "You have already reported this user", the insert error; the target's existence is not checked; success appends one pending report about the user |
| Reports.Resolution | app/actions/reports.ts:210-221 | the new status, with `resolved_by` always the caller; `resolved_at` is set to now only for "resolved" and "dismissed"; `admin_notes` change only when given non-empty; target, reporter, reason and description are kept |
| Reports.Resolve | app/actions/reports.ts:223-226 | the update by id: the rows with that id get the resolution, every other row is unchanged, and a missing id changes nothing |
| Reports.ResolveKeepsKeys | app/actions/reports.ts:223-226 | resolving keeps every row's id, reporter and target, hence the one-report-per-target invariant |
| Reports.AfterResolve | app/actions/reports.ts:210-226 | the table after the update keeps its ids below the id counter and the one-report-per-target invariant |
| Reports.UpdateReportStatus | app/actions/reports.ts:182-234 | "Unauthorized", then "Admin access required", with no write; an update error is thrown; otherwise the table is resolved as above; status transitions are not enforced |
| Reports.ReportPage | app/actions/reports.ts:148-170 | `min(limit, n)` reports, n being how many have the requested status, drawn from those without repeats (a sub-multiset), newest first; every report cut off is no newer than a kept one |
| Reports.GetReports | app/actions/reports.ts:122-180 | "Unauthorized", then "Admin access required"; a query error is thrown; otherwise the page above with `limit` defaulting to 50 |
| Admin.CheckIsAdmin | app/actions/admin.ts:6-22 | false without claims; otherwise true iff an `admin_users` row exists for the caller |
| Admin.GetAdminRole | app/actions/admin.ts:24-40 | the caller's role, or null without claims, without a row, or for an empty role |
| Admin.RoleImpliesAdmin | app/actions/admin.ts:6-40 | a caller with a role is an admin; an admin without a role has an empty role string |
| Admin.NewBan | app/actions/admin.ts:45-106 | the ban names the target and `banned_by` the caller; `permanent` is false unless given true; `expires_at` is null unless given |
| Admin.BanUser | app/actions/admin.ts:42-115 | checks in order: "Unauthorized", "Admin access required", "Cannot ban yourself", "Cannot ban admin users", "User is already banned", the insert error; each refusal writes nothing; success appends one ban; at most one ban row per user is kept; after a success the target is banned and not an admin (by `BanGuards`) |
| Admin.BanGuards | app/actions/admin.ts:73-106 | after a ban that passed the guards the target is banned and not an admin, and there is still at most one ban per user |
| Admin.Unbanned | app/actions/admin.ts:138-141 | the rows kept are exactly those of other users, so the target is no longer banned |
| Admin.UnbanIdempotent | app/actions/admin.ts:138-141 | unbanning twice equals unbanning once, and keeps at most one ban per user |
| Admin.UnbanUser | app/actions/admin.ts:117-150 | "Unauthorized", then "Admin access required", with no change; a delete error is thrown; otherwise every ban row of the target is removed, whether or not one existed |
| Admin.DeleteMessage | app/actions/admin.ts:152-184 | "Unauthorized", then "Admin access required"; otherwise the message row stays with `deleted_at` set to now, every other row is unchanged, and a missing id changes nothing |
| Admin.GetBannedUsers | app/actions/admin.ts:186-226 | "Unauthorized", then "Admin access required"; a query error is thrown; otherwise every ban row, newest `banned_at` first |
| BansPage.IsActive | app/admin/bans/page.tsx:62-63 | a permanent ban is active; a temporary ban without expiry is active; otherwise it is active iff `expires_at` is not before now |
| BansPage.Badge | app/admin/bans/page.tsx:72-76 | "Expired" iff the ban is temporary and its `expires_at` is before now, otherwise "Banned" |
| BansPage.ShowsExpiry | app/admin/bans/page.tsx:83-85 | the expiry line is shown iff `expires_at` is set and the ban is not permanent |
| BansPage.OffersUnban | app/admin/bans/page.tsx:107-119 | "Unban User" is offered iff the badge reads "Banned" |
| BansPage.ExpiryIsFinal | app/admin/bans/page.tsx:62-63 | a ban that is no longer active stays expired at every later time |
| BansPage.ShortId | app/admin/bans/page.tsx:71 | the shown id is a prefix of at most eight characters of the user id, followed by "..." |
| Files.Extension | app/actions/files.ts:44 | the extension is the text after the last "." of the name, without a ".", and the whole name when it has none |
| Files.StoragePathOwner | app/actions/files.ts:45 | the path gives back its owner before the first "/" (for an id without "/") |
| Files.StoragePathExtension | app/actions/files.ts:44-45 | the path gives back the file's extension after its last "." |
| Files.Refusal | app/actions/files.ts:23-41 | checks in order: "Unauthorized", "No file provided", "File size exceeds 10MB limit", "File type not allowed"; no refusal iff all four pass |
| Files.SizeAndTypeBoundary | app/actions/files.ts:5-41 | exactly 10·1024·1024 bytes is accepted and one byte more is refused; a type is accepted iff it is one of the seven listed |
| Files.UploadFile | app/actions/files.ts:16-80 | the first refusal is returned with no upload; an existing path is refused because of `upsert:false`; an upload error is returned; on success exactly the new path is stored and the answer echoes the file's name, type and size with the public URL |
| Profiles.Edited | app/actions/profile.ts:39-44 | the new username and `updated_at`; the display name is the one given, or the username when it is empty or absent; an absent bio keeps the old one; the avatar is kept |
| Profiles.UpdateProfile | app/actions/profile.ts:13-54 | "Unauthorized", then "Username already taken" when another profile holds the name (keeping one's own is allowed), then an update error, each with no write; success edits only the caller's row; usernames stay unique |
| Profiles.CheckUsername | app/actions/profile.ts:56-66 | available iff no profile has that username |
| Profiles.StoredNameIsTaken | app/actions/profile.ts:25-65 | once a caller stored a username it is no longer available, and it is taken for every other user |
| Profiles.AvatarRefusal | app/actions/profile.ts:79-92 | checks in order: "No file provided", "File must be an image" unless the type starts with "image/", "File size must be less than 5MB" above 5·1024·1024 bytes |
| Profiles.StoreAvatar | app/actions/profile.ts:95-124 | a failed upload writes nothing; otherwise the file is stored, overwriting; a failed profile update leaves the file; otherwise only the caller's `avatar_url` becomes the public URL |
| Profiles.UploadAvatar | app/actions/profile.ts:68-128 | "Unauthorized" and the avatar checks with no write; the path is `userId/timestamp.ext`; `avatar_url` changes only after a successful upload |
| Search.Run | app/actions/search.ts:23-74 | an error is returned as `{data: [], error}` and not thrown; a null answer gives no hits |
| Search.SearchMessages | app/actions/search.ts:8-38 | "Query too short" with no data when the trimmed query has fewer than 2 characters, before the auth check; then "Unauthorized"; otherwise the backend is called with the trimmed query and the limit, 50 by default |
| Search.SearchInConversation | app/actions/search.ts:43-75 | the same guards, then the conversation search with the trimmed query |
| Search.ShortQueryNeedsNothing | app/actions/search.ts:9-11 | the answer to a short query depends on neither the caller nor the backend |
| Search.SaveSearchHistory | app/actions/search.ts:80-94 | nothing is written without a user or on a failed insert; otherwise exactly one row with the trimmed query is appended |
| Search.RecentRows | app/actions/search.ts:110-115 | `min(limit, n)` of the user's n rows, drawn from them without repeats, newest first; every row left out is no newer than a kept one |
| Search.Queries | app/actions/search.ts:119 | the query of each row, in order |
| Search.GetRecentSearches | app/actions/search.ts:99-123 | [] without a user or on a failed query; otherwise no duplicates, at most `limit` (10 by default), exactly the queries of the newest rows, ordered by most recent use |
| Search.QueriesOfPage | app/actions/search.ts:119 | the queries of a page are exactly the queries of its rows |
| Search.NewestUseOrder | app/actions/search.ts:118-120 | after `Array.from(new Set(...))` on a newest-first page, each query comes before those last used no later than it |
| Search.ClearSearchHistory | app/actions/search.ts:128-147 | "Unauthorized" without a user; an error is thrown with no change; otherwise exactly the caller's rows are gone, other users' rows stay, and the caller has no recent searches |
| Search.NothingRecent | app/actions/search.ts:99-142 | a user without history rows has no recent searches |
| LinkPreviews.Or | app/actions/link-previews.ts:68-76 | `a \|\| b`: the first value when it is present and non-empty, otherwise the second |
| LinkPreviews.Clip | app/actions/link-previews.ts:91-92 | `substring(0, n) \|\| null`: a non-empty prefix of at most `n` characters, null only for an absent or empty value (or `n` = 0), the value itself when it is short enough, and exactly its first `n` characters when it is longer |
| LinkPreviews.Bare | app/actions/link-previews.ts:97-106 | the failure preview keeps the URL and has every other field null |
| LinkPreviews.FetchMetadata | app/actions/link-previews.ts:18-108 | a page that cannot be fetched or parsed gives the bare preview; otherwise the title (og:title, then `<title>`) is non-empty and at most 200 characters, the description (og:description, then description) at most 300, a relative og:image is resolved, and the site name and favicon are the page's |
| LinkPreviews.GetLinkPreview | app/actions/link-previews.ts:113-156 | an unexpired cache entry is returned with no fetch and no write; otherwise the fetched preview, stored under its URL with `expires_at` 7 days after `fetched_at`; a failed save still returns it and writes nothing; one entry per URL |
| LinkPreviews.CachedForAWeek | app/actions/link-previews.ts:117-143 | a preview just stored is served from the cache, unchanged, at any time within the following 7 days |
| LinkPreviews.Served | app/actions/link-previews.ts:113-156 | what `getLinkPreview` answers for a URL: the unexpired cached preview, or else the fetched metadata; a preview of that same URL whenever the cache is keyed by URL |
| LinkPreviews.PreviewUrls | app/actions/link-previews.ts:170-175 | [] for no match; otherwise the first 3 distinct matches: distinct URLs from the matches in the order of their first occurrence, at most 3, every match left out first occurring after each kept one, and all of them when there are fewer than 3 |
| LinkPreviews.GetLinksFromMessage | app/actions/link-previews.ts:161-181 | one preview per chosen URL, in order: the fresh cached row for it, or else the fetched metadata (`Served`); the cache afterwards is `StoredFetched`: each stale or missing URL holds its fetched preview for 7 days unless its own upsert fails (each URL's upsert succeeds or fails on its own), and every other key is kept; [] and no write when nothing matches |
| LinkPreviews.LinkRows | app/actions/link-previews.ts:199-207 | one row per URL, its position equal to its index and its URL the URL at that index |
| LinkPreviews.SaveLinkRows | app/actions/link-previews.ts:199-207 | the loop appends, in order, the rows of the previews' URLs whose insert did not fail; a failed insert is skipped and the loop goes on; nothing for no previews |
| LinkPreviews.SaveLinkPreviewsForMessage | app/actions/link-previews.ts:186-208 | the cache afterwards is `StoredFetched` for the chosen URLs, with each URL's upsert failing or not on its own; the earlier `message_links` rows are kept and the rows of the chosen URLs whose insert did not fail are appended, so with no failure one row per chosen URL, position equal to its index |
| LinkPreviews.GetMessageLinkPreviews | app/actions/link-previews.ts:213-223 | the previews the backend lists, or [] for a null answer |
| UrlExtraction.SchemeAt | app/actions/link-preview.ts:90 | `https?://` at a position, letter case ignored: 8 for "https://", 7 for "http://" only, 0 otherwise |
| UrlExtraction.RunEnd | app/actions/link-preview.ts:90 | `[^\s]+` taken greedily: the run holds no white space and stops at white space or the end of the text |
| UrlExtraction.Spans | app/actions/link-preview.ts:90-91 | every span found lies inside the text and is not empty |
| UrlExtraction.SpansAreMaximalMatches | app/actions/link-preview.ts:90 | every span starts with a scheme, has at least one character after it, and reaches to the end of its non-space run |
| UrlExtraction.SpansInOrder | app/actions/link-preview.ts:90-91 | the matches do not overlap and come in text order |
| UrlExtraction.SpansEmpty | app/actions/link-preview.ts:90-92 | the scan finds nothing iff the pattern matches at no position |
| UrlExtraction.ExtractUrls | app/actions/link-preview.ts:89-93 | one string per match, each the matched text, duplicates kept |
| UrlExtraction.ExtractedShape | app/actions/link-preview.ts:90 | every result starts with "http://" or "https://" in any letter case, has a character after "//", holds no white space, and is followed by white space or the end of the text |
| UrlExtraction.MatchShape | app/actions/link-preview.ts:90 | one match starts with its scheme and holds no white space |
| UrlExtraction.SchemeInMatch | app/actions/link-preview.ts:90 | the scheme found in the text is found again at the start of the match |
| UrlExtraction.NoMatchNoUrls | app/actions/link-preview.ts:91-92 | the result is [] iff the pattern matches nowhere |
| PresenceTracking.HeartbeatStatus | hooks/usePresence.ts:7-17 | "away" iff the idle time exceeds 300000 ms, "online" otherwise |
| PresenceTracking.HeartbeatBoundary | hooks/usePresence.ts:7-17 | exactly 300000 ms of idling reports "online", one millisecond more reports "away" |
| PresenceTracking.Tracker.constructor | hooks/usePresence.ts:10-12 | the activity clock starts now, no timer runs and nothing has been reported |
| PresenceTracking.Tracker.Mount | hooks/usePresence.ts:59-81 | reports "online", starts the 30000 ms heartbeat, attaches the listeners and arms the 300000 ms away timer |
| PresenceTracking.Tracker.Heartbeat | hooks/usePresence.ts:14-64 | a due heartbeat reports the heartbeat status of the idle time and waits another 30000 ms; otherwise nothing happens |
| PresenceTracking.Tracker.Activity | hooks/usePresence.ts:24-35 | while listening, activity is now and the away timer restarts from now; nothing is reported |
| PresenceTracking.Tracker.AwayTimer | hooks/usePresence.ts:32-81 | a due away timer reports "away" once |
| PresenceTracking.Tracker.VisibilityChange | hooks/usePresence.ts:37-47 | hidden reports "away" and keeps the activity time; shown sets activity to now, reports "online" and re-arms the away timer |
| PresenceTracking.Tracker.BeforeUnload | hooks/usePresence.ts:49-57 | leaving the page reports "offline" |
| PresenceTracking.Tracker.Unmount | hooks/usePresence.ts:84-101 | clears both timers, detaches the listeners and reports "offline" |
| PresenceTracking.ActivityKeepsOnline | hooks/usePresence.ts:16-25 | a heartbeat within 300000 ms of an activity reports "online" |
| PresenceGate.Provider.constructor | components/presence/PresenceProvider.tsx:11-22 | the provider starts unauthenticated and silent |
| PresenceGate.Provider.AuthChanged | components/presence/PresenceProvider.tsx:24-115 | the flag equals whether a session exists; becoming authenticated reports "online" and starts the heartbeat and away timer; losing the session runs the cleanup, which reports "offline" and stops the timers; an unchanged flag changes nothing |
| PresenceGate.Provider.Event | components/presence/PresenceProvider.tsx:39-75 | while authenticated, per event: activity moves the activity clock and the away timer to now; hidden reports away; shown reports online and restarts both; unload reports offline; a due heartbeat reports the status for the idle time and waits 30 s; a due away timer reports away once; a tick not due changes nothing. Unauthenticated, nothing is reported and no clock moves |
| PresenceGate.Provider.Unmount | components/presence/PresenceProvider.tsx:98-114 | the running machine, if any, reports "offline"; every timer stops |
| PresenceGate.SilentWhileSignedOut | components/presence/PresenceProvider.tsx:39 | without a session no sequence of events sends any presence update |
| Peers.Peer | components/chat/ChatView.tsx:39-41 | for a DM, the first member whose id is not the viewer's, and none when there is no such member; none for a group |
| Peers.Title | components/chat/ChatView.tsx:43-45 | with a peer, the peer's display name, else the username; without one, the conversation's title, else "Group Chat"; the sidebar row uses the same rule (components/sidebar/ConversationItem.tsx:38-44) |
| Peers.GroupTitleNotEmpty | components/chat/ChatView.tsx:43-45 | a conversation without a peer always has a title to show |
| Peers.PairDmPeer | components/chat/ChatView.tsx:39-41 | in a DM of the viewer and one other user, the peer is that user, whatever order the members come in |
| Peers.ViewerIsAdmin | components/chat/ChatView.tsx:52-55 | true iff the viewer's first membership row has the role "admin" |
| ChatScreen.HeaderAvatar | components/chat/ChatView.tsx:47-49 | the peer's avatar for a DM with a peer, none otherwise |
| ChatScreen.LoadQuery | components/chat/ChatView.tsx:74-88 | a permutation of the conversation's messages without `deleted_at`, ordered by `created_at` ascending |
| ChatScreen.LoadQueryStable | components/chat/ChatView.tsx:82-88 | among messages with equal `created_at`, the result keeps table order (the model's choice for ties) |
| ChatScreen.Updated | components/chat/ChatView.tsx:138-142 | UPDATE: the length and every id are kept; the messages with the payload's id become the payload, the others are unchanged |
| ChatScreen.UpdateIdempotent | components/chat/ChatView.tsx:138-142 | applying the same UPDATE twice equals applying it once |
| ChatScreen.Deleted | components/chat/ChatView.tsx:154-156 | DELETE: exactly the messages with other ids remain, each as often as before and in their order |
| ChatScreen.DeleteIdempotent | components/chat/ChatView.tsx:154-156 | deleting again changes nothing, and distinct ids stay distinct |
| ChatScreen.Typing | components/chat/ChatView.tsx:194-211 | an event from the viewer changes nothing; `isTyping` adds the user at the end only when absent; stopping removes exactly that user's entries, keeping every other entry as often as before and in its order |
| ChatScreen.TypingKeepsValid | components/chat/ChatView.tsx:198-210 | the typing list never holds the viewer and never holds a user twice |
| ChatScreen.StartThenStop | components/chat/ChatView.tsx:201-210 | a user who starts and then stops typing leaves the list as it was |
| ChatScreen.ChatView.constructor | components/chat/ChatView.tsx:32-35 | no messages, loading, nobody typing |
| ChatScreen.ChatView.Load | components/chat/ChatView.tsx:73-94 | the query's rows replace the list unless the query failed; loading ends either way |
| ChatScreen.ChatView.OnInsert | components/chat/ChatView.tsx:107-127 | INSERT appends the fetched message at the end, and only when the fetch returned it |
| ChatScreen.ChatView.OnUpdate | components/chat/ChatView.tsx:137-143 | the list becomes its UPDATE image |
| ChatScreen.ChatView.OnDelete | components/chat/ChatView.tsx:153-157 | the list becomes its DELETE image |
| ChatScreen.ChatView.OnReactionChange | components/chat/ChatView.tsx:177-181 | a reaction change keeps the same list |
| ChatScreen.ChatView.OnTyping | components/chat/ChatView.tsx:194-211 | the typing list becomes its typing image and stays valid |
| ConversationList.Newest | components/sidebar/ConversationList.tsx:112-116 | at most one message, none iff there are none, and it has the maximal `created_at` |
| ConversationList.HeadIsLatest | components/sidebar/ConversationList.tsx:113-116 | the head of a list sorted by `created_at` descending is a newest message |
| ConversationList.Shaped | components/sidebar/ConversationList.tsx:109-117 | `is_group` iff the type is "group"; the messages are cut to the newest one |
| ConversationList.Rows | components/sidebar/ConversationList.tsx:84-99 | a permutation of the rows of the listed conversations, ordered by `updated_at` descending |
| ConversationList.RowsStable | components/sidebar/ConversationList.tsx:94-99 | among rows with equal `updated_at`, the rows keep table order (the model's choice for ties) |
| ConversationList.Listing | components/sidebar/ConversationList.tsx:106-117 | one shaped entry per row, in order |
| ConversationList.ListingIsTheCallers | components/sidebar/ConversationList.tsx:65-117 | the list holds exactly the caller's conversations, each as often as in the table, newest activity first, each with at most one message |
| ConversationList.Sidebar.constructor | components/sidebar/ConversationList.tsx:62 | empty and loading |
| ConversationList.Sidebar.Load | components/sidebar/ConversationList.tsx:62-127 | no memberships gives an empty list; a failed query keeps the list and alerts; otherwise the listing; loading ends in every case |
| ConversationItem.Avatar | components/sidebar/ConversationItem.tsx:46-48 | the peer's avatar for a DM, the conversation's otherwise |
| ConversationItem.Preview | components/sidebar/ConversationItem.tsx:50-53 | "No messages yet" without a message or with empty content; otherwise the content when it has at most 50 characters, else its first 50 followed by "...", so at most 53 |
| ConversationItem.PreviewKeepsPrefix | components/sidebar/ConversationItem.tsx:51-52 | the line begins with the content's first 50 characters, and has 53 iff the content is longer than 50 |
| ConversationItem.YouPrefix | components/sidebar/ConversationItem.tsx:55-90 | "You: " iff a last message exists and the viewer sent it |
| MessageList.Render | components/chat/MessageList.tsx:34-67 | the spinner alone while loading; the placeholder for no messages; otherwise one item per message in input order, `isOwn` iff the viewer sent it, `isRead` iff the conversation is a DM and the message is own |
| MessageList.ReadOnlyOwnInDm | components/chat/MessageList.tsx:56-58 | no message of another sender, and no message of a group, is marked read |
| MessageItem.NothingToSave | components/chat/MessageItem.tsx:51-54 | nothing is sent iff the edit text is blank after trimming or equals the original content |
| MessageItem.Item.constructor | components/chat/MessageItem.tsx:44-48 | not editing, the buffer is the content or "", no dialog, not loading, no request made |
| MessageItem.Item.StartEdit | components/chat/MessageItem.tsx:147-162 | "Edit" exists only in the menu of an own message outside edit mode, and it enters edit mode |
| MessageItem.Item.Type | components/chat/MessageItem.tsx:106-113 | the edit box exists only in edit mode and sets the buffer |
| MessageItem.Item.Save | components/chat/MessageItem.tsx:50-65 | nothing to save just closes edit mode with no request; otherwise the untrimmed buffer is sent, edit mode closes only on success, and loading ends either way |
| MessageItem.Item.Cancel | components/chat/MessageItem.tsx:119-130 | Cancel closes edit mode and restores the buffer to the original content |
| MessageItem.Item.AskDelete | components/chat/MessageItem.tsx:163-169 | "Delete" exists only in the menu of an own message, and it opens the dialog |
| MessageItem.Item.ConfirmDelete | components/chat/MessageItem.tsx:67-77 | confirming sends one delete; the dialog closes only on success; loading ends |
| MessageItem.Item.CancelDelete | components/chat/MessageItem.tsx:204-213 | Cancel (the dialog's `onOpenChange(false)`) closes the confirmation and sends no delete |
| MessageItem.OthersCannotEdit | components/chat/MessageItem.tsx:147 | on another sender's message no event opens edit mode or the dialog, and no edit or delete is sent |
| TypingIndicator.DisplayText | components/chat/TypingIndicator.tsx:10-18 | nothing iff there are no names; "X is typing..." for one; "X and Y are typing..." for two; "X and N others are typing..." with N = n − 1 from three on |
| TypingIndicator.FirstNameLeads | components/chat/TypingIndicator.tsx:13-18 | the sentence always starts with the first name |
| TypingIndicator.OthersCounted | components/chat/TypingIndicator.tsx:18 | from three names on, the word after "X and " is the decimal count of everyone but the first |
| Composer.ComposerState.constructor | components/chat/Composer.tsx:14-15 | an empty box, not sending, nothing sent |
| Composer.ComposerState.Type | components/chat/Composer.tsx:44-51 | typing sets the box, which is disabled while sending |
| Composer.ComposerState.BeginSend | components/chat/Composer.tsx:17-25 | nothing is sent for blank content or while a send is in flight; otherwise the trimmed content is sent and sending starts |
| Composer.ComposerState.CompleteSend | components/chat/Composer.tsx:26-31 | the box is cleared only after a successful send and kept on failure; sending ends |
| Composer.ComposerState.KeyDown | components/chat/Composer.tsx:34-39 | Enter without Shift sends, under the same guard; Shift+Enter and other keys send nothing |
| Composer.NoDoubleSend | components/chat/Composer.tsx:18 | a second Enter while the first send is in flight sends nothing more |
| Composer.SentIsNotBlank | components/chat/Composer.tsx:18-24 | the text sent is never empty or blank |
| NewConversation.Toggled | components/chat/NewConversationModal.tsx:62-68 | a selected id is dropped (every other id stays), an unselected id is appended at the end |
| NewConversation.ToggleTwiceRestores | components/chat/NewConversationModal.tsx:62-68 | toggling an unselected id twice gives back exactly the original selection |
| NewConversation.ToggleTwiceSameIds | components/chat/NewConversationModal.tsx:62-68 | toggling any id twice leaves the same set of ids selected |
| NewConversation.ToggleKeepsNoDup | components/chat/NewConversationModal.tsx:62-68 | a selection without repeats stays without repeats |
| NewConversation.SearchResults | components/chat/NewConversationModal.tsx:34-59 | a blank or one-character query clears the results; a failed query keeps the previous ones; otherwise at most ten results, a prefix of the matches, and all of them when there are at most ten |
| NewConversation.ShortQuerySkipped | components/chat/NewConversationModal.tsx:36-39 | a one-character query is never sent |
| NewConversation.ExistingDm | components/chat/NewConversationModal.tsx:101-112 | some id exactly when a joined row is a `dm` not flagged as group, and then the first such row's conversation |
| NewConversation.ReusedIsSharedDm | components/chat/NewConversationModal.tsx:81-112 | a reused conversation exists, is of type `dm`, has `is_group` false, and both users are members of it |
| NewConversation.GroupFlaggedDmNotReused | components/chat/NewConversationModal.tsx:103-105 | a `dm` row with `is_group` set is not reused even when it is the only one the two users share |
| NewConversation.GroupMembers | components/chat/NewConversationModal.tsx:178-185 | one row more than the selection: the creator as admin first, then each selected id as member in selection order |
| NewConversation.GroupMembersBelong | components/chat/NewConversationModal.tsx:178-185 | every member row of a new group names that group |
| NewConversation.GroupMemberIds | components/chat/NewConversationModal.tsx:178-189 | after the insert the group's member list is the creator followed by the selection |
| NewConversation.NewDmIsPair | components/chat/NewConversationModal.tsx:117-136 | a new DM lists exactly the caller and the other user, as a pair DM of the two in the server's sense |
| NewConversation.LookupDm | components/chat/NewConversationModal.tsx:81-114 | the existing DM shared by the two users, or none when the lookup fails |
| NewConversation.OpenDm | components/chat/NewConversationModal.tsx:71-136 | no caller or a failed membership read refuses with no change; an existing DM is reused with no change; otherwise a `dm` row is inserted and, unless that fails, the caller as admin and the other user as member; a failed member insert leaves the conversation in place |
| NewConversation.OpenGroup | components/chat/NewConversationModal.tsx:157-191 | no caller or a failed insert refuses with no change; otherwise the group row with the typed title, then the member rows, whose failure leaves the group in place; a group is never a reuse |
| NewConversation.Modal.constructor | components/chat/NewConversationModal.tsx:23-30 | closed, on the DM tab, nothing searched, nothing selected |
| NewConversation.Modal.Search | components/chat/NewConversationModal.tsx:34-59 | the query is stored and the results become those of `SearchResults`; a sent query ends with searching off |
| NewConversation.Modal.ToggleUser | components/chat/NewConversationModal.tsx:62-68 | the selection becomes `Toggled` of the old one and keeps no repeats |
| NewConversation.Modal.SetGroupName | components/chat/NewConversationModal.tsx:30 | the group name is the typed text |
| NewConversation.Modal.SetTab | components/chat/NewConversationModal.tsx:224 | the active tab is the chosen one |
| NewConversation.Modal.SetOpen | components/chat/NewConversationModal.tsx:214 | the dialog is open or closed as asked |
| NewConversation.Modal.Reset | components/chat/NewConversationModal.tsx:205-211 | query, results, selection and group name cleared, DM tab active |
| NewConversation.Modal.Finish | components/chat/NewConversationModal.tsx:107-202 | a refusal alerts and changes nothing else; a reused DM is opened and the dialog closed with the form (query, results, selection, group name, tab) kept; a created conversation is opened, the dialog closed and the form reset; loading ends in each case |
| NewConversation.Modal.CreateDirectMessage | components/chat/NewConversationModal.tsx:71-148 | the database changes of `OpenDm`, then the screen's reaction: the "Failed to create conversation" alert with the dialog and form (query, results, selection, name, tab) kept, navigation to a reused DM with the dialog closed and the form kept, or navigation to a created one with the form reset; searching is untouched |
| NewConversation.Modal.CreateGroup | components/chat/NewConversationModal.tsx:151-203 | a blank name or empty selection alerts and sends nothing, leaving the dialog and form as they were; otherwise the database changes of `OpenGroup`, and the "Failed to create group" alert with the dialog and form kept, or navigation with the form reset; searching is untouched |
| NewConversation.CreatedGroupMembers | components/chat/NewConversationModal.tsx:151-196 | with a name and a selection and no failure, the new group's members are the creator then the selection, and the screen navigates to it |
| DmLookup.ConversationById | components/chat/NewConversationModal.tsx:96 | the row found has that id and comes from the table; none exactly when no row has that id |
| DmLookup.SharedRows | components/chat/NewConversationModal.tsx:92-99 | a joined row is exactly a membership row of the other user in a conversation the caller belongs to, paired with that conversation's row; rows of a missing conversation drop out of the inner join |
| DmLookup.MyConversationIds | components/chat/NewConversationModal.tsx:81-89 | an id is listed exactly when the caller is a member of that conversation |
| DmLookup.SharedRowsAreShared | components/chat/NewConversationModal.tsx:92-99 | every joined row is an existing conversation of both users |
| DmLookup.NoConversationsNoRows | components/chat/NewConversationModal.tsx:88 | with no conversation of the caller's the join is empty |
| DmLookup.SharedRowsAppend | components/chat/NewConversationModal.tsx:92-99 | the join of two slices of member rows is the join of each, in order |
| DmLookup.InsertConversation | components/chat/NewConversationModal.tsx:117-136 | the conversation row is appended and the next id advances; the member rows are appended unless their insert fails, and nothing is rolled back |
| UserCard.FirstSharedDm | components/search/UserCard.tsx:46-58 | some id exactly when a joined row's conversation is of type `dm`, and then the first such row's conversation, whatever its member count |
| UserCard.ReusedIsShared | components/search/UserCard.tsx:35-58 | a reused conversation exists, is of type `dm`, and both users are members of it |
| UserCard.CrowdedDmReused | components/search/UserCard.tsx:46-58 | a `dm` conversation with a third member is still reused |
| UserCard.DmMembers | components/search/UserCard.tsx:80-85 | every member row of a new DM names the new conversation and gives no role |
| UserCard.NewDmIsPair | components/search/UserCard.tsx:64-85 | a new DM lists exactly the two users, in order, and is a pair DM of them in the server's sense |
| UserCard.ResolveDm | components/search/UserCard.tsx:25-94 | no caller throws "Not authenticated" with no change; a shared `dm` is reused with no change; otherwise the `dm` row is inserted (or its error returned, with no change), then the two member rows (or their error returned, with the conversation left in place) |
| UserCard.Card.constructor | components/search/UserCard.tsx:21-23 | the card for the given user, not loading, with nothing done |
| UserCard.Card.Settle | components/search/UserCard.tsx:96-106 | a resolved id closes the card when it has a close handler and then navigates to the id; an error is logged and nothing else happens; loading ends |
| UserCard.Card.HandleMessage | components/search/UserCard.tsx:25-107 | the database changes of `ResolveDm`, followed by the effects of `Settle` |
| UserCard.SecondClickReuses | components/search/UserCard.tsx:25-107 | with nothing failing, a second click for the same pair resolves to the DM the first click created, and only one conversation is added |
| UserCard.OldRowsStillNoDm | components/search/UserCard.tsx:46-58 | after a creation, the membership rows that were there before still join to no `dm` |
| UserCard.NewRowsJoinNewDm | components/search/UserCard.tsx:46-85 | after a creation, the new member row of the other user joins to the new DM |
| UserCard.ReuseAfterCreate | components/search/UserCard.tsx:35-58 | after a creation, the lookup finds the new DM |
| UserCard.FirstDmInSecondPart | components/search/UserCard.tsx:56-58 | when only the later rows join to a `dm`, and all of them name `id`, the first shared DM is `id` |
| GroupDialog.Unchosen | components/groups/CreateGroupDialog.tsx:52-54 | a row is kept exactly when it was found and no chosen member has its id |
| GroupDialog.Removed | components/groups/CreateGroupDialog.tsx:74-76 | a member stays exactly when it was chosen and has another id, so no member with that id remains |
| GroupDialog.IdsOf | components/groups/CreateGroupDialog.tsx:90 | the chosen members' ids, one per member, in the order chosen |
| GroupDialog.Request | components/groups/CreateGroupDialog.tsx:78-91 | no request exactly when the title is blank or nobody is chosen; otherwise the trimmed title, which is not empty, and the chosen ids, of which there is at least one |
| GroupDialog.AddKeepsDisjoint | components/groups/CreateGroupDialog.tsx:68-72 | adding a shown result keeps every member chosen once and no chosen member among the results |
| GroupDialog.RemoveKeepsDisjoint | components/groups/CreateGroupDialog.tsx:74-76 | removing a member keeps that invariant |
| GroupDialog.AddThenRemove | components/groups/CreateGroupDialog.tsx:68-76 | removing a member just added gives back the selection as it was |
| GroupDialog.SearchKeepsDisjoint | components/groups/CreateGroupDialog.tsx:42-61 | the results of a fresh search contain no chosen member |
| GroupDialog.Dialog.constructor | components/groups/CreateGroupDialog.tsx:32-39 | closed, with no title, query, results or members |
| GroupDialog.Dialog.SetTitle | components/groups/CreateGroupDialog.tsx:33 | the title is the typed text |
| GroupDialog.Dialog.SetQuery | components/groups/CreateGroupDialog.tsx:34 | the query is the typed text |
| GroupDialog.Dialog.Search | components/groups/CreateGroupDialog.tsx:42-66 | a blank query clears the results; a failed search keeps them; otherwise the found rows that are not chosen; the invariant holds and searching ends |
| GroupDialog.Dialog.AddMember | components/groups/CreateGroupDialog.tsx:68-72 | the user is appended to the members, its rows leave the results, the query is cleared, and the invariant holds |
| GroupDialog.Dialog.RemoveMember | components/groups/CreateGroupDialog.tsx:74-76 | the members become `Removed` of the old ones and the invariant holds |
| GroupDialog.Dialog.Submit | components/groups/CreateGroupDialog.tsx:81-108 | the request is recorded and loading ends; a new id resets title, members and query, closes the dialog and navigates to the group; a failure alerts "Failed to create group" and keeps title, members, query and the open dialog; the search results are never touched |
| GroupDialog.Dialog.Create | components/groups/CreateGroupDialog.tsx:78-109 | without a request nothing changes (form, query, results, loading, dialog); otherwise `Request` of the form is sent and handled as in `Submit` |
| GroupInfo.CountLabel | components/groups/GroupInfo.tsx:89 | the label starts with the member count in decimal, followed by the 21 characters of " member in this group" for one member and the 22 characters of " members in this group" otherwise |
| GroupInfo.CountLabelSingular | components/groups/GroupInfo.tsx:89 | the singular form appears for one member and only then |
| GroupInfo.RowOf | components/groups/GroupInfo.tsx:95-139 | a row for the member: a remove button exactly when the viewer is admin and the row is not the viewer's; the admin badge exactly for an admin; the username with " (You)" on the viewer's own row; the display name as subtitle when it is not empty |
| GroupInfo.Render | components/groups/GroupInfo.tsx:85-155 | one row per member, in order; the count label; the leave button is always offered |
| GroupInfo.RemovableIff | components/groups/GroupInfo.tsx:96-130 | a row can be removed exactly when the viewer is admin and the row is not the viewer's; the viewer's own row never can; a viewer who is not admin sees no remove button |
| GroupInfo.BadgeIndependentOfViewer | components/groups/GroupInfo.tsx:117-121 | the admin badge of a row depends only on that member's role, whoever looks |
| ProfileCompletion.SentDisplayName | app/profile/complete/profile-completion-form.tsx:72 | the typed display name when it is not empty, the username otherwise |
| ProfileCompletion.Form.constructor | app/profile/complete/profile-completion-form.tsx:15-20 | every field empty, status idle, nothing sent |
| ProfileCompletion.Form.ChangeUsername | app/profile/complete/profile-completion-form.tsx:23-44 | the name is stored and the error cleared; an empty or short name is idle; a name with a character outside `[a-zA-Z0-9_]` is marked taken with the charset error; a well-formed name is checking and its check is sent; only well-formed names are ever checked |
| ProfileCompletion.Form.CheckReturnedAsWritten | app/profile/complete/profile-completion-form.tsx:46-55 | whatever name the reply is for: available on true, taken with "Username is already taken" on false, idle when the call throws |
| ProfileCompletion.Form.CheckReturned | app/profile/complete/profile-completion-form.tsx:46-55 | a reply for a name no longer in the field changes nothing; otherwise as the form handles it; an available status always goes with a well-formed name |
| ProfileCompletion.Form.SetDisplayName | app/profile/complete/profile-completion-form.tsx:16 | the display name is the typed text |
| ProfileCompletion.Form.SetBio | app/profile/complete/profile-completion-form.tsx:17 | the bio is the typed text |
| ProfileCompletion.Form.Submit | app/profile/complete/profile-completion-form.tsx:58-82 | unless the name is available: the "Please choose a valid and available username" error and no call; otherwise `updateProfile` with the display name defaulting to the username, then home on success or the call's error (or "Failed to update profile") on failure; usernames stay unique |
| ProfileCompletion.SentDisplayNameNotEmpty | app/profile/complete/profile-completion-form.tsx:61-72 | a well-formed username makes the display name sent non-empty |
| ProfileCompletion.StaleReplyAcceptsTakenName | app/profile/complete/profile-completion-form.tsx:23-82 | checking "abc" then "abd", with the reply for "abd" (taken) first and the one for "abc" (available) last, leaves "abd" the name and lets the submit call `updateProfile` |
| ProfileCompletion.StaleReplyDropped | app/profile/complete/profile-completion-form.tsx:23-82 | with stale replies dropped, the same sequence leaves "abd" taken, and the submit is refused with no call and no change to the profiles |
| ProfileSettings.OldKeyIsUploadedFile | components/settings/ProfileSettingsView.tsx:93-114 | for a public URL of the form `base/fileName`, the next save deletes exactly the file this save uploaded, whatever the base |
| ProfileSettings.AfterDelete | components/settings/ProfileSettingsView.tsx:97-102 | never adds a file; deletes nothing when there is no saved URL or its last segment is empty; otherwise deletes exactly that segment's file |
| ProfileSettings.DeleteOldAvatar | components/settings/ProfileSettingsView.tsx:97-102 | a failed remove leaves the stored avatars as they were, and its error is not read; otherwise they become `AfterDelete` of the old ones |
| ProfileSettings.ReplaceAvatar | components/settings/ProfileSettingsView.tsx:89-115 | with no file the saved URL stays and storage is untouched; otherwise the old avatar is removed first (unless that remove fails, which is not noticed), and then either the upload fails with an error or the new file is stored and its public URL returned |
| ProfileSettings.Saved | components/settings/ProfileSettingsView.tsx:118-124 | the written row has the given display name, bio and avatar URL, and keeps its username and timestamp |
| ProfileSettings.AvatarUrl | components/settings/ProfileSettingsView.tsx:89-114 | the new file's public URL when a file was chosen, the saved URL otherwise |
| ProfileSettings.Written | components/settings/ProfileSettingsView.tsx:118-125 | the same users; only the caller's row changes, to `Saved`; nothing is written when the caller has no row |
| ProfileSettings.SavedFieldsTrimmed | components/settings/ProfileSettingsView.tsx:121-122 | the display name and bio written have nothing left to trim |
| ProfileSettings.WriteProfile | components/settings/ProfileSettingsView.tsx:118-125 | the profiles become `Written` of the old ones |
| ProfileSettings.SettingsView.constructor | components/settings/ProfileSettingsView.tsx:50-65 | the fields start from the profile, with no file chosen, empty passwords and no message |
| ProfileSettings.SettingsView.SetDisplayName | components/settings/ProfileSettingsView.tsx:50 | the display name is the typed text |
| ProfileSettings.SettingsView.SetBio | components/settings/ProfileSettingsView.tsx:51 | the bio is the typed text |
| ProfileSettings.SettingsView.SetPasswords | components/settings/ProfileSettingsView.tsx:56-57 | the two password fields are the typed texts |
| ProfileSettings.SettingsView.ChooseAvatar | components/settings/ProfileSettingsView.tsx:67-81 | no file changes nothing; a file over 2 MiB is refused with "File size must be less than 2MB" and not selected; a file of at most 2 MiB, 2 MiB included, is selected |
| ProfileSettings.SettingsView.SaveProfile | components/settings/ProfileSettingsView.tsx:83-138 | a failed upload or a failed update shows "Failed to update profile", keeps the file, the profiles and the saved URL; otherwise "Profile updated successfully!", the file is cleared, the caller's row has the trimmed fields and the new URL, and the saved URL becomes it when the row exists; without a file storage is untouched; with a file the old avatar is removed (unless the remove fails) and the new one stored unless the upload fails, and these storage changes stay even when the row update fails; loading ends |
| ProfileSettings.SettingsView.ChangePassword | components/settings/ProfileSettingsView.tsx:140-173 | a password shorter than 6 refuses with its message and sends nothing; then a mismatch refuses likewise; otherwise the request is sent, and success clears both fields while failure keeps them; loading ends |
| ProfileSettings.SettingsView.DeleteAccount | components/settings/ProfileSettingsView.tsx:175-190 | without confirmation nothing happens; with it, only the "Account deletion is not yet implemented" alert, and loading ends |
| ProfileSettings.ShortMatchingPasswordRefused | components/settings/ProfileSettingsView.tsx:145-155 | two equal passwords of three characters are refused for their length and nothing is sent |
| PushKeys.ReplaceAll | components/notifications/NotificationManager.tsx:143 | same length; each character equal to the one replaced becomes the replacement and every other stays |
| PushKeys.Standard | components/notifications/NotificationManager.tsx:142-143 | padded to a multiple of four with fewer than four characters added, and no '-' or '_' left |
| PushKeys.UrlEncode | components/notifications/NotificationManager.tsx:141-150 | the URL-safe unpadded alphabet over the same sextets as the padded encoding, and as long as the unpadded encoding; this is the form the VAPID key is published in |
| PushKeys.StandardOfUrlEncode | components/notifications/NotificationManager.tsx:142-143 | the padding and the replacements turn the URL-safe form of any bytes into their ordinary padded encoding |
| PushKeys.UrlRoundTrip | components/notifications/NotificationManager.tsx:141-150 | a key in the URL-safe form decodes to exactly its bytes |
| PushKeys.UrlBase64ToUint8Array | components/notifications/NotificationManager.tsx:141-150 | a new array of the decoded bytes exactly when `atob` accepts the standard form; otherwise the error `atob` throws |
| Encryption.ArrayBufferToBase64 | lib/encryption.ts:213-220 | the padded base64 encoding of the buffer's bytes; the same helper in components/notifications/NotificationManager.tsx at lines 152-159 is the same loop |
| Encryption.Base64ToArrayBuffer | lib/encryption.ts:222-229 | a new array of the decoded bytes exactly when `atob` accepts the text; otherwise the error `atob` throws |
| Encryption.RoundTrip | lib/encryption.ts:213-229 | what one helper writes the other reads back as the same bytes |
| Base64.SextetChar | lib/encryption.ts:219 | the alphabet character of a 6-bit value is never the padding character |
| Base64.SextetValue | lib/encryption.ts:223 | a character with a value stands for that value in the alphabet |
| Base64.SextetCharValue | lib/encryption.ts:219-223 | every 6-bit value is read back from its character |
| Base64.Sextets | lib/encryption.ts:219 | values below 64, `⌈4n/3⌉` of them for `n` bytes |
| Base64.SextetsLength | lib/encryption.ts:219 | an encoding never has a length of the form 4k+1; its length modulo four follows the byte count modulo three |
| Base64.GroupRoundTrip | lib/encryption.ts:219-223 | three bytes are rebuilt from their four 6-bit groups |
| Base64.DecodeSextetsOfSextets | lib/encryption.ts:219-223 | decoding the groups of any bytes gives those bytes back |
| Base64.Chars | lib/encryption.ts:219 | one alphabet character per value |
| Base64.Padding | lib/encryption.ts:219 | fewer than four '=' that make the length a multiple of four, none when it already is |
| Base64.EncodeUnpadded | lib/encryption.ts:219 | `⌈4n/3⌉` characters for `n` bytes |
| Base64.Encode | lib/encryption.ts:219 | a length that is a multiple of four |
| Base64.EncodeLength | lib/encryption.ts:219 | `4·⌈n/3⌉` characters for `n` bytes |
| Base64.StripPadding | lib/encryption.ts:223 | a prefix of the text, at most two characters shorter |
| Base64.Values | lib/encryption.ts:223 | one value below 64 per character |
| Base64.Decode | lib/encryption.ts:223 | decodes exactly when, after the padding is dropped, the length is not of the form 4k+1 and every character is in the alphabet |
| Base64.StripPadded | lib/encryption.ts:219-223 | padding a text that does not end in '=' and then dropping the padding restores it |
| Base64.StripEncode | lib/encryption.ts:219-223 | `atob` drops exactly the padding `btoa` added |
| Base64.ValuesOfEncoding | lib/encryption.ts:219-223 | the characters of an encoding are in the alphabet and stand for its groups |
| Base64.DecodeEncode | lib/encryption.ts:219-223 | decoding the encoding of any bytes gives those bytes back |
| Base64.Binary | lib/encryption.ts:216-218 | one character per byte, whose code is the byte |
| Base64.Codes | lib/encryption.ts:225-227 | one byte per character of a binary string, equal to its code |
| Base64.CodesBinary | lib/encryption.ts:216-227 | bytes survive the trip through a binary string |
| Base64.BinaryCodes | lib/encryption.ts:216-227 | a binary string survives the trip through bytes |
| Base64.Btoa | lib/encryption.ts:219 | succeeds exactly on a binary string, and then gives the encoding of its codes |
| Base64.Atob | lib/encryption.ts:223 | succeeds exactly when `Decode` does, and then gives a binary string of the decoded bytes |
| Base64.BinaryString | lib/encryption.ts:214-218 | the loop builds `Binary` of the buffer's bytes |
| Base64.CharCodes | lib/encryption.ts:224-227 | a new array holding `Codes` of the binary string |
| Toasts.Entry | hooks/use-toast.ts:12-15 | the entry keeps the title and description, and its variant is the given one or `default` when none is given |
| Toasts.Dismissed | hooks/use-toast.ts:19 | the queue without its oldest entry; an empty queue stays empty |
| Toasts.DismissedTimesDrops | hooks/use-toast.ts:18-20 | `k` dismissals leave exactly the entries after the first `k` |
| Toasts.FirstInFirstOut | hooks/use-toast.ts:15-20 | once the timers of the toasts already shown have fired, exactly the later toasts remain, in the order raised |
| Toasts.ToastQueue.constructor | hooks/use-toast.ts:10 | an empty queue with no timer armed |
| Toasts.ToastQueue.Raise | hooks/use-toast.ts:12-21 | one entry appended at the end and one more timer armed; every armed timer has an entry to dismiss |
| Toasts.ToastQueue.Expire | hooks/use-toast.ts:18-20 | a timer fires and exactly the oldest entry goes |
| Toasts.TwoToastsOneExpiry | hooks/use-toast.ts:12-21 | after two toasts and the first timer only the second toast is left |
| VoiceRecording.TwoDigitSeconds | components/chat/VoiceRecorder.tsx:99-100 | the seconds field of a value below 60 is exactly two digits denoting it |
| VoiceRecording.FormatDurationReadsBack | components/chat/VoiceRecorder.tsx:97-101 | the text is the minutes, a ':', then two digits of seconds, and reading the two numbers back gives the duration |
| VoiceRecording.Recorder.constructor | components/chat/VoiceRecorder.tsx:14-19 | not recording, no clip, no recorder, duration zero |
| VoiceRecording.Recorder.Start | components/chat/VoiceRecorder.tsx:29-67 | without the microphone only the "Microphone access denied or not available" alert; otherwise recording with no chunks, duration zero and the timer running; no clip either way |
| VoiceRecording.Recorder.DataAvailable | components/chat/VoiceRecorder.tsx:40-44 | a chunk with data is appended, an empty one dropped |
| VoiceRecording.Recorder.Tick | components/chat/VoiceRecorder.tsx:59-61 | the duration grows by one second |
| VoiceRecording.Recorder.Stop | components/chat/VoiceRecorder.tsx:69-78 | with a recorder that is recording: recording stops, the timer is cleared and the recorder's stop event is due; otherwise nothing changes |
| VoiceRecording.Recorder.Cancel | components/chat/VoiceRecorder.tsx:80-87 | a recording in progress is stopped; the clip and the duration are cleared; the cancel callback runs once |
| VoiceRecording.Recorder.StoppedAsWritten | components/chat/VoiceRecorder.tsx:46-52 | the stop event builds the clip from the kept chunks, whether or not the recording was cancelled in between |
| VoiceRecording.Recorder.Stopped | components/chat/VoiceRecorder.tsx:46-87 | the stop event builds the clip from the chunks unless the recording was cancelled, in which case no clip comes back |
| VoiceRecording.Recorder.Send | components/chat/VoiceRecorder.tsx:89-95 | a clip is handed over once and cleared, with the duration reset; without a clip nothing happens |
| VoiceRecording.CancelledClipComesBack | components/chat/VoiceRecorder.tsx:46-87 | as written, cancelling a recording leaves a clip to send once the stop event arrives |
| VoiceRecording.CancelledClipStaysGone | components/chat/VoiceRecorder.tsx:46-87 | with the cancelled clip dropped, nothing is left to send |
| VoiceRecording.RecordAndSend | components/chat/VoiceRecorder.tsx:29-95 | recording a chunk with data and an empty one, then stopping and sending, hands over a clip of the chunk with data alone and resets the duration |

## Left out

- Row-level security on the backend is not modelled: every table is readable and writable as the code asks.
- RPCs whose SQL is not in the repository are parameters: the thread-message and thread-count functions, message search and the link-list function.
- `.single()` error semantics are not modelled. `Messages.EditMessage` with no matching row of the caller's gives `Ok(None)` rather than a thrown error. A `.single()` insert is taken to return its row.
- Realtime delivery is left out. This covers the change feeds and broadcasts in ChatView, ConversationList and StatusBadge. The handlers are modelled as methods; delivery, order and duplicates are not.
- ConversationList's reload triggers (components/sidebar/ConversationList.tsx:133-154) are not modelled. A reload is just another call of `ConversationList.Sidebar.Load`.
- The order of rows with equal sort keys is left open by `.order(...)` in PostgreSQL. The model fixes it as table order, and `Conversations.GetConversationsStable`, `ConversationList.RowsStable` and `ChatScreen.LoadQueryStable` state that choice.
- Concurrency is left out. Every check-then-insert sequence is one atomic step, so the races in toggling reactions, creating DMs, reporting and banning are not modelled.
- Web Crypto (RSA-OAEP and AES-GCM) and the IndexedDB key store in lib/encryption.ts are foreign calls and are left out. Only the base64 helpers are modelled.
- Base64.Decode: `btoa` writes the padded base64 of section 4 of RFC 4648, but `atob` decodes by the forgiving-base64 rules of the WHATWG Infra standard. `Base64.Decode` follows those rules for padding (optional) and leftover bits (dropped). It does not skip ASCII whitespace as `atob` does, so it rejects text containing whitespace.
- Logging is left out. The `console.log` and `console.error` calls (for example in components/groups/CreateGroupDialog.tsx:83-104) have no effect on state and are not modelled. The one exception is `UserCard.Card`: a caught error is its only effect there, so its `logged` field records the message.
- Network and browser APIs are left out: fetch, HTML parsing, `new URL`, MediaRecorder, the service worker, the push subscription and the fetch calls in NotificationManager. A fetched page's metadata and a recorder's events arrive as parameters and method calls.
- The link-preview URL regex (app/actions/link-previews.ts:166) is kept abstract. Its matches are a parameter of `LinkPreviews.GetLinksFromMessage`. The scanner of app/actions/link-preview.ts is modelled in full, as `UrlExtraction`.
- Timers, intervals and debounce are events: a method call when the timer fires. `Date.now` and ISO strings are a `nat` clock.
- `formatDistanceToNow` is left out, and so are the FileReader preview of an avatar and avatar initials.
- String lengths are counted in characters, not UTF-16 code units. This affects the 50-character preview, the title and description caps and the short id slice.
- `router.push` and `router.refresh` are recorded as navigation effects. The refresh itself is not modelled.
- components/chat/AudioPlayer.tsx uses floating-point times and volumes and is left out.
- Presentation-only files are not modelled. These are the landing, login and sign-up pages, the other routes, the navigation bar, the settings switches and theme, the profile view, the status badge, the emoji picker, the link card, the report button, the thread view and the search bars.
- `createGroup`, `removeGroupMember` and `leaveGroup` are imported from app/actions/conversations.ts by components/groups/CreateGroupDialog.tsx:17 and components/groups/GroupInfo.tsx:25, but the repository defines no such functions: that file exports only `createOrGetDM` and `getConversations`. There is nothing to model for them. `GroupDialog.Dialog.Create` takes `createGroup`'s answer as a parameter. The remove and leave buttons are modelled only as what `GroupInfo.Render` offers.
- Report status transitions are not enforced by `updateReportStatus`. No transition invariant is stated; `Reports.UpdateReportStatus` accepts any status.
- MessageItem's menu, "(edited)" and "Seen" visibility are plain predicates without contracts: `MenuShown`, `EditedShown` and `SeenShown`. The item's own methods honour the menu rule, as `MessageItem.OthersCannotEdit` shows.
- VoiceRecording.Recorder.Start: the model has one recorder at a time, so a new recording clears `stopPending`. In the source the previous recorder's `onstop` can still fire after the restart, and the model does not capture that event.
- VoiceRecording.Recorder: the `discard` flag is not in the component. It exists only in the corrected `Stopped` handler of the second finding.
- Toasts.ToastQueue: the `armed` counter stands for the pending timers, one per toast.
- NewConversation.SearchResults: the `ilike` filter of the profile search is a parameter, `matches`. The contract states the guard, the limit of ten and the prefix, but not which profiles match.
- Search.SearchMessages and Search.SearchInConversation: the search RPCs are parameters. The contracts state the guards, the trimming and the error path, but not the ranking.

## Findings

| source | as written | input that shows it | evidently intended | confidence | as-written member | corrected member |
|---|---|---|---|---|---|---|
| app/profile/complete/profile-completion-form.tsx:44-55 | the reply to a username check sets the status whatever name is now in the field | type "abc" and then "abd" (a check is sent for each; both have the minimum length of 3); "abd" is taken, and its reply `false` arrives before the reply `true` for "abc"; the last reply wins, so "abd" is shown as available and the submit calls `updateProfile` with it | a reply for a name no longer in the field is dropped | not executed | ProfileCompletion.Form.CheckReturnedAsWritten (scenario `ProfileCompletion.StaleReplyAcceptsTakenName`) | ProfileCompletion.Form.CheckReturned (scenario `ProfileCompletion.StaleReplyDropped`) |
| components/chat/VoiceRecorder.tsx:46-52,80-87 | cancelling a recording clears the clip, but the recorder's `stop` event fires afterwards and sets the clip again | start a recording, then cancel it; the `stop` event builds a clip from the chunks and the send and cancel buttons reappear | a cancelled recording leaves no clip | not executed | VoiceRecording.Recorder.StoppedAsWritten (scenario `VoiceRecording.CancelledClipComesBack`) | VoiceRecording.Recorder.Stopped (scenario `VoiceRecording.CancelledClipStaysGone`) |
