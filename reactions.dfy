/** Emoji reactions on messages: adding, removing and toggling a (message, user, emoji)
    triple, and the per-emoji summary shown under a message. */
module Reactions {
  import opened Wrappers
  import opened Schema
  import Lists

  /** `addReaction` adds the caller's triple. A unique-key violation (the triple is already
      there) is answered with `success: false`; any other backend error, `failure`, is
      thrown. The triple check comes first because the backend reports the violation. */
  method AddReaction(db: Db, user: Option<UserId>, messageId: Id, emoji: string, failure: Option<string>)
    returns (r: Result<bool>)
    modifies db`reactions
    ensures user.None? ==> r == Err("Unauthorized") && db.reactions == old(db.reactions)
    ensures user.Some? && Reaction(messageId, user.value, emoji) in old(db.reactions) ==>
      r == Ok(false) && db.reactions == old(db.reactions)
    ensures user.Some? && Reaction(messageId, user.value, emoji) !in old(db.reactions) ==>
      if failure.Some? then r == Err(failure.value) && db.reactions == old(db.reactions)
      else r == Ok(true) && db.reactions == old(db.reactions) + {Reaction(messageId, user.value, emoji)}
  {
    if user.None? {
      return Err("Unauthorized");
    }
    var row := Reaction(messageId, user.value, emoji);
    if row in db.reactions {
      return Ok(false);
    }
    if failure.Some? {
      return Err(failure.value);
    }
    db.reactions := db.reactions + {row};
    r := Ok(true);
  }

  /** `removeReaction` deletes the row matching all three columns, if there is one. */
  method RemoveReaction(db: Db, user: Option<UserId>, messageId: Id, emoji: string, failure: Option<string>)
    returns (r: Outcome)
    modifies db`reactions
    ensures user.None? || failure.Some? ==> db.reactions == old(db.reactions)
    ensures user.None? ==> r == Failed("Unauthorized")
    ensures user.Some? && failure.Some? ==> r == Failed(failure.value)
    ensures user.Some? && failure.None? ==>
      r == Done && db.reactions == old(db.reactions) - {Reaction(messageId, user.value, emoji)}
  {
    if user.None? {
      return Failed("Unauthorized");
    }
    if failure.Some? {
      return Failed(failure.value);
    }
    db.reactions := db.reactions - {Reaction(messageId, user.value, emoji)};
    r := Done;
  }

  /** The reaction set after a toggle of `row`. */
  function Toggled(rows: set<Reaction>, row: Reaction): (r: set<Reaction>)
    ensures row in r <==> row !in rows
    ensures forall other :: other != row ==> (other in r <==> other in rows)
  {
    if row in rows then rows - {row} else rows + {row}
  }

  /** Toggling the same triple twice restores the reaction set. */
  lemma ToggleTwice(rows: set<Reaction>, row: Reaction)
    ensures Toggled(Toggled(rows, row), row) == rows
  {
  }

  /** `toggleReaction` removes the caller's triple when the lookup finds it and adds it
      otherwise, answering with the reply of the write it ran: `Ok(true)` for
      `success: true`, `Ok(false)` for the duplicate reply of `addReaction`, `Err` for the
      error thrown. `failure` is the error of that write. The lookup's own error is not
      read: `lookupFailed` is a lookup that came back without data, which sends the call
      down the add path whatever the table holds. */
  method ToggleReaction(
    db: Db, user: Option<UserId>, messageId: Id, emoji: string, lookupFailed: bool, failure: Option<string>)
    returns (r: Result<bool>)
    modifies db`reactions
    ensures user.None? ==> r == Err("Unauthorized")
    ensures user.None? || failure.Some? ==> db.reactions == old(db.reactions)
    ensures user.Some? && failure.Some? && (!lookupFailed || Reaction(messageId, user.value, emoji) !in old(db.reactions)) ==>
      r == Err(failure.value)
    ensures user.Some? && failure.None? && !lookupFailed ==>
      r == Ok(true) && db.reactions == Toggled(old(db.reactions), Reaction(messageId, user.value, emoji))
    ensures user.Some? && lookupFailed && Reaction(messageId, user.value, emoji) in old(db.reactions) ==>
      r == Ok(false) && db.reactions == old(db.reactions)
    ensures user.Some? && lookupFailed && failure.None? ==>
      db.reactions == old(db.reactions) + {Reaction(messageId, user.value, emoji)}
  {
    if user.None? {
      return Err("Unauthorized");
    }
    var existing := !lookupFailed && Reaction(messageId, user.value, emoji) in db.reactions;
    if existing {
      var removed := RemoveReaction(db, user, messageId, emoji, failure);
      r := if removed.Done? then Ok(true) else Err(removed.error);
    } else {
      r := AddReaction(db, user, messageId, emoji, failure);
    }
  }

  /** Two successful toggles of one emoji leave the reactions as they were. */
  method ToggleTwiceRestores(db: Db, user: UserId, messageId: Id, emoji: string)
    modifies db`reactions
    ensures db.reactions == old(db.reactions)
  {
    var first := ToggleReaction(db, Some(user), messageId, emoji, false, None);
    var second := ToggleReaction(db, Some(user), messageId, emoji, false, None);
    ToggleTwice(old(db.reactions), Reaction(messageId, user, emoji));
  }

  /** One entry of the summary: an emoji, how many reacted with it, and who. */
  datatype ReactionGroup = ReactionGroup(emoji: string, count: nat, userIds: seq<UserId>)

  function Count(g: ReactionGroup): int { g.count }
  function EmojiOf(g: ReactionGroup): string { g.emoji }

  /** The query `message_reactions where message_id = m`, in table order. */
  function RowsOf(table: seq<Reaction>, m: Id): (rows: seq<Reaction>)
    ensures forall r :: r in rows <==> r in table && r.message == m
  {
    if table == [] then []
    else RowsOf(table[..|table| - 1], m) + (if table[|table| - 1].message == m then [table[|table| - 1]] else [])
  }

  /** The users who reacted with `e` among `rows`, in row order. */
  function UsersWith(rows: seq<Reaction>, e: string): seq<UserId> {
    if rows == [] then []
    else UsersWith(rows[..|rows| - 1], e) + (if rows[|rows| - 1].emoji == e then [rows[|rows| - 1].user] else [])
  }

  /** The position of the group for `e` in the accumulator, or -1: the `acc[emoji]` lookup
      of an emoji that is not a name the accumulator inherits (see `Reduce`). */
  function EmojiIndex(groups: seq<ReactionGroup>, e: string): (k: int)
    ensures -1 <= k < |groups|
    ensures k >= 0 ==> groups[k].emoji == e
    ensures k < 0 ==> forall i :: 0 <= i < |groups| ==> groups[i].emoji != e
  {
    if groups == [] then -1
    else if groups[|groups| - 1].emoji == e then |groups| - 1
    else EmojiIndex(groups[..|groups| - 1], e)
  }

  /** One step of the `reduce`: count the row under its emoji, creating the group at the end
      of the accumulator when the emoji is new. */
  function AddRow(groups: seq<ReactionGroup>, row: Reaction): seq<ReactionGroup> {
    var k := EmojiIndex(groups, row.emoji);
    if k < 0 then groups + [ReactionGroup(row.emoji, 1, [row.user])]
    else groups[k := ReactionGroup(row.emoji, groups[k].count + 1, groups[k].userIds + [row.user])]
  }

  /** The accumulator after the `reduce` over `rows`: groups in first-appearance order of
      their emoji, as `Object.values` lists them. */
  function Grouped(rows: seq<Reaction>): seq<ReactionGroup> {
    if rows == [] then [] else AddRow(Grouped(rows[..|rows| - 1]), rows[|rows| - 1])
  }

  /** What the summary promises about `rows`: each emoji once, each group holding exactly
      the users who reacted with its emoji (so its count is their number), every emoji of
      `rows` present, and the counts adding up to the number of rows. */
  ghost predicate Summarises(groups: seq<ReactionGroup>, rows: seq<Reaction>) {
    && Lists.DistinctBy(groups, EmojiOf)
    && (forall i :: 0 <= i < |groups| ==>
          groups[i].userIds == UsersWith(rows, groups[i].emoji)
          && groups[i].count == |groups[i].userIds| && groups[i].count > 0)
    && (forall e :: UsersWith(rows, e) != [] ==> EmojiIndex(groups, e) >= 0)
    && Lists.SumOf(groups, Count) == |rows|
  }

  lemma {:induction false} SumCountsSnoc(groups: seq<ReactionGroup>, g: ReactionGroup)
    ensures Lists.SumOf(groups + [g], Count) == Lists.SumOf(groups, Count) + g.count
  {
    if groups != [] {
      SumCountsSnoc(groups[1..], g);
      assert (groups + [g])[1..] == groups[1..] + [g];
    }
  }

  lemma {:induction false} SumCountsUpdate(groups: seq<ReactionGroup>, k: nat, g: ReactionGroup)
    requires k < |groups|
    ensures Lists.SumOf(groups[k := g], Count) == Lists.SumOf(groups, Count) - groups[k].count + g.count
  {
    if k > 0 {
      SumCountsUpdate(groups[1..], k - 1, g);
      assert groups[k := g][1..] == groups[1..][k - 1 := g];
    }
  }

  lemma UsersWithSnoc(rows: seq<Reaction>, row: Reaction, e: string)
    ensures UsersWith(rows + [row], e) == UsersWith(rows, e) + (if row.emoji == e then [row.user] else [])
  {
    assert (rows + [row])[..|rows|] == rows;
  }

  /** Counting one more row keeps the summary exact. */
  lemma AddRowSummarises(groups: seq<ReactionGroup>, rows: seq<Reaction>, row: Reaction)
    requires Summarises(groups, rows)
    ensures Summarises(AddRow(groups, row), rows + [row])
  {
    AddRowGroups(groups, rows, row);
    AddRowCovers(groups, rows, row);
    AddRowSum(groups, row);
  }

  /** One more row adds one to the total count. */
  lemma AddRowSum(groups: seq<ReactionGroup>, row: Reaction)
    ensures Lists.SumOf(AddRow(groups, row), Count) == Lists.SumOf(groups, Count) + 1
  {
    var k := EmojiIndex(groups, row.emoji);
    if k < 0 {
      SumCountsSnoc(groups, ReactionGroup(row.emoji, 1, [row.user]));
    } else {
      SumCountsUpdate(groups, k, AddRow(groups, row)[k]);
    }
  }

  /** Every emoji of the rows, the new one included, still has its group. */
  lemma AddRowCovers(groups: seq<ReactionGroup>, rows: seq<Reaction>, row: Reaction)
    requires forall e :: UsersWith(rows, e) != [] ==> EmojiIndex(groups, e) >= 0
    ensures forall e :: UsersWith(rows + [row], e) != [] ==> EmojiIndex(AddRow(groups, row), e) >= 0
  {
    var k := EmojiIndex(groups, row.emoji);
    var g := AddRow(groups, row);
    forall e | UsersWith(rows + [row], e) != [] ensures EmojiIndex(g, e) >= 0 {
      UsersWithSnoc(rows, row, e);
      if e == row.emoji {
        assert g[if k < 0 then |groups| else k].emoji == e;
      } else {
        assert g[EmojiIndex(groups, e)].emoji == e;
      }
    }
  }

  /** The groups after one more row: still one per emoji, each exact. */
  lemma AddRowGroups(groups: seq<ReactionGroup>, rows: seq<Reaction>, row: Reaction)
    requires Summarises(groups, rows)
    ensures Lists.DistinctBy(AddRow(groups, row), EmojiOf)
    ensures forall i :: 0 <= i < |AddRow(groups, row)| ==>
      AddRow(groups, row)[i].userIds == UsersWith(rows + [row], AddRow(groups, row)[i].emoji)
      && AddRow(groups, row)[i].count == |AddRow(groups, row)[i].userIds| && AddRow(groups, row)[i].count > 0
  {
    var g := AddRow(groups, row);
    var k := EmojiIndex(groups, row.emoji);
    forall i | 0 <= i < |g|
      ensures g[i].userIds == UsersWith(rows + [row], g[i].emoji) && g[i].count == |g[i].userIds| > 0
    {
      UsersWithSnoc(rows, row, g[i].emoji);
      if k < 0 && i == |groups| {
        assert UsersWith(rows, row.emoji) == [];
      }
    }
  }

  /** The `reduce` summarises its rows. */
  lemma {:induction false} GroupedSummarises(rows: seq<Reaction>)
    ensures Summarises(Grouped(rows), rows)
  {
    if rows != [] {
      GroupedSummarises(rows[..|rows| - 1]);
      GroupedStep(rows);
    }
  }

  /** One step of the `reduce` keeps the summary exact. */
  lemma GroupedStep(rows: seq<Reaction>)
    requires rows != [] && Summarises(Grouped(rows[..|rows| - 1]), rows[..|rows| - 1])
    ensures Summarises(Grouped(rows), rows)
  {
    var init, last := rows[..|rows| - 1], rows[|rows| - 1];
    AddRowSummarises(Grouped(init), init, last);
    SplitLast(rows);
    SummarisesSame(AddRow(Grouped(init), last), init + [last], Grouped(rows), rows);
  }

  lemma SplitLast(rows: seq<Reaction>)
    requires rows != []
    ensures rows[..|rows| - 1] + [rows[|rows| - 1]] == rows
  {
  }

  lemma SummarisesSame(g: seq<ReactionGroup>, r: seq<Reaction>, g': seq<ReactionGroup>, r': seq<Reaction>)
    requires g == g' && r == r' && Summarises(g, r)
    ensures Summarises(g', r')
  {
  }

  /** The body of the `reduce`: a new emoji gets a zero group at the end, then the
      emoji's group counts the row and lists its user. */
  method CountRow(acc: seq<ReactionGroup>, row: Reaction) returns (r: seq<ReactionGroup>)
    ensures r == AddRow(acc, row)
  {
    r := acc;
    var k := EmojiIndex(r, row.emoji);
    if k < 0 {
      r := r + [ReactionGroup(row.emoji, 0, [])];
      k := |r| - 1;
    }
    r := r[k := ReactionGroup(row.emoji, r[k].count + 1, r[k].userIds + [row.user])];
    assert k == |acc| ==> r[k].userIds == [row.user];
  }

  /** The names an empty object literal inherits from `Object.prototype`. For such an
      emoji `acc[emoji]` is a function or the prototype itself, never a group. */
  const InheritedKeys: set<string> := {
    "constructor", "__proto__", "hasOwnProperty", "isPrototypeOf", "propertyIsEnumerable",
    "toLocaleString", "toString", "valueOf", "__defineGetter__", "__defineSetter__",
    "__lookupGetter__", "__lookupSetter__"}

  /** The `TypeError` thrown by `acc[emoji].userIds.push` when `acc[emoji]` is an inherited
      member, which has no `userIds` (as the V8 engine words it). */
  const PushOfUndefined := "Cannot read properties of undefined (reading 'push')"

  /** `getMessageReactions`: the rows of `table` on `messageId`, grouped by emoji by the
      `reduce`, then sorted by count with the largest first. `failure` is a query error,
      which is thrown. The accumulator is a `{}`: a row whose emoji is an inherited name
      finds that member truthy, skips the group creation and makes the `push` throw, so
      the call rejects. */
  method GetMessageReactions(table: seq<Reaction>, messageId: Id, failure: Option<string>)
    returns (r: Result<seq<ReactionGroup>>)
    ensures r.Err? <==> failure.Some? || exists row :: row in RowsOf(table, messageId) && row.emoji in InheritedKeys
    ensures failure.Some? ==> r.error == failure.value
    ensures failure.None? && r.Err? ==> r.error == PushOfUndefined
    ensures r.Ok? ==> Summarises(r.value, RowsOf(table, messageId))
    ensures r.Ok? ==> Lists.SortedDesc(r.value, Count)
    ensures r.Ok? ==> multiset(r.value) == multiset(Grouped(RowsOf(table, messageId)))
  {
    if failure.Some? {
      return Err(failure.value);
    }
    var rows := RowsOf(table, messageId);
    var acc := Reduce(rows);
    if acc.None? {
      return Err(PushOfUndefined);
    }
    GroupedSummarises(rows);
    var sorted := Lists.SortDesc(acc.value, Count);
    SortedSummarises(acc.value, rows);
    r := Ok(sorted);
  }

  /** The `reduce` over `rows`: the groups, or none when it throws at a row whose emoji is
      an inherited name. */
  method Reduce(rows: seq<Reaction>) returns (acc: Option<seq<ReactionGroup>>)
    ensures acc.None? <==> exists row :: row in rows && row.emoji in InheritedKeys
    ensures acc.Some? ==> acc.value == Grouped(rows)
  {
    var groups: seq<ReactionGroup> := [];
    var i := 0;
    while i < |rows|
      invariant 0 <= i <= |rows|
      invariant groups == Grouped(rows[..i])
      invariant forall k :: 0 <= k < i ==> rows[k].emoji !in InheritedKeys
    {
      if rows[i].emoji in InheritedKeys {
        assert rows[i] in rows;
        return None;
      }
      assert rows[..i + 1][..i] == rows[..i];
      groups := CountRow(groups, rows[i]);
      i := i + 1;
    }
    assert rows[..i] == rows;
    acc := Some(groups);
  }

  /** Sorting the groups keeps every summary property. */
  lemma SortedSummarises(groups: seq<ReactionGroup>, rows: seq<Reaction>)
    requires Summarises(groups, rows)
    ensures Summarises(Lists.SortDesc(groups, Count), rows)
  {
    var s := Lists.SortDesc(groups, Count);
    Lists.SortDescDistinctBy(groups, Count, EmojiOf);
    Lists.SortDescSum(groups, Count, Count);
    forall i | 0 <= i < |s|
      ensures s[i].userIds == UsersWith(rows, s[i].emoji) && s[i].count == |s[i].userIds| && s[i].count > 0
    {
      assert s[i] in multiset(s);
      assert s[i] in groups;
    }
    forall e | UsersWith(rows, e) != [] ensures EmojiIndex(s, e) >= 0 {
      var k := EmojiIndex(groups, e);
      assert groups[k] in multiset(s);
      var j :| 0 <= j < |s| && s[j] == groups[k];
      assert s[j].emoji == e;
    }
  }

  /** `getUserReactionsForMessage`: the emojis the caller put on the message, in table
      order; empty when nobody is signed in or the query fails. */
  function UserReactionsForMessage(table: seq<Reaction>, user: Option<UserId>, messageId: Id, failure: bool)
    : (r: seq<string>)
    ensures user.None? || failure ==> r == []
    ensures user.Some? && !failure ==>
      forall e :: e in r <==> Reaction(messageId, user.value, e) in table
  {
    if user.None? || failure then []
    else EmojisBy(table, messageId, user.value)
  }

  function EmojisBy(table: seq<Reaction>, m: Id, u: UserId): (r: seq<string>)
    ensures forall e :: e in r <==> Reaction(m, u, e) in table
  {
    if table == [] then []
    else
      var last := table[|table| - 1];
      EmojisBy(table[..|table| - 1], m, u) + (if last.message == m && last.user == u then [last.emoji] else [])
  }
}
