/** The admin actions: admin lookups, banning and unbanning users, and the moderator's
    soft deletion of messages. */
module Admin {
  import opened Wrappers
  import opened Schema
  import Text
  import Lists

  /** `checkIsAdmin`: false without a caller, otherwise whether an `admin_users` row exists. */
  function CheckIsAdmin(admins: map<UserId, string>, user: Option<UserId>): (b: bool)
    ensures b <==> user.Some? && user.value in admins
  {
    user.Some? && IsAdmin(admins, user.value)
  }

  /** `getAdminRole`: the caller's role, with null for no caller, no row or an empty role. */
  function GetAdminRole(admins: map<UserId, string>, user: Option<UserId>): (r: Option<string>)
    ensures r.Some? <==> user.Some? && user.value in admins && admins[user.value] != []
    ensures r.Some? ==> r.value == admins[user.value]
  {
    if user.None? || user.value !in admins then None else Text.NonEmpty(Some(admins[user.value]))
  }

  /** A caller with a role is an admin; the converse fails only for an empty role string. */
  lemma RoleImpliesAdmin(admins: map<UserId, string>, user: Option<UserId>)
    ensures GetAdminRole(admins, user).Some? ==> CheckIsAdmin(admins, user)
    ensures CheckIsAdmin(admins, user) && GetAdminRole(admins, user).None? ==> admins[user.value] == []
  {
  }

  function BannedUser(b: Ban): UserId { b.user }

  /** The invariant `banUser` keeps: at most one ban row per user. */
  predicate OneBanPerUser(bans: seq<Ban>) {
    Lists.DistinctBy(bans, BannedUser)
  }

  /** Whether the user has a ban row, expired or not. */
  predicate Banned(bans: seq<Ban>, u: UserId) {
    exists i :: 0 <= i < |bans| && bans[i].user == u
  }

  /** The row `banUser` inserts: `permanent` is false unless given, `expires_at` null unless
      given. */
  function NewBan(id: Id, target: UserId, admin: UserId, reason: string, permanent: Option<bool>, expiresAt: Option<Time>, now: Time)
    : (b: Ban)
    ensures b.id == id && b.user == target && b.bannedBy == admin && b.reason == reason
    ensures b.permanent <==> permanent == Some(true)
    ensures b.expiresAt == expiresAt && b.bannedAt == now
  {
    Ban(id, target, admin, reason, permanent.GetOr(false), expiresAt, now)
  }

  /** `banUser`. The checks run in a fixed order and the first that fails decides the error:
      a caller, the caller an admin, the target not the caller, the target not an admin,
      the target not already banned. */
  method BanUser(
    db: Db, user: Option<UserId>, target: UserId, reason: string, permanent: Option<bool>,
    expiresAt: Option<Time>, now: Time, failure: Option<string>)
    returns (r: Outcome)
    requires db.Valid()
    modifies db`bans, db`nextId
    ensures db.Valid()
    ensures OneBanPerUser(old(db.bans)) ==> OneBanPerUser(db.bans)
    ensures user.None? ==> r == Failed("Unauthorized") && unchanged(db)
    ensures user.Some? && !IsAdmin(db.admins, user.value) ==> r == Failed("Admin access required") && unchanged(db)
    ensures user.Some? && IsAdmin(db.admins, user.value) && target == user.value ==>
      r == Failed("Cannot ban yourself") && unchanged(db)
    ensures user.Some? && IsAdmin(db.admins, user.value) && target != user.value && IsAdmin(db.admins, target) ==>
      r == Failed("Cannot ban admin users") && unchanged(db)
    ensures user.Some? && IsAdmin(db.admins, user.value) && target != user.value && !IsAdmin(db.admins, target) ==>
      && (Banned(old(db.bans), target) ==> r == Failed("User is already banned") && unchanged(db))
      && (!Banned(old(db.bans), target) && failure.Some? ==> r == Failed(failure.value) && unchanged(db))
      && (!Banned(old(db.bans), target) && failure.None? ==>
            && r == Done && db.nextId == old(db.nextId) + 1
            && db.bans == old(db.bans) + [NewBan(old(db.nextId), target, user.value, reason, permanent, expiresAt, now)])
    ensures r == Done ==> Banned(db.bans, target) && !IsAdmin(db.admins, target)
  {
    if user.None? {
      return Failed("Unauthorized");
    }
    if !IsAdmin(db.admins, user.value) {
      return Failed("Admin access required");
    }
    if target == user.value {
      return Failed("Cannot ban yourself");
    }
    if IsAdmin(db.admins, target) {
      return Failed("Cannot ban admin users");
    }
    if Banned(db.bans, target) {
      return Failed("User is already banned");
    }
    if failure.Some? {
      return Failed(failure.value);
    }
    var id := db.FreshId();
    var ban := NewBan(id, target, user.value, reason, permanent, expiresAt, now);
    BanGuards(db.admins, db.bans, user.value, target, ban);
    db.bans := db.bans + [ban];
    r := Done;
  }

  /** A successful ban leaves the caller an admin and the target a banned non-admin. */
  lemma BanGuards(admins: map<UserId, string>, bans: seq<Ban>, admin: UserId, target: UserId, b: Ban)
    requires IsAdmin(admins, admin) && target != admin && !IsAdmin(admins, target) && !Banned(bans, target)
    requires b.user == target
    ensures Banned(bans + [b], target) && !IsAdmin(admins, target)
    ensures OneBanPerUser(bans) ==> OneBanPerUser(bans + [b])
  {
    assert (bans + [b])[|bans|] == b;
  }

  /** The ban table after `delete from banned_users where user_id = target`. */
  function Unbanned(bans: seq<Ban>, target: UserId): (r: seq<Ban>)
    ensures forall b :: b in r <==> b in bans && b.user != target
    ensures !Banned(r, target)
  {
    var p := (b: Ban) => b.user != target;
    Lists.FilterMembers(bans, p);
    Lists.Filter(bans, p)
  }

  /** Unbanning twice is unbanning once, and keeps at most one ban per user. */
  lemma UnbanIdempotent(bans: seq<Ban>, target: UserId)
    ensures Unbanned(Unbanned(bans, target), target) == Unbanned(bans, target)
    ensures OneBanPerUser(bans) ==> OneBanPerUser(Unbanned(bans, target))
  {
    var p := (b: Ban) => b.user != target;
    Lists.FilterIdempotent(bans, p);
    if OneBanPerUser(bans) {
      Lists.FilterDistinctBy(bans, p, BannedUser);
    }
  }

  /** `unbanUser`: every ban row of the target goes, whether or not any existed. */
  method UnbanUser(db: Db, user: Option<UserId>, target: UserId, failure: Option<string>)
    returns (r: Outcome)
    requires db.Valid()
    modifies db`bans
    ensures db.Valid()
    ensures OneBanPerUser(old(db.bans)) ==> OneBanPerUser(db.bans)
    ensures user.None? ==> r == Failed("Unauthorized") && db.bans == old(db.bans)
    ensures user.Some? && !IsAdmin(db.admins, user.value) ==> r == Failed("Admin access required") && db.bans == old(db.bans)
    ensures user.Some? && IsAdmin(db.admins, user.value) && failure.Some? ==> r == Failed(failure.value) && db.bans == old(db.bans)
    ensures user.Some? && IsAdmin(db.admins, user.value) && failure.None? ==>
      r == Done && db.bans == Unbanned(old(db.bans), target)
  {
    if user.None? {
      return Failed("Unauthorized");
    }
    if !IsAdmin(db.admins, user.value) {
      return Failed("Admin access required");
    }
    if failure.Some? {
      return Failed(failure.value);
    }
    UnbanIdempotent(db.bans, target);
    db.bans := Unbanned(db.bans, target);
    r := Done;
  }

  /** The admin `deleteMessage`: the row stays and gets a deletion time; a missing id
      updates nothing. */
  method DeleteMessage(db: Db, user: Option<UserId>, messageId: Id, now: Time, failure: Option<string>)
    returns (r: Outcome)
    requires db.Valid()
    modifies db`messages
    ensures db.Valid()
    ensures user.None? ==> r == Failed("Unauthorized") && db.messages == old(db.messages)
    ensures user.Some? && !IsAdmin(db.admins, user.value) ==> r == Failed("Admin access required") && db.messages == old(db.messages)
    ensures user.Some? && IsAdmin(db.admins, user.value) && failure.Some? ==>
      r == Failed(failure.value) && db.messages == old(db.messages)
    ensures user.Some? && IsAdmin(db.admins, user.value) && failure.None? ==>
      && r == Done
      && db.messages.Keys == old(db.messages).Keys
      && (messageId in db.messages ==> db.messages == old(db.messages)[messageId := old(db.messages)[messageId].(deletedAt := Some(now))])
      && (messageId !in db.messages ==> db.messages == old(db.messages))
  {
    if user.None? {
      return Failed("Unauthorized");
    }
    if !IsAdmin(db.admins, user.value) {
      return Failed("Admin access required");
    }
    if failure.Some? {
      return Failed(failure.value);
    }
    if messageId in db.messages {
      db.messages := db.messages[messageId := db.messages[messageId].(deletedAt := Some(now))];
    }
    r := Done;
  }

  function BannedAt(b: Ban): int { b.bannedAt }

  /** `getBannedUsers`, for admins only: every ban row, expired or not, newest first. */
  function GetBannedUsers(bans: seq<Ban>, admins: map<UserId, string>, user: Option<UserId>, failure: Option<string>)
    : (r: Result<seq<Ban>>)
    ensures user.None? ==> r == Err("Unauthorized")
    ensures user.Some? && !IsAdmin(admins, user.value) ==> r == Err("Admin access required")
    ensures user.Some? && IsAdmin(admins, user.value) && failure.Some? ==> r == Err(failure.value)
    ensures user.Some? && IsAdmin(admins, user.value) && failure.None? ==> r.Ok?
    ensures r.Ok? ==> multiset(r.value) == multiset(bans) && Lists.SortedDesc(r.value, BannedAt)
  {
    if user.None? then Err("Unauthorized")
    else if !IsAdmin(admins, user.value) then Err("Admin access required")
    else if failure.Some? then Err(failure.value)
    else Ok(Lists.SortDesc(bans, BannedAt))
  }
}
