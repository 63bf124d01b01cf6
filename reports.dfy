/** Moderation reports about messages and users, filed by any user and handled by
    admins. */
module Reports {
  import opened Wrappers
  import opened Schema
  import Text
  import Lists

  /** The pair a report is unique on: who reports, and what. */
  function ReportKey(x: Report): (UserId, ReportTarget) {
    (x.reporter, x.target)
  }

  /** The table invariant the filing actions keep: at most one report per reporter and
      target. Under it the `.single()` duplicate lookup finds a row exactly when one exists. */
  predicate OneReportPerTarget(reports: seq<Report>) {
    Lists.DistinctBy(reports, ReportKey)
  }

  /** Whether `reporter` has already reported `target`. */
  predicate Reported(reports: seq<Report>, reporter: UserId, target: ReportTarget) {
    exists i :: 0 <= i < |reports| && reports[i].reporter == reporter && reports[i].target == target
  }

  /** A report as filed: pending, unresolved, with null for an empty or absent description. */
  function NewReport(id: Id, reporter: UserId, target: ReportTarget, reason: ReportReason, description: Option<string>, now: Time)
    : (x: Report)
    ensures x.id == id && x.reporter == reporter && x.target == target && x.reason == reason
    ensures x.status == Pending && x.resolvedBy.None? && x.resolvedAt.None? && x.adminNotes.None?
    ensures x.description.Some? <==> description.Some? && description.value != []
    ensures x.description.Some? ==> x.description == description
    ensures x.createdAt == now
  {
    Report(id, reporter, target, reason, Text.NonEmpty(description), Pending, None, None, None, now)
  }

  /** The common tail of both filing actions: refuse a repeat, else insert. */
  method FileReport(
    db: Db, reporter: UserId, target: ReportTarget, reason: ReportReason, description: Option<string>,
    now: Time, failure: Option<string>, repeated: string)
    returns (r: Outcome)
    requires db.Valid()
    modifies db`reports, db`nextId
    ensures db.Valid()
    ensures OneReportPerTarget(old(db.reports)) ==> OneReportPerTarget(db.reports)
    ensures Reported(old(db.reports), reporter, target) ==> r == Failed(repeated) && unchanged(db)
    ensures !Reported(old(db.reports), reporter, target) && failure.Some? ==> r == Failed(failure.value) && unchanged(db)
    ensures !Reported(old(db.reports), reporter, target) && failure.None? ==>
      && r == Done && db.nextId == old(db.nextId) + 1
      && db.reports == old(db.reports) + [NewReport(old(db.nextId), reporter, target, reason, description, now)]
  {
    if Reported(db.reports, reporter, target) {
      return Failed(repeated);
    }
    if failure.Some? {
      return Failed(failure.value);
    }
    var id := db.FreshId();
    db.reports := db.reports + [NewReport(id, reporter, target, reason, description, now)];
    r := Done;
  }

  /** `reportMessage`: the message must exist and must not be the caller's own; the report
      names the message only. */
  method ReportMessage(
    db: Db, user: Option<UserId>, messageId: Id, reason: ReportReason, description: Option<string>,
    now: Time, failure: Option<string>)
    returns (r: Outcome)
    requires db.Valid()
    modifies db`reports, db`nextId
    ensures db.Valid()
    ensures OneReportPerTarget(old(db.reports)) ==> OneReportPerTarget(db.reports)
    ensures user.None? ==> r == Failed("Unauthorized") && unchanged(db)
    ensures user.Some? && messageId !in old(db.messages) ==> r == Failed("Message not found") && unchanged(db)
    ensures user.Some? && messageId in old(db.messages) && old(db.messages)[messageId].sender == user.value ==>
      r == Failed("Cannot report your own message") && unchanged(db)
    ensures user.Some? && messageId in old(db.messages) && old(db.messages)[messageId].sender != user.value ==>
      var t := AboutMessage(messageId);
      && (Reported(old(db.reports), user.value, t) ==> r == Failed("You have already reported this message") && unchanged(db))
      && (!Reported(old(db.reports), user.value, t) && failure.Some? ==> r == Failed(failure.value) && unchanged(db))
      && (!Reported(old(db.reports), user.value, t) && failure.None? ==>
            && r == Done && db.nextId == old(db.nextId) + 1
            && db.reports == old(db.reports) + [NewReport(old(db.nextId), user.value, t, reason, description, now)])
  {
    if user.None? {
      return Failed("Unauthorized");
    }
    if messageId !in db.messages {
      return Failed("Message not found");
    }
    if db.messages[messageId].sender == user.value {
      return Failed("Cannot report your own message");
    }
    r := FileReport(db, user.value, AboutMessage(messageId), reason, description, now, failure, "You have already reported this message");
  }

  /** `reportUser`: anyone but the caller can be reported; the target's existence is not
      checked. */
  method ReportUser(
    db: Db, user: Option<UserId>, reported: UserId, reason: ReportReason, description: Option<string>,
    now: Time, failure: Option<string>)
    returns (r: Outcome)
    requires db.Valid()
    modifies db`reports, db`nextId
    ensures db.Valid()
    ensures OneReportPerTarget(old(db.reports)) ==> OneReportPerTarget(db.reports)
    ensures user.None? ==> r == Failed("Unauthorized") && unchanged(db)
    ensures user.Some? && reported == user.value ==> r == Failed("Cannot report yourself") && unchanged(db)
    ensures user.Some? && reported != user.value ==>
      var t := AboutUser(reported);
      && (Reported(old(db.reports), user.value, t) ==> r == Failed("You have already reported this user") && unchanged(db))
      && (!Reported(old(db.reports), user.value, t) && failure.Some? ==> r == Failed(failure.value) && unchanged(db))
      && (!Reported(old(db.reports), user.value, t) && failure.None? ==>
            && r == Done && db.nextId == old(db.nextId) + 1
            && db.reports == old(db.reports) + [NewReport(old(db.nextId), user.value, t, reason, description, now)])
  {
    if user.None? {
      return Failed("Unauthorized");
    }
    if reported == user.value {
      return Failed("Cannot report yourself");
    }
    r := FileReport(db, user.value, AboutUser(reported), reason, description, now, failure, "You have already reported this user");
  }

  /** The statuses that close a report. */
  predicate Terminal(s: ReportStatus) {
    s == Resolved || s == Dismissed
  }

  /** The row after the `updateData` of `updateReportStatus`: the new status and the admin
      as resolver; a resolution time only for a closing status; notes only when non-empty.
      What the report is about, and by whom, never changes. */
  function Resolution(x: Report, admin: UserId, status: ReportStatus, notes: Option<string>, now: Time): (y: Report)
    ensures y.id == x.id && ReportKey(y) == ReportKey(x) && y.reason == x.reason
    ensures y.description == x.description && y.createdAt == x.createdAt
    ensures y.status == status && y.resolvedBy == Some(admin)
    ensures Terminal(status) ==> y.resolvedAt == Some(now)
    ensures !Terminal(status) ==> y.resolvedAt == x.resolvedAt
    ensures Text.NonEmpty(notes).Some? ==> y.adminNotes == notes
    ensures Text.NonEmpty(notes).None? ==> y.adminNotes == x.adminNotes
  {
    x.(status := status, resolvedBy := Some(admin),
       resolvedAt := if Terminal(status) then Some(now) else x.resolvedAt,
       adminNotes := if Text.NonEmpty(notes).Some? then notes else x.adminNotes)
  }

  /** `update reports set … where id = reportId`: every row with that id is resolved, the
      others are kept; a missing id updates nothing. */
  function Resolve(reports: seq<Report>, id: Id, admin: UserId, status: ReportStatus, notes: Option<string>, now: Time)
    : (r: seq<Report>)
    ensures |r| == |reports|
    ensures forall i :: 0 <= i < |r| && reports[i].id != id ==> r[i] == reports[i]
    ensures forall i :: 0 <= i < |r| && reports[i].id == id ==> r[i] == Resolution(reports[i], admin, status, notes, now)
  {
    if reports == [] then []
    else [if reports[0].id == id then Resolution(reports[0], admin, status, notes, now) else reports[0]]
         + Resolve(reports[1..], id, admin, status, notes, now)
  }

  /** Resolving keeps every row's identity and the uniqueness of reports per target. */
  lemma ResolveKeepsKeys(reports: seq<Report>, id: Id, admin: UserId, status: ReportStatus, notes: Option<string>, now: Time)
    ensures var r := Resolve(reports, id, admin, status, notes, now);
      (forall i :: 0 <= i < |r| ==> r[i].id == reports[i].id && ReportKey(r[i]) == ReportKey(reports[i]))
      && (OneReportPerTarget(reports) ==> OneReportPerTarget(r))
  {
  }

  /** The table after `updateReportStatus`, with the invariants it keeps. */
  function AfterResolve(reports: seq<Report>, id: Id, admin: UserId, status: ReportStatus, notes: Option<string>, now: Time, bound: Id)
    : (r: seq<Report>)
    requires forall i :: 0 <= i < |reports| ==> reports[i].id < bound
    ensures r == Resolve(reports, id, admin, status, notes, now)
    ensures forall i :: 0 <= i < |r| ==> r[i].id < bound
    ensures OneReportPerTarget(reports) ==> OneReportPerTarget(r)
  {
    ResolveKeepsKeys(reports, id, admin, status, notes, now);
    Resolve(reports, id, admin, status, notes, now)
  }

  /** `updateReportStatus`. Only admins may update; the report's existence is not checked. */
  method UpdateReportStatus(
    db: Db, user: Option<UserId>, reportId: Id, status: ReportStatus, notes: Option<string>, now: Time,
    failure: Option<string>)
    returns (r: Outcome)
    requires db.Valid()
    modifies db`reports
    ensures db.Valid()
    ensures OneReportPerTarget(old(db.reports)) ==> OneReportPerTarget(db.reports)
    ensures user.None? ==> r == Failed("Unauthorized") && db.reports == old(db.reports)
    ensures user.Some? && !IsAdmin(db.admins, user.value) ==> r == Failed("Admin access required") && db.reports == old(db.reports)
    ensures user.Some? && IsAdmin(db.admins, user.value) && failure.Some? ==>
      r == Failed(failure.value) && db.reports == old(db.reports)
    ensures user.Some? && IsAdmin(db.admins, user.value) && failure.None? ==>
      r == Done && db.reports == Resolve(old(db.reports), reportId, user.value, status, notes, now)
  {
    if user.None? {
      return Failed("Unauthorized");
    }
    if !IsAdmin(db.admins, user.value) {
      return Failed("Admin access required");
    }
    if failure.Some? {
      return Failed(failure.value);
    }
    db.reports := AfterResolve(db.reports, reportId, user.value, status, notes, now, db.nextId);
    r := Done;
  }

  function CreatedAt(x: Report): int { x.createdAt }

  /** The `getReports` default page size. */
  const DefaultReportLimit: nat := 50

  /** Whether a report passes the optional status filter of `getReports`. */
  predicate HasStatus(x: Report, status: Option<ReportStatus>) {
    status.None? || x.status == status.value
  }

  /** The reports the status filter lets through. */
  function WithStatus(status: Option<ReportStatus>): Report -> bool {
    (x: Report) => HasStatus(x, status)
  }

  /** The query of `getReports`: the newest reports first, optionally of one status, at
      most `limit` of them, as many as there are up to that limit, none repeated more
      often than the table holds it. */
  function ReportPage(reports: seq<Report>, status: Option<ReportStatus>, limit: nat): (page: seq<Report>)
    ensures |page| <= limit && Lists.SortedDesc(page, CreatedAt)
    ensures var matching := Lists.Filter(reports, WithStatus(status));
      |page| == (if limit < |matching| then limit else |matching|) && multiset(page) <= multiset(matching)
    ensures forall x :: x in page ==> x in reports && HasStatus(x, status)
    ensures |page| < limit ==> forall x :: x in reports && HasStatus(x, status) ==> x in page
    ensures forall x, y :: x in reports && HasStatus(x, status) && x !in page && y in page ==> CreatedAt(y) >= CreatedAt(x)
  {
    Lists.TopWhere(reports, WithStatus(status), CreatedAt, limit)
  }

  /** `getReports`, for admins only, with a page size of 50 when none is given. */
  function GetReports(
    reports: seq<Report>, admins: map<UserId, string>, user: Option<UserId>, status: Option<ReportStatus>,
    limit: Option<nat>, failure: Option<string>)
    : (r: Result<seq<Report>>)
    ensures user.None? ==> r == Err("Unauthorized")
    ensures user.Some? && !IsAdmin(admins, user.value) ==> r == Err("Admin access required")
    ensures user.Some? && IsAdmin(admins, user.value) && failure.Some? ==> r == Err(failure.value)
    ensures user.Some? && IsAdmin(admins, user.value) && failure.None? ==>
      r == Ok(ReportPage(reports, status, limit.GetOr(DefaultReportLimit)))
  {
    if user.None? then Err("Unauthorized")
    else if !IsAdmin(admins, user.value) then Err("Admin access required")
    else if failure.Some? then Err(failure.value)
    else Ok(ReportPage(reports, status, limit.GetOr(DefaultReportLimit)))
  }
}
