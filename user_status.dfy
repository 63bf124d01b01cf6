/** The stored online status of each user. */
module UserStatus {
  import opened Wrappers
  import opened Schema

  /** `updateUserStatus`. A missing caller is not an error: the call returns quietly with
      nothing written. Otherwise the caller's row is upserted with the status and the
      current time; a failed upsert is rethrown. */
  method UpdateUserStatus(db: Db, user: Option<UserId>, status: Presence, now: Time, failure: Option<string>)
    returns (r: Outcome)
    modifies db`statuses
    ensures user.None? ==> r == Done && db.statuses == old(db.statuses)
    ensures user.Some? && failure.Some? ==> r == Failed(failure.value) && db.statuses == old(db.statuses)
    ensures user.Some? && failure.None? ==>
      && r == Done
      && user.value in db.statuses && db.statuses[user.value] == StatusRow(status, now)
      && (forall v :: v != user.value ==> (v in db.statuses <==> v in old(db.statuses)))
      && (forall v :: v != user.value && v in db.statuses ==> db.statuses[v] == old(db.statuses)[v])
  {
    if user.None? {
      return Done;
    }
    if failure.Some? {
      return Failed(failure.value);
    }
    db.statuses := db.statuses[user.value := StatusRow(status, now)];
    r := Done;
  }

  /** The answer of `getUserStatus`: a status and, when known, the last-seen time. */
  datatype StatusView = StatusView(status: Presence, lastSeen: Option<Time>)

  /** `getUserStatus`: the stored row, or offline with no last-seen time when the query
      fails, which includes the user having no row. */
  function GetUserStatus(statuses: map<UserId, StatusRow>, u: UserId, failed: bool): (v: StatusView)
    ensures failed || u !in statuses ==> v == StatusView(Offline, None)
    ensures !failed && u in statuses ==> v.status == statuses[u].status && v.lastSeen == Some(statuses[u].lastSeen)
    ensures v.lastSeen.None? ==> v.status == Offline
  {
    if failed || u !in statuses then StatusView(Offline, None)
    else StatusView(statuses[u].status, Some(statuses[u].lastSeen))
  }

  /** `getMultipleUserStatuses`: the stored rows of the listed users; users without a row
      are simply absent, and a failed query gives none. */
  function GetMultipleUserStatuses(statuses: map<UserId, StatusRow>, users: seq<UserId>, failed: bool)
    : (r: map<UserId, StatusRow>)
    ensures failed ==> r == map[]
    ensures !failed ==> forall u :: u in r <==> u in users && u in statuses
    ensures forall u :: u in r ==> u in statuses && r[u] == statuses[u]
  {
    if failed then map[]
    else map u | u in statuses && u in users :: statuses[u]
  }

  /** A status just written is the one read back, with its time. */
  lemma UpdateThenGet(statuses: map<UserId, StatusRow>, u: UserId, status: Presence, now: Time)
    ensures GetUserStatus(statuses[u := StatusRow(status, now)], u, false) == StatusView(status, Some(now))
  {
  }
}
