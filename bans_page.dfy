/** What the banned-users page shows for each ban row. */
module BansPage {
  import opened Wrappers
  import opened Schema

  /** A ban has expired when it carries an expiry time strictly before now. */
  predicate IsExpired(b: Ban, now: Time) {
    b.expiresAt.Some? && b.expiresAt.value < now
  }

  /** A ban is in force when it is permanent or has not expired. */
  function IsActive(b: Ban, now: Time): (active: bool)
    ensures b.permanent ==> active
    ensures !b.permanent && b.expiresAt.None? ==> active
    ensures active <==> b.permanent || b.expiresAt.None? || now <= b.expiresAt.value
  {
    b.permanent || !IsExpired(b, now)
  }

  datatype StatusBadge = BannedBadge | ExpiredBadge

  /** The badge beside the user id; an expired temporary ban reads "Expired". */
  function Badge(b: Ban, now: Time): (badge: StatusBadge)
    ensures badge == ExpiredBadge <==> !b.permanent && b.expiresAt.Some? && b.expiresAt.value < now
  {
    if IsActive(b, now) then BannedBadge else ExpiredBadge
  }

  /** The "Expires" line: only for a ban with an expiry time that is not permanent. */
  function ShowsExpiry(b: Ban): (shown: bool)
    ensures shown <==> b.expiresAt.Some? && !b.permanent
  {
    b.expiresAt.Some? && !b.permanent
  }

  /** The "Unban User" form is offered for exactly the bans in force. */
  function OffersUnban(b: Ban, now: Time): (offered: bool)
    ensures offered <==> Badge(b, now) == BannedBadge
  {
    IsActive(b, now)
  }

  /** An expired ban stays expired: activity can only end as time passes. */
  lemma ExpiryIsFinal(b: Ban, now: Time, later: Time)
    requires now <= later && !IsActive(b, now)
    ensures !IsActive(b, later) && Badge(b, later) == ExpiredBadge
  {
  }

  /** The page title's shortened id: the first eight characters and an ellipsis. */
  function ShortId(u: UserId): (s: string)
    ensures |s| == (if |u| < 8 then |u| else 8) + 3
    ensures s[..|s| - 3] <= u && s[|s| - 3..] == "..."
  {
    (if |u| < 8 then u else u[..8]) + "..."
  }
}
