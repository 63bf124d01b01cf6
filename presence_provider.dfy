/** `PresenceProvider`: the presence machine of `usePresence`, run only while a session
    exists. The presence effect depends on the authenticated flag, so a change of the flag
    cleans up the running machine (when it was on) and starts it again (when it is on). */
module PresenceGate {
  import opened Wrappers
  import opened Schema
  import opened PresenceTracking

  class Provider {
    /** `isAuthenticated`. */
    var authenticated: bool
    /** The refs and listeners of the presence effect. */
    const tracker: Tracker

    /** The presence machine runs exactly while the user is authenticated. */
    predicate Valid()
      reads this, tracker
    {
      tracker.Valid() && tracker.listening == authenticated
    }

    /** The provider mounts unauthenticated; the activity clock starts now. */
    constructor (now: Time)
      ensures Valid() && fresh(tracker)
      ensures !authenticated && tracker.sent == [] && tracker.lastActivity == now
    {
      authenticated := false;
      tracker := new Tracker(now);
    }

    /** The session lookup or an auth state change: the flag becomes whether a session
        exists. Becoming authenticated reports online and starts the heartbeat; ceasing to
        be reports offline and stops every timer. An unchanged flag changes nothing. */
    method AuthChanged(session: bool, now: Time)
      requires Valid()
      modifies this, tracker
      ensures Valid()
      ensures authenticated == session
      ensures !old(authenticated) && session ==>
        && tracker.sent == old(tracker.sent) + [Online]
        && tracker.heartbeatDue == Some(now + HeartbeatInterval)
        && tracker.awayDue == Some(now + AwayTimeout)
        && tracker.lastActivity == old(tracker.lastActivity)
      ensures old(authenticated) && !session ==>
        tracker.sent == old(tracker.sent) + [Offline] && tracker.heartbeatDue.None? && tracker.awayDue.None?
      ensures old(authenticated) == session ==>
        && tracker.sent == old(tracker.sent) && tracker.heartbeatDue == old(tracker.heartbeatDue)
        && tracker.awayDue == old(tracker.awayDue) && tracker.lastActivity == old(tracker.lastActivity)
    {
      if session == authenticated {
        return;
      }
      if authenticated {
        tracker.Unmount();
      }
      authenticated := session;
      if session {
        tracker.Mount(now);
      }
    }

    /** The machine has reported `sent`, and its clocks are `lastActivity`, `heartbeatDue` and
        `awayDue`. */
    predicate MachineIs(sent: seq<Presence>, lastActivity: Time, heartbeatDue: Option<Time>, awayDue: Option<Time>)
      reads tracker
    {
      && tracker.sent == sent && tracker.lastActivity == lastActivity
      && tracker.heartbeatDue == heartbeatDue && tracker.awayDue == awayDue
    }

    /** An activity, visibility, unload or timer event, delivered to the machine's
        handlers, which exist only while authenticated. */
    method Event(e: PresenceEvent)
      requires Valid()
      modifies tracker
      ensures Valid()
      ensures !authenticated ==> MachineIs(old(tracker.sent), old(tracker.lastActivity), old(tracker.heartbeatDue), old(tracker.awayDue))
      ensures authenticated && e.Activity? ==>
        && tracker.sent == old(tracker.sent) && tracker.heartbeatDue == old(tracker.heartbeatDue)
        && tracker.lastActivity == e.now && tracker.awayDue == Some(e.now + AwayTimeout)
      ensures authenticated && e.Visibility? && e.hidden ==>
        MachineIs(old(tracker.sent) + [Away], old(tracker.lastActivity), old(tracker.heartbeatDue), old(tracker.awayDue))
      ensures authenticated && e.Visibility? && !e.hidden ==>
        && tracker.sent == old(tracker.sent) + [Online] && tracker.heartbeatDue == old(tracker.heartbeatDue)
        && tracker.lastActivity == e.now && tracker.awayDue == Some(e.now + AwayTimeout)
      ensures authenticated && e.Unload? ==>
        MachineIs(old(tracker.sent) + [Offline], old(tracker.lastActivity), old(tracker.heartbeatDue), old(tracker.awayDue))
      ensures e.HeartbeatTick? ==>
        if old(tracker.heartbeatDue).Some? && e.now >= old(tracker.heartbeatDue).value then
          MachineIs(
            old(tracker.sent) + [HeartbeatStatus(e.now - old(tracker.lastActivity))], old(tracker.lastActivity),
            Some(old(tracker.heartbeatDue).value + HeartbeatInterval), old(tracker.awayDue))
        else MachineIs(old(tracker.sent), old(tracker.lastActivity), old(tracker.heartbeatDue), old(tracker.awayDue))
      ensures e.AwayTick? ==>
        if old(tracker.awayDue).Some? && e.now >= old(tracker.awayDue).value then
          MachineIs(old(tracker.sent) + [Away], old(tracker.lastActivity), old(tracker.heartbeatDue), None)
        else MachineIs(old(tracker.sent), old(tracker.lastActivity), old(tracker.heartbeatDue), old(tracker.awayDue))
    {
      match e
      case Activity(now) => tracker.Activity(now);
      case Visibility(hidden, now) => tracker.VisibilityChange(hidden, now);
      case Unload => tracker.BeforeUnload();
      case HeartbeatTick(now) => tracker.Heartbeat(now);
      case AwayTick(now) => tracker.AwayTimer(now);
    }

    /** The provider unmounts: the running machine, if any, reports offline and stops. */
    method Unmount()
      requires Valid()
      modifies tracker
      ensures tracker.heartbeatDue.None? && tracker.awayDue.None? && !tracker.listening
      ensures authenticated ==> tracker.sent == old(tracker.sent) + [Offline]
      ensures !authenticated ==> tracker.sent == old(tracker.sent)
    {
      if authenticated {
        tracker.Unmount();
      }
    }
  }

  /** The events the browser and the timers deliver. */
  datatype PresenceEvent =
    | Activity(now: Time)
    | Visibility(hidden: bool, now: Time)
    | Unload
    | HeartbeatTick(now: Time)
    | AwayTick(now: Time)

  /** Without a session, no sequence of events reports anything. */
  method SilentWhileSignedOut(p: Provider, events: seq<PresenceEvent>)
    requires p.Valid() && !p.authenticated
    modifies p.tracker
    ensures p.Valid() && p.tracker.sent == old(p.tracker.sent)
  {
    var i := 0;
    while i < |events|
      invariant 0 <= i <= |events|
      invariant p.Valid() && p.tracker.sent == old(p.tracker.sent)
    {
      p.Event(events[i]);
      i := i + 1;
    }
  }
}
