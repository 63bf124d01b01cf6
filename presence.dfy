/** The client presence machine of the `usePresence` hook: a heartbeat that reports online
    or away from the idle time, an away timer re-armed by activity, and the visibility,
    unload, mount and unmount handlers. Timers are due times on the abstract clock; a
    timer fires when an event arrives at or after its due time. Every status report is an
    `updateUserStatus` call, recorded in order in `sent`; failed reports are only logged
    there, so the log is what was requested. */
module PresenceTracking {
  import opened Wrappers
  import opened Schema

  /** 30 seconds. */
  const HeartbeatInterval: nat := 30000
  /** 5 minutes. */
  const AwayTimeout: nat := 300000

  /** The status a heartbeat reports after `idle` milliseconds without activity. */
  function HeartbeatStatus(idle: int): (s: Presence)
    ensures s == Away <==> idle > AwayTimeout
    ensures s == Online <==> idle <= AwayTimeout
  {
    if idle > AwayTimeout then Away else Online
  }

  /** Five minutes of idling exactly still count as online; one millisecond more is away. */
  lemma HeartbeatBoundary(lastActivity: Time)
    ensures HeartbeatStatus((lastActivity + AwayTimeout) - lastActivity) == Online
    ensures HeartbeatStatus((lastActivity + AwayTimeout + 1) - lastActivity) == Away
  {
  }

  class Tracker {
    /** `lastActivityRef`. */
    var lastActivity: Time
    /** When the heartbeat interval next fires, while it is set. */
    var heartbeatDue: Option<Time>
    /** When the away timeout fires, while it is set. */
    var awayDue: Option<Time>
    /** Whether the activity, visibility and unload listeners are attached. */
    var listening: bool
    /** The statuses reported, oldest first. */
    var sent: seq<Presence>

    /** The interval runs exactly while the listeners are attached, and so does any away
        timer. */
    predicate Valid()
      reads this
    {
      && (heartbeatDue.Some? <==> listening)
      && (awayDue.Some? ==> listening)
    }

    /** The hook's first render: the activity clock starts now, nothing runs yet. */
    constructor (now: Time)
      ensures Valid()
      ensures lastActivity == now && heartbeatDue.None? && awayDue.None? && !listening && sent == []
    {
      lastActivity := now;
      heartbeatDue := None;
      awayDue := None;
      listening := false;
      sent := [];
    }

    /** The mount effect: reports online, starts the 30 s heartbeat, attaches the
        listeners and arms the 5 min away timer. */
    method Mount(now: Time)
      modifies this
      ensures Valid()
      ensures sent == old(sent) + [Online]
      ensures heartbeatDue == Some(now + HeartbeatInterval) && awayDue == Some(now + AwayTimeout)
      ensures listening && lastActivity == old(lastActivity)
    {
      sent := sent + [Online];
      heartbeatDue := Some(now + HeartbeatInterval);
      listening := true;
      awayDue := Some(now + AwayTimeout);
    }

    /** The heartbeat interval, if due: reports away when idle for more than 5 minutes and
        online otherwise, then waits another 30 s. */
    method Heartbeat(now: Time)
      requires Valid()
      modifies this`sent, this`heartbeatDue
      ensures Valid()
      ensures old(heartbeatDue).Some? && now >= old(heartbeatDue).value ==>
        && sent == old(sent) + [HeartbeatStatus(now - lastActivity)]
        && heartbeatDue == Some(old(heartbeatDue).value + HeartbeatInterval)
      ensures !(old(heartbeatDue).Some? && now >= old(heartbeatDue).value) ==>
        sent == old(sent) && heartbeatDue == old(heartbeatDue)
    {
      if heartbeatDue.Some? && now >= heartbeatDue.value {
        sent := sent + [HeartbeatStatus(now - lastActivity)];
        heartbeatDue := Some(heartbeatDue.value + HeartbeatInterval);
      }
    }

    /** A mouse, key, scroll or touch event: activity is now, and the away timer restarts
        from now. Nothing is reported. */
    method Activity(now: Time)
      requires Valid()
      modifies this`lastActivity, this`awayDue
      ensures Valid()
      ensures old(listening) ==> lastActivity == now && awayDue == Some(now + AwayTimeout)
      ensures !old(listening) ==> lastActivity == old(lastActivity) && awayDue == old(awayDue)
    {
      if listening {
        lastActivity := now;
        awayDue := Some(now + AwayTimeout);
      }
    }

    /** The away timeout, if due: reports away once. */
    method AwayTimer(now: Time)
      requires Valid()
      modifies this`sent, this`awayDue
      ensures Valid()
      ensures old(awayDue).Some? && now >= old(awayDue).value ==> sent == old(sent) + [Away] && awayDue.None?
      ensures !(old(awayDue).Some? && now >= old(awayDue).value) ==> sent == old(sent) && awayDue == old(awayDue)
    {
      if awayDue.Some? && now >= awayDue.value {
        sent := sent + [Away];
        awayDue := None;
      }
    }

    /** The tab is hidden or shown. Hidden reports away and leaves the activity clock
        alone; shown makes activity now, reports online and restarts the away timer. */
    method VisibilityChange(hidden: bool, now: Time)
      requires Valid()
      modifies this`sent, this`lastActivity, this`awayDue
      ensures Valid()
      ensures old(listening) && hidden ==>
        sent == old(sent) + [Away] && lastActivity == old(lastActivity) && awayDue == old(awayDue)
      ensures old(listening) && !hidden ==>
        sent == old(sent) + [Online] && lastActivity == now && awayDue == Some(now + AwayTimeout)
      ensures !old(listening) ==>
        sent == old(sent) && lastActivity == old(lastActivity) && awayDue == old(awayDue)
    {
      if !listening {
        return;
      }
      if hidden {
        sent := sent + [Away];
      } else {
        lastActivity := now;
        sent := sent + [Online];
        Activity(now);
      }
    }

    /** The page is being left: reports offline. */
    method BeforeUnload()
      modifies this`sent
      ensures listening ==> sent == old(sent) + [Offline]
      ensures !listening ==> sent == old(sent)
    {
      if listening {
        sent := sent + [Offline];
      }
    }

    /** The cleanup: clears both timers, detaches the listeners and reports offline. */
    method Unmount()
      modifies this`sent, this`heartbeatDue, this`awayDue, this`listening
      ensures Valid()
      ensures heartbeatDue.None? && awayDue.None? && !listening
      ensures sent == old(sent) + [Offline]
    {
      heartbeatDue := None;
      awayDue := None;
      listening := false;
      sent := sent + [Offline];
    }
  }

  /** After activity at `now`, a heartbeat within the next five minutes reports online. */
  method ActivityKeepsOnline(t: Tracker, now: Time, later: Time)
    requires t.Valid() && t.listening && t.heartbeatDue.Some?
    requires t.heartbeatDue.value <= later && now <= later <= now + AwayTimeout
    modifies t
    ensures t.sent == old(t.sent) + [Online]
  {
    t.Activity(now);
    t.Heartbeat(later);
  }
}
