/** `ProfileCompletionForm`: the first-run form that picks a username, with its
    availability indicator, and saves the profile through `updateProfile`. A username
    check is a request whose reply comes back later: `ChangeUsername` sends it and
    `CheckReturned` receives it. */
module ProfileCompletion {
  import opened Wrappers
  import opened Schema
  import Text
  import Profiles

  datatype Status = Idle | Checking | Available | Taken

  const CharsetError := "Username can only contain letters, numbers, and underscores"
  const TakenError := "Username is already taken"
  const ChooseError := "Please choose a valid and available username"
  const UpdateFailed := "Failed to update profile"
  const MinLength: nat := 3

  /** A character of `[a-zA-Z0-9_]`. */
  predicate UsernameChar(c: char) {
    ('a' <= c <= 'z') || ('A' <= c <= 'Z') || ('0' <= c <= '9') || c == '_'
  }

  /** A name the form sends to `checkUsername`: at least three characters, all allowed. */
  predicate WellFormed(name: string) {
    |name| >= MinLength && forall i :: 0 <= i < |name| ==> UsernameChar(name[i])
  }

  /** The display name sent: `displayName || username`. */
  function SentDisplayName(displayName: string, username: string): (d: string)
    ensures displayName != [] ==> d == displayName
    ensures displayName == [] ==> d == username
  {
    if displayName != [] then displayName else username
  }

  class Form {
    var username: string
    var displayName: string
    var bio: string
    var loading: bool
    var status: Status
    var error: string
    /** The names sent to `checkUsername`, in order. */
    var checks: seq<string>
    /** Whether the form has moved on to the home page. */
    var leftForHome: bool

    /** Only well-formed names are checked, and only a well-formed name is in checking or
        available. */
    predicate Valid()
      reads this
    {
      && (forall i :: 0 <= i < |checks| ==> WellFormed(checks[i]))
      && (status == Checking || status == Available ==> WellFormed(username))
    }

    constructor ()
      ensures Valid()
      ensures username == [] && displayName == [] && bio == [] && !loading
      ensures status == Idle && error == [] && checks == [] && !leftForHome
    {
      username, displayName, bio, loading := [], [], [], false;
      status, error, checks, leftForHome := Idle, [], [], false;
    }

    /** `handleUsernameChange` up to the request: an empty or short name is idle, a name
        with another character is refused at once, and a well-formed name is checked. */
    method ChangeUsername(value: string)
      requires Valid()
      modifies this`username, this`error, this`status, this`checks
      ensures Valid() && username == value
      ensures
        if |value| < MinLength then status == Idle && error == [] && checks == old(checks)
        else if !WellFormed(value) then status == Taken && error == CharsetError && checks == old(checks)
        else status == Checking && error == [] && checks == old(checks) + [value]
    {
      username := value;
      error := [];
      if value == [] {
        status := Idle;
        return;
      }
      if |value| < MinLength {
        status := Idle;
        return;
      }
      if !WellFormed(value) {
        error := CharsetError;
        status := Taken;
        return;
      }
      status := Checking;
      checks := checks + [value];
    }

    /** The reply to a check as the form handles it: whatever name it was sent for, the
        status becomes available or taken, or idle when the call throws (`reply` is
        `None`). */
    method CheckReturnedAsWritten(reply: Option<bool>)
      modifies this`status, this`error
      ensures reply == Some(true) ==> status == Available && error == old(error)
      ensures reply == Some(false) ==> status == Taken && error == TakenError
      ensures reply.None? ==> status == Idle && error == old(error)
    {
      if reply.Some? {
        status := if reply.value then Available else Taken;
        if !reply.value {
          error := TakenError;
        }
      } else {
        status := Idle;
      }
    }

    /** The reply to the check of `value`, applied only while `value` is still the name in
        the field; a stale reply is dropped. */
    method CheckReturned(value: string, reply: Option<bool>)
      requires Valid() && value in checks
      modifies this`status, this`error
      ensures Valid()
      ensures value != username ==> status == old(status) && error == old(error)
      ensures value == username && reply == Some(true) ==> status == Available && error == old(error)
      ensures value == username && reply == Some(false) ==> status == Taken && error == TakenError
      ensures value == username && reply.None? ==> status == Idle && error == old(error)
    {
      if value == username {
        CheckReturnedAsWritten(reply);
      }
    }

    method SetDisplayName(d: string)
      modifies this`displayName
      ensures displayName == d
    {
      displayName := d;
    }

    method SetBio(b: string)
      modifies this`bio
      ensures bio == b
    {
      bio := b;
    }

    /** `handleSubmit`: refused unless the name is available; otherwise `updateProfile`
        with the display name defaulting to the username. `sent` is the outcome of the
        call, `None` when none was made. */
    method Submit(db: Db, user: Option<UserId>, now: Time, failure: Option<string>) returns (sent: Option<Outcome>)
      requires Valid()
      modifies this`loading, this`error, this`leftForHome, db`profiles
      ensures Valid()
      ensures old(status) != Available ==>
        && sent.None? && error == ChooseError && loading == old(loading)
        && db.profiles == old(db.profiles) && leftForHome == old(leftForHome)
      ensures old(status) == Available ==> sent.Some? && !loading
      ensures sent == Some(Done) ==> leftForHome && error == []
      ensures sent.Some? && sent.value.Failed? ==>
        && leftForHome == old(leftForHome)
        && error == (if sent.value.error != [] then sent.value.error else UpdateFailed)
      ensures Profiles.UniqueUsernames(old(db.profiles)) ==> Profiles.UniqueUsernames(db.profiles)
      ensures sent == Some(Done) && user.Some? && user.value in old(db.profiles) ==>
        db.profiles == old(db.profiles)[user.value := Profiles.Edited(
          old(db.profiles)[user.value], old(username), Some(SentDisplayName(old(displayName), old(username))), Some(old(bio)), now)]
    {
      if status != Available {
        error := ChooseError;
        return None;
      }
      loading := true;
      error := [];
      var o := Profiles.UpdateProfile(db, user, username, Some(SentDisplayName(displayName, username)), Some(bio), now, failure);
      if o == Done {
        leftForHome := true;
      } else {
        error := if o.error != [] then o.error else UpdateFailed;
      }
      loading := false;
      sent := Some(o);
    }
  }

  /** Only an available, hence well-formed, name is sent, so the display name sent is
      never empty. */
  lemma SentDisplayNameNotEmpty(displayName: string, username: string)
    requires WellFormed(username)
    ensures SentDisplayName(displayName, username) != []
  {
  }

  /** A stale reply: checks are sent for "abc" and then for "abd"; the reply for "abd"
      (taken) comes back first and the reply for "abc" (available) last. As the form is
      written "abd" is shown as available and the submit goes through to `updateProfile`. */
  method StaleReplyAcceptsTakenName(db: Db, user: Option<UserId>, now: Time) returns (f: Form, sent: Option<Outcome>)
    modifies db`profiles
    ensures f.username == "abd" && f.checks == ["abc", "abd"]
    ensures sent.Some?
  {
    f := new Form();
    f.ChangeUsername("abc");
    f.ChangeUsername("abd");
    f.CheckReturnedAsWritten(Some(false));
    f.CheckReturnedAsWritten(Some(true));
    assert f.status == Available;
    sent := f.Submit(db, user, now, None);
  }

  /** With stale replies dropped, the same sequence leaves "abd" taken and the submit is
      refused without a call. */
  method StaleReplyDropped(db: Db, user: Option<UserId>, now: Time) returns (f: Form, sent: Option<Outcome>)
    modifies db`profiles
    ensures f.username == "abd" && f.status == Taken && f.error == ChooseError
    ensures sent.None? && db.profiles == old(db.profiles)
  {
    f := new Form();
    f.ChangeUsername("abc");
    f.ChangeUsername("abd");
    f.CheckReturned("abd", Some(false));
    f.CheckReturned("abc", Some(true));
    sent := f.Submit(db, user, now, None);
  }
}
