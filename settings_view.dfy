/** `ProfileSettingsView`: the profile form (display name, bio, avatar) that writes the
    caller's `profiles` row and the `avatars` bucket directly, and the password form.
    The storage calls are steps on `Db.avatarFiles`; the password change is a request to
    the authentication service, recorded in `passwordRequests`. */
module ProfileSettings {
  import opened Wrappers
  import opened Schema
  import Text
  import Files

  /** 2 MiB, the largest avatar the form accepts. */
  const MaxAvatarSize: nat := 2 * 1024 * 1024
  const MinPasswordLength: nat := 6

  const TooLarge := "File size must be less than 2MB"
  const ProfileSaved := "Profile updated successfully!"
  const ProfileFailed := "Failed to update profile"
  const PasswordTooShort := "Password must be at least 6 characters"
  const PasswordMismatch := "Passwords do not match"
  const PasswordChanged := "Password changed successfully!"
  const PasswordFailed := "Failed to change password"
  const DeletionPending := "Account deletion is not yet implemented"

  datatype Kind = Success | Failure

  /** The banner above the forms. */
  datatype Notice = Notice(kind: Kind, text: string)

  /** The stored name of a new avatar: `userId-timestamp.ext`, where the extension is the
      text after the last '.' of the chosen file's name. */
  function AvatarFileName(userId: UserId, now: Time, name: string): string {
    userId + "-" + Text.NatToString(now) + "." + Files.Extension(name)
  }

  /** With public URLs of the form `base/fileName`, the next save deletes exactly the file
      this save uploaded, whatever the base. */
  lemma {:induction false} OldKeyIsUploadedFile(base: string, userId: UserId, now: Time, name: string)
    requires '/' !in userId && '/' !in name
    ensures Text.AfterLast(base + "/" + AvatarFileName(userId, now, name), '/') == AvatarFileName(userId, now, name)
  {
    NoSlashInAvatarName(userId, now, name);
    Text.AfterLastOfJoin(base, '/', AvatarFileName(userId, now, name));
  }

  /** An avatar's stored name is a single path segment. */
  lemma NoSlashInAvatarName(userId: UserId, now: Time, name: string)
    requires '/' !in userId && '/' !in name
    ensures '/' !in AvatarFileName(userId, now, name)
  {
    var digits := Text.NatToString(now);
    var ext := Files.Extension(name);
    forall i | 0 <= i < |digits| ensures digits[i] != '/' {
      assert Text.IsDigit(digits[i]);
    }
    forall i | 0 <= i < |ext| ensures ext[i] != '/' {
      assert ext[i] == name[|name| - |ext| + i];
    }
    assert AvatarFileName(userId, now, name) == userId + "-" + digits + "." + ext;
  }

  /** The stored avatars once the one a saved URL points at is deleted. Its key is the
      URL's last path segment (`split('/').pop()`); nothing is deleted when there is no URL
      or that segment is empty. */
  function AfterDelete(files: set<string>, saved: Option<string>): (r: set<string>)
    ensures r <= files
    ensures saved.None? || Text.AfterLast(saved.value, '/') == [] ==> r == files
    ensures saved.Some? && Text.AfterLast(saved.value, '/') != [] ==> r == files - {Text.AfterLast(saved.value, '/')}
  {
    if saved.Some? && saved.value != [] && Text.AfterLast(saved.value, '/') != [] then files - {Text.AfterLast(saved.value, '/')}
    else files
  }

  /** `remove([oldFileName])` when the saved URL has a key. Its result is not looked at:
      when the removal fails (`removeFailed`) the file stays and the save goes on. */
  method DeleteOldAvatar(db: Db, saved: Option<string>, removeFailed: bool)
    modifies db`avatarFiles
    ensures db.avatarFiles == if removeFailed then old(db.avatarFiles) else AfterDelete(old(db.avatarFiles), saved)
  {
    if saved.Some? && saved.value != [] && !removeFailed {
      var key := Text.AfterLast(saved.value, '/');
      if key != [] {
        db.avatarFiles := db.avatarFiles - {key};
      }
    }
  }

  /** The avatar step of `handleProfileUpdate`. Without a file the saved URL stays. With
      one, the old file is deleted when the saved URL has a key (a failed delete,
      `removeFailed`, keeps it and is not looked at) and the new one uploaded; the result
      is the new public URL, or an error when the upload fails. */
  method ReplaceAvatar(
    db: Db, userId: UserId, saved: Option<string>, file: Option<Files.FileInfo>, now: Time,
    publicUrl: string -> string, removeFailed: bool, uploadFailed: bool)
    returns (url: Result<Option<string>>)
    modifies db`avatarFiles
    ensures file.None? ==> url == Ok(saved) && db.avatarFiles == old(db.avatarFiles)
    ensures file.Some? ==>
      var fileName := AvatarFileName(userId, now, file.value.name);
      var kept := if removeFailed then old(db.avatarFiles) else AfterDelete(old(db.avatarFiles), saved);
      if uploadFailed then url.Err? && db.avatarFiles == kept
      else url == Ok(Some(publicUrl(fileName))) && db.avatarFiles == kept + {fileName}
  {
    if file.None? {
      return Ok(saved);
    }
    var fileName := AvatarFileName(userId, now, file.value.name);
    DeleteOldAvatar(db, saved, removeFailed);
    if uploadFailed {
      return Err(ProfileFailed);
    }
    db.avatarFiles := db.avatarFiles + {fileName};
    url := Ok(Some(publicUrl(fileName)));
  }

  /** The row the profile update writes, given the trimmed display name and bio: those and
      the avatar change, the username and the timestamp stay. */
  function Saved(p: Profile, displayName: string, bio: string, avatarUrl: Option<string>): (q: Profile)
    ensures q.displayName == Some(displayName) && q.bio == Some(bio)
    ensures q.avatarUrl == avatarUrl && q.username == p.username && q.updatedAt == p.updatedAt
  {
    p.(displayName := Some(displayName), bio := Some(bio), avatarUrl := avatarUrl)
  }

  /** The avatar URL a save writes: the new file's public URL, or the saved one. */
  function AvatarUrl(userId: UserId, now: Time, file: Option<Files.FileInfo>, saved: Option<string>, publicUrl: string -> string)
    : (url: Option<string>)
    ensures file.Some? ==> url == Some(publicUrl(AvatarFileName(userId, now, file.value.name)))
    ensures file.None? ==> url == saved
  {
    if file.Some? then Some(publicUrl(AvatarFileName(userId, now, file.value.name))) else saved
  }

  /** The profiles after `update(...).eq('id', userId)` with the trimmed fields: the
      caller's row, if there is one, gets `Saved`; no other row changes. */
  function Written(profiles: map<UserId, Profile>, userId: UserId, displayName: string, bio: string, url: Option<string>)
    : (r: map<UserId, Profile>)
    ensures r.Keys == profiles.Keys
    ensures forall u :: u in profiles && u != userId ==> r[u] == profiles[u]
    ensures userId in profiles ==> r[userId] == Saved(profiles[userId], displayName, bio, url)
  {
    if userId in profiles then profiles[userId := Saved(profiles[userId], displayName, bio, url)] else profiles
  }

  /** The saved display name and bio have nothing left to trim. */
  lemma SavedFieldsTrimmed(profiles: map<UserId, Profile>, userId: UserId, displayName: string, bio: string, url: Option<string>)
    requires userId in profiles
    ensures var q := Written(profiles, userId, Text.Trim(displayName), Text.Trim(bio), url)[userId];
      && q.displayName.Some? && Text.Trim(q.displayName.value) == q.displayName.value
      && q.bio.Some? && Text.Trim(q.bio.value) == q.bio.value
  {
    Text.TrimIdempotent(displayName);
    Text.TrimIdempotent(bio);
  }

  method WriteProfile(db: Db, userId: UserId, displayName: string, bio: string, url: Option<string>)
    modifies db`profiles
    ensures db.profiles == Written(old(db.profiles), userId, displayName, bio, url)
  {
    db.profiles := Written(db.profiles, userId, displayName, bio, url);
  }

  class SettingsView {
    const userId: UserId
    /** The `avatar_url` of the profile the page was rendered with. */
    var savedAvatar: Option<string>
    var displayName: string
    var bio: string
    var avatarFile: Option<Files.FileInfo>
    var newPassword: string
    var confirmPassword: string
    var loading: bool
    var message: Option<Notice>
    /** The passwords sent to the authentication service. */
    var passwordRequests: seq<string>
    var alerts: seq<string>

    /** A password is sent only when long enough. */
    predicate Valid()
      reads this
    {
      forall i :: 0 <= i < |passwordRequests| ==> |passwordRequests[i]| >= MinPasswordLength
    }

    constructor (userId: UserId, profile: Profile)
      ensures Valid() && this.userId == userId && savedAvatar == profile.avatarUrl
      ensures displayName == profile.displayName.GetOr([]) && bio == profile.bio.GetOr([])
      ensures avatarFile.None? && newPassword == [] && confirmPassword == [] && !loading
      ensures message.None? && passwordRequests == [] && alerts == []
    {
      this.userId := userId;
      savedAvatar := profile.avatarUrl;
      displayName := profile.displayName.GetOr([]);
      bio := profile.bio.GetOr([]);
      avatarFile := None;
      newPassword, confirmPassword, loading := [], [], false;
      message, passwordRequests, alerts := None, [], [];
    }

    method SetDisplayName(d: string)
      modifies this`displayName
      ensures displayName == d
    {
      displayName := d;
    }

    method SetBio(b: string)
      modifies this`bio
      ensures bio == b
    {
      bio := b;
    }

    method SetPasswords(p: string, c: string)
      modifies this`newPassword, this`confirmPassword
      ensures newPassword == p && confirmPassword == c
    {
      newPassword, confirmPassword := p, c;
    }

    /** `handleAvatarChange`: a file over 2 MiB is refused and not selected; exactly 2 MiB
        is fine. No file chosen changes nothing. */
    method ChooseAvatar(file: Option<Files.FileInfo>)
      modifies this`avatarFile, this`message
      ensures file.None? ==> avatarFile == old(avatarFile) && message == old(message)
      ensures file.Some? && file.value.size > MaxAvatarSize ==>
        avatarFile == old(avatarFile) && message == Some(Notice(Failure, TooLarge))
      ensures file.Some? && file.value.size <= MaxAvatarSize ==> avatarFile == file && message == old(message)
    {
      if file.Some? {
        if file.value.size > MaxAvatarSize {
          message := Some(Notice(Failure, TooLarge));
          return;
        }
        avatarFile := file;
      }
    }

    /** `handleProfileUpdate`. With a file chosen, the old avatar is deleted and the new one
        uploaded under `AvatarFileName`; a failed upload ends the save. The caller's row
        then gets the trimmed fields and the avatar URL; matching no row is not an error.
        On success the file is cleared and the page reloads the saved avatar. The avatar
        store keeps what was deleted and uploaded even when the row update then fails. */
    method SaveProfile(
      db: Db, now: Time, publicUrl: string -> string, removeFailed: bool, uploadFailed: bool, updateFailed: bool)
      modifies this`loading, this`message, this`avatarFile, this`savedAvatar, db`avatarFiles, db`profiles
      ensures !loading
      ensures
        var url := AvatarUrl(userId, now, old(avatarFile), old(savedAvatar), publicUrl);
        if (old(avatarFile).Some? && uploadFailed) || updateFailed then
          && message == Some(Notice(Failure, ProfileFailed)) && avatarFile == old(avatarFile)
          && db.profiles == old(db.profiles) && savedAvatar == old(savedAvatar)
        else
          && message == Some(Notice(Success, ProfileSaved)) && avatarFile.None?
          && db.profiles == Written(old(db.profiles), userId, Text.Trim(old(displayName)), Text.Trim(old(bio)), url)
          && savedAvatar == (if userId in old(db.profiles) then url else old(savedAvatar))
      ensures old(avatarFile).None? ==> db.avatarFiles == old(db.avatarFiles)
      ensures old(avatarFile).Some? ==>
        var fileName := AvatarFileName(userId, now, old(avatarFile).value.name);
        var kept := if removeFailed then old(db.avatarFiles) else AfterDelete(old(db.avatarFiles), old(savedAvatar));
        db.avatarFiles == if uploadFailed then kept else kept + {fileName}
    {
      var name, about := Text.Trim(displayName), Text.Trim(bio);
      loading := true;
      message := None;
      var url := ReplaceAvatar(db, userId, savedAvatar, avatarFile, now, publicUrl, removeFailed, uploadFailed);
      if url.Err? || updateFailed {
        message := Some(Notice(Failure, ProfileFailed));
      } else {
        WriteProfile(db, userId, name, about, url.value);
        if userId in db.profiles {
          savedAvatar := url.value;
        }
        message := Some(Notice(Success, ProfileSaved));
        avatarFile := None;
      }
      loading := false;
    }

    /** `handlePasswordChange`: a password under six characters is refused before the two
        fields are compared; then a mismatch is refused; otherwise the password is sent,
        and on success both fields are cleared. */
    method ChangePassword(failed: bool)
      requires Valid()
      modifies this`loading, this`message, this`newPassword, this`confirmPassword, this`passwordRequests
      ensures Valid() && !loading
      ensures
        if |old(newPassword)| < MinPasswordLength then
          && message == Some(Notice(Failure, PasswordTooShort)) && passwordRequests == old(passwordRequests)
          && newPassword == old(newPassword) && confirmPassword == old(confirmPassword)
        else if old(newPassword) != old(confirmPassword) then
          && message == Some(Notice(Failure, PasswordMismatch)) && passwordRequests == old(passwordRequests)
          && newPassword == old(newPassword) && confirmPassword == old(confirmPassword)
        else
          && passwordRequests == old(passwordRequests) + [old(newPassword)]
          && (failed ==> message == Some(Notice(Failure, PasswordFailed))
                         && newPassword == old(newPassword) && confirmPassword == old(confirmPassword))
          && (!failed ==> message == Some(Notice(Success, PasswordChanged)) && newPassword == [] && confirmPassword == [])
    {
      loading := true;
      message := None;
      if |newPassword| < MinPasswordLength {
        message := Some(Notice(Failure, PasswordTooShort));
        loading := false;
        return;
      }
      if newPassword != confirmPassword {
        message := Some(Notice(Failure, PasswordMismatch));
        loading := false;
        return;
      }
      passwordRequests := passwordRequests + [newPassword];
      if failed {
        message := Some(Notice(Failure, PasswordFailed));
      } else {
        message := Some(Notice(Success, PasswordChanged));
        newPassword := [];
        confirmPassword := [];
      }
      loading := false;
    }

    /** `handleDeleteAccount`: after the confirmation only an alert that deletion is not
        implemented. */
    method DeleteAccount(confirmed: bool)
      modifies this`alerts, this`loading
      ensures confirmed ==> !loading
      ensures !confirmed ==> loading == old(loading)
      ensures alerts == if confirmed then old(alerts) + [DeletionPending] else old(alerts)
    {
      if !confirmed {
        return;
      }
      loading := true;
      alerts := alerts + [DeletionPending];
      loading := false;
    }
  }

  /** A matching pair of short passwords is still refused for its length: the length rule
      comes first. */
  method ShortMatchingPasswordRefused(v: SettingsView)
    requires v.Valid()
    modifies v
    ensures v.message == Some(Notice(Failure, PasswordTooShort)) && v.passwordRequests == old(v.passwordRequests)
  {
    v.SetPasswords("abc", "abc");
    v.ChangePassword(false);
  }
}
