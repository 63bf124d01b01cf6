/** Profile editing: username and display name, username availability, and the avatar. */
module Profiles {
  import opened Wrappers
  import opened Schema
  import Text
  import Files

  /** Whether some profile other than `u`'s holds `username`. */
  predicate TakenByOther(profiles: map<UserId, Profile>, username: string, u: UserId) {
    exists v :: v in profiles && v != u && profiles[v].username == username
  }

  /** The invariant `updateProfile` keeps: no two profiles share a username. */
  ghost predicate UniqueUsernames(profiles: map<UserId, Profile>) {
    forall a, b :: a in profiles && b in profiles && a != b ==> profiles[a].username != profiles[b].username
  }

  /** The row after `updateProfile`'s update. The display name falls back to the username
      when empty or absent; an absent bio leaves the stored bio as it was (the key is
      dropped from the update), while a given one, even "", is stored. */
  function Edited(p: Profile, username: string, displayName: Option<string>, bio: Option<string>, now: Time): (q: Profile)
    ensures q.username == username && q.updatedAt == now && q.avatarUrl == p.avatarUrl
    ensures q.displayName.Some?
    ensures displayName.Some? && displayName.value != [] ==> q.displayName == displayName
    ensures displayName.None? || displayName.value == [] ==> q.displayName == Some(username)
    ensures q.bio == if bio.Some? then bio else p.bio
  {
    p.(username := username, displayName := Some(Text.NonEmpty(displayName).GetOr(username)),
       bio := if bio.Some? then bio else p.bio, updatedAt := now)
  }

  /** `updateProfile`. A username held by another profile is refused; keeping one's own is
      fine. The update matches the caller's row only, and matching none is not an error. */
  method UpdateProfile(
    db: Db, user: Option<UserId>, username: string, displayName: Option<string>, bio: Option<string>,
    now: Time, failure: Option<string>)
    returns (r: Outcome)
    modifies db`profiles
    ensures UniqueUsernames(old(db.profiles)) ==> UniqueUsernames(db.profiles)
    ensures user.None? ==> r == Failed("Unauthorized") && db.profiles == old(db.profiles)
    ensures user.Some? && TakenByOther(old(db.profiles), username, user.value) ==>
      r == Failed("Username already taken") && db.profiles == old(db.profiles)
    ensures user.Some? && !TakenByOther(old(db.profiles), username, user.value) && failure.Some? ==>
      r == Failed(failure.value) && db.profiles == old(db.profiles)
    ensures user.Some? && !TakenByOther(old(db.profiles), username, user.value) && failure.None? ==>
      && r == Done
      && db.profiles == if user.value in old(db.profiles)
                        then old(db.profiles)[user.value := Edited(old(db.profiles)[user.value], username, displayName, bio, now)]
                        else old(db.profiles)
  {
    if user.None? {
      return Failed("Unauthorized");
    }
    if TakenByOther(db.profiles, username, user.value) {
      return Failed("Username already taken");
    }
    if failure.Some? {
      return Failed(failure.value);
    }
    if user.value in db.profiles {
      db.profiles := db.profiles[user.value := Edited(db.profiles[user.value], username, displayName, bio, now)];
    }
    r := Done;
  }

  /** `checkUsername`: available exactly when no profile holds the name. */
  function CheckUsername(profiles: map<UserId, Profile>, username: string): (available: bool)
    ensures available <==> forall v :: v in profiles ==> profiles[v].username != username
  {
    !exists v :: v in profiles && profiles[v].username == username
  }

  /** Once a caller has stored a username it is no longer available, and it is taken for
      every other user. */
  lemma StoredNameIsTaken(profiles: map<UserId, Profile>, u: UserId, username: string, displayName: Option<string>, bio: Option<string>, now: Time, other: UserId)
    requires u in profiles && other != u
    ensures var after := profiles[u := Edited(profiles[u], username, displayName, bio, now)];
      !CheckUsername(after, username) && TakenByOther(after, username, other)
  {
    var after := profiles[u := Edited(profiles[u], username, displayName, bio, now)];
    assert after[u].username == username;
  }

  /** 5 MiB. */
  const MaxAvatarSize: nat := 5 * 1024 * 1024

  /** The checks of `uploadAvatar` after the caller's: a file, of an image type, within
      5 MiB. */
  function AvatarRefusal(file: Option<Files.FileInfo>): (e: Option<string>)
    ensures e.None? <==> file.Some? && Text.StartsWith(file.value.mimeType, "image/") && file.value.size <= MaxAvatarSize
    ensures file.None? ==> e == Some("No file provided")
    ensures file.Some? && !Text.StartsWith(file.value.mimeType, "image/") ==> e == Some("File must be an image")
    ensures file.Some? && Text.StartsWith(file.value.mimeType, "image/") && file.value.size > MaxAvatarSize ==>
      e == Some("File size must be less than 5MB")
  {
    if file.None? then Some("No file provided")
    else if !Text.StartsWith(file.value.mimeType, "image/") then Some("File must be an image")
    else if file.value.size > MaxAvatarSize then Some("File size must be less than 5MB")
    else None
  }

  /** The steps of `uploadAvatar` after the checks: store the file at `path`, then point the
      profile at `url`. */
  method StoreAvatar(db: Db, user: UserId, path: string, url: string, uploadFailure: Option<string>, updateFailure: Option<string>)
    returns (r: Result<string>)
    modifies db`avatarFiles, db`profiles
    ensures uploadFailure.Some? ==> r == Err(uploadFailure.value) && unchanged(db)
    ensures uploadFailure.None? ==> db.avatarFiles == old(db.avatarFiles) + {path}
    ensures uploadFailure.None? && updateFailure.Some? ==> r == Err(updateFailure.value) && db.profiles == old(db.profiles)
    ensures uploadFailure.None? && updateFailure.None? ==>
      && r == Ok(url)
      && db.profiles == if user in old(db.profiles)
                        then old(db.profiles)[user := old(db.profiles)[user].(avatarUrl := Some(url))]
                        else old(db.profiles)
  {
    if uploadFailure.Some? {
      return Err(uploadFailure.value);
    }
    db.avatarFiles := db.avatarFiles + {path};
    if updateFailure.Some? {
      return Err(updateFailure.value);
    }
    if user in db.profiles {
      db.profiles := db.profiles[user := db.profiles[user].(avatarUrl := Some(url))];
    }
    r := Ok(url);
  }

  /** `uploadAvatar`. The upload may overwrite. The profile's avatar URL changes only after
      the upload succeeded; a failed profile update leaves the uploaded file in place. */
  method UploadAvatar(
    db: Db, user: Option<UserId>, file: Option<Files.FileInfo>, now: Time, publicUrl: string -> string,
    uploadFailure: Option<string>, updateFailure: Option<string>)
    returns (r: Result<string>)
    modifies db`avatarFiles, db`profiles
    ensures user.None? ==> r == Err("Unauthorized") && unchanged(db)
    ensures user.Some? && AvatarRefusal(file).Some? ==> r == Err(AvatarRefusal(file).value) && unchanged(db)
    ensures user.Some? && AvatarRefusal(file).None? ==>
      var path := Files.StoragePath(user.value, now, file.value.name);
      && (uploadFailure.Some? ==> r == Err(uploadFailure.value) && unchanged(db))
      && (uploadFailure.None? ==> db.avatarFiles == old(db.avatarFiles) + {path})
      && (uploadFailure.None? && updateFailure.Some? ==> r == Err(updateFailure.value) && db.profiles == old(db.profiles))
      && (uploadFailure.None? && updateFailure.None? ==>
            && r == Ok(publicUrl(path))
            && db.profiles == if user.value in old(db.profiles)
                              then old(db.profiles)[user.value := old(db.profiles)[user.value].(avatarUrl := Some(publicUrl(path)))]
                              else old(db.profiles))
  {
    if user.None? {
      return Err("Unauthorized");
    }
    var refusal := AvatarRefusal(file);
    if refusal.Some? {
      return Err(refusal.value);
    }
    var path := Files.StoragePath(user.value, now, file.value.name);
    r := StoreAvatar(db, user.value, path, publicUrl(path), uploadFailure, updateFailure);
  }
}
