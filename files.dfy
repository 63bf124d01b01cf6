/** Attachments: validation of an uploaded file and its storage path in the
    `message-files` bucket. */
module Files {
  import opened Wrappers
  import opened Schema
  import Text

  /** The parts of a browser `File` the server reads. */
  datatype FileInfo = FileInfo(name: string, mimeType: string, size: nat)

  /** The success answer of `uploadFile`. */
  datatype Upload = Upload(url: string, fileName: string, fileType: string, fileSize: nat)

  /** 10 MiB. */
  const MaxFileSize: nat := 10 * 1024 * 1024

  const ImageTypes: seq<string> := ["image/jpeg", "image/png", "image/gif", "image/webp"]
  const DocumentTypes: seq<string> := [
    "application/pdf",
    "application/msword",
    "application/vnd.openxmlformats-officedocument.wordprocessingml.document"
  ]
  const AllowedTypes: seq<string> := ImageTypes + DocumentTypes

  /** `name.split(".").pop()`. */
  function Extension(name: string): (ext: string)
    ensures '.' !in ext && |ext| <= |name| && ext == name[|name| - |ext|..]
    ensures |ext| < |name| ==> name[|name| - |ext| - 1] == '.'
    ensures '.' !in name ==> ext == name
  {
    Text.AfterLast(name, '.')
  }

  /** `${userId}/${Date.now()}.${ext}`: the path under which a user's upload is stored. */
  function StoragePath(user: UserId, now: Time, name: string): string {
    user + "/" + Text.NatToString(now) + "." + Extension(name)
  }

  /** A storage path gives back its owner before the first "/", when the id has none. */
  lemma {:induction false} StoragePathOwner(user: UserId, now: Time, name: string)
    requires '/' !in user
    ensures Text.BeforeFirst(StoragePath(user, now, name), '/') == user
  {
    var stamp, ext := Text.NatToString(now), Extension(name);
    Text.Regroup(user, "/", stamp, ".", ext);
    Text.BeforeFirstOfJoin(user, '/', stamp + "." + ext);
  }

  /** A storage path gives back the original file's extension after the last ".". */
  lemma {:induction false} StoragePathExtension(user: UserId, now: Time, name: string)
    ensures Text.AfterLast(StoragePath(user, now, name), '.') == Extension(name)
  {
    var front := user + "/" + Text.NatToString(now);
    assert StoragePath(user, now, name) == front + ['.'] + Extension(name);
    Text.AfterLastOfJoin(front, '.', Extension(name));
  }

  /** The size check: at most 10 MiB. */
  predicate SizeAllowed(size: nat) {
    size <= MaxFileSize
  }

  /** The first failed check of `uploadFile`, in the order the code makes them, or None
      when all pass. */
  function Refusal(user: Option<UserId>, file: Option<FileInfo>): (e: Option<string>)
    ensures e.None? <==> user.Some? && file.Some? && SizeAllowed(file.value.size) && file.value.mimeType in AllowedTypes
    ensures user.None? ==> e == Some("Unauthorized")
    ensures user.Some? && file.None? ==> e == Some("No file provided")
    ensures user.Some? && file.Some? && !SizeAllowed(file.value.size) ==> e == Some("File size exceeds 10MB limit")
    ensures user.Some? && file.Some? && SizeAllowed(file.value.size) && file.value.mimeType !in AllowedTypes ==>
      e == Some("File type not allowed")
  {
    if user.None? then Some("Unauthorized")
    else if file.None? then Some("No file provided")
    else if file.value.size > MaxFileSize then Some("File size exceeds 10MB limit")
    else if file.value.mimeType !in AllowedTypes then Some("File type not allowed")
    else None
  }

  /** Exactly 10 MiB is accepted and one byte more is not; the seven listed types are the
      only ones accepted. */
  lemma SizeAndTypeBoundary(u: UserId, name: string, mimeType: string)
    ensures Refusal(Some(u), Some(FileInfo(name, "image/png", MaxFileSize))).None?
    ensures Refusal(Some(u), Some(FileInfo(name, "image/png", MaxFileSize + 1))) == Some("File size exceeds 10MB limit")
    ensures Refusal(Some(u), Some(FileInfo(name, mimeType, 0))).None? <==> mimeType in AllowedTypes
    ensures Refusal(Some(u), Some(FileInfo(name, "image/svg+xml", 0))).Some?
  {
    assert "image/png" == ImageTypes[1];
    assert "image/svg+xml" != ImageTypes[0] && "image/svg+xml" != ImageTypes[1];
    assert "image/svg+xml" != ImageTypes[2] && "image/svg+xml" != ImageTypes[3];
    assert |"image/svg+xml"| != |DocumentTypes[0]| && |"image/svg+xml"| != |DocumentTypes[1]|;
    assert |"image/svg+xml"| != |DocumentTypes[2]|;
  }

  /** `uploadFile`. A refused file uploads nothing. The upload never overwrites: a path
      that already holds a file fails with the storage service's `conflictError`. On
      success the answer carries the public URL of the new path and echoes the file. */
  method UploadFile(
    db: Db, user: Option<UserId>, file: Option<FileInfo>, now: Time, publicUrl: string -> string,
    failure: Option<string>, conflictError: string)
    returns (r: Result<Upload>)
    modifies db`messageFiles
    ensures Refusal(user, file).Some? ==> r == Err(Refusal(user, file).value) && db.messageFiles == old(db.messageFiles)
    ensures Refusal(user, file).None? ==>
      var path := StoragePath(user.value, now, file.value.name);
      && (path in old(db.messageFiles) ==> r == Err(conflictError) && db.messageFiles == old(db.messageFiles))
      && (path !in old(db.messageFiles) && failure.Some? ==> r == Err(failure.value) && db.messageFiles == old(db.messageFiles))
      && (path !in old(db.messageFiles) && failure.None? ==>
            && db.messageFiles == old(db.messageFiles) + {path}
            && r == Ok(Upload(publicUrl(path), file.value.name, file.value.mimeType, file.value.size)))
  {
    var refusal := Refusal(user, file);
    if refusal.Some? {
      return Err(refusal.value);
    }
    var path := StoragePath(user.value, now, file.value.name);
    if path in db.messageFiles {
      return Err(conflictError);
    }
    if failure.Some? {
      return Err(failure.value);
    }
    db.messageFiles := db.messageFiles + {path};
    r := Ok(Upload(publicUrl(path), file.value.name, file.value.mimeType, file.value.size));
  }
}
