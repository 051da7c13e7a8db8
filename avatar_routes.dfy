/** The avatar upload: size and file-name checks, then the upload (a foreign
    call, so its outcome is a parameter), then the user's avatar column. */
module AvatarRoutes {
  import opened Common
  import opened Models
  import opened Query
  import opened Store

  const MaxFileSize: nat := 5 * 1024 * 1024
  const AllowedExtensions: seq<string> := ["jpg", "jpeg", "png"]

  const FileTooLarge: Error := Http(400, "File is too large. Maximum size is 5MB.")
  const InvalidFileFormat: Error := Http(400, "Invalid file format. Only jpg, jpeg, and png are allowed.")

  /** filename.split(".")[-1]: the text after the last dot, or the whole name
      when there is none. */
  function LastSegment(s: string): (r: string)
    ensures '.' !in r
    ensures |r| <= |s| && r == s[|s| - |r|..]
    ensures |r| < |s| ==> s[|s| - |r| - 1] == '.'
  {
    if s == [] then []
    else if s[|s| - 1] == '.' then []
    else
      var init := s[..|s| - 1];
      var rest := LastSegment(init);
      assert init[|init| - |rest|..] + [s[|s| - 1]] == s[|s| - |rest| - 1..];
      rest + [s[|s| - 1]]
  }

  /** file.filename.split(".")[-1].lower() */
  function Extension(filename: string): string
  {
    Lower(LastSegment(filename))
  }

  /** The two checks, size first. */
  function CheckUpload(size: nat, filename: string): (r: Result<string>)
    ensures r.Ok? <==> size <= MaxFileSize && Extension(filename) in AllowedExtensions
    ensures r.Ok? ==> r.value == Extension(filename)
    ensures size > MaxFileSize ==> r == Err(FileTooLarge)
    ensures size <= MaxFileSize && Extension(filename) !in AllowedExtensions ==> r == Err(InvalidFileFormat)
  {
    if size > MaxFileSize then Err(FileTooLarge)
    else if Extension(filename) !in AllowedExtensions then Err(InvalidFileFormat)
    else Ok(Extension(filename))
  }

  /** The extension is matched case-insensitively, and a file of exactly 5 MiB
      is still accepted. */
  lemma UpperCaseExtensionAccepted()
    ensures CheckUpload(MaxFileSize, "A.PNG") == Ok("png")
  {
    var s := "A.PNG";
    assert s[..4][..3][..2][|s[..4][..3][..2]| - 1] == '.';
    assert LastSegment(s[..4][..3][..2]) == [];
    assert LastSegment(s) == "PNG";
    assert Lower("PNG") == "png";
  }

  /** Only the text after the last dot counts. */
  lemma LastDotDecides()
    ensures CheckUpload(0, "x.png.exe") == Err(InvalidFileFormat)
  {
    var s := "x.png.exe";
    assert s[..8][..7][..6][|s[..8][..7][..6]| - 1] == '.';
    assert LastSegment(s[..8][..7][..6]) == [];
    assert LastSegment(s) == "exe";
    assert Lower("exe") == "exe";
  }

  /** What the upload call did: returned a response (whose secure_url may be
      missing), raised cloudinary's own error, or raised anything else. */
  datatype UploadOutcome =
    | Uploaded(secureUrl: Option<string>)
    | CloudinaryFailure(message: string)
    | OtherFailure(message: string)

  /** The answer of upload_avatar. The checks raise HTTPExceptions inside the
      try, so they come back through `except Exception` as "General error: ...". */
  function AvatarUpload(size: nat, filename: string, upload: UploadOutcome): (r: Result<Option<string>>)
    ensures r.Err? ==> r.error.Http? && r.error.status == 400
    ensures r.Ok? <==> CheckUpload(size, filename).Ok? && upload.Uploaded?
    ensures r.Ok? ==> r.value == upload.secureUrl
    ensures CheckUpload(size, filename).Err? ==>
              r == Err(Http(400, "General error: " + Describe(CheckUpload(size, filename).error)))
    ensures CheckUpload(size, filename).Ok? && upload.CloudinaryFailure? ==>
              r == Err(Http(400, "Cloudinary error: " + upload.message))
  {
    match CheckUpload(size, filename)
    case Err(e) => Err(Http(400, "General error: " + Describe(e)))
    case Ok(_) =>
      match upload
      case Uploaded(url) => Ok(url)
      case CloudinaryFailure(m) => Err(Http(400, "Cloudinary error: " + m))
      case OtherFailure(m) => Err(Http(400, "General error: " + m))
  }

  /** upload_avatar: on success the calling user's avatar becomes the
      returned URL; on any failure nothing changes. */
  method UploadAvatar(db: Db, currentUser: UserRow, size: nat, filename: string, upload: UploadOutcome)
    returns (r: Result<Option<string>>)
    requires db.Valid() && currentUser.id in db.users
    modifies db
    ensures db.Valid() && db.OnlyUsersChanged()
    ensures r == AvatarUpload(size, filename, upload)
    ensures r.Err? ==> db.users == old(db.users)
    ensures r.Ok? ==> db.users == old(db.users)[currentUser.id := old(db.users)[currentUser.id].(avatar := r.value)]
  {
    r := AvatarUpload(size, filename, upload);
    if r.Ok? {
      db.users := db.users[currentUser.id := db.users[currentUser.id].(avatar := r.value)];
    }
  }
}
