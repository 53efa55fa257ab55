/** `POST /files/upload`: the multer middleware, its error handler and then
    `postUploadFile`. multer runs before the handler checks the session, so
    an oversized file is refused whoever sends it. */
module FilesRouter {
  import opened Wrappers
  import opened Repository
  import opened PreviewUrl
  import opened Http
  import opened Upload
  import opened FilesController

  /** What the client sends in the `file` field of the multipart body. */
  datatype Incoming = Incoming(originalName: string, mimeType: string, size: int)

  /** The page the error handler renders for multer's `LIMIT_FILE_SIZE`. */
  const TooLarge: Response :=
    Render(400, "error", ErrorPage("Upload Error", "File is too large. Maximum size is 10MB."))

  predicate FilesWithinLimit(s: Store) {
    forall f :: f in s.files ==> f.sizeBytes <= MaxFileSize
  }

  /** What multer hands the handler: the file written as
      `<uploadDir>/<stamp>_<hex>_<safe base name>`. */
  function Stored(uploadDir: string, stamp: nat, hex: string, incoming: Incoming): (u: UploadedFile)
    ensures u.originalname == incoming.originalName && u.mimetype == incoming.mimeType && u.size == incoming.size
    ensures u.path == StoredPath(uploadDir, stamp, hex, incoming.originalName)
  {
    UploadedFile(incoming.originalName, StoredPath(uploadDir, stamp, hex, incoming.originalName),
                 incoming.mimeType, incoming.size)
  }

  /** The whole route. `stamp` is `Date.now()` and `hex` the random part of
      the stored name. */
  function UploadRoute(s: Store, user: Option<int>, incoming: Option<Incoming>, folderField: Option<int>,
                       uploadDir: string, stamp: nat, hex: string, now: int): (r: Step)
    ensures incoming.Some? && incoming.value.size > MaxFileSize ==> r == Step(TooLarge, s)
    ensures incoming.Some? && incoming.value.size <= MaxFileSize && user.None? ==> r == Step(ToLogin, s)
    ensures r.store != s ==>
              && user.Some? && incoming.Some? && incoming.value.size <= MaxFileSize
              && |r.store.files| == |s.files| + 1 && r.store.files[..|s.files|] == s.files
              && var f := r.store.files[|s.files|];
                 && f.ownerId == user.value && f.folderId == folderField
                 && f.originalName == incoming.value.originalName
                 && f.sizeBytes == incoming.value.size
                 && f.storagePath == StoredPath(uploadDir, stamp, hex, incoming.value.originalName)
    ensures FilesWithinLimit(s) ==> FilesWithinLimit(r.store)
    ensures Valid(s) ==> Valid(r.store)
  {
    if incoming.Some? && incoming.value.size > MaxFileSize then Step(TooLarge, s)
    else
      var upload := if incoming.Some? then Some(Stored(uploadDir, stamp, hex, incoming.value)) else None;
      var r := PostUploadFile(s, user, upload, folderField, now);
      assert r.store != s ==> r.store.files == s.files + [r.store.files[|s.files|]];
      r
  }

  /** The preview link of an uploaded file is `/uploads/` followed by the
      name multer stored it under. */
  lemma UploadedPreviewIsStoredName(s: Store, user: int, incoming: Incoming, folderField: Option<int>,
                                    uploadDir: string, stamp: nat, hex: string, now: int)
    requires IsHex(hex) && incoming.size <= MaxFileSize
    requires folderField.Some? ==> FindOwnedFolder(s.folders, folderField.value, user).Some?
    ensures var r := UploadRoute(s, Some(user), Some(incoming), folderField, uploadDir, stamp, hex, now);
            && |r.store.files| == |s.files| + 1
            && WithPreview(r.store.files[|s.files|]).previewUrl == UploadsPrefix + StoredName(stamp, hex, incoming.originalName)
  {
    var u := Stored(uploadDir, stamp, hex, incoming);
    assert UploadAccepted(s, Some(user), Some(u), folderField);
  }

  /** The upload directory is absolute (`path.join(process.cwd(), "uploads")`),
      so a stored path is never an `http(s)` URL and the utility
      `toPreviewUrl` gives the same link the views build inline. */
  lemma StoredPathPreviewsAgree(uploadDir: string, stamp: nat, hex: string, originalName: string)
    requires "/" <= uploadDir
    ensures var p := StoredPath(uploadDir, stamp, hex, originalName);
            ToPreviewUrl(Some(p)) == InlinePreviewUrl(p)
  {
    var p := StoredPath(uploadDir, stamp, hex, originalName);
    assert p[0] == '/';
    InlineAgreesWithToPreviewUrl(p);
  }
}
