/** `renderFiles`, `renderFileById`, `renderUploadForm` and `postUploadFile`. */
module FilesController {
  import opened Wrappers
  import opened Text
  import opened Repository
  import opened Listing
  import opened Http
  import FoldersController

  /** The fields of multer's `req.file` the handler stores. */
  datatype UploadedFile = UploadedFile(originalname: string, path: string, mimetype: string, size: int)

  predicate IsRootFolder(f: Folder, userId: int) {
    f.ownerId == userId && f.parentId.None?
  }

  predicate IsRootFile(f: FileRecord, userId: int) {
    f.ownerId == userId && f.folderId.None?
  }

  /** `renderFiles`: the user's folders with no parent and the user's files
      with no folder, in table order (the queries have no `orderBy`). */
  function RenderFiles(s: Store, user: Option<int>): (r: Response)
    ensures user.None? ==> r == ToLogin
    ensures user.Some? ==>
              && r.Render? && r.status == 200 && r.template == "files"
              && r.view.FilesPage? && r.view.title == "File Viewer"
              && (forall f :: f in r.view.folders <==> f in s.folders && IsRootFolder(f, user.value))
              && (forall v :: v in r.view.results ==> v == WithPreview(v.file))
              && (forall f :: WithPreview(f) in r.view.results <==> f in s.files && IsRootFile(f, user.value))
  {
    match user
    case None => ToLogin
    case Some(u) =>
      var folders := Filter(s.folders, (f: Folder) => IsRootFolder(f, u));
      var files := Filter(s.files, (f: FileRecord) => IsRootFile(f, u));
      Render(200, "files", FilesPage("File Viewer", folders, WithPreviews(files)))
  }

  const FileNotFound: Response := Render(404, "file", FilePage("File not found", None))

  /** `renderFileById`, as written: the file is looked up by id alone, so
      any signed-in user sees any user's file. */
  function RenderFileById(s: Store, user: Option<int>, id: int): (r: Response)
    ensures user.None? ==> r == ToLogin
    ensures user.Some? && FindFile(s.files, id).None? ==> r == FileNotFound
    ensures user.Some? && FindFile(s.files, id).Some? ==>
              && r.Render? && r.status == 200 && r.template == "filesId"
              && r.view == FilePage(FindFile(s.files, id).value.originalName, Some(WithPreview(FindFile(s.files, id).value)))
  {
    match user
    case None => ToLogin
    case Some(_) =>
      match FindFile(s.files, id)
      case None => FileNotFound
      case Some(f) => Render(200, "filesId", FilePage(f.originalName, Some(WithPreview(f))))
  }

  /** Every stored file is shown to every signed-in user who asks for its
      id, whoever owns it. */
  lemma AnyUserSeesAnyFile(s: Store, user: int, f: FileRecord)
    requires Valid(s) && f in s.files
    ensures RenderFileById(s, Some(user), f.id) == Render(200, "filesId", FilePage(f.originalName, Some(WithPreview(f))))
  {
    FindFileIsThatFile(s, f);
  }

  /** `renderFileById` with the owner check `getFolderById` makes: another
      user's file gets the same 404 as a missing one. */
  function RenderOwnFileById(s: Store, user: Option<int>, id: int): (r: Response)
    ensures user.None? ==> r == ToLogin
    ensures user.Some? && (FindFile(s.files, id).None? || FindFile(s.files, id).value.ownerId != user.value) ==>
              r == FileNotFound
    ensures r.Render? && r.view.FilePage? && r.view.result.Some? ==>
              && user.Some? && r.status == 200
              && r.view.result.value.file in s.files
              && r.view.result.value.file.id == id
              && r.view.result.value.file.ownerId == user.value
  {
    match user
    case None => ToLogin
    case Some(u) =>
      match FindFile(s.files, id)
      case None => FileNotFound
      case Some(f) =>
        if f.ownerId != u then FileNotFound
        else Render(200, "filesId", FilePage(f.originalName, Some(WithPreview(f))))
  }

  /** With the owner check, asking for someone else's file cannot be told
      apart from asking for an id that does not exist. */
  lemma ForeignFileLooksMissing(s: Store, user: int, f: FileRecord, missing: int)
    requires Valid(s) && f in s.files && f.ownerId != user
    requires forall g :: g in s.files ==> g.id != missing
    ensures RenderOwnFileById(s, Some(user), f.id) == RenderOwnFileById(s, Some(user), missing)
  {
    FindFileIsThatFile(s, f);
  }

  /** `renderUploadForm`: `folderQuery` is `Number(req.query.folderId)` when
      that query value is present and non-empty. */
  function RenderUploadForm(user: Option<int>, folderQuery: Option<int>): (r: Response)
    ensures user.None? ==> r == ToLogin
    ensures user.Some? ==> r.Render? && r.status == 200 && r.template == "uploadForm"
                           && r.view.UploadFormPage? && r.view.uploadFolderId == folderQuery
  {
    match user
    case None => ToLogin
    case Some(_) => Render(200, "uploadForm", UploadFormPage("Upload a file", folderQuery))
  }

  /** The upload passes every guard of `postUploadFile`. */
  predicate UploadAccepted(s: Store, user: Option<int>, upload: Option<UploadedFile>, folderField: Option<int>) {
    && user.Some? && upload.Some?
    && (folderField.Some? ==> FindOwnedFolder(s.folders, folderField.value, user.value).Some?)
  }

  /** `postUploadFile`. `folderField` is `Number(req.body.folderId)` when
      that field is a non-empty string, `None` otherwise. */
  function PostUploadFile(s: Store, user: Option<int>, upload: Option<UploadedFile>,
                          folderField: Option<int>, now: int): (r: Step)
    ensures user.None? ==> r == Step(ToLogin, s)
    ensures user.Some? && upload.None? ==> r == Step(Redirect("/files/upload"), s)
    ensures user.Some? && upload.Some? && folderField.Some?
            && FindOwnedFolder(s.folders, folderField.value, user.value).None? ==>
              r == Step(Send(403, "Invalid folder"), s)
    ensures !UploadAccepted(s, user, upload, folderField) ==> r.store == s
    ensures UploadAccepted(s, user, upload, folderField) ==>
              && |r.store.files| == |s.files| + 1
              && r.store.files[..|s.files|] == s.files
              && r.store.folders == s.folders && r.store.shares == s.shares
              && var f := r.store.files[|s.files|];
                 && f.ownerId == user.value && f.folderId == folderField
                 && f.originalName == upload.value.originalname && f.storagePath == upload.value.path
                 && f.mimeType == upload.value.mimetype && f.sizeBytes == upload.value.size
                 && f.createdAt == now
                 && r.response == (if folderField.Some? then Redirect("/folders/" + IntToDecimal(folderField.value))
                                   else Redirect("/files"))
    ensures Valid(s) ==> Valid(r.store)
    ensures FilesInOwnedFolders(s) ==> FilesInOwnedFolders(r.store)
  {
    match user
    case None => Step(ToLogin, s)
    case Some(u) =>
      match upload
      case None => Step(Redirect("/files/upload"), s)
      case Some(up) =>
        if folderField.Some? && FindOwnedFolder(s.folders, folderField.value, u).None? then
          Step(Send(403, "Invalid folder"), s)
        else
          var c := CreateFile(s, u, folderField, up.originalname, up.path, up.mimetype, up.size, now);
          assert c.store.files[..|s.files|] == s.files;
          Step(if folderField.Some? then Redirect("/folders/" + IntToDecimal(folderField.value)) else Redirect("/files"),
               c.store)
  }

  /** A file uploaded into a folder shows up, with its preview link, on
      that folder's page. */
  lemma UploadedFileIsListedInFolder(s: Store, user: int, upload: UploadedFile, folderId: int, now: int)
    requires Valid(s)
    requires FindOwnedFolder(s.folders, folderId, user).Some?
    ensures var r := PostUploadFile(s, Some(user), Some(upload), Some(folderId), now);
            var page := FoldersController.GetFolderById(r.store, Some(user), folderId);
            page.Render? && page.view.FolderPage? && WithPreview(r.store.files[|s.files|]) in page.view.files
  {
    var r := PostUploadFile(s, Some(user), Some(upload), Some(folderId), now);
    var g := FindOwnedFolder(s.folders, folderId, user).value;
    FindFolderIsThatFolder(r.store, g);
  }

  /** A file uploaded without a folder shows up on the root listing. */
  lemma UploadedFileIsListedAtRoot(s: Store, user: int, upload: UploadedFile, now: int)
    ensures var r := PostUploadFile(s, Some(user), Some(upload), None, now);
            WithPreview(r.store.files[|s.files|]) in RenderFiles(r.store, Some(user)).view.results
  {
    var r := PostUploadFile(s, Some(user), Some(upload), None, now);
    assert UploadAccepted(s, Some(user), Some(upload), None);
    var f := r.store.files[|s.files|];
    assert f in r.store.files && IsRootFile(f, user);
  }
}
