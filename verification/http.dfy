/** What a controller hands back to Express: a redirect, a rendered
    template with its status and locals, a plain `send`, or `next(error)`.
    A handler that changes data returns the new store with its response. */
module Http {
  import opened Wrappers
  import opened Repository
  import opened PreviewUrl
  import opened Paths

  /** A file row with the `previewUrl` the views add (`{ ...f, previewUrl }`). */
  datatype FileView = FileView(file: FileRecord, previewUrl: string)

  /** The locals each template receives. */
  datatype View =
    | FolderPage(title: string, currentFolderId: int, folder: Folder, children: seq<Folder>, files: seq<FileView>)
    | FilesPage(title: string, folders: seq<Folder>, results: seq<FileView>)
    | FilePage(title: string, result: Option<FileView>)
    | UploadFormPage(title: string, uploadFolderId: Option<int>)  // local `currentFolderId`
    | ShareFormPage(title: string, folderId: int, ownerId: int, foundFolder: Option<Folder>)  // local `folder`
    | NotFoundPage(title: string)
    | ErrorPage(title: string, message: string)

  datatype Response =
    | Redirect(location: string)
    | Render(status: int, template: string, view: View)
    | Send(status: int, body: string)
    | NextError

  datatype Step = Step(response: Response, store: Store)

  const ToLogin: Response := Redirect("/login")

  /** The stored row, untouched, with `/uploads/<basename>` attached. */
  function WithPreview(f: FileRecord): (v: FileView)
    ensures v.file == f
    ensures UploadsPrefix <= v.previewUrl && '/' !in v.previewUrl[|UploadsPrefix|..]
    ensures v.previewUrl[|UploadsPrefix|..] == Basename(f.storagePath)
  {
    FileView(f, InlinePreviewUrl(f.storagePath))
  }

  function WithPreviews(fs: seq<FileRecord>): (vs: seq<FileView>)
    ensures |vs| == |fs|
    ensures forall i :: 0 <= i < |fs| ==> vs[i] == WithPreview(fs[i])
    ensures forall f :: WithPreview(f) in vs <==> f in fs
  {
    seq(|fs|, i requires 0 <= i < |fs| => WithPreview(fs[i]))
  }
}
