/** `postCreateFolder` and `getFolderById`. */
module FoldersController {
  import opened Wrappers
  import opened Text
  import opened Repository
  import opened Listing
  import opened Http
  import opened PathBuilder

  const FolderNotFound: Response := Render(404, "notFound", NotFoundPage("Folder not found"))

  /** `postCreateFolder`. `parentField` is `Number(req.body.parentId)` when
      that field is a non-empty string and `None` otherwise; `nameField` is
      `None` when `req.body.name` is absent, where `.trim()` throws and the
      error goes to `next`. The parent id is stored as given: the handler
      neither checks that it exists nor that it belongs to the user. */
  function PostCreateFolder(s: Store, user: Option<int>, parentField: Option<int>,
                            nameField: Option<string>, now: int): (r: Step)
    ensures user.None? ==> r == Step(ToLogin, s)
    ensures user.Some? && nameField.None? ==> r == Step(NextError, s)
    ensures user.Some? && nameField.Some? ==>
              && |r.store.folders| == |s.folders| + 1
              && r.store.folders[..|s.folders|] == s.folders
              && r.store.files == s.files && r.store.shares == s.shares
              && var f := r.store.folders[|s.folders|];
                 && f.ownerId == user.value && f.parentId == parentField
                 && f.name == Trim(nameField.value) && f.createdAt == now
                 && f.id == s.nextFolderId && r.store.nextFolderId == s.nextFolderId + 1
                 && r.response == Redirect("/folders/" + IntToDecimal(f.id))
                 && (Valid(s) ==> forall g :: g in s.folders ==> g.id != f.id)
    ensures Valid(s) ==> Valid(r.store)
  {
    match user
    case None => Step(ToLogin, s)
    case Some(u) =>
      match nameField
      case None => Step(NextError, s)
      case Some(name) =>
        var c := CreateFolder(s, u, parentField, Trim(name), now);
        assert c.store.folders[..|s.folders|] == s.folders;
        Step(Redirect("/folders/" + IntToDecimal(c.row.id)), c.store)
  }

  predicate IsChildOf(f: Folder, userId: int, folderId: int) {
    f.ownerId == userId && f.parentId == Some(folderId)
  }

  predicate IsFileIn(f: FileRecord, userId: int, folderId: int) {
    f.ownerId == userId && f.folderId == Some(folderId)
  }

  /** `prisma.folder.findMany({ where: { ownerId, parentId }, orderBy: { createdAt: "asc" } })`. */
  function ChildFolders(folders: seq<Folder>, userId: int, folderId: int): (r: seq<Folder>)
    ensures forall f :: f in r <==> f in folders && IsChildOf(f, userId, folderId)
    ensures forall f :: multiset(r)[f] == if IsChildOf(f, userId, folderId) then multiset(folders)[f] else 0
    ensures forall i, j :: 0 <= i < j < |r| ==> r[i].createdAt <= r[j].createdAt
  {
    var matching := Filter(folders, (f: Folder) => IsChildOf(f, userId, folderId));
    var r := SortBy(matching, (f: Folder) => f.createdAt);
    assert forall f :: f in r <==> f in multiset(r);
    r
  }

  /** `prisma.file.findMany({ where: { ownerId, folderId }, orderBy: { createdAt: "desc" } })`. */
  function FilesInFolder(files: seq<FileRecord>, userId: int, folderId: int): (r: seq<FileRecord>)
    ensures forall f :: f in r <==> f in files && IsFileIn(f, userId, folderId)
    ensures forall f :: multiset(r)[f] == if IsFileIn(f, userId, folderId) then multiset(files)[f] else 0
    ensures forall i, j :: 0 <= i < j < |r| ==> r[i].createdAt >= r[j].createdAt
  {
    var matching := Filter(files, (f: FileRecord) => IsFileIn(f, userId, folderId));
    var r := SortBy(matching, (f: FileRecord) => -f.createdAt);
    assert forall f :: f in r <==> f in multiset(r);
    r
  }

  /** `getFolderById`. A missing folder and another user's folder give the
      same 404; otherwise the page lists exactly the user's child folders
      (oldest first) and the user's files in the folder (newest first), each
      file row kept whole with its preview link added. */
  function GetFolderById(s: Store, user: Option<int>, id: int): (r: Response)
    ensures user.None? ==> r == ToLogin
    ensures user.Some? && (FindFolder(s.folders, id).None? || FindFolder(s.folders, id).value.ownerId != user.value) ==>
              r == FolderNotFound
    ensures user.Some? && FindFolder(s.folders, id).Some? && FindFolder(s.folders, id).value.ownerId == user.value ==>
              && var folder := FindFolder(s.folders, id).value;
              && r.Render? && r.status == 200 && r.template == "folderId" && r.view.FolderPage?
              && r.view.folder == folder && r.view.title == folder.name && r.view.currentFolderId == folder.id
              && (forall f :: f in r.view.children <==> f in s.folders && IsChildOf(f, user.value, id))
              && (forall i, j :: 0 <= i < j < |r.view.children| ==> r.view.children[i].createdAt <= r.view.children[j].createdAt)
              && (forall v :: v in r.view.files ==> v == WithPreview(v.file))
              && (forall f :: WithPreview(f) in r.view.files <==> f in s.files && IsFileIn(f, user.value, id))
              && (forall i, j :: 0 <= i < j < |r.view.files| ==> r.view.files[i].file.createdAt >= r.view.files[j].file.createdAt)
  {
    match user
    case None => ToLogin
    case Some(u) =>
      match FindFolder(s.folders, id)
      case None => FolderNotFound
      case Some(folder) =>
        if folder.ownerId != u then FolderNotFound
        else
          var files := FilesInFolder(s.files, u, folder.id);
          Render(200, "folderId", FolderPage(folder.name, folder.id, folder,
                                             ChildFolders(s.folders, u, folder.id), WithPreviews(files)))
  }

  /** Creating a folder and then following the redirect shows that folder. */
  lemma CreatedFolderIsViewable(s: Store, user: int, parentField: Option<int>, name: string, now: int)
    requires Valid(s)
    ensures var r := PostCreateFolder(s, Some(user), parentField, Some(name), now);
            var f := r.store.folders[|s.folders|];
            && r.response == Redirect("/folders/" + IntToDecimal(f.id))
            && var page := GetFolderById(r.store, Some(user), f.id);
               page.Render? && page.view.FolderPage? && page.view.folder == f
  {
    var r := PostCreateFolder(s, Some(user), parentField, Some(name), now);
    var f := r.store.folders[|s.folders|];
    FindFolderIsThatFolder(r.store, f);
  }

  /** A folder created without a parent is a root: its breadcrumbs are just itself. */
  lemma CreatedRootFolderBreadcrumbs(s: Store, user: int, name: string, now: int)
    requires Valid(s)
    ensures var r := PostCreateFolder(s, Some(user), None, Some(name), now);
            var f := r.store.folders[|s.folders|];
            BuildFolderBreadcrumbs(r.store.folders, user, Some(f.id)) == Crumbs([Crumb(f.id, Trim(name))])
  {
    var r := PostCreateFolder(s, Some(user), None, Some(name), now);
    var f := r.store.folders[|s.folders|];
    FindFolderIsThatFolder(r.store, f);
    RootFolderBreadcrumbs(r.store.folders, user, f);
  }

  /** If the parent named at creation already exists (as a foreign key on
      `parentId` would enforce), parents keep preceding children, so by
      `BreadcrumbsTerminateWhenParentsPrecede` the breadcrumb walk ends. */
  lemma ExistingParentKeepsParentsPrecede(s: Store, user: Option<int>, parentField: Option<int>,
                                          nameField: Option<string>, now: int)
    requires Valid(s) && ParentsPrecede(s)
    requires parentField.Some? ==> FindFolder(s.folders, parentField.value).Some?
    ensures ParentsPrecede(PostCreateFolder(s, user, parentField, nameField, now).store)
  {
    if user.Some? && nameField.Some? && parentField.Some? {
      var p := FindFolder(s.folders, parentField.value).value;
      var i :| 0 <= i < |s.folders| && s.folders[i] == p;
      assert p.id < s.nextFolderId;
    }
  }

  /** Creating a folder keeps every file and every share pointing at a
      folder of its owner: the existing folders are all still there. */
  lemma CreateFolderKeepsOwnership(s: Store, user: Option<int>, parentField: Option<int>,
                                   nameField: Option<string>, now: int)
    ensures var r := PostCreateFolder(s, user, parentField, nameField, now);
            && (FilesInOwnedFolders(s) ==> FilesInOwnedFolders(r.store))
            && (SharesOnOwnedFolders(s) ==> SharesOnOwnedFolders(r.store))
  {
    var r := PostCreateFolder(s, user, parentField, nameField, now);
    if user.Some? && nameField.Some? {
      var more := [r.store.folders[|s.folders|]];
      assert r.store.folders == s.folders + more;
      if FilesInOwnedFolders(s) {
        forall f | f in r.store.files && f.folderId.Some?
          ensures FindOwnedFolder(r.store.folders, f.folderId.value, f.ownerId).Some?
        {
          OwnedFolderSurvivesAppend(s.folders, more, f.folderId.value, f.ownerId);
        }
      }
      if SharesOnOwnedFolders(s) {
        forall sh | sh in r.store.shares
          ensures FindOwnedFolder(r.store.folders, sh.folderId, sh.ownerId).Some?
        {
          OwnedFolderSurvivesAppend(s.folders, more, sh.folderId, sh.ownerId);
        }
      }
    }
  }

  /** Without that check two requests build a cycle, and on it the
      breadcrumb loop never ends: folder 1 is created under the not yet
      existing folder 2, then folder 2 under folder 1. */
  lemma UncheckedParentsCanFormCycle()
    ensures var s0 := Store([], [], [], 1, 1);
            var s1 := PostCreateFolder(s0, Some(7), Some(2), Some("a"), 0).store;
            var s2 := PostCreateFolder(s1, Some(7), Some(1), Some("b"), 1).store;
            && Valid(s2)
            && BuildFolderBreadcrumbs(s2.folders, 7, Some(1)) == Diverges
  {
    var s0 := Store([], [], [], 1, 1);
    var s1 := PostCreateFolder(s0, Some(7), Some(2), Some("a"), 0).store;
    var a := s1.folders[0];
    assert s1.folders == [a];
    var s2 := PostCreateFolder(s1, Some(7), Some(1), Some("b"), 1).store;
    var b := s2.folders[1];
    assert s2.folders == [a, b] by {
      assert s2.folders[..1] == s1.folders;
    }
    TwoFolderCycleDiverges(a, b, 7);
  }

  /** Two folders that are each other's parent: the walk from either comes
      back to where it started. */
  lemma TwoFolderCycleDiverges(a: Folder, b: Folder, userId: int)
    requires a.id != 0 && b.id != 0 && a.id != b.id
    requires a.ownerId == userId && b.ownerId == userId
    requires a.parentId == Some(b.id) && b.parentId == Some(a.id)
    ensures BuildFolderBreadcrumbs([a, b], userId, Some(a.id)) == Diverges
  {
    var folders := [a, b];
    assert FindOwnedFolder(folders, a.id, userId) == Some(a);
    assert FindOwnedFolder(folders, b.id, userId) == Some(b) by {
      assert folders[1..] == [b];
    }
    assert Ancestry(folders, userId, Some(a.id), {a.id, b.id}) == Diverges;
    assert Ancestry(folders, userId, Some(b.id), {a.id}) == Diverges;
    assert Ancestry(folders, userId, Some(a.id), {}) == Diverges;
  }
}
