/** The in-memory stand-in for the three Prisma tables the controllers use
    (`folder`, `file`, `share`), with autoincrement counters for the ids the
    database assigns and the queries the controllers issue. */
module Repository {
  import opened Wrappers

  datatype Folder = Folder(id: int, ownerId: int, parentId: Option<int>, name: string, createdAt: int)

  datatype FileRecord = FileRecord(
    id: int, ownerId: int, folderId: Option<int>, originalName: string,
    storagePath: string, mimeType: string, sizeBytes: int, createdAt: int)

  datatype Share = Share(token: string, ownerId: int, folderId: int, expiresAt: Option<int>)

  /** Rows are kept in insertion order; `nextFolderId`/`nextFileId` are the
      autoincrement counters. */
  datatype Store = Store(
    folders: seq<Folder>, files: seq<FileRecord>, shares: seq<Share>,
    nextFolderId: int, nextFileId: int)

  /** What the database guarantees: ids are unique, positive and below the
      autoincrement counter. Shares are keyed by their token and carry no
      id, so nothing here constrains them. */
  predicate Valid(s: Store) {
    && 1 <= s.nextFolderId && 1 <= s.nextFileId
    && (forall i :: 0 <= i < |s.folders| ==> 1 <= s.folders[i].id < s.nextFolderId)
    && (forall i, j :: 0 <= i < j < |s.folders| ==> s.folders[i].id != s.folders[j].id)
    && (forall i :: 0 <= i < |s.files| ==> 1 <= s.files[i].id < s.nextFileId)
    && (forall i, j :: 0 <= i < j < |s.files| ==> s.files[i].id != s.files[j].id)
  }

  /** A file placed in a folder sits in a folder of its own owner. */
  predicate FilesInOwnedFolders(s: Store) {
    forall f :: f in s.files && f.folderId.Some? ==> FindOwnedFolder(s.folders, f.folderId.value, f.ownerId).Some?
  }

  /** A share points at a folder of its own owner. */
  predicate SharesOnOwnedFolders(s: Store) {
    forall sh :: sh in s.shares ==> FindOwnedFolder(s.folders, sh.folderId, sh.ownerId).Some?
  }

  /** Adding folders never makes an owned-folder lookup fail. */
  lemma OwnedFolderSurvivesAppend(folders: seq<Folder>, more: seq<Folder>, id: int, ownerId: int)
    requires FindOwnedFolder(folders, id, ownerId).Some?
    ensures FindOwnedFolder(folders + more, id, ownerId).Some?
  {
    var f := FindOwnedFolder(folders, id, ownerId).value;
    assert f in folders + more;
  }

  /** The first row satisfying `p` (`findFirst`/`findUnique`). */
  function FindFirst<T>(xs: seq<T>, p: T -> bool): (r: Option<T>)
    ensures r.Some? ==> r.value in xs && p(r.value)
    ensures r.None? <==> forall k :: 0 <= k < |xs| ==> !p(xs[k])
  {
    if |xs| == 0 then None
    else if p(xs[0]) then Some(xs[0])
    else FindFirst(xs[1..], p)
  }

  /** `prisma.folder.findUnique({ where: { id } })`. */
  function FindFolder(folders: seq<Folder>, id: int): (r: Option<Folder>)
    ensures r.Some? ==> r.value in folders && r.value.id == id
    ensures r.None? <==> forall f :: f in folders ==> f.id != id
  {
    FindFirst(folders, (f: Folder) => f.id == id)
  }

  /** `prisma.folder.findFirst({ where: { id, ownerId } })`: a folder only
      when both the id and the owner match, otherwise nothing. */
  function FindOwnedFolder(folders: seq<Folder>, id: int, ownerId: int): (r: Option<Folder>)
    ensures r.Some? ==> r.value in folders && r.value.id == id && r.value.ownerId == ownerId
    ensures r.None? <==> forall f :: f in folders ==> !(f.id == id && f.ownerId == ownerId)
  {
    FindFirst(folders, (f: Folder) => f.id == id && f.ownerId == ownerId)
  }

  /** `prisma.file.findUnique({ where: { id } })`. */
  function FindFile(files: seq<FileRecord>, id: int): (r: Option<FileRecord>)
    ensures r.Some? ==> r.value in files && r.value.id == id
    ensures r.None? <==> forall f :: f in files ==> f.id != id
  {
    FindFirst(files, (f: FileRecord) => f.id == id)
  }

  /** In a valid store a lookup by id finds the one folder with that id. */
  lemma FindFolderIsThatFolder(s: Store, f: Folder)
    requires Valid(s) && f in s.folders
    ensures FindFolder(s.folders, f.id) == Some(f)
    ensures FindOwnedFolder(s.folders, f.id, f.ownerId) == Some(f)
  {
    var g := FindFolder(s.folders, f.id).value;
    var h := FindOwnedFolder(s.folders, f.id, f.ownerId).value;
    var i :| 0 <= i < |s.folders| && s.folders[i] == f;
    var j :| 0 <= j < |s.folders| && s.folders[j] == g;
    var k :| 0 <= k < |s.folders| && s.folders[k] == h;
    assert i == j && i == k;
  }

  /** In a valid store a lookup by id finds the one file with that id. */
  lemma FindFileIsThatFile(s: Store, f: FileRecord)
    requires Valid(s) && f in s.files
    ensures FindFile(s.files, f.id) == Some(f)
  {
    var g := FindFile(s.files, f.id).value;
    var i :| 0 <= i < |s.files| && s.files[i] == f;
    var j :| 0 <= j < |s.files| && s.files[j] == g;
    assert i == j;
  }

  /** The result of a `create` call: the new store and the created row. */
  datatype Created<T> = Created(store: Store, row: T)

  /** `prisma.folder.create`: the new row takes the next autoincrement id
      and the database clock `now` as `createdAt`. */
  function CreateFolder(s: Store, ownerId: int, parentId: Option<int>, name: string, now: int): (r: Created<Folder>)
    ensures r.row == Folder(s.nextFolderId, ownerId, parentId, name, now)
    ensures r.store.folders == s.folders + [r.row]
    ensures r.store.files == s.files && r.store.shares == s.shares
    ensures r.store.nextFileId == s.nextFileId
    ensures Valid(s) ==> Valid(r.store) && forall g :: g in s.folders ==> g.id != r.row.id
  {
    var f := Folder(s.nextFolderId, ownerId, parentId, name, now);
    Created(s.(folders := s.folders + [f], nextFolderId := s.nextFolderId + 1), f)
  }

  /** `prisma.file.create`, with the same id and clock conventions. */
  function CreateFile(s: Store, ownerId: int, folderId: Option<int>, originalName: string,
                      storagePath: string, mimeType: string, sizeBytes: int, now: int): (r: Created<FileRecord>)
    ensures r.row == FileRecord(s.nextFileId, ownerId, folderId, originalName, storagePath, mimeType, sizeBytes, now)
    ensures r.store.files == s.files + [r.row]
    ensures r.store.folders == s.folders && r.store.shares == s.shares
    ensures r.store.nextFolderId == s.nextFolderId
    ensures Valid(s) ==> Valid(r.store) && forall g :: g in s.files ==> g.id != r.row.id
  {
    var f := FileRecord(s.nextFileId, ownerId, folderId, originalName, storagePath, mimeType, sizeBytes, now);
    Created(s.(files := s.files + [f], nextFileId := s.nextFileId + 1), f)
  }

  /** `prisma.share.create`. */
  function CreateShare(s: Store, token: string, ownerId: int, folderId: int, expiresAt: Option<int>): (r: Created<Share>)
    ensures r.row == Share(token, ownerId, folderId, expiresAt)
    ensures r.store.shares == s.shares + [r.row]
    ensures r.store.folders == s.folders && r.store.files == s.files
    ensures r.store.nextFolderId == s.nextFolderId && r.store.nextFileId == s.nextFileId
  {
    var sh := Share(token, ownerId, folderId, expiresAt);
    Created(s.(shares := s.shares + [sh]), sh)
  }
}
