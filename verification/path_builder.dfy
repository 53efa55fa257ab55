/** `buildFolderBreadcrumbs`: starting from a folder id, repeatedly look the
    folder up scoped to the user, record `{id, name}`, and follow
    `parentId`; stop on a falsy id or on a folder that is missing or not the
    user's; finally reverse, so the chain is root-first.

    The source loop has no bound. The model carries the set of folders
    already visited; the loop is deterministic and the store does not change
    while it runs, so reaching a visited folder again means the loop would
    repeat forever, and the model reports `Diverges` there. That set is the
    termination measure: every step visits a new folder of the user's. */
module PathBuilder {
  import opened Wrappers
  import opened Repository

  datatype Crumb = Crumb(id: int, name: string)

  /** The crumbs the walk returns, or the loop spinning forever. */
  datatype Walk = Crumbs(crumbs: seq<Crumb>) | Diverges

  /** JavaScript truthiness of a folder id: `null` and `0` are falsy. */
  predicate Truthy(id: Option<int>) {
    id.Some? && id.value != 0
  }

  function CrumbOf(f: Folder): Crumb {
    Crumb(f.id, f.name)
  }

  /** The ids of the user's folders: what the walk can visit. */
  function OwnedIds(folders: seq<Folder>, userId: int): set<int> {
    set f | f in folders && f.ownerId == userId :: f.id
  }

  /** `c` is the `{id, name}` of the folder the user-scoped lookup finds for
      `c.id`; in particular it names a folder `userId` owns. */
  ghost predicate Resolves(folders: seq<Folder>, userId: int, c: Crumb) {
    var f := FindOwnedFolder(folders, c.id, userId);
    f.Some? && CrumbOf(f.value) == c
  }

  ghost function ParentOf(folders: seq<Folder>, userId: int, c: Crumb): Option<int>
    requires Resolves(folders, userId, c)
  {
    FindOwnedFolder(folders, c.id, userId).value.parentId
  }

  /** The walk cannot go on past `c`: its parent id is falsy, or names a
      folder that is missing or belongs to someone else. */
  ghost predicate StopsAt(folders: seq<Folder>, userId: int, c: Crumb)
    requires Resolves(folders, userId, c)
  {
    var p := ParentOf(folders, userId, c);
    !Truthy(p) || FindOwnedFolder(folders, p.value, userId).None?
  }

  /** Leaf-first: every crumb resolves, and each crumb's parent is the next. */
  ghost predicate UpChain(folders: seq<Folder>, userId: int, cs: seq<Crumb>) {
    && (forall k :: 0 <= k < |cs| ==> Resolves(folders, userId, cs[k]))
    && (forall k :: 0 <= k < |cs| - 1 ==> ParentOf(folders, userId, cs[k]) == Some(cs[k + 1].id))
  }

  /** Root-first: every crumb resolves, and each crumb is the parent of the next. */
  ghost predicate DownChain(folders: seq<Folder>, userId: int, cs: seq<Crumb>) {
    && (forall k :: 0 <= k < |cs| ==> Resolves(folders, userId, cs[k]))
    && (forall k :: 0 <= k < |cs| - 1 ==> ParentOf(folders, userId, cs[k + 1]) == Some(cs[k].id))
  }

  /** The body of the `while (currentId)` loop before the reverse: the
      crumbs pushed from `current` upwards, leaf first. */
  function Ancestry(folders: seq<Folder>, userId: int, current: Option<int>, visited: set<int>): (w: Walk)
    decreases OwnedIds(folders, userId) - visited
    ensures !Truthy(current) || FindOwnedFolder(folders, current.value, userId).None? ==> w == Crumbs([])
    ensures Truthy(current) && FindOwnedFolder(folders, current.value, userId).Some? && w.Crumbs? ==>
              |w.crumbs| > 0 && w.crumbs[0] == CrumbOf(FindOwnedFolder(folders, current.value, userId).value)
    ensures w.Crumbs? ==> UpChain(folders, userId, w.crumbs)
    ensures w.Crumbs? && |w.crumbs| > 0 ==> StopsAt(folders, userId, w.crumbs[|w.crumbs| - 1])
  {
    if !Truthy(current) then Crumbs([])
    else match FindOwnedFolder(folders, current.value, userId)
      case None => Crumbs([])
      case Some(f) =>
        if f.id in visited then Diverges
        else
          assert f.id in OwnedIds(folders, userId);
          match Ancestry(folders, userId, f.parentId, visited + {f.id})
          case Diverges => Diverges
          case Crumbs(rest) => Crumbs([CrumbOf(f)] + rest)
  }

  function Reverse<T>(xs: seq<T>): (r: seq<T>)
    ensures |r| == |xs|
    ensures forall i :: 0 <= i < |xs| ==> r[i] == xs[|xs| - 1 - i]
  {
    seq(|xs|, i requires 0 <= i < |xs| => xs[|xs| - 1 - i])
  }

  /** `buildFolderBreadcrumbs(prisma, userId, folderId)`. */
  function BuildFolderBreadcrumbs(folders: seq<Folder>, userId: int, folderId: Option<int>): (w: Walk)
    ensures !Truthy(folderId) ==> w == Crumbs([])
    ensures Truthy(folderId) && FindOwnedFolder(folders, folderId.value, userId).None? ==> w == Crumbs([])
    ensures Truthy(folderId) && FindOwnedFolder(folders, folderId.value, userId).Some? && w.Crumbs? ==>
              |w.crumbs| > 0 && w.crumbs[|w.crumbs| - 1] == CrumbOf(FindOwnedFolder(folders, folderId.value, userId).value)
    ensures w.Crumbs? ==> DownChain(folders, userId, w.crumbs)
    ensures w.Crumbs? && |w.crumbs| > 0 ==> StopsAt(folders, userId, w.crumbs[0])
  {
    match Ancestry(folders, userId, folderId, {})
    case Diverges => Diverges
    case Crumbs(up) => Crumbs(Reverse(up))
  }

  /** Every crumb is the `{id, name}` of a folder in the store owned by
      `userId`: foreign folders never appear. */
  lemma CrumbsAreOwnedFolders(folders: seq<Folder>, userId: int, folderId: Option<int>, c: Crumb)
    requires BuildFolderBreadcrumbs(folders, userId, folderId).Crumbs?
    requires c in BuildFolderBreadcrumbs(folders, userId, folderId).crumbs
    ensures exists f :: f in folders && f.ownerId == userId && CrumbOf(f) == c
  {
    var cs := BuildFolderBreadcrumbs(folders, userId, folderId).crumbs;
    var k :| 0 <= k < |cs| && cs[k] == c;
    assert Resolves(folders, userId, cs[k]);
    var f := FindOwnedFolder(folders, c.id, userId).value;
    assert f in folders && f.ownerId == userId && CrumbOf(f) == c;
  }

  /** A root-first path of the user's folders that starts at a root (falsy
      parent), where each folder's parent is the one before it and every
      folder is what the user-scoped lookup finds for its id. Its length is
      the depth of its last folder. */
  ghost predicate RootedPath(folders: seq<Folder>, userId: int, path: seq<Folder>) {
    && |path| > 0
    && !Truthy(path[0].parentId)
    && (forall k :: 0 <= k < |path| ==> path[k].id != 0 && FindOwnedFolder(folders, path[k].id, userId) == Some(path[k]))
    && (forall k :: 0 < k < |path| ==> path[k].parentId == Some(path[k - 1].id))
  }

  /** A folder with no parent is its own breadcrumb trail. */
  lemma RootFolderBreadcrumbs(folders: seq<Folder>, userId: int, f: Folder)
    requires f.id != 0 && !Truthy(f.parentId) && FindOwnedFolder(folders, f.id, userId) == Some(f)
    ensures BuildFolderBreadcrumbs(folders, userId, Some(f.id)) == Crumbs([CrumbOf(f)])
  {
    assert RootedPath(folders, userId, [f]);
    BreadcrumbsOfRootedPath(folders, userId, [f]);
    assert seq(1, i requires 0 <= i < 1 => CrumbOf([f][i])) == [CrumbOf(f)];
  }

  /** A rooted path never repeats a folder. */
  lemma {:induction false} RootedPathIdsDistinct(folders: seq<Folder>, userId: int, path: seq<Folder>, i: int, j: int)
    requires RootedPath(folders, userId, path)
    requires 0 <= i < j < |path|
    ensures path[i].id != path[j].id
  {
    assert path[j].parentId == Some(path[j - 1].id) && path[j - 1].id != 0;
    if i > 0 {
      RootedPathIdsDistinct(folders, userId, path, i - 1, j - 1);
    }
    assert FindOwnedFolder(folders, path[i].id, userId) == Some(path[i]);
    assert FindOwnedFolder(folders, path[j].id, userId) == Some(path[j]);
  }

  function IdsAfter(path: seq<Folder>, k: nat): set<int> {
    set j | k < j < |path| :: path[j].id
  }

  /** The crumbs of `path[0..k]`, leaf first. */
  function UpCrumbs(path: seq<Folder>, k: nat): (r: seq<Crumb>)
    requires k < |path|
  {
    seq(k + 1, i requires 0 <= i <= k => CrumbOf(path[k - i]))
  }

  /** Walking up from `path[k]`, having visited the folders above it in the
      path, yields exactly the path below it, leaf first. */
  lemma {:induction false} AncestryAlongPath(folders: seq<Folder>, userId: int, path: seq<Folder>, k: nat)
    requires RootedPath(folders, userId, path)
    requires k < |path|
    ensures Ancestry(folders, userId, Some(path[k].id), IdsAfter(path, k)) == Crumbs(UpCrumbs(path, k))
  {
    var f := path[k];
    var visited := IdsAfter(path, k);
    assert f.id != 0 && FindOwnedFolder(folders, f.id, userId) == Some(f);
    NotYetVisited(folders, userId, path, k);
    if k == 0 {
      AncestryStep(folders, userId, f, visited, []);
      assert [CrumbOf(f)] == UpCrumbs(path, 0);
    } else {
      assert f.parentId == Some(path[k - 1].id);
      IdsAfterStep(path, k);
      AncestryAlongPath(folders, userId, path, k - 1);
      AncestryStep(folders, userId, f, visited, UpCrumbs(path, k - 1));
      UpCrumbsStep(path, k);
    }
  }

  /** On a rooted path, the walk reaches each folder before the ones below it. */
  lemma NotYetVisited(folders: seq<Folder>, userId: int, path: seq<Folder>, k: nat)
    requires RootedPath(folders, userId, path)
    requires k < |path|
    ensures path[k].id !in IdsAfter(path, k)
  {
    if path[k].id in IdsAfter(path, k) {
      var j :| k < j < |path| && path[j].id == path[k].id;
      RootedPathIdsDistinct(folders, userId, path, k, j);
    }
  }

  lemma IdsAfterStep(path: seq<Folder>, k: nat)
    requires 0 < k < |path|
    ensures IdsAfter(path, k) + {path[k].id} == IdsAfter(path, k - 1)
  {
  }

  lemma UpCrumbsStep(path: seq<Folder>, k: nat)
    requires 0 < k < |path|
    ensures [CrumbOf(path[k])] + UpCrumbs(path, k - 1) == UpCrumbs(path, k)
  {
  }

  /** One turn of the loop on a folder not yet visited. */
  lemma AncestryStep(folders: seq<Folder>, userId: int, f: Folder, visited: set<int>, rest: seq<Crumb>)
    requires f.id != 0 && FindOwnedFolder(folders, f.id, userId) == Some(f) && f.id !in visited
    requires Ancestry(folders, userId, f.parentId, visited + {f.id}) == Crumbs(rest)
    ensures Ancestry(folders, userId, Some(f.id), visited) == Crumbs([CrumbOf(f)] + rest)
  {
  }

  /** On a rooted path the walk from its last folder returns the whole path,
      root first: the first crumb is a root and the number of crumbs is the
      depth of the start folder. */
  lemma BreadcrumbsOfRootedPath(folders: seq<Folder>, userId: int, path: seq<Folder>)
    requires RootedPath(folders, userId, path)
    ensures BuildFolderBreadcrumbs(folders, userId, Some(path[|path| - 1].id))
            == Crumbs(seq(|path|, i requires 0 <= i < |path| => CrumbOf(path[i])))
  {
    var n := |path|;
    assert IdsAfter(path, n - 1) == {};
    AncestryAlongPath(folders, userId, path, n - 1);
    assert Reverse(UpCrumbs(path, n - 1)) == seq(n, i requires 0 <= i < n => CrumbOf(path[i]));
  }

  /** A rank that strictly drops from every folder of the user's to its
      resolved parent: the user's parent links have no cycle. */
  ghost predicate RankedBy(folders: seq<Folder>, userId: int, rank: int -> nat) {
    forall f :: f in folders && f.ownerId == userId && Truthy(f.parentId)
                && FindOwnedFolder(folders, f.parentId.value, userId).Some?
                ==> rank(FindOwnedFolder(folders, f.parentId.value, userId).value.id) < rank(f.id)
  }

  lemma {:induction false} AncestryTerminatesWhenRanked(folders: seq<Folder>, userId: int, rank: int -> nat,
                                                         current: Option<int>, visited: set<int>)
    requires RankedBy(folders, userId, rank)
    requires Truthy(current) && FindOwnedFolder(folders, current.value, userId).Some? ==>
               forall v :: v in visited ==> rank(FindOwnedFolder(folders, current.value, userId).value.id) < rank(v)
    ensures Ancestry(folders, userId, current, visited).Crumbs?
    decreases OwnedIds(folders, userId) - visited
  {
    if Truthy(current) && FindOwnedFolder(folders, current.value, userId).Some? {
      var f := FindOwnedFolder(folders, current.value, userId).value;
      assert f.id !in visited;
      assert f.id in OwnedIds(folders, userId);
      AncestryTerminatesWhenRanked(folders, userId, rank, f.parentId, visited + {f.id});
    }
  }

  /** Without cycles among the user's folders the walk always ends. */
  lemma BreadcrumbsTerminateWhenRanked(folders: seq<Folder>, userId: int, rank: int -> nat, folderId: Option<int>)
    requires RankedBy(folders, userId, rank)
    ensures BuildFolderBreadcrumbs(folders, userId, folderId).Crumbs?
  {
    AncestryTerminatesWhenRanked(folders, userId, rank, folderId, {});
  }

  /** Every parent id is smaller than its child's id. This holds whenever a
      folder's parent already existed when the folder was created, because
      ids come from an autoincrement counter. */
  predicate ParentsPrecede(s: Store) {
    forall f :: f in s.folders && f.parentId.Some? ==> f.parentId.value < f.id
  }

  /** When parents precede children the ids themselves rank the folders, so
      the walk ends from any start. */
  lemma BreadcrumbsTerminateWhenParentsPrecede(s: Store, userId: int, folderId: Option<int>)
    requires Valid(s) && ParentsPrecede(s)
    ensures BuildFolderBreadcrumbs(s.folders, userId, folderId).Crumbs?
  {
    var rank := (i: int) => if i < 0 then 0 else i;
    forall f | f in s.folders && f.ownerId == userId && Truthy(f.parentId)
                && FindOwnedFolder(s.folders, f.parentId.value, userId).Some?
      ensures rank(FindOwnedFolder(s.folders, f.parentId.value, userId).value.id) < rank(f.id)
    {
      var g := FindOwnedFolder(s.folders, f.parentId.value, userId).value;
      var i :| 0 <= i < |s.folders| && s.folders[i] == g;
      assert g.id >= 1;
    }
    BreadcrumbsTerminateWhenRanked(s.folders, userId, rank, folderId);
  }
}
