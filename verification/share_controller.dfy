/** `postShareToken`, `getFolder` and `renderShareForm`. The `uuidv4()`
    token and the parsed `new Date(expires)` are parameters. */
module ShareController {
  import opened Wrappers
  import opened Repository
  import opened Http
  import opened SharedFolder

  /** The page both handlers render when the `:folderId` parameter is not
      an integer. */
  const FolderNotFoundError: Response :=
    Render(404, "error", ErrorPage("Folder not found", "Folder Not Found."))

  /** `postShareToken`, as written. `folderParam` is
      `Number(req.params.folderId)` when that is an integer, `expires` the
      parsed `req.body.expires` when that field is non-empty. Nothing checks
      that the folder exists or belongs to the user. */
  function PostShareToken(s: Store, user: Option<int>, folderParam: Option<int>,
                          expires: Option<int>, token: string): (r: Step)
    ensures user.None? ==> r == Step(ToLogin, s)
    ensures user.Some? && folderParam.None? ==> r == Step(FolderNotFoundError, s)
    ensures user.Some? && folderParam.Some? ==>
              && r.response == Redirect("/share/" + token)
              && r.store.shares == s.shares + [Share(token, user.value, folderParam.value, expires)]
              && r.store.folders == s.folders && r.store.files == s.files
    ensures r.store.folders == s.folders && r.store.files == s.files
    ensures r.store.nextFolderId == s.nextFolderId && r.store.nextFileId == s.nextFileId
  {
    match user
    case None => Step(ToLogin, s)
    case Some(u) =>
      match folderParam
      case None => Step(FolderNotFoundError, s)
      case Some(fid) =>
        var c := CreateShare(s, token, u, fid, expires);
        Step(Redirect("/share/" + c.row.token), c.store)
  }

  /** A share issued with no expiry, or one after `now`, is what
      `isSharedFolder` finds for that folder and user; when no live share
      existed before, it returns the new token. */
  lemma IssuedShareIsFound(s: Store, user: int, folderId: int, expires: Option<int>, token: string, now: int)
    requires expires.None? || expires.value > now
    ensures var r := PostShareToken(s, Some(user), Some(folderId), expires, token);
            && IsSharedFolder(r.store.shares, folderId, user, now).Some?
            && (IsSharedFolder(s.shares, folderId, user, now).None? ==>
                  IsSharedFolder(r.store.shares, folderId, user, now) == Some(token))
  {
    var r := PostShareToken(s, Some(user), Some(folderId), expires, token);
    var sh := Share(token, user, folderId, expires);
    assert sh in r.store.shares && Matches(sh, folderId, user) && IsLive(sh, now);
    if IsSharedFolder(s.shares, folderId, user, now).None? {
      var t := IsSharedFolder(r.store.shares, folderId, user, now).value;
      var x :| x in r.store.shares && Matches(x, folderId, user) && IsLive(x, now) && x.token == t;
      assert x !in s.shares;
      assert x == sh;
    }
  }

  /** Issuing a share does not look at the folders at all: the outcome is
      the same whatever folders exist. */
  lemma ShareIssuingIgnoresFolders(s: Store, folders: seq<Folder>, user: Option<int>, folderParam: Option<int>,
                                   expires: Option<int>, token: string)
    ensures var a := PostShareToken(s, user, folderParam, expires, token);
            var b := PostShareToken(s.(folders := folders), user, folderParam, expires, token);
            a.response == b.response && a.store.shares == b.store.shares
  {
  }

  /** A signed-in user can share a folder of another user, which breaks
      the rule that every share points at a folder of its owner. */
  lemma ForeignFolderCanBeShared(s: Store, user: int, g: Folder, expires: Option<int>, token: string)
    requires Valid(s) && g in s.folders && g.ownerId != user
    ensures var r := PostShareToken(s, Some(user), Some(g.id), expires, token);
            r.response == Redirect("/share/" + token) && !SharesOnOwnedFolders(r.store)
  {
    var r := PostShareToken(s, Some(user), Some(g.id), expires, token);
    var sh := Share(token, user, g.id, expires);
    assert sh in r.store.shares;
  }

  /** `getFolder(folderId, ownerId)`: the folder with that id, only if the
      user owns it. */
  lemma GetFolderOnlyFindsOwnFolders(s: Store, folderId: int, ownerId: int)
    requires Valid(s)
    ensures FindOwnedFolder(s.folders, folderId, ownerId).Some? <==>
              FindFolder(s.folders, folderId).Some? && FindFolder(s.folders, folderId).value.ownerId == ownerId
    ensures FindOwnedFolder(s.folders, folderId, ownerId).Some? ==>
              FindOwnedFolder(s.folders, folderId, ownerId) == FindFolder(s.folders, folderId)
  {
    if FindOwnedFolder(s.folders, folderId, ownerId).Some? {
      FindFolderIsThatFolder(s, FindOwnedFolder(s.folders, folderId, ownerId).value);
    }
    if FindFolder(s.folders, folderId).Some? {
      FindFolderIsThatFolder(s, FindFolder(s.folders, folderId).value);
    }
  }

  /** `postShareToken` with the ownership check `getFolder` offers: a
      missing or foreign folder gets the not-found page and no share. */
  function PostShareTokenOwned(s: Store, user: Option<int>, folderParam: Option<int>,
                               expires: Option<int>, token: string): (r: Step)
    ensures user.None? ==> r == Step(ToLogin, s)
    ensures user.Some? && (folderParam.None? || FindOwnedFolder(s.folders, folderParam.value, user.value).None?) ==>
              r == Step(FolderNotFoundError, s)
    ensures r.store != s ==>
              && user.Some? && folderParam.Some?
              && FindOwnedFolder(s.folders, folderParam.value, user.value).Some?
              && r.response == Redirect("/share/" + token)
              && r.store.shares == s.shares + [Share(token, user.value, folderParam.value, expires)]
              && r.store.folders == s.folders && r.store.files == s.files
    ensures r.store.folders == s.folders && r.store.files == s.files
    ensures r.store.nextFolderId == s.nextFolderId && r.store.nextFileId == s.nextFileId
    ensures SharesOnOwnedFolders(s) ==> SharesOnOwnedFolders(r.store)
  {
    match user
    case None => Step(ToLogin, s)
    case Some(u) =>
      match folderParam
      case None => Step(FolderNotFoundError, s)
      case Some(fid) =>
        if FindOwnedFolder(s.folders, fid, u).None? then Step(FolderNotFoundError, s)
        else
          var c := CreateShare(s, token, u, fid, expires);
          Step(Redirect("/share/" + c.row.token), c.store)
  }

  /** On an owned folder the corrected handler behaves exactly like the
      original one. */
  lemma OwnedShareMatchesOriginal(s: Store, user: int, folderId: int, expires: Option<int>, token: string)
    requires FindOwnedFolder(s.folders, folderId, user).Some?
    ensures PostShareTokenOwned(s, Some(user), Some(folderId), expires, token)
         == PostShareToken(s, Some(user), Some(folderId), expires, token)
  {
  }

  /** `renderShareForm`: the form is rendered even when the user owns no
      folder with that id; `folder` is then `null`. */
  function RenderShareForm(s: Store, user: Option<int>, folderParam: Option<int>): (r: Response)
    ensures user.None? ==> r == ToLogin
    ensures user.Some? && folderParam.None? ==> r == FolderNotFoundError
    ensures user.Some? && folderParam.Some? ==>
              && r.Render? && r.status == 200 && r.template == "shareForm" && r.view.ShareFormPage?
              && r.view.folderId == folderParam.value && r.view.ownerId == user.value
              && (r.view.foundFolder.Some? ==>
                    && r.view.foundFolder.value in s.folders
                    && r.view.foundFolder.value.id == folderParam.value
                    && r.view.foundFolder.value.ownerId == user.value)
              && (r.view.foundFolder.None? <==>
                    forall f :: f in s.folders ==> !(f.id == folderParam.value && f.ownerId == user.value))
  {
    match user
    case None => ToLogin
    case Some(u) =>
      match folderParam
      case None => FolderNotFoundError
      case Some(fid) => Render(200, "shareForm", ShareFormPage("Share a folder", fid, u, FindOwnedFolder(s.folders, fid, u)))
  }
}
