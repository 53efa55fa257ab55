/** `isSharedFolder(folderId, userId)`: the token of a live share of the
    folder issued by the user, or `null`. The clock reading `new Date()` is
    the parameter `now`. */
module SharedFolder {
  import opened Wrappers
  import opened Repository

  /** A share is live iff it never expires or expires strictly after `now`. */
  predicate IsLive(sh: Share, now: int) {
    sh.expiresAt.None? || sh.expiresAt.value > now
  }

  predicate Matches(sh: Share, folderId: int, userId: int) {
    sh.folderId == folderId && sh.ownerId == userId
  }

  function IsSharedFolder(shares: seq<Share>, folderId: int, userId: int, now: int): (r: Option<string>)
    ensures r.Some? ==> exists sh :: sh in shares && Matches(sh, folderId, userId) && IsLive(sh, now) && sh.token == r.value
    ensures r.None? <==> forall sh :: sh in shares && Matches(sh, folderId, userId) ==> !IsLive(sh, now)
  {
    match FindFirst(shares, (sh: Share) => Matches(sh, folderId, userId) && IsLive(sh, now))
    case None => None
    case Some(sh) => Some(sh.token)
  }

  /** At `expiresAt == now` a share has already expired: when every
      matching share expires exactly now, nothing is returned. */
  lemma ExpiringNowIsNotShared(shares: seq<Share>, folderId: int, userId: int, now: int)
    requires forall sh :: sh in shares && Matches(sh, folderId, userId) ==> sh.expiresAt == Some(now)
    ensures IsSharedFolder(shares, folderId, userId, now) == None
  {
  }

  /** Liveness only shrinks as time passes: a folder found shared at `later`
      was already found shared at any `earlier` time. */
  lemma SharedEarlierIfSharedLater(shares: seq<Share>, folderId: int, userId: int, earlier: int, later: int)
    requires earlier <= later
    requires IsSharedFolder(shares, folderId, userId, later).Some?
    ensures IsSharedFolder(shares, folderId, userId, earlier).Some?
  {
    var t := IsSharedFolder(shares, folderId, userId, later).value;
    var sh :| sh in shares && Matches(sh, folderId, userId) && IsLive(sh, later) && sh.token == t;
    assert IsLive(sh, earlier);
  }
}
