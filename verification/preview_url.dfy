/** The preview link of a stored file: `toPreviewUrl` in the utilities,
    and the inline `/uploads/<basename>` the controllers build by hand. */
module PreviewUrl {
  import opened Wrappers
  import opened Paths

  const UploadsPrefix: string := "/uploads/"

  /** A case-sensitive `http://` or `https://` prefix. */
  predicate IsHttpUrl(p: string) {
    "http://" <= p || "https://" <= p
  }

  /** `toPreviewUrl(storagePath)`; `None` stands for `null`/`undefined`. */
  function ToPreviewUrl(storagePath: Option<string>): (r: string)
    ensures storagePath.None? || storagePath == Some("") ==> r == ""
    ensures storagePath.Some? && IsHttpUrl(storagePath.value) ==> r == storagePath.value
    ensures storagePath.Some? && storagePath.value != "" && !IsHttpUrl(storagePath.value) ==>
              && UploadsPrefix <= r
              && r[|UploadsPrefix|..] == Basename(storagePath.value)
              && '/' !in r[|UploadsPrefix|..]
  {
    match storagePath
    case None => ""
    case Some(p) =>
      if p == "" then ""
      else if IsHttpUrl(p) then p
      else UploadsPrefix + Basename(p)
  }

  /** The `previewUrl` the folder and file views attach to each file; it
      never checks for a remote URL. */
  function InlinePreviewUrl(storagePath: string): (r: string)
    ensures UploadsPrefix <= r
    ensures '/' !in r[|UploadsPrefix|..]
    ensures r[|UploadsPrefix|..] == Basename(storagePath)
  {
    UploadsPrefix + Basename(storagePath)
  }

  /** The two constructions agree exactly on the non-empty paths that are
      not `http(s)` URLs. */
  lemma InlineAgreesWithToPreviewUrl(p: string)
    ensures InlinePreviewUrl(p) == ToPreviewUrl(Some(p)) <==> p != "" && !IsHttpUrl(p)
  {
    if p == "" {
      assert InlinePreviewUrl(p)[0] == '/';
    } else if IsHttpUrl(p) {
      assert p[0] == 'h';
      assert InlinePreviewUrl(p)[0] == '/';
    }
  }
}
