/** The part of Node's `node:path` module the program uses: the POSIX
    `path.basename(p)` (no suffix argument). */
module Paths {

  /** Drops the trailing `/` characters of a path. */
  function StripTrailingSlashes(p: string): (r: string)
    ensures |r| <= |p| && r == p[..|r|]
    ensures forall i :: |r| <= i < |p| ==> p[i] == '/'
    ensures r == [] || r[|r| - 1] != '/'
  {
    if |p| > 0 && p[|p| - 1] == '/' then StripTrailingSlashes(p[..|p| - 1]) else p
  }

  /** The part of a path after its last `/`; the whole path when it has none. */
  function LastSegment(p: string): (r: string)
    ensures |r| <= |p| && r == p[|p| - |r|..]
    ensures '/' !in r
    ensures |r| == |p| || p[|p| - |r| - 1] == '/'
  {
    if |p| == 0 || p[|p| - 1] == '/' then [] else LastSegment(p[..|p| - 1]) + [p[|p| - 1]]
  }

  /** `path.basename(p)`: trailing slashes are ignored, then the last
      segment is returned (so `"a/b/"` gives `"b"` and `"/"` gives `""`). */
  function Basename(p: string): (r: string)
    ensures '/' !in r
    ensures '/' !in p ==> r == p
    ensures |r| <= |p|
  {
    LastSegment(StripTrailingSlashes(p))
  }

  /** A name joined under any directory comes back out of `Basename`. */
  lemma BasenameOfJoin(dir: string, name: string)
    requires |name| > 0 && '/' !in name
    ensures Basename(dir + "/" + name) == name
  {
    var p := dir + "/" + name;
    assert StripTrailingSlashes(p) == p;
    var k := |name|;
    assert p[|p| - k - 1] == '/';
    assert p[|p| - k..] == name;
    LastSegmentAfterSlash(p, k);
  }

  /** `LastSegment` stops exactly at the last `/`. */
  lemma {:induction false} LastSegmentAfterSlash(p: string, k: nat)
    requires k < |p| && p[|p| - k - 1] == '/'
    requires '/' !in p[|p| - k..]
    ensures LastSegment(p) == p[|p| - k..]
  {
    if k > 0 {
      var q := p[..|p| - 1];
      assert q[|q| - (k - 1)..] == p[|p| - k..|p| - 1];
      assert p[|p| - 1] in p[|p| - k..];
      LastSegmentAfterSlash(q, k - 1);
      assert p[|p| - k..] == p[|p| - k..|p| - 1] + [p[|p| - 1]];
    }
  }

  /** `Basename` of a basename changes nothing. */
  lemma BasenameIdempotent(p: string)
    ensures Basename(Basename(p)) == Basename(p)
  {
  }
}
