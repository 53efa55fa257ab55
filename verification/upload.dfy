/** The multer disk-storage configuration: the stored file name built from
    the clock, a random hex string and the sanitised original base name, and
    the 10 MiB size limit. `Date.now()` and `Math.random()` are parameters. */
module Upload {
  import opened Text
  import opened Paths

  /** `MAX_FILE_SIZE = 10 * 1024 * 1024` bytes. */
  const MaxFileSize: int := 10 * 1024 * 1024

  /** The characters `[\w.\-]` the sanitiser keeps. */
  predicate Allowed(c: char) {
    IsWordChar(c) || c == '.' || c == '-'
  }

  predicate AllAllowed(s: string) {
    forall i :: 0 <= i < |s| ==> Allowed(s[i])
  }

  /** Skips the leading characters that are not allowed. */
  function DropDisallowed(s: string): (r: string)
    ensures |r| <= |s| && r == s[|s| - |r|..]
    ensures forall i :: 0 <= i < |s| - |r| ==> !Allowed(s[i])
    ensures r == [] || Allowed(r[0])
  {
    if |s| > 0 && !Allowed(s[0]) then
      var r := DropDisallowed(s[1..]);
      assert forall i :: 1 <= i < |s| - |r| ==> s[i] == s[1..][i - 1];
      r
    else s
  }

  /** `.replace(/[^\w.\-]+/g, "_")`: each maximal run of characters that are
      not allowed becomes one `_`. */
  function Sanitize(s: string): (r: string)
    ensures AllAllowed(r)
    ensures |r| <= |s|
    decreases |s|
  {
    if |s| == 0 then []
    else if Allowed(s[0]) then [s[0]] + Sanitize(s[1..])
    else "_" + Sanitize(DropDisallowed(s[1..]))
  }

  /** The run lemma: an allowed prefix is kept, the whole run of disallowed
      characters after it becomes a single `_`, and sanitising goes on
      from the next allowed character. */
  lemma {:induction false} SanitizeRun(u: string, d: string, w: string)
    requires AllAllowed(u)
    requires |d| > 0 && forall i :: 0 <= i < |d| ==> !Allowed(d[i])
    requires w == [] || Allowed(w[0])
    ensures Sanitize(u + d + w) == u + "_" + Sanitize(w)
  {
    var x := d + w;
    assert u + d + w == u + x;
    SanitizeAllowedPrefix(u, x);
    SanitizeRunStart(d, w);
    assert u + ("_" + Sanitize(w)) == u + "_" + Sanitize(w);
  }

  /** An allowed prefix passes through unchanged. */
  lemma {:induction false} SanitizeAllowedPrefix(u: string, x: string)
    requires AllAllowed(u)
    ensures Sanitize(u + x) == u + Sanitize(x)
  {
    if |u| > 0 {
      var c := u[0];
      var v := u[1..];
      assert Allowed(c);
      assert AllAllowed(v) by {
        forall i | 0 <= i < |v|
          ensures Allowed(v[i])
        {
          assert v[i] == u[i + 1];
        }
      }
      SanitizeAllowedPrefix(v, x);
      assert u == [c] + v;
      assert u + x == [c] + (v + x);
      SanitizeKeepsAllowed(c, v + x);
      assert [c] + (v + Sanitize(x)) == u + Sanitize(x);
    } else {
      assert u + x == x;
    }
  }

  lemma SanitizeKeepsAllowed(c: char, t: string)
    requires Allowed(c)
    ensures Sanitize([c] + t) == [c] + Sanitize(t)
  {
    assert ([c] + t)[1..] == t;
  }

  lemma SanitizeRunStart(d: string, w: string)
    requires |d| > 0 && forall i :: 0 <= i < |d| ==> !Allowed(d[i])
    requires w == [] || Allowed(w[0])
    ensures Sanitize(d + w) == "_" + Sanitize(w)
  {
    var s := d + w;
    assert s[0] == d[0] && s[1..] == d[1..] + w;
    DropRun(d[1..], w);
  }

  lemma {:induction false} DropRun(d: string, w: string)
    requires forall i :: 0 <= i < |d| ==> !Allowed(d[i])
    requires w == [] || Allowed(w[0])
    ensures DropDisallowed(d + w) == w
  {
    if |d| > 0 {
      assert (d + w)[1..] == d[1..] + w;
      DropRun(d[1..], w);
    } else {
      assert d + w == w;
    }
  }

  /** A name made only of allowed characters is left unchanged. */
  lemma SanitizeFixesAllowed(s: string)
    requires AllAllowed(s)
    ensures Sanitize(s) == s
  {
    SanitizeAllowedPrefix(s, []);
    assert s + [] == s;
  }

  /** Sanitising twice is sanitising once. */
  lemma SanitizeIdempotent(s: string)
    ensures Sanitize(Sanitize(s)) == Sanitize(s)
  {
    SanitizeFixesAllowed(Sanitize(s));
  }

  /** `path.basename(file.originalname)` sanitised. */
  function SafeBase(originalName: string): (r: string)
    ensures AllAllowed(r) && '/' !in r
    ensures |r| <= |Basename(originalName)|
  {
    var r := Sanitize(Basename(originalName));
    AllowedHasNoSlash(r);
    r
  }

  /** A name of allowed characters has no path separator. */
  lemma AllowedHasNoSlash(r: string)
    requires AllAllowed(r)
    ensures '/' !in r
  {
    forall i | 0 <= i < |r|
      ensures r[i] != '/'
    {
      assert Allowed(r[i]);
    }
  }

  /** The characters of `Math.random().toString(16).slice(2)`. */
  predicate IsHex(s: string) {
    forall i :: 0 <= i < |s| ==> IsDigit(s[i]) || 'a' <= s[i] <= 'f'
  }

  /** The multer `filename` callback: `${Date.now()}_${hex}_${safeBase}`. */
  function StoredName(stamp: nat, hex: string, originalName: string): (r: string)
    ensures NatToDecimal(stamp) + "_" <= r
    ensures |SafeBase(originalName)| < |r| && r[|r| - |SafeBase(originalName)|..] == SafeBase(originalName)
    ensures IsHex(hex) ==> |r| > 0 && '/' !in r
  {
    var r := NatToDecimal(stamp) + "_" + hex + "_" + SafeBase(originalName);
    assert r == (NatToDecimal(stamp) + "_") + (hex + "_" + SafeBase(originalName));
    assert r == (NatToDecimal(stamp) + "_" + hex + "_") + SafeBase(originalName);
    StoredNameHasNoSlash(NatToDecimal(stamp), hex, SafeBase(originalName));
    r
  }

  lemma StoredNameHasNoSlash(a: string, hex: string, base: string)
    requires AllDigits(a) && '/' !in base
    ensures IsHex(hex) ==> '/' !in a + "_" + hex + "_" + base
  {
    if IsHex(hex) {
      var r := a + "_" + hex + "_" + base;
      forall i | 0 <= i < |r| ensures r[i] != '/' {
        if i < |a| {
          assert r[i] == a[i];
        } else if i == |a| || i == |a| + |hex| + 1 {
          assert r[i] == '_';
        } else if i <= |a| + |hex| {
          assert r[i] == hex[i - |a| - 1];
        } else {
          assert r[i] == base[i - |a| - |hex| - 2];
        }
      }
    }
  }

  /** The stored name starts with the clock reading, which its leading
      digits give back. */
  lemma StoredNameStampRoundTrip(stamp: nat, hex: string, originalName: string)
    ensures var d := NatToDecimal(stamp);
            && StoredName(stamp, hex, originalName)[..|d|] == d
            && DecimalValue(StoredName(stamp, hex, originalName)[..|d|]) == stamp
  {
    DecimalRoundTrip(stamp);
  }

  /** multer's `file.path`: the stored name inside the upload directory.
      Its basename is the stored name, so the link `/uploads/<basename>`
      points at the file multer wrote. */
  function StoredPath(uploadDir: string, stamp: nat, hex: string, originalName: string): (r: string)
    ensures uploadDir + "/" <= r
    ensures IsHex(hex) ==> Basename(r) == StoredName(stamp, hex, originalName)
  {
    var name := StoredName(stamp, hex, originalName);
    if IsHex(hex) then
      BasenameOfJoin(uploadDir, name);
      uploadDir + "/" + name
    else
      uploadDir + "/" + name
  }
}
